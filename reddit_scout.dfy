/**
 * The Reddit scout's two tool functions: the live fetch, gated on three
 * credentials and shaping the client library's outcome into a one-key result,
 * and the mock fetch over a fixed catalog with a bounded sample.
 */
module RedditScout {

  import opened Wrappers
  import opened Text

  /** The tools' return value: subreddit name to titles or to one message. */
  type FetchResult = map<string, seq<string>>

  // ---------------------------------------------------------------------------
  // Live fetch
  // ---------------------------------------------------------------------------

  /** REDDIT_CLIENT_ID, REDDIT_CLIENT_SECRET and REDDIT_USER_AGENT as read from the environment. */
  datatype Credentials = Credentials(clientId: Option<string>, clientSecret: Option<string>, userAgent: Option<string>)

  /** Python truthiness of an environment lookup: missing or empty is false. */
  predicate Truthy(v: Option<string>) {
    v.Some? && v.value != ""
  }

  /** The `all([...])` gate over the three credentials. */
  predicate Configured(c: Credentials) {
    Truthy(c.clientId) && Truthy(c.clientSecret) && Truthy(c.userAgent)
  }

  /**
   * What the client construction, the exact-name probe and the hot listing
   * together produced: the titles of the listed posts in service order, a
   * PRAWException with its text, or any other `Exception` with its text.
   */
  datatype ApiOutcome = Listing(titles: seq<string>) | PrawError(detail: string) | OtherError(detail: string)

  // The longer messages are written as concatenations of shorter literals so
  // that the verifier can look at their first characters.

  const CredentialsMissingMessage: string := "Error: Reddit API " + "credentials not configured."

  function NoPostsMessage(subreddit: string): string {
    "No recent hot posts found in r/" + subreddit + "."
  }

  const ApiErrorPrefix: string := "Error accessing r/"
  const ApiErrorInfix: string := ". It might be private, banned, or non-existent. Details: "

  function ApiErrorMessage(subreddit: string, detail: string): string {
    ApiErrorPrefix + subreddit + ApiErrorInfix + detail
  }

  function UnexpectedErrorMessage(subreddit: string): string {
    "An unexpected error occurred " + "while fetching from r/" + subreddit + "."
  }

  /**
   * get_reddit_gamedev_news. `limit` (default 5) is only handed to the
   * service, whose answer is `outcome`; nothing here truncates by it. The result always has
   * the one key `subreddit`, exactly as given, and never an empty value.
   */
  function GetRedditGamedevNews(subreddit: string, creds: Credentials, outcome: ApiOutcome, limit: int := 5): (r: FetchResult)
    ensures r.Keys == {subreddit}
    ensures |r[subreddit]| >= 1
  {
    if !Configured(creds) then
      map[subreddit := [CredentialsMissingMessage]]
    else
      match outcome
      case Listing(titles) =>
        if titles == [] then map[subreddit := [NoPostsMessage(subreddit)]]
        else map[subreddit := titles]
      case PrawError(e) => map[subreddit := [ApiErrorMessage(subreddit, e)]]
      case OtherError(_) => map[subreddit := [UnexpectedErrorMessage(subreddit)]]
  }

  /** Missing credentials give the fixed message whatever the service would have done. */
  lemma CredentialGate(subreddit: string, limit: int, creds: Credentials, o1: ApiOutcome, o2: ApiOutcome)
    requires !Configured(creds)
    ensures GetRedditGamedevNews(subreddit, creds, o1, limit) == GetRedditGamedevNews(subreddit, creds, o2, limit)
    ensures GetRedditGamedevNews(subreddit, creds, o1, limit)[subreddit] == [CredentialsMissingMessage]
  {
  }

  /**
   * The credential message comes out for every outcome exactly when the
   * credentials are not all configured.
   */
  lemma CredentialGateIff(subreddit: string, limit: int, creds: Credentials)
    ensures (forall o :: GetRedditGamedevNews(subreddit, creds, o, limit)[subreddit] == [CredentialsMissingMessage])
            <==> !Configured(creds)
  {
    if Configured(creds) {
      var o := OtherError("");
      MessagesDistinct(subreddit, "");
      assert GetRedditGamedevNews(subreddit, creds, o, limit)[subreddit] != [CredentialsMissingMessage];
    }
  }

  /** A non-empty listing is returned as is: same titles, same order, not cut to `limit`. */
  lemma ListingPassedThrough(subreddit: string, limit: int, creds: Credentials, titles: seq<string>)
    requires Configured(creds) && titles != []
    ensures GetRedditGamedevNews(subreddit, creds, Listing(titles), limit)[subreddit] == titles
  {
  }

  /** An empty listing becomes the single "no posts" message, never an empty list. */
  lemma EmptyListingMessage(subreddit: string, limit: int, creds: Credentials)
    requires Configured(creds)
    ensures GetRedditGamedevNews(subreddit, creds, Listing([]), limit)[subreddit] == [NoPostsMessage(subreddit)]
    ensures Contains(NoPostsMessage(subreddit), "r/" + subreddit)
  {
    ContainsMiddle("No recent hot posts found in ", "r/" + subreddit, ".");
    assert NoPostsMessage(subreddit) == "No recent hot posts found in " + ("r/" + subreddit) + ".";
  }

  /** A PRAWException gives one message naming r/subreddit and embedding the detail. */
  lemma ApiErrorReported(subreddit: string, limit: int, creds: Credentials, detail: string)
    requires Configured(creds)
    ensures GetRedditGamedevNews(subreddit, creds, PrawError(detail), limit)[subreddit] == [ApiErrorMessage(subreddit, detail)]
    ensures Contains(ApiErrorMessage(subreddit, detail), "r/" + subreddit)
    ensures Contains(ApiErrorMessage(subreddit, detail), detail)
  {
    var m := ApiErrorMessage(subreddit, detail);
    ContainsMiddle("Error accessing ", "r/" + subreddit, ApiErrorInfix + detail);
    assert m == "Error accessing " + ("r/" + subreddit) + (ApiErrorInfix + detail);
    ContainsMiddle(ApiErrorPrefix + subreddit + ApiErrorInfix, detail, "");
    assert m == ApiErrorPrefix + subreddit + ApiErrorInfix + detail + "";
  }

  /** The error detail can be read back from the API error message: it is embedded whole. */
  lemma {:induction false} ApiErrorDetailRecoverable(subreddit: string, d1: string, d2: string)
    requires ApiErrorMessage(subreddit, d1) == ApiErrorMessage(subreddit, d2)
    ensures d1 == d2
  {
    var head := ApiErrorPrefix + subreddit + ApiErrorInfix;
    assert ApiErrorMessage(subreddit, d1) == head + d1;
    assert ApiErrorMessage(subreddit, d2) == head + d2;
    assert d1 == (head + d1)[|head|..];
    assert d2 == (head + d2)[|head|..];
  }

  /** Any other exception gives one fixed message naming r/subreddit; its detail has no influence. */
  lemma UnexpectedErrorReported(subreddit: string, limit: int, creds: Credentials, d1: string, d2: string)
    requires Configured(creds)
    ensures GetRedditGamedevNews(subreddit, creds, OtherError(d1), limit)
         == GetRedditGamedevNews(subreddit, creds, OtherError(d2), limit)
    ensures GetRedditGamedevNews(subreddit, creds, OtherError(d1), limit)[subreddit] == [UnexpectedErrorMessage(subreddit)]
    ensures Contains(UnexpectedErrorMessage(subreddit), "r/" + subreddit)
  {
    var head := "An unexpected error occurred " + "while fetching from ";
    ContainsMiddle(head, "r/" + subreddit, ".");
    assert UnexpectedErrorMessage(subreddit) == head + ("r/" + subreddit) + ".";
  }

  /** The four messages of the live fetch are pairwise different: each names its own branch. */
  lemma MessagesDistinct(subreddit: string, detail: string)
    ensures CredentialsMissingMessage != NoPostsMessage(subreddit)
    ensures CredentialsMissingMessage != ApiErrorMessage(subreddit, detail)
    ensures CredentialsMissingMessage != UnexpectedErrorMessage(subreddit)
    ensures NoPostsMessage(subreddit) != ApiErrorMessage(subreddit, detail)
    ensures NoPostsMessage(subreddit) != UnexpectedErrorMessage(subreddit)
    ensures ApiErrorMessage(subreddit, detail) != UnexpectedErrorMessage(subreddit)
  {
    var n, a, u := NoPostsMessage(subreddit), ApiErrorMessage(subreddit, detail), UnexpectedErrorMessage(subreddit);
    assert CredentialsMissingMessage[0] == 'E' && CredentialsMissingMessage[5] == ':';
    assert n[0] == 'N';
    assert a[0] == 'E' && a[5] == ' ';
    assert u[0] == 'A';
  }

  // ---------------------------------------------------------------------------
  // Mock fetch
  // ---------------------------------------------------------------------------

  /** The mock's built-in titles for r/gamedev. */
  const GamedevTitles: seq<string> := [
    "Show HN: My new procedural level generator using Rust",
    "Unity releases update 2023.3 LTS - Key features discussion",
    "Best practices for optimizing physics in networked multiplayer games",
    "Debate: Is ECS the future for all game engines? Performance comparison.",
    "Looking for constructive feedback on my indie game's pixel art style",
    "How to get started with Godot 4.2 GDScript",
    "Unreal Engine 5.4 Nanite & Lumen deep dive"
  ]

  /** The mock's built-in titles for r/unrealengine. */
  const UnrealEngineTitles: seq<string> := [
    "Unreal Engine 5.4 Performance Guide for large open worlds",
    "How to implement advanced Niagara particle effects for magic spells",
    "MetaHumans Animator tutorial: Lip sync and facial expressions",
    "Showcase: Sci-Fi cinematic created entirely in UE5",
    "Troubleshooting Lumen global illumination artifacts in indoor scenes",
    "Marketplace highlight: Advanced locomotion system",
    "Tips for migrating projects from UE4 to UE5"
  ]

  /** The mock's built-in titles for r/unity3d. */
  const Unity3dTitles: seq<string> := [
    "Best practices for mobile game optimization in Unity 2023 LTS",
    "Understanding Unity's Data-Oriented Technology Stack (DOTS) and Burst Compiler",
    "Tutorial: Creating custom PBR shaders with Unity Shader Graph",
    "Top free assets from the Unity Asset Store this month",
    "Migrating project from URP to HDRP - Common pitfalls and solutions",
    "Introduction to Unity Muse for texture generation",
    "Networking in Unity: Netcode for GameObjects vs Photon PUN"
  ]

  /** The mock's catalog, keyed by lower-case subreddit name. */
  const MockCatalog: map<string, seq<string>> := map[
    "gamedev" := GamedevTitles,
    "unrealengine" := UnrealEngineTitles,
    "unity3d" := Unity3dTitles
  ]

  /** The most titles the mock returns at once. */
  const SampleSize: nat := 3

  function Min(a: nat, b: nat): nat {
    if a <= b then a else b
  }

  predicate Distinct<T(==)>(s: seq<T>) {
    forall i, j :: 0 <= i < j < |s| ==> s[i] != s[j]
  }

  /**
   * What `random.sample(population, k)` may choose for a population of n:
   * k positions, each in range, none twice.
   */
  predicate IsSample(picks: seq<int>, n: nat, k: nat) {
    && |picks| == k
    && (forall i :: 0 <= i < |picks| ==> 0 <= picks[i] < n)
    && Distinct(picks)
  }

  /** The elements of `avail` at the chosen positions, in the order chosen. */
  function Select(avail: seq<string>, picks: seq<int>): (r: seq<string>)
    requires forall i :: 0 <= i < |picks| ==> 0 <= picks[i] < |avail|
  {
    seq(|picks|, i requires 0 <= i < |picks| => avail[picks[i]])
  }

  function UnknownMockMessage(subreddit: string): string {
    "Sorry, I don't have mock data for r/" + subreddit + "."
  }

  /** The number of titles random.sample is asked for when the lookup succeeds. */
  function MockCount(subreddit: string): nat
    requires AsciiLower(subreddit) in MockCatalog
  {
    Min(|MockCatalog[AsciiLower(subreddit)]|, SampleSize)
  }

  /**
   * get_mock_reddit_gamedev_news. The random draw is the parameter `picks`,
   * constrained as random.sample constrains its choice; it is ignored for an
   * unknown name. Looked up by the folded name, keyed by the original one.
   */
  function GetMockRedditGamedevNews(subreddit: string, picks: seq<int>): (r: FetchResult)
    requires AsciiLower(subreddit) in MockCatalog ==>
               IsSample(picks, |MockCatalog[AsciiLower(subreddit)]|, MockCount(subreddit))
    ensures r.Keys == {subreddit}
    ensures AsciiLower(subreddit) in MockCatalog ==>
              && |r[subreddit]| == MockCount(subreddit)
              && (forall t :: t in r[subreddit] ==> t in MockCatalog[AsciiLower(subreddit)])
    ensures AsciiLower(subreddit) !in MockCatalog ==> r[subreddit] == [UnknownMockMessage(subreddit)]
  {
    var normalized := AsciiLower(subreddit);
    if normalized in MockCatalog then
      var available := MockCatalog[normalized];
      map[subreddit := Select(available, picks)]
    else
      map[subreddit := [UnknownMockMessage(subreddit)]]
  }

  /** Every catalog entry has seven titles, no two alike. */
  lemma CatalogEntriesDistinct()
    ensures forall k :: k in MockCatalog ==> |MockCatalog[k]| == 7 && Distinct(MockCatalog[k])
  {
    assert Distinct(GamedevTitles);
    assert Distinct(UnrealEngineTitles);
    assert Distinct(Unity3dTitles);
  }

  /** The catalog knows exactly three subreddits. */
  lemma CatalogKeys()
    ensures MockCatalog.Keys == {"gamedev", "unrealengine", "unity3d"}
  {
  }

  /** Every catalog key is already lower-case, so each entry is found by its own key. */
  lemma CatalogKeysFolded()
    ensures forall k :: k in MockCatalog ==> AsciiLower(k) == k
  {
    CatalogKeys();
    forall k | k in MockCatalog ensures AsciiLower(k) == k {
      assert k == "gamedev" || k == "unrealengine" || k == "unity3d";
      AsciiLowerFixesLowercase(k);
    }
  }

  /**
   * For a known name the mock returns three titles, all from the matching
   * entry, none twice.
   */
  lemma MockKnownShape(subreddit: string, picks: seq<int>)
    requires AsciiLower(subreddit) in MockCatalog
    requires IsSample(picks, |MockCatalog[AsciiLower(subreddit)]|, MockCount(subreddit))
    ensures |GetMockRedditGamedevNews(subreddit, picks)[subreddit]| == 3
    ensures Distinct(GetMockRedditGamedevNews(subreddit, picks)[subreddit])
  {
    CatalogEntriesDistinct();
    var avail := MockCatalog[AsciiLower(subreddit)];
    var r := GetMockRedditGamedevNews(subreddit, picks)[subreddit];
    forall i, j | 0 <= i < j < |r| ensures r[i] != r[j] {
      assert r[i] == avail[picks[i]] && r[j] == avail[picks[j]];
    }
  }

  /**
   * The model leaves the draw as free as random.sample does: every sequence of
   * MockCount distinct titles of the entry is the result of some valid draw.
   */
  lemma MockSampleComplete(subreddit: string, titles: seq<string>)
    requires AsciiLower(subreddit) in MockCatalog
    requires |titles| == MockCount(subreddit) && Distinct(titles)
    requires forall t :: t in titles ==> t in MockCatalog[AsciiLower(subreddit)]
    ensures exists picks :: IsSample(picks, |MockCatalog[AsciiLower(subreddit)]|, MockCount(subreddit))
                            && GetMockRedditGamedevNews(subreddit, picks)[subreddit] == titles
  {
    var avail := MockCatalog[AsciiLower(subreddit)];
    var picks := seq(|titles|, i requires 0 <= i < |titles| => IndexOf(avail, titles[i]));
    forall i, j | 0 <= i < j < |picks| ensures picks[i] != picks[j] {
      assert avail[picks[i]] == titles[i] && avail[picks[j]] == titles[j];
    }
    assert IsSample(picks, |avail|, MockCount(subreddit));
    assert GetMockRedditGamedevNews(subreddit, picks)[subreddit] == titles;
  }

  /** The position of the first occurrence of x in s. */
  function IndexOf(s: seq<string>, x: string): (i: nat)
    requires x in s
    ensures i < |s| && s[i] == x
    ensures forall j :: 0 <= j < i ==> s[j] != x
  {
    if s[0] == x then 0 else 1 + IndexOf(s[1..], x)
  }

  /**
   * Lookup ignores letter case: names with the same folding see the same
   * entry and, for the same draw, the same titles, each under its own key.
   */
  lemma MockCaseInsensitive(a: string, b: string, picks: seq<int>)
    requires AsciiLower(a) == AsciiLower(b)
    requires AsciiLower(a) in MockCatalog ==>
               IsSample(picks, |MockCatalog[AsciiLower(a)]|, MockCount(a))
    ensures AsciiLower(a) in MockCatalog ==>
              GetMockRedditGamedevNews(a, picks)[a] == GetMockRedditGamedevNews(b, picks)[b]
    ensures GetMockRedditGamedevNews(a, picks).Keys == {a}
    ensures GetMockRedditGamedevNews(b, picks).Keys == {b}
  {
  }

  /** "GameDev" finds the "gamedev" entry and keeps its own casing as the key. */
  lemma MockGameDevExample(picks: seq<int>)
    requires IsSample(picks, 7, 3)
    ensures AsciiLower("GameDev") == "gamedev"
    ensures GetMockRedditGamedevNews("GameDev", picks).Keys == {"GameDev"}
    ensures forall t :: t in GetMockRedditGamedevNews("GameDev", picks)["GameDev"] ==> t in MockCatalog["gamedev"]
  {
    var f := AsciiLower("GameDev");
    assert f[0] == 'g' && f[4] == 'd';
    assert f == "gamedev";
  }

  /** The "no mock data" message comes out exactly when the folded name is not in the catalog. */
  lemma MockUnknownIff(subreddit: string, picks: seq<int>)
    requires AsciiLower(subreddit) in MockCatalog ==>
               IsSample(picks, |MockCatalog[AsciiLower(subreddit)]|, MockCount(subreddit))
    ensures GetMockRedditGamedevNews(subreddit, picks)[subreddit] == [UnknownMockMessage(subreddit)]
            <==> AsciiLower(subreddit) !in MockCatalog
  {
    if AsciiLower(subreddit) in MockCatalog {
      MockKnownShape(subreddit, picks);
    }
  }
}
