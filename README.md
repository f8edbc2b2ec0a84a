# Reddit scout tools, modelled in Dafny

This project models the two tool functions of the Reddit scout agent
(`agents/reddit_scout/agent.py`).

- `get_reddit_gamedev_news` fetches hot post titles from a subreddit. It first
  checks that three credentials are set. It then shapes the result of the
  Reddit client's calls into a dictionary with one key. An empty listing and
  the two kinds of exception each become a single message.
- `get_mock_reddit_gamedev_news` looks up a case-folded subreddit name in a
  fixed catalog of three subreddits with seven titles each. For a known name it
  returns `min(7, 3)` titles sampled without replacement. For an unknown name it
  returns a fixed apology. Both results are keyed by the name exactly as the
  caller gave it.

Both are pure functions here, each returning a `map<string, seq<string>>`.

- `Wrappers` (`wrappers.dfy`) holds `Option`, for an environment variable that
  may be unset.
- `Text` (`text.dfy`) holds ASCII case folding (the model of `str.lower`) and a
  substring predicate.
- `RedditScout` (`reddit_scout.dfy`) holds both tools, the message texts, the
  mock catalog and the lemmas.

Inputs that come from outside the program are parameters:

- The three credentials are `Credentials`, three `Option<string>` values. A
  credential counts as set only when present and non-empty, which is Python's
  truthiness for a `getenv` result.
- The combined effect of building the client, probing the name with
  `search_by_name(…, exact=True)` and listing `hot(limit=limit)` is an
  `ApiOutcome`: the listed titles in service order, a `PRAWException` with its
  text, or any other `Exception` with its text. The probe's return value is
  discarded in the source, so it only matters in that it may raise, and that is
  what `PrawError`/`OtherError` capture.
- `limit` (default 5, as in the source) is only handed to the service. The
  model takes it as its last parameter and never uses it, which is how the
  source behaves: nothing is truncated locally.
- The random draw of `random.sample` is the parameter `picks`. It is a
  sequence of positions, and the precondition states what `random.sample`
  guarantees about its choice: `min(n, 3)` positions, each in range, none
  repeated. `MockSampleComplete` shows that this constraint is no tighter than
  `random.sample`'s own, since every such choice of titles can come out.

Two facts about the messages and sizes:

- The credentials message is exactly "Error: Reddit API credentials not configured." (agent.py:32).
- A known mock subreddit always gets `min(7, 3)` = 3 titles (agent.py:103).

## Model

| member | source | states |
|---|---|---|
| `RedditScout.GetRedditGamedevNews` | agents/reddit_scout/agent.py:12-54 | on every path the result has exactly one key, the subreddit name exactly as given, and its value is never an empty list |
| `RedditScout.CredentialGate` | agents/reddit_scout/agent.py:26-32 | with any credential missing or empty, the result is the fixed credentials message and is the same whatever the service would have returned, so no outcome is consulted |
| `RedditScout.CredentialGateIff` | agents/reddit_scout/agent.py:30-32 | the credentials message comes out for every service outcome exactly when the three credentials are not all set (both directions) |
| `RedditScout.ListingPassedThrough` | agents/reddit_scout/agent.py:43-47 | a non-empty listing is returned unchanged: same titles, same order, no truncation to `limit`, no deduplication |
| `RedditScout.EmptyListingMessage` | agents/reddit_scout/agent.py:44-46 | an empty listing yields the single message "No recent hot posts found in r/<name>.", which contains `r/<name>` |
| `RedditScout.ApiErrorReported` | agents/reddit_scout/agent.py:48-51 | a PRAWException yields one message that contains `r/<name>` and contains the exception's text |
| `RedditScout.ApiErrorDetailRecoverable` | agents/reddit_scout/agent.py:51 | the API error message is injective in the error text, so the detail is embedded whole |
| `RedditScout.UnexpectedErrorReported` | agents/reddit_scout/agent.py:52-54 | any other `Exception` yields one fixed message that contains `r/<name>` and does not depend on the exception's text |
| `RedditScout.MessagesDistinct` | agents/reddit_scout/agent.py:30-54 | the four messages (credentials, empty listing, API error, unexpected error) are pairwise different for every name and detail |
| `RedditScout.GetMockRedditGamedevNews` | agents/reddit_scout/agent.py:56-108 | one key, the name as given; for a known folded name, `min(len(entry), 3)` titles, all from that entry; for an unknown one, the single apology naming `r/<name>` |
| `RedditScout.CatalogKeys` | agents/reddit_scout/agent.py:68-96 | the catalog knows exactly gamedev, unrealengine and unity3d |
| `RedditScout.CatalogEntriesDistinct` | agents/reddit_scout/agent.py:68-96 | every catalog entry has seven titles, no two equal |
| `RedditScout.CatalogKeysFolded` | agents/reddit_scout/agent.py:68-100 | every catalog key is its own lower-casing, so each entry is reachable by its own name |
| `RedditScout.MockKnownShape` | agents/reddit_scout/agent.py:100-105 | for a known name the mock returns exactly three titles and no title twice, because the sampling is without replacement |
| `RedditScout.MockSampleComplete` | agents/reddit_scout/agent.py:103-104 | every sequence of `min(len, 3)` distinct titles of the entry is produced by some admissible draw |
| `RedditScout.MockCaseInsensitive` | agents/reddit_scout/agent.py:98-105 | two names with the same folding get the same titles for the same draw, each under its own original key |
| `RedditScout.MockGameDevExample` | agents/reddit_scout/agent.py:98-105 | "GameDev" folds to "gamedev"; the result is keyed "GameDev" and its titles come from the gamedev entry |
| `RedditScout.MockUnknownIff` | agents/reddit_scout/agent.py:100-108 | the value is the apology "Sorry, I don't have mock data for r/<name>." exactly when the folded name is not in the catalog (both directions) |
| `Text.AsciiLower` | agents/reddit_scout/agent.py:98 | folding keeps the length, lower-cases each character in place and leaves no upper-case letter |
| `Text.AsciiLowerIdempotent` | agents/reddit_scout/agent.py:98 | folding twice is folding once |
| `Text.AsciiLowerFixesLowercase` | agents/reddit_scout/agent.py:98-100 | a string with no upper-case letter folds to itself |
| `Text.AsciiLowerDetectsCaseVariants` | agents/reddit_scout/agent.py:98 | two strings with the same folding have equal length and agree character by character up to case |

## Left out

- The Reddit client calls (`praw.Reddit`, `subreddits.search_by_name`, `subreddit(…).hot`) are network I/O through a library that is not part of this model. Their combined effect is the `ApiOutcome` parameter.
- Reading the credentials with `os.getenv` after `load_dotenv` is environment I/O. The credentials are a parameter.
- The `print` lines on each branch are a logging side channel and not part of the returned value.
- The randomness of `random.sample` is not modelled as a random generator. The draw is the `picks` parameter, constrained as `random.sample` constrains it.
- Text.AsciiLower: models `str.lower` for ASCII letters only. Python's Unicode-wide lower-casing of other letters is not modelled. ASCII is all the catalog keys and the documented subreddit names use.
- The service's use of `limit` is not modelled. `limit` has no effect on the modelled result apart from being passed to the service, whose answer is the `ApiOutcome` parameter.
- Exceptions that `except Exception` does not catch (`KeyboardInterrupt`, `SystemExit` and other `BaseException`s) reach the caller of `get_reddit_gamedev_news`. The model is a total function, so it does not capture them. `OtherError` stands for the `Exception` subclasses that are not `PRAWException`.
- The exception text is the `detail` string, standing for `str(e)`. An exception raised while formatting that text is not modelled.
- The `Agent(...)` construction and its instruction text are framework configuration interpreted by an external language model.
- `agents/coordinator/agent.py` is not part of this model. It is asynchronous plumbing around an `AsyncExitStack` and sub-agent factories that are not available. It also installs no cleanup for a partial failure, so there is no unwind-on-failure property in the code to state.
