# Berachain token launch scanner, modelled in Dafny

Two Streamlit scripts poll a few Twitter accounts and tabulate how likely
each account is to be heading for a token launch:

- `app.py` scrapes a fixed list of handles.
- `app2.py` lists the accounts that @SmokeyTheBera follows, through the Twitter API.

Both scripts share the same two functions:

- `score_token_likelihood` gives 15 points for each of seven keywords found in the
  joined, lower-cased tweets, capped at 100.
- `extract_tge_info` tries three regular expressions in order and turns the first
  match into a date when it can.

The scorer and the extractor are identical in both files (app.py:10-33 and
app2.py:14-37), so they are modelled once, in `scoring.dfy` and
`tge_extraction.dfy`. Both scripts build each table row the same way:

- the handle is put into the profile URL;
- the score is written as `"<n>%"`;
- the TGE schedule is `tge or "-"`;
- the extractor runs only when the score is above 60.

That shared row logic is in `report.dfy`.

The scan loops are imperative methods with loop invariants:

- `snscrape_scanner.dfy` (app.py): a stop check before each handle and at most five
  tweets per handle.
- `smokey_scanner.dfy` (app2.py): page-by-page collection of followed users cut off at
  `max_users`, then a per-user `try` in which a user whose fetch raises gets no row.

Modules: `Wrappers` (Option), `Builtins` (`" ".join`, ASCII `lower`, substring
`in`, `str(n)` and its reading back), `Scoring`, `TgeExtraction`, `Report`,
`SnscrapeScanner`, `SmokeyScanner`.

External collaborators are inputs:

- The regex search (`re.search(p, text, re.IGNORECASE)`) and the fuzzy date parser
  with its `strftime` are the two functions of `TgeExtraction.Engines`.
- The scraper's tweet stream per handle is a function `timeline`.
- The stop callback is a function from its call number to a boolean.
- The paginator's pages are a `seq<Page>`.
- Each user's tweet fetch is a `Fetch` value: it raised, or it gave data that may be
  missing.

Three consequences of the code are worth stating:

- "Our airdrop and token claim launch on mainnet" scores 75, not more: only
  five of the seven keywords occur in it, since "points" and "rewards" do not
  (`Scoring.ScoreExample`).
- Patterns 2 and 3 also go to the date parser. Their `lastindex` is 2, so the
  whole match is parsed, and the raw match comes back only when parsing raises
  (`TgeExtraction.ParsedStringByPattern`).
- In app2.py only a fetch that raises is skipped. A fetch whose data is missing
  still gives a row with `0%` and `-` (`SmokeyScanner.MissingTweetsRow`).

app.py:47 is indented one space less than line 46, so the file does not parse
as written. The model takes the evidently intended loop that collects the
first five scraped tweets (`SnscrapeScanner.TakeTweets`).

## Model

| member | source | states |
|---|---|---|
| `Builtins.LowerJoin` | app.py:14 | lower-casing the joined text is joining the lower-cased tweets |
| `Builtins.ContainsJoin` | app.py:14-15 | a keyword (non-empty, no space) occurs in the space-joined text iff it occurs in one of the tweets; no occurrence straddles a separator |
| `Builtins.DecimalRoundTrip` | app.py:58 | the decimal digits `str(n)` writes read back as `n` |
| `Scoring.CountPresent` | app.py:15 | the generator sum counts at most one per keyword |
| `Scoring.CountPresentZero` | app.py:15 | the sum is 0 iff none of the keywords occurs in the text |
| `Scoring.ScoreTokenLikelihood` | app.py:13-15 | the score is one of 0, 15, 30, 45, 60, 75, 90, 100 |
| `Scoring.ScoreZeroIffNoKeyword` | app.py:13-15 | the score is 0 iff no keyword occurs in the lower-cased joined tweets |
| `Scoring.KeywordsDistinct` | app.py:11 | the seven keywords are pairwise distinct |
| `Scoring.KeywordShape` | app.py:11 | every keyword is non-empty, has no space and is already lower case |
| `Scoring.KeywordsDoNotNest` | app.py:11 | no keyword occurs inside another keyword |
| `Scoring.CountPresentIsCardinality` | app.py:15 | the sum over distinct keywords equals the number of distinct keywords present |
| `Scoring.ScoreCountsDistinctKeywords` | app.py:11-15 | score = min(100, 15 × number of distinct keywords present) |
| `Scoring.PresentIffInSomeTweet` | app.py:14-15 | a keyword counts iff it occurs in one lower-cased tweet |
| `Scoring.ScoreEmpty` | app.py:13-15 | an empty tweet list scores 0 |
| `Scoring.ScoreDependsOnlyOnTweetSet` | app.py:14-15 | two tweet lists with the same texts, in any order and with any repetition, score the same |
| `Scoring.ScoreOrderIndependent` | app.py:14-15 | reordering the tweets leaves the score unchanged |
| `Scoring.ScoreCaseInsensitive` | app.py:14 | tweets equal up to ASCII letter case score the same |
| `Scoring.AddKeywordPresent` | app.py:14-15 | posting a keyword makes exactly that keyword present on top of those already present, since no keyword contains another |
| `Scoring.RepeatedKeywordAddsAtMost15` | app.py:15 | posting a keyword n ≥ 1 times scores as posting it once, and adds at most 15 points |
| `Scoring.ScoreExample` | app.py:13-15 | "Our airdrop and token claim launch on mainnet" scores 75 |
| `TgeExtraction.OnMatch` | app.py:27-32 | on a match the answer is the parsed date whenever the date string can be computed and parses, and exactly the whole match when either raises |
| `TgeExtraction.FirstMatchFromNone` | app.py:24-33 | the pattern loop from pattern k on answers None iff none of those patterns matches |
| `TgeExtraction.ExtractNoneIffNoMatch` | app.py:17-33 | `extract_tge_info` returns None exactly when none of the three patterns matches the joined tweets |
| `TgeExtraction.FirstMatchWinsFrom` | app.py:24-32 | when pattern j is the first to match from k on, the loop answers from pattern j |
| `TgeExtraction.FirstMatchWins` | app.py:17-32 | the first matching pattern in list order decides the result, whatever later patterns match |
| `TgeExtraction.ParsedStringByPattern` | app.py:18-32 | for an engine whose matches have the shape of the three patterns (`ValidEngines`), pattern 1's answer is group 3 parsed and patterns 2 and 3's is the whole match parsed; in every case a failed parse gives the whole match |
| `Report.LikelihoodCell` | app.py:58 | the `"<score>%"` cell reads back as the score and its digits have no leading zero (a lone `0` for a score of 0), so it is the text `str(score) + "%"` writes |
| `Report.ScheduleCell` | app.py:59 | `tge or "-"`: never empty; a non-empty extraction shows as is, an absent or empty one as "-" |
| `Report.RowContents` | app.py:52-60 | project and URL `https://twitter.com/<username>`; likelihood cell reads back as the score; schedule "-" when score ≤ 60, the extraction's cell when above |
| `Report.ScheduleGate` | app.py:53 | the schedule is "-" when at most four keywords occur, and when no pattern matches |
| `Report.EmptyTweetsRow` | app2.py:67-77 | an account with no tweets gets "0%" and "-" |
| `SnscrapeScanner.TakeTweets` | app.py:46-50 | the kept tweets are the first min(n, 5) scraped ones, in order |
| `SnscrapeScanner.ScanHandle` | app.py:46-60 | the row for one handle is built from its first five scraped tweets, with the handle as project name |
| `SnscrapeScanner.DiscoverProjectsWithSnscrape` | app.py:36-64 | at most three rows, one per curated handle in list order; the stop check answered false for every scanned handle, and true for the handle where the scan stopped early |
| `SnscrapeScanner.ScannedRowsByHandle` | app.py:40-60 | the j-th row of a scan is the row of the j-th curated handle, built from that handle's first five tweets |
| `SnscrapeScanner.RunFreeModeScan` | app.py:70-78 | as wired, the scan runs iff Run is pressed and Stop is not, and then, when every scrape returns, yields exactly the rows of the three curated handles, in list order, each from that handle's first five tweets |
| `SmokeyScanner.FlattenAppend` | app2.py:50-53 | collecting two runs of pages gives the users of the first, then of the second |
| `SmokeyScanner.FlattenMembership` | app2.py:50-53 | a user is collected iff some page's data holds it |
| `SmokeyScanner.EmptyPageContributesNothing` | app2.py:51 | a page whose data is missing or empty changes nothing |
| `SmokeyScanner.CollectedPrefix` | app2.py:50-55 | at the early return, the users collected so far are a prefix of all followed users |
| `SmokeyScanner.GetSmokeyFollowedUsers` | app2.py:41-56 | the result is the first min(total, max(max_users, 1)) followed users, page order kept |
| `SmokeyScanner.FollowedUsersLimit` | app2.py:53-56 | the result is a prefix of all followed users, at most `max_users` long when `max_users ≥ 1`, all of them when fewer exist |
| `SmokeyScanner.ScanUser` | app2.py:64-80 | the `try` block for one user gives no row exactly when the fetch raises; otherwise a row with the user's name, its profile URL and a cell that reads back as the score of its tweets, and "0%" and "-" when the data is missing |
| `SmokeyScanner.DiscoverProjectsFromSmokey` | app2.py:59-84 | the rows are those of the first three followed users, in order, minus the users whose fetch raised |
| `SmokeyScanner.UserRowsStep` | app2.py:63-80 | scanning one more user appends its row, if it has one |
| `SmokeyScanner.UserRowsAppend` | app2.py:63-82 | scanning two user lists one after the other gives both row lists in order: a failure does not stop later users |
| `SmokeyScanner.FailingUserSkipped` | app2.py:79-80 | a user whose fetch raises contributes no row, and the rows of the users around it are kept |
| `SmokeyScanner.RowPerUser` | app2.py:63-77 | when no fetch raises there is exactly one row per user, the j-th row being the j-th user's |
| `SmokeyScanner.AtMostOneRowPerUser` | app2.py:63-80 | there are never more rows than users |
| `SmokeyScanner.MissingTweetsRow` | app2.py:66-77 | a user whose tweet data is missing gets a row with its name, its URL, "0%" and "-" |

## Left out

- Streamlit UI: page config, title, buttons, spinners, info, warning and success
  messages, and `st.cache_data`. These are presentation and caching
  (app.py:66-85, app2.py:40 and 86-99).
- Network and scraping:
  - the secrets lookup and the API client (app2.py:11-12);
  - `get_user` for @SmokeyTheBera and the paginator (app2.py:42-49);
  - `get_users_tweets` (app2.py:66) and the snscrape scraper (app.py:47).
  These are external I/O and are inputs of the model. app2.py passes
  `max_results=3` to the tweet fetch; how the service treats that value is
  outside the model, which does not bound a fetched list. A rejected request
  is a fetch that raises.
- DiscoverProjectsWithSnscrape, RunFreeModeScan, GetSmokeyFollowedUsers, DiscoverProjectsFromSmokey: an
  exception that escapes the scan is not modelled. app.py has no `try`, so a
  scraper error at app.py:47 ends `discover_projects_with_snscrape` with no rows
  at all. In app2.py, `get_user` and the paginator (app2.py:42-50) run outside
  the per-user `try`, and `discover_projects_from_smokey` calls them outside its
  `try` too (app2.py:60), so their errors end the scan the same way. In the model
  `timeline` and `pages` always return, so the results stated for these four
  members hold only when every scrape and every page request returns.
- `time.sleep` between accounts (app.py:62, app2.py:82): rate-limit pacing with no
  effect on the result.
- Regular-expression matching and date parsing: Python's regex semantics and
  `dateutil.parser.parse(fuzzy=True)` with `strftime` are foreign libraries. The
  model keeps the three pattern strings, but the search and the parser are abstract
  functions. No concrete extraction result is claimed. What the three patterns'
  groups imply about `lastindex` and group 3 is stated as a property of the
  engine (`TgeExtraction.ValidEngines`), not derived from the pattern strings.
- The pandas `DataFrame`, CSV encoding and the download button (app.py:64 and 79-85,
  app2.py:84 and 93-99): library output. The model returns the rows as a sequence.
- Builtins.Lower: models Python's Unicode `str.lower()` as ASCII lower-casing only.
  Non-ASCII letters are left unchanged.
- An exception raised by anything other than the tweet fetch inside app2.py's `try`
  is not modelled. Scoring, extraction and row building cannot raise in the model.

## Findings

| source | as written | input that shows it | evidently intended | confidence | as-written member | corrected member |
|---|---|---|---|---|---|---|
| app.py:41-43, 73-78 | `should_stop` returns the Stop state read when the script started, and the scan runs only when that state is False. The stop check in the loop therefore always answers False. | `run = True`, `stop = False`: the callback answers False for all three handles, so the scan always yields three rows and the "stopped" branch is dead | a stop requested during the scan ends it before the next handle, leaving the rows of the handles already scanned | medium, not executed | `SnscrapeScanner.RunFreeModeScan` | `SnscrapeScanner.DiscoverProjectsWithSnscrape` |
