# marketfit harvesting pipeline, modelled in Dafny

This project models the decision logic of `main.py`, the Flask service that looks for product
ideas in complaints. It collects posts from Hacker News, Reddit and app-store reviews, gates
every Hacker News and Reddit URL through an SSRF check, and passes the collected records to a language model
that proposes ideas. The network, DNS, the stores and the language model are replaced by
oracle inputs. What the model keeps is what the code decides with their answers.

Modules, in the order the program uses them:

- `Security`: `SecurityManager.is_safe_url`. It checks the scheme, then the allowlist, then
  every resolved address, and stops at the first failure. Every exception means "unsafe".
  - The method `IsSafeUrl` keeps the source's two loops and is proved against the
    specification function `Check`.
  - `AllowlistExamples` runs concrete hostnames through the allowlist stage.
- `Scan`: the loop shape the harvesters share. A list is walked inside one `try`. Each element
  is skipped, appends one result, or raises. A raise ends the walk, and whatever was appended
  before it stays.
- `HackerNews`: `scrape_hn_opportunities`. It checks the listing URL and the first `limit` item
  URLs, then keeps the stories that contain a need-signalling keyword.
- `Reddit`: `scrape_reddit_rss`. Each subreddit is processed in list order, with up to three
  attempts and a backoff between attempts. A ghost log records each request and each backoff.
- `Reviews`: the Play Store id regex, as a string scan. Also `find_app` routing and the two
  review loops of `scrape_reviews`.
- `Ideas`: the part of `generate_business_ideas` after the language model answers. It maps each
  cited record number back to the record it names.
- `Aggregator`: the `/generate-ideas` handler. It selects the harvesters by `source`, returns
  the 400 and 404 replies, substitutes the default subreddits, and computes `raw_count`.

Each loop in the source is a `method` with loop invariants. Its `ensures` ties the result to a
prefix-recursive specification function, and lemmas state the properties of that function.

The oracles:

- `Security.Net` bundles the URL parser, a resolver for each check of a harvest (DNS may change
  between checks), and the private/loopback classifier.
- The Hacker News batch is read as one outcome per scheduled position, in issue order.
- Reddit outcomes: one per pair of subreddit number and attempt number.
- The stores and the language model are functions of what is asked of them.

Where the code's apparent intent and its behaviour differ, the model follows the code:

- Only the Hacker News and Reddit URLs go through the gate. `find_app` and `scrape_reviews`
  still fetch these with no safety check:
  - the Play search page;
  - the Play details and reviews;
  - the iTunes search;
  - the iOS review feed.
- Some failures of a single item are not contained to that item:
  - A status-200 Hacker News reply with an unreadable body reaches the outer handler, and the
    whole harvest becomes `[]`.
  - A raw idea whose `source_id` raises something other than `ValueError` reaches the outer
    handler, and so does one that cites a record number in range but lacks its `name` or
    `pitch`. All ideas are then lost. An idea citing a number out of range is skipped, whether
    or not it has a name.
  - A Reddit attempt whose post loop raises has failed, so the subreddit is retried, but the
    records it appended before the raise stay. A later successful attempt appends the same
    posts again, and a subreddit whose every attempt fails this way still adds records.
- The enrichment accepts record numbers below `len(collected_data)`, not only the numbers the
  prompt listed. This appears under Findings below. The handler model uses the corrected bound,
  and the code as written is modelled beside it.

## Model

| member | source | states |
|---|---|---|
| `Text.Lower` | main.py:78 | lower-casing keeps the length and maps each character by itself (ASCII case folding) |
| `Text.ContainsIff` | main.py:139 | a keyword is a substring in the sense of Python's `in` exactly when it occurs at some position |
| `Text.Take` | main.py:143 | the slice `s[:n]` is a prefix of `s` of length `min(len(s), n)` |
| `Text.TrimStart` | main.py:159 | what leading-strip removes is all whitespace, and what remains starts with a non-space |
| `Text.TrimEnd` | main.py:159 | what trailing-strip removes is all whitespace, and what remains ends with a non-space |
| `Text.StripEmptyIff` | main.py:458 | `s.strip()` is empty exactly when every character of `s` is whitespace |
| `Security.IsSafeUrl` | main.py:64-104 | the two-loop gate answers true exactly when the ordered check `Check` finds the URL safe |
| `Security.AddressVerdictSafeIff` | main.py:93-98 | the address stage passes exactly when every resolved address classifies as neither private nor loopback |
| `Security.SchemeCheckedFirst` | main.py:73-76 | a scheme other than exactly `https` is refused before the allowlist or DNS is consulted |
| `Security.AllowlistCheckedBeforeDns` | main.py:78-89 | a hostname off the allowlist is refused whatever it resolves to |
| `Security.SafeIff` | main.py:64-104 | safe exactly when the URL parses, the scheme is `https`, the lower-cased hostname equals an entry or ends with `.entry`, the lookup succeeds and every address is public; parse and lookup failures are unsafe |
| `Security.PrivateAddressRefused` | main.py:94-98 | one private or loopback address among the resolved ones makes the URL unsafe |
| `AllowlistExamples.AllowlistAcceptsExact` | main.py:57-61 | any hostname that lower-cases to the entry `www.reddit.com` passes the allowlist |
| `AllowlistExamples.AllowlistAcceptsUpperCase` | main.py:78-85 | `Reddit.COM` passes because the hostname is lower-cased first |
| `AllowlistExamples.AllowlistAcceptsSubdomain` | main.py:82-85 | a subdomain such as `eu.old.reddit.com` passes |
| `AllowlistExamples.AllowlistRefusesLookAlike` | main.py:82-85 | `evilreddit.com` is refused: a suffix match needs the dot |
| `AllowlistExamples.AllowlistRefusesPrefix` | main.py:82-85 | `reddit.com.attacker.net` is refused: an entry as a prefix is not enough |
| `Scan.RunProvenance` | main.py:134-148 | every result a walk appends was produced by the step on one of the elements walked |
| `Scan.RunRaisedIff` | main.py:134-151 | a walk ends in the outer handler exactly when one of its elements raises |
| `Scan.RunCompleteness` | main.py:134-148 | when nothing raises, every element whose step keeps a result contributes it |
| `Scan.RunStopsAtRaise` | main.py:134-151 | after the first raise nothing more is appended |
| `Scan.RunGrows` | main.py:134-148 | the output of a walk only grows: what was appended stays |
| `Scan.RunKeptBeforeRaise` | main.py:134-151 | an element that keeps a result, with no raise before it, contributes it whatever later elements do |
| `Scan.RaiseEndsWalk` | main.py:134-151 | a raise at the first position that raises ends the whole walk with what was appended before it |
| `HackerNews.ScrapeHn` | main.py:109-151 | the listing check, the scheduling loop and the result loop compute the harvest `Harvest` |
| `HackerNews.ScheduleItems` | main.py:121-125 | the scheduling loop collects, in id order, the positions whose item URL passes its check |
| `HackerNews.CollectResults` | main.py:130-148 | the result loop skips failed and non-200 replies, appends matching stories, and reports whether an unreadable body escaped |
| `HackerNews.ScheduledIff` | main.py:121-125 | a story position is fetched exactly when it is among the first `limit` ids and its item URL passes its own check |
| `HackerNews.HarvestProvenance` | main.py:130-146 | every record comes from a fetched story with status 200 that mentions a keyword, in the `[HN] title - text[:200]` shape |
| `HackerNews.HarvestCompleteness` | main.py:133-146 | non-200 replies and failed fetches are skipped one by one: every fetched status-200 story that mentions a keyword is emitted, unless some scheduled status-200 reply has an unreadable body, which empties the harvest |
| `HackerNews.UnreadableBodyEmptiesHarvest` | main.py:133-151 | one status-200 reply with an unreadable body empties the whole harvest |
| `Reddit.AppendPosts` | main.py:183-198 | the post loop appends the kept posts in order, and completes exactly when no post raises |
| `Reddit.FetchWithRetry` | main.py:166-210 | the retry loop extends the records and the request/backoff log exactly as the specification `Retry` does |
| `Reddit.ScrapeReddit` | main.py:154-215 | the subreddit loop computes the harvest `Harvest`, records and log |
| `Reddit.SegmentStep` | main.py:157-165 | a subreddit whose listing URL is refused adds nothing; otherwise it adds its retry loop |
| `Reddit.RetryDone` | main.py:197-198 | after a successful attempt the retry loop changes nothing more |
| `Reddit.RetryShape` | main.py:166-210 | at most three requests; the loop stops after the first success; a backoff only between two attempts, so at most two; the records of every attempt kept in attempt order |
| `Reddit.RetryAllFail` | main.py:169-206 | attempts that all fail before reading posts (exception, 429, any other status, unreadable body) leave nothing |
| `Reddit.FailedSubAddsNothing` | main.py:157-213 | a subreddit whose URL is refused, or whose three attempts each fail before reading posts (exception, non-200 status, unreadable body), adds no records |
| `Reddit.RetryDuplicatesPartialAttempt` | main.py:169-206 | an attempt that appends a post and then raises on the next one is retried, and the retry's copy of the same post makes its record appear twice |
| `Reddit.RecoversOnThirdAttempt` | main.py:169-210 | an exception, then a 429, then a 200: three requests, two backoffs, the third reply's records |
| `Reddit.RetryRecovers` | main.py:169-210 | the retry loop alone: an exception, a 429, then a 200 that reads its posts through give the third reply's records and the five log events |
| `Reddit.RetryFrame` | main.py:169-175 | the retry loop of a subreddit reads only that subreddit's replies |
| `Reddit.SubOutcomeFrame` | main.py:157-175 | a subreddit's contribution depends only on its name, its own check and its own replies |
| `Reddit.Isolation` | main.py:157-215 | whatever one subreddit does, the output is the same records of the earlier subreddits, then its own, then the same records of the later ones |
| `Reddit.KeptPost` | main.py:183-196 | a kept post is not stickied and has a title of at least ten characters; its record is `[Reddit r/<sub>] title - selftext[:200]` |
| `Reddit.RetryProvenance` | main.py:169-198 | every record of a retry loop comes from a post, kept by the filter, of some attempt's status-200 reply |
| `Reddit.HarvestProvenance` | main.py:154-215 | every record comes from a kept post of a status-200 reply to a subreddit whose listing URL passed the gate |
| `Reviews.IdRun` | main.py:228 | the captured id is the longest prefix made of `[A-Za-z0-9_.]` characters |
| `Reviews.ScanFromNone` | main.py:228 | the scan finds nothing exactly when the pattern matches at no later position |
| `Reviews.ScanFromSkip` | main.py:228 | positions where the pattern does not match are passed over by the scan |
| `Reviews.ScanFromSome` | main.py:228 | a successful scan returns the maximal id run after the leftmost match |
| `Reviews.FindPlayIdSpec` | main.py:228-230 | an id is found exactly when the pattern occurs; it is the non-empty maximal run after the leftmost `details?id=` followed by an id character |
| `Reviews.PlayIdStopsAtQuote` | main.py:226-228 | in `details?id=a.b"` the id is `a.b` |
| `Reviews.PlayIdSkipsEmptyMarker` | main.py:228 | a marker with no id character after it is passed over for the next one |
| `Reviews.FindAppRouting` | main.py:235-291 | `ios` searches only the App Store; every other preference searches only Google Play, using the scanned id, its details URL and the details title or else the name; the iOS search finds an app exactly when it reports a positive count with a readable first result |
| `Reviews.ScrapeReviews` | main.py:293-349 | the review loops compute `Harvest`: None when no app is found, otherwise the reviews appended before the loop ended or raised |
| `Reviews.NotFoundIff` | main.py:294-297 | the result is None (the 404 signal) exactly when no app is found, which differs from an empty list |
| `Reviews.AndroidProvenance` | main.py:312-320 | every Android record quotes a review longer than ten characters, cut to 300, with the app's URL and title |
| `Reviews.AndroidCompleteness` | main.py:312-349 | a review longer than ten characters is kept unless an earlier review's content is not a string; a bad review after it still returns it |
| `Reviews.AndroidStopsAtBadReview` | main.py:312-349 | a review whose content is not a string ends the loop, and the records before it are returned |
| `Reviews.IosCompleteness` | main.py:329-349 | an entry with an author whose `title - content` is longer than ten characters is kept unless an earlier authored entry has unreadable labels |
| `Reviews.IosProvenance` | main.py:329-344 | every iOS record comes from an entry with an author whose `title - content` is longer than ten characters, quoted with its rating |
| `Ideas.Shown` | main.py:358 | the prompt lists the first `min(30, len(collected_data))` records |
| `Ideas.GenerateBusinessIdeas` | main.py:352-412 | the enrichment loop computes `Generate`, which accepts only the record numbers the prompt listed |
| `Ideas.IdeaProvenance` | main.py:393-404 | every idea carries the name and pitch of a raw idea that cites a listed record, plus that record's text, URL and source |
| `Ideas.IdeaCompleteness` | main.py:393-405 | when nothing escapes the inner handler, every raw idea citing a listed record is emitted; other numbers are dropped silently |
| `Ideas.EscapeEmptiesResult` | main.py:397-411 | one raw idea whose exception escapes the inner handler empties the whole result |
| `Ideas.AsWrittenCitesUnshownRecord` | main.py:396-397 | as written, with 31 records an answer citing number 30, which the prompt never listed, is still enriched; the corrected bound drops it |
| `Aggregator.Generate` | main.py:431-475 | the handler, extending the gathered records harvester by harvester, computes the specification `Handle` |
| `Aggregator.Rejections` | main.py:433-466 | 400 for an empty body; 400 for `reddit` exactly when no subreddit name is non-empty; 400 for `reviews` exactly when the app name is blank; 404 exactly when the app is not found; no other errors |
| `Aggregator.SourceSelection` | main.py:436-466 | which harvesters run, in the order HN, Reddit, reviews: `hn`; `all` is HN then Reddit; `reddit` never uses the defaults; `reviews` runs alone; any other source runs nothing and returns zero records |
| `Aggregator.DefaultSubredditsForAll` | main.py:452 | with source `all` and no subreddits, Reddit runs on `SaaS` and `startups` |
| `Aggregator.HnStageConsistent` | main.py:440-441 | after the Hacker News stage the gathered records are the outputs of the harvesters run, in run order |
| `Aggregator.RedditStageConsistent` | main.py:443-454 | the Reddit stage appends the Reddit harvest and records that run, keeping the gathered records equal to the run outputs |
| `Aggregator.ReviewsStageConsistent` | main.py:456-466 | the reviews stage appends the reviews and records that run, keeping the gathered records equal to the run outputs |
| `Aggregator.RawCountIsGathered` | main.py:468-475 | `raw_count` is the number of records the harvesters that ran produced, in run order, and the ideas are made from exactly those records |
| `Aggregator.FoundWithoutReviews` | main.py:464-475 | an app that is found but has no usable reviews gets a 200 reply with zero records, not a 404 |

## Left out

- Flask routing, `render_template`, the 404/500 error handlers and the rate limiter are web
  plumbing. Unhandled exceptions, which become a 500, are not modelled.
- The Groq call, the prompt text and the JSON parsing of the answer are foreign calls with
  nondeterministic output. The numbered `ID: i | Content: text` prompt lines are not built.
  The answer is an oracle applied to the listed records, and the model keeps the listing bound.
- `requests`, `AsyncSession`, `socket.gethostbyname_ex`, `play_reviews`, `play_app` and `urlparse`
  are oracle inputs. The internals of `ipaddress` are a classifier input, with None for an
  address that does not parse.
- `asyncio.gather` concurrency: the batch is a sequence of outcomes in issue order.
- Sleep durations, jitter, User-Agent rotation and logging are not modelled. A backoff is a log
  event with no duration.
- Text.Lower: folds ASCII letters only, where Python's `str.lower` folds all of Unicode.
- `str(story.get('id'))` and the formatting of an integer `trackId`: ids are the strings the code
  would format. A record id that is `None` in Python (`p_data.get('id')`, `reviewId`, the
  entry `id` label) is not modelled.
- A Play details title that is present but not a string is not modelled. The oracle gives the
  title, or None when `play_app` raises or has no title.
- An iOS feed whose `entry` is a single object rather than a list is not modelled.
- Request bodies that are not objects are not modelled. Nor are `subreddits` that are not a
  list, non-string list elements, a non-string `app_name` and an explicit `null` platform:
  these raise or format as `None`. Every falsy body (missing, `null`, empty object) is one case.
- An explicit `"source": null` is not modelled. `data.get('source', 'all')` then returns `None`,
  which matches no source, so no harvester runs and the reply has `raw_count` 0. The model reads
  an absent and a `null` source alike, as `all`.

## Findings

| source | as written | input that shows it | evidently intended | confidence | as-written member | corrected member |
|---|---|---|---|---|---|---|
| main.py:358, 396-397 | a cited record number is accepted when `0 <= idx < len(collected_data)`, though the prompt lists only the first 30 records | 31 collected records and an answer citing `source_id` 30: the idea is attributed to the 31st record, which the model never saw | accept only numbers the prompt listed, `idx < min(30, len(collected_data))`; other numbers are dropped | medium, not executed | `Ideas.GenerateAsWritten`, shown by `Ideas.AsWrittenCitesUnshownRecord` | `Ideas.Generate`, with `Ideas.IdeaProvenance` and `Ideas.GenerateBusinessIdeas` |
