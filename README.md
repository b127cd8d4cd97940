# Get-Phd-With-Playwright, modelled in Dafny

Get-Phd-With-Playwright crawls the FindAPhD listings with a headless browser and keeps what it finds in a SQLite table. It then serves searches over those listings. This project models the logic around the browser and proves properties of that model. That logic covers:

- the background sweep that walks keyword partitions page by page;
- the listing store and the run log;
- the scheduling gate in front of the sweep;
- the pool of browser tabs;
- the per-user session registry and the search service with its result cache;
- the FindAPhD URL helpers, the filter-to-token mapping and the search orchestrator;
- the page crawlers' URL builders and their acquire/release discipline;
- the crawl observer, the broadcast queue, the token dictionary, the link extractor of the crawl worker;
- the course-record helpers of the results script.

Each core source file is one Dafny module:

| module | models |
|---|---|
| `BackgroundCrawler` | src/crawler/BackgroundCrawler.js |
| `PhdRepository` | src/database/repositories/PhDRepository.js |
| `CrawlerLogRepository` | src/database/repositories/CrawlerLogRepository.js |
| `CrawlerScheduler` | src/crawler/CrawlerScheduler.js |
| `BrowserPool` | src/api/browserPool.js |
| `SessionManager` | src/api/sessionManager.js |
| `SearchService`, `SearchCache` | src/api/services/searchService.js (the filter normalisers and `performSearch`; the cache Map) |
| `FindaphdUrl`, `SearchParams` | src/findaphd/url.js (`SearchParams` is the `URLSearchParams` object the URL builders share) |
| `FilterMapper` | src/services/filterMapper.js |
| `SearchOrchestrator` | src/services/searchOrchestrator.js |
| `PlaywrightCrawler` | src/workers/playwrightCrawler.js |
| `PlaywrightCrawlerV3` | src/workers/playwrightCrawler-v3.js |
| `CrawlWorker` | src/workers/crawlWorker.js |
| `CrawlerObserver` | src/crawler/CrawlerObserver.js |
| `CoreQueue` | src/core/queue.js |
| `TokenDictionary` | src/core/dictionary.js |
| `CourseMerge`, `Dates` | test-crawler-results.js (`Dates` also serves `_parseDeadlineDate` of the background crawler) |
| `UriCodec` | UTF-8, `encodeURIComponent`/`decodeURIComponent` and the form encoding `URLSearchParams` uses |
| `Wrappers`, `Text`, `Seqs`, `OrderedMaps` | shared helpers: `Option`/`Result`, string functions, sequence lemmas, and a map that remembers insertion order (JavaScript `Map` iteration order) |

## How the model is built

The model follows the same pattern in every module:

- **State as a value.** The state an object keeps is a datatype: the pool, the registry, the table, the log, the scheduler's fields, the crawler's `World`.
- **A function per operation.** Each operation is a function from the old state (and its inputs) to its answer and the new state. Its contract and the lemmas beside it state what the source promises.
- **Classes against those functions.** Where the source mutates an object, a Dafny `class` holds the same fields. Its methods are proved to leave exactly the state the specification function gives (`ensures (r, State()) == Acquire(old(State()), sessionId, now)`). They run the source's loops with their invariants: the queue drain, the save loop, the keyword and page loops, the cache eviction loop, and the cleanup loops.

**What becomes a parameter.**

- Time is an integer number of milliseconds, passed in (`now`). The crawl log's SQLite `datetime('now')` has whole seconds, so its times are the millisecond time divided by 1000 (`BackgroundCrawler.LogTime`).
- The ids the source draws from `uuid` or `Math.random` are passed in; wherever freshness matters, it is a precondition.
- The background crawler's surroundings are an `Env` record:
  - the page crawler is an oracle `crawl(n, request)`, where `n` is the request's position in the run;
  - the clock is `clock(n)`, with `start` and `finish` times;
  - `saveFails(n)` says which upserts throw, and `markFails` whether the deletion sweep throws;
  - `startFails` says whether opening the log row throws, and `abortError` is the error that ends a crawl;
  - `pathname` is the URL parser's pathname.
- The browser pool's Playwright calls are a `Playwright` record: for each tab number, whether `newContext` or `newPage` throws, and with what message. Whether `chromium.launch` or `browser.close()` throws is a parameter of `initialize` or `closeAll`.
- The page crawlers' browser steps are a `Steps` record saying which calls throw.

**Iteration order.** JavaScript `Map` iteration order is observable in several places, and `OrderedMaps` models it there:

- which session `releaseTab` searches first;
- which entries tie in cache eviction;
- the order of the merged course records.

**Behaviour of the source that the model proves.**

- **A soft-deleted listing seen again stays deleted.** `update` sets `is_active = 1` but never clears `is_deleted`. Every read filters on `is_deleted = 0`, so the listing stays invisible. `PhdRepository.UpsertAlone` states it. `BackgroundCrawler.SeenEarlyIsDeleted` shows the sweep producing such rows.
- **A failure to open the log row wedges the crawler.** `startCrawl` is awaited after `isRunning = true` and outside the `try` (src/crawler/BackgroundCrawler.js:80-93). When it throws, `isRunning` is never reset, and every later crawl is refused as already running (`BackgroundCrawler.StartFailureWedges`).
- **A repeated page error loops forever.** A page error whose message is not transient leaves the page number as it is. A page that keeps failing is therefore requested forever (`BackgroundCrawler.RepeatedErrorNeverEnds`). An error without a message makes the error handler itself throw and ends the crawl (`BackgroundCrawler.MessagelessErrorAborts`).
- **Every page request of the background crawler fails.** BackgroundCrawler builds the v2 page crawler without a browser pool (src/crawler/BackgroundCrawler.js:23). Every page fetch therefore throws a `TypeError`, and the loop above never ends. The model keeps the page crawler as the `crawl` oracle, so both the intended and the actual behaviour are instances.
- **The v2 crawler leaks its browser context.** In src/workers/playwrightCrawler.js the context is closed inside the `try`, not in the `finally`. An extraction error therefore leaves it open, though the pool is still released (`PlaywrightCrawler.ContextLeak`).
- **The v3 crawler leaks its context when a page fails to close.** Both closes share one `try` in the `finally`, so a page that fails to close leaves the context open (`PlaywrightCrawlerV3.PageCloseFailureLeaksContext`).
- **The pool's count drifts on failed closes.** A tab whose `page.close()` throws during `releaseSessionTabs` is dropped from the map but still counted in `activeTabCount`. `BrowserPool.ReleaseSessionDrift` gives the exact drift. The drift is zero while every close succeeds, and every other operation preserves it.
- **A queue timeout can remove another request.** It removes the first queued request of the same session, which need not be the one that timed out. A served request's timer is cleared only once its tab is delivered, after the awaits of `acquireTab`. If it fires in between, it removes the next waiting request of that session (`BrowserPool.ServedTimerTakesNext`).

## Model

| member | source | states |
|---|---|---|
| CoreQueue.Broadcast | src/core/queue.js:9 | handing one job to the consumers makes exactly one call per registered consumer |
| CoreQueue.BroadcastAt | src/core/queue.js:9 | the k-th call of a broadcast goes to the k-th consumer, in registration order, with the job |
| CoreQueue.BroadcastSnoc | src/core/queue.js:5-9 | a consumer registered last is called last for each job |
| CoreQueue.DrainDelivers | src/core/queue.js:6-10 | with at least one consumer, draining empties the job queue and delivers every queued job, in queue order, to every consumer |
| CoreQueue.DrainWithoutConsumers | src/core/queue.js:4-7 | with no consumer, draining changes nothing: the jobs stay queued until a `register` |
| CoreQueue.DeliveriesComplete | src/core/queue.js:7-9 | a call of consumer h with job j is made if and only if h is registered and j was queued |
| CoreQueue.DeliveriesAppend | src/core/queue.js:7-9 | the deliveries of two job batches are those of the first followed by those of the second |
| CoreQueue.DeliveriesOrder | src/core/queue.js:8 | every job's calls come after those of each earlier job and before those of each later one |
| CoreQueue.SimpleQueue.constructor | src/core/queue.js:3 | a new queue has no jobs, no consumers and no calls made |
| CoreQueue.SimpleQueue.Enqueue | src/core/queue.js:4 | the job is appended and then the queue is drained |
| CoreQueue.SimpleQueue.Register | src/core/queue.js:5 | the consumer is appended and then the queue is drained |
| CoreQueue.SimpleQueue.DrainQueue | src/core/queue.js:6-10 | the `while` loop leaves the state `Drain` describes: jobs shifted off front-first and broadcast while there is a job and a consumer |
| TokenDictionary.EmptyTables | src/core/dictionary.js:7 | the initial state holds the seven maps, all empty and well formed |
| TokenDictionary.AllTables | src/core/dictionary.js:44 | the search order names every one of the seven maps |
| TokenDictionary.TableOf | src/core/dictionary.js:30-38 | the type `discipline`, and only it, is written to the disciplines map |
| TokenDictionary.AddOrUpdate | src/core/dictionary.js:28-41 | adding keeps the seven maps well formed |
| TokenDictionary.IgnoredEntry | src/core/dictionary.js:29-39 | a missing entry, a falsy token or type, or an unknown type leaves the maps unchanged |
| TokenDictionary.StoredEntry | src/core/dictionary.js:40 | a valid entry is stored under its token in its type's map, overwriting an old value, and every other map stays the same |
| TokenDictionary.FirstHit | src/core/dictionary.js:43-48 | a hit is the entry under the token in one of the maps searched; there is no hit exactly when no map holds the token |
| TokenDictionary.FirstHitEarliest | src/core/dictionary.js:44-45 | the first map in the order that holds the token supplies the answer |
| TokenDictionary.FindAfterAdd | src/core/dictionary.js:30-48 | after a discipline entry is added, looking up its token returns that entry |
| TokenDictionary.FindIdOrToken | src/core/dictionary.js:25 | a found value is one of the values and has the argument as its id or token; nothing is found exactly when no value has |
| TokenDictionary.ResolveDiscipline | src/core/dictionary.js:21-26 | a direct key hit wins; otherwise the first value in insertion order whose id or token matches |
| TokenDictionary.ResolveFound | src/core/dictionary.js:21-26 | a resolved discipline is stored in the disciplines map, keyed by the argument or carrying it as id or token |
| TokenDictionary.Dictionary.constructor | src/core/dictionary.js:7 | the dictionary starts with the seven empty maps |
| TokenDictionary.Dictionary.Add | src/core/dictionary.js:28-41 | `addOrUpdate` replaces the maps by `AddOrUpdate` of the old ones |
| TokenDictionary.Dictionary.FindByToken | src/core/dictionary.js:43-48 | the loop over the maps returns the first hit in the fixed order, or nothing |
| CrawlWorker.RunEnd | src/workers/crawlWorker.js:24 | `[^"']+` stops at the first quote or at the end of the text, and takes no quote |
| CrawlWorker.MatchAt | src/workers/crawlWorker.js:24 | a match at a position ends after the whole prefix and at least one more character |
| CrawlWorker.NextMatch | src/workers/crawlWorker.js:26 | `regex.exec` finds the leftmost match at or after the last index; none is found exactly when no position matches |
| CrawlWorker.MatchesStep | src/workers/crawlWorker.js:26 | the global regex returns the next match and resumes where it ended |
| CrawlWorker.MatchIsLink | src/workers/crawlWorker.js:24 | a match starts with `https://www.findaphd.com/phds/project/`, has more after it, and holds no `"` or `'` |
| CrawlWorker.MatchesAreLinks | src/workers/crawlWorker.js:24-26 | every match of the scan is such a link |
| CrawlWorker.CollectedShape | src/workers/crawlWorker.js:25-27 | the projects are at most 50 distinct links, each one of the matches |
| CrawlWorker.CollectedOrder | src/workers/crawlWorker.js:25-27 | the projects keep the order in which the links first occur |
| CrawlWorker.CollectStep | src/workers/crawlWorker.js:26 | one round of the `exec` loop keeps the matches seen so far followed by the rest equal to all matches |
| CrawlWorker.Collect | src/workers/crawlWorker.js:25-26 | the `while` loop adding to the set yields the matches deduplicated in first-occurrence order |
| CrawlWorker.ExtractProjects | src/workers/crawlWorker.js:22-28 | `extractProjects` is the first 50 of those links |
| CrawlWorker.FetchUrl | src/workers/crawlWorker.js:5-20 | a fetch settles exactly when some response is not a followed redirect; a body is returned only from a status-200 response reached through redirects |
| CrawlWorker.FetchDecided | src/workers/crawlWorker.js:8-17 | the first non-redirect answer decides: a request error rejects with its message, status 200 resolves with the body, any other status rejects with `Status <code>` |
| CrawlWorker.HandleJob | src/workers/crawlWorker.js:30-40 | the result keeps the url; it is an error exactly when the fetch failed or the url does not parse, carrying the fetch's message; otherwise `count` is the number of projects, which are those extracted from the page |
| FilterMapper.Scalar | src/services/filterMapper.js:7-13 | a scalar field contributes its value exactly when it is truthy, and nothing otherwise |
| FilterMapper.DisciplineCount | src/services/filterMapper.js:16 | the count is at most the number of tokens, and zero exactly when no token starts with `10` |
| FilterMapper.Mapping | src/services/filterMapper.js:4-19 | the tokens are distinct and are exactly the supplied ones; the warnings are none or the one multiple-discipline warning |
| FilterMapper.Add | src/services/filterMapper.js:7 | `Set.add` appends a value not yet present and leaves the list alone otherwise |
| FilterMapper.AddAll | src/services/filterMapper.js:9-10 | the `forEach` of adds extends the deduplicated list by the array, deduplicated |
| FilterMapper.AddScalar | src/services/filterMapper.js:7-13 | one guarded add extends the deduplicated list by the scalar's contribution |
| FilterMapper.MapFilters | src/services/filterMapper.js:4-19 | the step-by-step adds and the count give `Mapping` of the filters |
| FilterMapper.MappingOrder | src/services/filterMapper.js:6-18 | the tokens come in the order of their first insertion: discipline, subject, geo, funding, institution, PhD type, study mode |
| FilterMapper.WarningIff | src/services/filterMapper.js:15-17 | the warning is given if and only if two of the returned tokens start with `10` |
| FilterMapper.TwoDisciplines | src/services/filterMapper.js:16 | a count above one names two distinct positions holding discipline tokens |
| FilterMapper.AtLeastTwo | src/services/filterMapper.js:16 | two distinct discipline tokens make the count above one |
| FilterMapper.FalsyContributesNothing | src/services/filterMapper.js:7-13 | falsy scalars and non-array token lists give no tokens and no warning |
| FilterMapper.BasicFilters | tests/filter-mapper.test.js:5-7 | one discipline, one geo and one funding token give exactly those three tokens and no warning |
| FilterMapper.TwoDisciplineTokens | tests/filter-mapper.test.js:12-13 | two `10…` tokens give the warning |
| SearchOrchestrator.LessEqTotal | src/services/searchOrchestrator.js:7 | the character order standing for the order `sort()` uses relates any two strings |
| SearchOrchestrator.LessEqAntisymmetric | src/services/searchOrchestrator.js:7 | two strings each no greater than the other are equal |
| SearchOrchestrator.LessEqTransitive | src/services/searchOrchestrator.js:7 | the order is transitive |
| SearchOrchestrator.Insert | src/services/searchOrchestrator.js:7 | inserting into a sorted list keeps it sorted and adds exactly the one value |
| SearchOrchestrator.Sort | src/services/searchOrchestrator.js:7 | `[...tokens].sort()` is sorted and a permutation of the tokens |
| SearchOrchestrator.SortedUnique | src/services/searchOrchestrator.js:7 | two sorted permutations of the same tokens are the same list, so the sort's result depends only on the multiset |
| SearchOrchestrator.SortedHeadFirst | src/services/searchOrchestrator.js:7 | the head of a sorted list is no greater than any of its elements |
| SearchOrchestrator.SameTails | src/services/searchOrchestrator.js:7 | permutations with the same head have permuted tails |
| SearchOrchestrator.CanonicalKeyIff | src/services/searchOrchestrator.js:5-9 | two requests get the same key if and only if their keywords agree up to falsy-as-empty, their tokens are the same multiset, and their pages agree with a missing page read as 1 |
| SearchOrchestrator.CanonicalKeyOrderFree | src/services/searchOrchestrator.js:7 | the key does not depend on the order of the tokens |
| SearchOrchestrator.CanonicalKeyDefaults | src/services/searchOrchestrator.js:6-8 | missing keywords count as `''`, missing tokens as `[]` and a missing page as 1 |
| SearchOrchestrator.BuildSearchUrl | src/services/searchOrchestrator.js:11-19 | the url starts with the fixed base `https://www.findaphd.com/phds/` |
| SearchOrchestrator.PrepareKeepsTokens | src/services/searchOrchestrator.js:22-28 | supplied tokens are used as they are, the request is not changed, and the warnings are whatever the request already carried |
| SearchOrchestrator.PrepareMapsFilters | src/services/searchOrchestrator.js:22-28 | filters without tokens are mapped; the tokens and warnings are written into the request, which is otherwise unchanged, and returned |
| SearchOrchestrator.PrepareNothing | src/services/searchOrchestrator.js:28 | without filters and tokens the result has no tokens |
| SearchOrchestrator.PrepareUrlParses | src/services/searchOrchestrator.js:11-27 | the url is `build` on the fixed base with the request's segments, keywords, page and tokens: parsing it gives back that path, the truthy keywords, the page and the non-empty tokens |
| SearchOrchestrator.PreparedTokens | src/services/searchOrchestrator.js:28 | the returned tokens and warnings are those of the filled request, `[]` when missing |
| SearchOrchestrator.PrepareUrlFields | src/services/searchOrchestrator.js:27-28 | the url parses, with the request's keywords and page and the result's non-empty tokens |
| SearchOrchestrator.DefaultBaseParses | src/services/searchOrchestrator.js:12-18 | a url built on the fixed base parses back into its path, keywords, page, tokens and token families |
| SearchOrchestrator.FilledMapped | src/services/searchOrchestrator.js:22-26 | the filled request is the old one with the mapping's tokens and warnings |
| SearchOrchestrator.FilledUnchanged | src/services/searchOrchestrator.js:22 | without filters, or with tokens, the request stays as it was |
| SearchOrchestrator.FilledKeeps | src/services/searchOrchestrator.js:21-26 | filling never changes the keywords, the page, the segments or the filters |
| SearchOrchestrator.SearchRequest.constructor | src/services/searchOrchestrator.js:21 | the request object holds the given request |
| SearchOrchestrator.SearchRequest.Prepare | src/services/searchOrchestrator.js:21-29 | `prepare` mutates the request to its filled form and returns `PrepareResult` of the original |
| SearchOrchestrator.TwoTokenMapping | src/services/filterMapper.js:7-18 | a discipline token and one non-discipline geo token map to exactly those two tokens with no warning |
| SearchOrchestrator.PrepareWithFilters | tests/orchestrator.test.js:5-8 | keywords, a discipline filter, a geo filter and page 2 give a url that parses to those keywords, page 2 and both tokens |
| SearchOrchestrator.FilledFilters | src/services/searchOrchestrator.js:22-26 | filling such a request writes the two tokens and no warning |
| CourseMerge.ReplaceNbsp | test-crawler-results.js:15 | every no-break space becomes a space and every other character stays |
| CourseMerge.VisibleAppend | test-crawler-results.js:15 | the non-space characters of a concatenation are those of its parts, in order |
| CourseMerge.VisibleOfSpaces | test-crawler-results.js:15 | a run of white space has no visible characters |
| CourseMerge.Words | test-crawler-results.js:15 | the words of a string: each a non-empty run without white space, the first starting with the string's first character when that is not white space, and none exactly when the string is all white space |
| CourseMerge.JoinWordsEnds | test-crawler-results.js:15-16 | a join of words is empty only for no words, and otherwise starts and ends with a character that is not white space |
| CourseMerge.Collapse | test-crawler-results.js:15 | `replace(/\s+/g, ' ')` leaves no white space but single spaces, never two in a row, keeps the visible characters in order, and is exactly the words joined by single spaces, with one space for leading white space (unless the character before was white space) and one for trailing white space after a word |
| CourseMerge.CollapsedSlice | test-crawler-results.js:15 | a slice of a collapsed string is collapsed |
| CourseMerge.VisibleDropFront | test-crawler-results.js:15 | dropping leading white space keeps the visible characters |
| CourseMerge.VisibleDropBack | test-crawler-results.js:15 | dropping trailing white space keeps the visible characters |
| CourseMerge.TrimCollapsed | test-crawler-results.js:15 | trimming a collapsed string keeps it collapsed and keeps its visible characters |
| CourseMerge.TrimPadded | test-crawler-results.js:16 | `trim()` of a join of words with at most one space on either side gives back the join |
| CourseMerge.NormalizeSpace | test-crawler-results.js:14-16 | the result is the words of the input, after `&nbsp;` and NBSP became spaces, joined by single spaces: single spaces only, none at either end, the visible characters in order; a missing input reads as `''` |
| CourseMerge.MergeList | test-crawler-results.js:144-145 | the first five distinct values of a's list followed by b's, in the order of their first occurrence; at most five, distinct, each from one of the lists |
| CourseMerge.MergeListKeepsAll | test-crawler-results.js:144-145 | when the two lists hold at most five distinct values, all of them are kept |
| CourseMerge.MergeListFirstFive | test-crawler-results.js:144-145 | the merged list follows first-occurrence order, skips no value that occurs before one it keeps, and has five values unless fewer distinct ones exist |
| CourseMerge.MergeCourseInfo | test-crawler-results.js:138-164 | the longer description wins and a tie keeps a's, with a missing one as length 0; title, university, funding, location and deadline text are a's if truthy, else b's (null when neither); the date is a's if truthy, else b's if truthy, else the ISO date of the merged text; supervisors and emails are the merged lists |
| CourseMerge.MergedShape | test-crawler-results.js:141-162 | the merged record always has both lists, and a university, funding or date, when present, is non-empty |
| CourseMerge.Keys | test-crawler-results.js:242 | the key of each record is `title::university` |
| CourseMerge.WithKey | test-crawler-results.js:244-248 | the records grouped under a key all come from the input and carry that key |
| CourseMerge.MergeAll | test-crawler-results.js:243-248 | the merge loop keeps the map well formed |
| CourseMerge.MergeAllSnoc | test-crawler-results.js:244-248 | one more record is set under its key when the key is new, or merged into the record already there |
| CourseMerge.GroupStep | test-crawler-results.js:246-247 | one loop step keeps every key mapped to the merge of its group so far |
| CourseMerge.MergeAllGroups | test-crawler-results.js:242-250 | the keys come in order of first appearance, a key is present exactly when some record has it, and each maps to the left fold of `mergeCourseInfo` over its records in input order |
| CourseMerge.MergeCourses | test-crawler-results.js:243-250 | the `forEach` over the prepared records followed by `Array.from(values())` gives the merged values in key order |
| CourseMerge.MergeCoursesShape | test-crawler-results.js:242-250 | there is one merged record per distinct key, and a key held by one record only maps to that record unchanged |
| Dates.TwoDigits | test-crawler-results.js:41 | `padStart(2, '0')` of a number below 100 is two digits spelling that number |
| Dates.IndexOf | test-crawler-results.js:19-33 | the index found is the first where the name occurs, and there is none exactly when the name is absent |
| Dates.MonthToNum | test-crawler-results.js:18-34 | a month name, in any case, gives the two digits of its place in the year; anything else gives null |
| Dates.MonthNamesDistinct | test-crawler-results.js:19-32 | the twelve month names are distinct |
| Dates.SpacesEnd | test-crawler-results.js:39 | `\s+` runs to the first character that is not white space |
| Dates.WordIn | test-crawler-results.js:39 | the month alternative matched is the first in the list's order that matches at the position; none matches otherwise |
| Dates.DayDigits | test-crawler-results.js:39 | `\d{1,2}` takes one digit, or two when the second is a digit |
| Dates.DateAt | test-crawler-results.js:39 | a match at a position has a day of one or two digits, a month name matched without case, and a year of four digits |
| Dates.MonthYear | test-crawler-results.js:39 | after the day, a month name and then white space and four digits must follow |
| Dates.YearAfter | test-crawler-results.js:39 | the year is the four digits after the white space following the month |
| Dates.Leftmost | test-crawler-results.js:39 | `match` without the `g` flag takes the leftmost position where the pattern matches |
| Dates.FindDate | test-crawler-results.js:39 | the date found is at the leftmost position with a match; if none is found, no position matches |
| Dates.SmallDay | test-crawler-results.js:41 | a one- or two-digit day is below 100 |
| Dates.PadDay | test-crawler-results.js:41 | the day is spelt in two digits with no check of its range |
| Dates.PaddedSpelling | test-crawler-results.js:41 | `String(parseInt(d)).padStart(2, '0')` equals the two-digit spelling |
| Dates.IsoOf | test-crawler-results.js:41-45 | a match turns into a date exactly when its month is a month name, and the date has the `YYYY-MM-DD` shape |
| Dates.IsoShape | test-crawler-results.js:45 | four, two and two digits joined by `-` have the `YYYY-MM-DD` shape |
| Dates.ToIsoDate | test-crawler-results.js:36-46 | a date comes out exactly when the text is non-empty and holds a match, and it has the `YYYY-MM-DD` shape |
| Dates.IsoOfParts | test-crawler-results.js:41-45 | the date is the year, the month number and the zero-padded day |
| Dates.Differ3NotPrefix | test-crawler-results.js:39 | two words differing in their first three letters are not prefixes of each other |
| Dates.MonthLetterWords | test-crawler-results.js:39 | the month names are words of lower-case letters |
| Dates.SuffixLetterWords | test-crawler-results.js:39 | the ordinal suffixes are words of lower-case letters |
| Dates.MonthsPrefixFree | test-crawler-results.js:39 | no month name is a prefix of another |
| Dates.LetterNotSpace | test-crawler-results.js:39 | a letter is neither white space nor a digit |
| Dates.SpaceNotLetter | test-crawler-results.js:39 | white space is not a letter |
| Dates.LowerSlice | test-crawler-results.js:33 | lower-casing commutes with taking a prefix |
| Dates.ShortWordBegins | test-crawler-results.js:39 | a shorter alternative matching where a name is written is a prefix of that name |
| Dates.LongWordBreaks | test-crawler-results.js:39 | a longer alternative cannot match across the space after a name |
| Dates.OnlyWordThere | test-crawler-results.js:39 | where a month name is written, followed by a space, no other month alternative matches |
| Dates.WordFound | test-crawler-results.js:39 | the alternative found there is that name's |
| Dates.NoWordAtSpace | test-crawler-results.js:39 | no month alternative matches at white space |
| Dates.DateAtWritten | test-crawler-results.js:39 | `d month yyyy` written out matches at its start with its own parts |
| Dates.NameAt | test-crawler-results.js:39 | a month name followed by a space and a year is found as that month |
| Dates.DateAtDay | test-crawler-results.js:39 | a day followed by one space and a non-space character goes on to the month |
| Dates.MonthYearWritten | test-crawler-results.js:39 | a month name followed by a space and a year matches as that month and year |
| Dates.YearAfterWritten | test-crawler-results.js:39 | the year after the name and one space is taken |
| Dates.ToIsoDateOfWritten | test-crawler-results.js:36-46 | `d month yyyy` gives `yyyy-mm-dd` with the month's number and the day padded, as in `7 January 2026` giving `2026-01-07` |
| Dates.FindDateWritten | test-crawler-results.js:39 | `d month yyyy` is found at position 0 with its own parts |
| Dates.ToIsoDateOfMatch | test-crawler-results.js:39-45 | the date of a text is built from the leftmost match's parts |
| CrawlerObserver.Pushed | src/crawler/CrawlerObserver.js:24-27 | the buffer grows by one until it holds 1000 events, and is then the last 1000 of the old events followed by the new one |
| CrawlerObserver.PushedBounded | src/crawler/CrawlerObserver.js:24-27 | the length never exceeds 1000, the new event is last, and the events before it keep their arrival order |
| CrawlerObserver.GetEvents | src/crawler/CrawlerObserver.js:73-75 | a positive limit gives the last min(limit, length) events, a limit of 0 the whole buffer (`slice(-0)` is `slice(0)`), and a negative limit drops that many events from the front |
| CrawlerObserver.GetEventsRecent | src/crawler/CrawlerObserver.js:74 | the k-th returned event is the k-th of the most recent ones |
| CrawlerObserver.GetLatestEvent | src/crawler/CrawlerObserver.js:80-82 | the last event, or null exactly when the buffer is empty |
| CrawlerObserver.Bump | src/crawler/CrawlerObserver.js:101 | incrementing a type's count keeps the tally a well-formed map |
| CrawlerObserver.Tally | src/crawler/CrawlerObserver.js:95-102 | the tally over the buffer is a well-formed map |
| CrawlerObserver.TallyNext | src/crawler/CrawlerObserver.js:100-102 | one `forEach` round bumps the count of that event's type |
| CrawlerObserver.SumOther | src/crawler/CrawlerObserver.js:101 | changing a type not listed leaves the sum of the counts alone |
| CrawlerObserver.SumUpdate | src/crawler/CrawlerObserver.js:101 | changing one listed type's count changes the sum by the same amount |
| CrawlerObserver.SumBump | src/crawler/CrawlerObserver.js:101 | a bump adds exactly one to the sum of the counts |
| CrawlerObserver.TallySum | src/crawler/CrawlerObserver.js:94-105 | the counts by type add up to the number of events |
| CrawlerObserver.TallyCounts | src/crawler/CrawlerObserver.js:100-102 | a type has a count exactly when some event has it, and the count is the number of such events |
| CrawlerObserver.Observer.constructor | src/crawler/CrawlerObserver.js:7-10 | the observer starts with no events |
| CrawlerObserver.Observer.HandleEvent | src/crawler/CrawlerObserver.js:15-31 | the event is pushed with the given time and the oldest dropped past 1000 |
| CrawlerObserver.Observer.ClearEvents | src/crawler/CrawlerObserver.js:87-89 | the buffer is empty afterwards |
| CrawlerObserver.Observer.GetStats | src/crawler/CrawlerObserver.js:94-105 | `total` is the buffer length, `byType` is the tally, and its counts add up to `total` |
| FindaphdUrl.ClassifyToken | src/findaphd/url.js:4-17 | a token is a discipline exactly when it starts with `10`, a subject with `30`, geo with `g` or `G`, funding with `01`; anything else is unknown |
| FindaphdUrl.AddToFamily | src/findaphd/url.js:37-39 | the token is appended to its own family's list and every other family is left alone |
| FindaphdUrl.Classify | src/findaphd/url.js:33-40 | each family lists exactly the tokens of that family, in query order |
| FindaphdUrl.NumberOf | src/findaphd/url.js:24 | `Number` of a present `PG` value always yields some page value |
| FindaphdUrl.NumberOfIntToString | src/findaphd/url.js:24 | `Number(String(p))` is `p` for every integer page |
| FindaphdUrl.SplitUrl | src/findaphd/url.js:20-22 | the base holds neither `?` nor `#`, and the fragment is dropped from the query |
| FindaphdUrl.EncodeAll | src/findaphd/url.js:59 | each token is `encodeURIComponent` of the original, position by position |
| FindaphdUrl.WithTrailingSlash | src/findaphd/url.js:53 | the base ends in exactly the slash it had, or one is added |
| FindaphdUrl.Build | src/findaphd/url.js:46-64 | the URL starts with the path built from base and path segments |
| FindaphdUrl.BuildOnBase | src/findaphd/url.js:53 | a base ending in `/` is a prefix of the built URL |
| FindaphdUrl.NonEmpty | src/findaphd/url.js:34 | only non-empty tokens of the input are kept |
| FindaphdUrl.NonEmptyKeepsAll | src/findaphd/url.js:34 | when no token is empty, all tokens survive in order |
| FindaphdUrl.BareParams | src/findaphd/url.js:29-30 | `URLSearchParams` sees each bare token as a name with an empty value |
| FindaphdUrl.JoinAvoids | src/findaphd/url.js:59 | joining segments free of a character with another separator keeps the character out |
| FindaphdUrl.JoinAppend | src/findaphd/url.js:60 | joining two non-empty lists is joining each with the separator between |
| FindaphdUrl.JoinEmpty | src/findaphd/url.js:60-61 | an empty join comes from at most one empty segment |
| FindaphdUrl.EncodedAvoids | src/findaphd/url.js:59 | an encoded token never holds a reserved character such as `&`, `=` or `#` |
| FindaphdUrl.PiecesAvoid | src/findaphd/url.js:58 | a serialised named parameter holds no `#` |
| FindaphdUrl.QueryJoins | src/findaphd/url.js:58-61 | the query is the `&`-join of the named pieces followed by the encoded tokens, and empty only when both are |
| FindaphdUrl.ParseSegmentsPieces | src/findaphd/url.js:58-60 | parsing named pieces followed by other segments gives those parameters first |
| FindaphdUrl.ParsePairBare | src/findaphd/url.js:59 | an encoded bare token reads back as that name with an empty value |
| FindaphdUrl.ParseSegmentsBare | src/findaphd/url.js:59 | the encoded tokens read back as the bare parameters |
| FindaphdUrl.BareTokensPieces | src/findaphd/url.js:35 | named pieces are skipped by the bare-token reader |
| FindaphdUrl.BareTokenDecodes | src/findaphd/url.js:36 | `decodeURIComponent` undoes `encodeURIComponent` on a token, whose encoding holds no `=` |
| FindaphdUrl.BareTokensEncoded | src/findaphd/url.js:31-41 | the bare-token reader gives back exactly the non-empty encoded tokens |
| FindaphdUrl.EmptyBare | src/findaphd/url.js:60-61 | an empty bare join means no non-empty token was given |
| FindaphdUrl.PathAvoids | src/findaphd/url.js:53 | a base free of `?` and `#` gives a path free of them |
| FindaphdUrl.QueryAvoids | src/findaphd/url.js:58-61 | the query holds no `#` |
| FindaphdUrl.SplitBuild | src/findaphd/url.js:63 | splitting a built URL gives back its path and its query |
| FindaphdUrl.SplitGlued | src/findaphd/url.js:63 | a path glued to a query with `?` splits back into the two |
| FindaphdUrl.QueryParams | src/findaphd/url.js:54-61 | `URLSearchParams` reads the query as the named parameters followed by the bare ones |
| FindaphdUrl.QueryTokens | src/findaphd/url.js:31-41 | parse's bare-token pass over a built query yields the non-empty tokens |
| FindaphdUrl.NamedGets | src/findaphd/url.js:55-56 | `Keywords` reads back when truthy and is absent otherwise, and `PG` reads back as `String(page)` when the page is non-zero and is absent otherwise |
| FindaphdUrl.BuildThenParse | src/findaphd/url.js:19-64 | `parse(build(a))` gives the built path, the truthy keywords, the non-zero page, the non-empty tokens and their families |
| SearchParams.Piece | src/findaphd/url.js:58 | a serialised pair holds `=` and neither `&` nor `#` |
| SearchParams.FormEncodeAvoids | src/findaphd/url.js:58 | form encoding keeps out every character it does not leave as it is |
| SearchParams.Pieces | src/findaphd/url.js:58 | one serialised piece per parameter, in order |
| SearchParams.SplitFirst | src/findaphd/url.js:20 | the text before the first occurrence of the character, and the rest after it when it occurs |
| SearchParams.SplitFirstAbsent | src/findaphd/url.js:20 | a text without the character does not split |
| SearchParams.SplitFirstGlued | src/findaphd/url.js:20 | text glued with the character splits at that place when the left part lacks it |
| SearchParams.ParseSegmentsCons | src/findaphd/url.js:23-24 | a valid leading segment parses to its pair followed by the rest |
| SearchParams.PiecesCons | src/findaphd/url.js:58 | the pieces of a list are its first piece followed by the pieces of the rest |
| SearchParams.Get | src/findaphd/url.js:23-24 | `get` finds a value exactly when some parameter has the name, and then it is the first such parameter's value |
| SearchParams.PiecePairRoundTrip | src/findaphd/url.js:58 | parsing a serialised pair gives the pair back |
| SearchParams.SegmentsRoundTrip | src/findaphd/url.js:58 | parsing the serialised pieces gives the parameter list back |
| SearchParams.QueryRoundTrip | src/findaphd/url.js:54-58 | `new URLSearchParams(params.toString())` holds the same parameters in the same order |
| SearchParams.GetAppend | src/findaphd/url.js:60 | in a concatenated query the first list's value wins, else the second's |
| SearchParams.Names | src/workers/playwrightCrawler.js:83-121 | the names of the candidate parameters, one per candidate, in order |
| SearchParams.DistinctByInitial | src/workers/playwrightCrawler.js:83-121 | names that start with distinct letters are distinct |
| SearchParams.Origin | src/workers/playwrightCrawler.js:83-121 | every appended parameter comes from some candidate with a truthy value, with that name and value |
| SearchParams.OriginIncreasing | src/workers/playwrightCrawler.js:83-121 | appended parameters keep the order of the candidates they come from |
| SearchParams.TruthyAppended | src/workers/playwrightCrawler.js:83-121 | every candidate with a truthy value is appended |
| SearchParams.AppendedAbsent | src/workers/playwrightCrawler.js:83-121 | a name no candidate has is never present |
| SearchParams.FirstNameUnique | src/workers/playwrightCrawler.js:83-121 | with distinct names, the first name does not recur after it |
| SearchParams.AppendedGet | src/workers/playwrightCrawler.js:83-121 | with distinct names, `get(name)` is the candidate's value when truthy and null otherwise |
| PlaywrightCrawler.PageValue | src/workers/playwrightCrawler.js:116-118 | `PG` is present exactly for a page after the first, as its decimal text |
| PlaywrightCrawler.AppendTruthySnoc | src/workers/playwrightCrawler.js:87-118 | one more conditional append adds its pair at the end exactly when the value is truthy |
| PlaywrightCrawler.AppendIfTruthy | src/workers/playwrightCrawler.js:87-89 | `if (value) params.append(name, value)` extends the parameters as the candidate list says |
| PlaywrightCrawler.BuildSearchUrl | src/workers/playwrightCrawler.js:83-121 | the URL is the search path followed by the serialised truthy parameters in the fixed order |
| PlaywrightCrawler.V2Distinct | src/workers/playwrightCrawler.js:83-121 | the eight candidate names are distinct and in the order the code appends them |
| PlaywrightCrawler.V2Get | src/workers/playwrightCrawler.js:83-121 | each parameter reads back as its truthy value and is absent otherwise: `funding` carries `fundingType`, `PG` is there only after page 1 |
| PlaywrightCrawler.V2Only | src/workers/playwrightCrawler.js:83-121 | no other name is ever present |
| PlaywrightCrawler.V2Order | src/workers/playwrightCrawler.js:83-121 | present parameters keep the fixed order, each at most once |
| PlaywrightCrawler.V2PageLast | src/workers/playwrightCrawler.js:116-118 | after page 1, `PG` is the last parameter |
| PlaywrightCrawler.V2UrlQuery | src/workers/playwrightCrawler.js:120 | the URL is `https://www.findaphd.com/phds/?` followed by a query that parses back to the appended parameters |
| PlaywrightCrawler.NothingTruthy | src/workers/playwrightCrawler.js:83-121 | when no value is truthy nothing is appended |
| PlaywrightCrawler.V2BareUrl | src/workers/playwrightCrawler.js:120 | without keywords, filters or a later page the URL still ends in `?` |
| PlaywrightCrawler.TryBlock | src/workers/playwrightCrawler.js:22-74 | the record is built exactly when context, extraction and context close succeed, with the given page and the extracted fields; the context is closed only after a successful extraction |
| PlaywrightCrawler.Bracketed | src/workers/playwrightCrawler.js:20-77 | calls between an acquire and a release hold exactly one of each |
| PlaywrightCrawler.CrawlSearchPage | src/workers/playwrightCrawler.js:19-78 | a failed acquire makes no other call; otherwise the browser is acquired first and released last exactly once, whatever fails in between |
| PlaywrightCrawler.ContextLeak | src/workers/playwrightCrawler.js:63-77 | when extraction fails the context is never closed, only the browser released |
| PlaywrightCrawlerV3.BuildSearchUrl | src/workers/playwrightCrawler-v3.js:395-410 | the URL carries only the truthy keywords and discipline and the page after the first, in that order |
| PlaywrightCrawlerV3.V3Distinct | src/workers/playwrightCrawler-v3.js:395-410 | the three candidate names are distinct and in append order |
| PlaywrightCrawlerV3.V3Get | src/workers/playwrightCrawler-v3.js:395-410 | `Keywords`, `discipline` and `PG` read back as their truthy values, and no other name is present |
| PlaywrightCrawlerV3.V3IgnoresOtherFilters | src/workers/playwrightCrawler-v3.js:395-410 | filters other than the discipline do not change the URL |
| PlaywrightCrawlerV3.Record | src/workers/playwrightCrawler-v3.js:83-94 | the record and its pagination object carry the page and the extracted totals, and `hasNextPage` holds exactly when the page is before the last |
| PlaywrightCrawlerV3.LastPage | src/workers/playwrightCrawler-v3.js:92 | on or past the last page there is no next page |
| PlaywrightCrawlerV3.Cleanup | src/workers/playwrightCrawler-v3.js:99-106 | the page is closed when there is one, the context only when there is one and closing the page did not throw |
| PlaywrightCrawlerV3.Attempt | src/workers/playwrightCrawler-v3.js:38-107 | the record is returned exactly when context, page and extraction succeed, and errors of the `finally` block never change the outcome |
| PlaywrightCrawlerV3.CloseErrorsSwallowed | src/workers/playwrightCrawler-v3.js:103-105 | outcomes do not depend on whether closing throws |
| PlaywrightCrawlerV3.PageCloseFailureLeaksContext | src/workers/playwrightCrawler-v3.js:101-105 | when closing the page throws, the context stays open |
| PlaywrightCrawlerV3.Crawler.constructor | src/workers/playwrightCrawler-v3.js:9-12 | the crawler starts without a browser |
| PlaywrightCrawlerV3.Crawler.EnsureBrowser | src/workers/playwrightCrawler-v3.js:15-24 | an open browser is reused, otherwise the launch outcome is returned and a launched browser kept |
| PlaywrightCrawlerV3.Crawler.CloseBrowser | src/workers/playwrightCrawler-v3.js:26-31 | without a browser nothing happens; a close that succeeds forgets the browser, one that throws keeps it |
| PlaywrightCrawlerV3.Crawler.CrawlSearchPage | src/workers/playwrightCrawler-v3.js:36-107 | the browser is launched only when there is none; a failed launch ends the call with that error before any other call |
| CrawlerLogRepository.OrZero | src/database/repositories/CrawlerLogRepository.js:39 | `x \|\| 0`: the value when present, else 0 |
| CrawlerLogRepository.Written | src/database/repositories/CrawlerLogRepository.js:38-46 | each of the six counters written is the given one, or 0 when it is missing |
| CrawlerLogRepository.Started | src/database/repositories/CrawlerLogRepository.js:12-21 | a new row is `running`, with the trigger type, version `2.0.0`, the start time, and no end, error or counters |
| CrawlerLogRepository.WithCounters | src/database/repositories/CrawlerLogRepository.js:26-49 | only the counters change; the status stays as it was |
| CrawlerLogRepository.Complete | src/database/repositories/CrawlerLogRepository.js:54-81 | the row becomes `completed` with the end time, the duration since its start and the counters; its error fields are untouched |
| CrawlerLogRepository.Fail | src/database/repositories/CrawlerLogRepository.js:92-124 | the row becomes `failed` with the end time, the duration, the counters, the message or `Unknown error`, and the stack or the empty text |
| CrawlerLogRepository.LastEndWins | src/database/repositories/CrawlerLogRepository.js:54-124 | ending a row twice leaves the status and counters of the second ending, and completing a failed row keeps its error message |
| CrawlerLogRepository.Slot | src/database/repositories/CrawlerLogRepository.js:35 | `WHERE id = ?` matches a row exactly for ids 1 to the number of rows, and then the row with that id |
| CrawlerLogRepository.AfterProgress | src/database/repositories/CrawlerLogRepository.js:26-49 | only the row with that id gets the counters; an unknown id changes nothing |
| CrawlerLogRepository.AfterComplete | src/database/repositories/CrawlerLogRepository.js:54-81 | only the row with that id is completed |
| CrawlerLogRepository.AfterFail | src/database/repositories/CrawlerLogRepository.js:92-124 | only the row with that id is failed |
| CrawlerLogRepository.CountRunning | src/database/repositories/CrawlerLogRepository.js:186-194 | the count of running rows is positive exactly when some row is running |
| CrawlerLogRepository.Latest | src/database/repositories/CrawlerLogRepository.js:142-149 | there is a latest row exactly when there is any row, and none started later |
| CrawlerLogRepository.ProgressOf | src/database/repositories/CrawlerLogRepository.js:166-173 | a progress row is listed exactly when it belongs to that log |
| CrawlerLogRepository.ProgressNewestFirst | src/database/repositories/CrawlerLogRepository.js:170 | a newly written progress row comes first in its log's list |
| CrawlerLogRepository.Repository.constructor | src/database/repositories/CrawlerLogRepository.js:8-210 | the store starts with no logs, no progress and no last full crawl |
| CrawlerLogRepository.Repository.StartCrawl | src/database/repositories/CrawlerLogRepository.js:12-21 | appends the started row, returns the next id, and leaves a crawl running |
| CrawlerLogRepository.Repository.UpdateProgress | src/database/repositories/CrawlerLogRepository.js:26-49 | the logs become the counters update of that row; nothing else changes |
| CrawlerLogRepository.Repository.CompleteCrawl | src/database/repositories/CrawlerLogRepository.js:54-87 | the row is completed and `last_full_crawl` set to now, even when the id matches no row |
| CrawlerLogRepository.Repository.FailCrawl | src/database/repositories/CrawlerLogRepository.js:92-124 | the row is failed and `last_full_crawl` is left alone |
| CrawlerLogRepository.Repository.LogProgress | src/database/repositories/CrawlerLogRepository.js:129-137 | appends one progress row, which then heads that log's progress list |
| CrawlerLogRepository.Repository.IsRunning | src/database/repositories/CrawlerLogRepository.js:186-194 | true exactly when some row is running |
| CrawlerLogRepository.EndingLastRunStopsRunning | src/database/repositories/CrawlerLogRepository.js:54-124 | ending the one running row, by completing or by failing it, leaves no crawl running |
| CrawlerScheduler.DigitPrefix | src/crawler/CrawlerScheduler.js:127 | the longest run of decimal digits at the front of the text |
| CrawlerScheduler.HexPrefix | src/crawler/CrawlerScheduler.js:127 | the longest run of hexadecimal digits at the front of the text |
| CrawlerScheduler.DigitPrefixOfDigits | src/crawler/CrawlerScheduler.js:127 | digits followed by a non-digit give back exactly those digits |
| CrawlerScheduler.ParseIntLeadingDigits | src/crawler/CrawlerScheduler.js:127 | `parseInt` of decimal digits followed by other text is the digits' value: the rest is ignored |
| CrawlerScheduler.ParseIntRoundTrip | src/crawler/CrawlerScheduler.js:127 | `parseInt(String(i))` is `i` for every integer |
| CrawlerScheduler.UnsignedOfSpelling | src/crawler/CrawlerScheduler.js:127 | the decimal spelling of a natural has no sign and reads back as the number |
| CrawlerScheduler.LoadSettings | src/crawler/CrawlerScheduler.js:120-133 | a truthy stored value sets the interval to its `parseInt`; a missing, empty or unreadable setting keeps the interval |
| CrawlerScheduler.LoadSettingsUnchecked | src/crawler/CrawlerScheduler.js:126-128 | any stored integer, however large or negative, becomes the interval |
| CrawlerScheduler.IsCrawlerEnabled | src/crawler/CrawlerScheduler.js:138-147 | a failed read means on, a missing row means off, and otherwise on exactly when the value is `true` |
| CrawlerScheduler.CronFields | src/crawler/CrawlerScheduler.js:104-115 | the expression has five space-separated fields: minute 0, the hour field, then three stars |
| CrawlerScheduler.HourFieldShape | src/crawler/CrawlerScheduler.js:110-114 | the expression is `0 ` plus the hour field plus ` * * *`, and the hour field holds no space |
| CrawlerScheduler.CronSplit | src/crawler/CrawlerScheduler.js:113 | an hour field without spaces splits back out of the expression |
| CrawlerScheduler.CronEveryInterval | src/crawler/CrawlerScheduler.js:104-115 | for every interval of at least one hour the expression fires every that many hours |
| CrawlerScheduler.ScheduleCrawl | src/crawler/CrawlerScheduler.js:73-99 | a running crawler refuses every trigger; a switched-off crawler refuses only scheduled triggers; otherwise the crawler's result or the message it threw |
| CrawlerScheduler.SwitchGatesOnlyScheduled | src/crawler/CrawlerScheduler.js:82-86 | manual and startup crawls run whatever the switch says |
| CrawlerScheduler.Initial | src/crawler/CrawlerScheduler.js:11-16 | nothing is scheduled, the scheduler is stopped and the interval is one hour |
| CrawlerScheduler.Start | src/crawler/CrawlerScheduler.js:21-48 | a running scheduler does nothing; otherwise the interval is reloaded, a startup crawl requested, and the job scheduled with the expression for that interval, or the scheduling error returned with the scheduler still stopped |
| CrawlerScheduler.Stop | src/crawler/CrawlerScheduler.js:53-60 | the scheduler is stopped with no job and the same interval |
| CrawlerScheduler.SetInterval | src/crawler/CrawlerScheduler.js:152-172 | out of 1 to 24 throws with nothing changed; otherwise the interval is set, then a failed write throws, a stopped scheduler stays stopped, and a running one is stopped and started again |
| CrawlerScheduler.TransitionsKeepValid | src/crawler/CrawlerScheduler.js:21-172 | start, stop and setInterval keep a job scheduled exactly while the scheduler runs |
| CrawlerScheduler.StartIdempotent | src/crawler/CrawlerScheduler.js:22-25 | starting a started scheduler changes nothing and requests no crawl |
| CrawlerScheduler.SetIntervalReschedules | src/crawler/CrawlerScheduler.js:157-169 | a valid new interval on a running scheduler leaves it running with a job firing every that many hours and requests a startup crawl |
| CrawlerScheduler.SetIntervalFailedWrite | src/crawler/CrawlerScheduler.js:157-163 | when the write throws the interval is already changed but the job is not rescheduled |
| CrawlerScheduler.Scheduler.constructor | src/crawler/CrawlerScheduler.js:11-16 | the object starts in the initial state |
| CrawlerScheduler.Scheduler.Begin | src/crawler/CrawlerScheduler.js:21-48 | the fields change as `Start` says |
| CrawlerScheduler.Scheduler.Halt | src/crawler/CrawlerScheduler.js:53-60 | the fields change as `Stop` says |
| CrawlerScheduler.Scheduler.ChangeInterval | src/crawler/CrawlerScheduler.js:152-172 | the fields change as `SetInterval` says |
| CrawlerScheduler.Scheduler.TriggerManualCrawl | src/crawler/CrawlerScheduler.js:65-68 | a manual crawl is refused exactly when the crawler is running |
| PhdRepository.Empty | src/database/repositories/PhDRepository.js:17-28 | the empty table is well formed and its first row id is 1 |
| PhdRepository.ToColumns | src/database/repositories/PhDRepository.js:31-55 | title, university, funding type and deadline fall back to their second source; every other text column is the caller's value or `NULL`, never the empty string |
| PhdRepository.Find | src/database/repositories/PhDRepository.js:167-170 | the row filed under the external id, or nothing exactly when there is none |
| PhdRepository.Insert | src/database/repositories/PhDRepository.js:17-71 | a new external id gets a new active, undeleted row with a fresh id, first and last seen now; a stored one is reported as a duplicate and the table is untouched |
| PhdRepository.Update | src/database/repositories/PhDRepository.js:76-137 | a stored row gets the new columns, is seen now and becomes active, keeping its id, url, first sighting and deletion flag; an unknown id changes nothing and reports no change |
| PhdRepository.Upsert | src/database/repositories/PhDRepository.js:142-162 | `inserted` exactly when the lookup found nothing and the insert succeeded, `updated` with the external id otherwise |
| PhdRepository.UpsertAlone | src/database/repositories/PhDRepository.js:142-162 | run alone, upsert reports `updated` exactly for a stored id, writes the new columns, leaves every other row alone, and leaves a soft-deleted row deleted |
| PhdRepository.UpsertAfterRace | src/database/repositories/PhDRepository.js:152-160 | when the row appears between the lookup and the insert, the duplicate is updated instead |
| PhdRepository.Listed | src/database/repositories/PhDRepository.js:288 | `IN (...)` picks exactly the stored rows whose id is listed |
| PhdRepository.MarkAsDeleted | src/database/repositories/PhDRepository.js:279-297 | no array or an empty one is refused with `No IDs provided` and nothing changes; otherwise exactly the listed rows become inactive and deleted, and the count is how many were stored |
| PhdRepository.Deleting | src/database/repositories/PhDRepository.js:285-289 | exactly the rows in the set become inactive and deleted |
| PhdRepository.UpdateLastSeen | src/database/repositories/PhDRepository.js:301-315 | no array or an empty one is refused; otherwise exactly the listed rows are seen now and the count is how many were stored |
| PhdRepository.MarkedLeaveActive | src/database/repositories/PhDRepository.js:267-297 | after a soft delete a listed row is no longer active, and every other row is active exactly as before |
| PhdRepository.AllActive | src/database/repositories/PhDRepository.js:267-274 | exactly the rows that are active and not deleted, each with its last sighting |
| PhdRepository.Filter | src/database/repositories/PhDRepository.js:198-232 | a row is in the result exactly when it is in the table, live and satisfies every supplied filter |
| PhdRepository.FilterMultiset | src/database/repositories/PhDRepository.js:198-232 | each matching row comes back exactly as often as the table holds it, and no other row at all |
| PhdRepository.FilterAppend | src/database/repositories/PhDRepository.js:198-232 | filtering a table cut in two filters each part, so the matches keep the table's order |
| PhdRepository.FilterOne | src/database/repositories/PhDRepository.js:198-232 | one row comes back alone when it matches, and nothing comes back otherwise |
| PhdRepository.CeilDiv | src/database/repositories/PhDRepository.js:257 | `Math.ceil(total / limit)`: for a positive limit the least count of pages that holds every row |
| PhdRepository.Window | src/database/repositories/PhDRepository.js:247-249 | `LIMIT ? OFFSET ?`: the slice from the clamped offset, at most `limit` long, or to the end for a negative limit |
| PhdRepository.Search | src/database/repositories/PhDRepository.js:183-262 | every result matches, `total` counts every match, at most `limit` results come back, and the next and previous flags follow the page number |
| PhdRepository.NextPageMeansMore | src/database/repositories/PhDRepository.js:258 | `page < totalPages` holds exactly when matching rows lie beyond this page |
| PhdRepository.MulMonotone | src/database/repositories/PhDRepository.js:235 | multiplying by a positive limit keeps the order of page numbers |
| PhdRepository.PageContents | src/database/repositories/PhDRepository.js:235-257 | page p holds the matches from position (p - 1) * limit on, and is non-empty exactly for pages up to `totalPages` |
| PhdRepository.FilterFindsStored | src/database/repositories/PhDRepository.js:198-249 | a stored row is found by a search exactly when it matches |
| PhdRepository.Repository.constructor | src/database/repositories/PhDRepository.js:13-394 | the repository starts with the empty table |
| PhdRepository.Repository.InsertRow | src/database/repositories/PhDRepository.js:17-71 | the table changes as `Insert` says |
| PhdRepository.Repository.UpdateRow | src/database/repositories/PhDRepository.js:76-137 | the table changes as `Update` says, and `success` means some row changed |
| PhdRepository.Repository.UpsertRow | src/database/repositories/PhDRepository.js:142-162 | the lookup then the write, as `Upsert` says |
| PhdRepository.Repository.MarkDeleted | src/database/repositories/PhDRepository.js:279-297 | the table changes as `MarkAsDeleted` says |
| PhdRepository.Repository.TouchLastSeen | src/database/repositories/PhDRepository.js:301-315 | the table changes as `UpdateLastSeen` says |
| BackgroundCrawler.NoCounters | src/crawler/BackgroundCrawler.js:423-432 | every counter of a fresh run is zero |
| BackgroundCrawler.ToStats | src/crawler/BackgroundCrawler.js:244-251 | the counters handed to the log repository are read back unchanged from the stored row |
| BackgroundCrawler.Seconds | src/crawler/BackgroundCrawler.js:103 | the reported duration is the elapsed milliseconds divided by 1000 and rounded to the nearest second |
| BackgroundCrawler.DigitsEnd | src/crawler/BackgroundCrawler.js:355 | the end of the longest run of digits starting at a position: every character before it is a digit, the one at it is not |
| BackgroundCrawler.FirstIdAt | src/crawler/BackgroundCrawler.js:355 | the first position of a `?p` or `&p` followed by a digit, or none exactly when no position has one |
| BackgroundCrawler.StripSlashes | src/crawler/BackgroundCrawler.js:363 | the path with at most one leading and one trailing slash removed; a path without slashes at its ends is returned as is |
| BackgroundCrawler.ExternalIdCases | src/crawler/BackgroundCrawler.js:350-367 | no id exactly when the url is missing or empty; the digits after the first `p` parameter when there is one; otherwise the slash-trimmed pathname, or the url itself when it cannot be parsed |
| BackgroundCrawler.DigitsEndOf | src/crawler/BackgroundCrawler.js:355 | a maximal digit run written at a position ends where the run ends |
| BackgroundCrawler.NoIdInPrefix | src/crawler/BackgroundCrawler.js:355 | a `p` parameter right after a prefix free of `?` and `&` is the first match |
| BackgroundCrawler.ProjectLinkId | src/crawler/BackgroundCrawler.js:350-358 | a FindAPhD project link `…?p<n>…` yields the decimal spelling of `n` |
| BackgroundCrawler.CountryShape | src/crawler/BackgroundCrawler.js:404-411 | no location gives no country; a country is non-empty, has no comma and no surrounding white space |
| BackgroundCrawler.TrimSlice | src/crawler/BackgroundCrawler.js:409 | trimming only cuts characters off both ends |
| BackgroundCrawler.LastPiece | src/crawler/BackgroundCrawler.js:409 | splitting at a separator puts the text after the last separator into the last piece |
| BackgroundCrawler.CountryAfterLastComma | src/crawler/BackgroundCrawler.js:404-411 | the country of `place, country` is the trimmed text after the last comma |
| BackgroundCrawler.StoredFields | src/crawler/BackgroundCrawler.js:202-227 | the stored record carries the external id and url, the scraped country or the one taken from the location, the ISO deadline parsed from the deadline text, the first of the alternative titles and universities, and no funding or deadline text |
| BackgroundCrawler.Upserted | src/crawler/BackgroundCrawler.js:229-235 | the listing is upserted into the table and counts as updated when its external id was stored, as added otherwise; nothing else changes |
| BackgroundCrawler.Stored | src/crawler/BackgroundCrawler.js:200-240 | a failing save leaves the table alone and counts one error; a succeeding one is the upsert |
| BackgroundCrawler.Save | src/crawler/BackgroundCrawler.js:188-240 | a listing without an external id is skipped and changes nothing; one with an id is stored and its id is remembered as seen |
| BackgroundCrawler.Identified | src/crawler/BackgroundCrawler.js:187-197 | the number of listings that have an external id is at most the number of listings |
| BackgroundCrawler.SaveAll | src/crawler/BackgroundCrawler.js:187-241 | saving a page of listings touches only the table, the counters and the save count: no request and no log entry |
| BackgroundCrawler.SaveAllCounts | src/crawler/BackgroundCrawler.js:187-241 | every listing with an id is saved once and adds exactly one to added, updated or errors; page, found and deleted counts stay; the seen set grows by the page's ids |
| BackgroundCrawler.SaveCounts | src/crawler/BackgroundCrawler.js:188-240 | one listing adds one save and one to added, updated or errors exactly when it has an id |
| BackgroundCrawler.Fetch | src/crawler/BackgroundCrawler.js:174 | a page fetch records the request and answers whatever the page crawler yields for it |
| BackgroundCrawler.Report | src/crawler/BackgroundCrawler.js:243-257 | after a page the running log row gets the current counters, one progress entry naming the page, the total pages, the found count and the time in seconds is appended, and one `progress` event with the page, the total pages and the counters is notified |
| BackgroundCrawler.Harvest | src/crawler/BackgroundCrawler.js:183-251 | harvesting a page keeps the tables well formed |
| BackgroundCrawler.HarvestSteps | src/crawler/BackgroundCrawler.js:183-251 | a page with results is counted, then every listing is saved, then progress is reported, in that order |
| BackgroundCrawler.Counted | src/crawler/BackgroundCrawler.js:183-184 | the page number is recorded and the found count grows by the page's result count |
| BackgroundCrawler.CrawlPage | src/crawler/BackgroundCrawler.js:170-298 | one loop pass makes one request, or two when a transient error is retried; it moves to the same or the next page within the 200-page cap and never touches the run flag or the log rows' count |
| BackgroundCrawler.PageWithResults | src/crawler/BackgroundCrawler.js:174-273 | a page with results is harvested and the loop moves to the next page, stopping at the last page or at page 200 |
| BackgroundCrawler.EmptyPageEnds | src/crawler/BackgroundCrawler.js:176-180 | a page without results ends the keyword with nothing saved |
| BackgroundCrawler.PageError | src/crawler/BackgroundCrawler.js:275-297 | a thrown error counts one error and keeps the page; a non-transient one retries the same page on the next pass, a transient one is retried at once and the loop goes on only if the retry has results |
| BackgroundCrawler.MessagelessErrorAborts | src/crawler/BackgroundCrawler.js:275-280 | an error without a message makes the error handler itself throw: one error is counted and the whole crawl aborts |
| BackgroundCrawler.Walk | src/crawler/BackgroundCrawler.js:167-299 | crawling one keyword keeps the tables well formed and never changes the run flag, the log id, the last full crawl or the number of log rows |
| BackgroundCrawler.WalkStep | src/crawler/BackgroundCrawler.js:170-299 | the keyword loop is one page pass followed by the rest of the loop from where that pass left off |
| BackgroundCrawler.Walks | src/crawler/BackgroundCrawler.js:156-304 | crawling all keywords keeps the tables well formed and never changes the run flag, the log id, the last full crawl or the number of log rows |
| BackgroundCrawler.NextKeywordLater | src/crawler/BackgroundCrawler.js:156 | the keywords `a`, `e`, `i`, `o`, `r`, `s`, `t` are crawled in that order |
| BackgroundCrawler.ChainAppend | src/crawler/BackgroundCrawler.js:162-299 | two ordered request sequences whose seam is ordered form an ordered sequence |
| BackgroundCrawler.WalkRequests | src/crawler/BackgroundCrawler.js:167-299 | one keyword's requests all name that keyword and start at its first page; each next request asks for the same page again or the next one, always within pages 1 to 200 |
| BackgroundCrawler.WalksRequests | src/crawler/BackgroundCrawler.js:156-304 | all requests of a full crawl are ordered: keyword after keyword, each starting at page 1, pages never going back |
| BackgroundCrawler.RepeatedErrorNeverEnds | src/crawler/BackgroundCrawler.js:275-297 | a page that keeps throwing the same non-transient error is retried without end, one error counted per pass and nothing saved |
| BackgroundCrawler.Expired | src/crawler/BackgroundCrawler.js:319-332 | the ids due for deletion are exactly the live rows last seen more than an hour before the end of the crawl |
| BackgroundCrawler.MarkDeleted | src/crawler/BackgroundCrawler.js:319-344 | the deletion sweep keeps the tables well formed and changes only the table and the counters |
| BackgroundCrawler.Deleted | src/crawler/BackgroundCrawler.js:330-335 | marking a set of ids deleted keeps the tables well formed |
| BackgroundCrawler.MarkDeletedExactly | src/crawler/BackgroundCrawler.js:319-344 | a failing sweep counts one error and changes nothing else; otherwise exactly the expired rows become inactive and deleted, every other row is unchanged, and the deleted count is their number when there are any |
| BackgroundCrawler.SeenEarlyIsDeleted | src/crawler/BackgroundCrawler.js:327-334 | a live row last seen more than an hour before the end of the crawl ends up deleted |
| BackgroundCrawler.StaleIds | src/crawler/BackgroundCrawler.js:324-335 | the ids collected are exactly the active rows seen before the cutoff, and the count is the number of distinct ids |
| BackgroundCrawler.Sweep | src/crawler/BackgroundCrawler.js:93-134 | the crawl-and-sweep body keeps the tables well formed |
| BackgroundCrawler.Failing | src/crawler/BackgroundCrawler.js:123-143 | a failed crawl marks its log row failed with the error, the counters and the end time in seconds; a row started at the run's start gets the whole seconds between start and end as its duration; `crawl_failed` is notified with the log id, the message and the counters; the run flag is released, and the answer is failure with the message and the counters |
| BackgroundCrawler.Closing | src/crawler/BackgroundCrawler.js:100-143 | a finished crawl marks its log row completed with the end time in seconds; a row started at the run's start gets the whole seconds between start and end as its duration; the last full crawl is the end in seconds; `crawl_completed` is notified with the log id, the counters and the rounded duration; the run flag is released, and the answer is success with the counters and that duration |
| BackgroundCrawler.Begun | src/crawler/BackgroundCrawler.js:80-81 | starting sets the run flag and zeroes the counters, nothing else |
| BackgroundCrawler.Opened | src/crawler/BackgroundCrawler.js:88-89 | opening the run appends one running log row with the next id, started at the given time, remembers that id and notifies `crawl_started` with it and the trigger type |
| BackgroundCrawler.Run | src/crawler/BackgroundCrawler.js:74-144 | a full crawl keeps the tables well formed |
| BackgroundCrawler.SingleFlight | src/crawler/BackgroundCrawler.js:75-78 | a crawl requested while one runs is refused and changes nothing |
| BackgroundCrawler.ReturnReleases | src/crawler/BackgroundCrawler.js:88-143 | a crawl that succeeds or fails releases the run flag and leaves exactly one new log row, completed or failed to match the answer, whose duration is the whole seconds from the start to the end, with every earlier row as it was |
| BackgroundCrawler.SweepReturns | src/crawler/BackgroundCrawler.js:93-143 | the part after the log row opens: a sweep that returns clears the flag and leaves its own row completed or failed to match the answer, with the start-to-end duration when the row started at the run's start |
| BackgroundCrawler.FailingRunEnded | src/crawler/BackgroundCrawler.js:123-143 | the catch and finally blocks clear the flag and leave the run's row failed, with the start-to-end duration when it started at the run's start |
| BackgroundCrawler.ClosingRunEnded | src/crawler/BackgroundCrawler.js:100-143 | completing the run clears the flag and leaves the run's row completed, with the start-to-end duration when it started at the run's start |
| BackgroundCrawler.Unannounced | src/crawler/BackgroundCrawler.js:62-69 | a step that notifies nothing and writes no progress row announces nothing |
| BackgroundCrawler.AnnouncedChain | src/crawler/BackgroundCrawler.js:62-69 | progress events announced, each paired with its progress row, over two stretches are so announced over the whole |
| BackgroundCrawler.ReportAnnounced | src/crawler/BackgroundCrawler.js:243-257 | reporting a page appends one `progress` event with the page and total pages of the progress row it writes |
| BackgroundCrawler.CrawlPageAnnounced | src/crawler/BackgroundCrawler.js:170-298 | a loop pass notifies only `progress` events, one per progress row written, paired with it |
| BackgroundCrawler.WalkAnnounced | src/crawler/BackgroundCrawler.js:167-299 | crawling one keyword notifies only `progress` events, one per progress row written, paired with it |
| BackgroundCrawler.WalksAnnounced | src/crawler/BackgroundCrawler.js:156-304 | crawling all keywords notifies only `progress` events, one per progress row written, paired with it |
| BackgroundCrawler.RunAnnouncedOf | src/crawler/BackgroundCrawler.js:89-134 | a run whose opening notified `crawl_started`, whose walks announced only their pages and whose end notified one closing event is announced in that order |
| BackgroundCrawler.RunEvents | src/crawler/BackgroundCrawler.js:53-144 | a run that returns notifies, after the earlier events, `crawl_started` with its log id and trigger type, then one `progress` event per progress row it wrote, each with that row's page and total pages, then `crawl_completed` or `crawl_failed` with its log id and exactly what it answers |
| BackgroundCrawler.LogTime | src/database/repositories/CrawlerLogRepository.js:16 | the log's time in seconds is the whole seconds of the millisecond time: the greatest `r` with `r * 1000` at most the time |
| BackgroundCrawler.JoinKeywords | src/crawler/BackgroundCrawler.js:156-304 | one keyword's ordered requests followed by the later keywords' ordered requests, starting at the next keyword's page 1, are ordered |
| BackgroundCrawler.StartFailureWedges | src/crawler/BackgroundCrawler.js:80-89 | when opening the log row throws, no event is notified, the run flag stays set and every later crawl is refused |
| BackgroundCrawler.Crawler.constructor | src/crawler/BackgroundCrawler.js:18-42 | a new crawler is idle, has no log id, zero counters, has made no request and has notified no event |
| BackgroundCrawler.Crawler.ResetStats | src/crawler/BackgroundCrawler.js:423-432 | zeroes the counters and changes nothing else |
| BackgroundCrawler.Crawler.FetchPage | src/crawler/BackgroundCrawler.js:174 | as `Fetch` |
| BackgroundCrawler.Crawler.UpsertListing | src/crawler/BackgroundCrawler.js:229-235 | as `Upserted` |
| BackgroundCrawler.Crawler.SaveListing | src/crawler/BackgroundCrawler.js:188-240 | as `Save` |
| BackgroundCrawler.Crawler.StoreListing | src/crawler/BackgroundCrawler.js:200-240 | as `Stored` |
| BackgroundCrawler.Crawler.SaveListings | src/crawler/BackgroundCrawler.js:187-241 | the save loop over a page is `SaveAll` |
| BackgroundCrawler.Crawler.HarvestPage | src/crawler/BackgroundCrawler.js:183-251 | as `Harvest` |
| BackgroundCrawler.Crawler.CountPage | src/crawler/BackgroundCrawler.js:183-184 | as `Counted` |
| BackgroundCrawler.Crawler.ReportPage | src/crawler/BackgroundCrawler.js:243-251 | as `Report` |
| BackgroundCrawler.Crawler.CrawlOnce | src/crawler/BackgroundCrawler.js:170-298 | one pass of the page loop is `CrawlPage` |
| BackgroundCrawler.Crawler.WalkKeyword | src/crawler/BackgroundCrawler.js:167-299 | the page loop for one keyword is `Walk` from page 1 |
| BackgroundCrawler.Crawler.CrawlAllPages | src/crawler/BackgroundCrawler.js:149-314 | the keyword loop is `Walks` from the first keyword with nothing seen |
| BackgroundCrawler.Crawler.MarkDeletedPhDs | src/crawler/BackgroundCrawler.js:319-344 | as `MarkDeleted` |
| BackgroundCrawler.Crawler.DeleteIds | src/crawler/BackgroundCrawler.js:330-335 | as `Deleted` on the collected ids |
| BackgroundCrawler.Crawler.StartFullCrawl | src/crawler/BackgroundCrawler.js:74-144 | as `Run` |
| BackgroundCrawler.Crawler.Begin | src/crawler/BackgroundCrawler.js:80-81 | as `Begun` |
| BackgroundCrawler.Crawler.OpenLog | src/crawler/BackgroundCrawler.js:88 | as `Opened`, returning the new row's id |
| BackgroundCrawler.Crawler.SweepAll | src/crawler/BackgroundCrawler.js:93-134 | as `Sweep` |
| BackgroundCrawler.Crawler.FailLog | src/crawler/BackgroundCrawler.js:123-143 | as `Failing` |
| BackgroundCrawler.Crawler.CompleteLog | src/crawler/BackgroundCrawler.js:100-143 | as `Closing` |
| BrowserPool.Fresh | src/api/browserPool.js:6-13 | a new pool has no browser, is not initialized, has no context, no open tab and an empty queue |
| BrowserPool.SumFrame | src/api/browserPool.js:8 | the tab count over a list of sessions ignores sessions outside the list |
| BrowserPool.SumSet | src/api/browserPool.js:8 | replacing one listed session's tabs changes the tab count by the difference in length |
| BrowserPool.SumSnoc | src/api/browserPool.js:8 | listing one more session adds its tabs to the count |
| BrowserPool.SumWithout | src/api/browserPool.js:137 | dropping a listed session removes exactly its tabs from the count |
| BrowserPool.PutTotal | src/api/browserPool.js:63 | storing a session's tab list changes the total by the difference in length |
| BrowserPool.RemoveTotal | src/api/browserPool.js:137 | deleting a session's context takes exactly its tabs out of the total |
| BrowserPool.Acquire | src/api/browserPool.js:28-84 | at capacity the request is queued and nothing else changes; below it, a session without context and no browser throws the null-browser error and changes nothing; otherwise Playwright is called: a throwing `newContext` rejects with its message and stores nothing; a throwing `newPage` rejects with its message and leaves the new context stored with no tab; otherwise one new tab is appended to the session's context, created at the end of the map order when missing, and the count grows by one |
| BrowserPool.ContextFor | src/api/browserPool.js:53-64 | after the lookup the session has a context, holding the tabs it held before or none when it was just created |
| BrowserPool.PageFailureLeavesContext | src/api/browserPool.js:53-67 | when `newPage` throws for a session that had no context, the empty context stays stored: the count and its drift are unchanged, but the session counts as one more active session |
| BrowserPool.Grant | src/api/browserPool.js:53-84 | below capacity an acquisition is never queued and leaves the queue alone |
| BrowserPool.AcquireDrift | src/api/browserPool.js:28-84 | acquiring keeps the active count exactly as far from the tabs actually held as before |
| BrowserPool.Serve | src/api/browserPool.js:145-154 | the queue is served from its front, each served request ending with a tab or an error, until it is empty or the pool is full again |
| BrowserPool.ServeDrift | src/api/browserPool.js:145-154 | serving the queue keeps the active count exactly as far from the tabs held as before |
| BrowserPool.ServeWithinCapacity | src/api/browserPool.js:28-154 | a pool within capacity stays within it after an acquisition and after serving the queue |
| BrowserPool.TabIndex | src/api/browserPool.js:89 | the first position of the tab with that id, or none exactly when no tab has it |
| BrowserPool.Locate | src/api/browserPool.js:88-91 | the first session, in map order, holding a tab with the id, and the tab's place there; none exactly when no session holds one |
| BrowserPool.Detach | src/api/browserPool.js:100-101 | the tab is cut out of its session's list and the count goes down by one; nothing else changes |
| BrowserPool.Release | src/api/browserPool.js:86-113 | answers true exactly when some session holds the tab; then the tab is removed and the queue served, otherwise nothing changes |
| BrowserPool.Closed | src/api/browserPool.js:121-128 | the tabs whose close does not fail are at most all of them, and all of them when none fails |
| BrowserPool.Drop | src/api/browserPool.js:115-137 | the session's context is deleted and the count goes down only by the tabs that closed: each failed close leaves one phantom in the count |
| BrowserPool.ReleaseSession | src/api/browserPool.js:115-143 | an unknown session changes nothing; a known one is dropped and the queue served |
| BrowserPool.ReleaseSessionDrift | src/api/browserPool.js:115-143 | releasing a session moves the count away from the tabs held by the number of failed closes, and not at all when none fails |
| BrowserPool.AllClosed | src/api/browserPool.js:156-185 | closing everything empties the contexts, zeroes the count and leaves the queue waiting; when `browser.close()` throws, the error is returned and the browser and the initialized flag stay; otherwise the browser and the initialized flag are dropped |
| BrowserPool.Initialize | src/api/browserPool.js:15-26 | an initialized pool is left as it is; otherwise a launch that throws returns its error and changes nothing, and one that succeeds opens the browser and marks the pool initialized |
| BrowserPool.FailedCloseBlocksRelaunch | src/api/browserPool.js:15-185 | after a `browser.close()` that throws, the pool still has its browser and stays initialized, so a later `initialize()` launches nothing |
| BrowserPool.FirstOf | src/api/browserPool.js:34 | the first queued request of the session, or none exactly when it has none |
| BrowserPool.Expire | src/api/browserPool.js:33-37 | a timeout removes the first queued request of that session, whichever request it was, and nothing else |
| BrowserPool.ServedTimerTakesNext | src/api/browserPool.js:33-48 | with two requests of one session waiting and one tab free, the first is served; its timer, still pending until the tab arrives, then removes the second request from the queue |
| BrowserPool.GetStats | src/api/browserPool.js:187-195 | active plus available tabs is the maximum, and the session and queue counts are the map and queue sizes |
| BrowserPool.IdleTabs | src/api/browserPool.js:227 | exactly the tabs unused for more than ten minutes |
| BrowserPool.IdleIn | src/api/browserPool.js:226-228 | every idle tab of every session, and only idle tabs |
| BrowserPool.ReleaseEach | src/api/browserPool.js:229-231 | releasing tabs one by one keeps the count exactly as far from the tabs held; with unique ids already handed out, no session holds a released id afterwards, every other tab stays in its session, the ids stay unique and an id gone stays gone |
| BrowserPool.Ids | src/api/browserPool.js:230 | the ids of the tabs, in order |
| BrowserPool.Cleanup | src/api/browserPool.js:222-233 | releasing the idle tabs keeps the count exactly as far from the tabs held; with unique ids, no session holds a tab unused for over ten minutes afterwards, every other tab stays in its session, and the ids stay unique |
| BrowserPool.CleanupEffect | src/api/browserPool.js:222-233 | releasing the ids of the idle tabs removes every idle tab and keeps every other tab where it was |
| BrowserPool.IdleIdsIssued | src/api/browserPool.js:226-230 | the ids of the idle tabs are ids the pool handed out |
| BrowserPool.BusyNotListed | src/api/browserPool.js:226-230 | with unique ids, a tab that is not idle has an id that is not among those released |
| BrowserPool.TabIdInjective | src/api/browserPool.js:68 | different tab numbers give different tab ids |
| BrowserPool.FreshNumbered | src/api/browserPool.js:6-13 | the constructor's pool has unique tab ids |
| BrowserPool.AcquireNumbered | src/api/browserPool.js:28-84 | acquiring keeps the tab ids unique and every tab in its session |
| BrowserPool.AttemptFailedNumbered | src/api/browserPool.js:53-67 | a failed Playwright call keeps the tab ids unique and loses no tab, whether or not it left an empty context |
| BrowserPool.ServeNumbered | src/api/browserPool.js:145-154 | serving the queue keeps the tab ids unique and every tab in its session |
| BrowserPool.DetachNumbered | src/api/browserPool.js:100-101 | cutting a tab out keeps the ids unique, leaves no tab with its id and keeps every other tab |
| BrowserPool.ReleaseNumbered | src/api/browserPool.js:86-113 | with unique ids, releasing an id leaves no tab with that id and keeps every other tab |
| BrowserPool.DropNumbered | src/api/browserPool.js:115-143 | releasing a session keeps the tab ids unique |
| BrowserPool.NumberedKept | src/api/browserPool.js:28-233 | every operation of the pool keeps the tab ids unique, so every pool reached from the constructor's has unique ids |
| BrowserPool.TabPool.constructor | src/api/browserPool.js:6-13 | as `Fresh` |
| BrowserPool.TabPool.InitializeBrowser | src/api/browserPool.js:15-26 | as `Initialize` |
| BrowserPool.TabPool.AcquireTab | src/api/browserPool.js:28-84 | as `Acquire` |
| BrowserPool.TabPool.OpenTab | src/api/browserPool.js:53-84 | the branches of `Acquire` that call Playwright: the context created or found, then the page opened, either call possibly throwing |
| BrowserPool.TabPool.ServeFront | src/api/browserPool.js:147-152 | one pass of the queue loop serves its front request and shortens the queue |
| BrowserPool.TabPool.ProcessQueue | src/api/browserPool.js:145-154 | as `Serve` |
| BrowserPool.TabPool.FindTab | src/api/browserPool.js:88-91 | the search loop finds what `Locate` finds |
| BrowserPool.TabPool.DetachTab | src/api/browserPool.js:100-101 | as `Detach` |
| BrowserPool.TabPool.ReleaseTab | src/api/browserPool.js:86-113 | as `Release` |
| BrowserPool.TabPool.CloseTabs | src/api/browserPool.js:121-128 | the count goes down by the tabs that closed and nothing else changes |
| BrowserPool.TabPool.ReleaseSessionTabs | src/api/browserPool.js:115-143 | as `ReleaseSession` |
| BrowserPool.TabPool.CloseAll | src/api/browserPool.js:156-185 | as `AllClosed` |
| BrowserPool.TabPool.TimeOut | src/api/browserPool.js:33-37 | as `Expire` |
| BrowserPool.TabPool.CleanupIdleTabs | src/api/browserPool.js:222-233 | as `Cleanup` |
| BrowserPool.TabPool.ReleaseNext | src/api/browserPool.js:229-231 | one pass of the release loop is the first step of `ReleaseEach` |
| SessionManager.EmptyRegistry | src/api/sessionManager.js:5-8 | the empty registry is consistent: every listed session exists, belongs to that user and appears once |
| SessionManager.RemoveFirst | src/api/sessionManager.js:152-155 | removing an absent id changes nothing, and removal never adds an id |
| SessionManager.RemoveFirstDistinct | src/api/sessionManager.js:152-155 | on a list without repeats, removal keeps it without repeats and removes exactly that id |
| SessionManager.ConsDistinct | src/api/sessionManager.js:29 | prepending a new id to a list without repeats keeps it without repeats |
| SessionManager.CreateConsistent | src/api/sessionManager.js:11-33 | a new session is stored with no searches, no current search and both times set to now; its id is appended to its user's list, created if missing; other users' lists are unchanged and the registry stays consistent |
| SessionManager.CreateSessionsListed | src/api/sessionManager.js:11-33 | after creation every session is listed under its own user |
| SessionManager.CreateListsHold | src/api/sessionManager.js:11-33 | after creation every user's list is non-empty, has no repeats and names only that user's sessions |
| SessionManager.DeleteConsistent | src/api/sessionManager.js:145-168 | deletion answers true exactly when the session existed; then it is gone from the map and from every user's list, an emptied list is dropped and the registry stays consistent; otherwise nothing changes |
| SessionManager.CleanupFromExact | src/api/sessionManager.js:183-188 | walking a list of ids deletes exactly the listed sessions that are older than 24 hours and leaves the others untouched |
| SessionManager.CleanupExact | src/api/sessionManager.js:177-193 | cleanup keeps exactly the sessions accessed within the last 24 hours, unchanged, and the registry stays consistent |
| SessionManager.SetSessionConsistent | src/api/sessionManager.js:40 | overwriting a stored session with one of the same id and user keeps the registry consistent and the map order |
| SessionManager.GetSession | src/api/sessionManager.js:36-45 | a missing session gives null and changes nothing; a stored one is returned with its access time set to now, which is also stored |
| SessionManager.FindSearch | src/api/sessionManager.js:99 | the first search with that id, or none exactly when there is none |
| SessionManager.NewSearch | src/api/sessionManager.js:69-81 | the new search's page is the given page unless it is missing or zero, then 1; total pages null unless given and non-zero; results empty unless given; status pending unless given and non-empty; no error; created and updated now |
| SessionManager.SaveSearch | src/api/sessionManager.js:62-89 | fails with `Session not found` exactly when the session is missing; otherwise answers the new search and keeps the registry consistent |
| SessionManager.FindAppended | src/api/sessionManager.js:83-99 | a search appended with a new id is found at the end |
| SessionManager.SavedIsCurrent | src/api/sessionManager.js:62-89 | the saved search is appended to the session's history, is found at its end, becomes the current search, the session is touched and no other session changes |
| SessionManager.ResumeSearch | src/api/sessionManager.js:92-110 | a missing session fails and changes nothing; a missing search fails with `Search not found`, the session having been touched already; otherwise the answer is a search of that session with that id |
| SessionManager.ResumedIsCurrent | src/api/sessionManager.js:92-110 | resuming makes the search current and touches the session, and nothing else changes |
| SessionManager.Assign | src/api/sessionManager.js:126-127 | every field the update gives replaces the search's own, every other field stays, and the search is updated now |
| SessionManager.UpdateSearch | src/api/sessionManager.js:113-131 | the same two errors as resuming; otherwise the answer is the first search with that id with the update applied |
| SessionManager.UpdateTouchesOneSearch | src/api/sessionManager.js:113-131 | only that search in the session's history is replaced, the session is touched, its current search and every other session stay |
| SessionManager.FindReplaced | src/api/sessionManager.js:120-126 | a search replaced in place by one with the same id is found at the same place |
| SessionManager.SearchHistory | src/api/sessionManager.js:134-142 | fails exactly when the session is missing; otherwise answers its searches in order |
| SessionManager.Resolve | src/api/sessionManager.js:173 | resolving ids keeps at most one session per id, and none when no id is stored |
| SessionManager.ResolveAll | src/api/sessionManager.js:173 | when every id is stored, the sessions come back one per id in the list's order |
| SessionManager.UserSessionsInOrder | src/api/sessionManager.js:171-174 | a user's sessions come back in creation order, one per listed id, all of that user |
| SessionManager.CountActive | src/api/sessionManager.js:200-202 | the active count is at most the number of sessions |
| SessionManager.CountActiveBounds | src/api/sessionManager.js:200-202 | it counts all sessions when every one was accessed within the hour and none when none was |
| SessionManager.GetStats | src/api/sessionManager.js:196-204 | the session and user totals are the map sizes, and active sessions are at most all sessions |
| SessionManager.Manager.constructor | src/api/sessionManager.js:5-8 | as `EmptyRegistry` |
| SessionManager.Manager.CreateSession | src/api/sessionManager.js:11-33 | as `Create`, answering the new empty session |
| SessionManager.Manager.GetSessionOf | src/api/sessionManager.js:36-45 | as `GetSession` |
| SessionManager.Manager.DeleteSession | src/api/sessionManager.js:145-168 | as `Delete` |
| SessionManager.Manager.SaveSearchState | src/api/sessionManager.js:62-89 | as `SaveSearch`; on failure the registry is unchanged |
| SessionManager.Manager.Resume | src/api/sessionManager.js:92-110 | as `ResumeSearch` |
| SessionManager.Manager.UpdateSearchState | src/api/sessionManager.js:113-131 | as `UpdateSearch` |
| SessionManager.Manager.GetSearchHistory | src/api/sessionManager.js:134-142 | as `SearchHistory` |
| SessionManager.Manager.GetUserSessions | src/api/sessionManager.js:171-174 | the user's sessions in order; none for an unknown user, one per listed id otherwise |
| SessionManager.Manager.GetStatsAt | src/api/sessionManager.js:196-204 | as `GetStats` |
| SessionManager.Manager.CleanupAt | src/api/sessionManager.js:177-193 | as `Cleanup` |
| SearchCache.Lookup | src/api/services/searchService.js:186-198 | the stored data is returned exactly when the key is stored and at most fifteen minutes old, and the cache is then unchanged; a stale entry is deleted, a missing one changes nothing |
| SearchCache.Entries | src/api/services/searchService.js:208 | the entries in map order, one per key, each with its stored value |
| SearchCache.EntriesFaithful | src/api/services/searchService.js:208 | a pair is among the entries exactly when it is a stored key with its value |
| SearchCache.InsertByTime | src/api/services/searchService.js:209 | inserting an entry into an oldest-first list keeps it oldest first and adds exactly that entry |
| SearchCache.HeadFirst | src/api/services/searchService.js:209 | an entry no newer than any other in front of a sorted permutation of them gives a sorted list |
| SearchCache.SortByTime | src/api/services/searchService.js:209 | the entries sorted oldest first, a permutation of the input |
| SearchCache.EvictCount | src/api/services/searchService.js:212 | `floor(n * 0.2)`: the largest number whose five-fold is at most `n` |
| SearchCache.KeySet | src/api/services/searchService.js:213-215 | the key of every listed entry |
| SearchCache.KeySetIndex | src/api/services/searchService.js:213-215 | every key of the set comes from some listed entry |
| SearchCache.RemoveEntries | src/api/services/searchService.js:213-215 | deleting the listed entries removes exactly their keys |
| SearchCache.RemoveEntriesSize | src/api/services/searchService.js:213-215 | deleting distinct stored keys shrinks the map by their number |
| SearchCache.DistinctOnce | src/api/services/searchService.js:208 | an element occurs at most once in a list without repeats |
| SearchCache.TwiceCounted | src/api/services/searchService.js:208 | an element at two positions occurs at least twice |
| SearchCache.PermutedKeysDistinct | src/api/services/searchService.js:208-209 | a permutation of the map's entries lists stored pairs with distinct keys |
| SearchCache.Evicted | src/api/services/searchService.js:207-215 | the evicted entries are a fifth of the map, rounded down |
| SearchCache.Save | src/api/services/searchService.js:200-217 | storing keeps the map well formed |
| SearchCache.EvictSize | src/api/services/searchService.js:207-215 | eviction shrinks the map by exactly a fifth, rounded down |
| SearchCache.EvictedKeys | src/api/services/searchService.js:207-215 | the evicted entries have distinct stored keys |
| SearchCache.EvictOldest | src/api/services/searchService.js:209-215 | every evicted entry is no newer than any entry that stays |
| SearchCache.KeptIsLater | src/api/services/searchService.js:209-215 | a key not among the first entries of the sorted list is no older than any of them |
| SearchCache.SaveBounded | src/api/services/searchService.js:200-217 | a cache of at most a thousand entries stays at most a thousand after a store |
| SearchCache.SaveEvictsOldest | src/api/services/searchService.js:200-217 | a store that keeps the map within a thousand entries is a plain set; one that takes it over deletes a fifth of the entries, keeps the rest unchanged, and deletes no entry newer than one it keeps |
| SearchCache.EvictedNoNewer | src/api/services/searchService.js:207-215 | no evicted entry is newer than a kept one |
| SearchCache.SaveThenLookup | src/api/services/searchService.js:200-217 | the data just stored, strictly newer than every other entry, is kept by eviction and found by a lookup at the same time |
| SearchCache.NewestKept | src/api/services/searchService.js:207-215 | the strictly newest entry is never evicted |
| SearchCache.Cleared | src/api/services/searchService.js:222-224 | clearing leaves the cache empty |
| SearchService.ListOf | src/api/services/searchService.js:136-143 | an array in the plain field wins, then an array in the token field, then a truthy plain string as a one-element list, then a truthy token string, else the empty list |
| SearchService.Normalize | src/api/services/searchService.js:130-148 | null filters give the empty filters object; otherwise both token lists are present |
| SearchService.PlainKeysWin | src/api/services/searchService.js:133-147 | each scalar token is the plain field when truthy and the `*Token` field otherwise |
| SearchService.NormalizedTokensMentioned | src/api/services/searchService.js:130-148 | normalising invents no token: every token the orchestrator sees was in the client's filters, and null filters give none |
| SearchService.AsText | src/api/services/searchService.js:158-161 | a value turns into text exactly when it is present |
| SearchService.OrValue | src/api/services/searchService.js:158-161 | a truthy first field wins, otherwise the second field's text |
| SearchService.ForCrawler | src/api/services/searchService.js:153-164 | null filters give the empty filters object |
| SearchService.CrawlerUrlFallbacks | src/api/services/searchService.js:153-164 | in the crawler's URL `country` falls back to `geography`, `funding` comes from `fundingType` or else `funding`, `studyType` falls back to `studyMode`, and `discipline` is passed through |
| SearchService.CrawlerUrlNoFilters | src/api/services/searchService.js:153-164 | null filters put no parameter other than the keywords and the page into the crawler's URL |
| SearchService.Returned | src/api/services/searchService.js:50 | fetching the search back through the session keeps the registry consistent |
| SearchService.CrawlOutcome | src/api/services/searchService.js:54-97 | the crawl branch keeps the registry consistent and the cache well formed |
| SearchService.HitOutcome | src/api/services/searchService.js:39-51 | the cache-hit branch keeps the registry consistent and does not touch the cache |
| SearchService.SavedOutcome | src/api/services/searchService.js:36-97 | after saving the pending state, the search keeps the registry consistent and the cache well formed |
| SearchService.SearchOutcome | src/api/services/searchService.js:19-98 | a missing session fails with `Session not found` and changes nothing; otherwise the registry stays consistent and the cache well formed |
| SearchService.UpdateFound | src/api/services/searchService.js:43-94 | updating a found search answers it updated and leaves it found at the same place |
| SearchService.ReturnedFound | src/api/services/searchService.js:50 | fetching a found search back answers that search |
| SearchService.SavedFound | src/api/services/searchService.js:28-34 | the pending search is appended to the session's history as a new search with that id |
| SearchService.CacheHitSkipsCrawler | src/api/services/searchService.js:36-51 | on a cache hit the answer does not depend on the crawler, the cache is unchanged, and the search comes back completed from cache with the cached results and total pages |
| SearchService.CrawlSucceeded | src/api/services/searchService.js:54-85 | on a miss with a successful crawl the search comes back completed, not from cache, with the crawl's results and page, and the crawl's page is then found in the cache |
| SearchService.CrawlFailed | src/api/services/searchService.js:87-97 | on a miss with a failing crawl the error is rethrown, nothing is cached, and the new search is left with status `error` and the error message |
| SearchService.Service.constructor | src/api/services/searchService.js:9-14 | the cache starts empty |
| SearchService.Service.GetFromCache | src/api/services/searchService.js:186-198 | as `SearchCache.Lookup` |
| SearchService.Service.SaveToCache | src/api/services/searchService.js:200-217 | as `SearchCache.Save` |
| SearchService.Service.EvictFifth | src/api/services/searchService.js:207-215 | the deletion loop removes exactly the evicted entries |
| SearchService.Service.ClearCache | src/api/services/searchService.js:222-224 | as `SearchCache.Cleared` |
| SearchService.Service.PerformSearch | src/api/services/searchService.js:19-98 | as `SearchOutcome` with the prepared request's key |
| SearchService.Service.PerformKeyed | src/api/services/searchService.js:19-98 | as `SearchOutcome` |
| SearchService.Service.AnswerSaved | src/api/services/searchService.js:36-97 | as `SavedOutcome` |
| SearchService.Service.AnswerFromCache | src/api/services/searchService.js:39-51 | as `HitOutcome` |
| SearchService.Service.CrawlOnMiss | src/api/services/searchService.js:54-97 | as `CrawlOutcome` |
| SearchService.Service.ReturnSearch | src/api/services/searchService.js:50 | as `Returned` |
| UriCodec.Utf8RoundTrip | src/findaphd/url.js:36 | decoding the UTF-8 bytes of a string gives the string back |
| UriCodec.EncodeComponent | src/findaphd/url.js:59 | `encodeURIComponent` output holds only unreserved characters and percent signs, and is empty exactly when its input is |
| UriCodec.DecodeEncodeComponent | src/findaphd/url.js:36 | `decodeURIComponent` undoes `encodeURIComponent` on every string |
| UriCodec.FormEncode | src/findaphd/url.js:54-56 | the form serializer's output holds only safe characters, `+` and percent signs |
| UriCodec.FormRoundTrip | src/findaphd/url.js:54-56 | the form parser undoes the form serializer on every string |
| UriCodec.FormDecodeOfComponent | src/findaphd/url.js:23-24 | the form parser also undoes `encodeURIComponent`, so a component-encoded query value is read back as written |

## Left out

- DOM extraction, the cookie banner and the pagination reader of both page crawlers (`_extractResults`, `_extractHybrid`, `_getPaginationInfo`, `_handleCookieConsent`): browser-side scraping. Their outcome is an input, either the `crawl` oracle or the `Steps` record.
- Browser, database and network I/O: these are parameters or oracles. This covers Playwright launches, SQLite statements, `https.get` in the crawl worker and the dictionary's file load and save. The statements the model lets throw are given as flags or error tables saying whether and how they do (`BackgroundCrawler.Env`, `BrowserPool.Playwright`, the page crawlers' `Steps`); the three statements below never throw in the model.
- `BackgroundCrawler.Report`: the progress writes `updateProgress` and `logProgress` never throw in the model. In the source, a throw there is caught by the page loop's `catch` as a page error.
- `BackgroundCrawler.Closing`: `completeCrawl` never throws in the model. In the source, a throw there goes to the `catch` block and the run fails.
- `BackgroundCrawler.Failing`: `failCrawl` never throws in the model. In the source, a throw there makes the run's promise reject after the `finally` clears the flag.
- BackgroundCrawler: src/crawler/BackgroundCrawler.js:249 and :255 are written `result.pagination ? .totalPages`, which does not parse as JavaScript. The model reads it as the optional chaining `result.pagination?.totalPages` (`BackgroundCrawler.TotalPages`). The same spelling in src/workers/playwrightCrawler-v3.js:327 lies in the JSON-LD merge, which is not modelled.
- `SearchOrchestrator.LessEq`: it orders strings by Unicode scalar value, one Dafny `char` each. `Array.prototype.sort` compares UTF-16 code units, and the two orders differ between characters above U+FFFF and those from U+E000 to U+FFFF.
- `CourseMerge.Length`: it counts Unicode scalar values. JavaScript's `.length` counts UTF-16 code units, so a character above U+FFFF counts as two there (`"😀"` is as long as `"ab"`).
- `PhdRepository.Like`: the `%` and `_` wildcards inside a search value are not modelled. The model tests for the value as a plain substring, so a value holding `%` or `_` can match fewer rows than SQLite matches.
- `TokenDictionary.ResolveDiscipline` and `Dates.MonthToNum`: plain-object semantics are not modelled. The model keeps keys in insertion order, while a JavaScript object lists integer-like keys first. It also has no inherited keys such as `constructor`, which a lookup on a plain object finds.
- `FindaphdUrl.NumberOf`: it accepts decimal digits with an optional sign only. JavaScript's `Number` also reads `"0x10"`, `"1e1"` and `"2.0"` as 16, 10 and 2, where the model answers that the text is not an integer.
- BrowserPool: a tab's id is `tab_` followed by a number the pool counts up, in place of the `Date.now()` and `Math.random()` text. The source's ids are unique with high probability, and the model's always are (`BrowserPool.NumberedKept`).
- Concurrency: every method is one atomic step. In the source, `acquireTab` awaits between its capacity check and its increment, and `_processQueue` does not await the acquisitions it starts. The capacity bounds proved here hold only under that atomic reading.
- Timers: `node-cron`, the hourly session cleanup, `setTimeout` delays and the 30-second ticket timeout become explicit calls with a `now` parameter. `_delay` is left out.
- The singletons (`module.exports = new …()`), console logging and `CrawlerObserver._logEvent`: they have no effect on the state.
- `JSON.stringify` in `canonicalKey`: the key is the datatype of the three serialised fields. Two keys are equal exactly when their serialisations are.
- Timestamps are integers. In src/crawler/BackgroundCrawler.js:327-328, the source compares SQLite `datetime('now')` text with an ISO string. On the same day `' '` sorts before `'T'`, so the real cutoff can be off by up to a day. That string ordering is not modelled.
- `BackgroundCrawler.Walk`: it carries a fuel bound on page passes, because the source's loop need not end. The model proves properties of every prefix of the crawl, and what happens after the fuel runs out is not modelled.
- `BackgroundCrawler.Walks`: it shares the same fuel bound, per keyword.
- BackgroundCrawler: `getStatus` is the `Status` function with no contract of its own, and `closeBrowser` after the crawl is left out, since the v2 crawler has no such method.
- BackgroundCrawler: `Env.finish` is used for every `Date.now()` taken after the walk. The three end-of-run clock reads are one value.
- BackgroundCrawler: the log's duration is computed by SQLite from `julianday` floating-point values and truncated. The model takes the exact difference of the two whole-second times.
- BackgroundCrawler: `subscribe` and the callbacks themselves are outside the model. `World.events` is the sequence `notify` hands every callback. A callback that throws is caught inside `notify` (src/crawler/BackgroundCrawler.js:62-69), so no callback can change the run.
- `BackgroundCrawler.RunEvents`: each event carries a copy of the counters when it was notified. The source passes the live `this.stats` object, so a subscriber that keeps it sees it go on changing until the next run's `resetStats` replaces it.
- SearchService: one `now` stands for every `Date.now()` of `performSearch`. That includes the cache entry's timestamp (src/api/services/searchService.js:203), which the source reads after awaiting `crawlSearchPage` (:63).
- `PhdRepository.Search`: it requires `limit != 0`. With limit 0, the source computes `Math.ceil(total / 0)`, which is `Infinity` or `NaN`, and JavaScript has no integer model for those.
- PhdRepository: the order of `search` results is the caller's table order. The `ORDER BY` of `sortBy`/`sortOrder` is not modelled.
- PhdRepository: `findById`, `getStats` and `truncate` are left out. Nothing in the core calls them.
- `PhdRepository.Insert`: errors other than a UNIQUE violation are rethrown in the source. The model has no such error.
- CrawlerLogRepository: `getAll`, `getStats` and `getRunningCrawl` are reporting queries with no caller in the core. They are left out.
- CrawlerScheduler: `toggleCrawler`, `getStatus` and `_getNextRunTime` are left out. They are settings writes and reporting with no effect on the gate.
- SessionManager: `updateSession` is left out. It is an arbitrary `Object.assign` with no caller. `currentSearch` is held as the search's id: the source holds the object itself, and `Object.assign` mutates it in place, so the two are observationally the same.
- SearchService: `continueSearch` and `getAvailableFilters` are left out. The first re-enters `performSearch`, and the second reads the dictionary state.
- `SearchService.ForCrawler`: an empty `geography` or `funding` array is truthy in the source. It reaches the crawler as an array, which appends the parameter with an empty value. The model turns it into the empty text and drops the parameter.
- `SearchService.SearchOutcome`: it takes the cache key and the new search's id as parameters. `Service.PerformSearch` passes the prepared request's key.
- FindaphdUrl and SearchParams: WHATWG URL parsing is reduced to splitting at the first `?` and `#`, with no normalisation of the origin or path. Form decoding is strict UTF-8, so the replacement of malformed sequences with U+FFFD is not modelled.
- `BrowserPool.TabPool.OpenTab`: the source stores a new context and then pushes the tab into the same shared array, across awaits. The model stores the extended tab list in one update.
- BrowserPool: the constructor takes `maxTabs` as a parameter in place of `MAX_BROWSER_TABS` from the environment. `acquire`/`release`/`getMaxTabs` are left out: `acquire` is `initialize`, and the other two have no state effect.
- PlaywrightCrawlerV3: the page crawler body between the browser steps is the `Steps` record.
