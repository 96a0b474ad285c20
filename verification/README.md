# images-crawler, modelled in Dafny

A model of the crawl engine in `src/crawler.ts`. The crawler starts from a seed URL and walks the web level by level, from depth 1 to `maxDepth`. At each level it visits the URLs collected at the level before, in insertion order. For each URL it does the following:

- It skips the URL if the module-level `visitedUrls` set already holds it.
- Otherwise it marks the URL visited, then fetches the page. `fetchPage` makes up to three GET requests, all with one user agent drawn at random before the first.
- It extracts one image record per `img` element with a non-empty `src`.
- It appends those records to the JSON image index. This is a read, append and write-back, and an unreadable index counts as empty.
- Below the last level, it queues every link that resolves to the page's own hostname.

Any failure on one page ends the work on that page only.

The model works on immutable values and pure functions:

- `Urls`: the WHATWG `URL` constructor is foreign code. It enters as a pair of total functions (`UrlApi`), with `None` standing for the `TypeError` it throws. `isValidUrl`, `resolveUrl` and `shouldCrawlLink` are defined on top of it. `shouldCrawlLink` returns a `Result`, because a malformed base URL throws out of it.
- `Fetch`: `getRandomUserAgent` as a function of the value `Math.random()` returned. The `fetchPage` retry loop runs over a list of attempt outcomes. A call records the requests it issued and the body it returned.
- `Extract`: `extractImages` over the page's `img` `src` attributes, in document order. `None` means the attribute is absent.
- `Store`: `saveImages` as the index `Option<seq<ImageInfo>>` before and after. `None` means the file is missing or unreadable.
- `Crawler`: one iteration of the inner loop (`VisitUrl`), one level (`VisitLevel`), the outer loop (`CrawlLevels`) and `Crawl`.
  - The web is a map from URL to the outcomes of successive attempts.
  - `visitedUrls` and the index file form a `Session`. It is threaded into and out of each call, because both outlive a call.
  - The JavaScript `Set`s `urlsToCrawl` and `newUrls` keep insertion order, so they are modelled as duplicate-free sequences.
- `CrawlTheorems`: properties of whole crawls and of successive crawls, proved by induction over levels and URLs.
- `Scenario`: the repository's test. The mocked two-page site on `localhost:3000` is crawled with depth 2 and with depth 1.
- `Sequences`: a generic flat map and left fold, with the append facts the crawl proofs use.

Two details of the code that the model keeps:

- `fetchPage` draws the user agent once per call, before its retry loop (`src/crawler.ts:57`). Every retry of one page sends the same agent.
- An image whose `src` does not start with "http" and whose resolution against the page throws is still recorded, with the empty string as its URL (`src/crawler.ts:48-54`, `src/crawler.ts:102-105`).

## Model

| member | source | states |
|---|---|---|
| Urls.IsValidUrl | src/crawler.ts:39-46 | `isValidUrl`: the URL parser accepts the string. `Urls.ValidIffFollowedFromItself` ties it to `shouldCrawlLink`. |
| Urls.ResolveUrl | src/crawler.ts:48-54 | `resolveUrl`: the href of the resolution, or "" when resolution throws. What "" means for the crawl is stated by `Urls.EmptyLinkNotFollowed` and `Crawler.FailedResolutionNotQueued`. |
| Urls.ShouldCrawlLink | src/crawler.ts:122-130 | Throws (Failure carrying the base) exactly when the base URL is malformed. Otherwise it answers true exactly when the link parses and its hostname equals the base's hostname; a malformed link gives false. |
| Urls.ValidIffFollowedFromItself | src/crawler.ts:39-46 | A string is a valid URL (`isValidUrl`) exactly when `shouldCrawlLink` accepts it as a link from itself. |
| Urls.ShouldCrawlLinkSymmetric | src/crawler.ts:122-130 | Between two valid URLs, swapping link and base gives the same answer. |
| Urls.ShouldCrawlLinkTransitive | src/crawler.ts:122-130 | If a is followed from b and b from c, then a is followed from c. |
| Urls.EmptyLinkNotFollowed | src/crawler.ts:122-130 | The empty string that a failed `resolveUrl` yields is never followed from a valid page. |
| Fetch.GetRandomUserAgent | src/crawler.ts:35-37 | The agent is one of the two list entries: the first exactly when `Math.random()` returned less than 0.5. |
| Fetch.FetchFrom | src/crawler.ts:59-89 | From attempt n on: between 1 and 4-n requests, all to the URL with the one agent. Every attempt before the last one made failed, and the body is the last attempt's outcome. A failure means every remaining attempt was made. |
| Fetch.FetchPage | src/crawler.ts:56-90 | Between 1 and 3 requests, all with the agent drawn once for the call. The body returned is that of the first successful attempt, and every earlier attempt failed. The call fails exactly when all three attempts fail, and then it has made exactly three requests. |
| Fetch.FetchPageFirstSuccess | src/crawler.ts:59-69 | If attempt k (k < 3) is the first success, the call returns its body after exactly k+1 requests. |
| Fetch.FetchPageIgnoresLaterAttempts | src/crawler.ts:58-59 | Outcomes after the third attempt never matter. |
| Extract.ImageUrl | src/crawler.ts:102-104 | The URL recorded for a usable `src`. Its cases are stated by `Extract.SingleImageRecord`. |
| Extract.UsableSrcs | src/crawler.ts:100-101 | The `src` values kept are exactly the present, non-empty ones. Their order is stated by `Extract.UsableSrcsAppend` and `Extract.UsableSrcsSingle`. |
| Extract.UsableSrcsSingle | src/crawler.ts:100-101 | One `img` element contributes its `src` when present and non-empty, and nothing otherwise. |
| Extract.UsableSrcsAppend | src/crawler.ts:99-107 | The usable sources of a document are those of its first part followed by those of the rest, so document order is kept. |
| Extract.ExtractImages | src/crawler.ts:92-110 | One record per present, non-empty `src`, in document order. Each record carries the page URL, the given depth and the image URL: the `src` itself if it starts with "http", else its resolution against the page. |
| Extract.ExtractImagesAppend | src/crawler.ts:99-107 | Extraction distributes over concatenation of the element list. |
| Extract.UnusableSrcContributesNothing | src/crawler.ts:100-101 | Inserting an `img` without `src`, or with an empty one, anywhere in a page changes no record. |
| Extract.SingleImageRecord | src/crawler.ts:101-105 | An "http…" source is recorded verbatim. Any other source is recorded as its resolved href, or as "" when resolution fails. |
| Store.SaveImages | src/crawler.ts:112-120 | The written index has the old records, unchanged and in place, followed by the batch in order. A missing or unreadable index counts as empty. |
| Store.SaveImagesTwice | src/crawler.ts:114-118 | Saving a then b gives the same index as saving a ++ b once. |
| Store.SaveImagesOnUnreadable | src/crawler.ts:114-116 | Saving onto a missing or unreadable index writes exactly the batch. |
| Crawler.FetchOf | src/crawler.ts:142 | `fetchPage(currentUrl)`: the page's attempts with the agent drawn from the page's random value. What it returns is stated by `Fetch.FetchPage`. |
| Crawler.PageImages | src/crawler.ts:142-143 | The records of one visit. `Crawler.RecordLoaded` states them: none after a failed fetch, else the extracted records. |
| Crawler.Record | src/crawler.ts:141-144 | The index after one visit. Stated by `Crawler.RecordLoaded` and `Crawler.FoldRecordWritten`. |
| Crawler.Fresh | src/crawler.ts:137-139 | The URLs of a list that a visited set does not hold: exactly those, with no duplicates. |
| Crawler.FreshAppend | src/crawler.ts:137-139 | The fresh URLs of a ++ b are those of a, then those of b not in a: each URL at its first occurrence, in list order. |
| Crawler.FreshSingle | src/crawler.ts:138-139 | One URL is fresh exactly when the visited set does not hold it. |
| Crawler.AddAll | src/crawler.ts:153-155 | `Set.add` of each link in turn. The result is the old entries, in place, followed by the links the set did not hold, each at its first occurrence, in link order. Membership is old-or-added. A duplicate-free set stays duplicate-free. |
| Crawler.OnHostLinks | src/crawler.ts:147-155 | The queued links are exactly the resolved hrefs that lie on the page's hostname. |
| Crawler.OnHostLinksAppend | src/crawler.ts:147-152 | The links of hrefs a ++ b are those of a followed by those of b, so href order is kept. |
| Crawler.OnHostLinksSingle | src/crawler.ts:150-154 | One href contributes its resolution when that lies on the host, and nothing otherwise. |
| Crawler.CollectLinks | src/crawler.ts:145-159 | Fails exactly when the page has links and its URL is malformed. On success from a valid page, the links are exactly `OnHostLinks` of the hrefs, in href order, all on the page's hostname. |
| Crawler.FailedResolutionNotQueued | src/crawler.ts:150-152 | A link whose resolution failed (the empty string) is never queued. |
| Crawler.LinksOf | src/crawler.ts:145-159 | The links one visit queues. There are none at depth `maxDepth` or beyond, or after a failed fetch, and every one lies on the page's hostname. |
| Crawler.LinksOfMembers | src/crawler.ts:145-155 | A link is queued from a page exactly when the page is below the last level, its fetch succeeded, and the link is the resolution of one of its hrefs that `shouldCrawlLink` accepts. |
| Crawler.VisitUrl | src/crawler.ts:137-173 | A visited URL leaves the state unchanged. An unvisited one is marked visited, fetched and recorded, with its requests issued. Its `LinksOf` are added to `newUrls` with `AddAll`. At depth `maxDepth` or beyond, nothing is queued. |
| Crawler.RecordLoaded | src/crawler.ts:141-144 | After one visit the index is the old index followed by that page's records; a failed fetch adds nothing. |
| Crawler.FoldRecordLoaded | src/crawler.ts:137-144 | After a sequence of visits the index is the old index followed by every page's records, page after page. |
| Crawler.FoldRecordWritten | src/crawler.ts:141-144 | The index file stays absent exactly when it was absent before and every fetch failed. |
| Crawler.VisitUrlExtends | src/crawler.ts:137-173 | An unvisited URL is marked visited, visited once, fetched once, and its records saved. The queue's part is stated by `Crawler.VisitUrl`. |
| Crawler.VisitLevel | src/crawler.ts:137-174 | One level. Stated by `Crawler.VisitLevelExtends`, `Crawler.VisitLevelFresh` and `Crawler.VisitLevelQueues`. |
| Crawler.VisitLevelExtends | src/crawler.ts:137-174 | A level visits, once each, only not-yet-visited URLs of the level, at the level's depth. Afterwards every URL of the level is visited, and the index and requests are those of these visits. |
| Crawler.VisitLevelFresh | src/crawler.ts:137-139 | The URLs a level fetches are, in order, `Fresh(visited, level)`: each not-yet-visited URL at its first occurrence, in insertion order. |
| Crawler.VisitLevelQueues | src/crawler.ts:145-159 | During a level `newUrls` only grows, and it ends up holding every link queued by each page the level visited. |
| Crawler.VisitLevelVisited | src/crawler.ts:137-139 | After a level, the visited set is the old one plus the URLs the level fetched, and it holds every URL of the level. |
| Crawler.CrawlLevels | src/crawler.ts:136-180 | The outer loop. Stated by `Crawler.CrawlLevelsExtends`, `Crawler.CrawlLevelsDepthsOrdered` and `Crawler.CrawlLevelsFollowLinks`. |
| Crawler.CrawlLevelsExtends | src/crawler.ts:136-180 | The levels from d on visit fresh URLs once each, at depths between d and `maxDepth`. Past `maxDepth` nothing changes. |
| Crawler.CrawlLevelsFromNothing | src/crawler.ts:136-179 | Levels that start with no URL fetch nothing. |
| Crawler.CrawlLevelsDepthsOrdered | src/crawler.ts:136-180 | The levels run one after another: the depths of the fetches never decrease. |
| Crawler.QueuedLinkVisited | src/crawler.ts:175-178 | A URL handed to a level that runs ends up visited: before that level, or by it at its depth. |
| Crawler.CrawlLevelsFollowLinks | src/crawler.ts:136-180 | Every link queued by a page the levels fetch is visited by the end: before those levels, or by them at most one level deeper than the page. |
| Crawler.Crawl | src/crawler.ts:132-181 | One `crawl` call. Stated by `Crawler.CrawlContract` and the `CrawlTheorems` lemmas. |
| Crawler.CrawlContract | src/crawler.ts:132-181 | One `crawl`: every URL it fetches was not visited before and is fetched once, and stays visited whether its fetch failed or not. Every fetch is at depth 1..`maxDepth`. The index becomes the old index followed by the records of the successful pages, in visit order. The requests are those of the fetches, in order. |
| Crawler.CrawlMarks | src/crawler.ts:136-142 | The `visitedUrls` part of `CrawlContract`: the set grows by exactly the fetched URLs, which are fresh and distinct. |
| CrawlTheorems.VisitUrlStaysOnHost | src/crawler.ts:145-159 | Visiting the seed, or a page on the seed's host, queues only links on the seed's host. |
| CrawlTheorems.VisitLevelStaysOnHost | src/crawler.ts:137-174 | The same over a whole level. |
| CrawlTheorems.CrawlLevelsStayOnHost | src/crawler.ts:136-180 | Every page fetched at depth 2 or more by the levels from d on is on the seed's host. |
| CrawlTheorems.CrawlStaysOnSeedHost | src/crawler.ts:132-181 | Every page a crawl fetches at depth 2 or more is on the seed's hostname, and the seed is then a valid URL. |
| CrawlTheorems.CrawlStartsAtSeed | src/crawler.ts:133-139 | Depth 1 fetches only the seed. When `maxDepth >= 1` and the seed is unvisited, the seed is the first fetch. |
| CrawlTheorems.CrawlBelowDepthOneDoesNothing | src/crawler.ts:136 | With `maxDepth < 1` nothing is fetched and the session is unchanged. |
| CrawlTheorems.FlattenRecordsFromVisits | src/crawler.ts:143 | Every record collected from a sequence of visits names one of the visited pages and carries its depth. |
| CrawlTheorems.CrawlIndexRecords | src/crawler.ts:136-144 | A crawl keeps every earlier index record. Every record it appends names a page it fetched and has depth 1..`maxDepth`. |
| CrawlTheorems.CrawlVisitsLevelByLevel | src/crawler.ts:136-180 | A crawl fetches level after level: the depths of its fetches never decrease. |
| CrawlTheorems.CrawlFollowsLinks | src/crawler.ts:132-181 | Take a page the crawl fetched below `maxDepth` with a successful fetch, and an href on it whose resolution `shouldCrawlLink` accepts. That resolution was visited before the crawl, or the crawl fetches it at most one level deeper than the page. |
| CrawlTheorems.CrawlTwiceFetchesEachUrlOnce | src/crawler.ts:138-139 | Two successive crawls sharing `visitedUrls` never fetch a URL twice, and never fetch one visited before the first. |
| CrawlTheorems.VisitedSeedIsNotFetchedAgain | src/crawler.ts:138-142 | A URL already visited, even one whose fetch failed, is not fetched again when a later crawl starts from it. |
| Scenario.FetchFirstTry | src/__tests__/crawler.test.ts:66-71 | A page whose first request succeeds is fetched with one request carrying the drawn agent. |
| Scenario.IndexPageImages | src/__tests__/crawler.test.ts:91-100 | The index page yields image1 verbatim and `/images/image2.jpg` resolved against the page, both at depth 1. |
| Scenario.SecondPageImages | src/__tests__/crawler.test.ts:101-110 | The second page yields image3 verbatim and `/images/image3.jpg` resolved, both at depth 2. |
| Scenario.IndexPageLinks | src/__tests__/crawler.test.ts:76-78 | The index page's one link queues exactly `http://localhost:3000/page2.html`. |
| Scenario.ScenarioDepthTwo | src/__tests__/crawler.test.ts:54-111 | `crawl(index.html, 2)` from any session without the two pages fetches index.html then page2.html, one request each. Both become visited, and the index gains the four expected records in order, whatever agents are drawn. |
| Scenario.TestScenarioDepthTwo | src/__tests__/crawler.test.ts:89-111 | From a fresh session and an empty images directory, the index holds exactly the four records the test expects, in its order. |
| Scenario.TestScenarioDepthOne | src/crawler.ts:136-145 | The same crawl with depth 1 fetches only index.html, with one request, and records only its two images. |

## Left out

- The HTTP transport is not modelled: axios, its timeout and its response body. A fetch attempt is an element of a given outcome list, and a successful body arrives already parsed into its `img` `src` and `a[href]` attribute lists. HTML parsing (cheerio) is foreign code.
- The WHATWG URL parser is not modelled. It is a pair of uninterpreted functions; `Urls.WellFormed` assumes only that the empty string is not an absolute URL. The scenario supplies a table covering its own URLs.
- `Math.random()` is a given value in [0, 1) per URL. Each URL is fetched at most once per session, so one value per URL is faithful.
- The Bottleneck rate limiter (`src/crawler.ts:24-27`) is not modelled. It affects timing only.
- Logging, `console` output, and the SIGINT/SIGTERM handlers (`src/crawler.ts:183-191`) are not modelled. They are I/O.
- `config.userAgent` is never read by the code, so it is not modelled.
- File system failures inside `saveImages` are not modelled: `ensureDir` or `writeJson` throwing, after which the page's links are not queued. Nor is an index file that reads but has no `images` array, where the push throws.
- `Crawl` takes `maxDepth` as an integer. A fractional depth, or the NaN that `parseInt` gives the CLI for bad input (`src/index.ts`), is not modelled. NaN behaves like a depth below 1: no level runs.
- The CLI wrapper (`src/index.ts`) and the build and test tooling configuration are not modelled.
- A `maxDepth` of `Infinity` is not modelled. JavaScript accepts it, and the outer loop then never ends; `Crawl` takes a finite integer.
- Overlapping `crawl()` calls are not modelled. Calls that are not awaited interleave on the shared `visitedUrls` set and index file at every `await`. The model covers one call, and successive calls that each start from the session the previous one left.
