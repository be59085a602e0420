# Crawl bookkeeping of the asyncio web crawler

This project models the sequential core of `scripts/04_process_and_async/crawler.py`, a
small asyncio web crawler. It has two parts.

- **`parse`**, in module `PageParser` (`page_parser.dfy`). This is the link filter that turns a
  parsed HTML document into a `Page` record (URL, title, body text, links). It walks the `<a>`
  elements in document order and resolves each `href` against the page URL. A resolved string
  is kept only if it starts with `"http"`.
- **the worker loop**, in module `Crawler` (`crawler.dfy`). The `Crawler` class holds the FIFO
  `queue` of URLs and the `history` set of URLs already claimed. One iteration of the worker
  loop does four things:
  - pops the head URL;
  - skips it if it is already in `history`;
  - otherwise adds it to `history`, fetches and parses the page, and pushes every link of the
    page onto the queue.

  `start` builds a crawler whose queue holds the single seed URL `https://fr.wikipedia.org/`.

Foreign code becomes parameters:
- The HTTP GET plus the HTML parser is `download: string -> Document`. A `Document` is the
  title string, the body text when there is a body, and the `href` of every anchor (`None`
  when the anchor has none).
- `urllib.parse.urljoin` keeps its two early returns, written out in `ResolveHref`:
  - an empty base returns the reference unchanged, even a missing one;
  - an empty or missing reference returns the base.

  Actual reference resolution (section 5.2 of RFC 3986) is the uninterpreted parameter
  `join: (string, string) -> Option<string>`. `None` stands for the `ValueError` that
  `urljoin` raises on a URL it cannot split, such as `http://[x`.

`parse` can therefore raise two exceptions, and the model returns them as values:
- `AttributeError`: the URL is empty and an anchor has no `href`. `urljoin` then returns
  `None`, and `None.startswith` raises.
- `ValueError`: `join` rejects an anchor's `href`.

The first anchor whose resolution raises decides the exception. In the worker, such an
exception leaves the coroutine and `asyncio.gather` ends the crawl. The model records this as
a `Crashed` outcome, after which `Crawl` takes no further step.

The class carries a ghost log `fetched` of every URL passed to `download`. The crawl invariant
`Inv` has three parts:
- every queued URL starts with `"http"`;
- `fetched` has no duplicates;
- the URLs in `fetched` are exactly `history`.

The invariant holds in the seeded state and after any number of worker iterations. So no URL
is fetched twice. During a crawl, `parse` never raises `AttributeError`. It raises
`ValueError` exactly when `join` rejects a non-empty `href` of the fetched page.

The model follows the code where it departs from what a crawler would usually be expected
to do:
- An anchor without `href` is not skipped. `urljoin(url, None)` returns `url`, so the page's
  own URL is added to the links.
- The filter is a plain prefix test on `"http"`, not a check for the schemes http and https.
  For example, `"httpfoo:x"` is kept.
- The HTTP status is never checked. An error page is parsed like any other page.
- There is no quiescence detection. The worker loops forever on `queue.get()`.

## Model

| member | source | states |
|---|---|---|
| `PageParser.IsHttp` | scripts/04_process_and_async/crawler.py:46 | the filter is `startswith("http")`: the string has at least four characters, and the first four are `"http"` |
| `PageParser.ResolveHref` | scripts/04_process_and_async/crawler.py:44-46 | resolution raises `AttributeError` exactly when the base is empty and the `href` is missing; it raises `ValueError` exactly when the base is non-empty, the `href` is non-empty, and `join` rejects it; a missing or empty `href` against a non-empty base yields the base; an empty base yields the `href` unchanged |
| `PageParser.ResolveAll` | scripts/04_process_and_async/crawler.py:43-46 | when every anchor resolves, there is one resolved string per anchor, in document order, equal to that anchor's resolution; when one raises, the exception is that of the first anchor that raises, and every earlier anchor resolved |
| `PageParser.ResolveAllAppend` | scripts/04_process_and_async/crawler.py:43-45 | resolving a run of anchors is resolving its two halves in order: the first half's exception wins, otherwise the resolved strings are concatenated |
| `PageParser.HttpOnly` | scripts/04_process_and_async/crawler.py:46-47 | the filtered list is no longer than its input, and every kept string comes from the input and starts with `"http"` |
| `PageParser.BodyText` | scripts/04_process_and_async/crawler.py:50 | the body's text when the document has a body, the empty string otherwise |
| `PageParser.ParsePage` | scripts/04_process_and_async/crawler.py:28-51 | `parse` raises exactly when some anchor's resolution raises, with the exception of the first such anchor; `AttributeError` only for an empty URL and a missing `href`. Otherwise: the page URL is the input URL; the title is the document's title string; the body is the body's text, or `""` without a body; there are at most as many links as anchors; every link starts with `"http"` |
| `PageParser.Parse` | scripts/04_process_and_async/crawler.py:28-51 | the append loop over the anchors returns exactly `ParsePage`. That is the in-order `"http"` filter of the resolved hrefs, or the exception of the first anchor whose resolution raises |
| `PageParser.HttpOnlyAppend` | scripts/04_process_and_async/crawler.py:43-47 | filtering preserves order: the filter of `xs + ys` is the filter of `xs` followed by the filter of `ys` |
| `PageParser.HttpOnlyCount` | scripts/04_process_and_async/crawler.py:46-47 | the filter is exact and keeps duplicates: a string starting with `"http"` occurs as often as in the input, and any other string never occurs |
| `PageParser.NonHttpNeverKept` | scripts/04_process_and_async/crawler.py:46-47 | a string not starting with `"http"` (a `mailto:` or `javascript:` link) is never among a page's links |
| `PageParser.LinksFollowAnchors` | scripts/04_process_and_async/crawler.py:40-47 | when `parse` returns, then for every split point both halves of the anchors resolve, and the links are those of the first anchors followed by those of the rest: at most one link per anchor, in document order |
| `PageParser.MissingHrefCount` | scripts/04_process_and_async/crawler.py:44-45 | each anchor without `href` resolves to the page URL itself |
| `PageParser.MissingHrefGivesPageUrl` | scripts/04_process_and_async/crawler.py:44-47 | for a URL starting with `"http"`, `parse` can raise only `ValueError`; when it returns, the page URL occurs among the links at least once per anchor without `href` |
| `Crawler.Seeded` | scripts/04_process_and_async/crawler.py:87-89 | the seeded state (queue `[seed]`, empty history, nothing fetched) satisfies the crawl invariant |
| `Crawler.WorkerStep` | scripts/04_process_and_async/crawler.py:75-84 | one iteration never removes anything from the history or the fetched log, and adds at most the head URL to the history; an empty queue leaves the state unchanged (the worker waits); a fetch happens exactly when the head URL is not yet in the history |
| `Crawler.Crawl` | scripts/04_process_and_async/crawler.py:74-84 | any number of iterations, stopping at the first exception, only grow the history and only extend the fetched log |
| `Crawler.CrawlStaysCrashed` | scripts/04_process_and_async/crawler.py:82-90 | once an exception has ended the crawl, later points of the crawl are the same state |
| `Crawler.StepSkipsVisited` | scripts/04_process_and_async/crawler.py:77-79 | when the head URL is already in the history, nothing is fetched, the history is unchanged, and the queue is the old queue minus its head |
| `Crawler.StepFetchesNewUrl` | scripts/04_process_and_async/crawler.py:78-84 | when the head URL is new (in a valid state), it is added to the history and fetched exactly once (count 0 before, 1 after). If `parse` returns, the queue becomes the old tail followed by the page's links in order, duplicates included. `parse` raises exactly when `join` rejects some non-empty `href` of the page; the exception is then `ValueError` and the queue is the old tail |
| `Crawler.StepKeepsInv` | scripts/04_process_and_async/crawler.py:74-84 | one worker iteration keeps the crawl invariant, and from a valid state a crash can only be a `ValueError` |
| `Crawler.CrawlKeepsInv` | scripts/04_process_and_async/crawler.py:74-84 | any number of worker iterations from a valid state keep the invariant |
| `Crawler.HistoryGrows` | scripts/04_process_and_async/crawler.py:58-84 | at any two points of a crawl, the earlier history is a subset of the later one, and the earlier fetched log is a prefix of the later one |
| `Crawler.NoDuplicatesCount` | scripts/04_process_and_async/crawler.py:78-80 | a log without duplicates holds each of its URLs exactly once |
| `Crawler.SeededCrawlFetchesOnce` | scripts/04_process_and_async/crawler.py:74-89 | after any number of iterations from the seeded state, a URL has been fetched exactly once if it is in the history, and never otherwise |
| `Crawler.Crawler.constructor` | scripts/04_process_and_async/crawler.py:56-58 | a new crawler has an empty queue, an empty history and nothing fetched, and is valid |
| `Crawler.Crawler.Put` | scripts/04_process_and_async/crawler.py:84 | `queue.put` appends the URL at the back and changes nothing else |
| `Crawler.Crawler.Work` | scripts/04_process_and_async/crawler.py:75-84 | one loop iteration (pop, membership test, claim, fetch, push of the links one by one) leaves exactly the state and outcome of `WorkerStep` and keeps the object valid; an exception it reports is a `ValueError` |
| `Crawler.Crawler.Worker` | scripts/04_process_and_async/crawler.py:74-84 | running the loop for a number of iterations, or until `parse` raises, leaves exactly the state and crash flag of `Crawl`, keeps the object valid, and only grows the history and the fetched log |
| `Crawler.Start` | scripts/04_process_and_async/crawler.py:87-89 | `start` builds a valid crawler whose state is the seeded state |

## Left out

- Network I/O and console output: the aiohttp session and the GET in `Crawler.fetch` (lines 62-72) are replaced by the `download` parameter. The printing of the status and content type (lines 65-66) and the worker's `print("Waiting for work")` and `print("Work to do", url)` (lines 76, 81) are not modelled. The model has no failing fetch. In the source, a network exception would end the worker coroutine. It would also make `asyncio.gather` fail.
- HTML parsing with BeautifulSoup (lines 39-40, 49-50) is foreign code. `Document.title` is the string `str(soup.title)` gives: the tag's markup, or `"None"` when there is no title. `Document.body` is the text of the body, when there is one.
- Resolution proper by `urljoin` (section 5.2 of RFC 3986) is the uninterpreted `join` parameter. It may fail, which stands for `ValueError`. Only the early returns for an empty base or an empty reference are modelled exactly.
- The process pool (`run_in_executor`, `ProcessPoolExecutor(4)`) and the ten concurrent workers of `asyncio.gather` (lines 71, 90, 94-95) are left out. Iterations are modelled one at a time. In the source, another worker may run during `await self.fetch(url)`, between the claim of a URL and the push of its links. The model does not interleave those two halves. The at-most-once property does not depend on this: there is no `await` between the membership test and the insert.
- Crawler.Worker: runs a given number of iterations of the source's `while True` loop, because the source loop never ends. No termination or quiescence property is stated, because the source has none.
- Crawler.Crawl: an exception ends the crawl as a whole, as `asyncio.gather` does. Iterations other workers might still run before the cancellation takes effect are not modelled.
- The `pool` and `loop` fields of `Crawler` (lines 59-60) only serve the offload. They are not modelled.
- `tps/tp-05/api/app.py` is not part of this model. It holds web-framework route handlers with no crawl logic.
