/** The crawl bookkeeping of the crawler: a FIFO `queue` of URLs and the `history`
    set of URLs already claimed, updated one worker iteration at a time.

    Fetching a URL is an oracle `download` that stands for the HTTP GET and the HTML
    parser; the link filter of `parse` is then applied to its result. A ghost log
    `fetched` records every URL handed to `download`, in order. */
module Crawler {
  import opened PageParser

  /** The URL `start` puts on the queue. */
  const Seed: string := "https://fr.wikipedia.org/"

  /** The HTTP GET of a URL followed by HTML parsing. */
  type Downloader = string -> Document

  /** The crawler's fields, with the ghost log of fetched URLs. */
  datatype CrawlState = CrawlState(queue: seq<string>, history: set<string>, fetched: seq<string>)

  /** What one iteration of the worker loop did. `Waiting`: the queue was empty and
      `queue.get()` suspends. `Crashed`: `parse` raised; the exception leaves the
      worker, `asyncio.gather` re-raises it and the crawl ends. */
  datatype StepOutcome =
    | Waiting
    | Skipped(url: string)
    | Fetched(url: string, page: Page)
    | Crashed(url: string, error: ParseError)

  datatype Transition = Transition(next: CrawlState, outcome: StepOutcome)

  /** The state after some iterations, and whether an exception ended the crawl. */
  datatype Run = Run(state: CrawlState, crashed: bool)

  predicate NoDuplicates(xs: seq<string>)
  {
    forall i, j :: 0 <= i < j < |xs| ==> xs[i] != xs[j]
  }

  /** The crawl invariant: every queued URL starts with "http", no URL was fetched
      twice, and the fetched URLs are exactly the history. */
  predicate Inv(s: CrawlState)
  {
    (forall u :: u in s.queue ==> IsHttp(u)) &&
    NoDuplicates(s.fetched) &&
    (forall u :: u in s.fetched ==> u in s.history) &&
    (forall u :: u in s.history ==> u in s.fetched)
  }

  /** The state `start` builds: empty history, the seed alone on the queue. */
  function Seeded(): (s: CrawlState)
    ensures Inv(s)
  {
    CrawlState([Seed], {}, [])
  }

  /** One iteration of the `while True` loop of `Crawler.worker`. It never removes
      anything from the history or the fetched log, adds at most the head URL, and
      fetches exactly when the head URL is not yet in the history. */
  function WorkerStep(s: CrawlState, download: Downloader, join: Joiner): (t: Transition)
    ensures s.history <= t.next.history && s.fetched <= t.next.fetched
    ensures s.queue == [] ==> t.next == s && t.outcome == Waiting
    ensures s.queue != [] ==> t.next.history <= s.history + {s.queue[0]}
    ensures (t.outcome.Fetched? || t.outcome.Crashed?) <==> s.queue != [] && s.queue[0] !in s.history
  {
    if s.queue == [] then Transition(s, Waiting)
    else
      var url := s.queue[0];
      var rest := s.queue[1..];
      if url in s.history then Transition(s.(queue := rest), Skipped(url))
      else
        var claimed := CrawlState(rest, s.history + {url}, s.fetched + [url]);
        match ParsePage(url, download(url), join)
        case Raised(e) => Transition(claimed, Crashed(url, e))
        case Ok(page) => Transition(claimed.(queue := rest + page.links), Fetched(url, page))
  }

  /** `n` iterations of the worker loop from `s`, stopping at the first exception.
      The history only grows and the fetched log only extends. */
  function Crawl(s: CrawlState, n: nat, download: Downloader, join: Joiner): (r: Run)
    ensures s.history <= r.state.history && s.fetched <= r.state.fetched
  {
    if n == 0 then Run(s, false)
    else
      var prev := Crawl(s, n - 1, download, join);
      if prev.crashed then prev
      else
        var t := WorkerStep(prev.state, download, join);
        assert s.fetched == t.next.fetched[..|s.fetched|] by {
          assert s.fetched == prev.state.fetched[..|s.fetched|];
          assert prev.state.fetched == t.next.fetched[..|prev.state.fetched|];
        }
        Run(t.next, t.outcome.Crashed?)
  }

  /** Once an exception has ended the crawl, further iterations change nothing. */
  lemma {:induction false} CrawlStaysCrashed(s: CrawlState, m: nat, n: nat, download: Downloader, join: Joiner)
    requires m <= n && Crawl(s, m, download, join).crashed
    ensures Crawl(s, n, download, join) == Crawl(s, m, download, join)
  {
    if m < n {
      CrawlStaysCrashed(s, m, n - 1, download, join);
    }
  }

  /** `urljoin(url, href)` raises `ValueError` on this anchor. */
  predicate JoinFails(url: string, href: Option<string>, join: Joiner)
  {
    href.Some? && href.value != "" && join(url, href.value).None?
  }

  /** A URL already in the history is dropped: nothing is fetched, the history is
      unchanged and the queue loses its head only. */
  lemma StepSkipsVisited(s: CrawlState, download: Downloader, join: Joiner)
    requires s.queue != [] && s.queue[0] in s.history
    ensures WorkerStep(s, download, join).outcome == Skipped(s.queue[0])
    ensures WorkerStep(s, download, join).next == CrawlState(s.queue[1..], s.history, s.fetched)
  {
  }

  /** A new URL is claimed and fetched exactly once. When `parse` returns, the queue
      becomes the old tail followed by the page's links in order, duplicates included.
      `parse` raises exactly when `join` rejects a non-empty `href` of the page; the
      exception is then `ValueError` and no link is pushed. */
  lemma StepFetchesNewUrl(s: CrawlState, download: Downloader, join: Joiner)
    requires Inv(s)
    requires s.queue != [] && s.queue[0] !in s.history
    ensures var url := s.queue[0];
            var t := WorkerStep(s, download, join);
            var r := ParsePage(url, download(url), join);
            t.next.history == s.history + {url} &&
            multiset(s.fetched)[url] == 0 && multiset(t.next.fetched)[url] == 1 &&
            (r.Ok? ==> t.outcome == Fetched(url, r.value) && t.next.queue == s.queue[1..] + r.value.links) &&
            (r.Raised? ==> t.outcome == Crashed(url, ValueError) && t.next.queue == s.queue[1..]) &&
            (r.Raised? <==> exists i :: 0 <= i < |download(url).anchors| &&
                                       JoinFails(url, download(url).anchors[i], join))
  {
    var url := s.queue[0];
    var anchors := download(url).anchors;
    assert IsHttp(url);
    assert url !in s.fetched;
    forall i | 0 <= i < |anchors|
      ensures ResolveHref(url, anchors[i], join).Raised? <==> JoinFails(url, anchors[i], join)
    {
    }
  }

  /** One iteration keeps the invariant, and from a valid state it can only raise
      `ValueError` (a reference `urljoin` rejects), never `AttributeError`. */
  lemma {:induction false} StepKeepsInv(s: CrawlState, download: Downloader, join: Joiner)
    requires Inv(s)
    ensures var t := WorkerStep(s, download, join);
            Inv(t.next) && (t.outcome.Crashed? ==> t.outcome.error == ValueError)
  {
    if s.queue != [] {
      var url := s.queue[0];
      assert url in s.queue;
      assert forall u :: u in s.queue[1..] ==> u in s.queue;
      if url !in s.history {
        assert IsHttp(url);
        assert url !in s.fetched;
        var f := s.fetched + [url];
        forall i, j | 0 <= i < j < |f|
          ensures f[i] != f[j]
        {
          if j == |s.fetched| {
            assert f[i] in s.fetched;
          }
        }
        var r := ParsePage(url, download(url), join);
        if r.Ok? {
          var q := s.queue[1..] + r.value.links;
          assert forall u :: u in q ==> u in s.queue[1..] || u in r.value.links;
        }
      }
    }
  }

  /** Over any number of iterations from a valid state the invariant holds. */
  lemma {:induction false} CrawlKeepsInv(s: CrawlState, n: nat, download: Downloader, join: Joiner)
    requires Inv(s)
    ensures Inv(Crawl(s, n, download, join).state)
  {
    if n > 0 {
      CrawlKeepsInv(s, n - 1, download, join);
      StepKeepsInv(Crawl(s, n - 1, download, join).state, download, join);
    }
  }

  /** The history never shrinks between an earlier and a later point of a crawl. */
  lemma {:induction false} HistoryGrows(s: CrawlState, m: nat, n: nat, download: Downloader, join: Joiner)
    requires m <= n
    ensures Crawl(s, m, download, join).state.history <= Crawl(s, n, download, join).state.history
    ensures Crawl(s, m, download, join).state.fetched <= Crawl(s, n, download, join).state.fetched
  {
    if m < n {
      var early := Crawl(s, m, download, join).state;
      var before := Crawl(s, n - 1, download, join);
      var after := Crawl(s, n, download, join).state;
      HistoryGrows(s, m, n - 1, download, join);
      if !before.crashed {
        assert after == WorkerStep(before.state, download, join).next;
      }
      assert early.fetched <= before.state.fetched <= after.fetched;
      assert early.fetched == after.fetched[..|early.fetched|];
    }
  }

  /** A list without duplicates holds each element once. */
  lemma {:induction false} NoDuplicatesCount(xs: seq<string>, u: string)
    requires NoDuplicates(xs)
    ensures multiset(xs)[u] == if u in xs then 1 else 0
  {
    if xs != [] {
      assert xs == [xs[0]] + xs[1..];
      assert xs[0] !in xs[1..];
      NoDuplicatesCount(xs[1..], u);
    }
  }

  /** From the seeded state, after any number of iterations, a URL has been fetched
      exactly once if it is in the history and never otherwise. */
  lemma {:induction false} SeededCrawlFetchesOnce(n: nat, download: Downloader, join: Joiner, u: string)
    ensures var t := Crawl(Seeded(), n, download, join).state;
            Inv(t) && multiset(t.fetched)[u] == if u in t.history then 1 else 0
  {
    var t := Crawl(Seeded(), n, download, join).state;
    CrawlKeepsInv(Seeded(), n, download, join);
    NoDuplicatesCount(t.fetched, u);
  }

  /** The crawler object: the asyncio queue as a sequence and the history as a set. */
  class Crawler {
    var queue: seq<string>
    var history: set<string>
    ghost var fetched: seq<string>

    ghost function State(): CrawlState
      reads this
    {
      CrawlState(queue, history, fetched)
    }

    ghost predicate Valid()
      reads this
    {
      Inv(State())
    }

    /** `Crawler.__init__`: an empty queue and an empty history. */
    constructor ()
      ensures Valid()
      ensures queue == [] && history == {} && fetched == []
    {
      queue := [];
      history := {};
      fetched := [];
    }

    /** `queue.put(url)` on the unbounded queue. */
    method Put(url: string)
      modifies this
      ensures queue == old(queue) + [url]
      ensures history == old(history) && fetched == old(fetched)
    {
      queue := queue + [url];
    }

    /** One iteration of the worker loop: pop the head, skip it if already claimed,
        otherwise claim it, fetch and parse it, and push every link of the page. */
    method Work(download: Downloader, join: Joiner) returns (outcome: StepOutcome)
      requires Valid()
      modifies this
      ensures Valid()
      ensures State() == WorkerStep(old(State()), download, join).next
      ensures outcome == WorkerStep(old(State()), download, join).outcome
      ensures outcome.Crashed? ==> outcome.error == ValueError
    {
      ghost var s := State();
      StepKeepsInv(s, download, join);
      if queue == [] {
        return Waiting;
      }
      var url := queue[0];
      queue := queue[1..];
      if url in history {
        return Skipped(url);
      }
      history := history + {url};
      fetched := fetched + [url];
      var r := Parse(url, download(url), join);
      match r
      case Raised(e) =>
        return Crashed(url, e);
      case Ok(page) =>
        for i := 0 to |page.links|
          invariant queue == s.queue[1..] + page.links[..i]
          invariant history == s.history + {url} && fetched == s.fetched + [url]
        {
          Put(page.links[i]);
        }
        assert page.links[..|page.links|] == page.links;
        outcome := Fetched(url, page);
    }

    /** `Crawler.worker` run for at most `rounds` iterations of its `while True`
        loop; it returns early, with `crashed` set, when `parse` raises. */
    method Worker(rounds: nat, download: Downloader, join: Joiner) returns (crashed: bool)
      requires Valid()
      modifies this
      ensures Valid()
      ensures Crawl(old(State()), rounds, download, join) == Run(State(), crashed)
      ensures old(history) <= history && old(fetched) <= fetched
    {
      ghost var s := State();
      var i := 0;
      while i < rounds
        invariant i <= rounds
        invariant Valid()
        invariant Crawl(s, i, download, join) == Run(State(), false)
      {
        var outcome := Work(download, join);
        i := i + 1;
        if outcome.Crashed? {
          CrawlStaysCrashed(s, i, rounds, download, join);
          return true;
        }
      }
      crashed := false;
    }
  }

  /** `start`: a new crawler whose queue holds the seed URL. */
  method Start() returns (c: Crawler)
    ensures fresh(c) && c.Valid()
    ensures c.State() == Seeded()
  {
    c := new Crawler();
    c.Put(Seed);
  }
}
