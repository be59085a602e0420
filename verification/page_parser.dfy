/** The `Page` record and the link filter of `parse` in the crawler.

    The HTML parser and the URL resolver are foreign code. The parsed document is
    reduced to what `parse` reads from it (the title string, the body text if there
    is a body, and the `href` of every `<a>` element in document order), and
    reference resolution is a function parameter `join`, except for the two cases
    `urljoin` settles before resolving anything (an empty base, an empty reference). */
module PageParser {

  datatype Option<+T> = None | Some(value: T)

  /** A fetched page: its URL, the title markup, the body text and the kept links. */
  datatype Page = Page(url: string, title: string, body: string, links: seq<string>)

  /** A parsed document as `parse` uses it. `title` is what `str(soup.title)` gives,
      `body` is the body's text when the document has a body, and `anchors` holds
      the `href` attribute of each `<a>` element, `None` when it has none. */
  datatype Document = Document(title: string, body: Option<string>, anchors: seq<Option<string>>)

  /** Resolution of a non-empty reference against a non-empty base (section 5.2 of
      RFC 3986); its internals are not modelled. `None` stands for the `ValueError`
      that `urljoin` raises on a URL it cannot split (an unbalanced `[` in the
      authority, for one). */
  type Joiner = (string, string) -> Option<string>

  /** The exceptions `parse` can raise while it walks the anchors. `AttributeError`:
      `urljoin` handed back a missing `href` unchanged (an empty base) and
      `None.startswith` raised. `ValueError`: `urljoin` rejected the base or the
      reference. */
  datatype ParseError = AttributeError | ValueError

  /** A value, or the exception raised while computing it. */
  datatype Result<+T> = Ok(value: T) | Raised(error: ParseError)

  /** The filter of `parse`, `s.startswith("http")`: a plain string-prefix test, not
      a scheme check. */
  predicate IsHttp(s: string): (b: bool)
    ensures b <==> |s| >= 4 && s[..4] == "http"
  {
    "http" <= s
  }

  /** `urljoin(base, href)` followed by the `startswith` call on its result: an empty
      base returns the reference as it is (a missing one then makes `startswith`
      raise); an empty or missing reference returns the base; otherwise `join`. */
  function ResolveHref(base: string, href: Option<string>, join: Joiner): (r: Result<string>)
    ensures r == Raised(AttributeError) <==> base == "" && href.None?
    ensures r == Raised(ValueError) <==>
            base != "" && href.Some? && href.value != "" && join(base, href.value).None?
    ensures base != "" && (href.None? || href == Some("")) ==> r == Ok(base)
    ensures base == "" && href.Some? ==> r == Ok(href.value)
  {
    if base == "" then
      match href
      case None => Raised(AttributeError)
      case Some(h) => Ok(h)
    else
      match href
      case None => Ok(base)
      case Some(h) =>
        if h == "" then Ok(base)
        else
          match join(base, h)
          case None => Raised(ValueError)
          case Some(u) => Ok(u)
  }

  /** Resolves every anchor in document order; the first anchor whose resolution
      raises decides the exception. */
  function ResolveAll(url: string, anchors: seq<Option<string>>, join: Joiner): (r: Result<seq<string>>)
    ensures r.Ok? ==> |r.value| == |anchors| &&
                      forall i :: 0 <= i < |anchors| ==> ResolveHref(url, anchors[i], join) == Ok(r.value[i])
    ensures r.Raised? ==> exists i :: 0 <= i < |anchors| && ResolveHref(url, anchors[i], join) == Raised(r.error) &&
                                      forall j :: 0 <= j < i ==> ResolveHref(url, anchors[j], join).Ok?
  {
    if anchors == [] then Ok([])
    else
      match ResolveHref(url, anchors[0], join)
      case Raised(e) => Raised(e)
      case Ok(h) =>
        match ResolveAll(url, anchors[1..], join)
        case Raised(e) =>
          var i :| 0 <= i < |anchors[1..]| && ResolveHref(url, anchors[1..][i], join) == Raised(e) &&
                   forall j :: 0 <= j < i ==> ResolveHref(url, anchors[1..][j], join).Ok?;
          assert ResolveHref(url, anchors[i + 1], join) == Raised(e);
          assert forall j :: 0 <= j < i + 1 ==> ResolveHref(url, anchors[j], join).Ok? by {
            forall j | 0 < j < i + 1
              ensures ResolveHref(url, anchors[j], join).Ok?
            {
              assert anchors[j] == anchors[1..][j - 1];
            }
          }
          Raised(e)
        case Ok(hs) => Ok([h] + hs)
  }

  /** Resolution results of two runs of anchors, one after the other. */
  function Then(x: Result<seq<string>>, y: Result<seq<string>>): Result<seq<string>>
  {
    match x
    case Raised(e) => Raised(e)
    case Ok(xs) =>
      match y
      case Raised(e) => Raised(e)
      case Ok(ys) => Ok(xs + ys)
  }

  /** The in-order filter of `IsHttp`, duplicates included. */
  function HttpOnly(xs: seq<string>): (r: seq<string>)
    ensures |r| <= |xs|
    ensures forall l :: l in r ==> l in xs && IsHttp(l)
  {
    if xs == [] then []
    else (if IsHttp(xs[0]) then [xs[0]] else []) + HttpOnly(xs[1..])
  }

  /** The body text `parse` stores: the body's text, or the empty string without a body. */
  function BodyText(body: Option<string>): string
  {
    match body
    case Some(t) => t
    case None => ""
  }

  /** What `parse(url, html)` returns, or raises, for the document `doc`. */
  function ParsePage(url: string, doc: Document, join: Joiner): (r: Result<Page>)
    ensures r.Raised? <==> exists i :: 0 <= i < |doc.anchors| && ResolveHref(url, doc.anchors[i], join).Raised?
    ensures r.Raised? ==> exists i :: 0 <= i < |doc.anchors| && ResolveHref(url, doc.anchors[i], join) == Raised(r.error) &&
                                      forall j :: 0 <= j < i ==> ResolveHref(url, doc.anchors[j], join).Ok?
    ensures r == Raised(AttributeError) ==> url == "" && None in doc.anchors
    ensures r.Ok? ==> r.value.url == url && r.value.title == doc.title
    ensures r.Ok? && doc.body.None? ==> r.value.body == ""
    ensures r.Ok? && doc.body.Some? ==> r.value.body == doc.body.value
    ensures r.Ok? ==> |r.value.links| <= |doc.anchors|
    ensures r.Ok? ==> forall l :: l in r.value.links ==> IsHttp(l)
  {
    match ResolveAll(url, doc.anchors, join)
    case Raised(e) => Raised(e)
    case Ok(hrefs) => Ok(Page(url, doc.title, BodyText(doc.body), HttpOnly(hrefs)))
  }

  /** `parse`: walks the anchors in order, resolves each `href` and appends the
      resolved string when it starts with "http". */
  method Parse(url: string, doc: Document, join: Joiner) returns (r: Result<Page>)
    ensures r == ParsePage(url, doc, join)
  {
    var anchors := doc.anchors;
    var finalLinks: seq<string> := [];
    for i := 0 to |anchors|
      invariant ResolveAll(url, anchors[..i], join).Ok?
      invariant finalLinks == HttpOnly(ResolveAll(url, anchors[..i], join).value)
    {
      ParseStep(url, anchors, i, join);
      match ResolveHref(url, anchors[i], join)
      case Raised(e) =>
        return Raised(e);
      case Ok(href) =>
        if IsHttp(href) {
          finalLinks := finalLinks + [href];
        }
    }
    assert anchors[..|anchors|] == anchors;
    r := Ok(Page(url, doc.title, BodyText(doc.body), finalLinks));
  }

  /** One iteration of the loop of `Parse`: the next anchor either raises, and then
      the whole run raises the same exception, or extends the kept links. */
  lemma ParseStep(url: string, anchors: seq<Option<string>>, i: nat, join: Joiner)
    requires i < |anchors| && ResolveAll(url, anchors[..i], join).Ok?
    ensures match ResolveHref(url, anchors[i], join)
            case Raised(e) => ResolveAll(url, anchors, join) == Raised(e)
            case Ok(h) =>
              ResolveAll(url, anchors[..i + 1], join).Ok? &&
              HttpOnly(ResolveAll(url, anchors[..i + 1], join).value) ==
              HttpOnly(ResolveAll(url, anchors[..i], join).value) + (if IsHttp(h) then [h] else [])
  {
    assert anchors[..i + 1] == anchors[..i] + [anchors[i]];
    ResolveAllSnoc(url, anchors[..i], anchors[i], join);
    match ResolveHref(url, anchors[i], join)
    case Raised(e) =>
      assert anchors == anchors[..i + 1] + anchors[i + 1..];
      ResolveAllAppend(url, anchors[..i + 1], anchors[i + 1..], join);
    case Ok(h) =>
      HttpOnlyAppend(ResolveAll(url, anchors[..i], join).value, [h]);
      assert HttpOnly([h]) == if IsHttp(h) then [h] else [] by {
        assert [h][1..] == [];
      }
  }

  /** Resolving a run of anchors is resolving its two halves one after the other. */
  lemma {:induction false} ResolveAllAppend(url: string, a: seq<Option<string>>, b: seq<Option<string>>, join: Joiner)
    ensures ResolveAll(url, a + b, join) == Then(ResolveAll(url, a, join), ResolveAll(url, b, join))
  {
    if a == [] {
      assert a + b == b;
      assert ResolveAll(url, a, join) == Ok([]);
      match ResolveAll(url, b, join)
      case Raised(e) =>
      case Ok(ys) => assert [] + ys == ys;
    } else {
      assert (a + b)[1..] == a[1..] + b;
      assert (a + b)[0] == a[0];
      ResolveAllAppend(url, a[1..], b, join);
      match ResolveHref(url, a[0], join)
      case Raised(e) =>
      case Ok(h) =>
        var rest := ResolveAll(url, a[1..], join);
        var rb := ResolveAll(url, b, join);
        if rest.Ok? && rb.Ok? {
          assert [h] + (rest.value + rb.value) == ([h] + rest.value) + rb.value;
        }
    }
  }

  /** Resolving one more anchor at the end. */
  lemma ResolveAllSnoc(url: string, a: seq<Option<string>>, x: Option<string>, join: Joiner)
    ensures ResolveAll(url, a + [x], join) ==
            Then(ResolveAll(url, a, join),
                 match ResolveHref(url, x, join) case Raised(e) => Raised(e) case Ok(h) => Ok([h]))
  {
    ResolveAllAppend(url, a, [x], join);
    assert [x][1..] == [];
    assert ResolveAll(url, [], join) == Ok([]);
    match ResolveHref(url, x, join)
    case Raised(e) =>
    case Ok(h) => assert [h] + [] == [h];
  }

  /** Filtering keeps order: the links of a prefix come before the links of the rest. */
  lemma {:induction false} HttpOnlyAppend(xs: seq<string>, ys: seq<string>)
    ensures HttpOnly(xs + ys) == HttpOnly(xs) + HttpOnly(ys)
  {
    if xs == [] {
      assert xs + ys == ys;
    } else {
      assert (xs + ys)[1..] == xs[1..] + ys;
      HttpOnlyAppend(xs[1..], ys);
    }
  }

  /** Filtering is exact: a string starting with "http" is kept as often as it occurs,
      any other string never. */
  lemma {:induction false} HttpOnlyCount(xs: seq<string>, x: string)
    ensures multiset(HttpOnly(xs))[x] == if IsHttp(x) then multiset(xs)[x] else 0
  {
    if xs != [] {
      assert xs == [xs[0]] + xs[1..];
      HttpOnlyCount(xs[1..], x);
    }
  }

  /** A string that does not start with "http" (`mailto:`, `javascript:`, ...) never
      appears among the links of a parsed page. */
  lemma NonHttpNeverKept(url: string, doc: Document, join: Joiner, s: string)
    requires !IsHttp(s)
    ensures ParsePage(url, doc, join).Ok? ==> s !in ParsePage(url, doc, join).value.links
  {
  }

  /** When `parse` returns, its links are the in-order filter of the resolved hrefs:
      each anchor contributes at most one link, and the links of the first `k`
      anchors come before those of the rest. */
  lemma {:induction false} LinksFollowAnchors(url: string, doc: Document, join: Joiner, k: nat)
    requires k <= |doc.anchors|
    ensures var r := ParsePage(url, doc, join);
            r.Ok? ==>
              ResolveAll(url, doc.anchors[..k], join).Ok? && ResolveAll(url, doc.anchors[k..], join).Ok? &&
              r.value.links == HttpOnly(ResolveAll(url, doc.anchors[..k], join).value) +
                               HttpOnly(ResolveAll(url, doc.anchors[k..], join).value)
  {
    var a := doc.anchors;
    assert a == a[..k] + a[k..];
    ResolveAllAppend(url, a[..k], a[k..], join);
    var x := ResolveAll(url, a[..k], join);
    var y := ResolveAll(url, a[k..], join);
    if x.Ok? && y.Ok? {
      HttpOnlyAppend(x.value, y.value);
    }
  }

  /** An anchor without `href` is not skipped: under a URL that starts with "http",
      `parse` can only raise `ValueError`, and when it returns, the page URL is among
      the links once per anchor without `href`. */
  lemma MissingHrefGivesPageUrl(url: string, doc: Document, join: Joiner)
    requires IsHttp(url)
    ensures ParsePage(url, doc, join).Raised? ==> ParsePage(url, doc, join).error == ValueError
    ensures ParsePage(url, doc, join).Ok? ==>
              multiset(ParsePage(url, doc, join).value.links)[url] >= multiset(doc.anchors)[None]
  {
    var rs := ResolveAll(url, doc.anchors, join);
    MissingHrefCount(url, doc.anchors, join);
    if rs.Ok? {
      HttpOnlyCount(rs.value, url);
    }
  }

  /** Each missing `href` resolves to the base URL. */
  lemma {:induction false} MissingHrefCount(url: string, anchors: seq<Option<string>>, join: Joiner)
    requires url != ""
    ensures ResolveAll(url, anchors, join).Ok? ==>
              multiset(ResolveAll(url, anchors, join).value)[url] >= multiset(anchors)[None]
  {
    if anchors != [] {
      assert anchors == [anchors[0]] + anchors[1..];
      MissingHrefCount(url, anchors[1..], join);
    }
  }
}
