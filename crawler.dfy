/** backend/src/crawler/crawler.py: a depth-bounded, pre-order walk of linked
    pages driven by a set of visited URLs that lives on the crawler instance.

    The web, `urlparse`, SHA-256 and the clock are parameters (`Env`). A page
    is what `session.get` plus BeautifulSoup make of a URL: the Content-Type
    header, the `<title>` tag, the text and the `href` of every `<a href>`, in
    document order. */
module Crawler {
  import opened Wrappers
  import opened PyStr
  import opened Seqs
  import opened Tables

  const UserAgent: string := "Cyber-Med-Agent Crawler/1.0"

  const DefaultMimeFilters: seq<string> :=
    ["application/pdf", "text/html", "application/vnd.openxmlformats-officedocument.wordprocessingml.document"]
  const DefaultDepth: int := 2

  datatype CrawlTarget = CrawlTarget(url: string, mimeFilters: seq<string>, depth: int, name: Option<string>)

  /** A target with the defaults of crawler/models.py. */
  function DefaultTarget(url: string): (t: CrawlTarget)
    ensures t.url == url && t.depth == 2 && "text/html" in t.mimeFilters
  {
    CrawlTarget(url, DefaultMimeFilters, DefaultDepth, None)
  }

  /** What fetching a URL gives. `FetchError` covers a raised request, a
      non-2xx status and a parse failure. `title` is None without a `<title>`
      tag and Some(None) when the tag has no single string. */
  datatype Response =
    | Page(header: string, title: Option<Option<string>>, text: string, hrefs: seq<string>)
    | FetchError

  /** The two parts of `urlparse(url)` the link resolution uses. */
  datatype UrlParts = UrlParts(scheme: string, netloc: string)

  /** `urlparse` is None where it raises; `clock(url)` is `datetime.now()` when
      that URL's document is built (a URL is processed at most once). */
  datatype Env = Env(
    web: string -> Response,
    urlparse: string -> Option<UrlParts>,
    sha256: string -> string,
    clock: string -> Time)

  /** A crawled document (`Document` of crawler/models.py). */
  datatype CrawledDocument = CrawledDocument(
    docId: string,
    url: string,
    title: string,
    content: string,
    sourceType: string,
    downloadedAt: Time,
    lang: string)

  /** `headers.get('Content-Type', '').split(';')[0]`. */
  function ContentType(header: string): (ct: string)
    ensures ';' !in ct && StartsWith(header, ct)
  {
    BeforeFirst(header, ';')
  }

  /** `source_type` for a content type. */
  function SourceType(contentType: string): (r: string)
    ensures contentType == "text/html" ==> r == "HTML"
    ensures contentType == "application/pdf" ==> r == "PDF"
    ensures forall k :: 0 <= k < |r| ==> !('a' <= r[k] <= 'z')
    ensures contentType != "text/html" && contentType != "application/pdf" ==>
              r == Upper(AfterLast(contentType, '/'))
  {
    if contentType == "text/html" then "HTML"
    else if contentType == "application/pdf" then "PDF"
    else Upper(AfterLast(contentType, '/'))
  }

  /** `_process_document`. An HTML title tag without a string gives a None
      title, which the `Document` model refuses: the method then returns None. */
  function ProcessDocument(url: string, page: Response, contentType: string, env: Env): (r: Option<CrawledDocument>)
    requires page.Page?
    ensures r.None? <==> contentType == "text/html" && page.title == Some(None)
    ensures r.Some? ==> && r.value.url == url && r.value.docId == env.sha256(url)
                        && r.value.lang == "en" && r.value.downloadedAt == env.clock(url)
                        && r.value.sourceType == SourceType(contentType)
    ensures r.Some? && contentType != "text/html" ==>
              r.value.title == AfterLast(url, '/') && '/' !in r.value.title && EndsWith(url, r.value.title)
    ensures r.Some? && contentType == "text/html" && page.title.None? ==> r.value.title == url
    ensures contentType == "text/html" && page.title.Some? && page.title.value.Some? ==>
              r.Some? && r.value.title == page.title.value.value
    ensures r.Some? && contentType == "text/html" ==> r.value.content == page.text
    ensures r.Some? && contentType == "application/pdf" ==>
              r.value.content == "PDF content from " + url + " - will be extracted with PyMuPDF"
    ensures r.Some? && contentType != "text/html" && contentType != "application/pdf" ==>
              r.value.content == "Content from " + url + " - format " + contentType
  {
    var docId := env.sha256(url);
    var fields :=
      if contentType == "text/html" then
        (if page.title.Some? then page.title.value else Some(url), page.text)
      else if contentType == "application/pdf" then
        (Some(AfterLast(url, '/')), "PDF content from " + url + " - will be extracted with PyMuPDF")
      else
        (Some(AfterLast(url, '/')), "Content from " + url + " - format " + contentType);
    match fields.0
    case None => None
    case Some(title) =>
      Some(CrawledDocument(docId, url, title, fields.1, SourceType(contentType), env.clock(url), "en"))
  }

  /** The href rewriting inside the link loop. None where `urlparse` raises. */
  function Resolve(pageUrl: string, href: string, urlparse: string -> Option<UrlParts>): (r: Option<string>)
    ensures r.None? <==> StartsWith(href, "/") && urlparse(pageUrl).None?
    ensures r.Some? ==> EndsWith(r.value, href)
    ensures (StartsWith(href, "http://") || StartsWith(href, "https://")) ==> r == Some(href)
    ensures r.Some? && StartsWith(href, "/") ==>
              r.value == urlparse(pageUrl).value.scheme + "://" + urlparse(pageUrl).value.netloc + href
    ensures r.Some? && !StartsWith(href, "/") && !StartsWith(href, "http://") && !StartsWith(href, "https://") ==>
              && StartsWith(r.value, pageUrl)
              && |r.value| == |pageUrl| + |href| + (if EndsWith(pageUrl, "/") then 0 else 1)
              && EndsWith(r.value[..|r.value| - |href|], "/")
  {
    assert StartsWith(href, "/") ==> href[0] == '/';
    assert StartsWith(href, "http://") || StartsWith(href, "https://") ==> href[0] == 'h' by {
      if StartsWith(href, "http://") { assert href[..7][0] == href[0]; }
      if StartsWith(href, "https://") { assert href[..8][0] == href[0]; }
    }
    if StartsWith(href, "/") then
      match urlparse(pageUrl)
      case None => None
      case Some(parts) => Some(parts.scheme + "://" + parts.netloc + href)
    else if StartsWith(href, "http://") || StartsWith(href, "https://") then Some(href)
    else if EndsWith(pageUrl, "/") then Some(pageUrl + href)
    else Some(pageUrl + "/" + href)
  }

  /** The resolution is concatenation, not the reference resolution of
      section 5.2 of RFC 3986: a sibling reference is appended below the page
      URL instead of replacing its last segment. */
  lemma ResolveIsNotReferenceResolution(urlparse: string -> Option<UrlParts>)
    ensures Resolve("http://example.com/a/page.html", "next.html", urlparse)
         == Some("http://example.com/a/page.html/next.html")
  {
    var href := "next.html";
    assert href[..1][0] == 'n' && href[..7][0] == 'n' && href[..8][0] == 'n';
    assert !EndsWith("http://example.com/a/page.html", "/");
    assert "http://example.com/a/page.html" + "/" + href == "http://example.com/a/page.html/next.html";
  }

  // ---------------------------------------------------------------------------
  // The walk as a function of the visited set

  /** A URL taken from the visited check to the fetch, with its depth. */
  datatype Hit = Hit(url: string, depth: int)

  /** The visited set afterwards, the documents appended, and the fetches in
      order. */
  datatype Walk = Walk(visited: set<string>, docs: seq<CrawledDocument>, fetched: seq<Hit>)

  /** A walk over a page's links; `stopped` when the loop was left by an
      exception (a root-relative href under a URL `urlparse` rejects). */
  datatype LinkWalk = LinkWalk(walk: Walk, stopped: bool)

  function Budget(depth: int, limit: int): nat {
    if depth <= limit then limit - depth + 1 else 0
  }

  /** The page's own document when its content type is admitted. */
  function OwnDocument(url: string, page: Response, target: CrawlTarget, env: Env): (own: seq<CrawledDocument>)
    requires page.Page?
    ensures |own| <= 1
    ensures forall d :: d in own ==> d.url == url && ContentType(page.header) in target.mimeFilters
  {
    var contentType := ContentType(page.header);
    if contentType in target.mimeFilters then
      match ProcessDocument(url, page, contentType, env)
      case None => []
      case Some(doc) => [doc]
    else []
  }

  /** `_crawl_url(url, target, documents, depth)` from visited set `v`. */
  function Visit(v: set<string>, url: string, depth: int, target: CrawlTarget, env: Env): (w: Walk)
    ensures v <= w.visited
    decreases Budget(depth, target.depth), 1, 0
  {
    if depth > target.depth || url in v then Walk(v, [], [])
    else
      var v1 := v + {url};
      var page := env.web(url);
      if page.FetchError? then Walk(v1, [], [Hit(url, depth)])
      else
        var own := OwnDocument(url, page, target, env);
        assert forall d :: d in own ==> d.url == url && Admitted(target, env, url);
        if ContentType(page.header) == "text/html" && depth < target.depth then
          var links := VisitLinks(v1, url, page.hrefs, depth, target, env).walk;
          Walk(links.visited, own + links.docs, [Hit(url, depth)] + links.fetched)
        else Walk(v1, own, [Hit(url, depth)])
  }

  /** The `for link in links` loop of a page at `depth`. */
  function VisitLinks(v: set<string>, base: string, hrefs: seq<string>, depth: int, target: CrawlTarget, env: Env): (lw: LinkWalk)
    requires depth < target.depth
    ensures v <= lw.walk.visited
    decreases Budget(depth, target.depth), 0, |hrefs|
  {
    if hrefs == [] then LinkWalk(Walk(v, [], []), false)
    else
      var prev := VisitLinks(v, base, hrefs[..|hrefs| - 1], depth, target, env);
      if prev.stopped then prev
      else
        match Resolve(base, hrefs[|hrefs| - 1], env.urlparse)
        case None => LinkWalk(prev.walk, true)
        case Some(u) =>
          var w := Visit(prev.walk.visited, u, depth + 1, target, env);
          LinkWalk(Walk(w.visited, prev.walk.docs + w.docs, prev.walk.fetched + w.fetched), false)
  }

  function UrlSet(hits: seq<Hit>): set<string> {
    set h | h in hits :: h.url
  }

  predicate DistinctUrls(hits: seq<Hit>) {
    forall i, j :: 0 <= i < j < |hits| ==> hits[i].url != hits[j].url
  }

  /** The URL serves a page whose content type the target admits. */
  predicate Admitted(target: CrawlTarget, env: Env, url: string) {
    env.web(url).Page? && ContentType(env.web(url).header) in target.mimeFilters
  }

  lemma UrlSetConcat(a: seq<Hit>, b: seq<Hit>)
    ensures UrlSet(a + b) == UrlSet(a) + UrlSet(b)
  {
    assert forall h :: h in a + b <==> h in a || h in b;
  }

  lemma DistinctConcat(a: seq<Hit>, b: seq<Hit>)
    requires DistinctUrls(a) && DistinctUrls(b)
    requires forall h :: h in b ==> h.url !in UrlSet(a)
    ensures DistinctUrls(a + b)
  {
    forall i, j | 0 <= i < j < |a + b| ensures (a + b)[i].url != (a + b)[j].url {
      if i < |a| && j >= |a| {
        assert (a + b)[j] == b[j - |a|] && b[j - |a|] in b;
        assert (a + b)[i] == a[i] && a[i] in a;
      }
    }
  }

  /** What a walk `w` from visited set `v` guarantees: the visited set grows
      by exactly the fetched URLs; no URL is fetched twice or fetched when
      already visited; every fetch is at a depth between `lo` and
      `target.depth`; every document comes from a fetched URL whose content
      type is admitted. */
  predicate WalkSound(v: set<string>, w: Walk, lo: int, target: CrawlTarget, env: Env) {
    && w.visited == v + UrlSet(w.fetched)
    && DistinctUrls(w.fetched)
    && (forall h :: h in w.fetched ==> h.url !in v && lo <= h.depth <= target.depth)
    && (forall d :: d in w.docs ==> d.url in UrlSet(w.fetched) && Admitted(target, env, d.url))
  }

  /** A page fetched at `depth` followed by the walk of its links. */
  lemma PageThenLinks(v: set<string>, url: string, depth: int, own: seq<CrawledDocument>, links: Walk, target: CrawlTarget, env: Env)
    requires url !in v && depth <= target.depth
    requires forall d :: d in own ==> d.url == url && Admitted(target, env, url)
    requires WalkSound(v + {url}, links, depth + 1, target, env)
    ensures WalkSound(v, Walk(links.visited, own + links.docs, [Hit(url, depth)] + links.fetched), depth, target, env)
  {
    var top := [Hit(url, depth)];
    assert UrlSet(top) == {url} by { assert Hit(url, depth) in top; }
    UrlSetConcat(top, links.fetched);
    DistinctConcat(top, links.fetched);
  }

  /** One walk continued by another from the visited set it left. */
  lemma WalkThenWalk(v: set<string>, prev: Walk, w: Walk, lo: int, target: CrawlTarget, env: Env)
    requires WalkSound(v, prev, lo, target, env) && WalkSound(prev.visited, w, lo, target, env)
    ensures WalkSound(v, Walk(w.visited, prev.docs + w.docs, prev.fetched + w.fetched), lo, target, env)
  {
    UrlSetConcat(prev.fetched, w.fetched);
    DistinctConcat(prev.fetched, w.fetched);
  }

  /** Every walk is sound, and the start URL ends up visited whenever its
      depth is within bounds, whether or not its fetch succeeds. */
  lemma {:induction false} VisitFacts(v: set<string>, url: string, depth: int, target: CrawlTarget, env: Env)
    ensures var w := Visit(v, url, depth, target, env);
      && WalkSound(v, w, depth, target, env)
      && (depth <= target.depth ==> url in w.visited)
    decreases Budget(depth, target.depth), 1, 0
  {
    if !(depth > target.depth || url in v) {
      var page := env.web(url);
      var top := [Hit(url, depth)];
      assert UrlSet(top) == {url} by { assert Hit(url, depth) in top; }
      if page.Page? {
        var own := OwnDocument(url, page, target, env);
        assert forall d :: d in own ==> d.url == url && Admitted(target, env, url);
        if ContentType(page.header) == "text/html" && depth < target.depth {
          var links := VisitLinks(v + {url}, url, page.hrefs, depth, target, env).walk;
          VisitLinksFacts(v + {url}, url, page.hrefs, depth, target, env);
          PageThenLinks(v, url, depth, own, links, target, env);
        }
      }
    }
  }

  /** The links of a page at `depth` are walked soundly from depth + 1. */
  lemma {:induction false} VisitLinksFacts(v: set<string>, base: string, hrefs: seq<string>, depth: int, target: CrawlTarget, env: Env)
    requires depth < target.depth
    ensures WalkSound(v, VisitLinks(v, base, hrefs, depth, target, env).walk, depth + 1, target, env)
    decreases Budget(depth, target.depth), 0, |hrefs|
  {
    if hrefs == [] {
      assert UrlSet([]) == {};
    } else {
      var prev := VisitLinks(v, base, hrefs[..|hrefs| - 1], depth, target, env);
      VisitLinksFacts(v, base, hrefs[..|hrefs| - 1], depth, target, env);
      if !prev.stopped {
        match Resolve(base, hrefs[|hrefs| - 1], env.urlparse)
        case None =>
        case Some(u) =>
          VisitFacts(prev.walk.visited, u, depth + 1, target, env);
          WalkThenWalk(v, prev.walk, Visit(prev.walk.visited, u, depth + 1, target, env), depth + 1, target, env);
      }
    }
  }

  /** One more turn of the link loop: the next resolvable href is walked from
      the visited set the earlier links left. */
  lemma VisitLinksStep(v: set<string>, base: string, hrefs: seq<string>, i: nat, depth: int, target: CrawlTarget, env: Env)
    requires depth < target.depth && i < |hrefs|
    requires !VisitLinks(v, base, hrefs[..i], depth, target, env).stopped
    requires Resolve(base, hrefs[i], env.urlparse).Some?
    ensures var prev := VisitLinks(v, base, hrefs[..i], depth, target, env).walk;
      var w := Visit(prev.visited, Resolve(base, hrefs[i], env.urlparse).value, depth + 1, target, env);
      VisitLinks(v, base, hrefs[..i + 1], depth, target, env)
        == LinkWalk(Walk(w.visited, prev.docs + w.docs, prev.fetched + w.fetched), false)
  {
    assert hrefs[..i + 1][..i] == hrefs[..i];
  }

  /** Once the loop has stopped on an exception, later links change nothing. */
  lemma {:induction false} StoppedStaysStopped(v: set<string>, base: string, hrefs: seq<string>, k: nat, depth: int, target: CrawlTarget, env: Env)
    requires depth < target.depth && k <= |hrefs|
    requires VisitLinks(v, base, hrefs[..k], depth, target, env).stopped
    ensures VisitLinks(v, base, hrefs, depth, target, env) == VisitLinks(v, base, hrefs[..k], depth, target, env)
    decreases |hrefs| - k
  {
    if k < |hrefs| {
      assert hrefs[..|hrefs| - 1][..k] == hrefs[..k];
      StoppedStaysStopped(v, base, hrefs[..|hrefs| - 1], k, depth, target, env);
    } else {
      assert hrefs[..k] == hrefs;
    }
  }

  lemma StoppedStep(v: set<string>, base: string, hrefs: seq<string>, depth: int, target: CrawlTarget, env: Env)
    requires depth < target.depth && hrefs != []
    ensures VisitLinks(v, base, hrefs, depth, target, env).stopped
        == (VisitLinks(v, base, hrefs[..|hrefs| - 1], depth, target, env).stopped
            || Resolve(base, hrefs[|hrefs| - 1], env.urlparse).None?)
  {
  }

  /** Some href of the page cannot be resolved against its URL. */
  predicate SomeUnresolvable(base: string, hrefs: seq<string>, urlparse: string -> Option<UrlParts>) {
    exists k :: 0 <= k < |hrefs| && Resolve(base, hrefs[k], urlparse).None?
  }

  lemma UnresolvableStep(base: string, hrefs: seq<string>, urlparse: string -> Option<UrlParts>)
    requires hrefs != []
    ensures SomeUnresolvable(base, hrefs, urlparse)
        == (SomeUnresolvable(base, hrefs[..|hrefs| - 1], urlparse) || Resolve(base, hrefs[|hrefs| - 1], urlparse).None?)
  {
    var front := hrefs[..|hrefs| - 1];
    if SomeUnresolvable(base, hrefs, urlparse) {
      var k :| 0 <= k < |hrefs| && Resolve(base, hrefs[k], urlparse).None?;
      if k < |front| {
        assert front[k] == hrefs[k];
      }
    }
    if SomeUnresolvable(base, front, urlparse) {
      var k :| 0 <= k < |front| && Resolve(base, front[k], urlparse).None?;
      assert hrefs[k] == front[k];
    }
  }

  /** The link loop is left early exactly when some href cannot be resolved;
      a failed fetch below a link never stops its siblings. */
  lemma {:induction false} LinkLoopStopsOnlyOnResolution(v: set<string>, base: string, hrefs: seq<string>, depth: int, target: CrawlTarget, env: Env)
    requires depth < target.depth
    ensures VisitLinks(v, base, hrefs, depth, target, env).stopped <==> SomeUnresolvable(base, hrefs, env.urlparse)
  {
    if hrefs != [] {
      LinkLoopStopsOnlyOnResolution(v, base, hrefs[..|hrefs| - 1], depth, target, env);
      StoppedStep(v, base, hrefs, depth, target, env);
      UnresolvableStep(base, hrefs, env.urlparse);
    }
  }

  /** A second walk from the visited set a first walk of the same start left
      behind finds nothing. */
  lemma RevisitFindsNothing(v: set<string>, url: string, depth: int, target: CrawlTarget, env: Env)
    ensures var w := Visit(v, url, depth, target, env);
      Visit(w.visited, url, depth, target, env) == Walk(w.visited, [], [])
  {
    VisitFacts(v, url, depth, target, env);
  }

  /** The page's own document comes before any document from its links. */
  lemma PreOrder(v: set<string>, url: string, depth: int, target: CrawlTarget, env: Env)
    requires depth <= target.depth && url !in v && env.web(url).Page?
    ensures var own := OwnDocument(url, env.web(url), target, env);
      Visit(v, url, depth, target, env).docs[..|own|] == own
  {
  }

  /** `_crawl_url` on a page it fetches and has not visited. */
  lemma VisitPage(v: set<string>, url: string, depth: int, target: CrawlTarget, env: Env)
    requires depth <= target.depth && url !in v && env.web(url).Page?
    ensures var page := env.web(url);
      var own := OwnDocument(url, page, target, env);
      Visit(v, url, depth, target, env)
        == if ContentType(page.header) == "text/html" && depth < target.depth then
             var links := VisitLinks(v + {url}, url, page.hrefs, depth, target, env).walk;
             Walk(links.visited, own + links.docs, [Hit(url, depth)] + links.fetched)
           else Walk(v + {url}, own, [Hit(url, depth)])
  {
  }

  // ---------------------------------------------------------------------------
  // The crawler instance

  class Crawler {
    /** `visited_urls`, kept across `crawl` calls. */
    var visitedUrls: set<string>
    const userAgent: string

    constructor ()
      ensures visitedUrls == {} && userAgent == UserAgent
    {
      visitedUrls := {};
      userAgent := UserAgent;
    }

    /** `crawl(target)`: the documents of a walk from depth 0. */
    method Crawl(target: CrawlTarget, env: Env) returns (documents: seq<CrawledDocument>)
      modifies this
      ensures var w := Visit(old(visitedUrls), target.url, 0, target, env);
        documents == w.docs && visitedUrls == w.visited
    {
      documents := CrawlUrl(target.url, target, [], 0, env);
    }

    /** `_crawl_url`: appends this page's document and, recursively, those of
        its links to `documents`. */
    method CrawlUrl(url: string, target: CrawlTarget, documents: seq<CrawledDocument>, depth: int, env: Env)
      returns (out: seq<CrawledDocument>)
      modifies this
      ensures var w := Visit(old(visitedUrls), url, depth, target, env);
        visitedUrls == w.visited && out == documents + w.docs
      decreases Budget(depth, target.depth), 1
    {
      if depth > target.depth || url in visitedUrls {
        return documents;
      }
      visitedUrls := visitedUrls + {url};
      out := documents;
      var response := env.web(url);
      if response.FetchError? {
        return;
      }
      var contentType := ContentType(response.header);
      if contentType in target.mimeFilters {
        var doc := ProcessDocument(url, response, contentType, env);
        if doc.Some? {
          out := out + [doc.value];
        }
      }
      ghost var own := OwnDocument(url, response, target, env);
      assert out == documents + own;
      VisitPage(old(visitedUrls), url, depth, target, env);
      if contentType == "text/html" && depth < target.depth {
        ghost var lw := VisitLinks(visitedUrls, url, response.hrefs, depth, target, env).walk;
        out := CrawlLinks(url, response.hrefs, target, out, depth, env);
        ConcatAssoc(documents, own, lw.docs);
      }
    }

    /** The `for link in links` loop of `_crawl_url` for a page at `depth`;
        an href that cannot be resolved ends the loop, as the exception does. */
    method CrawlLinks(url: string, links: seq<string>, target: CrawlTarget, documents: seq<CrawledDocument>, depth: int, env: Env)
      returns (out: seq<CrawledDocument>)
      requires depth < target.depth
      modifies this
      ensures var lw := VisitLinks(old(visitedUrls), url, links, depth, target, env).walk;
        visitedUrls == lw.visited && out == documents + lw.docs
      decreases Budget(depth, target.depth), 0
    {
      out := documents;
      ghost var start := visitedUrls;
      var i := 0;
      while i < |links|
        invariant 0 <= i <= |links|
        invariant var lw := VisitLinks(start, url, links[..i], depth, target, env);
          !lw.stopped && visitedUrls == lw.walk.visited && out == documents + lw.walk.docs
      {
        assert links[..i + 1][..i] == links[..i];
        ghost var prev := VisitLinks(start, url, links[..i], depth, target, env);
        ghost var before := visitedUrls;
        var href := Resolve(url, links[i], env.urlparse);
        if href.None? {
          StoppedStaysStopped(start, url, links, i + 1, depth, target, env);
          return;
        }
        ghost var earlier := out;
        out := CrawlUrl(href.value, target, out, depth + 1, env);
        ghost var w := Visit(before, href.value, depth + 1, target, env);
        assert out == earlier + w.docs;
        VisitLinksStep(start, url, links, i, depth, target, env);
        ConcatAssoc(documents, prev.walk.docs, w.docs);
        i := i + 1;
      }
      assert links[..i] == links;
    }
  }

  /** On one instance, crawling the same target twice yields nothing the
      second time. */
  method RecrawlYieldsNothing(target: CrawlTarget, env: Env) returns (first: seq<CrawledDocument>, second: seq<CrawledDocument>)
    ensures second == []
  {
    var crawler := new Crawler();
    first := crawler.Crawl(target, env);
    RevisitFindsNothing({}, target.url, 0, target, env);
    second := crawler.Crawl(target, env);
  }
}
