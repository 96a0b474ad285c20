/** `crawl`: the level-by-level crawl from a seed URL. The web is an abstract
    map from URL to the outcomes of successive GET attempts; the module-level
    `visitedUrls` set and the index file form the session threaded through
    successive crawls. */
module Crawler {
  import opened Wrappers
  import opened Types
  import opened Urls
  import opened Fetch
  import opened Extract
  import opened Store
  import opened Sequences

  /** For each URL, the outcome of each successive GET attempt on it; a URL
      outside the map, or an attempt past the end of its list, fails. */
  type Web = map<string, seq<Option<Page>>>

  /** Everything outside the crawler: URL parsing, the web, and the value of
      `Math.random()` drawn when the page at each URL is fetched. */
  datatype Env = Env(api: UrlApi, web: Web, roll: string -> Roll)

  /** The state that outlives one `crawl` call: the module-level `visitedUrls`
      and the index file. */
  datatype Session = Session(visited: set<string>, index: Option<seq<ImageInfo>>)

  /** One call of `fetchPage`: the URL and the depth it was crawled at. */
  datatype Visit = Visit(url: string, depth: int)

  /** The crawl in progress: the session, the pages visited and the requests
      issued so far, and `newUrls`, the links queued for the next level. */
  datatype CrawlState = CrawlState(
    visited: set<string>,
    index: Option<seq<ImageInfo>>,
    visits: seq<Visit>,
    requests: seq<Request>,
    next: seq<string>)

  /** What one `crawl` call leaves behind and what it did. */
  datatype Run = Run(session: Session, visits: seq<Visit>, requests: seq<Request>)

  function Outcomes(env: Env, u: string): seq<Option<Page>> {
    if u in env.web then env.web[u] else []
  }

  /** The one `fetchPage` call made for `u`. */
  function FetchOf(env: Env, u: string): Fetched<Page> {
    FetchPage(u, GetRandomUserAgent(env.roll(u)), Outcomes(env, u))
  }

  /** The records a visit adds to the index: none when the fetch failed. */
  function PageImages(env: Env, v: Visit): seq<ImageInfo> {
    match FetchOf(env, v.url).body
    case None => []
    case Some(page) => ExtractImages(env.api, page.imgSrcs, v.url, v.depth)
  }

  /** The index after a visit: a successful fetch saves its records (the file
      is written even for an empty batch); a failed one leaves it alone. */
  function Record(env: Env, index: Option<seq<ImageInfo>>, v: Visit): Option<seq<ImageInfo>> {
    if FetchOf(env, v.url).body.Some? then Some(SaveImages(index, PageImages(env, v))) else index
  }

  function UrlsOf(vs: seq<Visit>): (us: seq<string>)
    ensures |us| == |vs|
    ensures forall i :: 0 <= i < |vs| ==> us[i] == vs[i].url
  {
    seq(|vs|, i requires 0 <= i < |vs| => vs[i].url)
  }

  function UrlSet(vs: seq<Visit>): set<string> {
    set v | v in vs :: v.url
  }

  /** The elements of a sequence, as a set. */
  function Elems(s: seq<string>): set<string> {
    set x | x in s
  }

  /** The elements of `xs` not in `seen`, each at its first occurrence, in the
      order of `xs`. */
  function Fresh(seen: set<string>, xs: seq<string>): (r: seq<string>)
    ensures forall x :: x in r <==> x in xs && x !in seen
    ensures Distinct(r)
    decreases |xs|
  {
    if |xs| == 0 then []
    else
      assert forall x :: x in xs <==> x == xs[0] || x in xs[1..];
      if xs[0] in seen then Fresh(seen, xs[1..]) else [xs[0]] + Fresh(seen + {xs[0]}, xs[1..])
  }

  /** Order of first occurrences: the fresh elements of `a + b` are those of
      `a`, then those of `b` that neither `seen` nor `a` holds. */
  lemma {:induction false} FreshAppend(seen: set<string>, a: seq<string>, b: seq<string>)
    ensures Fresh(seen, a + b) == Fresh(seen, a) + Fresh(seen + Elems(a), b)
    decreases |a|
  {
    if |a| == 0 {
      assert a + b == b && Fresh(seen, a) == [];
      assert seen + Elems(a) == seen;
    } else {
      assert (a + b)[1..] == a[1..] + b;
      assert forall x :: x in a <==> x == a[0] || x in a[1..];
      if a[0] in seen {
        FreshAppend(seen, a[1..], b);
        assert seen + Elems(a[1..]) == seen + Elems(a);
      } else {
        FreshAppend(seen + {a[0]}, a[1..], b);
        assert seen + {a[0]} + Elems(a[1..]) == seen + Elems(a);
      }
    }
  }

  /** A single element is fresh exactly when `seen` does not hold it. */
  lemma FreshSingle(seen: set<string>, x: string)
    ensures Fresh(seen, [x]) == if x in seen then [] else [x]
  {
    assert [x][1..] == [];
  }

  /** `Set.add` on a JavaScript Set, which keeps insertion order, applied to each
      of `xs` in turn: the entries already there stay first and in place, and
      each element of `xs` not yet present is appended at its first occurrence,
      in the order of `xs`. */
  function AddAll(s: seq<string>, xs: seq<string>): (r: seq<string>)
    ensures r == s + Fresh(Elems(s), xs)
    ensures forall x :: x in r <==> x in s || x in xs
    ensures Distinct(s) ==> Distinct(r)
    decreases |xs|
  {
    if |xs| == 0 then s
    else
      assert forall x :: x in xs <==> x == xs[0] || x in xs[1..];
      if xs[0] in s then AddAll(s, xs[1..])
      else
        assert Elems(s + [xs[0]]) == Elems(s) + {xs[0]};
        assert s + [xs[0]] + Fresh(Elems(s) + {xs[0]}, xs[1..]) == s + ([xs[0]] + Fresh(Elems(s) + {xs[0]}, xs[1..]));
        AddAll(s + [xs[0]], xs[1..])
  }

  /** The resolutions of `hrefs` against `base` that lie on `host`, in the order
      of `hrefs`, repeats included: a link is among them exactly when it lies
      on `host` and is the resolution of one of the hrefs. */
  function OnHostLinks(api: UrlApi, hrefs: seq<string>, base: string, host: string): (links: seq<string>)
    ensures forall l :: l in links <==>
      OnHost(api, l, host) && exists i :: 0 <= i < |hrefs| && l == ResolveUrl(api, base, hrefs[i])
    decreases |hrefs|
  {
    if |hrefs| == 0 then []
    else
      var link := ResolveUrl(api, base, hrefs[0]);
      assert forall i :: 1 <= i < |hrefs| ==> hrefs[1..][i - 1] == hrefs[i];
      (if OnHost(api, link, host) then [link] else []) + OnHostLinks(api, hrefs[1..], base, host)
  }

  /** Link collection keeps href order: the links of `a + b` are those of `a`
      followed by those of `b`. */
  lemma {:induction false} OnHostLinksAppend(api: UrlApi, a: seq<string>, b: seq<string>, base: string, host: string)
    ensures OnHostLinks(api, a + b, base, host) == OnHostLinks(api, a, base, host) + OnHostLinks(api, b, base, host)
    decreases |a|
  {
    if |a| == 0 {
      assert a + b == b;
    } else {
      assert (a + b)[1..] == a[1..] + b;
      OnHostLinksAppend(api, a[1..], b, base, host);
    }
  }

  /** A single href gives its resolution when that lies on the host, and
      nothing otherwise. */
  lemma OnHostLinksSingle(api: UrlApi, href: string, base: string, host: string)
    ensures OnHostLinks(api, [href], base, host)
      == if OnHost(api, ResolveUrl(api, base, href), host) then [ResolveUrl(api, base, href)] else []
  {
    assert [href][1..] == [];
  }

  /** The links of a page that are queued: each `href` resolved against the
      page and kept when `shouldCrawlLink` accepts it, in href order. When the
      page's own URL is malformed, the first check throws and no link is
      queued. */
  function CollectLinks(api: UrlApi, hrefs: seq<string>, base: string): (r: Result<seq<string>, UrlError>)
    ensures r.Failure? <==> |hrefs| > 0 && !IsValidUrl(api, base)
    ensures r.Success? && !IsValidUrl(api, base) ==> r.value == []
    ensures r.Success? && IsValidUrl(api, base) ==>
      r.value == OnHostLinks(api, hrefs, base, api.parse(base).value.hostname)
    ensures r.Success? ==> forall l :: l in r.value ==>
      IsValidUrl(api, base) && OnHost(api, l, api.parse(base).value.hostname)
    decreases |hrefs|
  {
    if |hrefs| == 0 then Success([])
    else
      var link := ResolveUrl(api, base, hrefs[0]);
      match ShouldCrawlLink(api, link, base)
      case Failure(e) => Failure(e)
      case Success(keep) =>
        match CollectLinks(api, hrefs[1..], base)
        case Failure(e) => Failure(e)
        case Success(rest) =>
          Success(if keep then [link] + rest else rest)
  }

  /** A link whose resolution failed (the empty string) is never queued. */
  lemma FailedResolutionNotQueued(api: UrlApi, hrefs: seq<string>, base: string)
    requires WellFormed(api)
    ensures CollectLinks(api, hrefs, base).Success? ==> "" !in CollectLinks(api, hrefs, base).value
  {
  }

  /** The links a successful visit of `u` at `depth` queues: none at the last
      level, none when the fetch failed or `u` is malformed, and otherwise the
      page's links that resolve onto the host of `u`, in href order. */
  function LinksOf(env: Env, maxDepth: int, depth: int, u: string): (links: seq<string>)
    ensures depth >= maxDepth || FetchOf(env, u).body.None? ==> links == []
    ensures forall l :: l in links ==> IsValidUrl(env.api, u) && OnHost(env.api, l, env.api.parse(u).value.hostname)
  {
    var f := FetchOf(env, u);
    if f.body.Some? && depth < maxDepth && IsValidUrl(env.api, u) then
      OnHostLinks(env.api, f.body.value.hrefs, u, env.api.parse(u).value.hostname)
    else []
  }

  /** A link is queued from a page exactly when the page is below the last
      level, its fetch succeeded, and the link is one of its hrefs, resolved
      against the page, that `shouldCrawlLink` accepts. */
  lemma LinksOfMembers(env: Env, maxDepth: int, depth: int, u: string, l: string)
    ensures l in LinksOf(env, maxDepth, depth, u) <==>
      depth < maxDepth && FetchOf(env, u).body.Some? &&
      (exists h :: h in FetchOf(env, u).body.value.hrefs && l == ResolveUrl(env.api, u, h)) &&
      ShouldCrawlLink(env.api, l, u) == Success(true)
  {
    var f := FetchOf(env, u);
    if depth < maxDepth && f.body.Some? && (exists h :: h in f.body.value.hrefs && l == ResolveUrl(env.api, u, h)) {
      var hrefs := f.body.value.hrefs;
      var h :| h in hrefs && l == ResolveUrl(env.api, u, h);
      var i :| 0 <= i < |hrefs| && hrefs[i] == h;
    }
  }

  /** One iteration of the inner loop: skip a visited URL; otherwise mark it
      visited, fetch it, save its images, and below the last level queue its
      same-host links. A failure anywhere after marking ends the iteration. */
  function VisitUrl(env: Env, maxDepth: int, depth: int, u: string, st: CrawlState): (st': CrawlState)
    ensures u in st.visited ==> st' == st
    ensures u !in st.visited ==>
      && st'.visited == st.visited + {u}
      && st'.visits == st.visits + [Visit(u, depth)]
      && st'.requests == st.requests + FetchOf(env, u).requests
      && st'.index == Record(env, st.index, Visit(u, depth))
      && st'.next == AddAll(st.next, LinksOf(env, maxDepth, depth, u))
    ensures depth >= maxDepth ==> st'.next == st.next
  {
    if u in st.visited then st
    else
      var v := Visit(u, depth);
      var f := FetchOf(env, u);
      var marked := st.(
        visited := st.visited + {u},
        visits := st.visits + [v],
        requests := st.requests + f.requests,
        index := Record(env, st.index, v));
      if f.body.Some? && depth < maxDepth then
        match CollectLinks(env.api, f.body.value.hrefs, u)
        case Failure(_) => marked
        case Success(links) => marked.(next := AddAll(marked.next, links))
      else marked
  }

  /** The inner loop over one level's URLs, in insertion order. */
  function VisitLevel(env: Env, maxDepth: int, depth: int, urls: seq<string>, st: CrawlState): CrawlState
    decreases |urls|
  {
    if |urls| == 0 then st
    else VisitLevel(env, maxDepth, depth, urls[1..], VisitUrl(env, maxDepth, depth, urls[0], st))
  }

  /** The outer loop from level `depth` to `maxDepth`: each level starts with an
      empty `newUrls` and hands it on as the next level's URLs. */
  function CrawlLevels(env: Env, maxDepth: int, depth: int, urls: seq<string>, st: CrawlState): CrawlState
    decreases maxDepth - depth
  {
    if depth > maxDepth then st
    else
      var done := VisitLevel(env, maxDepth, depth, urls, st.(next := []));
      CrawlLevels(env, maxDepth, depth + 1, done.next, done)
  }

  /** The index after a sequence of visits, one `Record` after another. */
  function FoldRecord(env: Env, index: Option<seq<ImageInfo>>, vs: seq<Visit>): Option<seq<ImageInfo>> {
    FoldLeft((idx, v) => Record(env, idx, v), index, vs)
  }

  /** The records of a sequence of visits, page after page. */
  function Flatten(env: Env, vs: seq<Visit>): seq<ImageInfo> {
    FlatMap(v => PageImages(env, v), vs)
  }

  /** The requests of a sequence of visits, fetch after fetch. */
  function RequestsOf(env: Env, vs: seq<Visit>): seq<Request> {
    FlatMap((v: Visit) => FetchOf(env, v.url).requests, vs)
  }

  /** `st'` is `st` after the visits `nv`: each one a URL not visited before and
      not repeated, now marked visited, its records saved and its requests
      issued, in order; nothing else changed. */
  ghost predicate Extends(env: Env, st: CrawlState, st': CrawlState, nv: seq<Visit>) {
    Marks(st, st', nv) && Effects(env, st, st', nv)
  }

  /** The visited-set part of `Extends`. */
  ghost predicate Marks(st: CrawlState, st': CrawlState, nv: seq<Visit>) {
    && st'.visits == st.visits + nv
    && st'.visited == st.visited + UrlSet(nv)
    && Distinct(UrlsOf(nv))
    && (forall i :: 0 <= i < |nv| ==> nv[i].url !in st.visited)
  }

  /** The index and request part of `Extends`. */
  ghost predicate Effects(env: Env, st: CrawlState, st': CrawlState, nv: seq<Visit>) {
    && st'.index == FoldRecord(env, st.index, nv)
    && st'.requests == st.requests + RequestsOf(env, nv)
  }

  /** `crawl(seed, maxDepth)` from a session: the outer loop from level 1 with
      the seed as the only URL, and the session it leaves. */
  function Crawl(env: Env, session: Session, seed: string, maxDepth: int): Run {
    var st := CrawlLevels(env, maxDepth, 1, [seed], CrawlState(session.visited, session.index, [], [], []));
    Run(Session(st.visited, st.index), st.visits, st.requests)
  }

  /** What one `crawl` call does. Every URL it fetches was not visited before
      and is fetched once; every one it fetches stays visited, failed or not;
      every fetch is at a depth between 1 and `maxDepth`; the index gains
      exactly the records of the successful pages, in the order the pages were
      visited, after every record it already held; the requests are those of
      the fetches, in order. */
  lemma CrawlContract(env: Env, session: Session, seed: string, maxDepth: int)
    ensures var run := Crawl(env, session, seed, maxDepth);
      && run.session.visited == session.visited + UrlSet(run.visits)
      && Distinct(UrlsOf(run.visits))
      && (forall i :: 0 <= i < |run.visits| ==> run.visits[i].url !in session.visited)
      && (forall i :: 0 <= i < |run.visits| ==> 1 <= run.visits[i].depth <= maxDepth)
      && Loaded(run.session.index) == Loaded(session.index) + Flatten(env, run.visits)
      && run.requests == RequestsOf(env, run.visits)
  {
    var st0 := CrawlState(session.visited, session.index, [], [], []);
    var st := CrawlLevels(env, maxDepth, 1, [seed], st0);
    CrawlLevelsExtends(env, maxDepth, 1, [seed], st0);
    FoldRecordLoaded(env, session.index, st.visits);
    assert st.visits[0..] == st.visits;
  }

  /** The visited-set part of `CrawlContract` alone. */
  lemma CrawlMarks(env: Env, session: Session, seed: string, maxDepth: int)
    ensures var run := Crawl(env, session, seed, maxDepth);
      && run.session.visited == session.visited + UrlSet(run.visits)
      && Distinct(UrlsOf(run.visits))
      && (forall i :: 0 <= i < |run.visits| ==> run.visits[i].url !in session.visited)
  {
    CrawlContract(env, session, seed, maxDepth);
  }

  // ----- Sequences of visits -----

  lemma FoldRecordAppend(env: Env, index: Option<seq<ImageInfo>>, a: seq<Visit>, b: seq<Visit>)
    ensures FoldRecord(env, index, a + b) == FoldRecord(env, FoldRecord(env, index, a), b)
  {
    FoldLeftAppend((idx, v) => Record(env, idx, v), index, a, b);
  }

  lemma RequestsOfAppend(env: Env, a: seq<Visit>, b: seq<Visit>)
    ensures RequestsOf(env, a + b) == RequestsOf(env, a) + RequestsOf(env, b)
  {
    FlatMapAppend((v: Visit) => FetchOf(env, v.url).requests, a, b);
  }

  lemma RecordLoaded(env: Env, index: Option<seq<ImageInfo>>, v: Visit)
    ensures Loaded(Record(env, index, v)) == Loaded(index) + PageImages(env, v)
  {
    if FetchOf(env, v.url).body.None? {
      assert PageImages(env, v) == [];
      assert Loaded(index) + [] == Loaded(index);
    }
  }

  /** The index a sequence of visits leaves is the index it started from
      followed by every record of every successful page, page after page. */
  lemma FoldRecordLoaded(env: Env, index: Option<seq<ImageInfo>>, vs: seq<Visit>)
    ensures Loaded(FoldRecord(env, index, vs)) == Loaded(index) + Flatten(env, vs)
  {
    var step := (idx, v) => Record(env, idx, v);
    forall idx, v ensures Loaded(step(idx, v)) == Loaded(idx) + PageImages(env, v) {
      RecordLoaded(env, idx, v);
    }
    FoldLeftAppends(step, Loaded, v => PageImages(env, v), index, vs);
  }

  /** The index file is left unread and unwritten exactly when it did not exist
      before and no visit succeeded. */
  lemma {:induction false} FoldRecordWritten(env: Env, index: Option<seq<ImageInfo>>, vs: seq<Visit>)
    ensures FoldRecord(env, index, vs).None? <==>
      index.None? && forall i :: 0 <= i < |vs| ==> FetchOf(env, vs[i].url).body.None?
    decreases |vs|
  {
    if |vs| != 0 {
      FoldRecordWritten(env, Record(env, index, vs[0]), vs[1..]);
      assert forall i :: 1 <= i < |vs| ==> vs[1..][i - 1] == vs[i];
    }
  }

  // ----- The crawl extends its state -----

  lemma ExtendsNothing(env: Env, st: CrawlState)
    ensures Extends(env, st, st, [])
  {
    assert st.visits + [] == st.visits;
    assert UrlSet([]) == {};
    assert st.requests + [] == st.requests;
  }

  lemma UrlSetAppend(n1: seq<Visit>, n2: seq<Visit>)
    ensures UrlSet(n1 + n2) == UrlSet(n1) + UrlSet(n2)
  {
    forall x | x in UrlSet(n1 + n2) ensures x in UrlSet(n1) + UrlSet(n2) {
      var v :| v in n1 + n2 && v.url == x;
    }
    forall x | x in UrlSet(n1) + UrlSet(n2) ensures x in UrlSet(n1 + n2) {
      if x in UrlSet(n1) {
        var v :| v in n1 && v.url == x;
        assert v in n1 + n2;
      } else {
        var v :| v in n2 && v.url == x;
        assert v in n1 + n2;
      }
    }
  }

  lemma DistinctAppend(n1: seq<Visit>, n2: seq<Visit>, before: set<string>)
    requires Distinct(UrlsOf(n1)) && Distinct(UrlsOf(n2))
    requires UrlSet(n1) <= before
    requires forall i :: 0 <= i < |n2| ==> n2[i].url !in before
    ensures Distinct(UrlsOf(n1 + n2))
  {
    var us := UrlsOf(n1 + n2);
    forall i, j | 0 <= i < j < |us| ensures us[i] != us[j] {
      if j < |n1| {
        assert UrlsOf(n1)[i] == us[i] && UrlsOf(n1)[j] == us[j];
      } else if i >= |n1| {
        assert UrlsOf(n2)[i - |n1|] == us[i] && UrlsOf(n2)[j - |n1|] == us[j];
      } else {
        assert (n1 + n2)[i] == n1[i];
        assert n1[i] in n1;
        assert us[i] in UrlSet(n1);
        assert (n1 + n2)[j] == n2[j - |n1|];
      }
    }
  }

  lemma MarksTrans(a: CrawlState, b: CrawlState, c: CrawlState, n1: seq<Visit>, n2: seq<Visit>)
    requires Marks(a, b, n1) && Marks(b, c, n2)
    ensures Marks(a, c, n1 + n2)
  {
    UrlSetAppend(n1, n2);
    DistinctAppend(n1, n2, b.visited);
    assert c.visits == a.visits + (n1 + n2);
    forall i | 0 <= i < |n1 + n2| ensures (n1 + n2)[i].url !in a.visited {
      if i >= |n1| {
        assert (n1 + n2)[i] == n2[i - |n1|];
      }
    }
  }

  lemma EffectsTrans(env: Env, a: CrawlState, b: CrawlState, c: CrawlState, n1: seq<Visit>, n2: seq<Visit>)
    requires Effects(env, a, b, n1) && Effects(env, b, c, n2)
    ensures Effects(env, a, c, n1 + n2)
  {
    assert c.index == FoldRecord(env, a.index, n1 + n2) by {
      FoldRecordAppend(env, a.index, n1, n2);
    }
    var r0, r1, r2 := a.requests, RequestsOf(env, n1), RequestsOf(env, n2);
    assert c.requests == (r0 + r1) + r2;
    assert RequestsOf(env, n1 + n2) == r1 + r2 by {
      RequestsOfAppend(env, n1, n2);
    }
    assert (r0 + r1) + r2 == r0 + (r1 + r2);
  }

  lemma ExtendsTrans(env: Env, a: CrawlState, b: CrawlState, c: CrawlState, n1: seq<Visit>, n2: seq<Visit>)
    requires Extends(env, a, b, n1) && Extends(env, b, c, n2)
    ensures Extends(env, a, c, n1 + n2)
  {
    MarksTrans(a, b, c, n1, n2);
    EffectsTrans(env, a, b, c, n1, n2);
  }

  lemma VisitUrlExtends(env: Env, maxDepth: int, depth: int, u: string, st: CrawlState)
    ensures Extends(env, st, VisitUrl(env, maxDepth, depth, u, st),
                    if u in st.visited then [] else [Visit(u, depth)])
  {
    if u in st.visited {
      ExtendsNothing(env, st);
    } else {
      var v := Visit(u, depth);
      assert UrlSet([v]) == {u};
      FoldLeftSingle((idx, v) => Record(env, idx, v), st.index, v);
      FlatMapSingle((v: Visit) => FetchOf(env, v.url).requests, v);
    }
  }

  /** The visits a level adds after `a`: those of its first URL (`n1`, at
      most that URL), then those of the rest of the level. */
  lemma NewVisitsOfLevel(a: seq<Visit>, n1: seq<Visit>, c: seq<Visit>, depth: int, urls: seq<string>)
    requires |urls| > 0
    requires n1 == [] || n1 == [Visit(urls[0], depth)]
    requires |a| + |n1| <= |c| && c[..|a| + |n1|] == a + n1
    requires forall i :: |a| + |n1| <= i < |c| ==> c[i].depth == depth && c[i].url in urls[1..]
    ensures forall i :: |a| <= i < |c| ==> c[i].depth == depth && c[i].url in urls
  {
    forall i | |a| <= i < |c| ensures c[i].depth == depth && c[i].url in urls {
      if i >= |a| + |n1| {
        assert c[i].url in urls[1..];
      } else {
        assert c[i] == c[..|a| + |n1|][i] == Visit(urls[0], depth);
      }
    }
  }

  /** One level visits, in order, every URL of the level not visited before
      (each once) at that level's depth, and nothing else. */
  lemma {:induction false} VisitLevelExtends(env: Env, maxDepth: int, depth: int, urls: seq<string>, st: CrawlState)
    ensures var st' := VisitLevel(env, maxDepth, depth, urls, st);
      && |st.visits| <= |st'.visits|
      && Extends(env, st, st', st'.visits[|st.visits|..])
      && (forall i :: |st.visits| <= i < |st'.visits| ==> st'.visits[i].depth == depth && st'.visits[i].url in urls)
      && (forall u :: u in urls ==> u in st'.visited)
    decreases |urls|
  {
    var st' := VisitLevel(env, maxDepth, depth, urls, st);
    if |urls| == 0 {
      ExtendsNothing(env, st);
      assert st'.visits[|st.visits|..] == [];
    } else {
      var st1 := VisitUrl(env, maxDepth, depth, urls[0], st);
      var n1 := if urls[0] in st.visited then [] else [Visit(urls[0], depth)];
      VisitUrlExtends(env, maxDepth, depth, urls[0], st);
      VisitLevelExtends(env, maxDepth, depth, urls[1..], st1);
      var n2 := st'.visits[|st1.visits|..];
      ExtendsTrans(env, st, st1, st', n1, n2);
      assert st'.visits[|st.visits|..] == n1 + n2;
      NewVisitsOfLevel(st.visits, n1, st'.visits, depth, urls);
      assert forall u :: u in urls ==> u == urls[0] || u in urls[1..];
    }
  }

  /** The levels from `depth` on visit only at depths between `depth` and
      `maxDepth`; past `maxDepth` nothing happens. */
  lemma {:induction false} CrawlLevelsExtends(env: Env, maxDepth: int, depth: int, urls: seq<string>, st: CrawlState)
    ensures var st' := CrawlLevels(env, maxDepth, depth, urls, st);
      && |st.visits| <= |st'.visits|
      && Extends(env, st, st', st'.visits[|st.visits|..])
      && (forall i :: |st.visits| <= i < |st'.visits| ==> depth <= st'.visits[i].depth <= maxDepth)
      && (depth > maxDepth ==> st' == st)
    decreases maxDepth - depth
  {
    var st' := CrawlLevels(env, maxDepth, depth, urls, st);
    if depth > maxDepth {
      ExtendsNothing(env, st);
      assert st'.visits[|st.visits|..] == [];
    } else {
      var start := st.(next := []);
      var done := VisitLevel(env, maxDepth, depth, urls, start);
      VisitLevelExtends(env, maxDepth, depth, urls, start);
      CrawlLevelsExtends(env, maxDepth, depth + 1, done.next, done);
      var n1 := done.visits[|st.visits|..];
      var n2 := st'.visits[|done.visits|..];
      assert Extends(env, st, done, n1);
      ExtendsTrans(env, st, done, st', n1, n2);
      assert st'.visits[|st.visits|..] == n1 + n2;
    }
  }

  // ----- Light consequences, for proofs that need only the visit sequence -----

  /** The visits one level appends: every one at that level's depth and for a
      URL of the level. */
  lemma VisitLevelVisits(env: Env, maxDepth: int, depth: int, urls: seq<string>, st: CrawlState)
    ensures var st' := VisitLevel(env, maxDepth, depth, urls, st);
      && |st.visits| <= |st'.visits|
      && st'.visits[..|st.visits|] == st.visits
      && (forall i :: |st.visits| <= i < |st'.visits| ==> st'.visits[i].depth == depth && st'.visits[i].url in urls)
  {
    VisitLevelExtends(env, maxDepth, depth, urls, st);
  }

  /** The visits the levels from `depth` on append, after those already made. */
  lemma CrawlLevelsVisits(env: Env, maxDepth: int, depth: int, urls: seq<string>, st: CrawlState)
    ensures var st' := CrawlLevels(env, maxDepth, depth, urls, st);
      && |st.visits| <= |st'.visits|
      && st'.visits[..|st.visits|] == st.visits
      && (forall i :: |st.visits| <= i < |st'.visits| ==> depth <= st'.visits[i].depth <= maxDepth)
  {
    CrawlLevelsExtends(env, maxDepth, depth, urls, st);
  }

  /** Levels that start with no URL to crawl fetch nothing. */
  lemma {:induction false} CrawlLevelsFromNothing(env: Env, maxDepth: int, depth: int, st: CrawlState)
    ensures CrawlLevels(env, maxDepth, depth, [], st).visits == st.visits
    decreases maxDepth - depth
  {
    if depth <= maxDepth {
      CrawlLevelsFromNothing(env, maxDepth, depth + 1, st.(next := []));
    }
  }

  // ----- Order and link following -----

  lemma UrlsOfAppend(a: seq<Visit>, b: seq<Visit>)
    ensures UrlsOf(a + b) == UrlsOf(a) + UrlsOf(b)
  {
    assert forall i :: 0 <= i < |a + b| ==> UrlsOf(a + b)[i] == (UrlsOf(a) + UrlsOf(b))[i];
  }

  /** The URLs visited after `a` when the next visit is `v`. */
  lemma UrlsAfterOneMore(a: seq<Visit>, v: Visit, c: seq<Visit>, rest: seq<string>)
    requires |a| + 1 <= |c| && c[..|a| + 1] == a + [v] && UrlsOf(c[|a| + 1..]) == rest
    ensures UrlsOf(c[|a|..]) == [v.url] + rest
  {
    assert c[|a|..] == [v] + c[|a| + 1..];
    UrlsOfAppend([v], c[|a| + 1..]);
  }

  lemma UrlSetIndex(vs: seq<Visit>, l: string)
    requires l in UrlSet(vs)
    ensures exists k :: 0 <= k < |vs| && vs[k].url == l
  {
    var v :| v in vs && v.url == l;
    var k :| 0 <= k < |vs| && vs[k] == v;
  }

  /** One level visits the URLs of the level that were not visited before, each
      at its first occurrence, in the order of the level. */
  lemma {:induction false} VisitLevelFresh(env: Env, maxDepth: int, depth: int, urls: seq<string>, st: CrawlState)
    ensures var st' := VisitLevel(env, maxDepth, depth, urls, st);
      |st.visits| <= |st'.visits| && UrlsOf(st'.visits[|st.visits|..]) == Fresh(st.visited, urls)
    decreases |urls|
  {
    var st' := VisitLevel(env, maxDepth, depth, urls, st);
    if |urls| == 0 {
      assert st'.visits[|st.visits|..] == [];
    } else {
      var u := urls[0];
      var st1 := VisitUrl(env, maxDepth, depth, u, st);
      assert st' == VisitLevel(env, maxDepth, depth, urls[1..], st1);
      VisitLevelFresh(env, maxDepth, depth, urls[1..], st1);
      VisitLevelVisits(env, maxDepth, depth, urls[1..], st1);
      if u in st.visited {
        assert Fresh(st.visited, urls) == Fresh(st.visited, urls[1..]);
      } else {
        var v := Visit(u, depth);
        assert st1.visits == st.visits + [v] && st1.visited == st.visited + {u};
        UrlsAfterOneMore(st.visits, v, st'.visits, Fresh(st1.visited, urls[1..]));
        assert Fresh(st.visited, urls) == [u] + Fresh(st.visited + {u}, urls[1..]);
      }
    }
  }

  /** During one level the queue only grows, and it ends up holding every link
      of every page the level visited. */
  lemma {:induction false} VisitLevelQueues(env: Env, maxDepth: int, depth: int, urls: seq<string>, st: CrawlState)
    ensures var st' := VisitLevel(env, maxDepth, depth, urls, st);
      && (forall l :: l in st.next ==> l in st'.next)
      && (forall i, l :: |st.visits| <= i < |st'.visits| && l in LinksOf(env, maxDepth, depth, st'.visits[i].url) ==>
            l in st'.next)
    decreases |urls|
  {
    var st' := VisitLevel(env, maxDepth, depth, urls, st);
    if |urls| != 0 {
      var u := urls[0];
      var st1 := VisitUrl(env, maxDepth, depth, u, st);
      assert st' == VisitLevel(env, maxDepth, depth, urls[1..], st1);
      VisitLevelQueues(env, maxDepth, depth, urls[1..], st1);
      VisitLevelVisits(env, maxDepth, depth, urls[1..], st1);
      forall i, l | |st.visits| <= i < |st'.visits| && l in LinksOf(env, maxDepth, depth, st'.visits[i].url)
        ensures l in st'.next
      {
        if i < |st1.visits| {
          assert u !in st.visited && st1.visits == st.visits + [Visit(u, depth)];
          assert st'.visits[i] == st1.visits[i] == Visit(u, depth);
        }
      }
    }
  }

  /** The visited set after one level: what it was, plus the URLs the level
      visited; every URL of the level is then visited. */
  lemma VisitLevelVisited(env: Env, maxDepth: int, depth: int, urls: seq<string>, st: CrawlState)
    ensures var st' := VisitLevel(env, maxDepth, depth, urls, st);
      && |st.visits| <= |st'.visits|
      && st'.visited == st.visited + UrlSet(st'.visits[|st.visits|..])
      && (forall u :: u in urls ==> u in st'.visited)
  {
    VisitLevelExtends(env, maxDepth, depth, urls, st);
  }

  /** The visits of the levels from `depth` on come level after level: their
      depths never decrease. */
  lemma {:induction false} CrawlLevelsDepthsOrdered(env: Env, maxDepth: int, depth: int, urls: seq<string>, st: CrawlState)
    ensures var st' := CrawlLevels(env, maxDepth, depth, urls, st);
      forall i, j :: |st.visits| <= i <= j < |st'.visits| ==> st'.visits[i].depth <= st'.visits[j].depth
    decreases maxDepth - depth
  {
    if depth <= maxDepth {
      var start := st.(next := []);
      var done := VisitLevel(env, maxDepth, depth, urls, start);
      var st' := CrawlLevels(env, maxDepth, depth + 1, done.next, done);
      assert st' == CrawlLevels(env, maxDepth, depth, urls, st);
      VisitLevelVisits(env, maxDepth, depth, urls, start);
      CrawlLevelsVisits(env, maxDepth, depth + 1, done.next, done);
      CrawlLevelsDepthsOrdered(env, maxDepth, depth + 1, done.next, done);
      forall i, j | |st.visits| <= i <= j < |st'.visits| ensures st'.visits[i].depth <= st'.visits[j].depth {
        if i < |done.visits| {
          assert st'.visits[i] == done.visits[i];
          if j < |done.visits| {
            assert st'.visits[j] == done.visits[j];
          }
        }
      }
    }
  }

  /** A URL visited by the end of a level was visited before it, or was
      visited by the level itself, at the level's depth. */
  lemma VisitedByLevel(env: Env, maxDepth: int, depth: int, urls: seq<string>, st: CrawlState, l: string)
    requires l in VisitLevel(env, maxDepth, depth, urls, st).visited
    ensures var st' := VisitLevel(env, maxDepth, depth, urls, st);
      l in st.visited || exists k :: |st.visits| <= k < |st'.visits| && st'.visits[k].url == l && st'.visits[k].depth == depth
  {
    var st' := VisitLevel(env, maxDepth, depth, urls, st);
    VisitLevelVisited(env, maxDepth, depth, urls, st);
    VisitLevelVisits(env, maxDepth, depth, urls, st);
    if l !in st.visited {
      var n := st'.visits[|st.visits|..];
      UrlSetIndex(n, l);
      var k :| 0 <= k < |n| && n[k].url == l;
      assert st'.visits[|st.visits| + k] == n[k];
    }
  }

  /** A URL visited by the end of the level at `depth` was visited before the
      levels from `depth` on, or they visit it at that depth, at index `j`. */
  lemma VisitedByLevelThenOn(env: Env, maxDepth: int, depth: int, urls: seq<string>, st: CrawlState, l: string) returns (j: int)
    requires depth <= maxDepth
    requires l in VisitLevel(env, maxDepth, depth, urls, st.(next := [])).visited
    ensures var st' := CrawlLevels(env, maxDepth, depth, urls, st);
      l !in st.visited ==> |st.visits| <= j < |st'.visits| && st'.visits[j].url == l && st'.visits[j].depth == depth
  {
    var fin := CrawlLevels(env, maxDepth, depth, urls, st);
    var start := st.(next := []);
    var done := VisitLevel(env, maxDepth, depth, urls, start);
    assert fin == CrawlLevels(env, maxDepth, depth + 1, done.next, done);
    VisitedByLevel(env, maxDepth, depth, urls, start, l);
    CrawlLevelsVisits(env, maxDepth, depth + 1, done.next, done);
    j := 0;
    if l !in st.visited {
      j :| |start.visits| <= j < |done.visits| && done.visits[j].url == l && done.visits[j].depth == depth;
      assert fin.visits[..|done.visits|][j] == done.visits[j];
    }
  }

  /** A URL queued for a level that runs ends up visited: it was visited
      before, or the level visits it. */
  lemma QueuedLinkVisited(env: Env, maxDepth: int, depth: int, urls: seq<string>, st: CrawlState, l: string)
    requires depth <= maxDepth && l in urls
    ensures var st' := CrawlLevels(env, maxDepth, depth, urls, st);
      l in st.visited || exists j :: |st.visits| <= j < |st'.visits| && st'.visits[j].url == l && st'.visits[j].depth == depth
  {
    VisitLevelVisited(env, maxDepth, depth, urls, st.(next := []));
    var j := VisitedByLevelThenOn(env, maxDepth, depth, urls, st, l);
  }

  /** A link queued by a page of the level at `depth` is visited by the end:
      before those levels, or by them no deeper than `depth + 1`. */
  lemma LevelLinkFollowed(env: Env, maxDepth: int, depth: int, urls: seq<string>, st: CrawlState, i: int, l: string)
    requires depth <= maxDepth
    requires var done := VisitLevel(env, maxDepth, depth, urls, st.(next := []));
      |st.visits| <= i < |done.visits| && l in LinksOf(env, maxDepth, done.visits[i].depth, done.visits[i].url)
    ensures var st' := CrawlLevels(env, maxDepth, depth, urls, st);
      l in st.visited || exists j :: |st.visits| <= j < |st'.visits| && st'.visits[j].url == l && st'.visits[j].depth <= depth + 1
  {
    var start := st.(next := []);
    var done := VisitLevel(env, maxDepth, depth, urls, start);
    var st' := CrawlLevels(env, maxDepth, depth + 1, done.next, done);
    assert st' == CrawlLevels(env, maxDepth, depth, urls, st);
    VisitLevelVisits(env, maxDepth, depth, urls, start);
    VisitLevelQueues(env, maxDepth, depth, urls, start);
    assert done.visits[i].depth == depth && l in done.next;
    QueuedLinkVisited(env, maxDepth, depth + 1, done.next, done, l);
    if l in done.visited {
      var j := VisitedByLevelThenOn(env, maxDepth, depth, urls, st, l);
    }
  }

  /** Links are followed: every link a page visited by the levels from `depth`
      on queues is visited by the end, either before those levels, or by them
      no later than the level after that page's. */
  lemma {:induction false} CrawlLevelsFollowLinks(env: Env, maxDepth: int, depth: int, urls: seq<string>, st: CrawlState)
    ensures var st' := CrawlLevels(env, maxDepth, depth, urls, st);
      forall i, l :: |st.visits| <= i < |st'.visits| && l in LinksOf(env, maxDepth, st'.visits[i].depth, st'.visits[i].url) ==>
        l in st.visited || exists j :: |st.visits| <= j < |st'.visits| && st'.visits[j].url == l && st'.visits[j].depth <= st'.visits[i].depth + 1
    decreases maxDepth - depth
  {
    if depth <= maxDepth {
      var start := st.(next := []);
      var done := VisitLevel(env, maxDepth, depth, urls, start);
      var st' := CrawlLevels(env, maxDepth, depth + 1, done.next, done);
      assert st' == CrawlLevels(env, maxDepth, depth, urls, st);
      VisitLevelVisits(env, maxDepth, depth, urls, start);
      CrawlLevelsVisits(env, maxDepth, depth + 1, done.next, done);
      CrawlLevelsFollowLinks(env, maxDepth, depth + 1, done.next, done);
      forall i, l | |st.visits| <= i < |st'.visits| && l in LinksOf(env, maxDepth, st'.visits[i].depth, st'.visits[i].url)
        ensures l in st.visited || exists j :: |st.visits| <= j < |st'.visits| && st'.visits[j].url == l && st'.visits[j].depth <= st'.visits[i].depth + 1
      {
        if i < |done.visits| {
          assert st'.visits[..|done.visits|][i] == done.visits[i];
          LevelLinkFollowed(env, maxDepth, depth, urls, st, i, l);
        } else if l in done.visited {
          assert depth + 1 <= st'.visits[i].depth;
          var j := VisitedByLevelThenOn(env, maxDepth, depth, urls, st, l);
        }
      }
    }
  }

  /** A visit's queued link that was not visited before the levels from
      `depth` on is visited by them, at index `j`, no more than one level
      deeper. */
  lemma FollowedLinkIndex(env: Env, maxDepth: int, depth: int, urls: seq<string>, st: CrawlState, i: int, l: string) returns (j: int)
    requires var st' := CrawlLevels(env, maxDepth, depth, urls, st);
      |st.visits| <= i < |st'.visits| && l in LinksOf(env, maxDepth, st'.visits[i].depth, st'.visits[i].url)
    ensures var st' := CrawlLevels(env, maxDepth, depth, urls, st);
      l !in st.visited ==> |st.visits| <= j < |st'.visits| && st'.visits[j].url == l && st'.visits[j].depth <= st'.visits[i].depth + 1
  {
    CrawlLevelsFollowLinks(env, maxDepth, depth, urls, st);
    j := 0;
    if l !in st.visited {
      j :| |st.visits| <= j < |CrawlLevels(env, maxDepth, depth, urls, st).visits|
        && CrawlLevels(env, maxDepth, depth, urls, st).visits[j].url == l
        && CrawlLevels(env, maxDepth, depth, urls, st).visits[j].depth <= CrawlLevels(env, maxDepth, depth, urls, st).visits[i].depth + 1;
    }
  }
}
