/** Properties of whole crawls, proved by induction over the levels. */
module CrawlTheorems {
  import opened Wrappers
  import opened Types
  import opened Urls
  import opened Fetch
  import opened Extract
  import opened Store
  import opened Crawler

  /** `l` parses and has the hostname of a valid seed. */
  ghost predicate OnSeedHost(api: UrlApi, seed: string, l: string) {
    IsValidUrl(api, seed) && OnHost(api, l, api.parse(seed).value.hostname)
  }

  // ----- Same-host link following -----

  /** A page that is the seed or on the seed's host queues only links on the
      seed's host. */
  lemma VisitUrlStaysOnHost(env: Env, maxDepth: int, depth: int, u: string, st: CrawlState, seed: string)
    requires forall l :: l in st.next ==> OnSeedHost(env.api, seed, l)
    requires u == seed || OnSeedHost(env.api, seed, u)
    ensures forall l :: l in VisitUrl(env, maxDepth, depth, u, st).next ==> OnSeedHost(env.api, seed, l)
  {
  }

  lemma {:induction false} VisitLevelStaysOnHost(env: Env, maxDepth: int, depth: int, urls: seq<string>, st: CrawlState, seed: string)
    requires forall l :: l in st.next ==> OnSeedHost(env.api, seed, l)
    requires forall i :: 0 <= i < |urls| ==> urls[i] == seed || OnSeedHost(env.api, seed, urls[i])
    ensures forall l :: l in VisitLevel(env, maxDepth, depth, urls, st).next ==> OnSeedHost(env.api, seed, l)
    decreases |urls|
  {
    if |urls| != 0 {
      VisitUrlStaysOnHost(env, maxDepth, depth, urls[0], st, seed);
      VisitLevelStaysOnHost(env, maxDepth, depth, urls[1..], VisitUrl(env, maxDepth, depth, urls[0], st), seed);
    }
  }

  lemma {:induction false} CrawlLevelsStayOnHost(env: Env, maxDepth: int, depth: int, urls: seq<string>, st: CrawlState, seed: string)
    requires depth >= 1
    requires forall i :: 0 <= i < |urls| ==> (depth == 1 && urls[i] == seed) || OnSeedHost(env.api, seed, urls[i])
    ensures var st' := CrawlLevels(env, maxDepth, depth, urls, st);
      forall i :: |st.visits| <= i < |st'.visits| && st'.visits[i].depth >= 2 ==>
        OnSeedHost(env.api, seed, st'.visits[i].url)
    decreases maxDepth - depth
  {
    if depth <= maxDepth {
      var start := st.(next := []);
      var done := VisitLevel(env, maxDepth, depth, urls, start);
      var st' := CrawlLevels(env, maxDepth, depth + 1, done.next, done);
      assert st' == CrawlLevels(env, maxDepth, depth, urls, st);
      VisitLevelVisits(env, maxDepth, depth, urls, start);
      VisitLevelStaysOnHost(env, maxDepth, depth, urls, start, seed);
      assert forall i :: 0 <= i < |done.next| ==> done.next[i] in done.next;
      CrawlLevelsStayOnHost(env, maxDepth, depth + 1, done.next, done, seed);
      CrawlLevelsVisits(env, maxDepth, depth + 1, done.next, done);
      forall i | |st.visits| <= i < |done.visits| && st'.visits[i].depth >= 2
        ensures OnSeedHost(env.api, seed, st'.visits[i].url)
      {
        assert st'.visits[i] == done.visits[i];
        assert done.visits[i].url in urls;
        var k :| 0 <= k < |urls| && urls[k] == done.visits[i].url;
      }
    }
  }

  /** Every page fetched below the first level is on the seed's host, and the
      seed is then a valid URL. */
  lemma CrawlStaysOnSeedHost(env: Env, session: Session, seed: string, maxDepth: int)
    ensures var run := Crawl(env, session, seed, maxDepth);
      forall i :: 0 <= i < |run.visits| && run.visits[i].depth >= 2 ==>
        OnSeedHost(env.api, seed, run.visits[i].url)
  {
    var st0 := CrawlState(session.visited, session.index, [], [], []);
    CrawlLevelsStayOnHost(env, maxDepth, 1, [seed], st0, seed);
    assert Crawl(env, session, seed, maxDepth).visits == CrawlLevels(env, maxDepth, 1, [seed], st0).visits;
  }

  // ----- The first level -----

  /** The first level fetches only the seed, and fetches it first unless it was
      already visited or `maxDepth` is below 1. */
  lemma CrawlStartsAtSeed(env: Env, session: Session, seed: string, maxDepth: int)
    ensures var run := Crawl(env, session, seed, maxDepth);
      && (forall i :: 0 <= i < |run.visits| && run.visits[i].depth == 1 ==> run.visits[i].url == seed)
      && (maxDepth >= 1 && seed !in session.visited ==> |run.visits| >= 1 && run.visits[0] == Visit(seed, 1))
  {
    var st0 := CrawlState(session.visited, session.index, [], [], []);
    var run := Crawl(env, session, seed, maxDepth);
    if maxDepth >= 1 {
      var start := st0.(next := []);
      var done := VisitLevel(env, maxDepth, 1, [seed], start);
      VisitLevelVisits(env, maxDepth, 1, [seed], start);
      CrawlLevelsVisits(env, maxDepth, 2, done.next, done);
      assert run.visits[..|done.visits|] == done.visits;
      if seed !in session.visited {
        assert done == VisitUrl(env, maxDepth, 1, seed, start);
        assert done.visits == [Visit(seed, 1)];
      }
      forall i | 0 <= i < |run.visits| && run.visits[i].depth == 1 ensures run.visits[i].url == seed {
        if i < |done.visits| {
          assert run.visits[i] == done.visits[i];
        }
      }
    }
  }

  /** With `maxDepth` below 1 the outer loop never runs: nothing is fetched and
      the session is left as it was. */
  lemma CrawlBelowDepthOneDoesNothing(env: Env, session: Session, seed: string, maxDepth: int)
    requires maxDepth < 1
    ensures Crawl(env, session, seed, maxDepth) == Run(session, [], [])
  {
  }

  // ----- The index -----

  lemma {:induction false} FlattenRecordsFromVisits(env: Env, vs: seq<Visit>)
    ensures forall k :: 0 <= k < |Flatten(env, vs)| ==>
      exists i :: 0 <= i < |vs| && Flatten(env, vs)[k].page == vs[i].url && Flatten(env, vs)[k].depth == vs[i].depth
    decreases |vs|
  {
    if |vs| != 0 {
      FlattenRecordsFromVisits(env, vs[1..]);
      var p: seq<ImageInfo>, r: seq<ImageInfo> := PageImages(env, vs[0]), Flatten(env, vs[1..]);
      var all := Flatten(env, vs);
      assert all == p + r;
      forall k | 0 <= k < |all|
        ensures exists i :: 0 <= i < |vs| && all[k].page == vs[i].url && all[k].depth == vs[i].depth
      {
        if k < |p| {
          assert all[k] == p[k];
          assert p[k].page == vs[0].url && p[k].depth == vs[0].depth;
        } else {
          assert all[k] == r[k - |p|];
          var j :| 0 <= j < |vs[1..]| && r[k - |p|].page == vs[1..][j].url && r[k - |p|].depth == vs[1..][j].depth;
          assert vs[1..][j] == vs[j + 1];
        }
      }
    } else {
      assert Flatten(env, vs) == [];
    }
  }

  /** Every record a crawl appends to the index names a page it fetched and a
      depth between 1 and `maxDepth`; the records already there are kept. */
  lemma CrawlIndexRecords(env: Env, session: Session, seed: string, maxDepth: int)
    ensures var run := Crawl(env, session, seed, maxDepth);
      var before, after := Loaded(session.index), Loaded(run.session.index);
      && |before| <= |after|
      && after[..|before|] == before
      && (forall k :: |before| <= k < |after| ==> 1 <= after[k].depth <= maxDepth)
      && (forall k :: |before| <= k < |after| ==> after[k].page in UrlSet(run.visits))
  {
    var run := Crawl(env, session, seed, maxDepth);
    CrawlContract(env, session, seed, maxDepth);
    var before, after := Loaded(session.index), Loaded(run.session.index);
    var added := Flatten(env, run.visits);
    FlattenRecordsFromVisits(env, run.visits);
    assert after == before + added;
    forall k | |before| <= k < |after|
      ensures 1 <= after[k].depth <= maxDepth && after[k].page in UrlSet(run.visits)
    {
      assert after[k] == added[k - |before|];
      var i :| 0 <= i < |run.visits| && added[k - |before|].page == run.visits[i].url
        && added[k - |before|].depth == run.visits[i].depth;
      assert run.visits[i] in run.visits;
    }
  }

  // ----- Successive crawls share the visited set -----

  /** Two crawls in a row, the second from the session the first left, never
      fetch a URL twice, and neither fetches a URL visited before the first. */
  lemma CrawlTwiceFetchesEachUrlOnce(env: Env, session: Session, seed1: string, depth1: int, seed2: string, depth2: int)
    ensures var run1 := Crawl(env, session, seed1, depth1);
      var run2 := Crawl(env, run1.session, seed2, depth2);
      && Distinct(UrlsOf(run1.visits + run2.visits))
      && (forall i :: 0 <= i < |run1.visits + run2.visits| ==> (run1.visits + run2.visits)[i].url !in session.visited)
      && run2.session.visited == session.visited + UrlSet(run1.visits + run2.visits)
  {
    var run1 := Crawl(env, session, seed1, depth1);
    var run2 := Crawl(env, run1.session, seed2, depth2);
    CrawlMarks(env, session, seed1, depth1);
    CrawlMarks(env, run1.session, seed2, depth2);
    assert Distinct(UrlsOf(run1.visits + run2.visits)) by {
      DistinctAppend(run1.visits, run2.visits, run1.session.visited);
    }
    assert UrlSet(run1.visits + run2.visits) == UrlSet(run1.visits) + UrlSet(run2.visits) by {
      UrlSetAppend(run1.visits, run2.visits);
    }
    forall i | 0 <= i < |run1.visits + run2.visits| ensures (run1.visits + run2.visits)[i].url !in session.visited {
      if i >= |run1.visits| {
        assert (run1.visits + run2.visits)[i] == run2.visits[i - |run1.visits|];
      }
    }
  }

  /** A URL whose fetch failed stays visited: a later crawl seeded with it
      fetches nothing. */
  lemma VisitedSeedIsNotFetchedAgain(env: Env, session: Session, seed: string, maxDepth: int)
    requires seed in session.visited
    ensures Crawl(env, session, seed, maxDepth).visits == []
  {
    var st0 := CrawlState(session.visited, session.index, [], [], []);
    if maxDepth >= 1 {
      var start := st0.(next := []);
      var done := VisitLevel(env, maxDepth, 1, [seed], start);
      assert [seed][1..] == [];
      assert done == VisitLevel(env, maxDepth, 1, [], VisitUrl(env, maxDepth, 1, seed, start));
      assert done == start;
      CrawlLevelsFromNothing(env, maxDepth, 2, done);
    }
  }

  // ----- Order of the visits and link following -----

  /** A crawl visits level after level: the depths of its fetches never
      decrease. */
  lemma CrawlVisitsLevelByLevel(env: Env, session: Session, seed: string, maxDepth: int)
    ensures var run := Crawl(env, session, seed, maxDepth);
      forall i, j :: 0 <= i <= j < |run.visits| ==> run.visits[i].depth <= run.visits[j].depth
  {
    var st0 := CrawlState(session.visited, session.index, [], [], []);
    var run := Crawl(env, session, seed, maxDepth);
    CrawlLevelsDepthsOrdered(env, maxDepth, 1, [seed], st0);
    assert run.visits == CrawlLevels(env, maxDepth, 1, [seed], st0).visits;
    forall i, j | 0 <= i <= j < |run.visits| ensures run.visits[i].depth <= run.visits[j].depth {
      assert run.visits[i] == CrawlLevels(env, maxDepth, 1, [seed], st0).visits[i];
      assert run.visits[j] == CrawlLevels(env, maxDepth, 1, [seed], st0).visits[j];
    }
  }

  /** Every same-host link of every page the crawl fetched below `maxDepth`
      is followed: it was visited before the crawl, or the crawl fetches it
      no deeper than one level below that page. */
  lemma CrawlFollowsLinks(env: Env, session: Session, seed: string, maxDepth: int)
    ensures var run := Crawl(env, session, seed, maxDepth);
      forall i, h :: 0 <= i < |run.visits| && run.visits[i].depth < maxDepth
        && FetchOf(env, run.visits[i].url).body.Some?
        && h in FetchOf(env, run.visits[i].url).body.value.hrefs
        && ShouldCrawlLink(env.api, ResolveUrl(env.api, run.visits[i].url, h), run.visits[i].url) == Success(true)
        ==> (ResolveUrl(env.api, run.visits[i].url, h) in session.visited
          || exists j :: 0 <= j < |run.visits| && run.visits[j].url == ResolveUrl(env.api, run.visits[i].url, h)
               && run.visits[j].depth <= run.visits[i].depth + 1)
  {
    assert Crawl(env, session, seed, maxDepth).visits
      == CrawlLevels(env, maxDepth, 1, [seed], CrawlState(session.visited, session.index, [], [], [])).visits;
    forall i, h | 0 <= i < |Crawl(env, session, seed, maxDepth).visits|
      && Crawl(env, session, seed, maxDepth).visits[i].depth < maxDepth
      && FetchOf(env, Crawl(env, session, seed, maxDepth).visits[i].url).body.Some?
      && h in FetchOf(env, Crawl(env, session, seed, maxDepth).visits[i].url).body.value.hrefs
      && ShouldCrawlLink(env.api, ResolveUrl(env.api, Crawl(env, session, seed, maxDepth).visits[i].url, h), Crawl(env, session, seed, maxDepth).visits[i].url) == Success(true)
      ensures ResolveUrl(env.api, Crawl(env, session, seed, maxDepth).visits[i].url, h) in session.visited
          || exists j :: 0 <= j < |Crawl(env, session, seed, maxDepth).visits| && Crawl(env, session, seed, maxDepth).visits[j].url == ResolveUrl(env.api, Crawl(env, session, seed, maxDepth).visits[i].url, h)
               && Crawl(env, session, seed, maxDepth).visits[j].depth <= Crawl(env, session, seed, maxDepth).visits[i].depth + 1
    {
      var v := Crawl(env, session, seed, maxDepth).visits[i];
      var l := ResolveUrl(env.api, v.url, h);
      LinksOfMembers(env, maxDepth, v.depth, v.url, l);
      var j := FollowedLinkIndex(env, maxDepth, 1, [seed], CrawlState(session.visited, session.index, [], [], []), i, l);
    }
  }
}
