/** The crawler test's scenario: a two-page site on localhost:3000 whose index
    page holds an absolute and a root-relative image and a link to the second
    page, which holds two more images. */
module Scenario {
  import opened Wrappers
  import opened Types
  import opened Urls
  import opened Fetch
  import opened Crawler

  const Seed := "http://localhost:3000/index.html"
  const Page2 := "http://localhost:3000/page2.html"
  const Origin := "http://localhost:3000"

  const Image1 := "https://example.com/image1.jpg"
  const Image2 := "http://localhost:3000/images/image2.jpg"
  const Image3 := "https://example.com/image3.jpg"
  const Image4 := "http://localhost:3000/images/image3.jpg"

  /** WHATWG parsing as far as the scenario needs it: the two pages parse with
      hostname "localhost"; nothing else is asked of it. */
  function Parse(s: string): Option<Url> {
    if s == Seed || s == Page2 then Some(Url(s, "localhost")) else None
  }

  /** Resolution of the scenario's relative references against either page. */
  function Resolve(base: string, rel: string): Option<Url> {
    if rel == "/images/image2.jpg" then Some(Url(Image2, "localhost"))
    else if rel == "/images/image3.jpg" then Some(Url(Image4, "localhost"))
    else if rel == "/page2.html" then Some(Url(Page2, "localhost"))
    else Parse(rel)
  }

  const Api := UrlApi(Parse, Resolve)

  const IndexPage := Page([Some("https://example.com/image1.jpg"), Some("/images/image2.jpg")], ["/page2.html"])
  const SecondPage := Page([Some("https://example.com/image3.jpg"), Some("/images/image3.jpg")], [])

  /** Both pages answer their first request. */
  const TestWeb: Web := map[Seed := [Some(IndexPage)], Page2 := [Some(SecondPage)]]

  /** The scenario for any values `Math.random()` may take. */
  function TestEnv(roll: string -> Roll): Env {
    Env(Api, TestWeb, roll)
  }

  /** The user agent of the fetch of `u`. */
  function AgentOf(roll: string -> Roll, u: string): string {
    GetRandomUserAgent(roll(u))
  }

  lemma FetchFirstTry(roll: string -> Roll, u: string, page: Page)
    requires Outcomes(TestEnv(roll), u) == [Some(page)]
    ensures FetchOf(TestEnv(roll), u) == Fetched([Request(u, AgentOf(roll, u))], Some(page))
  {
    Fetch.FetchPageFirstSuccess(u, AgentOf(roll, u), [Some(page)], 0);
  }

  lemma TwoImages(srcs: seq<Option<string>>, url: string, depth: int, a: string, b: string)
    requires srcs == [Some(a), Some(b)] && a != "" && b != ""
    ensures Extract.ExtractImages(Api, srcs, url, depth) ==
      [ImageInfo(Extract.ImageUrl(Api, url, a), url, depth), ImageInfo(Extract.ImageUrl(Api, url, b), url, depth)]
  {
    assert srcs[1..] == [Some(b)];
    assert srcs[1..][1..] == [];
  }

  lemma IndexPageImages()
    ensures Extract.ExtractImages(Api, IndexPage.imgSrcs, Seed, 1) == [ImageInfo(Image1, Seed, 1), ImageInfo(Image2, Seed, 1)]
  {
    TwoImages(IndexPage.imgSrcs, Seed, 1, "https://example.com/image1.jpg", "/images/image2.jpg");
    assert Extract.StartsWithHttp(Image1);
    assert "/images/image2.jpg"[0] != "http"[0];
    assert ResolveUrl(Api, Seed, "/images/image2.jpg") == Image2;
  }

  lemma SecondPageImages()
    ensures Extract.ExtractImages(Api, SecondPage.imgSrcs, Page2, 2) == [ImageInfo(Image3, Page2, 2), ImageInfo(Image4, Page2, 2)]
  {
    TwoImages(SecondPage.imgSrcs, Page2, 2, "https://example.com/image3.jpg", "/images/image3.jpg");
    assert Extract.StartsWithHttp(Image3);
    assert "/images/image3.jpg"[0] != "http"[0];
    assert ResolveUrl(Api, Page2, "/images/image3.jpg") == Image4;
  }

  lemma IndexPageLinks()
    ensures CollectLinks(Api, IndexPage.hrefs, Seed) == Success([Page2])
  {
    var hrefs := IndexPage.hrefs;
    assert Api.parse(Seed) == Some(Url(Seed, "localhost"));
    assert Api.parse(Page2) == Some(Url(Page2, "localhost"));
    assert ResolveUrl(Api, Seed, hrefs[0]) == Page2;
    assert ShouldCrawlLink(Api, Page2, Seed) == Success(true);
    assert hrefs[1..] == [];
    assert CollectLinks(Api, hrefs[1..], Seed) == Success([]);
    assert [Page2] + [] == [Page2];
    assert CollectLinks(Api, hrefs, Seed) == Success(if true then [Page2] + [] else []);
  }

  lemma IndexPageVisit(roll: string -> Roll, maxDepth: int, st: CrawlState)
    requires Seed !in st.visited
    ensures var st' := VisitUrl(TestEnv(roll), maxDepth, 1, Seed, st);
      && st'.visited == st.visited + {Seed}
      && st'.visits == st.visits + [Visit(Seed, 1)]
      && st'.requests == st.requests + [Request(Seed, AgentOf(roll, Seed))]
      && st'.index == Some(Store.Loaded(st.index) + [ImageInfo(Image1, Seed, 1), ImageInfo(Image2, Seed, 1)])
      && st'.next == (if 1 < maxDepth then Crawler.AddAll(st.next, [Page2]) else st.next)
  {
    FetchFirstTry(roll, Seed, IndexPage);
    IndexPageImages();
    IndexPageLinks();
  }

  lemma SecondPageVisit(roll: string -> Roll, maxDepth: int, st: CrawlState)
    requires Page2 !in st.visited
    ensures var st' := VisitUrl(TestEnv(roll), maxDepth, 2, Page2, st);
      && st'.visited == st.visited + {Page2}
      && st'.visits == st.visits + [Visit(Page2, 2)]
      && st'.requests == st.requests + [Request(Page2, AgentOf(roll, Page2))]
      && st'.index == Some(Store.Loaded(st.index) + [ImageInfo(Image3, Page2, 2), ImageInfo(Image4, Page2, 2)])
      && st'.next == st.next
  {
    assert Page2 != Seed;
    FetchFirstTry(roll, Page2, SecondPage);
    SecondPageImages();
    assert CollectLinks(Api, SecondPage.hrefs, Page2) == Success([]);
    assert AddAll(st.next, []) == st.next;
  }

  /** The first level of a crawl from the index page: the page is fetched, its
      two images saved and, below the last level, the second page queued. */
  lemma FirstLevel(roll: string -> Roll, maxDepth: int, st: CrawlState)
    requires Seed !in st.visited && st.next == []
    ensures VisitLevel(TestEnv(roll), maxDepth, 1, [Seed], st) == st.(
      visited := st.visited + {Seed},
      visits := st.visits + [Visit(Seed, 1)],
      requests := st.requests + [Request(Seed, AgentOf(roll, Seed))],
      index := Some(Store.Loaded(st.index) + [ImageInfo(Image1, Seed, 1), ImageInfo(Image2, Seed, 1)]),
      next := if 1 < maxDepth then [Page2] else [])
  {
    assert [Seed][1..] == [];
    IndexPageVisit(roll, maxDepth, st);
    assert AddAll([], [Page2]) == [Page2] by {
      assert [Page2][1..] == [];
      assert [] + [Page2] == [Page2];
    }
  }

  /** The second level of the depth-2 crawl: the second page is fetched. */
  lemma DepthTwoSecondLevel(roll: string -> Roll, st: CrawlState)
    requires Page2 !in st.visited && st.next == []
    ensures VisitLevel(TestEnv(roll), 2, 2, [Page2], st) == st.(
      visited := st.visited + {Page2},
      visits := st.visits + [Visit(Page2, 2)],
      requests := st.requests + [Request(Page2, AgentOf(roll, Page2))],
      index := Some(Store.Loaded(st.index) + [ImageInfo(Image3, Page2, 2), ImageInfo(Image4, Page2, 2)]))
  {
    assert [Page2][1..] == [];
    SecondPageVisit(roll, 2, st);
  }

  /** Both levels of the depth-2 crawl from any state in which neither page
      was visited. */
  lemma DepthTwoLevels(roll: string -> Roll, st: CrawlState)
    requires Seed !in st.visited && Page2 !in st.visited && st.next == []
    ensures var st' := CrawlLevels(TestEnv(roll), 2, 1, [Seed], st);
      && st'.visited == st.visited + {Seed} + {Page2}
      && st'.visits == st.visits + [Visit(Seed, 1)] + [Visit(Page2, 2)]
      && st'.requests == st.requests + [Request(Seed, AgentOf(roll, Seed))] + [Request(Page2, AgentOf(roll, Page2))]
      && st'.index == Some(Store.Loaded(st.index) + [ImageInfo(Image1, Seed, 1), ImageInfo(Image2, Seed, 1)]
                           + [ImageInfo(Image3, Page2, 2), ImageInfo(Image4, Page2, 2)])
  {
    assert Page2 != Seed;
    FirstLevel(roll, 2, st);
    var lvl1 := VisitLevel(TestEnv(roll), 2, 1, [Seed], st);
    DepthTwoSecondLevel(roll, lvl1.(next := []));
    var lvl2 := VisitLevel(TestEnv(roll), 2, 2, [Page2], lvl1.(next := []));
    assert CrawlLevels(TestEnv(roll), 2, 3, lvl2.next, lvl2) == lvl2;
  }

  /** The depth-2 crawl from a session, as the levels it runs. */
  lemma CrawlDepthTwo(roll: string -> Roll, session: Session)
    requires Seed !in session.visited && Page2 !in session.visited
    ensures var run := Crawl(TestEnv(roll), session, Seed, 2);
      && run.session.visited == session.visited + {Seed} + {Page2}
      && run.visits == [] + [Visit(Seed, 1)] + [Visit(Page2, 2)]
      && run.requests == [] + [Request(Seed, AgentOf(roll, Seed))] + [Request(Page2, AgentOf(roll, Page2))]
      && run.session.index == Some(Store.Loaded(session.index) + [ImageInfo(Image1, Seed, 1), ImageInfo(Image2, Seed, 1)]
                                   + [ImageInfo(Image3, Page2, 2), ImageInfo(Image4, Page2, 2)])
  {
    DepthTwoLevels(roll, CrawlState(session.visited, session.index, [], [], []));
  }

  /** `crawl('http://localhost:3000/index.html', 2)` from any session in which
      neither page was visited: both pages are fetched once each with one
      request each, in order, and the index gains the four records the test
      expects, in its order, whatever user agents are drawn. */
  lemma ScenarioDepthTwo(roll: string -> Roll, session: Session)
    requires Seed !in session.visited && Page2 !in session.visited
    ensures var run := Crawl(TestEnv(roll), session, Seed, 2);
      && run.visits == [Visit(Seed, 1), Visit(Page2, 2)]
      && run.requests == [Request(Seed, AgentOf(roll, Seed)), Request(Page2, AgentOf(roll, Page2))]
      && run.session.visited == session.visited + {Seed, Page2}
      && run.session.index == Some(Store.Loaded(session.index) + [
           ImageInfo(Image1, Seed, 1), ImageInfo(Image2, Seed, 1),
           ImageInfo(Image3, Page2, 2), ImageInfo(Image4, Page2, 2)])
  {
    CrawlDepthTwo(roll, session);
    JoinTwo(Visit(Seed, 1), Visit(Page2, 2));
    JoinTwo(Request(Seed, AgentOf(roll, Seed)), Request(Page2, AgentOf(roll, Page2)));
    JoinPairs(Store.Loaded(session.index), ImageInfo(Image1, Seed, 1), ImageInfo(Image2, Seed, 1),
              ImageInfo(Image3, Page2, 2), ImageInfo(Image4, Page2, 2));
  }

  lemma JoinEmpty<T>(s: seq<T>)
    ensures [] + s == s
  {
  }

  lemma JoinTwo<T>(a: T, b: T)
    ensures [] + [a] + [b] == [a, b]
  {
  }

  lemma JoinPairs<T>(s: seq<T>, a: T, b: T, c: T, d: T)
    ensures s + [a, b] + [c, d] == s + [a, b, c, d]
  {
  }

  /** The test itself: a fresh session and an empty images directory yield
      exactly the four records, in order. */
  lemma TestScenarioDepthTwo(roll: string -> Roll, session: Session)
    requires session.visited == {} && session.index == None
    ensures var run := Crawl(TestEnv(roll), session, Seed, 2);
      && run.visits == [Visit(Seed, 1), Visit(Page2, 2)]
      && run.session.index == Some([
           ImageInfo(Image1, Seed, 1), ImageInfo(Image2, Seed, 1),
           ImageInfo(Image3, Page2, 2), ImageInfo(Image4, Page2, 2)])
  {
    ScenarioDepthTwo(roll, session);
    JoinEmpty([ImageInfo(Image1, Seed, 1), ImageInfo(Image2, Seed, 1),
               ImageInfo(Image3, Page2, 2), ImageInfo(Image4, Page2, 2)]);
  }

  /** The depth-1 crawl from a session in which the index page was not
      visited, as the one level it runs. */
  lemma CrawlDepthOne(roll: string -> Roll, session: Session)
    requires Seed !in session.visited
    ensures var run := Crawl(TestEnv(roll), session, Seed, 1);
      && run.visits == [] + [Visit(Seed, 1)]
      && run.requests == [] + [Request(Seed, AgentOf(roll, Seed))]
      && run.session.index == Some(Store.Loaded(session.index) + [ImageInfo(Image1, Seed, 1), ImageInfo(Image2, Seed, 1)])
  {
    var st0 := CrawlState(session.visited, session.index, [], [], []);
    FirstLevel(roll, 1, st0);
    var lvl1 := VisitLevel(TestEnv(roll), 1, 1, [Seed], st0);
    assert CrawlLevels(TestEnv(roll), 1, 2, lvl1.next, lvl1) == lvl1;
  }

  /** The same crawl with depth 1 records only the index page's two images and
      never requests the second page. */
  lemma TestScenarioDepthOne(roll: string -> Roll, session: Session)
    requires session.visited == {} && session.index == None
    ensures var run := Crawl(TestEnv(roll), session, Seed, 1);
      && run.visits == [Visit(Seed, 1)]
      && run.requests == [Request(Seed, AgentOf(roll, Seed))]
      && run.session.index == Some([ImageInfo(Image1, Seed, 1), ImageInfo(Image2, Seed, 1)])
  {
    CrawlDepthOne(roll, session);
    JoinEmpty([Request(Seed, AgentOf(roll, Seed))]);
    JoinEmpty([Visit(Seed, 1)]);
    JoinEmpty([ImageInfo(Image1, Seed, 1), ImageInfo(Image2, Seed, 1)]);
  }
}
