/** The records the crawler passes between its steps. */
module Types {
  import opened Wrappers

  /** One entry of the image index: the image's URL, the page it was found on
      and the crawl depth of that page. */
  datatype ImageInfo = ImageInfo(url: string, page: string, depth: int)

  /** A fetched page once its HTML is parsed: the `src` attribute of every `img`
      element in document order (None when the attribute is absent) and the
      `href` value of every `a[href]` element in document order. */
  datatype Page = Page(imgSrcs: seq<Option<string>>, hrefs: seq<string>)

  /** No element occurs twice. */
  predicate Distinct<T(==)>(s: seq<T>) {
    forall i, j :: 0 <= i < j < |s| ==> s[i] != s[j]
  }
}
