/** The URL helpers of the crawler: validity, resolution and the same-host link
    filter. The WHATWG URL parser itself is foreign code and enters the model
    as two total functions. */
module Urls {
  import opened Wrappers

  /** The two parts of a parsed URL the crawler reads. */
  datatype Url = Url(href: string, hostname: string)

  /** `parse(s)` is `new URL(s)` and `resolve(base, rel)` is `new URL(rel, base)`;
      None stands for the TypeError the constructor throws. */
  datatype UrlApi = UrlApi(parse: string -> Option<Url>, resolve: (string, string) -> Option<Url>)

  /** The TypeError thrown by `new URL(input)`. */
  datatype UrlError = InvalidUrl(input: string)

  /** The one fact about WHATWG parsing the link filter relies on: the empty
      string is not an absolute URL. */
  predicate WellFormed(api: UrlApi) {
    api.parse("").None?
  }

  /** `isValidUrl`: the string parses as an absolute URL. */
  predicate IsValidUrl(api: UrlApi, s: string) {
    api.parse(s).Some?
  }

  /** `resolveUrl`: the href of `rel` resolved against `base`, or the empty
      string when resolution throws. */
  function ResolveUrl(api: UrlApi, base: string, relative: string): string {
    match api.resolve(base, relative)
    case Some(u) => u.href
    case None => ""
  }

  /** The string parses and its hostname is `host`. */
  predicate OnHost(api: UrlApi, s: string, host: string) {
    api.parse(s).Some? && api.parse(s).value.hostname == host
  }

  /** `shouldCrawlLink(link, baseUrl)`: a malformed base throws (its parse is
      outside the try), a malformed link is not followed, and otherwise the link
      is followed exactly when both hostnames are equal. */
  function ShouldCrawlLink(api: UrlApi, link: string, baseUrl: string): (r: Result<bool, UrlError>)
    ensures r.Failure? <==> !IsValidUrl(api, baseUrl)
    ensures r.Failure? ==> r.error == InvalidUrl(baseUrl)
    ensures r.Success? ==> (r.value <==> OnHost(api, link, api.parse(baseUrl).value.hostname))
  {
    match api.parse(baseUrl)
    case None => Failure(InvalidUrl(baseUrl))
    case Some(base) =>
      match api.parse(link)
      case None => Success(false)
      case Some(l) => Success(l.hostname == base.hostname)
  }

  /** Only a valid URL is ever followed, and a valid URL is always followed from
      itself. */
  lemma ValidIffFollowedFromItself(api: UrlApi, s: string)
    ensures IsValidUrl(api, s) <==> ShouldCrawlLink(api, s, s) == Success(true)
  {
  }

  /** Between two valid URLs, the filter does not depend on which one is the page. */
  lemma ShouldCrawlLinkSymmetric(api: UrlApi, a: string, b: string)
    requires IsValidUrl(api, a) && IsValidUrl(api, b)
    ensures ShouldCrawlLink(api, a, b) == ShouldCrawlLink(api, b, a)
  {
  }

  /** A link followed from a page that was itself followed from a base is on the
      base's host: the same-host relation chains along crawl paths. */
  lemma ShouldCrawlLinkTransitive(api: UrlApi, a: string, b: string, c: string)
    requires ShouldCrawlLink(api, a, b) == Success(true)
    requires ShouldCrawlLink(api, b, c) == Success(true)
    ensures ShouldCrawlLink(api, a, c) == Success(true)
  {
  }

  /** A failed resolution (the empty string) is never followed. */
  lemma EmptyLinkNotFollowed(api: UrlApi, baseUrl: string)
    requires WellFormed(api) && IsValidUrl(api, baseUrl)
    ensures ShouldCrawlLink(api, "", baseUrl) == Success(false)
  {
  }
}
