/** `extractImages`: one index record per `img` element whose `src` is usable. */
module Extract {
  import opened Wrappers
  import opened Types
  import opened Urls

  /** `src.startsWith('http')`. */
  predicate StartsWithHttp(src: string) {
    "http" <= src
  }

  /** The URL recorded for a usable `src` on page `pageUrl`: kept verbatim when
      it starts with "http", resolved against the page otherwise (the empty
      string when that resolution fails). */
  function ImageUrl(api: UrlApi, pageUrl: string, src: string): string {
    if StartsWithHttp(src) then src else ResolveUrl(api, pageUrl, src)
  }

  /** The `src` values JavaScript treats as true: present and non-empty, in
      document order. */
  function UsableSrcs(srcs: seq<Option<string>>): (usable: seq<string>)
    ensures forall i :: 0 <= i < |usable| ==> usable[i] != ""
    ensures forall s :: s in usable <==> s != "" && Some(s) in srcs
  {
    if |srcs| == 0 then []
    else
      assert forall x :: x in srcs <==> x == srcs[0] || x in srcs[1..];
      match srcs[0]
      case Some(s) => if s != "" then [s] + UsableSrcs(srcs[1..]) else UsableSrcs(srcs[1..])
      case None => UsableSrcs(srcs[1..])
  }

  /** The usable sources of a single `img` element: its `src` when present and
      non-empty, nothing otherwise. */
  lemma UsableSrcsSingle(src: Option<string>)
    ensures src.Some? && src.value != "" ==> UsableSrcs([src]) == [src.value]
    ensures src.None? || src.value == "" ==> UsableSrcs([src]) == []
  {
    assert [src][1..] == [];
  }

  /** Filtering works element by element: the usable sources of a document are
      those of its first part followed by those of the rest, in order. */
  lemma {:induction false} UsableSrcsAppend(a: seq<Option<string>>, b: seq<Option<string>>)
    ensures UsableSrcs(a + b) == UsableSrcs(a) + UsableSrcs(b)
  {
    if |a| == 0 {
      assert a + b == b;
    } else {
      assert (a + b)[1..] == a[1..] + b;
      UsableSrcsAppend(a[1..], b);
    }
  }

  /** `extractImages(html, url, depth)` over the page's `img` sources: exactly
      one record per usable source, in document order, each naming `url` as
      its page and carrying `depth`. */
  function ExtractImages(api: UrlApi, srcs: seq<Option<string>>, url: string, depth: int): (images: seq<ImageInfo>)
    ensures |images| == |UsableSrcs(srcs)|
    ensures forall i :: 0 <= i < |images| ==>
      images[i] == ImageInfo(ImageUrl(api, url, UsableSrcs(srcs)[i]), url, depth)
  {
    if |srcs| == 0 then []
    else
      var rest := ExtractImages(api, srcs[1..], url, depth);
      match srcs[0]
      case Some(src) =>
        if src != "" then [ImageInfo(ImageUrl(api, url, src), url, depth)] + rest else rest
      case None => rest
  }

  /** Extraction works element by element: the records of a document are those
      of its first part followed by those of the rest. */
  lemma {:induction false} ExtractImagesAppend(api: UrlApi, a: seq<Option<string>>, b: seq<Option<string>>, url: string, depth: int)
    ensures ExtractImages(api, a + b, url, depth) == ExtractImages(api, a, url, depth) + ExtractImages(api, b, url, depth)
  {
    if |a| == 0 {
      assert a + b == b;
    } else {
      assert (a + b)[1..] == a[1..] + b;
      ExtractImagesAppend(api, a[1..], b, url, depth);
    }
  }

  /** An `img` without a `src`, or with an empty one, contributes nothing. */
  lemma UnusableSrcContributesNothing(api: UrlApi, a: seq<Option<string>>, x: Option<string>, b: seq<Option<string>>, url: string, depth: int)
    requires x == None || x == Some("")
    ensures ExtractImages(api, a + [x] + b, url, depth) == ExtractImages(api, a + b, url, depth)
  {
    var ea, eb := ExtractImages(api, a, url, depth), ExtractImages(api, b, url, depth);
    assert ExtractImages(api, [x], url, depth) == [] by {
      assert [x][1..] == [];
    }
    assert ExtractImages(api, a + [x], url, depth) == ea by {
      ExtractImagesAppend(api, a, [x], url, depth);
      assert ea + [] == ea;
    }
    assert ExtractImages(api, a + [x] + b, url, depth) == ea + eb by {
      ExtractImagesAppend(api, a + [x], b, url, depth);
    }
    assert ExtractImages(api, a + b, url, depth) == ea + eb by {
      ExtractImagesAppend(api, a, b, url, depth);
    }
  }

  /** A source starting with "http" is recorded verbatim; any other usable
      source is recorded as its resolution against the page, and a failed
      resolution is still recorded, with the empty string as its URL. */
  lemma SingleImageRecord(api: UrlApi, src: string, url: string, depth: int)
    requires src != ""
    ensures StartsWithHttp(src) ==> ExtractImages(api, [Some(src)], url, depth) == [ImageInfo(src, url, depth)]
    ensures !StartsWithHttp(src) && api.resolve(url, src).Some? ==>
      ExtractImages(api, [Some(src)], url, depth) == [ImageInfo(api.resolve(url, src).value.href, url, depth)]
    ensures !StartsWithHttp(src) && api.resolve(url, src).None? ==>
      ExtractImages(api, [Some(src)], url, depth) == [ImageInfo("", url, depth)]
  {
  }
}
