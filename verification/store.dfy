/** `saveImages`: the read-append-write of the image index. The JSON file
    becomes the list it holds, or None when it is missing or unreadable. */
module Store {
  import opened Wrappers
  import opened Types

  /** The image list `readJson` yields; a missing or unreadable file reads as
      the empty index. */
  function Loaded(stored: Option<seq<ImageInfo>>): seq<ImageInfo> {
    match stored
    case Some(images) => images
    case None => []
  }

  /** `saveImages(batch)`: the index written back holds every record it held
      before, unchanged and in place, followed by the batch in its own order. */
  function SaveImages(stored: Option<seq<ImageInfo>>, batch: seq<ImageInfo>): (saved: seq<ImageInfo>)
    ensures |saved| == |Loaded(stored)| + |batch|
    ensures forall i :: 0 <= i < |Loaded(stored)| ==> saved[i] == Loaded(stored)[i]
    ensures forall i :: 0 <= i < |batch| ==> saved[|Loaded(stored)| + i] == batch[i]
  {
    Loaded(stored) + batch
  }

  /** Two saves in a row leave the same index as one save of both batches. */
  lemma SaveImagesTwice(stored: Option<seq<ImageInfo>>, a: seq<ImageInfo>, b: seq<ImageInfo>)
    ensures SaveImages(Some(SaveImages(stored, a)), b) == SaveImages(stored, a + b)
  {
    assert (Loaded(stored) + a) + b == Loaded(stored) + (a + b);
  }

  /** Saving onto a missing or unreadable index writes exactly the batch. */
  lemma SaveImagesOnUnreadable(batch: seq<ImageInfo>)
    ensures SaveImages(None, batch) == batch
  {
  }
}
