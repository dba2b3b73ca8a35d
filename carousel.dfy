/** The image carousel: a window of `visibleCount` images sliding one step
    at a time over `imageUrls`, guarded so that it never leaves the list. */
module Carousel {

  /** `canGoNext`: a later image is still hidden to the right. */
  predicate CanGoNext(start: nat, visible: nat, len: nat) {
    start + visible < len
  }

  /** `canGoPrevious`. */
  predicate CanGoPrevious(start: nat) {
    start > 0
  }

  /** The start index after a Next click. */
  function NextIndex(start: nat, visible: nat, len: nat): (r: nat)
    ensures r == start || r == start + 1
    ensures r == start + 1 <==> CanGoNext(start, visible, len)
    ensures start + visible <= len ==> r + visible <= len
    ensures start == 0 || start + visible <= len ==> r == 0 || r + visible <= len
  {
    if CanGoNext(start, visible, len) then start + 1 else start
  }

  /** The start index after a Previous click. */
  function PreviousIndex(start: nat): (r: nat)
    ensures r == start || r + 1 == start
    ensures r + 1 == start <==> CanGoPrevious(start)
    ensures r <= start
  {
    if CanGoPrevious(start) then start - 1 else start
  }

  /** A Next that was allowed is undone by a Previous. */
  lemma PreviousUndoesNext(start: nat, visible: nat, len: nat)
    requires CanGoNext(start, visible, len)
    ensures PreviousIndex(NextIndex(start, visible, len)) == start
  {
  }

  /** A Previous that was allowed is undone by a Next, unless the window
      was wider than the list to begin with. */
  lemma NextUndoesPrevious(start: nat, visible: nat, len: nat)
    requires CanGoPrevious(start) && start + visible <= len
    ensures NextIndex(PreviousIndex(start), visible, len) == start
  {
  }

  /** `imageUrls.slice(startIndex, startIndex + visibleImagesCount)`, with
      the end clamped to the list as `slice` does. */
  function Window(images: seq<string>, start: nat, visible: nat): (r: seq<string>)
    requires start <= |images|
    ensures |r| == if visible < |images| - start then visible else |images| - start
    ensures forall k :: 0 <= k < |r| ==> r[k] == images[start + k]
  {
    var stop := if start + visible < |images| then start + visible else |images|;
    images[start..stop]
  }

  class Carousel {
    const imageUrls: seq<string>
    const visibleCount: nat
    var startIndex: nat

    /** The window starts at the left, or fits inside the list. */
    ghost predicate Valid()
      reads this
    {
      startIndex == 0 || startIndex + visibleCount <= |imageUrls|
    }

    constructor (imageUrls: seq<string>, visibleCount: nat)
      ensures Valid()
      ensures this.imageUrls == imageUrls && this.visibleCount == visibleCount
      ensures startIndex == 0
    {
      this.imageUrls := imageUrls;
      this.visibleCount := visibleCount;
      startIndex := 0;
    }

    method HandlePreviousClick()
      requires Valid()
      modifies this
      ensures Valid()
      ensures startIndex == PreviousIndex(old(startIndex))
    {
      if CanGoPrevious(startIndex) {
        startIndex := startIndex - 1;
      }
    }

    method HandleNextClick()
      requires Valid()
      modifies this
      ensures Valid()
      ensures startIndex == NextIndex(old(startIndex), visibleCount, |imageUrls|)
    {
      if CanGoNext(startIndex, visibleCount, |imageUrls|) {
        startIndex := startIndex + 1;
      }
    }

    /** The images on screen. */
    function Shown(): (r: seq<string>)
      reads this
      requires Valid()
    {
      Window(imageUrls, startIndex, visibleCount)
    }
  }

  /** Whatever clicks came before, the carousel shows a full window of
      `visible` images when the list has that many, and the whole list
      otherwise. */
  lemma FullWindow(images: seq<string>, start: nat, visible: nat)
    requires start == 0 || start + visible <= |images|
    ensures start <= |images|
    ensures |Window(images, start, visible)| == if visible < |images| then visible else |images|
  {
  }
}
