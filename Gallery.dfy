/**
 * The gallery lightbox: which of the fixed images is shown, if any, and the
 * wrap-around arithmetic of its "next" and "previous" controls.
 */
module Gallery {
  import opened Wrappers

  datatype GalleryImage = GalleryImage(src: string, alt: string, caption: Option<string>)

  /** The six images the gallery shows, in grid order. */
  const Images: seq<GalleryImage> := [
    GalleryImage("/gallery/photo-1.jpg", "Gallery photo 1", Some("Replace with your photo")),
    GalleryImage("/gallery/photo-2.jpg", "Gallery photo 2", Some("Replace with your photo")),
    GalleryImage("/gallery/photo-3.jpg", "Gallery photo 3", Some("Replace with your photo")),
    GalleryImage("/gallery/photo-4.jpg", "Gallery photo 4", Some("Replace with your photo")),
    GalleryImage("/gallery/photo-5.jpg", "Gallery photo 5", Some("Replace with your photo")),
    GalleryImage("/gallery/photo-6.jpg", "Gallery photo 6", Some("Replace with your photo"))
  ]

  const ImageCount: nat := |Images|

  /** The index `goNext` moves to, `(i + 1) % n`: one further, wrapping from the last image to the first. */
  function Next(i: nat, n: nat): (r: nat)
    requires 0 < n
    ensures r < n
    ensures i < n ==> r == if i == n - 1 then 0 else i + 1
  {
    (i + 1) % n
  }

  /**
   * The index `goPrev` moves to, `(i - 1 + n) % n`: one back, wrapping from
   * the first image to the last. The dividend is never negative, so Dafny's
   * remainder agrees with JavaScript's here.
   */
  function Prev(i: nat, n: nat): (r: nat)
    requires 0 < n
    ensures r < n
    ensures i < n ==> r == if i == 0 then n - 1 else i - 1
  {
    (i - 1 + n) % n
  }

  /** Next and previous undo each other on every index of the gallery. */
  lemma NextPrevInverse(i: nat, n: nat)
    requires i < n
    ensures Prev(Next(i, n), n) == i
    ensures Next(Prev(i, n), n) == i
  {
  }

  /** On this gallery, "next" from the sixth image shows the first, and "previous" from the first shows the sixth. */
  lemma SixImagesWrap()
    ensures ImageCount == 6
    ensures Next(5, ImageCount) == 0 && Prev(0, ImageCount) == 5
    ensures forall i :: 0 <= i < 5 ==> Next(i, ImageCount) == i + 1
  {
  }

  /** The index after `k` presses of "next", starting at `i`. */
  function Forward(i: nat, k: nat, n: nat): (r: nat)
    requires 0 < n
    decreases k
  {
    if k == 0 then i else Next(Forward(i, k - 1, n), n)
  }

  /** Within one lap, `k` presses of "next" move `k` places, wrapping past the last image at most once. */
  lemma {:induction false} ForwardWithinLap(i: nat, k: nat, n: nat)
    requires i < n && k <= n
    ensures Forward(i, k, n) == if i + k < n then i + k else i + k - n
  {
    if k > 0 {
      ForwardWithinLap(i, k - 1, n);
    }
  }

  /** Pressing "next" once per image comes back to the starting image, and not before. */
  lemma FullCycle(i: nat, n: nat)
    requires i < n
    ensures Forward(i, n, n) == i
    ensures forall k :: 0 < k < n ==> Forward(i, k, n) != i
  {
    ForwardWithinLap(i, n, n);
    forall k | 0 < k < n ensures Forward(i, k, n) != i {
      ForwardWithinLap(i, k, n);
    }
  }

  /** Presses of "next" compose: `a + b` presses are `a` presses followed by `b`. */
  lemma {:induction false} ForwardAdd(i: nat, a: nat, b: nat, n: nat)
    requires 0 < n
    ensures Forward(i, a + b, n) == Forward(Forward(i, a, n), b, n)
  {
    if b > 0 {
      ForwardAdd(i, a, b - 1, n);
    }
  }

  /** Stays inside the gallery: any number of presses from an image lands on an image. */
  lemma {:induction false} ForwardInRange(i: nat, k: nat, n: nat)
    requires i < n
    ensures Forward(i, k, n) < n
  {
    if k > 0 {
      ForwardInRange(i, k - 1, n);
    }
  }

  /** A full extra lap of "next" presses changes nothing. */
  lemma FullLapsReturn(i: nat, k: nat, n: nat)
    requires i < n
    ensures Forward(i, k + n, n) == Forward(i, k, n)
  {
    ForwardAdd(i, k, n, n);
    ForwardInRange(i, k, n);
    FullCycle(Forward(i, k, n), n);
  }

  /** The `lightboxIndex` state: closed, or open on one of the images. */
  class Lightbox {
    var index: Option<nat>

    ghost predicate Valid()
      reads this
    {
      index.Some? ==> index.value < ImageCount
    }

    /** The gallery starts with the lightbox closed. */
    constructor ()
      ensures Valid() && index == None
    {
      index := None;
    }

    /** `openLightbox(k)`; the grid only ever passes the index of one of its images. */
    method Open(k: nat)
      requires k < ImageCount
      modifies this
      ensures Valid() && index == Some(k)
    {
      index := Some(k);
    }

    /** `closeLightbox`, whatever was shown before. */
    method Close()
      modifies this
      ensures Valid() && index == None
    {
      index := None;
    }

    /** `goNext`: nothing happens while closed. */
    method GoNext()
      requires Valid()
      modifies this
      ensures Valid()
      ensures old(index).None? ==> index == None
      ensures old(index).Some? ==> index == Some(Next(old(index).value, ImageCount))
    {
      if index.None? {
        return;
      }
      index := Some(Next(index.value, ImageCount));
    }

    /** `goPrev`: nothing happens while closed. */
    method GoPrev()
      requires Valid()
      modifies this
      ensures Valid()
      ensures old(index).None? ==> index == None
      ensures old(index).Some? ==> index == Some(Prev(old(index).value, ImageCount))
    {
      if index.None? {
        return;
      }
      index := Some(Prev(index.value, ImageCount));
    }

    /** The "position / total" label the open lightbox shows: a position from 1 to the image count. */
    method PositionLabel() returns (position: nat, total: nat)
      requires Valid() && index.Some?
      ensures 1 <= position <= total && total == ImageCount
      ensures position == index.value + 1
    {
      position, total := index.value + 1, ImageCount;
    }
  }
}
