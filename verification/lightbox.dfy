/**
  The lightbox: an overlay showing one image of a list, stepping backwards
  and forwards through the list with wraparound.
 */
module Lightbox {
  import opened Gallery

  /** The image list handed to `openLightbox`, the current index and whether the overlay is shown. */
  datatype Viewer = Viewer(images: seq<Image>, index: int, shown: bool)

  /** The state before any image has been opened. */
  const Initial: Viewer := Viewer([], 0, false)

  /** JavaScript's integer quotient, truncated toward zero, for a positive divisor. */
  function JsQuot(a: int, n: int): int
    requires n > 0
  {
    if a >= 0 then a / n else -((-a) / n)
  }

  /**
    JavaScript's `%`: the remainder of truncated division, which takes the
    sign of the dividend (Dafny's own `%` never returns a negative value).
   */
  function JsRem(a: int, n: int): (r: int)
    requires n > 0
    ensures a == JsQuot(a, n) * n + r
    ensures 0 <= a ==> 0 <= r < n
    ensures a < 0 ==> -n < r <= 0
  {
    if a >= 0 then a % n else -((-a) % n)
  }

  /** Within two turns of the divisor, the remainder subtracts at most one turn. */
  lemma RemWithinTwoTurns(a: int, n: int)
    requires n > 0
    ensures 0 <= a < 2 * n ==> JsRem(a, n) == if a < n then a else a - n
  {
    if a < 0 || a >= 2 * n {
      return;
    }
    var q, r := JsQuot(a, n), JsRem(a, n);
    assert a == q * n + r && 0 <= r < n;
    assert 0 <= q < 2;
  }

  /** The current index names an image of the list. */
  predicate InRange(v: Viewer)
  {
    0 <= v.index < |v.images|
  }

  /** `showNextImage`: with two images or more, advance with wraparound. */
  function Next(v: Viewer): (r: Viewer)
    ensures r.images == v.images && r.shown == v.shown
    ensures |v.images| < 2 ==> r == v
    ensures InRange(v) ==> InRange(r)
    ensures InRange(v) && |v.images| >= 2 ==>
              r.index == if v.index == |v.images| - 1 then 0 else v.index + 1
    ensures 0 <= v.index && |v.images| >= 2 ==> InRange(r)
  {
    if |v.images| > 1 then
      RemWithinTwoTurns(v.index + 1, |v.images|);
      v.(index := JsRem(v.index + 1, |v.images|))
    else v
  }

  /** `showPrevImage`: with two images or more, step back with wraparound. */
  function Prev(v: Viewer): (r: Viewer)
    ensures r.images == v.images && r.shown == v.shown
    ensures |v.images| < 2 ==> r == v
    ensures InRange(v) ==> InRange(r)
    ensures InRange(v) && |v.images| >= 2 ==>
              r.index == if v.index == 0 then |v.images| - 1 else v.index - 1
    ensures 0 <= v.index && |v.images| >= 2 ==> InRange(r)
  {
    if |v.images| > 1 then
      RemWithinTwoTurns(v.index - 1 + |v.images|, |v.images|);
      v.(index := JsRem(v.index - 1 + |v.images|, |v.images|))
    else v
  }

  /** Whether `updateLightboxImage` can read the image at `start` without throwing. */
  predicate Renders(images: seq<Image>, start: int)
  {
    0 <= start < |images|
  }

  /**
    `openLightbox`: the list and index are replaced unchecked; the overlay is
    shown only when rendering the image at `start` succeeds, since a missing
    image throws before the overlay is revealed.
   */
  function Open(v: Viewer, images: seq<Image>, start: int): (r: Viewer)
    ensures r.images == images && r.index == start
    ensures Renders(images, start) ==> r.shown && InRange(r)
    ensures !Renders(images, start) ==> r.shown == v.shown
  {
    Viewer(images, start, if Renders(images, start) then true else v.shown)
  }

  /** `closeLightboxModal`: hide the overlay; the list and index stay. */
  function Close(v: Viewer): (r: Viewer)
    ensures !r.shown && r.images == v.images && r.index == v.index
  {
    v.(shown := false)
  }

  /** Whether `updateLightboxImage` displays the previous/next controls. */
  predicate ControlsVisible(v: Viewer)
  {
    |v.images| > 1
  }

  /** On an index in range, the controls are displayed exactly when a step moves the index. */
  lemma ControlsShownExactlyWhenStepsMove(v: Viewer)
    requires InRange(v)
    ensures ControlsVisible(v) <==> Next(v) != v
    ensures ControlsVisible(v) <==> Prev(v) != v
  {
  }

  /** `k` presses of the next control. */
  function NextN(v: Viewer, k: nat): Viewer
  {
    if k == 0 then v else Next(NextN(v, k - 1))
  }

  /** Stepping back undoes stepping forward, and the other way round. */
  lemma PrevUndoesNext(v: Viewer)
    requires InRange(v)
    ensures Prev(Next(v)) == v
    ensures Next(Prev(v)) == v
  {
  }

  /** On an index in range the steps are the modular successor and predecessor. */
  lemma StepsAreModular(v: Viewer)
    requires InRange(v) && |v.images| >= 2
    ensures Next(v).index == (v.index + 1) % |v.images|
    ensures Prev(v).index == (v.index - 1 + |v.images|) % |v.images|
  {
  }

  /**
    From a negative index, JavaScript's `%` keeps the sign of the dividend
    (where Dafny's would not), so a step forward never lands above 0, and
    it lands in range only when the list length divides the distance back
    to 0.
   */
  lemma NegativeIndexStepsForward(v: Viewer)
    requires |v.images| >= 2 && v.index < 0
    ensures Next(v).index <= 0
    ensures InRange(Next(v)) <==> (-(v.index + 1)) % |v.images| == 0
  {
  }

  /** A concrete case where JavaScript's `%` and Dafny's differ. */
  lemma RemainderSignExample()
    ensures JsRem(-3, 2) == -1 && (-3) % 2 == 1
  {
  }

  /** With fewer than two images no number of presses moves the index. */
  lemma {:induction false} NextNFewImages(v: Viewer, k: nat)
    requires |v.images| < 2
    ensures NextN(v, k) == v
  {
    if k > 0 {
      NextNFewImages(v, k - 1);
    }
  }

  /**
    Within one turn round the list, `k` presses of next advance the index by
    `k`, wrapping past the end back to the start.
   */
  lemma {:induction false} NextNIndex(v: Viewer, k: nat)
    requires InRange(v) && k <= |v.images|
    ensures NextN(v, k).images == v.images && NextN(v, k).shown == v.shown
    ensures NextN(v, k).index ==
              if v.index + k < |v.images| then v.index + k else v.index + k - |v.images|
  {
    if k > 0 {
      NextNIndex(v, k - 1);
    }
  }

  /** Pressing next as many times as there are images comes back to the start. */
  lemma NextCycles(v: Viewer)
    requires InRange(v)
    ensures NextN(v, |v.images|) == v
  {
    NextNIndex(v, |v.images|);
  }
}
