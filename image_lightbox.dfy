/** The full-screen image viewer (src/components/ImageLightbox.jsx): the
    index of the image on show moves forwards and backwards with wrap-around,
    keys dispatch to the handlers, and closing starts the closing animation.
    The 200 ms timer that then calls `onClose` is not modelled. */
module ImageLightbox {
  import opened Text
  import opened JsonValues

  /** The index `handlePrevious` moves to among `n` images. */
  function Previous(index: int, n: nat): (r: int)
    ensures 0 <= index < n ==> 0 <= r < n
    ensures index == 0 ==> r == n - 1
    ensures index > 0 ==> r == index - 1
  {
    if index > 0 then index - 1 else n - 1
  }

  /** The index `handleNext` moves to among `n` images. */
  function Next(index: int, n: nat): (r: int)
    ensures 0 <= index < n ==> 0 <= r < n
    ensures index == n - 1 ==> r == 0
    ensures index < n - 1 ==> r == index + 1
  {
    if index < n - 1 then index + 1 else 0
  }

  /** Previous undoes next, and next undoes previous. */
  lemma PreviousNextInverse(index: int, n: nat)
    requires 0 <= index < n
    ensures Previous(Next(index, n), n) == index
    ensures Next(Previous(index, n), n) == index
  {
  }

  /** The index after `k` presses of next. */
  function NextTimes(index: int, n: nat, k: nat): int {
    if k == 0 then index else Next(NextTimes(index, n, k - 1), n)
  }

  /** Before the last image, `k` presses of next move `k` places on. */
  lemma {:induction false} NextTimesAdvances(index: int, n: nat, k: nat)
    requires 0 <= index && index + k < n
    ensures NextTimes(index, n, k) == index + k
  {
    if k > 0 {
      NextTimesAdvances(index, n, k - 1);
    }
  }

  /** Pressing next `a + b` times is pressing it `a` times, then `b` times. */
  lemma {:induction false} NextTimesAdd(index: int, n: nat, a: nat, b: nat)
    ensures NextTimes(index, n, a + b) == NextTimes(NextTimes(index, n, a), n, b)
    decreases b
  {
    if b > 0 {
      NextTimesAdd(index, n, a, b - 1);
    }
  }

  /** `n` presses of next come back to the starting image. */
  lemma NextFullCycle(index: int, n: nat)
    requires 0 <= index < n
    ensures NextTimes(index, n, n) == index
  {
    var a := n - 1 - index;
    NextTimesAdvances(index, n, a);
    assert NextTimes(index, n, a + 1) == 0;
    NextTimesAdd(index, n, a + 1, index);
    if index > 0 {
      NextTimesAdvances(0, n, index);
    }
  }

  /** With a single image, both directions stay on it. */
  lemma SingleImageStays()
    ensures Next(0, 1) == 0 && Previous(0, 1) == 0
  {
  }

  /** The alt text of the image on show: its own, or its one-based position. */
  function AltText(image: Json, index: int): (r: Json)
    ensures Truthy(Get(image, "alternativeText")) ==> r == Get(image, "alternativeText")
    ensures !Truthy(Get(image, "alternativeText")) ==> r == Str("Image " + IntToString(index + 1))
  {
    Or(Get(image, "alternativeText"), Str("Image " + IntToString(index + 1)))
  }

  /** The default of the `initialIndex` prop. */
  const DefaultIndex: int := 0

  /** The state of one open lightbox over a fixed list of images. */
  class Lightbox {
    const images: seq<Json>
    var currentIndex: int
    var isClosing: bool

    /** `currentIndex` starts at `initialIndex`, or at 0 when the prop is
        omitted, and the box is not closing. */
    constructor (images: seq<Json>, initialIndex: Option<int>)
      ensures this.images == images
      ensures initialIndex.Some? ==> currentIndex == initialIndex.value
      ensures initialIndex.None? ==> currentIndex == DefaultIndex
      ensures !isClosing
    {
      this.images := images;
      currentIndex := PropOr(initialIndex, DefaultIndex);
      isClosing := false;
    }

    predicate InRange()
      reads this
    {
      0 <= currentIndex < |images|
    }

    /** Starts the closing animation; the index stays where it was. */
    method HandleClose()
      modifies this
      ensures isClosing && currentIndex == old(currentIndex)
    {
      isClosing := true;
    }

    method HandlePrevious()
      modifies this
      ensures currentIndex == Previous(old(currentIndex), |images|) && isClosing == old(isClosing)
      ensures old(InRange()) ==> InRange()
    {
      currentIndex := if currentIndex > 0 then currentIndex - 1 else |images| - 1;
    }

    method HandleNext()
      modifies this
      ensures currentIndex == Next(old(currentIndex), |images|) && isClosing == old(isClosing)
      ensures old(InRange()) ==> InRange()
    {
      currentIndex := if currentIndex < |images| - 1 then currentIndex + 1 else 0;
    }

    /** Escape closes, the arrow keys navigate, every other key does nothing. */
    method HandleKeyDown(key: string)
      modifies this
      ensures key == "Escape" ==> isClosing && currentIndex == old(currentIndex)
      ensures key == "ArrowLeft" ==> currentIndex == Previous(old(currentIndex), |images|) && isClosing == old(isClosing)
      ensures key == "ArrowRight" ==> currentIndex == Next(old(currentIndex), |images|) && isClosing == old(isClosing)
      ensures key != "Escape" && key != "ArrowLeft" && key != "ArrowRight" ==>
                currentIndex == old(currentIndex) && isClosing == old(isClosing)
      ensures old(InRange()) ==> InRange()
    {
      if key == "Escape" {
        HandleClose();
      } else if key == "ArrowLeft" {
        HandlePrevious();
      } else if key == "ArrowRight" {
        HandleNext();
      }
    }

    /** The previous and next buttons are shown only for more than one image. */
    function ShowsNavigation(): (r: bool)
      reads this
      ensures r <==> |images| > 1
    {
      |images| > 1
    }

    /** The counter, `"<currentIndex + 1> / <n>"`, shown only for more than one image. */
    function Counter(): (r: Option<string>)
      reads this
      ensures r.Some? <==> ShowsNavigation()
      ensures r.Some? ==> r.value == IntToString(currentIndex + 1) + " / " + NatToString(|images|)
    {
      if |images| > 1 then Some(IntToString(currentIndex + 1) + " / " + NatToString(|images|)) else None
    }
  }
}
