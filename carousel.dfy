/**
 * The slide carousel: a current index moved by the arrows, the indicators
 * and an interval timer, and an auto-play flag that hovering clears.  The
 * timer runs exactly while auto-play is on, and auto-play can only be on
 * with a positive interval.  A carousel needs at least one slide.
 */
module Carousel {

  /** JavaScript's `%`: the remainder takes the sign of the dividend. */
  function JsRem(a: int, b: int): (r: int)
    requires b > 0
    ensures a >= 0 ==> 0 <= r < b && r == a % b
    ensures a < 0 ==> -b < r <= 0
  {
    if a >= 0 then a % b else -((-a) % b)
  }

  /** The next index, wrapping past the last slide to the first. */
  function NextIndex(i: int, n: nat): (r: int)
    requires n > 0 && 0 <= i < n
    ensures 0 <= r < n
    ensures r == if i == n - 1 then 0 else i + 1
  {
    JsRem(i + 1, n)
  }

  /** The previous index, wrapping before the first slide to the last. */
  function PrevIndex(i: int, n: nat): (r: int)
    requires n > 0 && 0 <= i < n
    ensures 0 <= r < n
    ensures r == if i == 0 then n - 1 else i - 1
  {
    JsRem(i - 1 + n, n)
  }

  /** The arrows undo each other. */
  lemma PrevUndoesNext(i: int, n: nat)
    requires n > 0 && 0 <= i < n
    ensures PrevIndex(NextIndex(i, n), n) == i
    ensures NextIndex(PrevIndex(i, n), n) == i
  {
  }

  /** `k` presses of the next arrow from `i`. */
  function Advance(i: int, k: nat, n: nat): (r: int)
    requires n > 0 && 0 <= i < n
    ensures 0 <= r < n
  {
    if k == 0 then i else NextIndex(Advance(i, k - 1, n), n)
  }

  /** Within one round, advancing `k` times lands `k` slides further on, wrapping once past the end. */
  lemma {:induction false} AdvanceWithinRound(i: int, k: nat, n: nat)
    requires n > 0 && 0 <= i < n && k <= n
    ensures Advance(i, k, n) == if i + k < n then i + k else i + k - n
  {
    if k > 0 {
      AdvanceWithinRound(i, k - 1, n);
    }
  }

  /** A full round of the timer, one tick per slide, comes back to the same slide. */
  lemma FullRound(i: int, n: nat)
    requires n > 0 && 0 <= i < n
    ensures Advance(i, n, n) == i
  {
    AdvanceWithinRound(i, n, n);
  }

  class Slides {
    const slideCount: nat
    /** `autoPlayInterval` in milliseconds (0 or less disables auto-play). */
    const autoPlayInterval: int
    var currentIndex: int
    var isAutoPlaying: bool

    predicate Valid()
      reads this
    {
      slideCount > 0 && 0 <= currentIndex < slideCount && (isAutoPlaying ==> autoPlayInterval > 0)
    }

    /** Whether the effect has an interval timer running. */
    function TimerRunning(): (r: bool)
      reads this
      ensures r ==> isAutoPlaying && autoPlayInterval > 0
    {
      isAutoPlaying && autoPlayInterval > 0
    }

    constructor(slideCount: nat, autoPlayInterval: int)
      requires slideCount > 0
      ensures Valid()
      ensures this.slideCount == slideCount && this.autoPlayInterval == autoPlayInterval
      ensures currentIndex == 0 && isAutoPlaying == (autoPlayInterval > 0)
    {
      this.slideCount := slideCount;
      this.autoPlayInterval := autoPlayInterval;
      currentIndex := 0;
      isAutoPlaying := autoPlayInterval > 0;
    }

    /** `nextSlide`: the right arrow, and each tick of the timer. */
    method Next()
      requires Valid()
      modifies this
      ensures Valid()
      ensures currentIndex == NextIndex(old(currentIndex), slideCount)
      ensures isAutoPlaying == old(isAutoPlaying)
    {
      currentIndex := (currentIndex + 1) % slideCount;
    }

    /** `prevSlide`: the left arrow. */
    method Prev()
      requires Valid()
      modifies this
      ensures Valid()
      ensures currentIndex == PrevIndex(old(currentIndex), slideCount)
      ensures isAutoPlaying == old(isAutoPlaying)
    {
      currentIndex := (currentIndex - 1 + slideCount) % slideCount;
    }

    /** An indicator button: there is one per slide. */
    method GoTo(index: nat)
      requires Valid() && index < slideCount
      modifies this
      ensures Valid()
      ensures currentIndex == index && isAutoPlaying == old(isAutoPlaying)
    {
      currentIndex := index;
    }

    /** A tick of the interval timer, which exists only while it runs. */
    method Tick()
      requires Valid() && TimerRunning()
      modifies this
      ensures Valid()
      ensures currentIndex == NextIndex(old(currentIndex), slideCount) && isAutoPlaying
    {
      Next();
    }

    /** The mouse enters: auto-play stops, and with it the timer. */
    method Pause()
      requires Valid()
      modifies this
      ensures Valid()
      ensures !isAutoPlaying && !TimerRunning() && currentIndex == old(currentIndex)
    {
      isAutoPlaying := false;
    }

    /** The mouse leaves: auto-play resumes exactly when the interval is positive. */
    method Resume()
      requires Valid()
      modifies this
      ensures Valid()
      ensures isAutoPlaying == (autoPlayInterval > 0) && TimerRunning() == (autoPlayInterval > 0)
      ensures currentIndex == old(currentIndex)
    {
      isAutoPlaying := autoPlayInterval > 0;
    }
  }
}
