/** The testimonial carousel: the index of the slide shown, moved by the previous and next
    buttons, the indicators and the autoplay timer, and kept inside the slide range by a
    wrap-around rule that clamps rather than taking a remainder. */
module Carousel {

  /** The index `updateIndex(i)` settles on for `count` slides: below 0 goes to the last
      slide, `count` or beyond goes to the first, and anything in between is kept. */
  function Wrap(count: int, i: int): (r: int)
    ensures count >= 1 ==> 0 <= r < count
    ensures 0 <= i < count ==> r == i
    ensures i < 0 ==> r == count - 1
    ensures 0 <= i && count <= i ==> r == 0
  {
    if i < 0 then count - 1
    else if i >= count then 0
    else i
  }

  /** Stepping back from the first slide lands on the last, stepping forward from the last
      lands on the first. */
  lemma WrapAtEnds(count: int)
    requires count >= 1
    ensures Wrap(count, 0 - 1) == count - 1
    ensures Wrap(count, (count - 1) + 1) == 0
  {
  }

  /** Any index at or past the end goes to slide 0, however far past it is: the rule is a
      clamp, not `i % count`. */
  lemma WrapClamps(count: int, k: int)
    requires count >= 0 && k >= 0
    ensures Wrap(count, count + k) == 0
  {
  }

  /** The index after `n` autoplay ticks from slide `i`. */
  function AfterTicks(count: int, i: int, n: nat): int
    decreases n
  {
    if n == 0 then i else AfterTicks(count, Wrap(count, i + 1), n - 1)
  }

  /** Ticks from a slide walk forward one slide at a time until the last slide. */
  lemma {:induction false} TicksWalkForward(count: int, i: int, n: nat)
    requires 0 <= i && i + n < count
    ensures AfterTicks(count, i, n) == i + n
    decreases n
  {
    if n > 0 {
      assert Wrap(count, i + 1) == i + 1;
      TicksWalkForward(count, i + 1, n - 1);
    }
  }

  /** Autoplay visits every slide in order and comes back to the first after `count` ticks. */
  lemma {:induction false} AutoplayCycles(count: int)
    requires count >= 1
    ensures forall j :: 0 <= j < count ==> AfterTicks(count, 0, j) == j
    ensures AfterTicks(count, 0, count) == 0
  {
    forall j | 0 <= j < count ensures AfterTicks(count, 0, j) == j {
      TicksWalkForward(count, 0, j);
    }
    TicksLeaveLast(count, 0, count - 1);
  }

  lemma {:induction false} TicksLeaveLast(count: int, i: int, n: nat)
    requires 0 <= i && i + n == count - 1
    ensures AfterTicks(count, i, n + 1) == 0
    decreases n
  {
    if n == 0 {
      assert Wrap(count, i + 1) == 0;
    } else {
      assert Wrap(count, i + 1) == i + 1;
      TicksLeaveLast(count, i + 1, n - 1);
    }
  }

  class TestimonialCarousel {
    /** `children.length`. */
    const count: int
    const autoPlay: bool
    var activeIndex: int
    var isPaused: bool

    /** Once there is a slide, the index names one. */
    predicate Valid()
      reads this
    {
      count >= 0 && (count >= 1 ==> 0 <= activeIndex < count)
    }

    constructor (slides: nat, autoplay: bool)
      ensures count == slides && autoPlay == autoplay
      ensures activeIndex == 0 && !isPaused
      ensures Valid()
    {
      count := slides;
      autoPlay := autoplay;
      activeIndex := 0;
      isPaused := false;
    }

    /** `updateIndex(newIndex)`. */
    method UpdateIndex(newIndex: int)
      requires Valid()
      modifies this
      ensures Valid()
      ensures activeIndex == Wrap(count, newIndex) && isPaused == old(isPaused)
    {
      var i := newIndex;
      if i < 0 {
        i := count - 1;
      } else if i >= count {
        i := 0;
      }
      activeIndex := i;
    }

    /** The previous-slide button. */
    method Prev()
      requires Valid()
      modifies this
      ensures Valid()
      ensures activeIndex == Wrap(count, old(activeIndex) - 1) && isPaused == old(isPaused)
    {
      UpdateIndex(activeIndex - 1);
    }

    /** The next-slide button. */
    method Next()
      requires Valid()
      modifies this
      ensures Valid()
      ensures activeIndex == Wrap(count, old(activeIndex) + 1) && isPaused == old(isPaused)
    {
      UpdateIndex(activeIndex + 1);
    }

    /** The indicator of slide `index`. */
    method Indicator(index: int)
      requires Valid() && 0 <= index < count
      modifies this
      ensures Valid()
      ensures activeIndex == index && isPaused == old(isPaused)
    {
      UpdateIndex(index);
    }

    /** One firing of the autoplay timer, which runs only while autoplay is on and the
        pointer is not over the carousel: the same step as the next button. */
    method Tick()
      requires Valid()
      modifies this
      ensures Valid()
      ensures activeIndex == (if autoPlay && !isPaused then Wrap(count, old(activeIndex) + 1) else old(activeIndex))
      ensures isPaused == old(isPaused)
    {
      if autoPlay && !isPaused {
        UpdateIndex(activeIndex + 1);
      }
    }

    /** The pointer enters or leaves the carousel. */
    method SetPaused(paused: bool)
      requires Valid()
      modifies this
      ensures Valid()
      ensures isPaused == paused && activeIndex == old(activeIndex)
    {
      isPaused := paused;
    }
  }
}
