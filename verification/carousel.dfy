/** The customer-review carousel (components/customer-reviews.tsx): a current
    index over the five reviews and an autoplay flag. The four-second interval
    is an explicit `Tick` event. */
module Carousel {
  import opened WrapIndex

  /** `reviews.length`. */
  const ReviewCount := 5

  datatype CarouselState = CarouselState(index: int, autoPlaying: bool)

  datatype CarouselEvent =
    | PreviousSlide     // left arrow
    | NextSlide         // right arrow
    | GoToSlide(k: int) // a dot
    | Tick              // the autoplay interval firing

  /** The first review, autoplay on. */
  const Initial := CarouselState(0, true)

  predicate InRange(s: CarouselState) {
    0 <= s.index < ReviewCount
  }

  /** One event. The interval exists only while autoplay is on, so a tick
      without autoplay changes nothing; every button stops autoplay. */
  function Step(s: CarouselState, e: CarouselEvent): (r: CarouselState)
    ensures e.Tick? && !s.autoPlaying ==> r == s
    ensures e.Tick? && s.autoPlaying ==> r.autoPlaying && r.index == Next(s.index, ReviewCount)
    ensures !e.Tick? ==> !r.autoPlaying
    ensures e.GoToSlide? ==> r.index == e.k
    ensures e.NextSlide? && InRange(s) ==> r.index == (s.index + 1) % ReviewCount
    ensures e.PreviousSlide? && InRange(s) ==> r.index == if s.index == 0 then ReviewCount - 1 else s.index - 1
    ensures InRange(s) && (e.GoToSlide? ==> 0 <= e.k < ReviewCount) ==> InRange(r)
  {
    match e
    case PreviousSlide => CarouselState(Prev(s.index, ReviewCount), false)
    case NextSlide => CarouselState(Next(s.index, ReviewCount), false)
    case GoToSlide(k) => CarouselState(k, false)
    case Tick => if s.autoPlaying then s.(index := Next(s.index, ReviewCount)) else s
  }

  /** The dots pass their own positions, so every slide index stays in range. */
  predicate DotEvent(e: CarouselEvent) {
    e.GoToSlide? ==> 0 <= e.k < ReviewCount
  }

  function Run(s: CarouselState, events: seq<CarouselEvent>): CarouselState
    decreases |events|
  {
    if |events| == 0 then s else Run(Step(s, events[0]), events[1..])
  }

  /** From any state on a review, any run of clicks and ticks keeps the index on
      a review, and after any click autoplay stays off. */
  lemma {:induction false} RunKeepsIndexInRange(s: CarouselState, events: seq<CarouselEvent>)
    requires InRange(s)
    requires forall i | 0 <= i < |events| :: DotEvent(events[i])
    ensures InRange(Run(s, events))
    ensures !s.autoPlaying ==> !Run(s, events).autoPlaying
    decreases |events|
  {
    if |events| > 0 {
      RunKeepsIndexInRange(Step(s, events[0]), events[1..]);
    }
  }

  /** From the first review with autoplay on, as the component mounts, every
      run of clicks and ticks stays on one of the five reviews. */
  lemma RunFromInitial(events: seq<CarouselEvent>)
    requires forall i | 0 <= i < |events| :: DotEvent(events[i])
    ensures InRange(Run(Initial, events))
  {
    RunKeepsIndexInRange(Initial, events);
  }

  /** Five ticks of autoplay show every review once and return to the start. */
  lemma AutoplayCycles(i: int)
    requires 0 <= i < ReviewCount
    ensures Run(CarouselState(i, true), [Tick, Tick, Tick, Tick, Tick]) == CarouselState(i, true)
  {
    FullCycle(i, ReviewCount);
  }
}
