/**
 * The testimonial slider: an autoplay timer moves a track of slides one
 * slide to the left at a time; a clone of the first slide sits after the
 * last one, and when the clone is in view a one-off `transitionend`
 * listener snaps the track back to slide 0 without animation.
 */
module Testimonials {

  /**
   * The slider's state: the closure variables `index` and `isPaused`, the
   * track's translation in percent (`translateX(-offset%)`), and whether
   * `onTransitionEnd` is registered on the track.
   */
  datatype Slider = Slider(index: nat, offset: nat, snapArmed: bool, paused: bool)

  /** What every reachable state satisfies, for a track of n original slides. */
  predicate Coherent(n: nat, s: Slider)
  {
    && n > 0
    && s.offset == 100 * s.index
    && (s.snapArmed <==> s.index >= n)
  }

  /** The state right after setup: slide 0, nothing armed, playing. */
  function Initial(): (s: Slider)
    ensures s.index == 0 && s.offset == 0 && !s.snapArmed && !s.paused
    ensures forall n: nat :: n > 0 ==> Coherent(n, s)
  {
    Slider(0, 0, false, false)
  }

  /** `next()`: one slide further; arm the snap-back when the clone comes into view. */
  function Advance(n: nat, s: Slider): (t: Slider)
    ensures t.index == s.index + 1 && t.paused == s.paused
    ensures Coherent(n, s) ==> Coherent(n, t)
  {
    var i := s.index + 1;
    Slider(i, 100 * i, s.snapArmed || i == n, s.paused)
  }

  /** `onTransitionEnd()`: back to slide 0, and the listener removes itself. */
  function SnapBack(s: Slider): (t: Slider)
    ensures t.index == 0 && t.offset == 0 && !t.snapArmed && t.paused == s.paused
  {
    Slider(0, 0, false, s.paused)
  }

  /** The interval callback: `if (!isPaused) next()`. */
  function AfterTick(n: nat, s: Slider): (t: Slider)
    ensures s.paused ==> t == s
    ensures !s.paused ==> t.index == s.index + 1
    ensures Coherent(n, s) ==> Coherent(n, t)
  {
    if s.paused then s else Advance(n, s)
  }

  /** A `transitionend` on the track reaches `onTransitionEnd` only while it is registered. */
  function AfterTransitionEnd(s: Slider): (t: Slider)
    ensures !s.snapArmed ==> t == s
    ensures s.snapArmed ==> t.index == 0 && !t.snapArmed
  {
    if s.snapArmed then SnapBack(s) else s
  }

  datatype Event =
    | TimerTick
    | TrackTransitionEnd
    | MouseEnter
    | MouseLeave
    | VisibilityChange(hidden: bool)

  function Step(n: nat, s: Slider, e: Event): Slider
  {
    match e
    case TimerTick => AfterTick(n, s)
    case TrackTransitionEnd => AfterTransitionEnd(s)
    case MouseEnter => s.(paused := true)
    case MouseLeave => s.(paused := false)
    case VisibilityChange(hidden) => s.(paused := hidden)
  }

  function Run(n: nat, s: Slider, events: seq<Event>): Slider
    decreases |events|
  {
    if events == [] then s else Run(n, Step(n, s, events[0]), events[1..])
  }

  /**
   * The schedule lets every armed snap-back happen before the next tick
   * that would move the track: no unpaused tick while the listener waits.
   */
  predicate Orderly(n: nat, s: Slider, events: seq<Event>)
    decreases |events|
  {
    if events == [] then true
    else
      && (events[0] == TimerTick && !s.paused ==> !s.snapArmed)
      && Orderly(n, Step(n, s, events[0]), events[1..])
  }

  /** Every event keeps the state coherent. */
  lemma {:induction false} RunCoherent(n: nat, s: Slider, events: seq<Event>)
    requires Coherent(n, s)
    ensures Coherent(n, Run(n, s, events))
    decreases |events|
  {
    if events != [] {
      RunCoherent(n, Step(n, s, events[0]), events[1..]);
    }
  }

  /**
   * If every armed `transitionend` fires before the next tick, the index
   * never leaves [0, n]: the track shows an original slide or the clone.
   */
  lemma {:induction false} OrderlyRunStaysOnTrack(n: nat, s: Slider, events: seq<Event>)
    requires Coherent(n, s) && s.index <= n
    requires Orderly(n, s, events)
    ensures Run(n, s, events).index <= n
    decreases |events|
  {
    if events != [] {
      var t := Step(n, s, events[0]);
      assert Coherent(n, t) && t.index <= n;
      OrderlyRunStaysOnTrack(n, t, events[1..]);
    }
  }

  /** A tick that arrives while the snap-back is still armed moves past the clone. */
  lemma TickWhileArmedOverruns(n: nat, s: Slider)
    requires Coherent(n, s) && s.snapArmed && !s.paused
    ensures AfterTick(n, s).index == s.index + 1 > n
  {
  }

  /** k unpaused ticks, with no other event. */
  function Ticks(k: nat): (events: seq<Event>)
    ensures |events| == k && forall j :: 0 <= j < k ==> events[j] == TimerTick
  {
    if k == 0 then [] else [TimerTick] + Ticks(k - 1)
  }

  lemma {:induction false} TicksAdvance(n: nat, s: Slider, k: nat)
    requires Coherent(n, s) && !s.paused
    ensures var t := Run(n, s, Ticks(k));
      && t.index == s.index + k && Coherent(n, t) && !t.paused
    decreases k
  {
    if k > 0 {
      var t := Step(n, s, TimerTick);
      assert Ticks(k)[1..] == Ticks(k - 1);
      TicksAdvance(n, t, k - 1);
    }
  }

  lemma {:induction false} RunAppend(n: nat, s: Slider, a: seq<Event>, b: seq<Event>)
    ensures Run(n, s, a + b) == Run(n, Run(n, s, a), b)
    decreases |a|
  {
    if a != [] {
      assert (a + b)[0] == a[0] && (a + b)[1..] == a[1..] + b;
      RunAppend(n, Step(n, s, a[0]), a[1..], b);
    } else {
      assert a + b == b;
    }
  }

  /**
   * From any original slide, playing on until the clone is in view and
   * letting its transition end brings the slider back to slide 0.
   */
  lemma LoopsBackToStart(n: nat, s: Slider)
    requires Coherent(n, s) && s.index < n && !s.paused
    ensures var t := Run(n, s, Ticks(n - s.index) + [TrackTransitionEnd]);
      && t.index == 0 && t.offset == 0 && !t.snapArmed
  {
    TicksAdvance(n, s, n - s.index);
    RunAppend(n, s, Ticks(n - s.index), [TrackTransitionEnd]);
  }

  /** The slider over the live track; the fields are the closure's state. */
  class Carousel {
    const slideCount: nat
    var index: nat
    var offset: nat
    var snapArmed: bool
    var isPaused: bool

    function State(): Slider
      reads this
    {
      Slider(index, offset, snapArmed, isPaused)
    }

    ghost predicate Valid()
      reads this
    {
      Coherent(slideCount, State())
    }

    constructor (slideCount: nat)
      requires slideCount > 0
      ensures Valid() && this.slideCount == slideCount && State() == Initial()
    {
      this.slideCount := slideCount;
      index, offset, snapArmed, isPaused := 0, 0, false, false;
    }

    /** Setup: nothing happens for an empty track; otherwise the clone is added and autoplay starts. */
    static method Setup(slideCount: nat) returns (c: Carousel?)
      ensures c == null <==> slideCount == 0
      ensures c != null ==> fresh(c) && c.Valid() && c.slideCount == slideCount && c.State() == Initial()
    {
      if slideCount == 0 {
        return null;
      }
      c := new Carousel(slideCount);
    }

    method Next()
      requires Valid()
      modifies this
      ensures Valid() && State() == Advance(slideCount, old(State()))
    {
      index := index + 1;
      offset := 100 * index;
      if index == slideCount {
        snapArmed := true;
      }
    }

    method OnTransitionEnd()
      requires Valid() && snapArmed
      modifies this
      ensures Valid() && State() == SnapBack(old(State()))
    {
      index := 0;
      offset := 0;
      snapArmed := false;
    }

    /** The interval timer fires. */
    method Tick()
      requires Valid()
      modifies this
      ensures Valid() && State() == AfterTick(slideCount, old(State()))
    {
      if !isPaused {
        Next();
      }
    }

    /** The track finishes a transition. */
    method TrackTransitionEnd()
      requires Valid()
      modifies this
      ensures Valid() && State() == AfterTransitionEnd(old(State()))
    {
      if snapArmed {
        OnTransitionEnd();
      }
    }

    method MouseEnter()
      requires Valid()
      modifies this
      ensures Valid() && State() == old(State()).(paused := true)
    {
      isPaused := true;
    }

    method MouseLeave()
      requires Valid()
      modifies this
      ensures Valid() && State() == old(State()).(paused := false)
    {
      isPaused := false;
    }

    method VisibilityChange(hidden: bool)
      requires Valid()
      modifies this
      ensures Valid() && State() == old(State()).(paused := hidden)
    {
      isPaused := hidden;
    }
  }
}
