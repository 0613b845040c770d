/**
 * The FAQ accordion. Each question button's `aria-expanded` says whether
 * its answer panel is open; the panel's `hidden` flag is what actually
 * hides it. With reduced motion both change in the same step. Otherwise
 * opening shows the panel at once and animates its height, and closing
 * animates the height to zero and leaves the hiding to a "tidy" listener
 * for the panel's `transitionend`, registered with `{ once: true }`.
 */
module Faq {
  import opened Optional

  /** The two tidy listeners: the one `open` registers and the one `close` registers. */
  datatype Tidy = OpenTidy | CloseTidy

  /**
   * One item: `expanded` is `aria-expanded === 'true'` on the button,
   * `hidden` the panel's flag, and `tidies` the tidy listeners still
   * registered on the panel, in registration order.
   */
  datatype Item = Item(expanded: bool, hidden: bool, tidies: seq<Tidy>)

  /** Set-up: `aria-expanded` is kept from the markup ('false' when absent), and the panel is hidden. */
  function Init(markup: Option<string>): (p: Item)
    ensures p.hidden && p.tidies == []
    ensures p.expanded <==> markup == Some("true")
  {
    var attr := if markup.Some? then markup.value else "false";
    Item(attr == "true", true, [])
  }

  /** A tidy listener gets past its guard: the event is for `height`, or names no property. */
  predicate TidyActs(prop: string)
  {
    prop == "" || prop == "height"
  }

  /** Button and panel agree, with no tidy left to run. */
  predicate Agrees(p: Item)
  {
    p.tidies == [] && p.hidden == !p.expanded
  }

  /** An item as set up agrees with its panel unless the markup already said 'true'. */
  lemma InitAgrees(markup: Option<string>)
    ensures Agrees(Init(markup)) <==> markup != Some("true")
  {
  }

  // ---------------------------------------------------------------------
  // As written
  // ---------------------------------------------------------------------

  /** `open(panel, btn)`. */
  function OpenAsWritten(reduced: bool, p: Item): Item
  {
    if reduced then Item(true, false, p.tidies)
    else Item(true, false, p.tidies + [OpenTidy])
  }

  /** `close(panel, btn)`: when animated, the panel stays visible until its tidy runs. */
  function CloseAsWritten(reduced: bool, p: Item): Item
  {
    if reduced then Item(false, true, p.tidies)
    else Item(false, p.hidden, p.tidies + [CloseTidy])
  }

  /** `toggle(item, btn, panel)` (`singleOpen` is the constant false). */
  function ToggleAsWritten(reduced: bool, p: Item): Item
  {
    if p.expanded then CloseAsWritten(reduced, p) else OpenAsWritten(reduced, p)
  }

  /**
   * A `transitionend` on the panel, for CSS property `prop`. Every tidy is a
   * `once` listener, so the browser removes all of them before calling them,
   * whether or not they get past their guard; a close tidy that does hides
   * the panel.
   */
  function TransitionEndAsWritten(p: Item, prop: string): (q: Item)
    ensures q.tidies == [] && q.expanded == p.expanded
    ensures !TidyActs(prop) ==> q.hidden == p.hidden
  {
    Item(p.expanded, p.hidden || (TidyActs(prop) && CloseTidy in p.tidies), [])
  }

  /** Transition ends for the properties in `props`, in order. */
  function EndsAsWritten(p: Item, props: seq<string>): Item
    decreases |props|
  {
    if props == [] then p else EndsAsWritten(TransitionEndAsWritten(p, props[0]), props[1..])
  }

  /**
   * With animation, closing an open item never hides its panel when the
   * first transition to end is not the height one: the opacity transition
   * (200 ms against 260 ms for the height) ends first and uses up the tidy.
   */
  lemma {:induction false} AsWrittenCloseNeverHides(p: Item, props: seq<string>)
    requires p.expanded && !p.hidden
    requires props != [] && !TidyActs(props[0])
    ensures var q := EndsAsWritten(ToggleAsWritten(false, p), props);
      !q.expanded && !q.hidden && q.tidies == []
  {
    var c := ToggleAsWritten(false, p);
    var first := TransitionEndAsWritten(c, props[0]);
    assert !first.expanded && !first.hidden && first.tidies == [];
    EndsKeepHidden(first, props[1..]);
  }

  /** Once no tidy is registered, transition ends change nothing. */
  lemma {:induction false} EndsKeepHidden(p: Item, props: seq<string>)
    requires p.tidies == []
    ensures EndsAsWritten(p, props) == p
    decreases |props|
  {
    if props != [] {
      assert TransitionEndAsWritten(p, props[0]) == p;
      EndsKeepHidden(p, props[1..]);
    }
  }

  /**
   * Open, let both transitions end, close, let both end: the button says
   * collapsed while the panel is not hidden.
   */
  lemma AsWrittenOpenClose()
    ensures var p0 := Item(false, true, []);
      var p1 := EndsAsWritten(ToggleAsWritten(false, p0), ["opacity", "height"]);
      var p2 := EndsAsWritten(ToggleAsWritten(false, p1), ["opacity", "height"]);
      !p2.expanded && !p2.hidden && !Agrees(p2)
  {
    var p0 := Item(false, true, []);
    var p1 := EndsAsWritten(ToggleAsWritten(false, p0), ["opacity", "height"]);
    EndsKeepHidden(TransitionEndAsWritten(ToggleAsWritten(false, p0), "opacity"), ["height"]);
    assert p1 == Item(true, false, []);
    AsWrittenCloseNeverHides(p1, ["opacity", "height"]);
  }

  // ---------------------------------------------------------------------
  // Corrected: a tidy waits for the height transition, and a new toggle
  // replaces the tidy of the animation it interrupts
  // ---------------------------------------------------------------------

  /**
   * The states the corrected accordion moves through: settled and agreeing,
   * opening (shown, tidy pending), or closing (still shown, tidy pending).
   */
  predicate InStep(p: Item)
  {
    || Agrees(p)
    || (p.tidies == [OpenTidy] && p.expanded && !p.hidden)
    || (p.tidies == [CloseTidy] && !p.expanded && !p.hidden)
  }

  function Open(reduced: bool, p: Item): (q: Item)
    ensures q.expanded && !q.hidden
    ensures InStep(q) && (reduced ==> Agrees(q))
    ensures !reduced ==> q.tidies == [OpenTidy]
  {
    if reduced then Item(true, false, []) else Item(true, false, [OpenTidy])
  }

  function Close(reduced: bool, p: Item): (q: Item)
    ensures !q.expanded
    ensures InStep(p) && p.expanded ==> InStep(q)
    ensures reduced ==> Agrees(q)
    ensures !reduced ==> q.tidies == [CloseTidy] && q.hidden == p.hidden
  {
    if reduced then Item(false, true, []) else Item(false, p.hidden, [CloseTidy])
  }

  function Toggle(reduced: bool, p: Item): (q: Item)
    ensures q.expanded == !p.expanded
    ensures InStep(p) ==> InStep(q)
    ensures reduced ==> Agrees(q)
  {
    if p.expanded then Close(reduced, p) else Open(reduced, p)
  }

  /** The pending tidy runs only on the height transition, and only then is it removed. */
  function AfterTransitionEnd(p: Item, prop: string): (q: Item)
    ensures q.expanded == p.expanded
    ensures InStep(p) ==> InStep(q)
    ensures InStep(p) && TidyActs(prop) ==> Agrees(q)
  {
    if !TidyActs(prop) then p
    else Item(p.expanded, p.hidden || CloseTidy in p.tidies, [])
  }

  /**
   * Why the corrected toggle replaces the pending tidy instead of adding one
   * beside it, as the code does: once a tidy waits for the height
   * transition, closing and then reopening before that transition ends
   * would leave the stale close tidy to hide the reopened panel.
   */
  lemma WaitingTidyMustBeReplaced()
    ensures var open := Item(true, false, []);
      var p := AfterTransitionEnd(OpenAsWritten(false, CloseAsWritten(false, open)), "height");
      p.expanded && p.hidden && !InStep(p)
  {
  }

  datatype Event = Click | TransitionEnded(prop: string)

  function Step(reduced: bool, p: Item, e: Event): Item
  {
    match e
    case Click => Toggle(reduced, p)
    case TransitionEnded(prop) => AfterTransitionEnd(p, prop)
  }

  function Run(reduced: bool, p: Item, events: seq<Event>): Item
    decreases |events|
  {
    if events == [] then p else Run(reduced, Step(reduced, p, events[0]), events[1..])
  }

  /**
   * In the corrected accordion `aria-expanded` and `hidden` agree whenever
   * the last height transition has ended, and at every step with reduced
   * motion.
   */
  lemma {:induction false} RunInStep(reduced: bool, p: Item, events: seq<Event>)
    requires InStep(p)
    requires reduced ==> Agrees(p)
    ensures InStep(Run(reduced, p, events))
    ensures reduced ==> Agrees(Run(reduced, p, events))
    ensures Run(reduced, p, events).tidies == [] ==> Agrees(Run(reduced, p, events))
    decreases |events|
  {
    if events != [] {
      var q := Step(reduced, p, events[0]);
      assert reduced && events[0].TransitionEnded? ==> q == p || Agrees(q);
      RunInStep(reduced, q, events[1..]);
    }
  }

  /** A run of the code as written. */
  function RunAsWritten(reduced: bool, p: Item, events: seq<Event>): Item
    decreases |events|
  {
    if events == [] then p
    else
      var q := match events[0]
        case Click => ToggleAsWritten(reduced, p)
        case TransitionEnded(prop) => TransitionEndAsWritten(p, prop);
      RunAsWritten(reduced, q, events[1..])
  }

  /** With reduced motion and no tidy registered, the code's toggle is the corrected one. */
  lemma ReducedAsWrittenIsCorrected(p: Item)
    requires p.tidies == []
    ensures ToggleAsWritten(true, p) == Toggle(true, p)
  {
  }

  /**
   * With reduced motion the code as written needs no correction: from an
   * agreeing item, every run of clicks and transition ends is the corrected
   * run, and button and panel agree after every step.
   */
  lemma {:induction false} ReducedRunAsWritten(p: Item, events: seq<Event>)
    requires Agrees(p)
    ensures RunAsWritten(true, p, events) == Run(true, p, events)
    ensures Agrees(RunAsWritten(true, p, events))
    decreases |events|
  {
    if events != [] {
      var q := Step(true, p, events[0]);
      if events[0].Click? {
        ReducedAsWrittenIsCorrected(p);
      } else {
        assert TransitionEndAsWritten(p, events[0].prop) == p == q;
      }
      ReducedRunAsWritten(q, events[1..]);
    }
  }

  /** One FAQ item, with the corrected behaviour. */
  class FaqItem {
    const reduced: bool
    var expanded: bool
    var hidden: bool
    var tidies: seq<Tidy>

    function State(): Item
      reads this
    {
      Item(expanded, hidden, tidies)
    }

    constructor (markup: Option<string>, reduced: bool)
      ensures this.reduced == reduced && State() == Init(markup)
    {
      this.reduced := reduced;
      expanded := markup == Some("true");
      hidden := true;
      tidies := [];
    }

    method Click()
      modifies this
      ensures State() == Toggle(reduced, old(State()))
    {
      if expanded {
        expanded := false;
        if reduced {
          hidden := true;
          tidies := [];
        } else {
          tidies := [CloseTidy];
        }
      } else {
        expanded := true;
        hidden := false;
        tidies := if reduced then [] else [OpenTidy];
      }
    }

    /** Enter, Space (by key or by code) toggles; other keys do nothing. */
    method KeyDown(key: string, code: string)
      modifies this
      ensures key == "Enter" || key == " " || code == "Space" ==> State() == Toggle(reduced, old(State()))
      ensures !(key == "Enter" || key == " " || code == "Space") ==> State() == old(State())
    {
      if key == "Enter" || key == " " || code == "Space" {
        Click();
      }
    }

    method TransitionEnd(prop: string)
      modifies this
      ensures State() == AfterTransitionEnd(old(State()), prop)
    {
      if TidyActs(prop) {
        hidden := hidden || CloseTidy in tidies;
        tidies := [];
      }
    }
  }
}
