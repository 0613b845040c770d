/**
 * The slide-in "request a sample" panel: opening saves the focused element
 * and locks page scrolling, closing restores both, and while the panel is
 * open a key handler closes it on Escape and keeps Tab inside it.
 */
module SamplePanel {
  import opened Optional
  import opened Text

  /** A DOM element, by identity. */
  type Element = nat

  /** No element occurs twice: `querySelectorAll` yields each node once. */
  predicate Distinct(f: seq<Element>)
  {
    forall j, k :: 0 <= j < k < |f| ==> f[j] != f[k]
  }

  /** `Array.prototype.indexOf`: the first position of x, or -1. */
  function IndexOf(f: seq<Element>, x: Element): (r: int)
    ensures -1 <= r < |f|
    ensures r == -1 <==> x !in f
    ensures 0 <= r ==> f[r] == x && x !in f[..r]
  {
    if f == [] then -1
    else if f[0] == x then 0
    else
      var r := IndexOf(f[1..], x);
      if r == -1 then -1
      else
        assert f[..r + 1] == [f[0]] + f[1..][..r];
        r + 1
  }

  /** Where focus is after the trap, and whether it cancelled the key's default action. */
  datatype Trap = Trap(focus: Element, prevented: bool)

  /**
   * `trapFocus`: `focusable` are the panel's visible focusable elements in
   * document order, `active` the focused element and `inside` the elements
   * the panel contains.
   */
  function TrapFocus(isOpen: bool, focusable: seq<Element>, active: Element,
                     inside: set<Element>, key: string, shift: bool): (r: Trap)
    ensures !isOpen || focusable == [] ==> r == Trap(active, false)
    ensures r.focus == active || r.focus in focusable
    ensures r.prevented ==> key == "Tab" && active in inside && r.focus in focusable
  {
    if !isOpen || focusable == [] then Trap(active, false)
    else if active !in inside then Trap(focusable[0], false)
    else if key == "Tab" then
      var idx := IndexOf(focusable, active);
      if shift && idx == 0 then Trap(focusable[|focusable| - 1], true)
      else if !shift && idx == |focusable| - 1 then Trap(focusable[0], true)
      else Trap(active, false)
    else Trap(active, false)
  }

  /**
   * Where focus ends up after Tab (or Shift+Tab) on f[i]: the trap's
   * choice when it cancels the key, and otherwise the browser's own move to
   * the next (or previous) focusable element, the panel's focusable
   * elements being consecutive in tab order.
   */
  function FocusAfterTab(f: seq<Element>, i: nat, inside: set<Element>, shift: bool): Element
    requires i < |f|
  {
    var t := TrapFocus(true, f, f[i], inside, "Tab", shift);
    if t.prevented then t.focus
    else if shift then (if 0 < i then f[i - 1] else t.focus)
    else (if i + 1 < |f| then f[i + 1] else t.focus)
  }

  /** In a list without repeats an element's first position is its position. */
  lemma IndexOfDistinct(f: seq<Element>, i: nat)
    requires Distinct(f) && i < |f|
    ensures IndexOf(f, f[i]) == i
  {
  }

  /** The cyclic neighbour of position i: the next one, or with Shift the previous one. */
  function Neighbour(n: nat, i: nat, shift: bool): nat
    requires i < n
  {
    if shift then (if i == 0 then n - 1 else i - 1)
    else (if i + 1 == n then 0 else i + 1)
  }

  /**
   * With the trap in place Tab and Shift+Tab cycle through the panel's
   * focusable elements: the last wraps to the first and the first to the
   * last, and the browser is left to move focus only where it stays in the
   * list.
   */
  lemma TabCycles(f: seq<Element>, i: nat, inside: set<Element>, shift: bool)
    requires Distinct(f) && i < |f| && f[i] in inside
    ensures var t := TrapFocus(true, f, f[i], inside, "Tab", shift);
      && (!t.prevented ==> t.focus == f[i] && (if shift then 0 < i else i + 1 < |f|))
      && FocusAfterTab(f, i, inside, shift) == f[Neighbour(|f|, i, shift)]
  {
    IndexOfDistinct(f, i);
  }

  /** Focus outside the open panel is pulled to its first focusable element. */
  lemma TrapPullsFocusIn(f: seq<Element>, active: Element, inside: set<Element>, key: string, shift: bool)
    requires f != [] && active !in inside
    ensures TrapFocus(true, f, active, inside, key, shift) == Trap(f[0], false)
  {
  }

  /**
   * A Tab from an element inside the panel that is not in the focusable list
   * (`indexOf` gives -1) is left to the browser.
   */
  lemma TrapIgnoresUnlisted(f: seq<Element>, active: Element, inside: set<Element>, shift: bool)
    requires active in inside && active !in f
    ensures TrapFocus(true, f, active, inside, "Tab", shift) == Trap(active, false)
  {
    if f != [] {
      assert IndexOf(f, active) == -1;
    }
  }

  /** A Tab away from the list's ends is left to the browser. */
  lemma TrapLeavesInnerTabs(f: seq<Element>, i: nat, inside: set<Element>, shift: bool)
    requires Distinct(f) && i < |f| && f[i] in inside
    requires if shift then 0 < i else i + 1 < |f|
    ensures TrapFocus(true, f, f[i], inside, "Tab", shift) == Trap(f[i], false)
  {
    TabCycles(f, i, inside, shift);
  }

  // ---------------------------------------------------------------------
  // The request form inside the panel
  // ---------------------------------------------------------------------

  datatype RequestReply = MissingFields | RequestSent

  /** The form's submit check: both name and e-mail must be non-blank. */
  function RequestReplyFor(name: string, email: string): RequestReply
  {
    if Trim(name) == "" || Trim(email) == "" then MissingFields else RequestSent
  }

  function Feedback(r: RequestReply): string
  {
    match r
    case MissingFields => "Please fill name and email."
    case RequestSent => "Request sent \U{2014} we will contact you shortly."
  }

  /** A request is sent exactly when neither the name nor the e-mail is blank. */
  lemma RequestSentIff(name: string, email: string)
    ensures RequestReplyFor(name, email) == RequestSent <==> !AllSpace(name) && !AllSpace(email)
  {
    TrimEmptyIff(name);
    TrimEmptyIff(email);
  }

  // ---------------------------------------------------------------------
  // The panel
  // ---------------------------------------------------------------------

  class Panel {
    /** The elements the panel contains (`panel.contains`), the panel included. */
    const inside: set<Element>
    /** `panel.querySelector(FOCUS_SELECTORS)`: its first focusable descendant, if any. */
    const firstFocusable: Option<Element>
    /** The `open` class. */
    var isOpen: bool
    var ariaHidden: string
    /** The document's and the body's overflow are 'hidden'. */
    var scrollLocked: bool
    var lastActive: Option<Element>
    /** `document.activeElement`. */
    var active: Element
    /** `onKeyDown` and `onDocumentFocus` are registered on the document. */
    var listening: bool
    /** The 120 ms focus timeouts that `openSample` set and that have not run. */
    var focusTimers: nat
    /** The 900 ms close timeouts that an accepted request set and that have not run. */
    var requestTimers: nat

    ghost predicate Valid()
      reads this
    {
      && (firstFocusable.Some? ==> firstFocusable.value in inside)
      && listening == isOpen
      && scrollLocked == isOpen
      && (isOpen ==> ariaHidden == "false")
    }

    /** The panel as the markup leaves it: closed, with the given `aria-hidden`. */
    constructor (inside: set<Element>, firstFocusable: Option<Element>, ariaHidden: string, active: Element)
      requires firstFocusable.Some? ==> firstFocusable.value in inside
      ensures Valid() && !isOpen && lastActive.None?
      ensures this.inside == inside && this.firstFocusable == firstFocusable
      ensures this.ariaHidden == ariaHidden && this.active == active
      ensures focusTimers == 0 && requestTimers == 0
    {
      this.inside, this.firstFocusable := inside, firstFocusable;
      this.ariaHidden, this.active := ariaHidden, active;
      isOpen, scrollLocked, lastActive, listening := false, false, None, false;
      focusTimers, requestTimers := 0, 0;
    }

    /** `openSample`: a no-op on an open panel, so the saved focus is kept. */
    method Open()
      requires Valid()
      modifies this
      ensures Valid()
      ensures old(isOpen) ==> unchanged(this)
      ensures !old(isOpen) ==>
        && isOpen && ariaHidden == "false" && scrollLocked && listening
        && lastActive == Some(old(active)) && active == old(active)
        && focusTimers == old(focusTimers) + 1 && requestTimers == old(requestTimers)
    {
      if isOpen {
        return;
      }
      lastActive := Some(active);
      isOpen := true;
      ariaHidden := "false";
      scrollLocked := true;
      focusTimers := focusTimers + 1;
      listening := true;
    }

    /** `closeSample`: a no-op on a closed panel; otherwise focus goes back to `lastActive`. */
    method Close()
      requires Valid()
      modifies this
      ensures Valid()
      ensures !old(isOpen) ==> unchanged(this)
      ensures old(isOpen) ==>
        && !isOpen && ariaHidden == "true" && !scrollLocked && !listening
        && active == (if old(lastActive).Some? then old(lastActive).value else old(active))
        && lastActive == old(lastActive)
        && focusTimers == old(focusTimers) && requestTimers == old(requestTimers)
    {
      if !isOpen {
        return;
      }
      isOpen := false;
      ariaHidden := "true";
      scrollLocked := false;
      if lastActive.Some? {
        // the focus listener is still registered, but the panel no longer has its class
        active := lastActive.value;
      }
      listening := false;
    }

    /** A 120 ms timeout set by `openSample` runs, whether or not the panel is still open. */
    method FocusTimerFires()
      requires Valid() && focusTimers > 0
      modifies this
      ensures Valid()
      ensures focusTimers == old(focusTimers) - 1
      ensures active == (if firstFocusable.Some? then firstFocusable.value else old(active))
      ensures isOpen == old(isOpen) && lastActive == old(lastActive) && requestTimers == old(requestTimers)
      ensures ariaHidden == old(ariaHidden)
    {
      focusTimers := focusTimers - 1;
      if firstFocusable.Some? {
        active := firstFocusable.value;
      }
    }

    /**
     * Focus moves to `target` by any means; `onDocumentFocus`, while it is
     * registered and the panel is open, pulls focus that leaves the panel back
     * to the panel's first focusable element.
     */
    method FocusMoved(target: Element)
      requires Valid()
      modifies this
      ensures Valid()
      ensures active == (if isOpen && target !in inside && firstFocusable.Some?
                         then firstFocusable.value else target)
      ensures isOpen == old(isOpen) && lastActive == old(lastActive) && ariaHidden == old(ariaHidden)
      ensures focusTimers == old(focusTimers) && requestTimers == old(requestTimers)
    {
      active := target;
      if listening && isOpen && target !in inside && firstFocusable.Some? {
        active := firstFocusable.value;
      }
    }

    /**
     * A key goes down anywhere in the document. While the panel listens,
     * Escape closes it and Tab goes through `trapFocus` with the panel's
     * visible focusable elements `focusable`.
     */
    method KeyDown(key: string, shift: bool, focusable: seq<Element>) returns (prevented: bool)
      requires Valid()
      requires forall k :: 0 <= k < |focusable| ==> focusable[k] in inside
      modifies this
      ensures Valid()
      ensures !old(listening) ==> unchanged(this) && !prevented
      ensures old(listening) && key == "Escape" ==>
        && prevented && !isOpen && ariaHidden == "true" && !scrollLocked && !listening
        && active == (if old(lastActive).Some? then old(lastActive).value else old(active))
        && lastActive == old(lastActive)
        && focusTimers == old(focusTimers) && requestTimers == old(requestTimers)
      ensures old(listening) && key == "Tab" ==>
        var t := TrapFocus(old(isOpen), focusable, old(active), inside, key, shift);
        && active == t.focus && prevented == t.prevented
        && isOpen == old(isOpen) && ariaHidden == old(ariaHidden) && scrollLocked == old(scrollLocked)
        && listening == old(listening) && lastActive == old(lastActive)
        && focusTimers == old(focusTimers) && requestTimers == old(requestTimers)
      ensures old(listening) && key != "Escape" && key != "Tab" ==> unchanged(this) && !prevented
    {
      prevented := false;
      if !listening {
        return;
      }
      if key == "Escape" {
        prevented := true;
        Close();
        return;
      }
      if key == "Tab" {
        var t := TrapFocus(isOpen, focusable, active, inside, key, shift);
        // moving focus into the panel does not wake onDocumentFocus
        active := t.focus;
        prevented := t.prevented;
      }
    }

    /** The request form is submitted: a sent request closes the panel 900 ms later. */
    method SubmitRequest(name: string, email: string) returns (feedback: string)
      requires Valid()
      modifies this
      ensures Valid()
      ensures feedback == Feedback(RequestReplyFor(name, email))
      ensures requestTimers == old(requestTimers) + (if RequestReplyFor(name, email) == RequestSent then 1 else 0)
      ensures isOpen == old(isOpen) && active == old(active) && lastActive == old(lastActive)
      ensures focusTimers == old(focusTimers) && ariaHidden == old(ariaHidden)
    {
      var reply := RequestReplyFor(name, email);
      feedback := Feedback(reply);
      if reply == RequestSent {
        requestTimers := requestTimers + 1;
      }
    }

    /** A 900 ms timeout set by an accepted request runs: the form resets and the panel closes. */
    method RequestTimerFires()
      requires Valid() && requestTimers > 0
      modifies this
      ensures Valid() && !isOpen
      ensures requestTimers == old(requestTimers) - 1
      ensures old(isOpen) ==>
        && ariaHidden == "true" && !scrollLocked && !listening
        && active == (if old(lastActive).Some? then old(lastActive).value else old(active))
        && lastActive == old(lastActive) && focusTimers == old(focusTimers)
      ensures !old(isOpen) ==>
        && ariaHidden == old(ariaHidden) && scrollLocked == old(scrollLocked)
        && listening == old(listening) && active == old(active)
        && lastActive == old(lastActive) && focusTimers == old(focusTimers)
    {
      requestTimers := requestTimers - 1;
      Close();
    }
  }
}
