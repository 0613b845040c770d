/**
 * The site header: the mobile overlay menu opened by the hamburger, the
 * mobile accordion items, the desktop drop-down menus with their delayed
 * close on pointer leave, and the Escape key that closes all of them.
 */
module Header {
  import opened Optional

  // ---------------------------------------------------------------------
  // Mobile overlay
  // ---------------------------------------------------------------------

  /**
   * What the overlay handlers set: the overlay's `open` class and
   * `aria-hidden`, the hamburger's `aria-expanded`, whether the body's
   * overflow is hidden, and whether the hamburger lines are drawn as a cross.
   */
  datatype OverlayView = OverlayView(
    open: bool, ariaHidden: string, expanded: string, scrollLocked: bool, crossed: bool)

  /** The overlay's attributes agree with its class (the hamburger's only when there is one). */
  predicate OverlayAgrees(hasHamburger: bool, v: OverlayView)
  {
    && v.ariaHidden == (if v.open then "false" else "true")
    && v.scrollLocked == v.open
    && (hasHamburger ==> v.expanded == (if v.open then "true" else "false") && v.crossed == v.open)
  }

  /** `openOverlay`. */
  function OverlayOpened(hasHamburger: bool, v: OverlayView): (w: OverlayView)
    ensures w.open && OverlayAgrees(hasHamburger, w)
    ensures !hasHamburger ==> w.expanded == v.expanded && w.crossed == v.crossed
  {
    OverlayView(true, "false",
      if hasHamburger then "true" else v.expanded, true,
      if hasHamburger then true else v.crossed)
  }

  /** `closeOverlay`. */
  function OverlayClosed(hasHamburger: bool, v: OverlayView): (w: OverlayView)
    ensures !w.open && OverlayAgrees(hasHamburger, w)
    ensures !hasHamburger ==> w.expanded == v.expanded && w.crossed == v.crossed
  {
    OverlayView(false, "true",
      if hasHamburger then "false" else v.expanded, false,
      if hasHamburger then false else v.crossed)
  }

  /** The hamburger's click handler. */
  function HamburgerClicked(hasHamburger: bool, v: OverlayView): OverlayView
  {
    if v.open then OverlayClosed(hasHamburger, v) else OverlayOpened(hasHamburger, v)
  }

  /**
   * A click on the hamburger flips the overlay, and a second click restores
   * everything. Only the case `hasHamburger` happens on a page: without a
   * hamburger no click listener is registered, and `MobileOverlay.HamburgerClick`
   * changes nothing.
   */
  lemma HamburgerTwice(hasHamburger: bool, v: OverlayView)
    requires OverlayAgrees(hasHamburger, v)
    ensures HamburgerClicked(hasHamburger, v).open == !v.open
    ensures HamburgerClicked(hasHamburger, HamburgerClicked(hasHamburger, v)) == v
  {
  }

  /** The overlay element, when the page has one. */
  class MobileOverlay {
    const hasHamburger: bool
    var open: bool
    var ariaHidden: string
    var expanded: string
    var scrollLocked: bool
    var crossed: bool

    function View(): OverlayView
      reads this
    {
      OverlayView(open, ariaHidden, expanded, scrollLocked, crossed)
    }

    /** The overlay as the markup has it; the handlers have not run yet. */
    constructor (hasHamburger: bool, markup: OverlayView)
      ensures this.hasHamburger == hasHamburger && View() == markup
    {
      this.hasHamburger := hasHamburger;
      open, ariaHidden, expanded, scrollLocked, crossed :=
        markup.open, markup.ariaHidden, markup.expanded, markup.scrollLocked, markup.crossed;
    }

    method Open()
      modifies this
      ensures View() == OverlayOpened(hasHamburger, old(View()))
    {
      open := true;
      ariaHidden := "false";
      if hasHamburger {
        expanded := "true";
      }
      scrollLocked := true;
      if hasHamburger {
        crossed := true;
      }
    }

    method Close()
      modifies this
      ensures View() == OverlayClosed(hasHamburger, old(View()))
    {
      open := false;
      ariaHidden := "true";
      if hasHamburger {
        expanded := "false";
      }
      scrollLocked := false;
      if hasHamburger {
        crossed := false;
      }
    }

    /** The hamburger's click listener (registered only when the hamburger exists). */
    method HamburgerClick()
      modifies this
      ensures hasHamburger ==> View() == HamburgerClicked(hasHamburger, old(View()))
      ensures !hasHamburger ==> View() == old(View())
    {
      if hasHamburger {
        if open {
          Close();
        } else {
          Open();
        }
      }
    }

    /** A click on the overlay closes it only when it lands on the backdrop itself. */
    method OverlayClick(onBackdrop: bool)
      modifies this
      ensures onBackdrop ==> View() == OverlayClosed(hasHamburger, old(View()))
      ensures !onBackdrop ==> View() == old(View())
    {
      if onBackdrop {
        Close();
      }
    }
  }

  // ---------------------------------------------------------------------
  // Mobile accordion: [data-toggle] and [data-subtoggle] buttons
  // ---------------------------------------------------------------------

  /** `classList.toggle('open')` on item i. */
  function Toggled(open: seq<bool>, i: nat): (r: seq<bool>)
    requires i < |open|
    ensures |r| == |open| && r[i] == !open[i]
    ensures forall j :: 0 <= j < |r| && j != i ==> r[j] == open[j]
  {
    open[i := !open[i]]
  }

  /** Toggling an accordion item twice returns the accordion to where it was. */
  lemma ToggledTwice(open: seq<bool>, i: nat)
    requires i < |open|
    ensures Toggled(Toggled(open, i), i) == open
  {
  }

  /** The `open` classes of the accordion's items (or of its sub-items). */
  class Accordion {
    const open: array<bool>

    constructor (markup: seq<bool>)
      ensures open[..] == markup && fresh(open)
    {
      open := new bool[|markup|](i requires 0 <= i < |markup| => markup[i]);
    }

    /**
     * A toggle button was clicked; `parent` is the item it sits in
     * (`closest('.item')`), absent when there is none.
     */
    method Click(parent: Option<nat>)
      requires parent.Some? ==> parent.value < open.Length
      modifies open
      ensures parent.None? ==> open[..] == old(open[..])
      ensures parent.Some? ==> open[..] == Toggled(old(open[..]), parent.value)
    {
      if parent.Some? {
        open[parent.value] := !open[parent.value];
      }
    }
  }

  // ---------------------------------------------------------------------
  // Desktop drop-downs
  // ---------------------------------------------------------------------

  /** At most one top-level item is open. */
  predicate AtMostOneOpen(open: seq<bool>)
  {
    forall j, k :: 0 <= j < k < |open| ==> !(open[j] && open[k])
  }

  /** Every item closed. */
  function AllClosed(n: nat): (r: seq<bool>)
    ensures |r| == n && forall j :: 0 <= j < n ==> !r[j]
  {
    seq(n, _ => false)
  }

  /**
   * A click on item i's trigger: every other item closes and item i flips,
   * so at most one item is open afterwards.
   */
  function AfterTriggerClick(open: seq<bool>, i: nat): (r: seq<bool>)
    requires i < |open|
    ensures |r| == |open| && AtMostOneOpen(r)
    ensures r[i] == !open[i]
    ensures forall j :: 0 <= j < |r| && r[j] ==> j == i
  {
    seq(|open|, j requires 0 <= j < |open| => if j == i then !open[i] else false)
  }

  /**
   * Clicking the same trigger twice restores the menu exactly when no other
   * item was open before; otherwise the other item stays closed.
   */
  lemma TriggerClickTwice(open: seq<bool>, i: nat)
    requires i < |open|
    ensures AfterTriggerClick(AfterTriggerClick(open, i), i) == open
        <==> forall j :: 0 <= j < |open| && j != i ==> !open[j]
  {
    var r := AfterTriggerClick(AfterTriggerClick(open, i), i);
    if forall j :: 0 <= j < |open| && j != i ==> !open[j] {
      assert forall j :: 0 <= j < |open| ==> r[j] == open[j];
    } else {
      var j :| 0 <= j < |open| && j != i && open[j];
      assert r[j] != open[j];
    }
  }

  /** The keys that open a drop-down from its trigger. */
  predicate OpensFromKeyboard(key: string)
  {
    key == "ArrowDown" || key == "Enter" || key == " "
  }

  /**
   * The desktop navigation's top-level items. `wired[i]` says whether item
   * i has both a trigger link and a drop-down; only such items get
   * listeners, though every item is closed by the others' clicks.
   */
  class DesktopNav {
    const wired: seq<bool>
    /** The `open` class of each top-level item. */
    const open: array<bool>
    /** The `closeTimers` map: the pending close timer of each item. */
    var closeTimers: map<nat, nat>
    /** The close timeouts the browser still holds, by id, with the item each closes. */
    var pending: map<nat, nat>
    /** The id the next `setTimeout` returns; ids are positive. */
    var nextTimer: nat

    /**
     * The map and the browser's timers agree: each item has at most one
     * pending close timer, it is the one the map records, and no timer is
     * pending that the map has lost track of.
     */
    ghost predicate Valid()
      reads this
    {
      && open.Length == |wired|
      && nextTimer > 0
      && (forall li :: li in closeTimers ==>
            li < |wired| && closeTimers[li] in pending && pending[closeTimers[li]] == li)
      && (forall t :: t in pending ==>
            0 < t < nextTimer && pending[t] in closeTimers && closeTimers[pending[t]] == t)
    }

    /** Timers pending for item li. */
    ghost function PendingFor(li: nat): set<nat>
      reads this
    {
      set t | t in pending && pending[t] == li
    }

    constructor (wired: seq<bool>, markup: seq<bool>)
      requires |markup| == |wired|
      ensures Valid() && this.wired == wired && open[..] == markup && fresh(open)
      ensures closeTimers == map[] && pending == map[]
    {
      this.wired := wired;
      open := new bool[|markup|](i requires 0 <= i < |markup| => markup[i]);
      closeTimers, pending, nextTimer := map[], map[], 1;
    }

    /** In a valid state an item has at most one pending close timer. */
    lemma OneTimerPerItem(li: nat)
      requires Valid()
      ensures li in closeTimers ==> PendingFor(li) == {closeTimers[li]}
      ensures li !in closeTimers ==> PendingFor(li) == {}
    {
    }

    /** `clearCloseTimer(li)`. */
    method ClearCloseTimer(li: nat)
      requires Valid()
      modifies this`closeTimers, this`pending
      ensures Valid()
      ensures closeTimers == old(closeTimers) - {li}
      ensures li in old(closeTimers) ==> pending == old(pending) - {old(closeTimers)[li]}
      ensures li !in old(closeTimers) ==> pending == old(pending)
      ensures PendingFor(li) == {}
    {
      if li in closeTimers {
        var t := closeTimers[li];
        pending := pending - {t};
        closeTimers := closeTimers - {li};
      }
    }

    /** `startCloseTimer(li)`: the old timer is cancelled before the new one is set. */
    method StartCloseTimer(li: nat)
      requires Valid() && li < |wired|
      modifies this`closeTimers, this`pending, this`nextTimer
      ensures Valid()
      ensures li in closeTimers && closeTimers[li] == old(nextTimer) && PendingFor(li) == {closeTimers[li]}
      ensures closeTimers == old(closeTimers)[li := old(nextTimer)]
      ensures old(nextTimer) !in old(pending)
    {
      ClearCloseTimer(li);
      var t := nextTimer;
      nextTimer := nextTimer + 1;
      pending := pending[t := li];
      closeTimers := closeTimers[li := t];
      OneTimerPerItem(li);
    }

    /**
     * The browser runs timeout t, if it is still pending: the item it
     * belongs to closes and its entry is deleted. Nothing else changes.
     */
    method TimerFires(t: nat)
      requires Valid()
      modifies this`closeTimers, this`pending, open
      ensures Valid()
      ensures t !in old(pending) ==> open[..] == old(open[..]) && closeTimers == old(closeTimers) && pending == old(pending)
      ensures t in old(pending) ==>
        var li := old(pending)[t];
        && open[..] == old(open[..])[li := false]
        && closeTimers == old(closeTimers) - {li}
        && pending == old(pending) - {t}
    {
      if t in pending {
        var li := pending[t];
        open[li] := false;
        closeTimers := closeTimers - {li};
        pending := pending - {t};
      }
    }

    /** Removes the `open` class from every top-level item. */
    method CloseAll()
      requires Valid()
      modifies open
      ensures open[..] == AllClosed(open.Length)
    {
      for j := 0 to open.Length
        invariant forall k :: 0 <= k < j ==> !open[k]
      {
        open[j] := false;
      }
    }

    /** A click on item i's trigger. */
    method TriggerClick(i: nat)
      requires Valid() && i < |wired|
      modifies open
      ensures wired[i] ==> open[..] == AfterTriggerClick(old(open[..]), i)
      ensures !wired[i] ==> open[..] == old(open[..])
    {
      if !wired[i] {
        return;
      }
      var isOpen := open[i];
      for j := 0 to open.Length
        invariant forall k :: 0 <= k < j && k != i ==> !open[k]
        invariant forall k :: j <= k < open.Length ==> open[k] == old(open[k])
        invariant open[i] == old(open[i])
      {
        if j != i {
          open[j] := false;
        }
      }
      open[i] := !isOpen;
    }

    /** A key pressed on item i's trigger opens that item only. */
    method TriggerKeyDown(i: nat, key: string)
      requires Valid() && i < |wired|
      modifies open
      ensures wired[i] && OpensFromKeyboard(key) ==> open[..] == old(open[..])[i := true]
      ensures !(wired[i] && OpensFromKeyboard(key)) ==> open[..] == old(open[..])
    {
      if wired[i] && OpensFromKeyboard(key) {
        open[i] := true;
      }
    }

    /** A click anywhere in the document that was not stopped on the way up. */
    method DocumentClick(insideNav: bool)
      requires Valid()
      modifies open
      ensures !insideNav ==> open[..] == AllClosed(open.Length)
      ensures insideNav ==> open[..] == old(open[..])
    {
      if !insideNav {
        CloseAll();
      }
    }

    /** The pointer enters item i or its drop-down, or a touch starts on them. */
    method PointerEnter(i: nat)
      requires Valid() && i < |wired|
      modifies this`closeTimers, this`pending
      ensures Valid()
      ensures wired[i] ==> i !in closeTimers && PendingFor(i) == {}
      ensures wired[i] ==> closeTimers == old(closeTimers) - {i}
      ensures wired[i] && i in old(closeTimers) ==> pending == old(pending) - {old(closeTimers)[i]}
      ensures wired[i] && i !in old(closeTimers) ==> pending == old(pending)
      ensures !wired[i] ==> closeTimers == old(closeTimers) && pending == old(pending)
    {
      if wired[i] {
        ClearCloseTimer(i);
      }
    }

    /** The pointer leaves item i or its drop-down. */
    method PointerLeave(i: nat)
      requires Valid() && i < |wired|
      modifies this`closeTimers, this`pending, this`nextTimer
      ensures Valid()
      ensures wired[i] && open[i] ==> i in closeTimers && PendingFor(i) == {closeTimers[i]}
      ensures wired[i] && open[i] ==> closeTimers == old(closeTimers)[i := old(nextTimer)]
      ensures wired[i] && open[i] ==> old(nextTimer) !in old(pending)
      ensures !(wired[i] && open[i]) ==> closeTimers == old(closeTimers) && pending == old(pending)
    {
      if wired[i] && open[i] {
        StartCloseTimer(i);
      }
    }
  }

  /** The document's Escape handler: the overlay closes and so do all drop-downs. */
  method EscapePressed(overlay: MobileOverlay, nav: DesktopNav)
    requires nav.Valid()
    modifies overlay, nav.open
    ensures overlay.View() == OverlayClosed(overlay.hasHamburger, old(overlay.View()))
    ensures nav.open[..] == AllClosed(nav.open.Length)
  {
    overlay.Close();
    nav.CloseAll();
  }
}
