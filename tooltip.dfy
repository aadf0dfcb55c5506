/**
 * `CreateToolTip`: hovering the widget opens a small undecorated window
 * with the text, leaving it destroys that window. Tk's side is kept
 * explicit: the set of tooltip windows that exist and the counter from
 * which new window ids come, so that "at most one tooltip window exists"
 * is a statement about the windowing system and not only about the field.
 */
module Tooltip {
  import opened Wrappers

  /** A Tk `Toplevel` id. */
  type Window = nat

  datatype TipState = TipState(
    text: string,
    window: Option<Window>,  // the object's `tooltip_window`
    alive: set<Window>,      // tooltip windows created and not yet destroyed
    next: Window)            // id of the next `Toplevel` Tk creates

  /**
   * The field names exactly the tooltip windows that exist, and every id
   * handed out so far is below `next`.
   */
  predicate Consistent(s: TipState)
  {
    s.alive == (if s.window.Some? then {s.window.value} else {})
    && (s.window.Some? ==> s.window.value < s.next)
  }

  /** `show_tooltip`: does nothing if a tooltip is showing or the text is empty. */
  function ShowStep(s: TipState): (t: TipState)
    ensures t.text == s.text
    ensures s.window.Some? || s.text == [] ==> t == s
    ensures s.window.None? && s.text != [] ==>
              t.window == Some(s.next) && t.alive == s.alive + {s.next} && t.next == s.next + 1
  {
    if s.window.Some? || s.text == [] then s
    else s.(window := Some(s.next), alive := s.alive + {s.next}, next := s.next + 1)
  }

  /** `hide_tooltip`: destroy the window if there is one; the field ends up None. */
  function HideStep(s: TipState): (t: TipState)
    ensures t.text == s.text && t.next == s.next
    ensures t.window == None
    ensures t.alive == if s.window.Some? then s.alive - {s.window.value} else s.alive
  {
    if s.window.Some? then s.(window := None, alive := s.alive - {s.window.value}) else s.(window := None)
  }

  /** Pointer events on the widget, bound to show and hide in `__init__`. */
  datatype Hover = Enter | Leave

  function Replay(s: TipState, events: seq<Hover>): (t: TipState)
    ensures t.text == s.text
    decreases |events|
  {
    if events == [] then s
    else Replay(if events[0] == Enter then ShowStep(s) else HideStep(s), events[1..])
  }

  lemma ShowKeepsConsistent(s: TipState)
    requires Consistent(s)
    ensures Consistent(ShowStep(s))
  {
  }

  lemma HideKeepsConsistent(s: TipState)
    requires Consistent(s)
    ensures Consistent(HideStep(s)) && HideStep(s).alive == {}
  {
  }

  /**
   * Whatever the order of enter and leave events, the field names every
   * tooltip window that exists, so at most one exists at any time.
   */
  lemma {:induction false} AtMostOneTooltip(s: TipState, events: seq<Hover>)
    requires Consistent(s)
    ensures Consistent(Replay(s, events))
    ensures |Replay(s, events).alive| <= 1
    decreases |events|
  {
    if events != [] {
      var s1 := if events[0] == Enter then ShowStep(s) else HideStep(s);
      ShowKeepsConsistent(s);
      HideKeepsConsistent(s);
      AtMostOneTooltip(s1, events[1..]);
    }
    var t := Replay(s, events);
    if t.window.Some? {
      assert t.alive == {t.window.value};
    }
  }

  /** A second enter while the tooltip shows opens nothing more. */
  lemma ShowIdempotent(s: TipState)
    ensures ShowStep(ShowStep(s)) == ShowStep(s)
  {
  }

  /** `hide_tooltip` twice is `hide_tooltip` once. */
  lemma HideIdempotent(s: TipState)
    ensures HideStep(HideStep(s)) == HideStep(s)
  {
  }

  /** With empty text no event ever opens a window. */
  lemma {:induction false} EmptyTextNeverShows(s: TipState, events: seq<Hover>)
    requires s.text == [] && s.window == None
    ensures Replay(s, events).window == None && Replay(s, events).next == s.next
    decreases |events|
  {
    if events != [] {
      EmptyTextNeverShows(if events[0] == Enter then ShowStep(s) else HideStep(s), events[1..]);
    }
  }

  /** A `CreateToolTip` object; `nextWindow` stands for Tk's window allocation. */
  class ToolTip {
    const text: string
    var tooltipWindow: Option<Window>
    ghost var alive: set<Window>
    var nextWindow: Window

    ghost function State(): TipState
      reads this
    {
      TipState(text, tooltipWindow, alive, nextWindow)
    }

    ghost predicate Valid()
      reads this
    {
      Consistent(State())
    }

    /** `__init__`: no tooltip window yet. */
    constructor (text: string, firstWindow: Window)
      ensures Valid() && State() == TipState(text, None, {}, firstWindow)
    {
      this.text := text;
      tooltipWindow := None;
      alive := {};
      nextWindow := firstWindow;
    }

    method ShowTooltip()
      requires Valid()
      modifies this
      ensures Valid()
      ensures State() == ShowStep(old(State()))
    {
      if tooltipWindow.Some? || text == [] {
        return;
      }
      tooltipWindow := Some(nextWindow);
      alive := alive + {nextWindow};
      nextWindow := nextWindow + 1;
    }

    /** `destroyed` is the window `hide_tooltip` destroys, if any. */
    method HideTooltip() returns (destroyed: Option<Window>)
      requires Valid()
      modifies this
      ensures Valid()
      ensures destroyed == old(tooltipWindow)
      ensures State() == HideStep(old(State()))
    {
      destroyed := tooltipWindow;
      if tooltipWindow.Some? {
        alive := alive - {tooltipWindow.value};
      }
      tooltipWindow := None;
    }
  }
}
