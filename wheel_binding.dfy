/**
 * The process-wide `<MouseWheel>` binding. Every popup (the two process
 * windows and each technique window) calls `canvas.bind_all`, which
 * replaces the single "all" binding with one that scrolls its own canvas.
 * The window-manager close path calls `unbind_all`, which clears it
 * whichever popup installed it; the "Close" button only destroys the
 * window. A canvas is identified with the popup that owns it.
 */
module WheelBinding {
  import opened Wrappers
  import opened Wheel

  /** A popup `Toplevel` (and the canvas inside it). */
  type Popup = nat

  datatype Desk = Desk(
    open: set<Popup>,        // popups not yet destroyed
    next: Popup,             // id of the next popup created
    target: Option<Popup>)   // canvas the global wheel binding scrolls

  /** What one wheel event does. */
  datatype WheelOutcome =
    | Unbound                          // no binding: nothing happens
    | Scrolls(canvas: Popup, units: int)
    | DeadCanvas(canvas: Popup)        // the handler calls a destroyed canvas: Tk raises

  /** Ids below `next` have been handed out; open popups and the target are among them. */
  predicate Allocated(d: Desk)
  {
    (forall p :: p in d.open ==> p < d.next) && (d.target.Some? ==> d.target.value < d.next)
  }

  /** The binding, when there is one, points at a canvas that still exists. */
  predicate NoDangling(d: Desk)
  {
    d.target.Some? ==> d.target.value in d.open
  }

  /** Opening any popup: a fresh window whose canvas takes over the binding. */
  function Opened(d: Desk): (e: Desk)
    requires Allocated(d)
    ensures Allocated(e) && d.next !in d.open
    ensures e.open == d.open + {d.next} && e.next == d.next + 1
    ensures e.target == Some(d.next)
  {
    Desk(d.open + {d.next}, d.next + 1, Some(d.next))
  }

  /** The "Close" button: `window.destroy` only; the binding is left alone. */
  function ButtonClosed(d: Desk, p: Popup): (e: Desk)
    ensures e.open == d.open - {p} && e.next == d.next
    ensures e.target == d.target
  {
    d.(open := d.open - {p})
  }

  /** The window-manager close: `unbind_all` then `destroy`, on an open popup. */
  function WmClosed(d: Desk, p: Popup): (e: Desk)
    ensures e.open == d.open - {p} && e.next == d.next
    ensures p in d.open ==> e.target == None
    ensures p !in d.open ==> e == d
  {
    if p in d.open then Desk(d.open - {p}, d.next, None) else d
  }

  /** `on_mousewheel` reached through the binding. */
  function Route(d: Desk, delta: int): (o: WheelOutcome)
    ensures d.target.None? <==> o == Unbound
    ensures o.Scrolls? <==> d.target.Some? && d.target.value in d.open
    ensures o.Scrolls? ==> o.canvas == d.target.value && o.units == WheelUnits(delta)
    ensures o.DeadCanvas? ==> o.canvas == d.target.value
  {
    match d.target
    case None => Unbound
    case Some(c) => if c in d.open then Scrolls(c, WheelUnits(delta)) else DeadCanvas(c)
  }

  /** Opening a popup and closing it through the window manager leaves no binding. */
  lemma OpenThenWmCloseUnbinds(d: Desk)
    requires Allocated(d)
    ensures WmClosed(Opened(d), d.next).target == None
    ensures WmClosed(Opened(d), d.next).open == d.open
  {
  }

  /**
   * Opening a popup and pressing its Close button leaves the binding on the
   * destroyed canvas: the next wheel event anywhere in the application
   * reaches a dead canvas.
   */
  lemma CloseButtonLeavesDeadBinding(d: Desk, delta: int)
    requires Allocated(d)
    ensures Route(ButtonClosed(Opened(d), d.next), delta) == DeadCanvas(d.next)
  {
  }

  /**
   * With popup a open, opening b and then closing a through the window
   * manager clears the binding although b is still open: b no longer
   * scrolls with the wheel.
   */
  lemma WmCloseOfOtherPopupUnbinds(d: Desk, a: Popup, delta: int)
    requires Allocated(d) && a in d.open
    ensures d.next in WmClosed(Opened(d), a).open
    ensures Route(WmClosed(Opened(d), a), delta) == Unbound
  {
  }

  /**
   * The teardown both close paths should share: destroy the popup and
   * release the binding exactly when it belongs to that popup's canvas.
   */
  function Dismissed(d: Desk, p: Popup): (e: Desk)
    ensures e.open == d.open - {p} && e.next == d.next
    ensures e.target == if d.target == Some(p) then None else d.target
  {
    Desk(d.open - {p}, d.next, if d.target == Some(p) then None else d.target)
  }

  /** User actions on popups, with the two close paths of the program as written. */
  datatype Action = Open | Button(p: Popup) | Wm(p: Popup)

  /** The desk after the actions, as the program is written. */
  function Replay(d: Desk, actions: seq<Action>): (e: Desk)
    requires Allocated(d)
    ensures Allocated(e)
    decreases |actions|
  {
    if actions == [] then d
    else
      var d1 := match actions[0]
        case Open => Opened(d)
        case Button(p) => ButtonClosed(d, p)
        case Wm(p) => WmClosed(d, p);
      Replay(d1, actions[1..])
  }

  /** The binding, when there is one, names the most recently opened popup. */
  predicate NewestOnly(d: Desk)
  {
    d.target.Some? ==> d.next > 0 && d.target.value == d.next - 1
  }

  /**
   * As written, whatever popups are opened and closed, the binding is
   * either gone or on the newest popup, open or destroyed.
   */
  lemma {:induction false} BindingIsNewestPopup(d: Desk, actions: seq<Action>)
    requires Allocated(d) && NewestOnly(d)
    ensures NewestOnly(Replay(d, actions))
    decreases |actions|
  {
    if actions != [] {
      var d1 := match actions[0]
        case Open => Opened(d)
        case Button(p) => ButtonClosed(d, p)
        case Wm(p) => WmClosed(d, p);
      BindingIsNewestPopup(d1, actions[1..]);
    }
  }

  /** The desk after the actions when both close paths run `Dismissed`. */
  function ReplayDismissed(d: Desk, actions: seq<Action>): (e: Desk)
    requires Allocated(d)
    ensures Allocated(e)
    decreases |actions|
  {
    if actions == [] then d
    else
      var d1 := match actions[0]
        case Open => Opened(d)
        case Button(p) => Dismissed(d, p)
        case Wm(p) => Dismissed(d, p);
      ReplayDismissed(d1, actions[1..])
  }

  /** Dismissing any popup keeps the binding off destroyed canvases. */
  lemma DismissKeepsNoDangling(d: Desk, p: Popup)
    requires NoDangling(d)
    ensures NoDangling(Dismissed(d, p))
  {
  }

  /**
   * With `Dismissed` on both paths, no sequence of opens and closes ever
   * leaves a wheel event reaching a destroyed canvas.
   */
  lemma {:induction false} DismissNeverDangles(d: Desk, actions: seq<Action>, delta: int)
    requires Allocated(d) && NoDangling(d)
    ensures NoDangling(ReplayDismissed(d, actions))
    ensures !Route(ReplayDismissed(d, actions), delta).DeadCanvas?
    decreases |actions|
  {
    if actions != [] {
      var d1 := match actions[0]
        case Open => Opened(d)
        case Button(p) => Dismissed(d, p)
        case Wm(p) => Dismissed(d, p);
      DismissNeverDangles(d1, actions[1..], delta);
    }
  }

  /** With `Dismissed`, closing a popup that does not hold the binding leaves it working. */
  lemma DismissOfOtherPopupKeepsBinding(d: Desk, a: Popup, delta: int)
    requires Allocated(d) && a in d.open
    ensures Route(Dismissed(Opened(d), a), delta) == Scrolls(d.next, WheelUnits(delta))
  {
  }

  /**
   * With `Dismissed`, once every popup is closed there is no binding left,
   * whatever order they were opened and closed in.
   */
  lemma AllDismissedNoBinding(d: Desk, actions: seq<Action>)
    requires Allocated(d) && NoDangling(d)
    requires ReplayDismissed(d, actions).open == {}
    ensures ReplayDismissed(d, actions).target == None
  {
    DismissNeverDangles(d, actions, 0);
  }

  /** The application's wheel binding slot, updated in place by the popups. */
  class GlobalWheel {
    var open: set<Popup>
    var next: Popup
    var target: Option<Popup>

    function Snapshot(): Desk
      reads this
    {
      Desk(open, next, target)
    }

    predicate Valid()
      reads this
    {
      Allocated(Snapshot())
    }

    /** The main window alone: no popups, no binding. */
    constructor ()
      ensures Valid() && Snapshot() == Desk({}, 0, None)
    {
      open, next, target := {}, 0, None;
    }

    /** `open_litho_process`, `open_char_process` or `create_tech_window`: `bind_all`. */
    method OpenPopup() returns (p: Popup)
      requires Valid()
      modifies this
      ensures Valid()
      ensures p == old(next) && p !in old(open)
      ensures Snapshot() == Opened(old(Snapshot()))
    {
      p := next;
      open := open + {p};
      next := next + 1;
      target := Some(p);
    }

    /** The "Close" button's `window.destroy`. */
    method CloseButton(p: Popup)
      requires Valid()
      modifies this
      ensures Valid()
      ensures Snapshot() == ButtonClosed(old(Snapshot()), p)
    {
      open := open - {p};
    }

    /** The `WM_DELETE_WINDOW` handler: `unbind_all`, then `destroy`. */
    method WmClose(p: Popup)
      requires Valid()
      modifies this
      ensures Valid()
      ensures Snapshot() == WmClosed(old(Snapshot()), p)
    {
      if p in open {
        target := None;
        open := open - {p};
      }
    }

    /** The teardown of `Dismissed`, for either close path. */
    method Dismiss(p: Popup)
      requires Valid()
      modifies this
      ensures Valid()
      ensures Snapshot() == Dismissed(old(Snapshot()), p)
    {
      open := open - {p};
      if target == Some(p) {
        target := None;
      }
    }

    /** A wheel event delivered through the binding. */
    method Wheel(delta: int) returns (o: WheelOutcome)
      requires Valid()
      ensures o == Route(Snapshot(), delta)
      ensures o.Scrolls? ==> o.units == WheelUnits(delta) && o.canvas in open
    {
      if target.None? {
        o := Unbound;
      } else if target.value in open {
        o := Scrolls(target.value, WheelUnits(delta));
      } else {
        o := DeadCanvas(target.value);
      }
    }
  }
}
