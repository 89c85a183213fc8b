/** The popups of the process and the static map that binds a window to its popup.

    As for embedded plugins, hiding a window drops its binding at once and deletes the popup later. But
    the handlers do not look which popup the window is bound to: a late deletion unbinds a newer one. */
module PopupSurface {
  import opened Collections

  type Window = nat
  type PopupId = nat

  // A popup object: its window, and whether it is scheduled for deletion.
  datatype Popup = Popup(window: Window, doomed: bool)

  datatype State = State(visible: set<Window>, bound: map<Window, PopupId>, popups: map<PopupId, Popup>, next: PopupId)

  const INITIAL := State({}, map[], map[], 0)

  datatype Action =
    | Get(window: Window)
    | Show(window: Window)
    | Hide(window: Window)
    | Remove(window: Window)
    | DoomedDeleted(popup: PopupId)

  function Got(s: State, w: Window): State {
    if w in s.bound then s
    else State(s.visible, s.bound[w := s.next], s.popups[s.next := Popup(w, false)], s.next + 1)
  }

  predicate HasPopup(popups: map<PopupId, Popup>, w: Window) {
    exists p <- popups :: popups[p].window == w
  }

  /** Every popup of the window, old or new, hears that it is hidden and drops its binding. */
  function Hidden(s: State, w: Window): State {
    if w !in s.visible then s
    else
      s.(visible := s.visible - {w},
         bound := if HasPopup(s.popups, w) then s.bound - {w} else s.bound,
         popups := map p | p in s.popups ::
                     if s.popups[p].window == w then s.popups[p].(doomed := true) else s.popups[p])
  }

  /** Unbinds the popup of a window, closes the window and deletes the popup right away. */
  function Removed(s: State, w: Window): State {
    if w !in s.bound then s
    else
      var t := Hidden(s.(bound := s.bound - {w}), w);
      t.(popups := t.popups - {s.bound[w]}, bound := t.bound - {w})
  }

  predicate Enabled(s: State, a: Action) {
    a.DoomedDeleted? ==> a.popup in s.popups && s.popups[a.popup].doomed
  }

  function Step(s: State, a: Action): State
    requires Enabled(s, a)
  {
    match a
    case Get(w) => Got(s, w)
    case Show(w) => s.(visible := s.visible + {w})
    case Hide(w) => Hidden(s, w)
    case Remove(w) => Removed(s, w)
    case DoomedDeleted(p) => s.(bound := s.bound - {s.popups[p].window}, popups := s.popups - {p})
  }

  /** A binding refers to a popup of its window that is not scheduled for deletion. */
  predicate BindingsAreLive(bound: map<Window, PopupId>, popups: map<PopupId, Popup>) {
    forall w <- bound :: bound[w] in popups && popups[bound[w]] == Popup(w, false)
  }

  /** Every popup not scheduled for deletion is the one its window is bound to. */
  predicate LiveAreBound(bound: map<Window, PopupId>, popups: map<PopupId, Popup>) {
    forall p <- popups | !popups[p].doomed :: popups[p].window in bound && bound[popups[p].window] == p
  }

  predicate Inv(s: State) {
    BindingsAreLive(s.bound, s.popups) && LiveAreBound(s.bound, s.popups) && (forall p <- s.popups :: p < s.next)
  }

  lemma InitHolds()
    ensures Inv(INITIAL)
  {
  }

  /** The popup is deleted after its window has been bound to another one. */
  predicate UnbindsNewer(s: State, a: Action) {
    a.DoomedDeleted? && a.popup in s.popups && s.popups[a.popup].window in s.bound
  }

  lemma HidingKeepsInv(s: State, w: Window)
    requires Inv(s)
    ensures Inv(Hidden(s, w))
  {
  }

  lemma RemovingKeepsInv(s: State, w: Window)
    requires Inv(s)
    ensures Inv(Removed(s, w)) && w !in Removed(s, w).bound
  {
  }

  /** A step keeps a window and its live popup bound to each other, except exactly for the deletion of an
      old popup whose window has been bound again: that leaves a live popup nobody finds. */
  lemma StepKeepsInvIff(s: State, a: Action)
    requires Inv(s) && Enabled(s, a)
    ensures Inv(Step(s, a)) <==> !UnbindsNewer(s, a)
  {
    match a {
      case Hide(w) => HidingKeepsInv(s, w);
      case Remove(w) => RemovingKeepsInv(s, w);
      case DoomedDeleted(p) =>
        var t, w := Step(s, a), s.popups[p].window;
        if w in s.bound {
          var newer := s.bound[w];
          assert newer in t.popups && !t.popups[newer].doomed && w !in t.bound;
        } else {
          assert t.bound == s.bound;
        }
      case _ =>
    }
  }

  predicate IsRun(s: State, actions: seq<Action>)
    decreases |actions|
  {
    actions == [] || (Enabled(s, actions[0]) && IsRun(Step(s, actions[0]), actions[1..]))
  }

  function Run(s: State, actions: seq<Action>): State
    requires IsRun(s, actions)
    decreases |actions|
  {
    if actions == [] then s else Run(Step(s, actions[0]), actions[1..])
  }

  predicate NeverUnbindsNewer(s: State, actions: seq<Action>)
    requires IsRun(s, actions)
    decreases |actions|
  {
    actions == [] || (!UnbindsNewer(s, actions[0]) && NeverUnbindsNewer(Step(s, actions[0]), actions[1..]))
  }

  predicate InvThroughout(s: State, actions: seq<Action>)
    requires IsRun(s, actions)
    decreases |actions|
  {
    Inv(s) && (actions == [] || InvThroughout(Step(s, actions[0]), actions[1..]))
  }

  /** Windows and live popups stay bound to each other throughout a run exactly if it never deletes an
      old popup after its window has been bound again. */
  lemma {:induction false} PopupsStayBoundIff(s: State, actions: seq<Action>)
    requires Inv(s) && IsRun(s, actions)
    ensures InvThroughout(s, actions) <==> NeverUnbindsNewer(s, actions)
    decreases |actions|
  {
    hide Inv, Step, UnbindsNewer;
    if actions != [] {
      StepKeepsInvIff(s, actions[0]);
      if Inv(Step(s, actions[0])) {
        PopupsStayBoundIff(Step(s, actions[0]), actions[1..]);
      }
    }
  }

  /** Such a run, in any state whose popup is shown: hide it, get it again, and let the old one go. The
      window is unbound though its popup is live, and the next to ask makes a second live one. */
  lemma NewerPopupIsLost(s: State, w: Window)
    requires Inv(s) && w in s.visible && w in s.bound
    ensures var before, hidden := s.bound[w], Step(s, Hide(w));
            && Enabled(Step(hidden, Get(w)), DoomedDeleted(before))
            && var t := Step(Step(hidden, Get(w)), DoomedDeleted(before));
            && w !in t.bound && s.next in t.popups && t.popups[s.next] == Popup(w, false)
            && var u := Step(t, Get(w));
            && u.popups[s.next] == Popup(w, false) && u.popups[s.next + 1] == Popup(w, false)
  {
    assert HasPopup(s.popups, w);
    var hidden := Step(s, Hide(w));
    assert w !in hidden.bound && hidden.popups[s.bound[w]] == Popup(w, true);
  }

  // ---------- what one operation leaves behind ----------

  /** Removing closes the window, unbinds it and deletes its popup right away; older popups of the window
      are deleted later, and other windows and their popups are left alone. */
  lemma RemovedIsGone(s: State, w: Window, v: Window)
    requires Inv(s) && w in s.bound
    ensures var t := Step(s, Remove(w));
            && w !in t.visible && w !in t.bound
            && t.popups.Keys == s.popups.Keys - {s.bound[w]}
            && (forall p <- t.popups | t.popups[p].window == w :: t.popups[p].doomed)
            && (forall p <- t.popups | t.popups[p].window != w :: t.popups[p] == s.popups[p])
            && (v != w ==> (v in t.visible <==> v in s.visible) && (v in t.bound <==> v in s.bound))
            && (v in t.bound ==> t.bound[v] == s.bound[v])
  {
  }

  lemma NothingToRemove(s: State, w: Window)
    requires w !in s.bound
    ensures Step(s, Remove(w)) == s
  {
  }

  /** Hiding unbinds the window and leaves its popups to be deleted; others are left alone. */
  lemma HiddenIsUnbound(s: State, w: Window, v: Window)
    requires Inv(s) && w in s.visible
    ensures var t := Step(s, Hide(w));
            && w !in t.visible && w !in t.bound && t.popups.Keys == s.popups.Keys
            && (forall p <- t.popups | t.popups[p].window == w :: t.popups[p].doomed)
            && (forall p <- t.popups | t.popups[p].window != w :: t.popups[p] == s.popups[p])
            && (v != w ==> (v in t.visible <==> v in s.visible) && (v in t.bound <==> v in s.bound))
            && (v in t.bound ==> t.bound[v] == s.bound[v])
  {
    if w in s.bound {
      assert HasPopup(s.popups, w) by {
        assert s.bound[w] in s.popups && s.popups[s.bound[w]].window == w;
      }
    }
  }

  /** Asking for a window's popup finds the live one, and makes one exactly if there is none. */
  lemma GotIsTheLiveOne(s: State, w: Window)
    requires Inv(s)
    ensures var t := Step(s, Get(w));
            && w in t.bound && t.bound[w] in t.popups && t.popups[t.bound[w]] == Popup(w, false)
            && (if exists p <- s.popups :: s.popups[p] == Popup(w, false) then t == s
                else t.bound[w] !in s.popups && t.visible == s.visible
                     && t.bound == s.bound[w := t.bound[w]] && t.popups == s.popups[t.bound[w] := Popup(w, false)])
  {
    if w in s.bound {
      assert s.popups[s.bound[w]] == Popup(w, false);
    }
  }

  /** A window becomes visible by being shown and not otherwise; a deletion takes its popup only. */
  lemma OtherStepsAreLocal(s: State, a: Action)
    requires Enabled(s, a) && (a.Show? || a.DoomedDeleted?)
    ensures var t := Step(s, a);
            && t.visible == s.visible + (if a.Show? then {a.window} else {})
            && t.popups == s.popups - (if a.DoomedDeleted? then {a.popup} else {})
            && (a.Show? ==> t.bound == s.bound)
            && (a.DoomedDeleted? ==> t.bound == s.bound - {s.popups[a.popup].window})
  {
    assert s.popups - {} == s.popups;
  }

  lemma RunPrepend(s: State, a: Action, rest: seq<Action>)
    requires Enabled(s, a) && IsRun(Step(s, a), rest)
    ensures IsRun(s, [a] + rest) && Run(s, [a] + rest) == Run(Step(s, a), rest)
  {
    assert ([a] + rest)[1..] == rest;
  }

  function LosingRun(w: Window): seq<Action> {
    [Get(w), Show(w), Hide(w), Get(w), DoomedDeleted(0), Get(w)]
  }

  /** The popup of a window has been hidden, and the window is bound to a newer one. */
  function BoundAgain(w: Window): State {
    State({}, map[w := 1], map[0 := Popup(w, true), 1 := Popup(w, false)], 2)
  }

  lemma HiddenThenBoundAgain(w: Window, s: State)
    requires s == State({w}, map[w := 0], map[0 := Popup(w, false)], 1)
    ensures Step(Step(INITIAL, Get(w)), Show(w)) == s && Step(Step(s, Hide(w)), Get(w)) == BoundAgain(w)
  {
    assert 0 in s.popups && s.popups[0].window == w;
    assert HasPopup(s.popups, w);
    assert Step(s, Hide(w)) == State({}, map[], map[0 := Popup(w, true)], 1);
  }

  /** So from the start a window can end up with two live popups. */
  lemma TwoLivePopups(w: Window)
    ensures IsRun(INITIAL, LosingRun(w))
    ensures var t := Run(INITIAL, LosingRun(w));
            && t.bound == map[w := 2]
            && t.popups == map[1 := Popup(w, false), 2 := Popup(w, false)] && !Inv(t)
    ensures UnbindsNewer(BoundAgain(w), LosingRun(w)[4])
  {
    var s2 := State({w}, map[w := 0], map[0 := Popup(w, false)], 1);
    var s3, s4 := Step(s2, Hide(w)), BoundAgain(w);
    var s5 := State({}, map[], map[1 := Popup(w, false)], 2);
    var t := State({}, map[w := 2], map[1 := Popup(w, false), 2 := Popup(w, false)], 3);
    HiddenThenBoundAgain(w, s2);
    assert Enabled(s4, DoomedDeleted(0)) && Step(s4, DoomedDeleted(0)) == s5 && Step(s5, Get(w)) == t;
    assert !LiveAreBound(t.bound, t.popups) by {
      assert 1 in t.popups && !t.popups[1].doomed;
    }
    var all := LosingRun(w);
    assert all == [Get(w)] + all[1..] && all[1..] == [Show(w)] + all[2..] && all[2..] == [Hide(w)] + all[3..];
    assert all[3..] == [Get(w)] + all[4..] && all[4..] == [DoomedDeleted(0)] + all[5..] && all[5..] == [Get(w)] + [];
    assert IsRun(t, []) && Run(t, []) == t;
    hide Step, LosingRun, Run, IsRun, BoundAgain;
    RunPrepend(s5, Get(w), []);
    RunPrepend(s4, DoomedDeleted(0), all[5..]);
    RunPrepend(s3, Get(w), all[4..]);
    RunPrepend(s2, Hide(w), all[3..]);
    RunPrepend(Step(INITIAL, Get(w)), Show(w), all[2..]);
    RunPrepend(INITIAL, Get(w), all[1..]);
  }

  // ---------- as an object ----------

  lemma NoneDoomed(popups: map<PopupId, Popup>, w: Window)
    ensures var all := set p | p in popups && popups[p].window == w;
            PartlyDoomed(popups, w, all) == popups && (all != {} <==> HasPopup(popups, w))
  {
    if HasPopup(popups, w) {
      var p :| p in popups && popups[p].window == w;
      assert p in (set p | p in popups && popups[p].window == w);
    }
  }

  function PartlyDoomed(popups: map<PopupId, Popup>, w: Window, todo: set<PopupId>): map<PopupId, Popup> {
    map p | p in popups :: if popups[p].window == w && p !in todo then popups[p].(doomed := true) else popups[p]
  }

  lemma DoomOneMore(popups: map<PopupId, Popup>, w: Window, todo: set<PopupId>, p: PopupId)
    requires p in popups && popups[p].window == w && p in todo
    ensures var before := PartlyDoomed(popups, w, todo);
            p in before && before[p := before[p].(doomed := true)] == PartlyDoomed(popups, w, todo - {p})
  {
  }

  class PopupMap {
    var visible: set<Window>
    var sPopupMap: map<Window, PopupId>
    var popups: map<PopupId, Popup>
    var next: PopupId

    constructor ()
      ensures Abs() == INITIAL
    {
      visible, sPopupMap, popups, next := {}, map[], map[], 0;
    }

    ghost function Abs(): State
      reads this
    {
      State(visible, sPopupMap, popups, next)
    }

    method Get(window: Window) returns (popup: PopupId)
      modifies this
      ensures Abs() == Step(old(Abs()), Action.Get(window))
      ensures window in sPopupMap && popup == sPopupMap[window]
    {
      if window in sPopupMap {
        return sPopupMap[window];
      }
      popup := next;
      popups := popups[popup := Popup(window, false)];
      next := next + 1;
      sPopupMap := sPopupMap[window := popup];
    }

    /** The visibility handlers of a window that was hidden, in no order in particular. */
    method OnHidden(window: Window)
      modifies this`popups, this`sPopupMap
      ensures popups == PartlyDoomed(old(popups), window, {})
      ensures sPopupMap == if HasPopup(old(popups), window) then old(sPopupMap) - {window} else old(sPopupMap)
    {
      var todo := set p | p in popups && popups[p].window == window;
      ghost var all := todo;
      NoneDoomed(popups, window);
      while todo != {}
        invariant todo <= all && forall p <- todo :: p in old(popups) && old(popups)[p].window == window
        invariant popups == PartlyDoomed(old(popups), window, todo)
        invariant sPopupMap == if todo == all then old(sPopupMap) else old(sPopupMap) - {window}
        decreases |todo|
      {
        hide PartlyDoomed;
        var p :| p in todo;
        DoomOneMore(old(popups), window, todo, p);
        sPopupMap := sPopupMap - {window};
        popups := popups[p := popups[p].(doomed := true)];
        todo := todo - {p};
      }
    }

    method Hide(window: Window)
      modifies this
      ensures Abs() == Step(old(Abs()), Action.Hide(window))
    {
      if window !in visible {
        return;
      }
      visible := visible - {window};
      OnHidden(window);
      assert popups == map p | p in old(popups) ::
                         if old(popups)[p].window == window then old(popups)[p].(doomed := true) else old(popups)[p];
    }

    /** Closes the window before the popup goes; its `destroyed` handler unbinds the window once more. */
    method Remove(window: Window)
      modifies this
      ensures Abs() == Step(old(Abs()), Action.Remove(window))
    {
      if window !in sPopupMap {
        return;
      }
      ghost var s := Abs();
      var popup := sPopupMap[window];
      sPopupMap := sPopupMap - {window};
      Hide(window);
      assert Abs() == Hidden(s.(bound := s.bound - {window}), window);
      popups := popups - {popup};
      sPopupMap := sPopupMap - {window};
    }

    /** The deferred deletion: the `destroyed` handler does not look which popup is bound. */
    method DeletePopup(p: PopupId)
      requires Enabled(Abs(), DoomedDeleted(p))
      modifies this
      ensures Abs() == Step(old(Abs()), DoomedDeleted(p))
    {
      var window := popups[p].window;
      popups := popups - {p};
      sPopupMap := sPopupMap - {window};
    }
  }
}
