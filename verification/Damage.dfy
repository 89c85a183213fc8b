/** Docking of X11 tray icons: each docked window has one damage object that reports its repaints,
    and is announced on the bus.

    What the X server and the bus have seen is part of the state: the damage ids generated and
    destroyed so far, and the signals emitted. */
module Damage {
  import opened Collections

  type Window = nat
  type DamageId = nat
  type Pixmap(==, 0)

  datatype IconState = IconState(enableNotify: bool, pixmap: Pixmap)

  datatype Signal = Added(window: Window) | Removed(window: Window) | Changed(window: Window) | Inited

  // How watching a window went: the window was gone when asked for its attributes, or when its event
  // mask was set, or neither.
  datatype Outcome = AttributesGone | EventMaskGone | Watching

  datatype State = State(
    icons: map<Window, IconState>,
    inited: bool,
    watches: map<Window, DamageId>,
    next: DamageId,
    destroyed: seq<DamageId>,
    signals: seq<Signal>)

  const INITIAL := State(map[], false, map[], 1, [], [])

  datatype Action =
    | Claimed
    | DockRequested(window: Window, order: seq<Window>, invalid: set<Window>, outcome: Outcome, pixmap: Pixmap)
    | WindowDestroyed(window: Window)
    | WindowDamaged(window: Window, contents: Option<Pixmap>)
    | EnableNotification(window: Window, enabled: bool)

  // ---------- the tray manager ----------

  function Registered(s: State, w: Window, pixmap: Pixmap): State {
    if w in s.icons then s
    else s.(icons := s.icons[w := IconState(true, pixmap)], signals := s.signals + [Added(w)])
  }

  function Unregistered(s: State, w: Window): State {
    if w !in s.icons then s
    else s.(icons := s.icons - {w}, signals := s.signals + [Removed(w)])
  }

  /** A change is announced if it is wanted, the contents can be read and they differ. */
  function IconChanged(s: State, w: Window, contents: Option<Pixmap>): State {
    if w !in s.icons || !s.icons[w].enableNotify || contents.None? || s.icons[w].pixmap == contents.value then s
    else s.(icons := s.icons[w := s.icons[w].(pixmap := contents.value)], signals := s.signals + [Changed(w)])
  }

  // ---------- the selection manager ----------

  function Undocked(s: State, w: Window): State {
    if w !in s.icons then s
    else
      var t := Unregistered(s, w);
      t.(watches := s.watches - {w}, destroyed := if w in s.watches then s.destroyed + [s.watches[w]] else s.destroyed)
  }

  /** Undocks the windows that turn out invalid, in the order the icons are listed. */
  function Checked(s: State, order: seq<Window>, invalid: set<Window>): State
    decreases |order|
  {
    if order == [] then s
    else Checked(if order[0] in invalid then Undocked(s, order[0]) else s, order[1..], invalid)
  }

  function WatchAdded(s: State, w: Window, outcome: Outcome): State {
    if outcome.Watching? then s.(watches := s.watches[w := s.next], next := s.next + 1)
    else s.(destroyed := s.destroyed + [s.next], next := s.next + 1)
  }

  function Docked(s: State, w: Window, outcome: Outcome, pixmap: Pixmap): State {
    if w in s.icons then s
    else
      var t := WatchAdded(s, w, outcome);
      if outcome.Watching? then Registered(t, w, pixmap) else t
  }

  /** The icons are listed in an order of their own. */
  predicate Enabled(s: State, a: Action) {
    a.DockRequested? ==>
      && (forall w <- a.order :: w in s.icons) && (forall w <- s.icons :: w in a.order)
      && (forall i, j | 0 <= i < j < |a.order| :: a.order[i] != a.order[j])
  }

  function Step(s: State, a: Action): State {
    match a
    case Claimed => if s.inited then s else s.(inited := true, signals := s.signals + [Inited])
    case DockRequested(w, order, invalid, outcome, pixmap) => Docked(Checked(s, order, invalid), w, outcome, pixmap)
    case WindowDestroyed(w) => if w in s.icons then Undocked(s, w) else s
    case WindowDamaged(w, contents) => IconChanged(s, w, contents)
    case EnableNotification(w, enabled) =>
      if w in s.icons then s.(icons := s.icons[w := s.icons[w].(enableNotify := enabled)]) else s
  }

  // ---------- what a listener makes of the signals ----------

  /** The icons a listener counts, if every signal makes sense to it: only a missing icon is added,
      and only a present one is removed or changed. */
  function Replay(signals: seq<Signal>): Option<set<Window>>
    decreases |signals|
  {
    if signals == [] then Some({})
    else Heard(Replay(signals[..|signals| - 1]), signals[|signals| - 1])
  }

  function Heard(before: Option<set<Window>>, signal: Signal): Option<set<Window>> {
    if before.None? then None
    else
      match signal
      case Added(w) => if w in before.value then None else Some(before.value + {w})
      case Removed(w) => if w in before.value then Some(before.value - {w}) else None
      case Changed(w) => if w in before.value then before else None
      case Inited => before
  }

  lemma ReplayMore(signals: seq<Signal>, more: Signal)
    ensures Replay(signals + [more]) == Heard(Replay(signals), more)
  {
    assert (signals + [more])[..|signals|] == signals;
  }

  /** The comings and goings of one window, `true` for a coming. */
  function Visits(signals: seq<Signal>, w: Window): seq<bool>
    decreases |signals|
  {
    if signals == [] then []
    else
      var before, last := Visits(signals[..|signals| - 1], w), signals[|signals| - 1];
      if last == Added(w) then before + [true] else if last == Removed(w) then before + [false] else before
  }

  /** Signals that make sense alternate between coming and going for every window, and tell at any
      time whether it is there. */
  lemma {:induction false} SensibleSignalsAlternate(signals: seq<Signal>, w: Window)
    requires Replay(signals).Some?
    ensures var visits := Visits(signals, w);
            && (forall i | 0 <= i < |visits| :: visits[i] <==> i % 2 == 0)
            && (w in Replay(signals).value <==> |visits| % 2 == 1)
    decreases |signals|
  {
    if signals != [] {
      SensibleSignalsAlternate(signals[..|signals| - 1], w);
    }
  }

  // ---------- invariants ----------

  predicate NoDuplicates(ids: seq<DamageId>) {
    forall i, j | 0 <= i < j < |ids| :: ids[i] != ids[j]
  }

  predicate IsWatched(watches: map<Window, DamageId>, id: DamageId) {
    exists w <- watches :: watches[w] == id
  }

  predicate IsInjective(watches: map<Window, DamageId>) {
    forall v, w | v in watches && w in watches && v != w :: watches[v] != watches[w]
  }

  /** Every damage object created so far is watched once or destroyed once, and not both. */
  ghost predicate DamageIsConserved(watches: map<Window, DamageId>, next: DamageId, destroyed: seq<DamageId>) {
    && (forall id: nat :: 1 <= id < next <==> IsWatched(watches, id) || id in destroyed)
    && (forall id | id in destroyed :: !IsWatched(watches, id))
    && IsInjective(watches)
    && NoDuplicates(destroyed)
  }

  predicate InitedOnce(inited: bool, signals: seq<Signal>) {
    multiset(signals)[Inited] == if inited then 1 else 0
  }

  ghost predicate Inv(s: State) {
    && s.watches.Keys == s.icons.Keys
    && s.next >= 1
    && DamageIsConserved(s.watches, s.next, s.destroyed)
    && Replay(s.signals) == Some(s.icons.Keys)
    && InitedOnce(s.inited, s.signals)
  }

  lemma InitHolds()
    ensures Inv(INITIAL)
  {
    assert forall id :: !IsWatched(INITIAL.watches, id);
    assert INITIAL.icons.Keys == {};
  }

  lemma WatchingConserves(watches: map<Window, DamageId>, next: DamageId, destroyed: seq<DamageId>, w: Window)
    requires DamageIsConserved(watches, next, destroyed) && next >= 1 && w !in watches
    ensures DamageIsConserved(watches[w := next], next + 1, destroyed)
  {
    var after := watches[w := next];
    assert !IsWatched(watches, next) && next !in destroyed;
    assert w in after && after[w] == next;
    forall id ensures IsWatched(after, id) <==> IsWatched(watches, id) || id == next {
      if IsWatched(watches, id) {
        var v :| v in watches && watches[v] == id;
        assert v in after && after[v] == id;
      }
    }
    hide IsWatched, NoDuplicates;
  }

  lemma FailingConserves(watches: map<Window, DamageId>, next: DamageId, destroyed: seq<DamageId>)
    requires DamageIsConserved(watches, next, destroyed) && next >= 1
    ensures DamageIsConserved(watches, next + 1, destroyed + [next])
  {
    assert !IsWatched(watches, next) && next !in destroyed;
    hide IsWatched;
    assert forall i | 0 <= i < |destroyed| :: destroyed[i] in destroyed;
  }

  lemma UndockingConserves(watches: map<Window, DamageId>, next: DamageId, destroyed: seq<DamageId>, w: Window)
    requires DamageIsConserved(watches, next, destroyed) && w in watches
    ensures DamageIsConserved(watches - {w}, next, destroyed + [watches[w]])
  {
    var after, gone := watches - {w}, watches[w];
    assert IsWatched(watches, gone) && gone !in destroyed;
    forall id ensures IsWatched(watches, id) <==> IsWatched(after, id) || id == gone {
      if IsWatched(watches, id) && id != gone {
        var v :| v in watches && watches[v] == id;
        assert v in after && after[v] == id;
      }
    }
    assert !IsWatched(after, gone);
    hide IsWatched;
    assert forall i | 0 <= i < |destroyed| :: destroyed[i] in destroyed;
  }

  lemma UndockedKeepsInv(s: State, w: Window)
    requires Inv(s)
    ensures Inv(Undocked(s, w))
  {
    if w in s.icons {
      UndockingConserves(s.watches, s.next, s.destroyed, w);
      ReplayMore(s.signals, Removed(w));
      hide DamageIsConserved;
      assert (s.icons - {w}).Keys == s.icons.Keys - {w};
    }
  }

  lemma {:induction false} CheckedKeepsInv(s: State, order: seq<Window>, invalid: set<Window>)
    requires Inv(s)
    ensures Inv(Checked(s, order, invalid))
    decreases |order|
  {
    if order != [] {
      UndockedKeepsInv(s, order[0]);
      CheckedKeepsInv(if order[0] in invalid then Undocked(s, order[0]) else s, order[1..], invalid);
    }
  }

  lemma OtherSignalsKeepInited(inited: bool, signals: seq<Signal>, more: Signal)
    requires InitedOnce(inited, signals) && more != Inited
    ensures InitedOnce(inited, signals + [more])
  {
  }

  lemma WatchedDockKeepsInv(s: State, w: Window, pixmap: Pixmap)
    requires Inv(s) && w !in s.icons
    ensures Inv(Docked(s, w, Watching, pixmap))
  {
    hide DamageIsConserved, Replay, InitedOnce;
    WatchingConserves(s.watches, s.next, s.destroyed, w);
    ReplayMore(s.signals, Added(w));
    OtherSignalsKeepInited(s.inited, s.signals, Added(w));
    var t := Docked(s, w, Watching, pixmap);
    assert t.watches == s.watches[w := s.next] && t.signals == s.signals + [Added(w)];
    assert t.icons.Keys == s.icons.Keys + {w};
  }

  lemma DockedKeepsInv(s: State, w: Window, outcome: Outcome, pixmap: Pixmap)
    requires Inv(s)
    ensures Inv(Docked(s, w, outcome, pixmap))
  {
    hide DamageIsConserved, Replay, InitedOnce;
    if w !in s.icons {
      if outcome.Watching? {
        WatchedDockKeepsInv(s, w, pixmap);
      } else {
        FailingConserves(s.watches, s.next, s.destroyed);
      }
    }
  }

  lemma ChangedKeepsInv(s: State, w: Window, contents: Option<Pixmap>)
    requires Inv(s)
    ensures Inv(IconChanged(s, w, contents))
  {
    hide DamageIsConserved;
    ReplayMore(s.signals, Changed(w));
    if w in s.icons && contents.Some? {
      assert s.icons[w := s.icons[w].(pixmap := contents.value)].Keys == s.icons.Keys;
    }
  }

  /** Every step keeps the watched windows the registered ones, damage objects conserved, and the
      signals telling the registered icons. */
  lemma StepKeepsInv(s: State, a: Action)
    requires Inv(s)
    ensures Inv(Step(s, a))
  {
    hide DamageIsConserved;
    match a {
      case DockRequested(w, order, invalid, outcome, pixmap) =>
        CheckedKeepsInv(s, order, invalid);
        DockedKeepsInv(Checked(s, order, invalid), w, outcome, pixmap);
        hide *;
      case WindowDestroyed(w) =>
        UndockedKeepsInv(s, w);
      case Claimed =>
        ReplayMore(s.signals, Inited);
      case WindowDamaged(w, contents) =>
        ChangedKeepsInv(s, w, contents);
      case EnableNotification(w, enabled) =>
        assert w in s.icons ==> Step(s, a).icons.Keys == s.icons.Keys;
    }
  }

  predicate IsRun(s: State, actions: seq<Action>)
    decreases |actions|
  {
    actions == [] || (Enabled(s, actions[0]) && IsRun(Step(s, actions[0]), actions[1..]))
  }

  function Run(s: State, actions: seq<Action>): State
    requires IsRun(s, actions)
    decreases |actions|
  {
    if actions == [] then s else Run(Step(s, actions[0]), actions[1..])
  }

  lemma {:induction false} RunKeepsInv(s: State, actions: seq<Action>)
    requires Inv(s) && IsRun(s, actions)
    ensures Inv(Run(s, actions))
    decreases |actions|
  {
    if actions != [] {
      StepKeepsInv(s, actions[0]);
      RunKeepsInv(Step(s, actions[0]), actions[1..]);
    }
  }

  /** After any run: the windows a listener counts, the registered icons and the watched windows are
      the same, comings and goings of each window alternate, and the damage objects not yet destroyed
      are as many as the icons. */
  lemma ListenersKnowTheIcons(actions: seq<Action>, w: Window)
    requires IsRun(INITIAL, actions)
    ensures var t := Run(INITIAL, actions);
            && Replay(t.signals) == Some(t.icons.Keys) && t.watches.Keys == t.icons.Keys
            && var visits := Visits(t.signals, w);
               (forall i | 0 <= i < |visits| :: visits[i] <==> i % 2 == 0) && (w in t.icons <==> |visits| % 2 == 1)
  {
    InitHolds();
    RunKeepsInv(INITIAL, actions);
    SensibleSignalsAlternate(Run(INITIAL, actions).signals, w);
  }

  // ---------- leaks ----------

  function Range(n: nat): (ids: set<DamageId>)
    ensures forall id :: id in ids <==> 1 <= id <= n
    ensures |ids| == n
  {
    if n == 0 then {} else Range(n - 1) + {n}
  }

  function SetOf(ids: seq<DamageId>): set<DamageId> {
    set id | id in ids
  }

  lemma {:induction false} SizeOfDistinct(ids: seq<DamageId>)
    requires NoDuplicates(ids)
    ensures |SetOf(ids)| == |ids|
  {
    if ids == [] {
      assert SetOf(ids) == {};
    } else {
      var front, last := ids[..|ids| - 1], ids[|ids| - 1];
      SizeOfDistinct(front);
      assert ids == front + [last] && last !in front;
      assert SetOf(ids) == SetOf(front) + {last};
    }
  }

  lemma {:induction false} SizeOfInjective(watches: map<Window, DamageId>)
    requires IsInjective(watches)
    ensures |watches.Values| == |watches.Keys|
    decreases watches.Keys
  {
    if watches != map[] {
      var w :| w in watches;
      var rest := watches - {w};
      assert IsInjective(rest) && watches[w] !in rest.Values;
      ValuesWithout(watches, w);
      assert watches.Keys == rest.Keys + {w};
      SizeOfInjective(rest);
    } else {
      assert watches.Values == {} && watches.Keys == {};
    }
  }

  lemma ValuesWithout(watches: map<Window, DamageId>, w: Window)
    requires w in watches
    ensures watches.Values == (watches - {w}).Values + {watches[w]}
  {
    forall id | id in watches.Values ensures id in (watches - {w}).Values + {watches[w]} {
      var v :| v in watches && watches[v] == id;
      assert v != w ==> v in watches - {w} && (watches - {w})[v] == id;
    }
  }

  lemma ConservedIds(watches: map<Window, DamageId>, next: DamageId, destroyed: seq<DamageId>)
    requires DamageIsConserved(watches, next, destroyed) && next >= 1
    ensures Range(next - 1) == watches.Values + SetOf(destroyed) && watches.Values * SetOf(destroyed) == {}
  {
    hide NoDuplicates;
    assert forall id :: IsWatched(watches, id) <==> id in watches.Values;
    hide IsWatched;
    assert forall id :: id in Range(next - 1) <==> id in watches.Values || id in SetOf(destroyed);
  }

  /** Nothing leaks: the damage objects created are as many as those destroyed and the docked icons. */
  lemma DamageObjectsAddUp(s: State)
    requires Inv(s)
    ensures s.next - 1 == |s.icons.Keys| + |s.destroyed|
  {
    ConservedIds(s.watches, s.next, s.destroyed);
    SizeOfDistinct(s.destroyed);
    SizeOfInjective(s.watches);
    hide Replay, InitedOnce, SetOf, NoDuplicates, IsInjective, IsWatched;
    assert |Range(s.next - 1)| == |s.watches.Values| + |SetOf(s.destroyed)|;
  }

  /** Checking leaves just the valid icons, whatever order they are listed in. */
  lemma {:induction false} CheckedIcons(s: State, order: seq<Window>, invalid: set<Window>)
    ensures Checked(s, order, invalid).icons == s.icons - (set w | w in order && w in invalid)
    decreases |order|
  {
    if order != [] {
      var t := if order[0] in invalid then Undocked(s, order[0]) else s;
      CheckedIcons(t, order[1..], invalid);
      assert order == [order[0]] + order[1..];
    } else {
      assert (set w | w in order && w in invalid) == {};
    }
  }

  /** A dock request leaves the icons that are still valid, and the window itself if it could be watched. */
  lemma DockingDocks(s: State, a: Action)
    requires Enabled(s, a) && a.DockRequested?
    ensures Step(s, a).icons.Keys
         == (s.icons.Keys - a.invalid) +
            (if a.outcome.Watching? || a.window in s.icons.Keys - a.invalid then {a.window} else {})
  {
    CheckedIcons(s, a.order, a.invalid);
    hide Checked;
    assert (set w | w in a.order && w in a.invalid) == s.icons.Keys * a.invalid;
  }

  // ---------- one window at a time ----------

  function IconOf(s: State, w: Window): Option<IconState> {
    if w in s.icons then Some(s.icons[w]) else None
  }

  /** What an action means for one window, whatever becomes of the others: a dock request first loses an
      invalid icon and then docks the window if it can be watched, with its changes wanted; a change of
      contents is taken over if it is wanted and readable. */
  function Fate(before: Option<IconState>, a: Action, w: Window): Option<IconState> {
    match a
    case Claimed => before
    case DockRequested(v, _, invalid, outcome, pixmap) =>
      if before.Some? && w !in invalid then before
      else if v == w && outcome.Watching? then Some(IconState(true, pixmap))
      else None
    case WindowDestroyed(v) => if v == w then None else before
    case WindowDamaged(v, contents) =>
      if v == w && before.Some? && before.value.enableNotify && contents.Some?
      then Some(IconState(true, contents.value)) else before
    case EnableNotification(v, enabled) =>
      if v == w && before.Some? then Some(IconState(enabled, before.value.pixmap)) else before
  }

  function FateOver(before: Option<IconState>, actions: seq<Action>, w: Window): Option<IconState>
    decreases |actions|
  {
    if actions == [] then before else FateOver(Fate(before, actions[0], w), actions[1..], w)
  }

  /** How often the contents of one window change under an icon that stays. */
  function Changes(before: Option<IconState>, actions: seq<Action>, w: Window): nat
    decreases |actions|
  {
    if actions == [] then 0
    else
      var after := Fate(before, actions[0], w);
      (if actions[0].WindowDamaged? && after != before then 1 else 0) + Changes(after, actions[1..], w)
  }

  /** The announced changes of one window. */
  function Announced(signals: seq<Signal>, w: Window): nat {
    multiset(signals)[Changed(w)]
  }

  lemma {:induction false} CheckingAnnouncesNoChange(s: State, order: seq<Window>, invalid: set<Window>, w: Window)
    ensures Announced(Checked(s, order, invalid).signals, w) == Announced(s.signals, w)
    ensures Checked(s, order, invalid).inited == s.inited
    decreases |order|
  {
    if order != [] {
      CheckingAnnouncesNoChange(if order[0] in invalid then Undocked(s, order[0]) else s, order[1..], invalid, w);
    }
  }

  lemma AnnouncedMore(signals: seq<Signal>, more: Signal, w: Window)
    ensures Announced(signals + [more], w) == Announced(signals, w) + if more == Changed(w) then 1 else 0
  {
  }

  lemma DockedIcon(s: State, v: Window, outcome: Outcome, pixmap: Pixmap, w: Window)
    ensures var t := Docked(s, v, outcome, pixmap);
            && t.inited == s.inited
            && IconOf(t, w) == (if w == v && w !in s.icons && outcome.Watching? then Some(IconState(true, pixmap))
                                else IconOf(s, w))
    ensures Announced(Docked(s, v, outcome, pixmap).signals, w) == Announced(s.signals, w)
  {
    AnnouncedMore(s.signals, Added(v), w);
    hide Announced;
  }

  lemma CheckedIcon(s: State, order: seq<Window>, invalid: set<Window>, w: Window)
    requires forall v <- s.icons :: v in order
    ensures IconOf(Checked(s, order, invalid), w) == if w in invalid then None else IconOf(s, w)
  {
    CheckedIcons(s, order, invalid);
  }

  lemma DockFollowsFate(s: State, a: Action, w: Window)
    requires Enabled(s, a) && a.DockRequested?
    ensures var t := Step(s, a);
            IconOf(t, w) == Fate(IconOf(s, w), a, w) && Announced(t.signals, w) == Announced(s.signals, w) && t.inited == s.inited
  {
    var u := Checked(s, a.order, a.invalid);
    CheckedIcon(s, a.order, a.invalid, w);
    CheckingAnnouncesNoChange(s, a.order, a.invalid, w);
    DockedIcon(u, a.window, a.outcome, a.pixmap, w);
    hide Checked, Announced, Docked;
  }

  lemma OtherStepFollowsFate(s: State, a: Action, w: Window)
    requires !a.DockRequested?
    ensures IconOf(Step(s, a), w) == Fate(IconOf(s, w), a, w)
    ensures Step(s, a).inited == (s.inited || a.Claimed?)
  {
  }

  lemma OtherStepAnnounces(s: State, a: Action, w: Window)
    requires !a.DockRequested?
    ensures Announced(Step(s, a).signals, w)
         == Announced(s.signals, w) + if a.WindowDamaged? && Fate(IconOf(s, w), a, w) != IconOf(s, w) then 1 else 0
  {
    hide Announced;
    match a {
      case Claimed => AnnouncedMore(s.signals, Inited, w);
      case WindowDestroyed(v) => AnnouncedMore(s.signals, Removed(v), w);
      case WindowDamaged(v, _) => AnnouncedMore(s.signals, Changed(v), w);
      case EnableNotification(_, _) =>
    }
  }

  lemma StepFollowsFate(s: State, a: Action, w: Window)
    requires Enabled(s, a)
    ensures var t := Step(s, a);
            && IconOf(t, w) == Fate(IconOf(s, w), a, w)
            && Announced(t.signals, w) == Announced(s.signals, w) + Changes(IconOf(s, w), [a], w)
            && t.inited == (s.inited || a.Claimed?)
  {
    assert Changes(Fate(IconOf(s, w), a, w), [a][1..], w) == 0;
    hide Announced, Step, IconOf, Fate, Enabled;
    if a.DockRequested? {
      DockFollowsFate(s, a, w);
    } else {
      OtherStepFollowsFate(s, a, w);
      OtherStepAnnounces(s, a, w);
    }
  }

  lemma ChangesFirst(before: Option<IconState>, actions: seq<Action>, w: Window)
    requires actions != []
    ensures Changes(before, actions, w)
         == Changes(before, [actions[0]], w) + Changes(Fate(before, actions[0], w), actions[1..], w)
  {
    assert [actions[0]][1..] == [];
  }

  /** After any run: whether a window is docked, with which contents and whether its changes are wanted,
      follows from the actions about that window alone; each change of contents has been announced once,
      and nothing else as one; and readiness is announced exactly if ownership was claimed. */
  lemma {:induction false} IconsFollowTheirActions(s: State, actions: seq<Action>, w: Window)
    requires IsRun(s, actions)
    ensures var t := Run(s, actions);
            && IconOf(t, w) == FateOver(IconOf(s, w), actions, w)
            && Announced(t.signals, w) == Announced(s.signals, w) + Changes(IconOf(s, w), actions, w)
            && (t.inited <==> s.inited || Claimed in actions)
    decreases |actions|
  {
    if actions != [] {
      StepFollowsFate(s, actions[0], w);
      ChangesFirst(IconOf(s, w), actions, w);
      hide Step, Enabled, Fate, Announced, IconOf, Changes;
      IconsFollowTheirActions(Step(s, actions[0]), actions[1..], w);
      assert actions == [actions[0]] + actions[1..];
    }
  }

  // ---------- the two managers as objects ----------

  class TrayManager1 {
    var icons: map<Window, IconState>
    var inited: bool
    var emitted: seq<Signal>

    constructor ()
      ensures icons == map[] && !inited && emitted == []
    {
      icons, inited, emitted := map[], false, [];
    }

    method RegisterIcon(win: Window, pixmap: Pixmap)
      modifies this
      ensures inited == old(inited)
      ensures forall s: State | s.icons == old(icons) && s.signals == old(emitted) ::
                icons == Registered(s, win, pixmap).icons && emitted == Registered(s, win, pixmap).signals
    {
      if win in icons {
        return;
      }
      icons := icons[win := IconState(true, pixmap)];
      emitted := emitted + [Added(win)];
    }

    method UnregisterIcon(win: Window)
      modifies this
      ensures inited == old(inited)
      ensures forall s: State | s.icons == old(icons) && s.signals == old(emitted) ::
                icons == Unregistered(s, win).icons && emitted == Unregistered(s, win).signals
    {
      if win !in icons {
        return;
      }
      icons := icons - {win};
      emitted := emitted + [Removed(win)];
    }

    method NotifyIconChanged(win: Window, contents: Option<Pixmap>)
      modifies this
      ensures inited == old(inited)
      ensures forall s: State | s.icons == old(icons) && s.signals == old(emitted) ::
                icons == IconChanged(s, win, contents).icons && emitted == IconChanged(s, win, contents).signals
    {
      if win !in icons {
        return;
      }
      var icon := icons[win];
      if !icon.enableNotify || contents.None? || icon.pixmap == contents.value {
        return;
      }
      icons := icons[win := icon.(pixmap := contents.value)];
      emitted := emitted + [Changed(win)];
    }

    /** The icons, in no order in particular. */
    method TrayIcons() returns (order: seq<Window>)
      ensures (forall w <- order :: w in icons) && (forall w <- icons :: w in order)
      ensures forall i, j | 0 <= i < j < |order| :: order[i] != order[j]
    {
      order := [];
      var todo := icons.Keys;
      while todo != {}
        invariant todo <= icons.Keys
        invariant forall w <- icons.Keys :: w in todo <==> w !in order
        invariant forall w <- order :: w in icons
        invariant forall i, j | 0 <= i < j < |order| :: order[i] != order[j]
        decreases |todo|
      {
        var w :| w in todo;
        assert forall i | 0 <= i < |order| :: order[i] in order && order[i] != w;
        order := order + [w];
        todo := todo - {w};
      }
    }

    predicate HaveIcon(win: Window)
      reads this
    {
      win in icons
    }

    method NotifyInited()
      modifies this
      ensures icons == old(icons) && inited
      ensures emitted == if old(inited) then old(emitted) else old(emitted) + [Inited]
    {
      if inited {
        return;
      }
      inited := true;
      emitted := emitted + [Inited];
    }

    method EnableNotification(win: Window, enabled: bool)
      modifies this
      ensures inited == old(inited) && emitted == old(emitted)
      ensures icons == if win in old(icons) then old(icons)[win := old(icons)[win].(enableNotify := enabled)] else old(icons)
    {
      if win !in icons {
        return;
      }
      icons := icons[win := icons[win].(enableNotify := enabled)];
    }
  }

  class FdoSelectionManager {
    const trayManager: TrayManager1
    var damageWatches: map<Window, DamageId>
    var generated: DamageId               // the next id the connection generates
    var damageDestroyed: seq<DamageId>    // the destroy requests sent

    constructor (trayManager: TrayManager1)
      ensures this.trayManager == trayManager && damageWatches == map[] && generated == 1 && damageDestroyed == []
    {
      this.trayManager, damageWatches, generated, damageDestroyed := trayManager, map[], 1, [];
    }

    ghost function Abs(): State
      reads this, trayManager
    {
      State(trayManager.icons, trayManager.inited, damageWatches, generated, damageDestroyed, trayManager.emitted)
    }

    method OnClaimedOwnership()
      modifies trayManager
      ensures Abs() == Step(old(Abs()), Claimed)
    {
      trayManager.NotifyInited();
    }

    /** Creates a damage object for the window, and destroys it again if the window is gone already. */
    method AddDamageWatch(client: Window, outcome: Outcome) returns (ok: bool)
      modifies this
      ensures Abs() == WatchAdded(old(Abs()), client, outcome) && ok == outcome.Watching?
    {
      var damageId := generated;
      generated := generated + 1;
      if outcome.AttributesGone? {
        damageDestroyed := damageDestroyed + [damageId];
        return false;
      }
      if outcome.EventMaskGone? {
        damageDestroyed := damageDestroyed + [damageId];
        return false;
      }
      damageWatches := damageWatches[client := damageId];
      ok := true;
    }

    method Undock(winId: Window)
      modifies this, trayManager
      ensures Abs() == Undocked(old(Abs()), winId)
    {
      ghost var s := Abs();
      if !trayManager.HaveIcon(winId) {
        return;
      }
      trayManager.UnregisterIcon(winId);
      assert trayManager.icons == Unregistered(s, winId).icons;
      if winId in damageWatches {
        damageDestroyed := damageDestroyed + [damageWatches[winId]];
        damageWatches := damageWatches - {winId};
      } else {
        assert damageWatches - {winId} == damageWatches;
      }
    }

    method CheckValid(invalid: set<Window>) returns (ghost order: seq<Window>)
      modifies this, trayManager
      ensures Abs() == Checked(old(Abs()), order, invalid)
      ensures forall pixmap, outcome, w :: Enabled(old(Abs()), DockRequested(w, order, invalid, outcome, pixmap))
    {
      ghost var s := Abs();
      var trayIcons := trayManager.TrayIcons();
      order := trayIcons;
      for k := 0 to |trayIcons|
        invariant Checked(Abs(), trayIcons[k..], invalid) == Checked(s, trayIcons, invalid)
      {
        assert trayIcons[k..][1..] == trayIcons[k + 1..];
        if trayIcons[k] in invalid {
          Undock(trayIcons[k]);
        }
      }
      assert trayIcons[|trayIcons|..] == [];
    }

    /** `invalid`, `outcome` and `pixmap` are what the X server replies. */
    method Dock(winId: Window, invalid: set<Window>, outcome: Outcome, pixmap: Pixmap) returns (ghost order: seq<Window>)
      modifies this, trayManager
      ensures Enabled(old(Abs()), DockRequested(winId, order, invalid, outcome, pixmap))
      ensures Abs() == Step(old(Abs()), DockRequested(winId, order, invalid, outcome, pixmap))
    {
      order := CheckValid(invalid);
      ghost var s := Abs();
      if trayManager.HaveIcon(winId) {
        return;
      }
      var ok := AddDamageWatch(winId, outcome);
      if ok {
        ghost var t := Abs();
        trayManager.RegisterIcon(winId, pixmap);
        assert Abs() == Registered(t, winId, pixmap);
      }
    }

    method OnDestroyNotify(destroyedWId: Window)
      modifies this, trayManager
      ensures Abs() == Step(old(Abs()), WindowDestroyed(destroyedWId))
    {
      if trayManager.HaveIcon(destroyedWId) {
        Undock(destroyedWId);
      }
    }

    /** The result is the damage object whose damage is subtracted. */
    method OnDamageNotify(damagedWId: Window, contents: Option<Pixmap>) returns (subtracted: Option<DamageId>)
      modifies trayManager
      ensures Abs() == Step(old(Abs()), WindowDamaged(damagedWId, contents))
      ensures subtracted == if damagedWId in damageWatches then Some(damageWatches[damagedWId]) else None
    {
      ghost var s := Abs();
      subtracted := if damagedWId in damageWatches then Some(damageWatches[damagedWId]) else None;
      trayManager.NotifyIconChanged(damagedWId, contents);
      assert trayManager.icons == IconChanged(s, damagedWId, contents).icons;
    }
  }
}
