/** The lifecycle of a plugin's card: a window that is shown in fashion mode while the plugin's item
    is added, and bound to an embedded-plugin object while it is shown.

    Hiding a window drops its binding at once but destroys the bound object later, so that the window
    can be shown, and bound anew, in between. The card item holds its window weakly: the plugin may
    destroy it at any time, once it is hidden. */
module CardSurface {
  import opened Collections

  type Window = nat
  type PluginId = nat

  // An embedded-plugin object: its window, whether it is scheduled for deletion, how many geometry
  // connections were made to it, and its order messages, queued and sent.
  datatype Plugin = Plugin(window: Window, doomed: bool, geometry: nat, queued: nat, sent: nat)

  // The card item; no window once that is destroyed.
  datatype Card = Card(window: Option<Window>)

  datatype State = State(
    fashion: bool,
    added: bool,
    card: Option<Card>,
    windows: set<Window>,
    visible: set<Window>,
    bound: map<Window, PluginId>,
    plugins: map<PluginId, Plugin>,
    next: PluginId)

  const INITIAL := State(false, false, None, {}, {}, map[], map[], 0)

  // What the loaded plugin answers when a card is wanted.
  datatype Answer = Answer(hasCards: bool, keyIsEmpty: bool, window: Option<Window>)

  datatype Action =
    | SetFashionMode(fashion: bool, hasCardFlag: bool, answer: Answer)
    | ItemAdded(hasCardFlag: bool, answer: Answer)
    | ItemRemoved
    | ContextMenu                          // opened on the visible card
    | WindowCreated(window: Window)
    | WindowHidden(window: Window)         // by the plugin or the compositor
    | WindowDestroyed(window: Window)
    | OrderSent(plugin: PluginId)          // the queued call runs
    | DoomedDeleted(plugin: PluginId)      // the deferred deletion happens, after the calls queued before it

  // ---------- windows and bindings ----------

  /** Drops the binding of `w` if it still refers to `p`. */
  function RemovedFromMap(bound: map<Window, PluginId>, w: Window, p: PluginId): map<Window, PluginId> {
    if w in bound && bound[w] == p then bound - {w} else bound
  }

  function Got(s: State, w: Window): State {
    if w in s.bound then s
    else
      s.(bound := s.bound[w := s.next], plugins := s.plugins[s.next := Plugin(w, false, 0, 0, 0)], next := s.next + 1)
  }

  /** All objects of a window, whether bound or about to be deleted, hear that it is hidden. */
  function Hidden(s: State, w: Window): State {
    if w !in s.visible then s
    else
      s.(visible := s.visible - {w},
         bound := if w in s.bound && s.bound[w] in s.plugins && s.plugins[s.bound[w]].window == w
                  then RemovedFromMap(s.bound, w, s.bound[w]) else s.bound,
         plugins := map p | p in s.plugins ::
                      if s.plugins[p].window == w then s.plugins[p].(doomed := true) else s.plugins[p])
  }

  /** Gets the object bound to `w`; one that was not bound before is connected and told its order. */
  function Bound(s: State, w: Window): State {
    if w in s.bound then s
    else
      var t, p := Got(s, w), s.next;
      t.(plugins := t.plugins[p := t.plugins[p].(geometry := t.plugins[p].geometry + 1, queued := t.plugins[p].queued + 1)])
  }

  function Shown(s: State, w: Window): State {
    s.(visible := s.visible + {w})
  }

  // ---------- the card ----------

  function CardHidden(s: State): State {
    if s.card.Some? && s.card.value.window.Some? then Hidden(s, s.card.value.window.value) else s
  }

  function Created(s: State, answer: Answer): State {
    if !answer.hasCards then s
    else
      var t := if s.card.Some? && s.card.value.window.None? then s.(card := None) else s;
      if t.card.Some? then Shown(Bound(t, t.card.value.window.value), t.card.value.window.value)
      else if answer.keyIsEmpty || answer.window.None? then t
      else Shown(Bound(t.(card := Some(Card(answer.window))), answer.window.value), answer.window.value)
  }

  predicate Answers(s: State, answer: Answer) {
    answer.window.Some? ==> answer.window.value in s.windows
  }

  predicate Enabled(s: State, a: Action) {
    match a
    case SetFashionMode(_, _, answer) => Answers(s, answer)
    case ItemAdded(_, answer) => Answers(s, answer)
    case ItemRemoved => true
    case ContextMenu => s.card.Some? && s.card.value.window.Some? && s.card.value.window.value in s.visible
    case WindowCreated(w) => w !in s.windows
    case WindowHidden(w) => w in s.windows
    case WindowDestroyed(w) => w in s.windows && w !in s.visible
    case OrderSent(p) => p in s.plugins && s.plugins[p].queued > 0
    case DoomedDeleted(p) => p in s.plugins && s.plugins[p].doomed && s.plugins[p].queued == 0
  }

  function Step(s: State, a: Action): State
    requires Enabled(s, a)
  {
    match a
    case SetFashionMode(fashion, hasCardFlag, answer) =>
      if s.fashion == fashion then s
      else
        var t := s.(fashion := fashion);
        if !hasCardFlag then t
        else if !fashion then CardHidden(t)
        else if t.added then Created(t, answer)
        else t
    case ItemAdded(hasCardFlag, answer) =>
      var t := s.(added := true);
      if hasCardFlag && t.fashion then Created(t, answer) else t
    case ItemRemoved => CardHidden(s.(added := false))
    case ContextMenu => Got(s, s.card.value.window.value)
    case WindowCreated(w) => s.(windows := s.windows + {w})
    case WindowHidden(w) => Hidden(s, w)
    case WindowDestroyed(w) =>
      // its objects are its children, and go with it
      s.(windows := s.windows - {w},
         plugins := map p | p in s.plugins && s.plugins[p].window != w :: s.plugins[p],
         card := if s.card == Some(Card(Some(w))) then Some(Card(None)) else s.card)
    case OrderSent(p) =>
      var plugin := s.plugins[p];
      s.(plugins := s.plugins[p := plugin.(queued := plugin.queued - 1, sent := plugin.sent + 1)])
    case DoomedDeleted(p) =>
      s.(bound := RemovedFromMap(s.bound, s.plugins[p].window, p), plugins := s.plugins - {p})
  }

  // ---------- invariants ----------

  predicate IsCard(card: Option<Card>, w: Window) {
    card == Some(Card(Some(w)))
  }

  /** Only the card is visible, and only in fashion mode while the item is added. */
  predicate OnlyCardIsVisible(fashion: bool, added: bool, card: Option<Card>, visible: set<Window>) {
    forall w <- visible :: fashion && added && IsCard(card, w)
  }

  /** A binding refers to an object of its window that is not scheduled for deletion. */
  predicate BindingsAreLive(bound: map<Window, PluginId>, plugins: map<PluginId, Plugin>) {
    forall w <- bound :: bound[w] in plugins && plugins[bound[w]].window == w && !plugins[bound[w]].doomed
  }

  /** Every object not scheduled for deletion is the one its window is bound to. */
  predicate LiveAreBound(bound: map<Window, PluginId>, plugins: map<PluginId, Plugin>) {
    forall p <- plugins | !plugins[p].doomed :: plugins[p].window in bound && bound[plugins[p].window] == p
  }

  /** Every object has one geometry connection, and one order message, queued or sent. */
  predicate ConnectedOnce(plugins: map<PluginId, Plugin>) {
    forall p <- plugins :: plugins[p].geometry == 1 && plugins[p].queued + plugins[p].sent == 1
  }

  ghost predicate Inv(s: State) {
    && s.visible == s.bound.Keys
    && OnlyCardIsVisible(s.fashion, s.added, s.card, s.visible)
    && BindingsAreLive(s.bound, s.plugins)
    && LiveAreBound(s.bound, s.plugins)
    && ConnectedOnce(s.plugins)
    && (forall w | IsCard(s.card, w) :: w in s.windows)
    && s.visible <= s.windows
    && (forall p <- s.plugins :: s.plugins[p].window in s.windows && p < s.next)
  }

  lemma InitHolds()
    ensures Inv(INITIAL)
  {
  }

  lemma HiddenKeepsInv(s: State, w: Window)
    requires Inv(s)
    ensures Inv(Hidden(s, w)) && w !in Hidden(s, w).visible
  {
  }

  /** Hiding the card hides all there is to see, so that it does not matter any more whether the mode
      is on and the item added. */
  lemma HidingTheCard(s: State, fashion: bool, added: bool)
    requires Inv(s)
    ensures Inv(CardHidden(s.(fashion := fashion, added := added)))
  {
    var t := CardHidden(s.(fashion := fashion, added := added));
    var u := CardHidden(s);
    assert t == u.(fashion := fashion, added := added);
    if s.card.Some? && s.card.value.window.Some? {
      HiddenKeepsInv(s, s.card.value.window.value);
    }
    assert u.visible == {};
  }

  lemma BindingKeepsInv(s: State, w: Window)
    requires Inv(s) && s.fashion && s.added && IsCard(s.card, w)
    ensures var t := Shown(Bound(s, w), w);
            Inv(t) && t.visible == {w} && (w in s.bound ==> t == s)
  {
  }

  lemma CreatedKeepsInv(s: State, answer: Answer)
    requires Inv(s) && s.fashion && s.added && Answers(s, answer)
    ensures Inv(Created(s, answer))
  {
    if answer.hasCards {
      var t := if s.card.Some? && s.card.value.window.None? then s.(card := None) else s;
      if t.card.Some? {
        BindingKeepsInv(t, t.card.value.window.value);
      } else if !answer.keyIsEmpty && answer.window.Some? {
        BindingKeepsInv(t.(card := Some(Card(answer.window))), answer.window.value);
      }
    }
  }

  lemma WindowStepKeepsInv(s: State, a: Action)
    requires Inv(s) && Enabled(s, a) && (a.WindowCreated? || a.WindowDestroyed?)
    ensures Inv(Step(s, a))
  {
  }

  lemma PluginStepKeepsInv(s: State, a: Action)
    requires Inv(s) && Enabled(s, a) && (a.OrderSent? || a.DoomedDeleted?)
    ensures Inv(Step(s, a)) && Step(s, a).bound == s.bound
  {
  }

  /** The mode is switched off without the card flag set, while the card is shown. */
  predicate LosesCard(s: State, a: Action) {
    a.SetFashionMode? && !a.fashion && !a.hasCardFlag && s.visible != {}
  }

  lemma ModeStepKeepsInvIff(s: State, a: Action)
    requires Inv(s) && Enabled(s, a) && a.SetFashionMode?
    ensures Inv(Step(s, a)) <==> !LosesCard(s, a)
  {
    if s.fashion != a.fashion {
      if !a.hasCardFlag {
        if s.visible != {} {
          var w :| w in s.visible;
        }
      } else if !a.fashion {
        HidingTheCard(s, false, s.added);
      } else {
        assert s.visible == {};
        var t := s.(fashion := true);
        assert Inv(t);
        if s.added {
          CreatedKeepsInv(t, a.answer);
        }
      }
    }
  }

  lemma ItemStepKeepsInv(s: State, a: Action)
    requires Inv(s) && Enabled(s, a) && (a.ItemAdded? || a.ItemRemoved?)
    ensures Inv(Step(s, a))
  {
    if a.ItemRemoved? {
      HidingTheCard(s, s.fashion, false);
    } else {
      var t := s.(added := true);
      assert Inv(t);
      if a.hasCardFlag && t.fashion {
        CreatedKeepsInv(t, a.answer);
      }
    }
  }

  /** A step keeps the invariant, except exactly for one that switches fashion mode off after the
      card flag was lost: it leaves the card standing. */
  lemma StepKeepsInvIff(s: State, a: Action)
    requires Inv(s) && Enabled(s, a)
    ensures Inv(Step(s, a)) <==> !LosesCard(s, a)
  {
    hide Inv;
    match a {
      case SetFashionMode(_, _, _) => ModeStepKeepsInvIff(s, a);
      case ItemAdded(_, _) => ItemStepKeepsInv(s, a);
      case ItemRemoved => ItemStepKeepsInv(s, a);
      case ContextMenu => MenuBindsNothing(s);
      case WindowHidden(w) => HiddenKeepsInv(s, w);
      case OrderSent(_) => PluginStepKeepsInv(s, a);
      case DoomedDeleted(_) => PluginStepKeepsInv(s, a);
      case WindowCreated(_) => WindowStepKeepsInv(s, a);
      case WindowDestroyed(_) => WindowStepKeepsInv(s, a);
    }
  }

  /** A menu opened on the card finds its object and never makes one. */
  lemma MenuBindsNothing(s: State)
    requires Inv(s) && Enabled(s, ContextMenu)
    ensures Step(s, ContextMenu) == s
  {
  }

  // ---------- runs ----------

  predicate IsRun(s: State, actions: seq<Action>)
    decreases |actions|
  {
    actions == [] || (Enabled(s, actions[0]) && IsRun(Step(s, actions[0]), actions[1..]))
  }

  function Run(s: State, actions: seq<Action>): State
    requires IsRun(s, actions)
    decreases |actions|
  {
    if actions == [] then s else Run(Step(s, actions[0]), actions[1..])
  }

  predicate KeepsCardFlag(s: State, actions: seq<Action>)
    requires IsRun(s, actions)
    decreases |actions|
  {
    actions == [] || (!LosesCard(s, actions[0]) && KeepsCardFlag(Step(s, actions[0]), actions[1..]))
  }

  /** Over every run that keeps the card flag: a card is visible just while it is bound, and then
      fashion mode is on and the item added; no binding refers to an object about to be deleted; and
      every object has one geometry connection and one order message. */
  lemma {:induction false} RunKeepsInv(s: State, actions: seq<Action>)
    requires Inv(s) && IsRun(s, actions) && KeepsCardFlag(s, actions)
    ensures Inv(Run(s, actions))
    decreases |actions|
  {
    if actions != [] {
      StepKeepsInvIff(s, actions[0]);
      RunKeepsInv(Step(s, actions[0]), actions[1..]);
    }
  }

  ghost predicate InvThroughout(s: State, actions: seq<Action>)
    requires IsRun(s, actions)
    decreases |actions|
  {
    Inv(s) && (actions == [] || InvThroughout(Step(s, actions[0]), actions[1..]))
  }

  /** All that holds at every point of a run exactly if the run keeps the card flag. */
  lemma {:induction false} CardStaysInOrderIff(s: State, actions: seq<Action>)
    requires Inv(s) && IsRun(s, actions)
    ensures InvThroughout(s, actions) <==> KeepsCardFlag(s, actions)
    decreases |actions|
  {
    hide Inv, Step, LosesCard;
    if actions != [] {
      StepKeepsInvIff(s, actions[0]);
      if Inv(Step(s, actions[0])) {
        CardStaysInOrderIff(Step(s, actions[0]), actions[1..]);
      }
    }
  }

  lemma RunPrepend(s: State, a: Action, rest: seq<Action>)
    requires Enabled(s, a) && IsRun(Step(s, a), rest)
    ensures IsRun(s, [a] + rest) && Run(s, [a] + rest) == Run(Step(s, a), rest)
  {
    assert ([a] + rest)[1..] == rest;
  }

  lemma CardComesAndFlagGoes(w: Window, answer: Answer, s1: State, s2: State, s3: State)
    requires answer == Answer(true, false, Some(w))
    requires s1 == INITIAL.(windows := {w}) && s2 == s1.(fashion := true)
    requires s3 == State(true, true, Some(Card(Some(w))), {w}, {w}, map[w := 0], map[0 := Plugin(w, false, 1, 1, 0)], 1)
    ensures Enabled(INITIAL, WindowCreated(w)) && Step(INITIAL, WindowCreated(w)) == s1
    ensures Enabled(s1, SetFashionMode(true, true, answer)) && Step(s1, SetFashionMode(true, true, answer)) == s2
    ensures Enabled(s2, ItemAdded(true, answer)) && Step(s2, ItemAdded(true, answer)) == s3
    ensures Enabled(s3, SetFashionMode(false, false, answer))
    ensures Step(s3, SetFashionMode(false, false, answer)) == s3.(fashion := false)
  {
    var p0 := Plugin(w, false, 0, 0, 0);
    assert map[0 := p0][0 := p0.(geometry := 1, queued := 1)] == map[0 := Plugin(w, false, 1, 1, 0)];
  }

  /** The exception is met: a card that is shown, then loses its flag, stays visible when fashion mode
      is switched off. */
  lemma LostFlagLeavesCard(w: Window, answer: Answer)
    requires answer == Answer(true, false, Some(w))
    ensures var all := [WindowCreated(w), SetFashionMode(true, true, answer), ItemAdded(true, answer),
                        SetFashionMode(false, false, answer)];
            IsRun(INITIAL, all) && w in Run(INITIAL, all).visible && !Run(INITIAL, all).fashion
  {
    var s1 := INITIAL.(windows := {w});
    var s2 := s1.(fashion := true);
    var s3 := State(true, true, Some(Card(Some(w))), {w}, {w}, map[w := 0], map[0 := Plugin(w, false, 1, 1, 0)], 1);
    CardComesAndFlagGoes(w, answer, s1, s2, s3);
    var all := [WindowCreated(w), SetFashionMode(true, true, answer), ItemAdded(true, answer),
                SetFashionMode(false, false, answer)];
    hide Step, Enabled;
    RunPrepend(s3, SetFashionMode(false, false, answer), []);
    RunPrepend(s2, ItemAdded(true, answer), all[3..]);
    RunPrepend(s1, SetFashionMode(true, true, answer), all[2..]);
    RunPrepend(INITIAL, WindowCreated(w), all[1..]);
  }

  /** From the start: as long as no step loses the card, a card is visible just while it is bound, and
      then fashion mode is on and the item added. */
  lemma VisibleCardIsWanted(actions: seq<Action>, w: Window)
    requires IsRun(INITIAL, actions) && KeepsCardFlag(INITIAL, actions)
    ensures var t := Run(INITIAL, actions);
            && (w in t.visible <==> w in t.bound)
            && (w in t.visible ==> t.fashion && t.added && IsCard(t.card, w))
            && (w in t.visible ==> t.bound[w] in t.plugins && !t.plugins[t.bound[w]].doomed)
  {
    InitHolds();
    RunKeepsInv(INITIAL, actions);
  }

  // ---------- showing again ----------

  /** A wanted card is visible, and bound to an object that is not about to be deleted: the one it
      was bound to if it was visible, else a new one, connected and with its order on the way. */
  lemma WantedCardIsShown(s: State, answer: Answer)
    requires Inv(s) && s.fashion && Answers(s, answer)
    requires answer.hasCards && !answer.keyIsEmpty && answer.window.Some?
    ensures var t := Step(s, ItemAdded(true, answer));
            && t.card.Some? && t.card.value.window.Some?
            && var w := t.card.value.window.value;
            && t.visible == {w} && w in t.bound
            && (w in s.visible ==> t.bound == s.bound && t.plugins == s.plugins)
            && (w !in s.visible ==> t.bound[w] == s.next && t.plugins[s.next] == Plugin(w, false, 1, 1, 0))
  {
    AskedCardIsShown(s, ItemAdded(true, answer));
  }

  // ---------- what one operation leaves behind ----------

  /** The card is asked for: the item is added in fashion mode, or the mode comes on with the item added. */
  predicate AsksForCard(s: State, a: Action) {
    || (a.ItemAdded? && a.hasCardFlag && s.fashion)
    || (a.SetFashionMode? && a.hasCardFlag && a.fashion && !s.fashion && s.added)
  }

  /** The window a card would have: the one it has, or else the one the plugin answers. */
  function Candidate(s: State, answer: Answer): Option<Window> {
    if !answer.hasCards then None
    else if s.card.Some? && s.card.value.window.Some? then s.card.value.window
    else if answer.keyIsEmpty then None
    else answer.window
  }

  lemma CandidateIsShown(s: State, answer: Answer)
    requires Inv(s) && s.fashion && s.added && Answers(s, answer)
    ensures var t, w := Created(s, answer), Candidate(s, answer);
            if w.None? then t.visible == s.visible && t.bound == s.bound && t.plugins == s.plugins
            else
              && IsCard(t.card, w.value) && t.visible == {w.value} && w.value in t.bound
              && (w.value in s.visible ==> t.bound == s.bound && t.plugins == s.plugins)
              && (w.value !in s.visible ==>
                    t.bound[w.value] == s.next && t.plugins == s.plugins[s.next := Plugin(w.value, false, 1, 1, 0)])
  {
    var w := Candidate(s, answer);
    if w.Some? {
      if s.card.Some? && s.card.value.window.Some? {
        BindingKeepsInv(s, w.value);
      } else {
        assert s.visible == {};
        BindingKeepsInv(s.(card := Some(Card(w))), w.value);
      }
    }
  }

  /** A card that is asked for is shown, in either order of adding the item and switching the mode on,
      exactly if the plugin has cards and there is a window for it; it is then bound as usual. */
  lemma AskedCardIsShown(s: State, a: Action)
    requires Inv(s) && Enabled(s, a) && AsksForCard(s, a)
    ensures var t, w := Step(s, a), Candidate(s, a.answer);
            if w.None? then t.visible == s.visible && t.bound == s.bound && t.plugins == s.plugins
            else
              && IsCard(t.card, w.value) && t.visible == {w.value} && w.value in t.bound
              && (w.value in s.visible ==> t.bound == s.bound && t.plugins == s.plugins)
              && (w.value !in s.visible ==>
                    t.bound[w.value] == s.next && t.plugins == s.plugins[s.next := Plugin(w.value, false, 1, 1, 0)])
  {
    var t := if a.ItemAdded? then s.(added := true) else s.(fashion := true);
    assert a.SetFashionMode? ==> s.visible == {};
    assert Inv(t);
    hide Created, Inv;
    CandidateIsShown(t, a.answer);
  }

  /** Without such a call nothing is shown, bound or made, and the card stays what it is. */
  lemma NothingIsShownUnasked(s: State, a: Action)
    requires Inv(s) && Enabled(s, a) && (a.ItemAdded? || a.SetFashionMode?) && !AsksForCard(s, a)
    requires a.SetFashionMode? && !a.fashion ==> !a.hasCardFlag
    ensures var t := Step(s, a);
            t.visible == s.visible && t.bound == s.bound && t.plugins == s.plugins && t.card == s.card
  {
  }

  /** Removing the item, or switching the mode off while the plugin has the card flag, leaves nothing
      visible or bound; the card keeps its window, and the object it was bound to is to be deleted. */
  lemma UnwantedCardIsHidden(s: State, a: Action, w: Window)
    requires Inv(s) && Enabled(s, a)
    requires a.ItemRemoved? || (a.SetFashionMode? && !a.fashion && a.hasCardFlag)
    ensures var t := Step(s, a);
            && t.visible == {} && t.bound == map[] && t.card == s.card && t.windows == s.windows
            && (w in s.visible ==> s.bound[w] in t.plugins && t.plugins[s.bound[w]].doomed)
  {
    assert s.visible != {} ==> s.card.Some? && s.card.value.window.Some? && s.visible == {s.card.value.window.value};
  }

  /** Hiding a window is about that window only. */
  lemma HidingIsLocal(s: State, w: Window, v: Window)
    requires Inv(s) && w in s.windows
    ensures var t := Step(s, WindowHidden(w));
            && (v in t.visible <==> v in s.visible && v != w)
            && (v in t.bound <==> v in s.bound && v != w) && (v in t.bound ==> t.bound[v] == s.bound[v])
            && t.plugins.Keys == s.plugins.Keys
            && (forall p <- s.plugins | s.plugins[p].window != w :: t.plugins[p] == s.plugins[p])
            && (w in s.bound ==> t.plugins[s.bound[w]].doomed)
  {
  }

  /** Order messages are sent once; deletions take just their object; a window that is destroyed takes its
      objects and leaves the card without a window. None of these shows or binds anything. */
  lemma OtherStepsAreLocal(s: State, a: Action)
    requires Inv(s) && Enabled(s, a)
    requires a.OrderSent? || a.DoomedDeleted? || a.WindowCreated? || a.WindowDestroyed? || a.ContextMenu?
    ensures var t := Step(s, a);
            && t.visible == s.visible && t.bound == s.bound
            && (a.OrderSent? ==>
                  t.plugins.Keys == s.plugins.Keys && t.plugins[a.plugin].sent == 1 && t.plugins[a.plugin].queued == 0)
            && (a.DoomedDeleted? ==> t.plugins.Keys == s.plugins.Keys - {a.plugin})
            && (a.WindowDestroyed? ==> forall p :: p in t.plugins <==> p in s.plugins && s.plugins[p].window != a.window)
            && (forall p <- t.plugins | a.OrderSent? ==> p != a.plugin :: p in s.plugins && t.plugins[p] == s.plugins[p])
            && (a.WindowCreated? ==> t.windows == s.windows + {a.window})
            && (a.WindowDestroyed? ==> t.windows == s.windows - {a.window})
            && (forall w :: IsCard(t.card, w) <==> IsCard(s.card, w) && !(a.WindowDestroyed? && a.window == w))
  {
    if a.ContextMenu? {
      MenuBindsNothing(s);
    } else if a.OrderSent? || a.DoomedDeleted? {
      PluginStepKeepsInv(s, a);
    }
  }

  /** Whether the item is there, by the last action of a run about it. */
  function ItemIsAdded(before: bool, actions: seq<Action>): bool
    decreases |actions|
  {
    if actions == [] then before
    else ItemIsAdded(if actions[0].ItemAdded? then true else if actions[0].ItemRemoved? then false else before, actions[1..])
  }

  /** Whether fashion mode is on, by the last action of a run about it. */
  function ModeIsOn(before: bool, actions: seq<Action>): bool
    decreases |actions|
  {
    if actions == [] then before
    else ModeIsOn(if actions[0].SetFashionMode? then actions[0].fashion else before, actions[1..])
  }

  /** The two conditions for a card follow the actions of a run, whatever else happens in it. */
  lemma {:induction false} ConditionsFollowActions(s: State, actions: seq<Action>)
    requires IsRun(s, actions)
    ensures Run(s, actions).added == ItemIsAdded(s.added, actions) && Run(s, actions).fashion == ModeIsOn(s.fashion, actions)
    decreases |actions|
  {
    if actions != [] {
      var a, t := actions[0], Step(s, actions[0]);
      assert t.added == if a.ItemAdded? then true else if a.ItemRemoved? then false else s.added;
      assert t.fashion == if a.SetFashionMode? then a.fashion else s.fashion;
      hide Step, Enabled;
      ConditionsFollowActions(t, actions[1..]);
    }
  }

  /** The late deletion of an object leaves all bindings as they are. */
  lemma LateDeletionKeepsBindings(s: State, p: PluginId)
    requires Inv(s) && Enabled(s, DoomedDeleted(p))
    ensures Step(s, DoomedDeleted(p)).bound == s.bound
  {
    PluginStepKeepsInv(s, DoomedDeleted(p));
  }

  /** Deleting an object without the guard: whatever its window is bound to by then is unbound. */
  function DeletedUnguarded(s: State, p: PluginId): State
    requires p in s.plugins
  {
    s.(bound := s.bound - {s.plugins[p].window}, plugins := s.plugins - {p})
  }

  /** Without the guard a late deletion does the same exactly when its window has not been bound again. */
  lemma UnguardedDeletionIsSafeIff(s: State, p: PluginId)
    requires Inv(s) && Enabled(s, DoomedDeleted(p))
    ensures DeletedUnguarded(s, p) == Step(s, DoomedDeleted(p)) <==> s.plugins[p].window !in s.bound
  {
    var w := s.plugins[p].window;
    if w !in s.bound {
      assert s.bound - {w} == s.bound;
    } else {
      assert w !in DeletedUnguarded(s, p).bound && w in Step(s, DoomedDeleted(p)).bound;
    }
  }

  /** And it can be bound again by then: removing and adding the item while its card is shown binds
      the window to a new object before the old one is deleted. */
  lemma ReboundBeforeDeletion(s: State, w: Window, answer: Answer)
    requires Inv(s) && w in s.visible && answer.hasCards && Answers(s, answer)
    ensures var t := Step(Step(s, ItemRemoved), ItemAdded(true, answer));
            && w in t.bound && t.bound[w] == s.next && w in t.visible
            && s.bound[w] in t.plugins && s.bound[w] != s.next
            && t.plugins[s.bound[w]].doomed && t.plugins[s.bound[w]].window == w
  {
    var u := Step(s, ItemRemoved);
    assert u == Hidden(s.(added := false), w);
    assert s.card == Some(Card(Some(w))) && w !in u.bound;
  }

  /** The objects of `w` have been doomed, except for those still to do. */
  function PartlyDoomed(plugins: map<PluginId, Plugin>, w: Window, todo: set<PluginId>): map<PluginId, Plugin> {
    map p | p in plugins :: if plugins[p].window == w && p !in todo then plugins[p].(doomed := true) else plugins[p]
  }

  function PartlyUnbound(bound: map<Window, PluginId>, plugins: map<PluginId, Plugin>, w: Window, todo: set<PluginId>)
    : map<Window, PluginId>
  {
    if w in bound && bound[w] in plugins && plugins[bound[w]].window == w && bound[w] !in todo then bound - {w} else bound
  }

  lemma NoneDoomed(plugins: map<PluginId, Plugin>, bound: map<Window, PluginId>, w: Window)
    ensures var all := set p | p in plugins && plugins[p].window == w;
            PartlyDoomed(plugins, w, all) == plugins && PartlyUnbound(bound, plugins, w, all) == bound
  {
  }

  lemma DoomOneMore(plugins: map<PluginId, Plugin>, bound: map<Window, PluginId>, w: Window, todo: set<PluginId>, p: PluginId)
    requires p in plugins && plugins[p].window == w && p in todo
    ensures var before := PartlyDoomed(plugins, w, todo);
            p in before && before[p := before[p].(doomed := true)] == PartlyDoomed(plugins, w, todo - {p})
    ensures RemovedFromMap(PartlyUnbound(bound, plugins, w, todo), w, p) == PartlyUnbound(bound, plugins, w, todo - {p})
  {
  }

  // ---------- as objects ----------

  /** The windows of the process and the static map of embedded-plugin objects. */
  class Surfaces {
    var windows: set<Window>
    var visible: set<Window>
    var sMap: map<Window, PluginId>
    var plugins: map<PluginId, Plugin>
    var next: PluginId

    constructor ()
      ensures forall f, a, c :: Abs(f, a, c) == INITIAL.(fashion := f, added := a, card := c)
    {
      windows, visible, sMap, plugins, next := {}, {}, map[], map[], 0;
    }

    ghost function Abs(fashion: bool, added: bool, card: Option<Card>): State
      reads this
    {
      State(fashion, added, card, windows, visible, sMap, plugins, next)
    }

    predicate Contains(window: Window)
      reads this
    {
      window in sMap
    }

    method Get(window: Window) returns (plugin: PluginId)
      modifies this
      ensures forall f, a, c :: Abs(f, a, c) == Got(old(Abs(f, a, c)), window)
      ensures window in sMap && plugin == sMap[window]
    {
      if window in sMap {
        return sMap[window];
      }
      plugin := next;
      plugins := plugins[plugin := Plugin(window, false, 0, 0, 0)];
      next := next + 1;
      sMap := sMap[window := plugin];
    }

    method RemoveFromPluginMap(window: Window, plugin: PluginId)
      modifies this`sMap
      ensures sMap == RemovedFromMap(old(sMap), window, plugin)
    {
      if window in sMap && sMap[window] == plugin {
        sMap := sMap - {window};
      }
    }

    method Show(window: Window)
      modifies this`visible
      ensures visible == old(visible) + {window}
    {
      visible := visible + {window};
    }

    /** The visibility handlers of the objects of a window that was hidden, in no order in particular. */
    method OnHidden(window: Window)
      modifies this`plugins, this`sMap
      ensures plugins == PartlyDoomed(old(plugins), window, {})
      ensures sMap == PartlyUnbound(old(sMap), old(plugins), window, {})
    {
      var todo := set p | p in plugins && plugins[p].window == window;
      NoneDoomed(plugins, sMap, window);
      while todo != {}
        invariant forall p <- todo :: p in old(plugins) && old(plugins)[p].window == window
        invariant plugins == PartlyDoomed(old(plugins), window, todo)
        invariant sMap == PartlyUnbound(old(sMap), old(plugins), window, todo)
        decreases |todo|
      {
        hide PartlyDoomed, PartlyUnbound, RemovedFromMap;
        var p :| p in todo;
        DoomOneMore(old(plugins), old(sMap), window, todo, p);
        RemoveFromPluginMap(window, p);
        plugins := plugins[p := plugins[p].(doomed := true)];
        todo := todo - {p};
      }
    }

    method Hide(window: Window)
      modifies this
      ensures forall f, a, c :: Abs(f, a, c) == Hidden(old(Abs(f, a, c)), window)
    {
      if window !in visible {
        return;
      }
      visible := visible - {window};
      OnHidden(window);
      assert plugins == map p | p in old(plugins) ::
                          if old(plugins)[p].window == window then old(plugins)[p].(doomed := true) else old(plugins)[p];
    }

    /** The deferred deletion of an object: its `destroyed` handler, after the object is gone. */
    method DeletePlugin(p: PluginId)
      requires p in plugins && plugins[p].doomed && plugins[p].queued == 0
      modifies this
      ensures forall f, a, c :: Abs(f, a, c) == Step(old(Abs(f, a, c)), DoomedDeleted(p))
    {
      var window := plugins[p].window;
      plugins := plugins - {p};
      RemoveFromPluginMap(window, p);
    }
  }

  class CardPluginItem {
    const surfaces: Surfaces
    var window: Option<Window>

    constructor (surfaces: Surfaces)
      ensures this.surfaces == surfaces && window == None
    {
      this.surfaces, window := surfaces, None;
    }

    method Init(answer: Answer) returns (ok: bool)
      modifies this
      ensures ok == answer.window.Some? && window == if ok then answer.window else old(window)
    {
      if answer.window.None? {
        return false;
      }
      window := answer.window;
      ok := true;
    }

    method Show()
      modifies surfaces`visible
      ensures surfaces.visible == if window.Some? then old(surfaces.visible) + {window.value} else old(surfaces.visible)
    {
      if window.Some? {
        surfaces.Show(window.value);
      }
    }

    method Hide()
      modifies surfaces
      ensures forall f, a :: surfaces.Abs(f, a, Some(Card(window))) == CardHidden(old(surfaces.Abs(f, a, Some(Card(window)))))
    {
      if window.Some? {
        surfaces.Hide(window.value);
      }
    }
  }

  class WidgetPlugin {
    const surfaces: Surfaces
    var fashionMode: bool
    var itemAdded: bool
    var cardItem: CardPluginItem?

    constructor (surfaces: Surfaces)
      ensures this.surfaces == surfaces && !fashionMode && !itemAdded && cardItem == null
    {
      this.surfaces, fashionMode, itemAdded, cardItem := surfaces, false, false, null;
    }

    predicate Valid()
      reads this, cardItem
    {
      cardItem != null ==> cardItem.surfaces == surfaces
    }

    ghost function Abs(): State
      reads this, surfaces, cardItem
    {
      surfaces.Abs(fashionMode, itemAdded, if cardItem == null then None else Some(Card(cardItem.window)))
    }

    /** Binds the card's window; a newly bound object is connected, and its order queued. */
    method BindCardPluginSurface(answer: Answer) returns (ok: bool)
      requires Valid()
      modifies surfaces
      ensures ok <==> answer.hasCards && cardItem != null && cardItem.window.Some?
      ensures Abs() == if ok then Bound(old(Abs()), cardItem.window.value) else old(Abs())
    {
      if !answer.hasCards {
        return false;
      }
      if cardItem == null || cardItem.window.None? {
        return false;
      }
      ghost var s := Abs();
      var window := cardItem.window.value;
      var bound := surfaces.Contains(window);
      var plugin := surfaces.Get(window);
      assert Abs() == Got(s, window);
      if bound {
        return true;
      }
      var embedded := surfaces.plugins[plugin];
      embedded := embedded.(geometry := embedded.geometry + 1, queued := embedded.queued + 1);
      surfaces.plugins := surfaces.plugins[plugin := embedded];
      ok := true;
    }

    method CreateCardItemIfNeeded(answer: Answer)
      requires Valid()
      modifies this`cardItem, surfaces
      ensures Valid() && (cardItem == old(cardItem) || cardItem == null || fresh(cardItem))
      ensures Abs() == Created(old(Abs()), answer)
    {
      if !answer.hasCards {
        return;
      }
      if cardItem != null && cardItem.window.None? {
        cardItem := null;
      }
      if cardItem == null {
        if answer.keyIsEmpty {
          return;
        }
        var item := new CardPluginItem(surfaces);
        var initialised := item.Init(answer);
        if !initialised {
          return;
        }
        cardItem := item;
      }
      var ok := BindCardPluginSurface(answer);
      if !ok {
        return;
      }
      cardItem.Show();
    }

    method SetFashionMode(fashion: bool, hasCardFlag: bool, answer: Answer)
      requires Valid() && Enabled(Abs(), Action.SetFashionMode(fashion, hasCardFlag, answer))
      modifies this, surfaces
      ensures Valid() && Abs() == Step(old(Abs()), Action.SetFashionMode(fashion, hasCardFlag, answer))
    {
      if fashionMode == fashion {
        return;
      }
      fashionMode := fashion;
      if !hasCardFlag {
        return;
      }
      if !fashionMode {
        if cardItem != null {
          cardItem.Hide();
        }
        return;
      }
      if itemAdded {
        CreateCardItemIfNeeded(answer);
      }
    }

    method ItemAdded(hasCardFlag: bool, answer: Answer)
      requires Valid() && Enabled(Abs(), Action.ItemAdded(hasCardFlag, answer))
      modifies this, surfaces
      ensures Valid() && Abs() == Step(old(Abs()), Action.ItemAdded(hasCardFlag, answer))
    {
      itemAdded := true;
      if hasCardFlag {
        if fashionMode {
          CreateCardItemIfNeeded(answer);
        }
      }
    }

    method ItemRemoved()
      requires Valid()
      modifies this, surfaces
      ensures Valid() && Abs() == Step(old(Abs()), Action.ItemRemoved)
    {
      itemAdded := false;
      if cardItem != null {
        cardItem.Hide();
      }
    }
  }
}
