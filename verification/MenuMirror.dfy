/** The mirror of a D-Bus menu: a tree of menus and actions kept up to date by layout replies, and one
    global map from item id to action. Outdated actions are deleted later, together with their
    submenus, and every action's destruction removes its id from the map.

    Actions are numbered as they are created; a submenu goes by the action it belongs to. */
module MenuMirror {
  import opened Collections

  type Action = nat

  datatype Menu = Root | Submenu(owner: Action)

  // An action's item id, the menu it was created in, and whether it has a submenu.
  datatype Info = Info(id: int, home: Menu, hasMenu: bool)

  // One child in a layout reply.
  datatype Child = Child(id: int, hasMenu: bool)

  type Actions = map<Action, Info>
  type Lists = map<Menu, seq<Action>>

  datatype State = State(
    next: Action,
    actions: Actions,                    // the existing actions
    lists: Lists,                        // the existing menus and the actions they list
    actionForId: map<int, Action>,
    doomed: set<Action>,                 // actions whose deletion, and their submenus', is scheduled
    wanted: map<Menu, seq<int>>)         // history: the ids in the last reply for each menu

  const INITIAL := State(0, map[], map[Root := []], map[], {}, map[])

  function Without<T(==)>(xs: seq<T>, x: T): seq<T> {
    if xs == [] then []
    else
      var n := |xs| - 1;
      Without(xs[..n], x) + if xs[n] == x then [] else [xs[n]]
  }

  function Ids(children: seq<Child>): (ids: seq<int>)
    ensures |ids| == |children| && forall i | 0 <= i < |ids| :: ids[i] == children[i].id
  {
    seq(|children|, i requires 0 <= i < |children| => children[i].id)
  }

  function IdsOf(actions: Actions, some: set<Action>): set<int> {
    set a | a in some && a in actions :: actions[a].id
  }

  // ---------- what a layout reply does ----------

  /** The menu a reply is about: the top one, or the submenu of the action with that id. */
  function MenuForId(s: State, id: int): Option<Menu> {
    if id == 0 then Some(Root)
    else if id in s.actionForId && Submenu(s.actionForId[id]) in s.lists then Some(Submenu(s.actionForId[id]))
    else None
  }

  /** The listed actions that the reply no longer mentions. */
  function Outdated(actions: Actions, list: seq<Action>, ids: seq<int>): set<Action> {
    set a | a in list && a in actions && actions[a].id !in ids
  }

  function WithoutOutdated(s: State, menu: Menu, ids: seq<int>): State
    requires menu in s.lists
  {
    var outdated := Outdated(s.actions, s.lists[menu], ids);
    s.(doomed := s.doomed + outdated, actionForId := s.actionForId - IdsOf(s.actions, outdated))
  }

  /** Moves an action the menu holds already to its end. */
  function Moved(s: State, menu: Menu, a: Action): State
    requires menu in s.lists
  {
    s.(lists := s.lists[menu := Without(s.lists[menu], a) + [a]])
  }

  function NewLists(lists: Lists, menu: Menu, a: Action, hasMenu: bool): Lists
    requires menu in lists
  {
    var listed := lists[menu := lists[menu] + [a]];
    if hasMenu then listed[Submenu(a) := []] else listed
  }

  function Created(s: State, menu: Menu, child: Child): State
    requires menu in s.lists
  {
    s.(next := s.next + 1,
       actions := s.actions[s.next := Info(child.id, menu, child.hasMenu)],
       lists := NewLists(s.lists, menu, s.next, child.hasMenu),
       actionForId := s.actionForId[child.id := s.next])
  }

  function Inserted(s: State, menu: Menu, child: Child): State
    requires menu in s.lists
  {
    if child.id in s.actionForId then Moved(s, menu, s.actionForId[child.id]) else Created(s, menu, child)
  }

  function AllInserted(s: State, menu: Menu, children: seq<Child>): (t: State)
    requires menu in s.lists
    ensures menu in t.lists
  {
    if children == [] then s
    else Inserted(AllInserted(s, menu, children[..|children| - 1]), menu, children[|children| - 1])
  }

  function AfterReply(s: State, id: int, valid: bool, children: seq<Child>): State {
    var menu := MenuForId(s, id);
    if !valid || menu.None? || menu.value !in s.lists then s
    else
      AllInserted(WithoutOutdated(s, menu.value, Ids(children)), menu.value, children)
      .(wanted := s.wanted[menu.value := Ids(children)])
  }

  // ---------- what a deferred deletion does ----------

  /** `a` is `top` or lies in the tree of menus below it. */
  predicate Under(actions: Actions, a: Action, top: Action)
    decreases a
  {
    a == top ||
    (a in actions && actions[a].home.Submenu? && actions[a].home.owner < a && Under(actions, actions[a].home.owner, top))
  }

  function Destroyed(actions: Actions, top: Action): set<Action> {
    set a | a in actions && Under(actions, a, top)
  }

  function RemainingLists(actions: Actions, lists: Lists, top: Action): Lists {
    map m | m in lists && !(m.Submenu? && Under(actions, m.owner, top)) :: Without(lists[m], top)
  }

  function AfterDelete(s: State, top: Action): State {
    var destroyed := Destroyed(s.actions, top);
    s.(actions := s.actions - destroyed,
       lists := RemainingLists(s.actions, s.lists, top),
       actionForId := s.actionForId - IdsOf(s.actions, destroyed),
       doomed := s.doomed - destroyed)
  }

  // ---------- steps and runs ----------

  datatype Event = Reply(id: int, valid: bool, children: seq<Child>) | Delete(action: Action)

  predicate Distinct<T(==)>(xs: seq<T>) {
    forall i, j | 0 <= i < j < |xs| :: xs[i] != xs[j]
  }

  /** Item ids do not move between menus, and are not used again while an action that bears them,
      or one above it, awaits deletion. */
  predicate CanHold(s: State, menu: Menu, child: Child) {
    if child.id in s.actionForId then
      s.actionForId[child.id] in s.actions && s.actions[s.actionForId[child.id]].home == menu
    else forall a <- s.actions :: s.actions[a].id != child.id
  }

  predicate Enabled(s: State, event: Event) {
    match event
    case Reply(id, valid, children) =>
      valid && MenuForId(s, id).Some? ==>
        Distinct(Ids(children)) && (forall c <- children :: CanHold(s, MenuForId(s, id).value, c))
    case Delete(a) => a in s.doomed
  }

  function Step(s: State, event: Event): State {
    match event
    case Reply(id, valid, children) => AfterReply(s, id, valid, children)
    case Delete(a) => AfterDelete(s, a)
  }

  predicate IsRun(s: State, events: seq<Event>)
    decreases |events|
  {
    events == [] || (Enabled(s, events[0]) && IsRun(Step(s, events[0]), events[1..]))
  }

  function Run(s: State, events: seq<Event>): State
    requires IsRun(s, events)
    decreases |events|
  {
    if events == [] then s else Run(Step(s, events[0]), events[1..])
  }

  // ---------- the invariant ----------

  predicate IsTree(actions: Actions, lists: Lists, next: Action) {
    && Root in lists
    && (forall a <- actions :: a < next && actions[a].home in lists)
    && (forall a <- actions :: actions[a].home.Submenu? ==> actions[a].home.owner < a)
    && (forall a <- actions :: actions[a].hasMenu <==> Submenu(a) in lists)
    && (forall m <- lists :: m.Submenu? ==> m.owner in actions)
  }

  predicate ListsAreDistinct(lists: Lists) {
    forall m <- lists :: Distinct(lists[m])
  }

  predicate ListedBelong(actions: Actions, lists: Lists) {
    forall m <- lists :: forall a <- lists[m] :: a in actions && actions[a].home == m
  }

  predicate AllAreListed(actions: Actions, lists: Lists) {
    forall a <- actions :: actions[a].home in lists && a in lists[actions[a].home]
  }

  /** Every action is listed once, by the menu it was created in. */
  predicate ListsAreExact(actions: Actions, lists: Lists) {
    ListsAreDistinct(lists) && ListedBelong(actions, lists) && AllAreListed(actions, lists)
  }

  predicate IdsAreUnique(actions: Actions) {
    forall a, b | a in actions && b in actions && actions[a].id == actions[b].id :: a == b
  }

  /** The global map holds exactly the actions that are not scheduled for deletion themselves. */
  predicate MapIsExact(actions: Actions, doomed: set<Action>, actionForId: map<int, Action>) {
    && (forall a <- actions | a !in doomed :: actions[a].id in actionForId && actionForId[actions[a].id] == a)
    && (forall i <- actionForId ::
          actionForId[i] in actions && actionForId[i] !in doomed && actions[actionForId[i]].id == i)
  }

  predicate Live(actions: Actions, doomed: set<Action>, a: Action) {
    a in actions && a !in doomed
  }

  /** The ids of the listed actions that are not scheduled for deletion. */
  function LiveIds(actions: Actions, doomed: set<Action>, list: seq<Action>): seq<int> {
    if list == [] then []
    else
      var n := |list| - 1;
      LiveIds(actions, doomed, list[..n]) + if Live(actions, doomed, list[n]) then [actions[list[n]].id] else []
  }

  function Wanted(wanted: map<Menu, seq<int>>, m: Menu): seq<int> {
    if m in wanted then wanted[m] else []
  }

  /** Menus but `except` show just what the last reply about them listed, in its order. */
  predicate Mirrors(s: State, except: Option<Menu>) {
    forall m <- s.lists | Some(m) != except :: LiveIds(s.actions, s.doomed, s.lists[m]) == Wanted(s.wanted, m)
  }

  predicate WantedAreOld(wanted: map<Menu, seq<int>>, next: Action) {
    forall m <- wanted :: m.Submenu? ==> m.owner < next
  }

  predicate InOrder(s: State) {
    && IsTree(s.actions, s.lists, s.next)
    && ListsAreExact(s.actions, s.lists)
    && IdsAreUnique(s.actions)
    && MapIsExact(s.actions, s.doomed, s.actionForId)
    && s.doomed <= s.actions.Keys
    && WantedAreOld(s.wanted, s.next)
  }

  predicate Inv(s: State) {
    InOrder(s) && Mirrors(s, None)
  }

  lemma InitHolds()
    ensures Inv(INITIAL)
  {
  }

  // ---------- sequences ----------

  lemma {:induction false} WithoutElements<T>(xs: seq<T>, x: T)
    ensures forall y :: y in Without(xs, x) <==> y in xs && y != x
  {
    if xs != [] {
      var n := |xs| - 1;
      WithoutElements(xs[..n], x);
      assert xs == xs[..n] + [xs[n]];
    }
  }

  lemma {:induction false} WithoutKeepsDistinct<T>(xs: seq<T>, x: T)
    requires Distinct(xs)
    ensures Distinct(Without(xs, x))
  {
    if xs != [] {
      var n := |xs| - 1;
      WithoutKeepsDistinct(xs[..n], x);
      WithoutElements(xs[..n], x);
      assert xs[n] !in xs[..n];
    }
  }

  lemma {:induction false} WithoutAbsent<T>(xs: seq<T>, x: T)
    requires x !in xs
    ensures Without(xs, x) == xs
  {
    if xs != [] {
      var n := |xs| - 1;
      assert xs == xs[..n] + [xs[n]];
      WithoutAbsent(xs[..n], x);
    }
  }

  lemma {:induction false} WithoutAppend<T>(xs: seq<T>, ys: seq<T>, x: T)
    ensures Without(xs + ys, x) == Without(xs, x) + Without(ys, x)
  {
    if ys == [] {
      assert xs + ys == xs;
    } else {
      var n := |ys| - 1;
      assert (xs + ys)[..|xs + ys| - 1] == xs + ys[..n];
      WithoutAppend(xs, ys[..n], x);
    }
  }

  /** `xs` without the elements of `ys`. */
  function WithoutAll<T(==)>(xs: seq<T>, ys: seq<T>): seq<T> {
    if ys == [] then xs else Without(WithoutAll(xs, ys[..|ys| - 1]), ys[|ys| - 1])
  }

  lemma {:induction false} WithoutAllElements<T>(xs: seq<T>, ys: seq<T>)
    ensures forall y :: y in WithoutAll(xs, ys) <==> y in xs && y !in ys
  {
    if ys != [] {
      var n := |ys| - 1;
      WithoutAllElements(xs, ys[..n]);
      WithoutElements(WithoutAll(xs, ys[..n]), ys[n]);
      assert ys == ys[..n] + [ys[n]];
    }
  }

  // ---------- live ids ----------

  lemma LiveIdsMore(actions: Actions, doomed: set<Action>, list: seq<Action>, a: Action)
    ensures LiveIds(actions, doomed, list + [a])
         == LiveIds(actions, doomed, list) + if Live(actions, doomed, a) then [actions[a].id] else []
  {
    assert (list + [a])[..|list|] == list;
  }

  lemma {:induction false} LiveIdsFrame(actions: Actions, doomed: set<Action>, after: Actions, gone: set<Action>,
                                        list: seq<Action>)
    requires forall a <- list :: Live(actions, doomed, a) == Live(after, gone, a)
    requires forall a <- list | Live(actions, doomed, a) && Live(after, gone, a) :: actions[a].id == after[a].id
    ensures LiveIds(actions, doomed, list) == LiveIds(after, gone, list)
  {
    if list != [] {
      LiveIdsFrame(actions, doomed, after, gone, list[..|list| - 1]);
    }
  }

  lemma {:induction false} LiveIdsElements(actions: Actions, doomed: set<Action>, list: seq<Action>)
    ensures forall i <- LiveIds(actions, doomed, list) :: exists a <- list :: Live(actions, doomed, a) && actions[a].id == i
  {
    if list != [] {
      var n := |list| - 1;
      LiveIdsElements(actions, doomed, list[..n]);
      assert list == list[..n] + [list[n]];
    }
  }

  lemma {:induction false} LiveIdsWithoutDead(actions: Actions, doomed: set<Action>, list: seq<Action>, a: Action)
    requires !Live(actions, doomed, a)
    ensures LiveIds(actions, doomed, Without(list, a)) == LiveIds(actions, doomed, list)
  {
    if list != [] {
      var n := |list| - 1;
      LiveIdsWithoutDead(actions, doomed, list[..n], a);
      if list[n] == a {
        assert Without(list, a) == Without(list[..n], a);
      } else {
        LiveIdsMore(actions, doomed, Without(list[..n], a), list[n]);
      }
    }
  }

  lemma {:induction false} LiveIdsWithoutLive(actions: Actions, doomed: set<Action>, list: seq<Action>, a: Action)
    requires Live(actions, doomed, a) && IdsAreUnique(actions)
    ensures LiveIds(actions, doomed, Without(list, a)) == Without(LiveIds(actions, doomed, list), actions[a].id)
  {
    if list != [] {
      var n, i := |list| - 1, actions[a].id;
      LiveIdsWithoutLive(actions, doomed, list[..n], a);
      var last := if Live(actions, doomed, list[n]) then [actions[list[n]].id] else [];
      WithoutAppend(LiveIds(actions, doomed, list[..n]), last, i);
      assert Without(last, i) == if list[n] == a then [] else last;
      if list[n] == a {
        assert Without(list, a) == Without(list[..n], a);
      } else {
        LiveIdsMore(actions, doomed, Without(list[..n], a), list[n]);
      }
    }
  }

  // ---------- a reply keeps the invariant ----------

  lemma DoomingKeepsMap(actions: Actions, doomed: set<Action>, actionForId: map<int, Action>, more: set<Action>)
    requires IdsAreUnique(actions) && MapIsExact(actions, doomed, actionForId) && more <= actions.Keys
    ensures MapIsExact(actions, doomed + more, actionForId - IdsOf(actions, more))
  {
    forall a | a in actions && a !in doomed + more ensures actions[a].id !in IdsOf(actions, more) {
    }
    forall i | i in actionForId - IdsOf(actions, more) ensures actionForId[i] !in more {
      assert actions[actionForId[i]].id == i;
    }
  }

  lemma RemovingKeepsOrder(s: State, menu: Menu, ids: seq<int>)
    requires InOrder(s) && menu in s.lists
    ensures InOrder(WithoutOutdated(s, menu, ids))
  {
    hide IsTree, ListsAreExact, IdsAreUnique, MapIsExact, IdsOf;
    DoomingKeepsMap(s.actions, s.doomed, s.actionForId, Outdated(s.actions, s.lists[menu], ids));
  }

  /** Removing outdated actions leaves in the menu only live ids that the reply mentions. */
  lemma RemovingLeavesMentioned(s: State, menu: Menu, ids: seq<int>)
    requires menu in s.lists
    ensures var t := WithoutOutdated(s, menu, ids);
            forall i <- LiveIds(t.actions, t.doomed, t.lists[menu]) :: i in ids
  {
    hide LiveIds;
    var t := WithoutOutdated(s, menu, ids);
    LiveIdsElements(t.actions, t.doomed, t.lists[menu]);
    forall i | i in LiveIds(t.actions, t.doomed, t.lists[menu]) ensures i in ids {
      var a :| a in t.lists[menu] && Live(t.actions, t.doomed, a) && t.actions[a].id == i;
      assert a !in Outdated(s.actions, s.lists[menu], ids);
    }
  }

  lemma RemovingKeepsMirrors(s: State, menu: Menu, ids: seq<int>)
    requires ListsAreExact(s.actions, s.lists) && Mirrors(s, None) && menu in s.lists
    ensures Mirrors(WithoutOutdated(s, menu, ids), Some(menu))
  {
    hide LiveIds, IdsOf;
    var t := WithoutOutdated(s, menu, ids);
    forall m | m in s.lists && m != menu ensures LiveIds(t.actions, t.doomed, s.lists[m]) == Wanted(s.wanted, m) {
      assert forall a <- s.lists[m] :: s.actions[a].home == m && a !in s.lists[menu];
      LiveIdsFrame(s.actions, s.doomed, t.actions, t.doomed, s.lists[m]);
    }
  }

  lemma MovingKeepsLists(actions: Actions, lists: Lists, menu: Menu, a: Action)
    requires ListsAreExact(actions, lists) && menu in lists && a in actions && actions[a].home == menu
    ensures ListsAreExact(actions, lists[menu := Without(lists[menu], a) + [a]])
  {
    hide Without, Distinct;
    var rest := Without(lists[menu], a);
    WithoutElements(lists[menu], a);
    WithoutKeepsDistinct(lists[menu], a);
    assert Distinct(rest + [a]) by {
      DistinctMore(rest, a);
    }
  }

  lemma DistinctMore<T>(xs: seq<T>, x: T)
    requires Distinct(xs) && x !in xs
    ensures Distinct(xs + [x])
  {
    assert forall i | 0 <= i < |xs| :: xs[i] in xs;
  }

  lemma TreeByMenus(actions: Actions, lists: Lists, after: Lists, next: Action)
    requires IsTree(actions, lists, next) && after.Keys == lists.Keys
    ensures IsTree(actions, after, next)
  {
  }

  lemma MovingKeepsOrder(s: State, menu: Menu, a: Action)
    requires InOrder(s) && menu in s.lists && Live(s.actions, s.doomed, a) && s.actions[a].home == menu
    ensures InOrder(Moved(s, menu, a))
  {
    hide IsTree, ListsAreExact, IdsAreUnique, MapIsExact, Without;
    MovingKeepsLists(s.actions, s.lists, menu, a);
    TreeByMenus(s.actions, s.lists, Moved(s, menu, a).lists, s.next);
  }

  lemma MovingMirrors(s: State, menu: Menu, a: Action)
    requires IdsAreUnique(s.actions) && Mirrors(s, Some(menu)) && menu in s.lists && Live(s.actions, s.doomed, a)
    ensures var t := Moved(s, menu, a);
            && Mirrors(t, Some(menu))
            && LiveIds(t.actions, t.doomed, t.lists[menu])
            == Without(LiveIds(s.actions, s.doomed, s.lists[menu]), s.actions[a].id) + [s.actions[a].id]
  {
    hide LiveIds, Without, IdsAreUnique;
    LiveIdsWithoutLive(s.actions, s.doomed, s.lists[menu], a);
    LiveIdsMore(s.actions, s.doomed, Without(s.lists[menu], a), a);
  }

  lemma CreatingKeepsTree(s: State, menu: Menu, child: Child)
    requires IsTree(s.actions, s.lists, s.next) && menu in s.lists
    ensures var t := Created(s, menu, child); IsTree(t.actions, t.lists, t.next)
  {
    var t := Created(s, menu, child);
    assert s.next !in s.actions;
    assert t.lists.Keys == s.lists.Keys + if child.hasMenu then {Submenu(s.next)} else {};
  }

  lemma NewListsAre(lists: Lists, menu: Menu, a: Action, hasMenu: bool)
    requires menu in lists && Submenu(a) !in lists
    ensures var after := NewLists(lists, menu, a, hasMenu);
            && after.Keys == lists.Keys + (if hasMenu then {Submenu(a)} else {})
            && after[menu] == lists[menu] + [a]
            && (forall m <- lists | m != menu :: after[m] == lists[m])
            && (hasMenu ==> after[Submenu(a)] == [])
  {
  }

  lemma CreatingKeepsDistinct(lists: Lists, menu: Menu, a: Action, hasMenu: bool)
    requires ListsAreDistinct(lists) && menu in lists && Submenu(a) !in lists && a !in lists[menu]
    ensures ListsAreDistinct(NewLists(lists, menu, a, hasMenu))
  {
    NewListsAre(lists, menu, a, hasMenu);
    hide Distinct, NewLists;
    DistinctMore(lists[menu], a);
    DistinctEmpty();
  }

  lemma CreatingKeepsBelong(actions: Actions, lists: Lists, menu: Menu, a: Action, info: Info)
    requires ListedBelong(actions, lists) && menu in lists && Submenu(a) !in lists && a !in actions && info.home == menu
    ensures ListedBelong(actions[a := info], NewLists(lists, menu, a, info.hasMenu))
  {
    NewListsAre(lists, menu, a, info.hasMenu);
    hide NewLists;
  }

  lemma CreatingKeepsListed(actions: Actions, lists: Lists, menu: Menu, a: Action, info: Info)
    requires AllAreListed(actions, lists) && menu in lists && Submenu(a) !in lists && a !in actions && info.home == menu
    ensures AllAreListed(actions[a := info], NewLists(lists, menu, a, info.hasMenu))
  {
    NewListsAre(lists, menu, a, info.hasMenu);
    hide NewLists;
  }

  lemma CreatingKeepsLists(s: State, menu: Menu, child: Child)
    requires IsTree(s.actions, s.lists, s.next) && ListsAreExact(s.actions, s.lists) && menu in s.lists
    ensures var t := Created(s, menu, child); ListsAreExact(t.actions, t.lists)
  {
    assert s.next !in s.actions && Submenu(s.next) !in s.lists;
    assert s.next !in s.lists[menu];
    hide IsTree, ListsAreDistinct, ListedBelong, AllAreListed;
    CreatingKeepsDistinct(s.lists, menu, s.next, child.hasMenu);
    CreatingKeepsBelong(s.actions, s.lists, menu, s.next, Info(child.id, menu, child.hasMenu));
    CreatingKeepsListed(s.actions, s.lists, menu, s.next, Info(child.id, menu, child.hasMenu));
  }

  lemma DistinctEmpty()
    ensures Distinct<Action>([])
  {
  }

  lemma CreatingKeepsMap(s: State, menu: Menu, child: Child)
    requires IdsAreUnique(s.actions) && MapIsExact(s.actions, s.doomed, s.actionForId) && s.doomed <= s.actions.Keys
    requires s.next !in s.actions && menu in s.lists && (forall a <- s.actions :: s.actions[a].id != child.id)
    ensures var t := Created(s, menu, child);
            IdsAreUnique(t.actions) && MapIsExact(t.actions, t.doomed, t.actionForId)
  {
  }

  lemma CreatingKeepsOrder(s: State, menu: Menu, child: Child)
    requires InOrder(s) && menu in s.lists && (forall a <- s.actions :: s.actions[a].id != child.id)
    ensures InOrder(Created(s, menu, child))
  {
    assert s.next !in s.actions;
    hide IsTree, ListsAreExact, IdsAreUnique, MapIsExact;
    CreatingKeepsTree(s, menu, child);
    CreatingKeepsLists(s, menu, child);
    CreatingKeepsMap(s, menu, child);
  }

  lemma CreatingMirrorsOthers(s: State, menu: Menu, child: Child, m: Menu)
    requires InOrder(s) && Mirrors(s, Some(menu)) && menu in s.lists
    requires var t := Created(s, menu, child); m in t.lists && m != menu
    ensures var t := Created(s, menu, child); LiveIds(t.actions, t.doomed, t.lists[m]) == Wanted(t.wanted, m)
  {
    assert s.next !in s.actions && Submenu(s.next) !in s.lists && s.next !in s.doomed && Submenu(s.next) !in s.wanted;
    assert m in s.lists ==> s.next !in s.lists[m];
    NewListsAre(s.lists, menu, s.next, child.hasMenu);
    hide NewLists, IsTree, ListsAreExact, IdsAreUnique, MapIsExact, WantedAreOld;
    var t := Created(s, menu, child);
    if m in s.lists {
      hide LiveIds;
      LiveIdsFrame(s.actions, s.doomed, t.actions, t.doomed, s.lists[m]);
    }
  }

  lemma CreatingMirrors(s: State, menu: Menu, child: Child)
    requires InOrder(s) && Mirrors(s, Some(menu)) && menu in s.lists && (forall a <- s.actions :: s.actions[a].id != child.id)
    ensures var t := Created(s, menu, child); Mirrors(t, Some(menu)) && menu in t.lists
  {
    hide LiveIds, IsTree, ListsAreExact, IdsAreUnique, MapIsExact, WantedAreOld;
    var t := Created(s, menu, child);
    forall m | m in t.lists && m != menu ensures LiveIds(t.actions, t.doomed, t.lists[m]) == Wanted(t.wanted, m) {
      hide Created;
      CreatingMirrorsOthers(s, menu, child, m);
    }
    hide Mirrors;
    MirrorsByMenu(t, menu);
  }

  /** The id of a new action goes to the end of the live ids. */
  lemma CreatingAppends(s: State, menu: Menu, child: Child)
    requires InOrder(s) && menu in s.lists && (forall a <- s.actions :: s.actions[a].id != child.id)
    ensures var t := Created(s, menu, child);
            && menu in t.lists
            && LiveIds(t.actions, t.doomed, t.lists[menu])
            == Without(LiveIds(s.actions, s.doomed, s.lists[menu]), child.id) + [child.id]
  {
    var t, a, list := Created(s, menu, child), s.next, s.lists[menu];
    assert a !in s.actions && a !in s.doomed && a !in list && Submenu(a) !in s.lists;
    NewListsAre(s.lists, menu, a, child.hasMenu);
    hide LiveIds, Without, IsTree, ListsAreExact, IdsAreUnique, MapIsExact, WantedAreOld, NewLists;
    LiveIdsElements(s.actions, s.doomed, list);
    WithoutAbsent(LiveIds(s.actions, s.doomed, list), child.id);
    LiveIdsFrame(s.actions, s.doomed, t.actions, t.doomed, list);
    LiveIdsMore(t.actions, t.doomed, list, a);
  }

  lemma MirrorsByMenu(t: State, menu: Menu)
    requires forall m <- t.lists | m != menu :: LiveIds(t.actions, t.doomed, t.lists[m]) == Wanted(t.wanted, m)
    ensures Mirrors(t, Some(menu))
  {
  }

  /** One insertion: its id goes to the end of the menu's live ids, and what else could be inserted
      still can. */
  lemma Inserting(s: State, menu: Menu, child: Child)
    requires InOrder(s) && Mirrors(s, Some(menu)) && menu in s.lists && CanHold(s, menu, child)
    ensures var t := Inserted(s, menu, child);
            && InOrder(t) && Mirrors(t, Some(menu)) && menu in t.lists && t.wanted == s.wanted
            && LiveIds(t.actions, t.doomed, t.lists[menu])
            == Without(LiveIds(s.actions, s.doomed, s.lists[menu]), child.id) + [child.id]
  {
    hide LiveIds, Without, Mirrors, IsTree, ListsAreExact, IdsAreUnique;
    if child.id in s.actionForId {
      var a := s.actionForId[child.id];
      hide MapIsExact;
      assert Live(s.actions, s.doomed, a) && s.actions[a].id == child.id by {
        MapHoldsLive(s, child.id);
      }
      MovingKeepsOrder(s, menu, a);
      MovingMirrors(s, menu, a);
    } else {
      hide MapIsExact;
      CreatingKeepsOrder(s, menu, child);
      CreatingMirrors(s, menu, child);
      CreatingAppends(s, menu, child);
    }
  }

  lemma MapHoldsLive(s: State, id: int)
    requires MapIsExact(s.actions, s.doomed, s.actionForId) && id in s.actionForId
    ensures Live(s.actions, s.doomed, s.actionForId[id]) && s.actions[s.actionForId[id]].id == id
  {
  }

  lemma InsertingKeepsRoom(s: State, menu: Menu, child: Child, other: Child)
    requires s.next !in s.actions && menu in s.lists
    requires CanHold(s, menu, child) && CanHold(s, menu, other) && child.id != other.id
    requires MapIsExact(s.actions, s.doomed, s.actionForId)
    ensures CanHold(Inserted(s, menu, child), menu, other)
  {
    hide Without;
  }

  /** Inserting the children one by one leaves the menu's live ids as if they were listed after those
      that were there and are not mentioned. */
  lemma {:induction false} InsertingAll(s: State, menu: Menu, children: seq<Child>)
    requires InOrder(s) && Mirrors(s, Some(menu)) && menu in s.lists
    requires Distinct(Ids(children)) && (forall c <- children :: CanHold(s, menu, c))
    ensures var t := AllInserted(s, menu, children);
            && InOrder(t) && Mirrors(t, Some(menu)) && t.wanted == s.wanted
            && LiveIds(t.actions, t.doomed, t.lists[menu])
            == WithoutAll(LiveIds(s.actions, s.doomed, s.lists[menu]), Ids(children)) + Ids(children)
    ensures forall c: Child | c.id !in Ids(children) && CanHold(s, menu, c) :: CanHold(AllInserted(s, menu, children), menu, c)
  {
    hide LiveIds, Without, Mirrors, InOrder, CanHold;
    if children != [] {
      var n := |children| - 1;
      var first, last := children[..n], children[n];
      LastIsNew(children);
      InsertingAll(s, menu, first);
      var t := AllInserted(s, menu, first);
      assert CanHold(t, menu, last);
      Inserting(t, menu, last);
      forall c: Child | c.id !in Ids(children) && CanHold(s, menu, c) ensures CanHold(Inserted(t, menu, last), menu, c) {
        InOrderParts(t);
        InsertingKeepsRoom(t, menu, last, c);
      }
      WithoutLast(LiveIds(s.actions, s.doomed, s.lists[menu]), Ids(first), last.id);
    }
  }

  lemma InOrderParts(s: State)
    requires InOrder(s)
    ensures s.next !in s.actions && MapIsExact(s.actions, s.doomed, s.actionForId)
  {
  }

  lemma LastIsNew(children: seq<Child>)
    requires children != [] && Distinct(Ids(children))
    ensures var n := |children| - 1;
            && Ids(children) == Ids(children[..n]) + [children[n].id]
            && Distinct(Ids(children[..n])) && children[n].id !in Ids(children[..n])
            && (forall c <- children[..n] :: c in children)
  {
    var n := |children| - 1;
    assert forall i | 0 <= i < n :: Ids(children[..n])[i] == Ids(children)[i];
    assert Ids(children)[n] == children[n].id;
  }

  lemma WithoutLast(xs: seq<int>, ids: seq<int>, last: int)
    requires last !in ids
    ensures Without(WithoutAll(xs, ids) + ids, last) == WithoutAll(xs, ids + [last]) + ids
  {
    WithoutAppend(WithoutAll(xs, ids), ids, last);
    WithoutAbsent(ids, last);
    assert (ids + [last])[..|ids|] == ids;
  }

  lemma RemovingKeepsRoom(s: State, menu: Menu, ids: seq<int>, c: Child)
    requires menu in s.lists && CanHold(s, menu, c) && c.id in ids
    ensures CanHold(WithoutOutdated(s, menu, ids), menu, c)
  {
    assert c.id !in IdsOf(s.actions, Outdated(s.actions, s.lists[menu], ids));
  }

  lemma SomeElement(xs: seq<int>)
    ensures xs != [] ==> xs[0] in xs
  {
  }

  lemma NothingLeft(xs: seq<int>, ids: seq<int>)
    requires forall i <- xs :: i in ids
    ensures WithoutAll(xs, ids) == []
  {
    hide WithoutAll;
    WithoutAllElements(xs, ids);
    var left := WithoutAll(xs, ids);
    assert forall y :: y !in left;
    SomeElement(left);
  }

  /** A reply about a menu that is still there makes it show just the reply's ids, in their order. */
  lemma ReplyIsShown(s: State, menu: Menu, children: seq<Child>)
    requires Inv(s) && menu in s.lists
    requires Distinct(Ids(children)) && (forall c <- children :: CanHold(s, menu, c))
    ensures var t := AllInserted(WithoutOutdated(s, menu, Ids(children)), menu, children);
            && InOrder(t) && Mirrors(t, Some(menu)) && t.wanted == s.wanted
            && LiveIds(t.actions, t.doomed, t.lists[menu]) == Ids(children)
  {
    hide LiveIds, Mirrors, InOrder, CanHold, AllInserted, WithoutOutdated;
    var ids := Ids(children);
    var u := WithoutOutdated(s, menu, ids);
    assert u.lists == s.lists && u.wanted == s.wanted && ListsAreExact(s.actions, s.lists) by {
      RemovingChangesNoList(s, menu, ids);
    }
    RemovingKeepsOrder(s, menu, ids);
    RemovingKeepsMirrors(s, menu, ids);
    forall c | c in children ensures CanHold(u, menu, c) {
      var k :| 0 <= k < |children| && children[k] == c;
      assert ids[k] == c.id;
      RemovingKeepsRoom(s, menu, ids, c);
    }
    InsertingAll(u, menu, children);
    RemovingLeavesMentioned(s, menu, ids);
    NothingLeft(LiveIds(u.actions, u.doomed, u.lists[menu]), ids);
  }

  lemma RemovingChangesNoList(s: State, menu: Menu, ids: seq<int>)
    requires InOrder(s) && menu in s.lists
    ensures var u := WithoutOutdated(s, menu, ids);
            u.lists == s.lists && u.wanted == s.wanted && ListsAreExact(s.actions, s.lists)
  {
  }

  lemma Remembering(t: State, menu: Menu, ids: seq<int>)
    requires InOrder(t) && Mirrors(t, Some(menu)) && menu in t.lists
    requires LiveIds(t.actions, t.doomed, t.lists[menu]) == ids
    ensures Inv(t.(wanted := t.wanted[menu := ids]))
  {
    hide LiveIds, ListsAreExact, IdsAreUnique, MapIsExact;
  }

  lemma ReplyKeepsInv(s: State, id: int, valid: bool, children: seq<Child>)
    requires Inv(s) && Enabled(s, Reply(id, valid, children))
    ensures Inv(AfterReply(s, id, valid, children))
  {
    hide Inv, AllInserted, CanHold, Distinct, Outdated, IdsOf;
    var menu := MenuForId(s, id);
    if valid && menu.Some? && menu.value in s.lists {
      ReplyIsShown(s, menu.value, children);
      Remembering(AllInserted(WithoutOutdated(s, menu.value, Ids(children)), menu.value, children), menu.value, Ids(children));
    }
  }

  // ---------- a deferred deletion keeps the invariant ----------

  /** What survives a deletion hangs in menus that survive it. */
  lemma SurvivorsHang(actions: Actions, lists: Lists, next: Action, top: Action, a: Action)
    requires IsTree(actions, lists, next) && a in actions && !Under(actions, a, top)
    ensures actions[a].home.Submenu? ==> !Under(actions, actions[a].home.owner, top)
  {
  }

  lemma DeletingKeepsTree(actions: Actions, lists: Lists, next: Action, top: Action)
    requires IsTree(actions, lists, next)
    ensures IsTree(actions - Destroyed(actions, top), RemainingLists(actions, lists, top), next)
  {
    hide Without;
    forall a | a in actions && !Under(actions, a, top)
      ensures actions[a].home.Submenu? ==> !Under(actions, actions[a].home.owner, top)
    {
      SurvivorsHang(actions, lists, next, top, a);
    }
    hide Under;
  }

  lemma RemainingAre(actions: Actions, lists: Lists, top: Action, m: Menu)
    requires m in RemainingLists(actions, lists, top)
    ensures m in lists && RemainingLists(actions, lists, top)[m] == Without(lists[m], top)
    ensures forall a :: a in RemainingLists(actions, lists, top)[m] <==> a in lists[m] && a != top
    ensures Distinct(lists[m]) ==> Distinct(Without(lists[m], top))
  {
    WithoutElements(lists[m], top);
    if Distinct(lists[m]) {
      WithoutKeepsDistinct(lists[m], top);
    }
  }

  /** What a surviving menu lists, but for `top` itself, survives. */
  lemma ListedSurvive(actions: Actions, lists: Lists, next: Action, top: Action, m: Menu, a: Action)
    requires IsTree(actions, lists, next) && ListsAreExact(actions, lists)
    requires m in RemainingLists(actions, lists, top) && a in lists[m] && a != top
    ensures a in actions && actions[a].home == m && !Under(actions, a, top)
  {
  }

  lemma DeletingKeepsLists(actions: Actions, lists: Lists, next: Action, top: Action)
    requires IsTree(actions, lists, next) && ListsAreExact(actions, lists)
    ensures ListsAreExact(actions - Destroyed(actions, top), RemainingLists(actions, lists, top))
  {
    var after, remaining := actions - Destroyed(actions, top), RemainingLists(actions, lists, top);
    DeletingKeepsTree(actions, lists, next, top);
    forall m | m in remaining
      ensures Distinct(remaining[m]) && (forall a <- remaining[m] :: a in after && after[a].home == m)
    {
      RemainingAre(actions, lists, top, m);
      forall a | a in remaining[m] ensures a in after && after[a].home == m {
        ListedSurvive(actions, lists, next, top, m, a);
      }
    }
    forall a | a in after ensures after[a].home in remaining && a in remaining[after[a].home] {
      RemainingAre(actions, lists, top, after[a].home);
    }
  }

  /** Deleting keeps the map exact precisely if no survivor that is not scheduled for deletion shares
      its id with what is destroyed. */
  lemma DeletingKeepsMapIff(actions: Actions, doomed: set<Action>, actionForId: map<int, Action>, top: Action)
    requires MapIsExact(actions, doomed, actionForId)
    ensures var gone := Destroyed(actions, top);
            MapIsExact(actions - gone, doomed - gone, actionForId - IdsOf(actions, gone)) <==>
            forall a <- actions | a !in gone && a !in doomed :: actions[a].id !in IdsOf(actions, gone)
  {
    hide Under;
    var gone := Destroyed(actions, top);
    var after, left := actions - gone, actionForId - IdsOf(actions, gone);
    if forall a <- actions | a !in gone && a !in doomed :: actions[a].id !in IdsOf(actions, gone) {
      forall i | i in left ensures left[i] in after && left[i] !in doomed - gone && after[left[i]].id == i {
        assert actionForId[i] in actions && actions[actionForId[i]].id == i;
        assert actionForId[i] in gone ==> i in IdsOf(actions, gone);
      }
    } else {
      var a :| a in actions && a !in gone && a !in doomed && actions[a].id in IdsOf(actions, gone);
      assert a in after && a !in doomed - gone && after[a].id !in left;
    }
  }

  lemma DeletingKeepsMirrors(s: State, top: Action)
    requires InOrder(s) && Mirrors(s, None) && top in s.doomed
    ensures Mirrors(AfterDelete(s, top), None)
  {
    hide LiveIds, Without;
    var t := AfterDelete(s, top);
    forall m | m in t.lists ensures LiveIds(t.actions, t.doomed, t.lists[m]) == Wanted(t.wanted, m) {
      DeletingKeepsLiveIds(s, top, m);
    }
  }

  lemma DeletingKeepsLiveIds(s: State, top: Action, m: Menu)
    requires InOrder(s) && top in s.doomed && m in AfterDelete(s, top).lists
    ensures var t := AfterDelete(s, top);
            m in s.lists && LiveIds(t.actions, t.doomed, t.lists[m]) == LiveIds(s.actions, s.doomed, s.lists[m])
  {
    hide LiveIds, Without, IdsAreUnique, MapIsExact, IdsOf, IsTree, ListsAreExact, WantedAreOld, Under;
    var t := AfterDelete(s, top);
    RemainingAre(s.actions, s.lists, top, m);
    LiveIdsWithoutDead(s.actions, s.doomed, s.lists[m], top);
    forall a | a in t.lists[m] ensures a in s.actions && a !in Destroyed(s.actions, top) {
      ListedSurvive(s.actions, s.lists, s.next, top, m, a);
    }
    hide Destroyed;
    LiveIdsFrame(s.actions, s.doomed, t.actions, t.doomed, t.lists[m]);
  }

  lemma DeleteKeepsInv(s: State, top: Action)
    requires Inv(s) && top in s.doomed
    ensures Inv(AfterDelete(s, top)) && |AfterDelete(s, top).doomed| < |s.doomed|
  {
    hide IsTree, ListsAreExact, MapIsExact, Mirrors;
    DeletingKeepsTree(s.actions, s.lists, s.next, top);
    DeletingKeepsLists(s.actions, s.lists, s.next, top);
    DeletingKeepsMapIff(s.actions, s.doomed, s.actionForId, top);
    DeletingKeepsMirrors(s, top);
    assert top in Destroyed(s.actions, top);
    hide Under;
    Smaller(s.doomed, Destroyed(s.actions, top), top);
  }

  lemma Smaller(a: set<Action>, b: set<Action>, x: Action)
    requires x in a && x in b
    ensures |a - b| < |a|
  {
    SubsetSize(a - b, a - {x});
  }

  // ---------- runs ----------

  lemma StepKeepsInv(s: State, event: Event)
    requires Inv(s) && Enabled(s, event)
    ensures Inv(Step(s, event))
  {
    hide Inv;
    match event {
      case Reply(id, valid, children) => ReplyKeepsInv(s, id, valid, children);
      case Delete(a) => DeleteKeepsInv(s, a);
    }
  }

  lemma {:induction false} RunKeepsInv(s: State, events: seq<Event>)
    requires Inv(s) && IsRun(s, events)
    ensures Inv(Run(s, events))
    decreases |events|
  {
    if events != [] {
      StepKeepsInv(s, events[0]);
      RunKeepsInv(Step(s, events[0]), events[1..]);
    }
  }

  lemma RunPrepend(s: State, event: Event, rest: seq<Event>)
    requires Enabled(s, event) && IsRun(Step(s, event), rest)
    ensures IsRun(s, [event] + rest) && Run(s, [event] + rest) == Run(Step(s, event), rest)
  {
    assert ([event] + rest)[1..] == rest;
  }

  lemma RunOfNone(s: State)
    ensures IsRun(s, []) && Run(s, []) == s
  {
  }

  /** The deletions that are due can be done, and then none is due. */
  lemma {:induction false} DeletionsDrain(s: State) returns (events: seq<Event>)
    requires Inv(s)
    ensures IsRun(s, events) && Run(s, events).doomed == {} && Inv(Run(s, events))
    ensures forall e <- events :: e.Delete?
    decreases |s.doomed|
  {
    hide Inv, AfterDelete, Run, IsRun;
    if s.doomed == {} {
      events := [];
      RunOfNone(s);
    } else {
      var a :| a in s.doomed;
      DeleteKeepsInv(s, a);
      var rest := DeletionsDrain(Step(s, Delete(a)));
      events := [Delete(a)] + rest;
      RunPrepend(s, Delete(a), rest);
    }
  }

  // ---------- the mirror is exact ----------

  /** The ids of the actions a menu shows, in order. */
  function ShownIds(actions: Actions, list: seq<Action>): (ids: seq<int>)
    requires forall a <- list :: a in actions
    ensures |ids| == |list| && forall i | 0 <= i < |ids| :: ids[i] == actions[list[i]].id
  {
    seq(|list|, i requires 0 <= i < |list| => actions[list[i]].id)
  }

  lemma {:induction false} AllAreLive(actions: Actions, list: seq<Action>)
    requires forall a <- list :: a in actions
    ensures LiveIds(actions, {}, list) == ShownIds(actions, list)
  {
    if list != [] {
      var n := |list| - 1;
      AllAreLive(actions, list[..n]);
      assert list == list[..n] + [list[n]];
    }
  }

  /** A way from the top menu down to an action, through listed actions and their submenus. */
  predicate IsPath(lists: Lists, path: seq<Action>)
    decreases |path|
  {
    path != [] &&
    var n := |path| - 1;
    if n == 0 then Root in lists && path[0] in lists[Root]
    else IsPath(lists, path[..n]) && Submenu(path[n - 1]) in lists && path[n] in lists[Submenu(path[n - 1])]
  }

  lemma PathMore(lists: Lists, front: seq<Action>, a: Action)
    requires IsPath(lists, front) && var m := Submenu(front[|front| - 1]); m in lists && a in lists[m]
    ensures IsPath(lists, front + [a])
  {
    assert (front + [a])[..|front|] == front;
  }

  lemma LastIsListed(lists: Lists, path: seq<Action>) returns (m: Menu)
    requires IsPath(lists, path)
    ensures m in lists && path[|path| - 1] in lists[m]
  {
    m := if |path| == 1 then Root else Submenu(path[|path| - 2]);
  }

  lemma {:induction false} PathTo(actions: Actions, lists: Lists, next: Action, a: Action) returns (path: seq<Action>)
    requires IsTree(actions, lists, next) && ListsAreExact(actions, lists) && a in actions
    ensures IsPath(lists, path) && path[|path| - 1] == a
    decreases a
  {
    hide ListsAreDistinct, ListedBelong;
    if actions[a].home.Root? {
      path := [a];
    } else {
      hide IsPath;
      var front := PathTo(actions, lists, next, actions[a].home.owner);
      PathMore(lists, front, a);
      path := front + [a];
    }
  }

  /** The menu shows just what the last reply about it listed, in its order; nothing, if there was none. */
  predicate ShowsWanted(s: State, m: Menu)
    requires m in s.lists
  {
    (forall a <- s.lists[m] :: a in s.actions) && ShownIds(s.actions, s.lists[m]) == Wanted(s.wanted, m)
  }

  predicate EndsAt(s: State, path: seq<Action>, id: int) {
    IsPath(s.lists, path) && path[|path| - 1] in s.actions && s.actions[path[|path| - 1]].id == id
  }

  ghost predicate IsReachable(s: State, id: int) {
    exists path :: EndsAt(s, path, id)
  }

  lemma MenuShowsWanted(s: State, m: Menu)
    requires Inv(s) && s.doomed == {} && m in s.lists
    ensures ShowsWanted(s, m)
  {
    hide IsTree, IdsAreUnique, MapIsExact, LiveIds;
    assert forall a <- s.lists[m] :: a in s.actions;
    AllAreLive(s.actions, s.lists[m]);
  }

  /** Every way from the top leads to an action that the map holds, under its id. */
  lemma PathIsMapped(s: State, path: seq<Action>)
    requires Inv(s) && s.doomed == {} && IsPath(s.lists, path)
    ensures var a := path[|path| - 1];
            a in s.actions && s.actions[a].id in s.actionForId && s.actionForId[s.actions[a].id] == a
  {
    hide Mirrors, IsTree, IdsAreUnique, IsPath, ListsAreDistinct, AllAreListed;
    var m := LastIsListed(s.lists, path);
  }

  lemma MappedIffReachable(s: State, id: int)
    requires Inv(s) && s.doomed == {}
    ensures id in s.actionForId <==> IsReachable(s, id)
  {
    hide Mirrors;
    if id in s.actionForId {
      assert s.actionForId[id] in s.actions && s.actions[s.actionForId[id]].id == id;
      var path := PathTo(s.actions, s.lists, s.next, s.actionForId[id]);
      hide IsPath;
      assert EndsAt(s, path, id);
    }
    hide IsPath, Inv;
    if IsReachable(s, id) {
      var path :| EndsAt(s, path, id);
      PathIsMapped(s, path);
    }
  }

  /** After any run, once no deletion is pending: every menu shows exactly what the last reply about
      it listed, in its order, and the ids in the global map are those of the actions that can be
      reached from the top menu. */
  lemma MirrorIsExact(events: seq<Event>)
    requires IsRun(INITIAL, events) && Run(INITIAL, events).doomed == {}
    ensures var t := Run(INITIAL, events);
            && (forall m <- t.lists :: ShowsWanted(t, m))
            && (forall id :: id in t.actionForId <==> IsReachable(t, id))
  {
    var t := Run(INITIAL, events);
    InitHolds();
    RunKeepsInv(INITIAL, events);
    hide ShowsWanted, IsReachable, Run, Inv;
    forall m | m in t.lists ensures ShowsWanted(t, m) {
      MenuShowsWanted(t, m);
    }
    forall id ensures id in t.actionForId <==> IsReachable(t, id) {
      MappedIffReachable(t, id);
    }
  }

  /** Deleting an action drops everything in the menus below it, from the tree and from the map. */
  lemma DeletionDropsSubmenus(s: State, top: Action, a: Action)
    requires Inv(s) && top in s.doomed && a in s.actions && Under(s.actions, a, top)
    ensures var t := AfterDelete(s, top);
            && a !in t.actions && Submenu(a) !in t.lists && s.actions[a].id !in t.actionForId
            && (forall m <- t.lists :: a !in t.lists[m])
  {
    DeleteKeepsInv(s, top);
    assert a in Destroyed(s.actions, top);
  }

  // ---------- exactly which replies break the mirror ----------

  /** A menu lists an action created in another one. */
  predicate Misplaced(actions: Actions, list: seq<Action>, menu: Menu) {
    exists a <- list :: a in actions && actions[a].home != menu
  }

  predicate Broken(s: State, menu: Menu)
    requires menu in s.lists
  {
    Misplaced(s.actions, s.lists[menu], menu) || !IdsAreUnique(s.actions)
  }

  predicate IsNumbered(s: State) {
    (forall a <- s.actions :: a < s.next) && (forall m <- s.lists :: m.Submenu? ==> m.owner < s.next)
  }

  lemma NumberedWhenInOrder(s: State)
    requires InOrder(s)
    ensures IsNumbered(s)
  {
  }

  lemma BrokenIsNotInOrder(s: State, menu: Menu)
    requires menu in s.lists && Broken(s, menu)
    ensures !InOrder(s)
  {
  }

  /** What an insertion leaves as it was. */
  lemma InsertedExtends(s: State, menu: Menu, child: Child)
    requires IsNumbered(s) && menu in s.lists
    ensures var t := Inserted(s, menu, child);
            && IsNumbered(t) && menu in t.lists
            && (forall a <- s.actions :: a in t.actions && t.actions[a] == s.actions[a])
            && (forall a <- s.lists[menu] :: a in t.lists[menu])
            && (forall i | i != child.id :: i in t.actionForId <==> i in s.actionForId)
            && (forall i | i != child.id && i in s.actionForId :: t.actionForId[i] == s.actionForId[i])
  {
    if child.id in s.actionForId {
      WithoutElements(s.lists[menu], s.actionForId[child.id]);
    }
    hide Without;
  }

  lemma BrokenStays(s: State, menu: Menu, child: Child)
    requires IsNumbered(s) && menu in s.lists && Broken(s, menu)
    ensures menu in Inserted(s, menu, child).lists && Broken(Inserted(s, menu, child), menu)
  {
    var t := Inserted(s, menu, child);
    InsertedExtends(s, menu, child);
    hide Inserted, IsNumbered;
    if Misplaced(s.actions, s.lists[menu], menu) {
      var a :| a in s.lists[menu] && a in s.actions && s.actions[a].home != menu;
      assert a in t.lists[menu] && t.actions[a].home != menu;
    } else {
      var a, b :| a in s.actions && b in s.actions && s.actions[a].id == s.actions[b].id && a != b;
      assert t.actions[a].id == t.actions[b].id;
    }
  }

  /** Inserting a child that the menu cannot hold lists an action twice or makes a second one with its id. */
  lemma InsertingBreaks(s: State, menu: Menu, child: Child)
    requires IsNumbered(s) && menu in s.lists && !CanHold(s, menu, child)
    requires child.id in s.actionForId ==> s.actionForId[child.id] in s.actions
    ensures menu in Inserted(s, menu, child).lists && Broken(Inserted(s, menu, child), menu)
  {
    var t := Inserted(s, menu, child);
    InsertedExtends(s, menu, child);
    hide Without;
    if child.id in s.actionForId {
      var a := s.actionForId[child.id];
      var moved := Without(s.lists[menu], a) + [a];
      assert t.lists[menu] == moved && moved[|moved| - 1] == a;
      assert a in t.lists[menu] && t.actions[a].home != menu;
    } else {
      var a :| a in s.actions && s.actions[a].id == child.id;
      assert a != s.next && t.actions[a].id == t.actions[s.next].id;
    }
  }

  /** Exactly the children that the menu can hold can be inserted: an id that is there already must
      have been created in this menu, and one that is not must belong to no action any more. */
  lemma InsertingKeepsOrderIff(s: State, menu: Menu, child: Child)
    requires InOrder(s) && Mirrors(s, Some(menu)) && menu in s.lists
    ensures InOrder(Inserted(s, menu, child)) <==> CanHold(s, menu, child)
  {
    if CanHold(s, menu, child) {
      Inserting(s, menu, child);
    } else {
      NumberedWhenInOrder(s);
      assert child.id in s.actionForId ==> s.actionForId[child.id] in s.actions;
      hide InOrder, CanHold, Inserted;
      InsertingBreaks(s, menu, child);
      BrokenIsNotInOrder(Inserted(s, menu, child), menu);
    }
  }

  lemma {:induction false} AllInsertedExtends(s: State, menu: Menu, children: seq<Child>)
    requires IsNumbered(s) && menu in s.lists
    ensures var t := AllInserted(s, menu, children);
            && IsNumbered(t)
            && (forall a <- s.actions :: a in t.actions && t.actions[a] == s.actions[a])
            && (forall i | i !in Ids(children) :: i in t.actionForId <==> i in s.actionForId)
            && (forall i | i !in Ids(children) && i in s.actionForId :: t.actionForId[i] == s.actionForId[i])
  {
    hide Inserted, IsNumbered;
    if children != [] {
      var n := |children| - 1;
      AllInsertedExtends(s, menu, children[..n]);
      InsertedExtends(AllInserted(s, menu, children[..n]), menu, children[n]);
      assert children == children[..n] + [children[n]];
      assert Ids(children) == Ids(children[..n]) + [children[n].id];
    }
  }

  lemma {:induction false} AllBrokenStays(s: State, menu: Menu, children: seq<Child>, k: nat)
    requires IsNumbered(s) && menu in s.lists && k <= |children|
    requires Broken(AllInserted(s, menu, children[..k]), menu)
    ensures Broken(AllInserted(s, menu, children), menu)
    decreases |children|
  {
    hide Inserted, IsNumbered, Broken;
    if k == |children| {
      assert children[..k] == children;
    } else {
      var n := |children| - 1;
      assert children[..n][..k] == children[..k];
      AllBrokenStays(s, menu, children[..n], k);
      AllInsertedExtends(s, menu, children[..n]);
      BrokenStays(AllInserted(s, menu, children[..n]), menu, children[n]);
    }
  }

  lemma OtherIds(children: seq<Child>, k: nat)
    requires Distinct(Ids(children)) && k < |children|
    ensures children[k].id !in Ids(children[..k]) && children[k].id in Ids(children)
    ensures children[..k + 1] == children[..k] + [children[k]]
  {
    assert Ids(children)[k] == children[k].id;
    assert forall i | 0 <= i < k :: Ids(children[..k])[i] == Ids(children)[i];
  }

  lemma RemovingLeavesNoRoom(s: State, menu: Menu, ids: seq<int>, c: Child)
    requires InOrder(s) && menu in s.lists && !CanHold(s, menu, c) && c.id in ids
    ensures var u := WithoutOutdated(s, menu, ids);
            && IsNumbered(u) && u.actions == s.actions && u.lists == s.lists && !CanHold(u, menu, c)
            && (c.id in u.actionForId ==> u.actionForId[c.id] in u.actions)
  {
    hide ListsAreExact, IdsAreUnique;
    assert c.id !in IdsOf(s.actions, Outdated(s.actions, s.lists[menu], ids));
  }

  /** One child that the menu cannot hold spoils a reply, whatever else it lists. */
  lemma ReplyBreaks(s: State, menu: Menu, children: seq<Child>, k: nat)
    requires InOrder(s) && menu in s.lists && Distinct(Ids(children)) && k < |children| && !CanHold(s, menu, children[k])
    ensures Broken(AllInserted(WithoutOutdated(s, menu, Ids(children)), menu, children), menu)
  {
    var u, c := WithoutOutdated(s, menu, Ids(children)), children[k];
    OtherIds(children, k);
    RemovingLeavesNoRoom(s, menu, Ids(children), c);
    hide InOrder, WithoutOutdated, Inserted, IsNumbered, Broken, Distinct;
    var t := AllInserted(u, menu, children[..k]);
    AllInsertedExtends(u, menu, children[..k]);
    assert !CanHold(t, menu, c);
    InsertingBreaks(t, menu, c);
    assert children[..k + 1][..k] == children[..k] && children[..k + 1][k] == c;
    assert AllInserted(u, menu, children[..k + 1]) == Inserted(t, menu, c);
    AllBrokenStays(u, menu, children, k + 1);
  }

  lemma {:induction false} LiveIdsDiffer(actions: Actions, doomed: set<Action>, list: seq<Action>)
    requires Distinct(list) && IdsAreUnique(actions)
    ensures Distinct(LiveIds(actions, doomed, list))
  {
    if list != [] {
      var n := |list| - 1;
      LiveIdsDiffer(actions, doomed, list[..n]);
      if Live(actions, doomed, list[n]) {
        LiveIdsElements(actions, doomed, list[..n]);
        assert list[n] !in list[..n];
        DistinctMore(LiveIds(actions, doomed, list[..n]), actions[list[n]].id);
      }
    }
  }

  lemma ShownIdsDiffer(t: State, menu: Menu)
    requires Inv(t) && menu in t.lists
    ensures Distinct(Wanted(t.wanted, menu))
  {
    LiveIdsDiffer(t.actions, t.doomed, t.lists[menu]);
  }

  lemma MenuForIdExists(s: State, id: int)
    requires InOrder(s) && MenuForId(s, id).Some?
    ensures MenuForId(s, id).value in s.lists
  {
  }

  /** A reply keeps the mirror exactly if it repeats no id and its menu can hold every child it lists. */
  lemma ReplyKeepsInvIff(s: State, id: int, valid: bool, children: seq<Child>)
    requires Inv(s)
    ensures Inv(AfterReply(s, id, valid, children)) <==> Enabled(s, Reply(id, valid, children))
  {
    var menu := MenuForId(s, id);
    if Enabled(s, Reply(id, valid, children)) {
      ReplyKeepsInv(s, id, valid, children);
    } else {
      MenuForIdExists(s, id);
      var t := AfterReply(s, id, valid, children);
      var u := AllInserted(WithoutOutdated(s, menu.value, Ids(children)), menu.value, children);
      assert Wanted(t.wanted, menu.value) == Ids(children) && menu.value in t.lists;
      hide AllInserted, WithoutOutdated, CanHold;
      if !Distinct(Ids(children)) {
        if Inv(t) {
          ShownIdsDiffer(t, menu.value);
        }
      } else {
        var k :| 0 <= k < |children| && !CanHold(s, menu.value, children[k]);
        ReplyBreaks(s, menu.value, children, k);
        assert Broken(t, menu.value);
        BrokenIsNotInOrder(t, menu.value);
      }
    }
  }

  // ---------- which menu a reply is about, and what it does there ----------

  /** The menu of an item: the top one has id 0, and an item that has a menu and is not about to be
      deleted has its own. */
  predicate IsMenuOf(s: State, id: int, menu: Menu) {
    match menu
    case Root => id == 0
    case Submenu(a) => id != 0 && Live(s.actions, s.doomed, a) && s.actions[a].id == id && s.actions[a].hasMenu
  }

  lemma MenuForIdIsIff(s: State, id: int, menu: Menu)
    requires Inv(s)
    ensures MenuForId(s, id) == Some(menu) <==> IsMenuOf(s, id, menu)
  {
    hide ListsAreExact, IdsAreUnique, LiveIds, Mirrors;
  }

  /** A reply that is invalid, or about an item that has no menu or is gone, changes nothing. */
  lemma StrayReplyDoesNothing(s: State, id: int, valid: bool, children: seq<Child>)
    requires Inv(s) && (valid ==> forall m <- s.lists :: !IsMenuOf(s, id, m))
    ensures Step(s, Reply(id, valid, children)) == s
  {
    if valid && MenuForId(s, id).Some? {
      MenuForIdIsIff(s, id, MenuForId(s, id).value);
      MenuForIdExists(s, id);
    }
  }

  lemma {:induction false} AllInsertedChild(s: State, menu: Menu, children: seq<Child>, k: nat)
    requires IsNumbered(s) && menu in s.lists && Distinct(Ids(children)) && k < |children|
    ensures var t, c := AllInserted(s, menu, children), children[k];
            && c.id in t.actionForId
            && if c.id in s.actionForId then t.actionForId[c.id] == s.actionForId[c.id]
               else
                 && t.actionForId[c.id] !in s.actions && t.actionForId[c.id] in t.actions
                 && t.actions[t.actionForId[c.id]] == Info(c.id, menu, c.hasMenu)
    decreases |children|
  {
    var n := |children| - 1;
    var first, last := children[..n], children[n];
    LastIsNew(children);
    AllInsertedExtends(s, menu, first);
    var u := AllInserted(s, menu, first);
    InsertedExtends(u, menu, last);
    if k < n {
      AllInsertedChild(s, menu, first, k);
      assert children[k].id == Ids(first)[k];
    } else {
      LastInserted(u, menu, last);
    }
    hide Inserted, Distinct;
  }

  lemma LastInserted(u: State, menu: Menu, c: Child)
    requires IsNumbered(u) && menu in u.lists
    ensures var t := Inserted(u, menu, c);
            && c.id in t.actionForId
            && if c.id in u.actionForId then t.actionForId[c.id] == u.actionForId[c.id]
               else t.actionForId[c.id] !in u.actions && t.actionForId[c.id] in t.actions
                    && t.actions[t.actionForId[c.id]] == Info(c.id, menu, c.hasMenu)
  {
    hide Without;
  }

  lemma InsertedList(s: State, menu: Menu, c: Child, m: Menu)
    requires menu in s.lists && Submenu(s.next) !in s.lists && m in s.lists && m != menu
    ensures m in Inserted(s, menu, c).lists && Inserted(s, menu, c).lists[m] == s.lists[m]
    ensures Inserted(s, menu, c).doomed == s.doomed
  {
    hide Without;
  }

  lemma {:induction false} AllInsertedList(s: State, menu: Menu, children: seq<Child>, m: Menu)
    requires InOrder(s) && Mirrors(s, Some(menu)) && menu in s.lists
    requires Distinct(Ids(children)) && (forall c <- children :: CanHold(s, menu, c))
    requires m in s.lists && m != menu
    ensures var t := AllInserted(s, menu, children); m in t.lists && t.lists[m] == s.lists[m] && t.doomed == s.doomed
  {
    hide LiveIds, Without, Mirrors, InOrder, CanHold;
    if children != [] {
      var first := children[..|children| - 1];
      LastIsNew(children);
      AllInsertedList(s, menu, first, m);
      InsertingAll(s, menu, first);
      var u := AllInserted(s, menu, first);
      assert Submenu(u.next) !in u.lists by {
        NoMenuYet(u);
      }
      InsertedList(u, menu, children[|children| - 1], m);
    }
  }

  lemma NoMenuYet(s: State)
    requires InOrder(s)
    ensures Submenu(s.next) !in s.lists
  {
  }

  /** A valid reply makes the menu of its item list the children's ids in their order; each child keeps
      the action it had or gets a new one, with a submenu if it wants one; what the menu lists besides is
      due to be deleted; and no other menu changes. */
  lemma ReplyReachesItsMenu(s: State, id: int, menu: Menu, children: seq<Child>, k: nat, m: Menu)
    requires Inv(s) && Enabled(s, Reply(id, true, children)) && IsMenuOf(s, id, menu)
    ensures var t := Step(s, Reply(id, true, children));
            && menu in t.lists && LiveIds(t.actions, t.doomed, t.lists[menu]) == Ids(children)
            && (m in s.lists && m != menu ==> m in t.lists && t.lists[m] == s.lists[m])
            && (forall a <- s.actions :: a in t.actions && t.actions[a] == s.actions[a])
            && (k < |children| ==>
                  var c := children[k];
                  && c.id in t.actionForId
                  && if c.id in s.actionForId then t.actionForId[c.id] == s.actionForId[c.id]
                     else t.actionForId[c.id] !in s.actions && t.actionForId[c.id] in t.actions
                          && t.actions[t.actionForId[c.id]] == Info(c.id, menu, c.hasMenu))
  {
    hide LiveIds, Mirrors, CanHold, AllInserted, Distinct, WithoutOutdated, InOrder, Step, Enabled, IsMenuOf;
    ReplyStep(s, id, menu, children);
    ReplyIsShown(s, menu, children);
    hide Inv;
    ReplyKeepsActions(s, menu, children);
    if m in s.lists && m != menu {
      OthersAreKept(s, menu, children, m);
    }
    if k < |children| {
      ReplyGivesActions(s, menu, children, k);
    }
  }

  lemma ReplyStep(s: State, id: int, menu: Menu, children: seq<Child>)
    requires Inv(s) && Enabled(s, Reply(id, true, children)) && IsMenuOf(s, id, menu)
    ensures InOrder(s) && menu in s.lists && Distinct(Ids(children)) && (forall c <- children :: CanHold(s, menu, c))
    ensures var t := AllInserted(WithoutOutdated(s, menu, Ids(children)), menu, children);
            menu in t.lists && Step(s, Reply(id, true, children)) == t.(wanted := s.wanted[menu := Ids(children)])
  {
    MenuForIdIsIff(s, id, menu);
    hide IsMenuOf, LiveIds, Mirrors, CanHold, AllInserted, Distinct, WithoutOutdated, InOrder;
    MenuForIdExists(s, id);
  }

  lemma ReplyKeepsActions(s: State, menu: Menu, children: seq<Child>)
    requires InOrder(s) && menu in s.lists
    ensures var t := AllInserted(WithoutOutdated(s, menu, Ids(children)), menu, children);
            forall a <- s.actions :: a in t.actions && t.actions[a] == s.actions[a]
  {
    NumberedWhenInOrder(s);
    AllInsertedExtends(WithoutOutdated(s, menu, Ids(children)), menu, children);
    hide AllInserted;
  }

  lemma ReplyGivesActions(s: State, menu: Menu, children: seq<Child>, k: nat)
    requires InOrder(s) && menu in s.lists && Distinct(Ids(children)) && k < |children|
    ensures var t, c := AllInserted(WithoutOutdated(s, menu, Ids(children)), menu, children), children[k];
            && c.id in t.actionForId
            && if c.id in s.actionForId then t.actionForId[c.id] == s.actionForId[c.id]
               else t.actionForId[c.id] !in s.actions && t.actionForId[c.id] in t.actions
                    && t.actions[t.actionForId[c.id]] == Info(c.id, menu, c.hasMenu)
  {
    var ids := Ids(children);
    NumberedWhenInOrder(s);
    AllInsertedChild(WithoutOutdated(s, menu, ids), menu, children, k);
    hide AllInserted, InOrder;
    assert ids[k] == children[k].id;
    assert children[k].id !in IdsOf(s.actions, Outdated(s.actions, s.lists[menu], ids));
  }

  lemma OthersAreKept(s: State, menu: Menu, children: seq<Child>, m: Menu)
    requires Inv(s) && menu in s.lists && m in s.lists && m != menu
    requires Distinct(Ids(children)) && (forall c <- children :: CanHold(s, menu, c))
    ensures var t := AllInserted(WithoutOutdated(s, menu, Ids(children)), menu, children);
            m in t.lists && t.lists[m] == s.lists[m]
  {
    hide LiveIds, Mirrors, InOrder, CanHold, AllInserted, WithoutOutdated;
    var ids := Ids(children);
    var u := WithoutOutdated(s, menu, ids);
    RemovingChangesNoList(s, menu, ids);
    RemovingKeepsOrder(s, menu, ids);
    RemovingKeepsMirrors(s, menu, ids);
    forall c | c in children ensures CanHold(u, menu, c) {
      var j :| 0 <= j < |children| && children[j] == c;
      assert ids[j] == c.id;
      RemovingKeepsRoom(s, menu, ids, c);
    }
    AllInsertedList(u, menu, children, m);
  }

  /** The ids in the last valid reply about the top menu. */
  function LastTopReply(before: seq<int>, events: seq<Event>): seq<int>
    decreases |events|
  {
    if events == [] then before
    else
      LastTopReply(if events[0].Reply? && events[0].valid && events[0].id == 0 then Ids(events[0].children) else before,
                   events[1..])
  }

  /** After a run the top menu lists the ids of the last valid reply about item 0, in order. */
  lemma {:induction false} TopMenuFollowsReplies(s: State, events: seq<Event>)
    requires Inv(s) && IsRun(s, events)
    ensures var t := Run(s, events);
            && Root in t.lists
            && LiveIds(t.actions, t.doomed, t.lists[Root]) == LastTopReply(LiveIds(s.actions, s.doomed, s.lists[Root]), events)
    decreases |events|
  {
    hide LiveIds, Mirrors;
    if events != [] {
      var e, t := events[0], Step(s, events[0]);
      StepKeepsInv(s, e);
      TopMenuOf(s);
      TopMenuOf(t);
      if e.Reply? && e.valid && e.id == 0 {
        ReplyReachesItsMenu(s, 0, Root, e.children, 0, Root);
      } else {
        TopIsKept(s, e);
      }
      hide Inv, Step, Enabled, InOrder;
      TopMenuFollowsReplies(t, events[1..]);
    }
  }

  lemma TopMenuOf(s: State)
    requires Inv(s)
    ensures Root in s.lists && LiveIds(s.actions, s.doomed, s.lists[Root]) == Wanted(s.wanted, Root)
  {
    hide LiveIds;
  }

  lemma TopIsKept(s: State, e: Event)
    requires Inv(s) && Enabled(s, e) && !(e.Reply? && e.valid && e.id == 0)
    ensures Wanted(Step(s, e).wanted, Root) == Wanted(s.wanted, Root)
  {
    hide LiveIds, Mirrors, InOrder, CanHold, Distinct, AllInserted, WithoutOutdated;
    if e.Reply? && e.valid && MenuForId(s, e.id).Some? {
      var menu := MenuForId(s, e.id).value;
      MenuForIdIsIff(s, e.id, menu);
      ReplyStep(s, e.id, menu, e.children);
      hide Step, MenuForId;
    }
  }

  /** A deferred deletion takes the action and what lies below it, and nothing else. */
  lemma DeletionTakesTheTree(s: State, top: Action, a: Action, m: Menu)
    requires Enabled(s, Delete(top))
    ensures var t := Step(s, Delete(top));
            && (a in t.actions <==> a in s.actions && !Under(s.actions, a, top))
            && (a in t.actions ==> t.actions[a] == s.actions[a] && (a in t.doomed <==> a in s.doomed))
            && (m in t.lists <==> m in s.lists && !(m.Submenu? && Under(s.actions, m.owner, top)))
            && (m in t.lists ==> (a in t.lists[m] <==> a in s.lists[m] && a != top))
  {
    hide LiveIds, Under, Without, IdsOf;
    if m in RemainingLists(s.actions, s.lists, top) {
      RemainingAre(s.actions, s.lists, top, m);
    }
  }

  /** Any replies may come; only deletions need to be due. */
  predicate IsPossible(s: State, events: seq<Event>)
    decreases |events|
  {
    events == [] ||
    ((events[0].Delete? ==> events[0].action in s.doomed) && IsPossible(Step(s, events[0]), events[1..]))
  }

  predicate InvThroughout(s: State, events: seq<Event>)
    decreases |events|
  {
    Inv(s) && (events == [] || InvThroughout(Step(s, events[0]), events[1..]))
  }

  /** The mirror is in order at every point of a sequence of events exactly if every reply in it repeats
      no id and lists only what its menu can hold when it comes. */
  lemma {:induction false} MirrorStaysInOrderIff(s: State, events: seq<Event>)
    requires Inv(s) && IsPossible(s, events)
    ensures InvThroughout(s, events) <==> IsRun(s, events)
    decreases |events|
  {
    hide Inv, Enabled, AfterReply, AfterDelete;
    if events != [] {
      var e, t := events[0], Step(s, events[0]);
      assert Inv(t) <==> Enabled(s, e) by {
        match e {
          case Reply(id, valid, children) => ReplyKeepsInvIff(s, id, valid, children);
          case Delete(a) =>
            DeleteKeepsInv(s, a);
            DueIsEnabled(s, a);
        }
      }
      if Inv(t) {
        MirrorStaysInOrderIff(t, events[1..]);
      }
    }
  }

  lemma DueIsEnabled(s: State, a: Action)
    requires a in s.doomed
    ensures Enabled(s, Delete(a))
  {
  }

  // ---------- ids used again too early ----------

  lemma ReplyOfOne(s: State, id: int)
    requires Root in s.lists
    ensures var c := Child(id, false);
            AfterReply(s, 0, true, [c])
            == Inserted(WithoutOutdated(s, Root, [id]), Root, c).(wanted := s.wanted[Root := [id]])
  {
    var c := Child(id, false);
    assert Ids([c]) == [id] && [c][..0] == [];
    assert AllInserted(WithoutOutdated(s, Root, [id]), Root, [c][..0]) == WithoutOutdated(s, Root, [id]);
  }

  lemma NewAtRoot(s: State, list: seq<Action>, id: int)
    requires s.lists == map[Root := list] && id !in s.actionForId
    ensures Inserted(s, Root, Child(id, false))
         == s.(next := s.next + 1, actions := s.actions[s.next := Info(id, Root, false)],
               lists := map[Root := list + [s.next]], actionForId := s.actionForId[id := s.next])
  {
    assert NewLists(s.lists, Root, s.next, false) == map[Root := list + [s.next]];
  }

  lemma ReplyOfNone(s: State)
    requires Root in s.lists
    ensures AfterReply(s, 0, true, []) == WithoutOutdated(s, Root, []).(wanted := s.wanted[Root := []])
  {
    assert Ids([]) == [];
  }

  lemma ListedFirst(id: int, t: State)
    requires t == State(1, map[0 := Info(id, Root, false)], map[Root := [0]], map[id := 0], {}, map[Root := [id]])
    ensures Step(INITIAL, Reply(0, true, [Child(id, false)])) == t
  {
    hide Inserted;
    ReplyOfOne(INITIAL, id);
    assert WithoutOutdated(INITIAL, Root, [id]) == INITIAL;
    NewAtRoot(INITIAL, [], id);
    assert [] + [INITIAL.next] == [0];
  }

  lemma ThenRemoved(id: int, s: State, t: State)
    requires s == State(1, map[0 := Info(id, Root, false)], map[Root := [0]], map[id := 0], {}, map[Root := [id]])
    requires t == s.(actionForId := map[], doomed := {0}, wanted := map[Root := []])
    ensures Step(s, Reply(0, true, [])) == t
  {
    ReplyOfNone(s);
    assert Outdated(s.actions, [0], []) == {0} && IdsOf(s.actions, {0}) == {id};
  }

  /** Listed again before the old action is deleted. */
  lemma ThenListedAgain(id: int, s: State, t: State)
    requires s == State(1, map[0 := Info(id, Root, false)], map[Root := [0]], map[], {0}, map[Root := []])
    requires t == State(2, map[0 := Info(id, Root, false), 1 := Info(id, Root, false)], map[Root := [0, 1]], map[id := 1], {0},
                        map[Root := [id]])
    ensures Step(s, Reply(0, true, [Child(id, false)])) == t
  {
    hide Inserted;
    ReplyOfOne(s, id);
    assert Outdated(s.actions, [0], [id]) == {};
    assert WithoutOutdated(s, Root, [id]) == s;
    NewAtRoot(s, [0], id);
    assert [0] + [s.next] == [0, 1];
    assert map[Root := []][Root := [id]] == map[Root := [id]];
  }

  lemma ThenDeleted(id: int, s: State, t: State)
    requires s == State(2, map[0 := Info(id, Root, false), 1 := Info(id, Root, false)], map[Root := [0, 1]], map[id := 1], {0},
                        map[Root := [id]])
    requires t == State(2, map[1 := Info(id, Root, false)], map[Root := [1]], map[], {}, map[Root := [id]])
    ensures Step(s, Delete(0)) == t
  {
    assert !Under(s.actions, 1, 0) && Under(s.actions, 0, 0);
    assert Destroyed(s.actions, 0) == {0} && IdsOf(s.actions, {0}) == {id};
    hide Under, Destroyed, Without;
    WithoutOfTwo(0, 1);
    assert RemainingLists(s.actions, s.lists, 0) == map[Root := [1]];
  }

  lemma ThenListedTwice(id: int, s: State)
    requires s == State(2, map[1 := Info(id, Root, false)], map[Root := [1]], map[], {}, map[Root := [id]])
    ensures var t := Step(s, Reply(0, true, [Child(id, false)]));
            t.lists == map[Root := [1, 2]] && t.actions == map[1 := Info(id, Root, false), 2 := Info(id, Root, false)]
  {
    hide Inserted;
    ReplyOfOne(s, id);
    assert Outdated(s.actions, [1], [id]) == {};
    assert WithoutOutdated(s, Root, [id]) == s;
    NewAtRoot(s, [1], id);
    assert [1] + [s.next] == [1, 2];
  }

  /** The proviso on ids is needed: an item is listed, removed and listed again before its old action
      is deleted. The late deletion takes the new action's id out of the map, and the next reply that
      lists the item makes the menu show it twice. */
  lemma EarlyReuseShowsTwice(id: int)
    ensures var one := Reply(0, true, [Child(id, false)]);
            var late := Step(Step(Step(Step(INITIAL, one), Reply(0, true, [])), one), Delete(0));
            && late.lists == map[Root := [1]] && late.actions == map[1 := Info(id, Root, false)] && id !in late.actionForId
            && Step(late, one).lists == map[Root := [1, 2]]
            && Step(late, one).actions == map[1 := Info(id, Root, false), 2 := Info(id, Root, false)]
  {
    hide Step;
    var info := Info(id, Root, false);
    var s1 := State(1, map[0 := info], map[Root := [0]], map[id := 0], {}, map[Root := [id]]);
    var s2 := s1.(actionForId := map[], doomed := {0}, wanted := map[Root := []]);
    var s3 := State(2, map[0 := info, 1 := info], map[Root := [0, 1]], map[id := 1], {0}, map[Root := [id]]);
    var s4 := State(2, map[1 := info], map[Root := [1]], map[], {}, map[Root := [id]]);
    ListedFirst(id, s1);
    ThenRemoved(id, s1, s2);
    ThenListedAgain(id, s2, s3);
    ThenDeleted(id, s3, s4);
    ThenListedTwice(id, s4);
  }

  lemma WithoutOfTwo(a: Action, b: Action)
    requires a != b
    ensures Without([a, b], a) == [b]
  {
    assert [a, b][..1] == [a] && [a][..0] == [];
    assert Without([a], a) == [];
  }

  // ---------- ids that move ----------

  lemma ReplyOfChild(s: State, id: int, menu: Menu, c: Child)
    requires MenuForId(s, id) == Some(menu) && menu in s.lists
    ensures AfterReply(s, id, true, [c])
         == Inserted(WithoutOutdated(s, menu, [c.id]), menu, c).(wanted := s.wanted[menu := [c.id]])
  {
    assert Ids([c]) == [c.id] && [c][..0] == [];
    assert AllInserted(WithoutOutdated(s, menu, [c.id]), menu, [c][..0]) == WithoutOutdated(s, menu, [c.id]);
  }

  lemma NoneOutdated(s: State, menu: Menu, ids: seq<int>)
    requires menu in s.lists && (forall a <- s.lists[menu] :: a in s.actions ==> s.actions[a].id in ids)
    ensures WithoutOutdated(s, menu, ids) == s
  {
    assert Outdated(s.actions, s.lists[menu], ids) == {} && IdsOf(s.actions, {}) == {};
  }

  lemma OneOutdated(s: State, menu: Menu, ids: seq<int>, a: Action)
    requires menu in s.lists && a in s.lists[menu] && a in s.actions && s.actions[a].id !in ids
    requires forall b <- s.lists[menu] :: b != a && b in s.actions ==> s.actions[b].id in ids
    ensures WithoutOutdated(s, menu, ids)
         == s.(doomed := s.doomed + {a}, actionForId := s.actionForId - {s.actions[a].id})
  {
    assert Outdated(s.actions, s.lists[menu], ids) == {a} && IdsOf(s.actions, {a}) == {s.actions[a].id};
  }

  lemma ReplyOfTwo(s: State, first: Child, second: Child)
    requires Root in s.lists
    ensures var u := Inserted(WithoutOutdated(s, Root, [first.id, second.id]), Root, first);
            && Root in u.lists
            && AfterReply(s, 0, true, [first, second])
            == Inserted(u, Root, second).(wanted := s.wanted[Root := [first.id, second.id]])
  {
    var both := [first, second];
    var u := WithoutOutdated(s, Root, [first.id, second.id]);
    assert Ids(both) == [first.id, second.id] && both[..1] == [first] && [first][..0] == [];
    assert AllInserted(u, Root, [first][..0]) == u;
    assert AllInserted(u, Root, both[..1]) == Inserted(u, Root, first);
  }

  /** Two items are listed at the top, the first of them with a submenu. */
  lemma TwoListed(j: int, i: int, t: State)
    requires i != j
    requires t == State(2, map[0 := Info(j, Root, true), 1 := Info(i, Root, false)], map[Root := [0, 1], Submenu(0) := []],
                        map[j := 0, i := 1], {}, map[Root := [j, i]])
    ensures Step(INITIAL, Reply(0, true, [Child(j, true), Child(i, false)])) == t
  {
    hide WithoutOutdated, AllInserted, AfterReply;
    var s1 := State(1, map[0 := Info(j, Root, true)], map[Root := [0], Submenu(0) := []], map[j := 0], {}, map[]);
    NoneOutdated(INITIAL, Root, [j, i]);
    ReplyOfTwo(INITIAL, Child(j, true), Child(i, false));
    assert [] + [INITIAL.next] == [0] && [0] + [s1.next] == [0, 1];
    assert NewLists(INITIAL.lists, Root, 0, true) == s1.lists && NewLists(s1.lists, Root, 1, false) == t.lists;
    assert Inserted(INITIAL, Root, Child(j, true)) == s1;
    assert INITIAL.wanted[Root := [j, i]] == t.wanted;
  }

  /** The second one moves into the submenu: now both menus list it. */
  lemma ThenMoved(j: int, i: int, s: State, t: State)
    requires i != j && j != 0
    requires s == State(2, map[0 := Info(j, Root, true), 1 := Info(i, Root, false)], map[Root := [0, 1], Submenu(0) := []],
                        map[j := 0, i := 1], {}, map[Root := [j, i]])
    requires t == s.(lists := map[Root := [0, 1], Submenu(0) := [1]], wanted := map[Root := [j, i], Submenu(0) := [i]])
    ensures Step(s, Reply(j, true, [Child(i, false)])) == t
  {
    hide WithoutOutdated, AllInserted;
    NoneOutdated(s, Submenu(0), [i]);
    ReplyOfChild(s, j, Submenu(0), Child(i, false));
    hide AfterReply;
    MovedTo(s, Submenu(0), 1, [1], t.lists);
    assert s.wanted[Submenu(0) := [i]] == t.wanted;
  }

  lemma MovedTo(s: State, menu: Menu, a: Action, list: seq<Action>, lists: Lists)
    requires menu in s.lists && Without(s.lists[menu], a) + [a] == list && s.lists[menu := list] == lists
    ensures Moved(s, menu, a) == s.(lists := lists)
  {
  }

  /** It is gone from the top menu. */
  lemma ThenGone(j: int, i: int, s: State, t: State)
    requires i != j
    requires s == State(2, map[0 := Info(j, Root, true), 1 := Info(i, Root, false)], map[Root := [0, 1], Submenu(0) := [1]],
                        map[j := 0, i := 1], {}, map[Root := [j, i], Submenu(0) := [i]])
    requires t == s.(lists := map[Root := [1, 0], Submenu(0) := [1]], actionForId := map[j := 0], doomed := {1},
                     wanted := map[Root := [j], Submenu(0) := [i]])
    ensures Step(s, Reply(0, true, [Child(j, true)])) == t
  {
    hide WithoutOutdated, AllInserted, Without, Moved;
    OneOutdated(s, Root, [j], 1);
    ReplyOfChild(s, 0, Root, Child(j, true));
    hide AfterReply;
    var u := s.(doomed := {1}, actionForId := map[j := 0]);
    TablesWithoutItem(j, i);
    WithoutOfTwo(0, 1);
    assert [1] + [0] == [1, 0];
    MovedTo(u, Root, 0, [1, 0], t.lists);
  }

  lemma TablesWithoutItem(j: int, i: int)
    requires i != j
    ensures map[j := 0, i := 1 as Action] - {i} == map[j := 0]
    ensures map[Root := [0, 1 as Action], Submenu(0) := [1]][Root := [1, 0]] == map[Root := [1, 0], Submenu(0) := [1]]
    ensures map[Root := [j, i], Submenu(0) := [i]][Root := [j]] == map[Root := [j], Submenu(0) := [i]]
    ensures {} + {1} == {1}
  {
  }

  lemma ThenGoneEverywhere(j: int, i: int, s: State, t: State)
    requires i != j
    requires s == State(2, map[0 := Info(j, Root, true), 1 := Info(i, Root, false)], map[Root := [1, 0], Submenu(0) := [1]],
                        map[j := 0], {1}, map[Root := [j], Submenu(0) := [i]])
    requires t == State(2, map[0 := Info(j, Root, true)], map[Root := [0], Submenu(0) := []], map[j := 0], {},
                        map[Root := [j], Submenu(0) := [i]])
    ensures Step(s, Delete(1)) == t
  {
    LastIsDestroyed(j, i, s.actions);
    LeftLists(s.actions, s.lists);
    hide Under, Destroyed, RemainingLists, IdsOf;
    assert s.actionForId - {i} == t.actionForId;
    assert s.actions - {1} == t.actions;
  }

  lemma LeftLists(actions: Actions, lists: Lists)
    requires !Under(actions, 0, 1) && lists == map[Root := [1, 0], Submenu(0) := [1]]
    ensures RemainingLists(actions, lists, 1) == map[Root := [0], Submenu(0) := []]
  {
    hide Under, Without;
    WithoutOfTwo(1, 0);
    WithoutOfOne(1);
  }

  lemma LastIsDestroyed(j: int, i: int, actions: Actions)
    requires actions == map[0 := Info(j, Root, true), 1 := Info(i, Root, false)]
    ensures !Under(actions, 0, 1) && Under(actions, 1, 1)
    ensures Destroyed(actions, 1) == {1} && IdsOf(actions, {1}) == {i}
  {
    assert !Under(actions, 0, 1) && Under(actions, 1, 1);
  }

  /** The other proviso on ids is needed too: an item that moves into a submenu is listed by both menus.
      When the old menu is refreshed its deletion takes it out of the new one as well, which then shows
      nothing although the last reply about it listed the item. */
  lemma MovedItemIsLost(j: int, i: int)
    requires i != j && j != 0
    ensures var two := Reply(0, true, [Child(j, true), Child(i, false)]);
            var moved := Step(Step(INITIAL, two), Reply(j, true, [Child(i, false)]));
            var late := Step(Step(moved, Reply(0, true, [Child(j, true)])), Delete(1));
            && moved.lists == map[Root := [0, 1], Submenu(0) := [1]]
            && late.lists == map[Root := [0], Submenu(0) := []] && late.wanted == map[Root := [j], Submenu(0) := [i]]
            && late.doomed == {} && i !in late.actionForId
  {
    hide Step;
    var a, b := Info(j, Root, true), Info(i, Root, false);
    var s1 := State(2, map[0 := a, 1 := b], map[Root := [0, 1], Submenu(0) := []], map[j := 0, i := 1], {}, map[Root := [j, i]]);
    var s2 := s1.(lists := map[Root := [0, 1], Submenu(0) := [1]], wanted := map[Root := [j, i], Submenu(0) := [i]]);
    var s3 := s2.(lists := map[Root := [1, 0], Submenu(0) := [1]], actionForId := map[j := 0], doomed := {1},
                  wanted := map[Root := [j], Submenu(0) := [i]]);
    var s4 := State(2, map[0 := a], map[Root := [0], Submenu(0) := []], map[j := 0], {}, map[Root := [j], Submenu(0) := [i]]);
    TwoListed(j, i, s1);
    ThenMoved(j, i, s1, s2);
    ThenGone(j, i, s2, s3);
    ThenGoneEverywhere(j, i, s3, s4);
  }

  lemma WithoutOfOne(a: Action)
    ensures Without([a], a) == []
  {
    assert [a][..0] == [];
  }

  // ---------- the importer as an object ----------

  /** What removing the outdated actions among `some` does. */
  function PartlyWithoutOutdated(s: State, some: seq<Action>, ids: seq<int>): State {
    var outdated := Outdated(s.actions, some, ids);
    s.(doomed := s.doomed + outdated, actionForId := s.actionForId - IdsOf(s.actions, outdated))
  }

  lemma OutdatedMore(s: State, some: seq<Action>, a: Action, ids: seq<int>)
    requires a in s.actions
    ensures var t := PartlyWithoutOutdated(s, some, ids);
            PartlyWithoutOutdated(s, some + [a], ids)
            == if s.actions[a].id in ids then t
               else t.(doomed := t.doomed + {a}, actionForId := t.actionForId - {s.actions[a].id})
  {
    var before, after := Outdated(s.actions, some, ids), Outdated(s.actions, some + [a], ids);
    if s.actions[a].id in ids {
      assert after == before;
    } else {
      assert after == before + {a};
      assert IdsOf(s.actions, after) == IdsOf(s.actions, before) + {s.actions[a].id};
    }
  }

  class DBusMenuImporter {
    var next: Action
    var actions: Actions
    var menus: Lists
    var actionForId: map<int, Action>
    var doomed: set<Action>
    ghost var wanted: map<Menu, seq<int>>

    constructor ()
      ensures Abs() == INITIAL
    {
      next, actions, menus, actionForId, doomed, wanted := 0, map[], map[Root := []], map[], {}, map[];
    }

    ghost function Abs(): State
      reads this
    {
      State(next, actions, menus, actionForId, doomed, wanted)
    }

    /** Creates an action, its submenu if it has one, and lists it. */
    method CreateAction(menu: Menu, child: Child)
      requires menu in menus
      modifies this
      ensures Abs() == Created(old(Abs()), menu, child)
    {
      var action := next;
      next := next + 1;
      actions := actions[action := Info(child.id, menu, child.hasMenu)];
      actionForId := actionForId[child.id := action];
      menus := menus[menu := menus[menu] + [action]];
      if child.hasMenu {
        menus := menus[Submenu(action) := []];
      }
    }

    method InsertOrMove(menu: Menu, child: Child)
      requires menu in menus
      modifies this
      ensures Abs() == Inserted(old(Abs()), menu, child)
    {
      if child.id !in actionForId {
        CreateAction(menu, child);
      } else {
        var action := actionForId[child.id];
        var rest := Without(menus[menu], action);
        menus := menus[menu := rest + [action]];
      }
    }

    method RemoveOutdated(menu: Menu, ids: seq<int>)
      requires menu in menus && (forall a <- menus[menu] :: a in actions)
      modifies this
      ensures Abs() == WithoutOutdated(old(Abs()), menu, ids)
    {
      ghost var s := Abs();
      var listed := menus[menu];
      for k := 0 to |listed|
        invariant menu in menus && menus[menu] == listed && actions == s.actions
        invariant Abs() == PartlyWithoutOutdated(s, listed[..k], ids)
      {
        var action := listed[k];
        OutdatedMore(s, listed[..k], action, ids);
        assert listed[..k + 1] == listed[..k] + [action];
        hide PartlyWithoutOutdated;
        var id := actions[action].id;
        if id !in ids {
          doomed := doomed + {action};
          actionForId := actionForId - {id};
        }
      }
      assert listed[..|listed|] == listed;
    }

    method InsertAll(menu: Menu, children: seq<Child>)
      requires menu in menus
      modifies this
      ensures Abs() == AllInserted(old(Abs()), menu, children) && wanted == old(wanted)
    {
      hide Inserted;
      ghost var s := Abs();
      for k := 0 to |children|
        invariant menu in menus && wanted == old(wanted)
        invariant Abs() == AllInserted(s, menu, children[..k])
      {
        ghost var before := Abs();
        InsertOrMove(menu, children[k]);
        InsertedKeepsRest(before, menu, children[k]);
        assert children[..k + 1][..k] == children[..k] && children[..k + 1][k] == children[k];
      }
      assert children[..|children|] == children;
    }

    /** A layout reply about the item `parentId`: its children, or an error. */
    method SlotGetLayoutFinished(parentId: int, valid: bool, children: seq<Child>)
      requires Inv(Abs())
      modifies this
      ensures Abs() == AfterReply(old(Abs()), parentId, valid, children)
    {
      hide Inv, WithoutOutdated, AllInserted;
      ghost var s := Abs();
      var menu := MenuForId(State(next, actions, menus, actionForId, doomed, map[]), parentId);
      if !valid {
        return;
      }
      if menu.None? || menu.value !in menus {
        return;
      }
      var m := menu.value;
      ListedExist(s, m);
      RemoveOutdated(m, Ids(children));
      RemovingChangesNoList(s, m, Ids(children));
      InsertAll(m, children);
      wanted := wanted[m := Ids(children)];
    }

    /** The `destroyed` connections of actions that go: each removes its id from the map. */
    method OnDestroyed(gone: set<Action>)
      requires gone <= actions.Keys
      modifies this`actionForId
      ensures actionForId == old(actionForId) - IdsOf(actions, gone)
    {
      hide IdsOf;
      var todo, done: set<Action> := gone, {};
      NoIds(actions);
      while todo != {}
        invariant todo <= gone && done == gone - todo
        invariant actionForId == old(actionForId) - IdsOf(actions, done)
        decreases |todo|
      {
        var a :| a in todo;
        IdsOfOneMore(actions, done, a);
        actionForId := actionForId - {actions[a].id};
        todo, done := todo - {a}, done + {a};
      }
      assert done == gone;
    }

    /** The deferred deletion of an action and its submenu, with all that lies below. */
    method DeleteNow(top: Action)
      modifies this
      ensures Abs() == AfterDelete(old(Abs()), top)
    {
      hide Under, IdsOf;
      var gone := Destroyed(actions, top);
      OnDestroyed(gone);
      menus := RemainingLists(actions, menus, top);
      actions := actions - gone;
      doomed := doomed - gone;
    }
  }

  lemma NoIds(actions: Actions)
    ensures IdsOf(actions, {}) == {}
  {
  }

  lemma IdsOfOneMore(actions: Actions, some: set<Action>, a: Action)
    requires a in actions
    ensures IdsOf(actions, some + {a}) == IdsOf(actions, some) + {actions[a].id}
  {
  }

  lemma InsertedKeepsRest(s: State, m: Menu, child: Child)
    requires m in s.lists
    ensures var t := Inserted(s, m, child); m in t.lists && t.wanted == s.wanted
  {
  }

  lemma ListedExist(s: State, m: Menu)
    requires Inv(s) && m in s.lists
    ensures InOrder(s) && forall a <- s.lists[m] :: a in s.actions
  {
  }
}
