/** The two tray registries and the table they share.

    StatusNotifier items are created asynchronously: a snapshot of the watcher's list puts new items
    into a pending set and starts a worker for each; the completion registers the item if it is still
    pending. XEmbed icons are reconciled against a polled list. A table from process id to protocol
    is meant to keep one process from showing through both protocols. */
module TrayRegistry {
  import opened Collections

  // The service path of a StatusNotifier item; only its identity matters here.
  type Item(==)
  type Window = nat
  type Pid = nat

  datatype Protocol = XEmbed | Sni

  // A registered item appears (its creation is announced) or is dropped.
  datatype Event = Created(item: Item) | Dropped(item: Item)

  datatype State = State(
    items: set<Item>,
    pending: set<Item>,
    itemPid: map<Item, Pid>,
    workers: multiset<Item>,   // creations under way, up to and including their completion call
    icons: set<Window>,
    iconPid: map<Window, Pid>,
    table: map<Pid, Protocol>,
    history: seq<Event>)

  const INITIAL := State({}, {}, map[], multiset{}, {}, map[], map[], [])

  datatype Action =
    // the watcher's list, and the registry's keys in the order its hash table lists them
    | Snapshot(current: seq<Item>, keys: seq<Item>)
    // a worker's completion, the process id it found, and the XEmbed registry's keys
    | Complete(item: Item, pid: Pid, iconKeys: seq<Window>)
    // the polled icon list, the process ids of its windows, and the registry's keys
    | Poll(windows: seq<Window>, pids: map<Window, Pid>, iconKeys: seq<Window>)

  function ToSet<T(==)>(xs: seq<T>): set<T> {
    set x | x in xs
  }

  function Image<K(==), V(==)>(m: map<K, V>, keys: set<K>): set<V> {
    set k | k in keys && k in m :: m[k]
  }

  predicate Enumerates<T(==)>(keys: seq<T>, all: set<T>) {
    && ToSet(keys) == all
    && (forall i, j | 0 <= i < j < |keys| :: keys[i] != keys[j])
  }

  predicate Enabled(s: State, a: Action) {
    match a
    case Snapshot(_, keys) => Enumerates(keys, s.items)
    case Complete(item, _, iconKeys) => item in s.workers && Enumerates(iconKeys, s.icons)
    case Poll(windows, pids, iconKeys) => Enumerates(iconKeys, s.icons) && (forall w <- windows :: w in pids)
  }

  predicate MapsTo(table: map<Pid, Protocol>, pid: Pid, p: Protocol) {
    pid in table && table[pid] == p
  }

  /** The drop of every key that `current` no longer lists, in key order. */
  function Drops(keys: seq<Item>, current: seq<Item>): seq<Event> {
    if keys == [] then []
    else
      var n := |keys| - 1;
      Drops(keys[..n], current) + if keys[n] in current then [] else [Dropped(keys[n])]
  }

  /** The first listed icon of a process. */
  function FirstOf(keys: seq<Window>, iconPid: map<Window, Pid>, pid: Pid): Option<Window> {
    if keys == [] then None
    else if keys[0] in iconPid && iconPid[keys[0]] == pid then Some(keys[0])
    else FirstOf(keys[1..], iconPid, pid)
  }

  /** The items a snapshot starts workers for. */
  function NewItems(current: seq<Item>, registered: set<Item>, pending: set<Item>): set<Item> {
    set i | i in current && i !in registered && i !in pending
  }

  function AfterSnapshot(s: State, current: seq<Item>, keys: seq<Item>): State
    requires WellFormed(s)
  {
    if current == keys then s
    else
      var listed := ToSet(current);
      var newItems := NewItems(current, s.items, s.pending);
      var gone := s.items - listed;
      s.(pending := (s.pending + newItems) * listed,
         workers := s.workers + multiset(newItems),
         items := s.items - gone,
         itemPid := s.itemPid - gone,
         table := s.table - Image(s.itemPid, gone),
         history := s.history + Drops(keys, current))
  }

  function WithoutIcon(s: State, w: Option<Window>): State {
    if w.None? then s else s.(icons := s.icons - {w.value}, iconPid := s.iconPid - {w.value})
  }

  function AfterComplete(s: State, item: Item, pid: Pid, iconKeys: seq<Window>): State {
    var t := s.(workers := s.workers - multiset{item});
    if item !in s.pending then t
    else
      var u := if MapsTo(s.table, pid, Sni) then t else WithoutIcon(t, FirstOf(iconKeys, s.iconPid, pid));
      u.(pending := s.pending - {item},
         itemPid := s.itemPid[item := pid],
         table := s.table[pid := Sni],
         items := s.items + {item},
         history := s.history + [Created(item)])
  }

  /** The listed icons that a poll adds. */
  function Added(icons: set<Window>, table: map<Pid, Protocol>, windows: seq<Window>, pids: map<Window, Pid>): set<Window>
    requires forall w <- windows :: w in pids
  {
    set w | w in windows && w !in icons && !MapsTo(table, pids[w], Sni)
  }

  function WithPids(iconPid: map<Window, Pid>, added: set<Window>, pids: map<Window, Pid>): map<Window, Pid> {
    iconPid + (map w | w in added && w in pids :: pids[w])
  }

  function WithXEmbed(table: map<Pid, Protocol>, added: set<Pid>): map<Pid, Protocol> {
    table + (map p | p in added :: XEmbed)
  }

  function AfterPoll(s: State, windows: seq<Window>, pids: map<Window, Pid>, iconKeys: seq<Window>): State
    requires WellFormed(s) && (forall w <- windows :: w in pids)
  {
    if windows == iconKeys then s
    else
      var added := Added(s.icons, s.table, windows, pids);
      var gone := s.icons - ToSet(windows);
      s.(icons := s.icons + added - gone,
         iconPid := WithPids(s.iconPid, added, pids) - gone,
         table := WithXEmbed(s.table, Image(pids, added)) - Image(s.iconPid, gone))
  }

  function Step(s: State, a: Action): State
    requires WellFormed(s) && Enabled(s, a)
  {
    match a
    case Snapshot(current, keys) => AfterSnapshot(s, current, keys)
    case Complete(item, pid, iconKeys) => AfterComplete(s, item, pid, iconKeys)
    case Poll(windows, pids, iconKeys) => AfterPoll(s, windows, pids, iconKeys)
  }

  // ---------- the invariant ----------

  /** The items an event history leaves registered, if each item's events alternate. */
  function Replay(history: seq<Event>): Option<set<Item>> {
    if history == [] then Some({})
    else
      var before, last := Replay(history[..|history| - 1]), history[|history| - 1];
      if before.None? then None
      else
        match last
        case Created(item) => if item in before.value then None else Some(before.value + {item})
        case Dropped(item) => if item !in before.value then None else Some(before.value - {item})
  }

  predicate WellFormed(s: State) {
    s.itemPid.Keys == s.items && s.iconPid.Keys == s.icons
  }

  predicate Inv(s: State) {
    && WellFormed(s)
    && s.items !! s.pending
    && (forall i <- s.pending :: i in s.workers)
    && Replay(s.history) == Some(s.items)
  }

  lemma InitHolds()
    ensures Inv(INITIAL)
  {
  }

  lemma ReplayAppend(history: seq<Event>, e: Event, all: set<Item>)
    requires Replay(history) == Some(all)
    ensures Replay(history + [e]) ==
            match e
            case Created(item) => (if item in all then None else Some(all + {item}))
            case Dropped(item) => (if item !in all then None else Some(all - {item}))
  {
    assert (history + [e])[..|history|] == history;
  }

  /** The keys that `current` does not list. */
  function Unlisted(keys: seq<Item>, current: seq<Item>): set<Item> {
    set k | k in keys && k !in current
  }

  lemma UnlistedSnoc(keys: seq<Item>, current: seq<Item>)
    requires keys != []
    ensures var n := |keys| - 1;
            Unlisted(keys, current) == Unlisted(keys[..n], current) + if keys[n] in current then {} else {keys[n]}
  {
    assert keys == keys[..|keys| - 1] + [keys[|keys| - 1]];
  }

  lemma {:induction false} ReplayDrops(history: seq<Event>, keys: seq<Item>, current: seq<Item>, all: set<Item>)
    requires Replay(history) == Some(all) && (forall k <- keys :: k in all)
    requires forall i, j | 0 <= i < j < |keys| :: keys[i] != keys[j]
    ensures Replay(history + Drops(keys, current)) == Some(all - Unlisted(keys, current))
    decreases |keys|
  {
    if keys == [] {
      assert history + Drops(keys, current) == history;
      assert all - Unlisted(keys, current) == all;
    } else {
      var n := |keys| - 1;
      var before, rest := history + Drops(keys[..n], current), all - Unlisted(keys[..n], current);
      ReplayDrops(history, keys[..n], current, all);
      UnlistedSnoc(keys, current);
      assert history + Drops(keys, current) == if keys[n] in current then before else before + [Dropped(keys[n])];
      assert keys[n] !in Unlisted(keys[..n], current);
      hide Replay, Drops, Unlisted;
      if keys[n] !in current {
        ReplayAppend(before, Dropped(keys[n]), rest);
        assert all - Unlisted(keys, current) == rest - {keys[n]};
      } else {
        assert all - Unlisted(keys, current) == rest;
      }
    }
  }

  lemma FirstOfFinds(keys: seq<Window>, iconPid: map<Window, Pid>, pid: Pid)
    ensures var w := FirstOf(keys, iconPid, pid);
            if w.Some? then w.value in keys && w.value in iconPid && iconPid[w.value] == pid
            else forall k <- keys :: k !in iconPid || iconPid[k] != pid
  {
  }

  lemma SnapshotKeepsInv(s: State, current: seq<Item>, keys: seq<Item>)
    requires Inv(s) && Enumerates(keys, s.items)
    ensures Inv(AfterSnapshot(s, current, keys))
  {
    if current != keys {
      assert forall k <- keys :: k in ToSet(keys);
      ReplayDrops(s.history, keys, current, s.items);
      hide Replay, Drops;
      assert Unlisted(keys, current) == ToSet(keys) - ToSet(current);
      assert s.items - Unlisted(keys, current) == s.items - (s.items - ToSet(current));
    }
  }

  lemma CompletionKeepsTables(s: State, item: Item, pid: Pid, iconKeys: seq<Window>)
    requires Inv(s) && item in s.workers && Enumerates(iconKeys, s.icons)
    ensures WellFormed(AfterComplete(s, item, pid, iconKeys))
  {
    hide Replay, MapsTo, Enumerates, FirstOf;
  }

  lemma CompletionKeepsWorkers(s: State, item: Item, pid: Pid, iconKeys: seq<Window>)
    requires Inv(s) && item in s.workers
    ensures var t := AfterComplete(s, item, pid, iconKeys);
            t.items !! t.pending && (forall i <- t.pending :: i in t.workers)
  {
    hide Replay, MapsTo, FirstOf, WellFormed;
  }

  lemma CompletionKeepsInv(s: State, item: Item, pid: Pid, iconKeys: seq<Window>)
    requires Inv(s) && item in s.workers && Enumerates(iconKeys, s.icons)
    ensures Inv(AfterComplete(s, item, pid, iconKeys))
  {
    ReplayAppend(s.history, Created(item), s.items);
    CompletionKeepsTables(s, item, pid, iconKeys);
    CompletionKeepsWorkers(s, item, pid, iconKeys);
    hide Replay, FirstOf, Enumerates, MapsTo, WellFormed;
  }

  lemma PollKeepsInv(s: State, windows: seq<Window>, pids: map<Window, Pid>, iconKeys: seq<Window>)
    requires Inv(s) && Enabled(s, Poll(windows, pids, iconKeys))
    ensures Inv(AfterPoll(s, windows, pids, iconKeys))
  {
    hide Replay, Image, WithXEmbed;
  }

  lemma StepKeepsInv(s: State, a: Action)
    requires Inv(s) && Enabled(s, a)
    ensures Inv(Step(s, a))
  {
    match a {
      case Snapshot(current, keys) => SnapshotKeepsInv(s, current, keys);
      case Complete(item, pid, iconKeys) => CompletionKeepsInv(s, item, pid, iconKeys);
      case Poll(windows, pids, iconKeys) => PollKeepsInv(s, windows, pids, iconKeys);
    }
    hide AfterSnapshot, AfterComplete, AfterPoll, Inv;
  }

  predicate IsRun(s: State, actions: seq<Action>)
    decreases |actions|
  {
    WellFormed(s) &&
    (actions == [] || (Enabled(s, actions[0]) && IsRun(Step(s, actions[0]), actions[1..])))
  }

  function Run(s: State, actions: seq<Action>): State
    requires IsRun(s, actions)
    decreases |actions|
  {
    if actions == [] then s else Run(Step(s, actions[0]), actions[1..])
  }

  /** Over all runs: registered and pending items are disjoint, the process-id tables cover exactly
      the registered items and icons, every pending item still has a worker, and the announced
      creations alternate with drops, leaving exactly the registered items. */
  lemma {:induction false} RunKeepsInv(s: State, actions: seq<Action>)
    requires Inv(s) && IsRun(s, actions)
    ensures Inv(Run(s, actions))
    decreases |actions|
  {
    if actions != [] {
      StepKeepsInv(s, actions[0]);
      RunKeepsInv(Step(s, actions[0]), actions[1..]);
    }
  }

  // ---------- agreement with the watcher ----------

  /** A snapshot leaves exactly the listed items registered or pending, unless it returns early
      (the list equals the registered keys) while some item is pending: that item is not cancelled. */
  lemma SnapshotAgreesIff(s: State, current: seq<Item>, keys: seq<Item>)
    requires Inv(s) && Enabled(s, Snapshot(current, keys))
    ensures var t := Step(s, Snapshot(current, keys));
            t.items + t.pending == ToSet(current) <==> !(current == keys && s.pending != {})
  {
    var t := Step(s, Snapshot(current, keys));
    if current == keys {
      if s.pending != {} {
        var i :| i in s.pending;
        assert i in t.items + t.pending && i !in ToSet(current);
      }
    } else {
      assert t.items + t.pending == ToSet(current);
    }
  }

  /** Completions and polls neither lose nor invent an item, so once the workers are done the
      registered items are what registered and pending were together. */
  lemma {:induction false} WorkersRegisterThePending(s: State, actions: seq<Action>)
    requires Inv(s) && IsRun(s, actions) && (forall a <- actions :: !a.Snapshot?)
    ensures var t := Run(s, actions);
            && t.items + t.pending == s.items + s.pending
            && (t.workers == multiset{} ==> t.items == s.items + s.pending)
    decreases |actions|
  {
    if actions == [] {
      if s.workers == multiset{} {
        assert s.pending == {};
      }
    } else {
      var t := Step(s, actions[0]);
      StepKeepsInv(s, actions[0]);
      assert !actions[0].Snapshot?;
      assert t.items + t.pending == s.items + s.pending;
      assert forall a <- actions[1..] :: a in actions;
      WorkersRegisterThePending(t, actions[1..]);
    }
  }

  /** Once the workers are done after a snapshot, the registry is the watcher's list exactly if the snapshot
      did not return early with an item pending. */
  lemma RegistryReachesTheListIff(s: State, current: seq<Item>, keys: seq<Item>, rest: seq<Action>)
    requires Inv(s) && Enabled(s, Snapshot(current, keys))
    requires IsRun(Step(s, Snapshot(current, keys)), rest) && (forall a <- rest :: !a.Snapshot?)
    requires Run(Step(s, Snapshot(current, keys)), rest).workers == multiset{}
    ensures Run(Step(s, Snapshot(current, keys)), rest).items == ToSet(current)
            <==> !(current == keys && s.pending != {})
  {
    SnapshotAgreesIff(s, current, keys);
    StepKeepsInv(s, Snapshot(current, keys));
    WorkersRegisterThePending(Step(s, Snapshot(current, keys)), rest);
  }

  lemma RunOfThree(s: State, a: Action, s1: State, b: Action, s2: State, c: Action, s3: State)
    requires WellFormed(s) && Enabled(s, a) && s1 == Step(s, a)
    requires WellFormed(s1) && Enabled(s1, b) && s2 == Step(s1, b)
    requires WellFormed(s2) && Enabled(s2, c) && s3 == Step(s2, c)
    requires WellFormed(s3)
    ensures IsRun(s, [a, b, c]) && Run(s, [a, b, c]) == s3
  {
    assert [c][1..] == [] && [b, c][1..] == [c] && [a, b, c][1..] == [b, c];
    assert IsRun(s3, []) && Run(s3, []) == s3;
    assert IsRun(s2, [c]) && Run(s2, [c]) == s3;
    assert IsRun(s1, [b, c]) && Run(s1, [b, c]) == s3;
  }

  lemma EmptyListIsSkipped(s: State, empty: Action)
    requires WellFormed(s) && s.items == {} && empty == Snapshot([], [])
    ensures Enabled(s, empty) && Step(s, empty) == s
  {
  }

  lemma CompletionRegisters(s: State, item: Item, pid: Pid, complete: Action)
    requires WellFormed(s) && s.icons == {} && item in s.pending && item in s.workers && complete == Complete(item, pid, [])
    ensures Enabled(s, complete) && WellFormed(Step(s, complete)) && item in Step(s, complete).items
  {
  }

  /** The early return does lose a cancellation: an item that appears and vanishes while the list
      otherwise equals the registered keys is registered although nobody lists it. */
  lemma UnlistedItemIsRegistered(item: Item, pid: Pid, appears: Action, vanishes: Action, complete: Action)
    requires appears == Snapshot([item], []) && vanishes == Snapshot([], []) && complete == Complete(item, pid, [])
    ensures IsRun(INITIAL, [appears, vanishes, complete])
    ensures item in Run(INITIAL, [appears, vanishes, complete]).items
  {
    var s1 := INITIAL.(pending := {item}, workers := multiset{item});
    ListingOfOne(item, INITIAL, appears);
    EmptyListIsSkipped(s1, vanishes);
    CompletionRegisters(s1, item, pid, complete);
    hide Step, AfterSnapshot, AfterComplete, Enabled, Run, IsRun;
    RunOfThree(INITIAL, appears, s1, vanishes, s1, complete, Step(s1, complete));
  }

  // ---------- one protocol per process ----------

  /** The table says Sni for every registered item's process and for no registered icon's. */
  predicate Exclusive(s: State)
    requires WellFormed(s)
  {
    && (forall i <- s.items :: MapsTo(s.table, s.itemPid[i], Sni))
    && (forall w <- s.icons :: !MapsTo(s.table, s.iconPid[w], Sni))
  }

  /** What a step needs in order to keep the exclusion: an item that goes away shares its process
      with no item that stays, and an item that takes a process over finds at most one icon of it. */
  predicate KeepsExclusion(s: State, a: Action)
    requires WellFormed(s)
  {
    match a
    case Snapshot(current, keys) =>
      current == keys ||
      (forall i, j | i in s.items && j in s.items && i !in current && j in current :: s.itemPid[i] != s.itemPid[j])
    case Complete(item, pid, _) =>
      item !in s.pending || MapsTo(s.table, pid, Sni) ||
      (forall v, w | v in s.icons && w in s.icons && s.iconPid[v] == pid && s.iconPid[w] == pid :: v == w)
    case Poll(_, _, _) => true
  }

  lemma StepKeepsExclusionIff(s: State, a: Action)
    requires Inv(s) && Enabled(s, a) && Exclusive(s)
    ensures Inv(Step(s, a)) && (Exclusive(Step(s, a)) <==> KeepsExclusion(s, a))
  {
    StepKeepsInv(s, a);
    match a {
      case Snapshot(current, keys) => SnapshotKeepsExclusionIff(s, current, keys);
      case Complete(item, pid, iconKeys) => CompletionKeepsExclusionIff(s, item, pid, iconKeys);
      case Poll(windows, pids, iconKeys) => PollKeepsExclusion(s, windows, pids, iconKeys);
    }
  }

  lemma SnapshotKeepsExclusionIff(s: State, current: seq<Item>, keys: seq<Item>)
    requires Inv(s) && Enabled(s, Snapshot(current, keys)) && Exclusive(s)
    requires WellFormed(AfterSnapshot(s, current, keys))
    ensures Exclusive(AfterSnapshot(s, current, keys)) <==> KeepsExclusion(s, Snapshot(current, keys))
  {
    var t := AfterSnapshot(s, current, keys);
    var gone := s.items - ToSet(current);
    if current != keys {
      assert t.table == s.table - Image(s.itemPid, gone);
      if Exclusive(t) {
        forall i, j | i in s.items && j in s.items && i !in current && j in current
          ensures s.itemPid[i] != s.itemPid[j]
        {
          assert i in gone && j in t.items && MapsTo(t.table, t.itemPid[j], Sni);
        }
      }
      if KeepsExclusion(s, Snapshot(current, keys)) {
        forall j | j in t.items ensures MapsTo(t.table, t.itemPid[j], Sni) {
          assert MapsTo(s.table, s.itemPid[j], Sni);
          assert s.itemPid[j] !in Image(s.itemPid, gone);
        }
      }
    }
  }

  /** A completion that registers an item removes the first icon of its process, if there is one. */
  lemma CompletionDropsOneIcon(s: State, item: Item, pid: Pid, iconKeys: seq<Window>)
    requires Inv(s) && Enabled(s, Complete(item, pid, iconKeys)) && Exclusive(s)
    requires WellFormed(AfterComplete(s, item, pid, iconKeys))
    requires item in s.pending && !MapsTo(s.table, pid, Sni)
    ensures var t, first := AfterComplete(s, item, pid, iconKeys), FirstOf(iconKeys, s.iconPid, pid);
            && t.icons == (if first.Some? then s.icons - {first.value} else s.icons)
            && (forall w <- t.icons :: t.iconPid[w] == s.iconPid[w])
            && (forall w <- t.icons :: MapsTo(t.table, t.iconPid[w], Sni) <==> s.iconPid[w] == pid)
            && (forall j <- t.items :: MapsTo(t.table, t.itemPid[j], Sni))
  {
    FirstOfFinds(iconKeys, s.iconPid, pid);
  }

  lemma CompletionKeepsExclusionIff(s: State, item: Item, pid: Pid, iconKeys: seq<Window>)
    requires Inv(s) && Enabled(s, Complete(item, pid, iconKeys)) && Exclusive(s)
    requires WellFormed(AfterComplete(s, item, pid, iconKeys))
    ensures Exclusive(AfterComplete(s, item, pid, iconKeys)) <==> KeepsExclusion(s, Complete(item, pid, iconKeys))
  {
    FirstOfFinds(iconKeys, s.iconPid, pid);
    if item in s.pending && !MapsTo(s.table, pid, Sni) {
      CompletionDropsOneIcon(s, item, pid, iconKeys);
      assert forall w <- s.icons :: w in iconKeys by {
        assert forall w <- s.icons :: w in ToSet(iconKeys);
      }
      hide AfterComplete, Inv;
    }
  }

  lemma PollKeepsExclusion(s: State, windows: seq<Window>, pids: map<Window, Pid>, iconKeys: seq<Window>)
    requires Inv(s) && Enabled(s, Poll(windows, pids, iconKeys)) && Exclusive(s)
    requires WellFormed(AfterPoll(s, windows, pids, iconKeys))
    ensures Exclusive(AfterPoll(s, windows, pids, iconKeys))
  {
  }

  // ---------- what one operation leaves behind ----------

  /** One of some items or icons has process `p`. */
  predicate IsProcessOf<K(==)>(pids: map<K, Pid>, some: set<K>, p: Pid) {
    exists k <- some :: k in pids && pids[k] == p
  }

  /** A snapshot that does not return early leaves registered what was registered and is still listed,
      and pending the rest of the list; each item seen for the first time gets one worker; and the
      processes of dropped items, no others, lose their entry. */
  lemma SnapshotSortsTheList(s: State, current: seq<Item>, keys: seq<Item>)
    requires Inv(s) && Enabled(s, Snapshot(current, keys)) && current != keys
    ensures var t := Step(s, Snapshot(current, keys));
            && t.items == (set i | i in current && i in s.items)
            && t.pending == (set i | i in current && i !in s.items)
            && (forall i :: t.workers[i] ==
                  s.workers[i] + if i in current && i !in s.items && i !in s.pending then 1 else 0)
            && (forall i <- t.items :: t.itemPid[i] == s.itemPid[i])
            && t.icons == s.icons && t.iconPid == s.iconPid
            && (forall p, protocol :: MapsTo(t.table, p, protocol) <==>
                  MapsTo(s.table, p, protocol) && !IsProcessOf(s.itemPid, s.items - t.items, p))
  {
    var t := Step(s, Snapshot(current, keys));
    var gone := s.items - t.items;
    assert gone == s.items - ToSet(current);
    forall p ensures p in Image(s.itemPid, gone) <==> IsProcessOf(s.itemPid, gone, p) {
    }
  }

  /** A completion registers a pending item with the process it found and takes that process over; of
      the process's icons the first goes, if the process was not taken over before, and no other icon. */
  lemma CompletionTakesOver(s: State, item: Item, pid: Pid, iconKeys: seq<Window>)
    requires Inv(s) && Enabled(s, Complete(item, pid, iconKeys)) && item in s.pending
    ensures var t := Step(s, Complete(item, pid, iconKeys));
            && t.items == s.items + {item} && t.pending == s.pending - {item}
            && t.workers == s.workers - multiset{item}
            && t.itemPid[item] == pid && (forall i <- s.items :: t.itemPid[i] == s.itemPid[i])
            && (forall p, protocol | p != pid :: MapsTo(t.table, p, protocol) <==> MapsTo(s.table, p, protocol))
            && MapsTo(t.table, pid, Sni)
            && t.icons <= s.icons && (forall w <- t.icons :: t.iconPid[w] == s.iconPid[w])
            && (forall v, w | v in s.icons - t.icons && w in s.icons - t.icons :: v == w && s.iconPid[w] == pid)
            && (t.icons < s.icons <==> !MapsTo(s.table, pid, Sni) && exists w <- s.icons :: s.iconPid[w] == pid)
  {
    FirstOfFinds(iconKeys, s.iconPid, pid);
    assert forall w <- s.icons :: w in iconKeys by {
      assert forall w <- s.icons :: w in ToSet(iconKeys);
    }
  }

  /** The completion of an item that is pending no more leaves everything else as it is. */
  lemma LateCompletionDoesNothing(s: State, item: Item, pid: Pid, iconKeys: seq<Window>)
    requires Inv(s) && Enabled(s, Complete(item, pid, iconKeys)) && item !in s.pending
    ensures Step(s, Complete(item, pid, iconKeys)) == s.(workers := s.workers - multiset{item})
  {
  }

  /** A poll leaves registered just the listed icons that were registered or whose process has no item;
      each new one with its process. */
  lemma PollListsTheIcons(s: State, windows: seq<Window>, pids: map<Window, Pid>, iconKeys: seq<Window>)
    requires Inv(s) && Enabled(s, Poll(windows, pids, iconKeys))
    ensures var t := Step(s, Poll(windows, pids, iconKeys));
            && t.icons == (set w | w in windows && (w in s.icons || !MapsTo(s.table, pids[w], Sni)))
            && (forall w <- t.icons :: t.iconPid[w] == if w in s.icons then s.iconPid[w] else pids[w])
            && t.items == s.items && t.pending == s.pending && t.itemPid == s.itemPid && t.workers == s.workers
  {
    if windows == iconKeys {
      PollEarly(s, windows, iconKeys);
    }
  }

  lemma PollEarly(s: State, windows: seq<Window>, iconKeys: seq<Window>)
    requires Enumerates(iconKeys, s.icons) && windows == iconKeys
    ensures forall w :: w in windows <==> w in s.icons
  {
    assert forall w :: w in ToSet(iconKeys) <==> w in iconKeys;
  }

  /** A poll notes the processes of the new icons, and loses the entries of those whose icons go. */
  lemma PollNotesProcesses(s: State, windows: seq<Window>, pids: map<Window, Pid>, iconKeys: seq<Window>, p: Pid)
    requires Inv(s) && Enabled(s, Poll(windows, pids, iconKeys))
    ensures var t := Step(s, Poll(windows, pids, iconKeys));
            && (MapsTo(t.table, p, Sni) <==> MapsTo(s.table, p, Sni) && !IsProcessOf(s.iconPid, s.icons - t.icons, p))
            && (MapsTo(t.table, p, XEmbed) <==>
                  && !IsProcessOf(s.iconPid, s.icons - t.icons, p)
                  && (MapsTo(s.table, p, XEmbed) || IsProcessOf(pids, t.icons - s.icons, p)))
  {
    if windows != iconKeys {
      var added := Added(s.icons, s.table, windows, pids);
      var gone := s.icons - ToSet(windows);
      var t := Step(s, Poll(windows, pids, iconKeys));
      assert t.icons - s.icons == added && s.icons - t.icons == gone;
      assert p in Image(pids, added) <==> IsProcessOf(pids, added, p);
      assert p in Image(s.iconPid, gone) <==> IsProcessOf(s.iconPid, gone, p);
      hide Added, Image, IsProcessOf, ToSet;
    }
  }

  predicate ExclusiveThroughout(s: State, actions: seq<Action>)
    requires IsRun(s, actions)
    decreases |actions|
  {
    Exclusive(s) && (actions == [] || ExclusiveThroughout(Step(s, actions[0]), actions[1..]))
  }

  predicate AlwaysKeepsExclusion(s: State, actions: seq<Action>)
    requires IsRun(s, actions)
    decreases |actions|
  {
    actions == [] || (KeepsExclusion(s, actions[0]) && AlwaysKeepsExclusion(Step(s, actions[0]), actions[1..]))
  }

  /** The exclusion holds throughout a run exactly if no item that goes shares its process with one that
      stays, and no item takes over a process with two icons. */
  lemma {:induction false} ExclusionHoldsIff(s: State, actions: seq<Action>)
    requires Inv(s) && Exclusive(s) && IsRun(s, actions)
    ensures ExclusiveThroughout(s, actions) <==> AlwaysKeepsExclusion(s, actions)
    decreases |actions|
  {
    hide Inv, Exclusive, KeepsExclusion, Step;
    if actions != [] {
      StepKeepsExclusionIff(s, actions[0]);
      if Exclusive(Step(s, actions[0])) {
        ExclusionHoldsIff(Step(s, actions[0]), actions[1..]);
      }
    }
  }

  /** No two registered items share a process, and no two registered icons do. */
  predicate OneOfEachPerProcess(s: State)
    requires WellFormed(s)
  {
    && (forall i, j | i in s.items && j in s.items && s.itemPid[i] == s.itemPid[j] :: i == j)
    && (forall v, w | v in s.icons && w in s.icons && s.iconPid[v] == s.iconPid[w] :: v == w)
  }

  predicate AlwaysOneOfEach(s: State, actions: seq<Action>)
    requires IsRun(s, actions)
    decreases |actions|
  {
    && OneOfEachPerProcess(s)
    && (actions == [] || AlwaysOneOfEach(Step(s, actions[0]), actions[1..]))
  }

  /** While no process has two items or two icons registered, no process shows through both
      protocols, whatever the order of completions, snapshots and polls. */
  lemma {:induction false} NoProcessIsShownTwice(s: State, actions: seq<Action>)
    requires Inv(s) && Exclusive(s) && IsRun(s, actions) && AlwaysOneOfEach(s, actions)
    ensures var t := Run(s, actions);
            && Inv(t) && Exclusive(t)
            && (forall i, w | i in t.items && w in t.icons :: t.itemPid[i] != t.iconPid[w])
    decreases |actions|
  {
    if actions != [] {
      StepKeepsExclusionIff(s, actions[0]);
      NoProcessIsShownTwice(Step(s, actions[0]), actions[1..]);
    }
  }

  /** From the start: the tables are exact after every run, and while no process has two items or two icons
      registered, none shows through both protocols. */
  lemma RegistriesFromTheStart(actions: seq<Action>)
    requires IsRun(INITIAL, actions)
    ensures Inv(Run(INITIAL, actions))
    ensures AlwaysOneOfEach(INITIAL, actions) ==>
              var t := Run(INITIAL, actions);
              Exclusive(t) && forall i, w | i in t.items && w in t.icons :: t.itemPid[i] != t.iconPid[w]
  {
    InitHolds();
    RunKeepsInv(INITIAL, actions);
    if AlwaysOneOfEach(INITIAL, actions) {
      NoProcessIsShownTwice(INITIAL, actions);
    }
  }

  // Two windows of one process have been polled; then the process's item has been listed.
  function TwoIcons(v: Window, w: Window, pid: Pid): State {
    INITIAL.(icons := {v, w}, iconPid := map[v := pid, w := pid], table := map[pid := XEmbed])
  }

  function TwoIconsAndPending(item: Item, v: Window, w: Window, pid: Pid): State {
    TwoIcons(v, w, pid).(pending := {item}, workers := multiset{item})
  }

  lemma TwoIconsAreAdded(v: Window, w: Window, pid: Pid, pids: map<Window, Pid>)
    requires v != w && pids == map[v := pid, w := pid]
    ensures Added({}, map[], [v, w], pids) == {v, w}
    ensures Image(pids, {v, w}) == {pid}
    ensures WithPids(map[], {v, w}, pids) == pids && WithXEmbed(map[], {pid}) == map[pid := XEmbed]
    ensures {} - ToSet([v, w]) == {} && Image<Window, Pid>(map[], {}) == {}
  {
  }

  lemma PollOfTwo(v: Window, w: Window, pid: Pid, poll: Action)
    requires v != w && poll == Poll([v, w], map[v := pid, w := pid], [])
    ensures Enabled(INITIAL, poll) && Step(INITIAL, poll) == TwoIcons(v, w, pid)
  {
    var pids := map[v := pid, w := pid];
    TwoIconsAreAdded(v, w, pid, pids);
    assert Enumerates<Window>([], {});
    hide Added, Image, WithPids, WithXEmbed, ToSet, MapsTo, Enumerates;
    assert pids - {} == pids && map[pid := XEmbed] - {} == map[pid := XEmbed];
    assert [v, w] != [];
  }

  lemma ListingOfOne(item: Item, s: State, listing: Action)
    requires WellFormed(s) && s.items == {} && s.pending == {} && s.history == [] && s.workers == multiset{}
    requires listing == Snapshot([item], [])
    ensures Enabled(s, listing) && Step(s, listing) == s.(pending := {item}, workers := multiset{item})
  {
    assert NewItems([item], {}, {}) == {item} && ToSet([item]) == {item};
    assert Image(s.itemPid, {}) == {};
    assert multiset({item}) == multiset{item};
    assert Drops([], [item]) == [];
    hide NewItems, ToSet, Image, Drops;
    assert ({} + {item}) * {item} == {item} && s.table - {} == s.table && s.itemPid - {} == s.itemPid;
    assert multiset{} + multiset{item} == multiset{item};
    assert {} - {item} == {};
  }

  lemma TakeOverOfOne(item: Item, v: Window, w: Window, pid: Pid, complete: Action)
    requires v != w && complete == Complete(item, pid, [v, w])
    ensures Enabled(TwoIconsAndPending(item, v, w, pid), complete)
    ensures var t := Step(TwoIconsAndPending(item, v, w, pid), complete);
            WellFormed(t) && t.itemPid == map[item := pid] && t.iconPid == map[w := pid]
  {
    assert FirstOf([v, w], map[v := pid, w := pid], pid) == Some(v);
    assert ToSet([v, w]) == {v, w};
  }

  /** Two icons of one process: only one makes way for the process's item, the other stays. */
  lemma SecondIconStays(item: Item, pid: Pid, v: Window, w: Window, poll: Action, listing: Action, complete: Action)
    requires v != w
    requires poll == Poll([v, w], map[v := pid, w := pid], [])
    requires listing == Snapshot([item], [])
    requires complete == Complete(item, pid, [v, w])
    ensures IsRun(INITIAL, [poll, listing, complete])
    ensures var t := Run(INITIAL, [poll, listing, complete]);
            t.itemPid == map[item := pid] && t.iconPid == map[w := pid]
  {
    var s1, s2 := TwoIcons(v, w, pid), TwoIconsAndPending(item, v, w, pid);
    PollOfTwo(v, w, pid, poll);
    ListingOfOne(item, s1, listing);
    TakeOverOfOne(item, v, w, pid, complete);
    RunOfThree(INITIAL, poll, s1, listing, s2, complete, Step(s2, complete));
  }

  // ---------- the registries as objects ----------

  /** The process table, one static object used by both registries. */
  class ProtocolTable {
    var entries: map<Pid, Protocol>

    constructor ()
      ensures entries == map[]
    {
      entries := map[];
    }
  }

  class XembedProtocol {
    const table: ProtocolTable
    var registered: set<Window>
    var item2Pid: map<Window, Pid>

    constructor (table: ProtocolTable)
      ensures this.table == table && registered == {} && item2Pid == map[]
    {
      this.table := table;
      registered, item2Pid := {}, map[];
    }

    ghost predicate Valid()
      reads this
    {
      item2Pid.Keys == registered
    }

    /** Only the icon part and the table of the abstract state. */
    ghost function Abs(rest: State): State
      reads this, table
    {
      rest.(icons := registered, iconPid := item2Pid, table := table.entries)
    }

    /** Reconciles the registry with the polled icon list. */
    method OnTrayIconsChanged(windows: seq<Window>, pids: map<Window, Pid>, keys: seq<Window>, ghost rest: State)
      requires Valid() && Enumerates(keys, registered) && (forall w <- windows :: w in pids)
      requires WellFormed(Abs(rest))
      modifies this, table
      ensures Valid() && Abs(rest) == AfterPoll(old(Abs(rest)), windows, pids, keys)
    {
      if windows == keys {
        return;
      }
      AddIcons(windows, pids);
      AddThenDrop(old(registered), old(item2Pid), old(table.entries), windows, pids);
      // keys of the registry, which by now also holds the added icons
      var all := registered;
      DropIcons(all, windows);
    }

    method AddIcons(windows: seq<Window>, pids: map<Window, Pid>)
      requires Valid() && (forall w <- windows :: w in pids)
      modifies this, table
      ensures Valid()
      ensures var added := Added(old(registered), old(table.entries), windows, pids);
              && registered == old(registered) + added
              && item2Pid == WithPids(old(item2Pid), added, pids)
              && table.entries == WithXEmbed(old(table.entries), Image(pids, added))
    {
      ghost var before := Icons(registered, item2Pid, table.entries);
      var n := 0;
      while n < |windows|
        invariant n <= |windows| && Icons(registered, item2Pid, table.entries) == AllAdded(before, windows[..n], pids)
      {
        var w := windows[n];
        assert windows[..n + 1][..n] == windows[..n];
        if w !in registered && !MapsTo(table.entries, pids[w], Sni) {
          AddIcon(w, pids[w]);
        }
        n := n + 1;
      }
      assert windows[..n] == windows;
      AllAddedIs(before, windows, pids);
    }

    method AddIcon(w: Window, pid: Pid)
      modifies this`registered, this`item2Pid, table
      ensures registered == old(registered) + {w}
      ensures item2Pid == old(item2Pid)[w := pid]
      ensures table.entries == old(table.entries)[pid := XEmbed]
    {
      table.entries := table.entries[pid := XEmbed];
      item2Pid := item2Pid[w := pid];
      registered := registered + {w};
    }

    method DropIcons(all: set<Window>, windows: seq<Window>)
      requires Valid() && all == registered
      modifies this, table
      ensures Valid()
      ensures var gone := old(registered) - ToSet(windows);
              && registered == old(registered) - gone
              && item2Pid == old(item2Pid) - gone
              && table.entries == old(table.entries) - Image(old(item2Pid), gone)
    {
      ghost var pidOf, entries := item2Pid, table.entries;
      var todo := all;
      while todo != {}
        invariant todo <= all && Valid()
        invariant registered == all - ((all - todo) - ToSet(windows))
        invariant item2Pid == pidOf - ((all - todo) - ToSet(windows))
        invariant table.entries == entries - Image(pidOf, (all - todo) - ToSet(windows))
        decreases todo
      {
        var w :| w in todo;
        ghost var done := (all - todo) - ToSet(windows);
        todo := todo - {w};
        if w !in windows {
          assert (all - todo) - ToSet(windows) == done + {w};
          ImageOfOneMore(pidOf, done, w);
          table.entries := table.entries - {item2Pid[w]};
          item2Pid := item2Pid - {w};
          registered := registered - {w};
        } else {
          assert (all - todo) - ToSet(windows) == done;
        }
      }
      assert all - todo == all;
    }

    /** Drops the first registered icon of a process. */
    method OnRemoveItemByPid(pid: Pid, keys: seq<Window>)
      requires Valid() && Enumerates(keys, registered)
      modifies this
      ensures Valid()
      ensures var w := FirstOf(keys, old(item2Pid), pid);
              && registered == (if w.None? then old(registered) else old(registered) - {w.value})
              && item2Pid == (if w.None? then old(item2Pid) else old(item2Pid) - {w.value})
    {
      var n := 0;
      while n < |keys| && !(keys[n] in item2Pid && item2Pid[keys[n]] == pid)
        invariant n <= |keys| && FirstOf(keys, item2Pid, pid) == FirstOf(keys[n..], item2Pid, pid)
      {
        n := n + 1;
      }
      if n < |keys| {
        registered, item2Pid := registered - {keys[n]}, item2Pid - {keys[n]};
      }
    }
  }

  lemma AddedSnoc(icons: set<Window>, table: map<Pid, Protocol>, windows: seq<Window>, w: Window, pids: map<Window, Pid>)
    requires (forall v <- windows :: v in pids) && w in pids
    ensures Added(icons, table, windows + [w], pids) ==
            Added(icons, table, windows, pids) + if w !in icons && !MapsTo(table, pids[w], Sni) then {w} else {}
  {
  }

  datatype Icons = Icons(registered: set<Window>, pidOf: map<Window, Pid>, table: map<Pid, Protocol>)

  function OneAdded(icons: Icons, w: Window, pid: Pid): Icons {
    if w in icons.registered || MapsTo(icons.table, pid, Sni) then icons
    else Icons(icons.registered + {w}, icons.pidOf[w := pid], icons.table[pid := XEmbed])
  }

  /** Adding the listed icons one by one. */
  function AllAdded(icons: Icons, windows: seq<Window>, pids: map<Window, Pid>): Icons
    requires forall w <- windows :: w in pids
  {
    if windows == [] then icons
    else
      var n := |windows| - 1;
      OneAdded(AllAdded(icons, windows[..n], pids), windows[n], pids[windows[n]])
  }

  function WithAdded(icons: Icons, added: set<Window>, pids: map<Window, Pid>): Icons {
    Icons(icons.registered + added, WithPids(icons.pidOf, added, pids), WithXEmbed(icons.table, Image(pids, added)))
  }

  lemma OneMoreAdded(icons: Icons, windows: seq<Window>, w: Window, pids: map<Window, Pid>)
    requires (forall v <- windows :: v in pids) && w in pids
    ensures OneAdded(WithAdded(icons, Added(icons.registered, icons.table, windows, pids), pids), w, pids[w]) ==
            WithAdded(icons, Added(icons.registered, icons.table, windows + [w], pids), pids)
  {
    var done := Added(icons.registered, icons.table, windows, pids);
    AddedSnoc(icons.registered, icons.table, windows, w, pids);
    AddOneIcon(icons.pidOf, icons.table, done, w, pids);
    AddingMarksNoSni(icons.registered, icons.table, windows, pids, pids[w]);
    AddedCondition(icons.registered, icons.table, windows, w, pids);
    hide Added, Image, WithPids, WithXEmbed, MapsTo;
    if w in done {
      assert done + {w} == done;
    } else {
      assert icons.registered + done + {w} == icons.registered + (done + {w});
      assert done + {} == done;
    }
  }

  lemma {:induction false} AllAddedIs(icons: Icons, windows: seq<Window>, pids: map<Window, Pid>)
    requires forall w <- windows :: w in pids
    ensures AllAdded(icons, windows, pids) == WithAdded(icons, Added(icons.registered, icons.table, windows, pids), pids)
  {
    if windows == [] {
      AddNoIcon(icons.registered, icons.pidOf, icons.table, pids);
      hide Added, Image, WithPids, WithXEmbed;
    } else {
      var n := |windows| - 1;
      assert windows[..n] + [windows[n]] == windows;
      hide WithAdded, OneAdded, Added;
      AllAddedIs(icons, windows[..n], pids);
      OneMoreAdded(icons, windows[..n], windows[n], pids);
    }
  }

  lemma AddNoIcon(icons: set<Window>, iconPid: map<Window, Pid>, table: map<Pid, Protocol>, pids: map<Window, Pid>)
    ensures Added(icons, table, [], pids) == {}
    ensures WithPids(iconPid, {}, pids) == iconPid
    ensures WithXEmbed(table, Image(pids, {})) == table
  {
    assert Image(pids, {}) == {};
  }

  /** One more added icon, in the two tables. */
  lemma AddOneIcon(iconPid: map<Window, Pid>, table: map<Pid, Protocol>, added: set<Window>, w: Window, pids: map<Window, Pid>)
    requires w in pids
    ensures WithPids(iconPid, added + {w}, pids) == WithPids(iconPid, added, pids)[w := pids[w]]
    ensures WithXEmbed(table, Image(pids, added + {w})) == WithXEmbed(table, Image(pids, added))[pids[w] := XEmbed]
  {
    ImageOfOneMore(pids, added, w);
  }

  /** Adding icons does not change which processes are marked Sni. */
  lemma AddingMarksNoSni(icons: set<Window>, table: map<Pid, Protocol>, windows: seq<Window>, pids: map<Window, Pid>, pid: Pid)
    requires forall w <- windows :: w in pids
    ensures MapsTo(WithXEmbed(table, Image(pids, Added(icons, table, windows, pids))), pid, Sni) <==> MapsTo(table, pid, Sni)
  {
  }

  lemma AddedCondition(icons: set<Window>, table: map<Pid, Protocol>, windows: seq<Window>, w: Window, pids: map<Window, Pid>)
    requires (forall v <- windows :: v in pids) && w in pids
    ensures w in Added(icons, table, windows, pids) <==> w in windows && w !in icons && !MapsTo(table, pids[w], Sni)
  {
  }

  /** Icons that are listed are not dropped, so adding them first changes nothing about the drop. */
  lemma AddThenDrop(icons: set<Window>, iconPid: map<Window, Pid>, table: map<Pid, Protocol>, windows: seq<Window>,
                    pids: map<Window, Pid>)
    requires (forall w <- windows :: w in pids) && iconPid.Keys == icons
    ensures var added := Added(icons, table, windows, pids);
            && icons + added - ToSet(windows) == icons - ToSet(windows)
            && Image(WithPids(iconPid, added, pids), icons - ToSet(windows)) == Image(iconPid, icons - ToSet(windows))
  {
  }

  lemma ImageOfOneMore<K, V>(m: map<K, V>, keys: set<K>, k: K)
    requires k in m
    ensures Image(m, keys + {k}) == Image(m, keys) + {m[k]}
  {
  }

  datatype Items = Items(registered: set<Item>, pidOf: map<Item, Pid>, table: map<Pid, Protocol>, history: seq<Event>)

  function OneDropped(items: Items, k: Item): Items {
    if k !in items.pidOf then items
    else Items(items.registered - {k}, items.pidOf - {k}, items.table - {items.pidOf[k]}, items.history + [Dropped(k)])
  }

  /** Dropping the keys that are not listed one by one. */
  function AllDropped(items: Items, keys: seq<Item>, current: seq<Item>): Items {
    if keys == [] then items
    else
      var n := |keys| - 1;
      var before := AllDropped(items, keys[..n], current);
      if keys[n] in current then before else OneDropped(before, keys[n])
  }

  function WithoutItems(items: Items, gone: set<Item>, drops: seq<Event>): Items {
    Items(items.registered - gone, items.pidOf - gone, items.table - Image(items.pidOf, gone), items.history + drops)
  }

  lemma OneMoreDropped(items: Items, gone: set<Item>, drops: seq<Event>, k: Item)
    requires k in items.pidOf && k !in gone
    ensures OneDropped(WithoutItems(items, gone, drops), k) == WithoutItems(items, gone + {k}, drops + [Dropped(k)])
  {
    ImageOfOneMore(items.pidOf, gone, k);
    var pids := Image(items.pidOf, gone);
    hide Image;
    assert items.registered - gone - {k} == items.registered - (gone + {k});
    assert items.pidOf - gone - {k} == items.pidOf - (gone + {k});
    assert items.table - pids - {items.pidOf[k]} == items.table - (pids + {items.pidOf[k]});
    assert items.history + drops + [Dropped(k)] == items.history + (drops + [Dropped(k)]);
  }

  lemma NoneDropped(items: Items)
    ensures WithoutItems(items, {}, []) == items
  {
    assert Image(items.pidOf, {}) == {};
    hide Image;
    assert items.registered - {} == items.registered && items.pidOf - {} == items.pidOf && items.table - {} == items.table;
    assert items.history + [] == items.history;
  }

  lemma {:induction false} AllDroppedIs(items: Items, keys: seq<Item>, current: seq<Item>)
    requires (forall k <- keys :: k in items.pidOf) && (forall i, j | 0 <= i < j < |keys| :: keys[i] != keys[j])
    ensures AllDropped(items, keys, current) == WithoutItems(items, Unlisted(keys, current), Drops(keys, current))
  {
    if keys == [] {
      DropNothing(items.pidOf, current);
      NoneDropped(items);
    } else {
      var n := |keys| - 1;
      var k := keys[n];
      assert keys[..n] + [k] == keys;
      assert k !in Unlisted(keys[..n], current);
      DropsSnoc(keys[..n], k, current);
      hide Unlisted, Drops, WithoutItems, OneDropped;
      AllDroppedIs(items, keys[..n], current);
      if k !in current {
        OneMoreDropped(items, Unlisted(keys[..n], current), Drops(keys[..n], current), k);
      } else {
        assert Unlisted(keys[..n], current) + {} == Unlisted(keys[..n], current);
        assert Drops(keys[..n], current) + [] == Drops(keys[..n], current);
      }
    }
  }

  lemma DropNothing(itemPid: map<Item, Pid>, current: seq<Item>)
    ensures Unlisted([], current) == {} && Image(itemPid, {}) == {} && Drops([], current) == []
  {
  }

  lemma DropsSnoc(keys: seq<Item>, item: Item, current: seq<Item>)
    ensures Drops(keys + [item], current) == Drops(keys, current) + if item in current then [] else [Dropped(item)]
    ensures Unlisted(keys + [item], current) == Unlisted(keys, current) + if item in current then {} else {item}
  {
    assert (keys + [item])[..|keys|] == keys;
    UnlistedSnoc(keys + [item], current);
  }

  lemma UnlistedKeys(keys: seq<Item>, all: set<Item>, current: seq<Item>)
    requires Enumerates(keys, all)
    ensures Unlisted(keys, current) == all - ToSet(current)
  {
    assert forall k <- keys :: k in ToSet(keys);
  }

  lemma MultisetOfGrowingSet<T>(xs: set<T>, x: T)
    requires x !in xs
    ensures multiset(xs + {x}) == multiset(xs) + multiset{x}
  {
  }

  lemma NewItemsSnoc(current: seq<Item>, item: Item, registered: set<Item>, pending: set<Item>)
    ensures NewItems(current + [item], registered, pending) ==
            NewItems(current, registered, pending) + if item in registered || item in pending then {} else {item}
    ensures item in NewItems(current, registered, pending) <==> item in current && item !in registered && item !in pending
  {
  }

  datatype Creations = Creations(pending: set<Item>, workers: multiset<Item>)

  /** Starting a worker for each new item, one list element at a time. */
  function AllStarted(c: Creations, current: seq<Item>, registered: set<Item>): Creations {
    if current == [] then c
    else
      var n := |current| - 1;
      var before, item := AllStarted(c, current[..n], registered), current[n];
      if item in registered || item in before.pending then before
      else Creations(before.pending + {item}, before.workers + multiset{item})
  }

  lemma {:induction false} AllStartedIs(c: Creations, current: seq<Item>, registered: set<Item>)
    ensures var added := NewItems(current, registered, c.pending);
            AllStarted(c, current, registered) == Creations(c.pending + added, c.workers + multiset(added))
  {
    if current == [] {
      assert NewItems(current, registered, c.pending) == {};
    } else {
      var n := |current| - 1;
      var item, done := current[n], NewItems(current[..n], registered, c.pending);
      assert current[..n] + [item] == current;
      AllStartedIs(c, current[..n], registered);
      NewItemsSnoc(current[..n], item, registered, c.pending);
      hide NewItems;
      if item !in registered && item !in c.pending && item !in done {
        MultisetOfGrowingSet(done, item);
        assert c.pending + done + {item} == c.pending + (done + {item});
      } else if item in done {
        assert done + {item} == done;
      } else {
        assert done + {} == done;
      }
    }
  }

  class SniTrayProtocol {
    const xembed: XembedProtocol
    var registered: set<Item>
    var pending: set<Item>
    var item2Pid: map<Item, Pid>
    ghost var workers: multiset<Item>
    ghost var history: seq<Event>

    constructor (xembed: XembedProtocol)
      ensures this.xembed == xembed && registered == {} && pending == {} && item2Pid == map[]
      ensures workers == multiset{} && history == []
    {
      this.xembed := xembed;
      registered, pending, item2Pid := {}, {}, map[];
      workers, history := multiset{}, [];
    }

    ghost function Abs(): State
      reads this, xembed, xembed.table
    {
      State(registered, pending, item2Pid, workers, xembed.registered, xembed.item2Pid, xembed.table.entries, history)
    }

    /** Reacts to a change of the watcher's list: start workers for new items, drop the items that
        are gone, cancel the pending ones that are gone. */
    method RegistedItemChanged(current: seq<Item>, keys: seq<Item>)
      requires Inv(Abs()) && Enumerates(keys, registered)
      modifies this, xembed.table
      ensures Abs() == AfterSnapshot(old(Abs()), current, keys)
    {
      if current == keys {
        return;
      }
      ghost var s := Abs();
      StartWorkers(current);
      DropItems(current, keys);
      CancelPending(current);
      assert Abs() == AfterSnapshot(s, current, keys);
    }

    method StartWorkers(current: seq<Item>)
      modifies this`pending, this`workers
      ensures var added := NewItems(current, registered, old(pending));
              pending == old(pending) + added && workers == old(workers) + multiset(added)
    {
      ghost var before := Creations(pending, workers);
      var n := 0;
      while n < |current|
        invariant n <= |current| && Creations(pending, workers) == AllStarted(before, current[..n], registered)
      {
        var item := current[n];
        assert current[..n + 1][..n] == current[..n];
        if item !in registered && item !in pending {
          pending := pending + {item};
          workers := workers + multiset{item};
        }
        n := n + 1;
      }
      assert current[..n] == current;
      AllStartedIs(before, current, registered);
    }

    method DropItems(current: seq<Item>, keys: seq<Item>)
      requires item2Pid.Keys == registered && Enumerates(keys, registered)
      modifies this`registered, this`item2Pid, this`history, xembed.table
      ensures var gone := old(registered) - ToSet(current);
              && registered == old(registered) - gone
              && item2Pid == old(item2Pid) - gone
              && xembed.table.entries == old(xembed.table.entries) - Image(old(item2Pid), gone)
              && history == old(history) + Drops(keys, current)
    {
      ghost var before := Items(registered, item2Pid, xembed.table.entries, history);
      assert forall k <- keys :: k in ToSet(keys);
      var n := 0;
      while n < |keys|
        invariant n <= |keys| && item2Pid.Keys == registered
        invariant forall k <- keys[n..] :: k in registered
        invariant Items(registered, item2Pid, xembed.table.entries, history) == AllDropped(before, keys[..n], current)
      {
        var item := keys[n];
        assert keys[..n + 1][..n] == keys[..n];
        assert forall k <- keys[n + 1..] :: k in keys[n..] && k != item;
        assert item in keys[n..];
        if item !in current {
          DropItem(item);
        }
        n := n + 1;
      }
      assert keys[..n] == keys;
      AllDroppedIs(before, keys, current);
      UnlistedKeys(keys, before.registered, current);
    }

    method DropItem(item: Item)
      requires item in item2Pid
      modifies this`registered, this`item2Pid, this`history, xembed.table
      ensures registered == old(registered) - {item} && item2Pid == old(item2Pid) - {item}
      ensures xembed.table.entries == old(xembed.table.entries) - {old(item2Pid)[item]}
      ensures history == old(history) + [Dropped(item)]
    {
      var pid := item2Pid[item];
      item2Pid := item2Pid - {item};
      xembed.table.entries := xembed.table.entries - {pid};
      registered := registered - {item};
      history := history + [Dropped(item)];
    }

    method CancelPending(current: seq<Item>)
      modifies this`pending
      ensures pending == old(pending) * ToSet(current)
    {
      var todo, toRemove: set<Item> := pending, {};
      while todo != {}
        invariant todo <= pending && toRemove == (pending - todo) - ToSet(current)
        decreases todo
      {
        var item :| item in todo;
        todo := todo - {item};
        if item !in current {
          toRemove := toRemove + {item};
        }
      }
      pending := pending - toRemove;
    }

    /** A worker's completion call on the GUI thread; the result tells whether a creation is announced. */
    method Complete(item: Item, pid: Pid, iconKeys: seq<Window>) returns (created: bool)
      requires Inv(Abs()) && xembed.Valid() && Enumerates(iconKeys, xembed.registered)
      modifies this, xembed, xembed.table
      ensures Abs() == AfterComplete(old(Abs()), item, pid, iconKeys)
      ensures created <==> item in old(pending)
    {
      workers := workers - multiset{item};
      if item !in pending {
        return false;
      }
      pending := pending - {item};
      item2Pid := item2Pid[item := pid];
      if !MapsTo(xembed.table.entries, pid, Sni) {
        xembed.OnRemoveItemByPid(pid, iconKeys);
      }
      xembed.table.entries := xembed.table.entries[pid := Sni];
      registered := registered + {item};
      history := history + [Created(item)];
      created := true;
    }
  }
}
