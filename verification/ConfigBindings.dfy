/** Callbacks bound to configuration keys.

    A table keeps, for each configuration, the keys every object is bound to, and one callback per
    object. The reference is the plain set of (configuration, object, key) bindings asked for and not
    taken back, with the callback each object was last bound with. */
module ConfigBindings {
  import opened Collections

  type Config(==, !new)
  type Object(==, !new)
  type Callback(==, !new)

  // The empty key stands for all keys when unbinding.
  datatype Key = Empty | Named(name: string)

  type BindInfo = map<Object, seq<Key>>

  datatype State = State(
    infos: map<Config, BindInfo>,
    callbacks: map<Object, Callback>,
    watched: set<Object>)          // objects whose `destroyed` signal is connected

  datatype Reference = Reference(bound: set<(Config, Object, Key)>, last: map<Object, Callback>)

  datatype Action =
    | Create(config: Config)
    | Bind(target: Option<Config>, obj: Object, key: Key, callback: Callback)   // no config: creating it failed
    | Unbind(obj: Object, key: Key)
    | Destroy(obj: Object)

  // ---------- the table ----------

  function WithKey(info: BindInfo, o: Object, k: Key): BindInfo {
    if o !in info then info[o := [k]]
    else if k in info[o] then info
    else info[o := info[o] + [k]]
  }

  function WithoutKey(keys: seq<Key>, k: Key): (r: seq<Key>)
    ensures forall j :: j in r <==> j in keys && j != k
  {
    if keys == [] then []
    else if keys[0] == k then WithoutKey(keys[1..], k)
    else [keys[0]] + WithoutKey(keys[1..], k)
  }

  lemma {:induction false} WithoutKeyKeepsDistinct(keys: seq<Key>, k: Key)
    requires NoDuplicates(keys)
    ensures NoDuplicates(WithoutKey(keys, k))
  {
    if keys != [] {
      var rest := WithoutKey(keys[1..], k);
      assert forall i | 0 <= i < |keys[1..]| :: keys[1..][i] == keys[i + 1];
      assert keys[0] !in keys[1..];
      WithoutKeyKeepsDistinct(keys[1..], k);
      assert forall i | 0 <= i < |rest| :: rest[i] in rest && rest[i] in keys[1..];
    }
  }

  predicate NoDuplicates(keys: seq<Key>) {
    forall i, j | 0 <= i < j < |keys| :: keys[i] != keys[j]
  }

  function Without(info: BindInfo, o: Object, k: Key): BindInfo {
    if k.Empty? then info - {o}
    else if o !in info then info
    else
      var rest := WithoutKey(info[o], k);
      if rest == [] then info - {o} else info[o := rest]
  }

  function AllWithout(infos: map<Config, BindInfo>, o: Object, k: Key): map<Config, BindInfo> {
    map c | c in infos :: Without(infos[c], o, k)
  }

  predicate IsUseful(infos: map<Config, BindInfo>, o: Object) {
    exists c <- infos :: o in infos[c]
  }

  function Unbound(s: State, o: Object, k: Key): State {
    var infos := AllWithout(s.infos, o, k);
    var useful := !k.Empty? && IsUseful(infos, o);
    s.(infos := infos, callbacks := if useful then s.callbacks else s.callbacks - {o})
  }

  function Step(s: State, a: Action): State {
    match a
    case Create(c) => s.(infos := s.infos[c := map[]])
    case Bind(target, o, k, f) =>
      if target.None? || target.value !in s.infos then s
      else State(s.infos[target.value := WithKey(s.infos[target.value], o, k)], s.callbacks[o := f], s.watched + {o})
    case Unbind(o, k) => Unbound(s, o, k)
    case Destroy(o) => if o in s.watched then Unbound(s, o, Empty).(watched := s.watched - {o}) else s
  }

  /** A new configuration object is none of the old ones. */
  predicate Enabled(s: State, a: Action) {
    a.Create? ==> a.config !in s.infos
  }

  /** The objects called, with their callbacks, when `k` changes in `c`. */
  function Called(s: State, c: Config, k: Key): set<(Object, Callback)> {
    if c !in s.infos then {}
    else set o | o in s.infos[c] && k in s.infos[c][o] && o in s.callbacks :: (o, s.callbacks[o])
  }

  // ---------- the reference ----------

  function ReferenceStep(s: State, r: Reference, a: Action): Reference {
    match a
    case Create(_) => r
    case Bind(target, o, k, f) =>
      if target.None? || target.value !in s.infos then r
      else Reference(r.bound + {(target.value, o, k)}, r.last[o := f])
    case Unbind(o, k) => r.(bound := set b | b in r.bound && !(b.1 == o && (k.Empty? || b.2 == k)))
    case Destroy(o) => r.(bound := set b | b in r.bound && b.1 != o)
  }

  predicate Lists(infos: map<Config, BindInfo>, c: Config, o: Object, k: Key) {
    c in infos && o in infos[c] && k in infos[c][o]
  }

  ghost predicate Matches(infos: map<Config, BindInfo>, bound: set<(Config, Object, Key)>) {
    forall c, o, k :: Lists(infos, c, o, k) <==> (c, o, k) in bound
  }

  /** No key list is empty, and none names a key twice. */
  predicate KeyListsAreProper(infos: map<Config, BindInfo>) {
    forall c <- infos :: forall o <- infos[c] :: infos[c][o] != [] && NoDuplicates(infos[c][o])
  }

  ghost predicate CallbacksAreExact(infos: map<Config, BindInfo>, callbacks: map<Object, Callback>) {
    forall o :: o in callbacks <==> IsUseful(infos, o)
  }

  ghost predicate BoundAreWatched(infos: map<Config, BindInfo>, watched: set<Object>) {
    forall o | IsUseful(infos, o) :: o in watched
  }

  predicate CallbacksAreLast(callbacks: map<Object, Callback>, last: map<Object, Callback>) {
    forall o <- callbacks :: o in last && callbacks[o] == last[o]
  }

  ghost predicate Inv(s: State, r: Reference) {
    && Matches(s.infos, r.bound)
    && KeyListsAreProper(s.infos)
    && CallbacksAreExact(s.infos, s.callbacks)
    && BoundAreWatched(s.infos, s.watched)
    && CallbacksAreLast(s.callbacks, r.last)
  }

  lemma CreateKeepsInv(s: State, r: Reference, c: Config)
    requires Inv(s, r) && c !in s.infos
    ensures Inv(Step(s, Create(c)), r)
  {
    var infos := s.infos[c := map[]];
    forall d, o, k ensures Lists(infos, d, o, k) <==> Lists(s.infos, d, o, k) {
    }
    forall o ensures IsUseful(infos, o) <==> IsUseful(s.infos, o) {
      if IsUseful(s.infos, o) {
        var d :| d in s.infos && o in s.infos[d];
        assert d in infos && o in infos[d];
      }
    }
  }

  lemma BindUses(infos: map<Config, BindInfo>, c: Config, o: Object, k: Key, p: Object)
    requires c in infos
    ensures IsUseful(infos[c := WithKey(infos[c], o, k)], p) <==> p == o || IsUseful(infos, p)
  {
    var after := infos[c := WithKey(infos[c], o, k)];
    assert o in after[c];
    if IsUseful(infos, p) {
      var d :| d in infos && p in infos[d];
      assert d in after && p in after[d];
    }
  }

  lemma BindMatches(infos: map<Config, BindInfo>, bound: set<(Config, Object, Key)>, c: Config, o: Object, k: Key)
    requires c in infos && Matches(infos, bound) && KeyListsAreProper(infos)
    ensures var after := infos[c := WithKey(infos[c], o, k)];
            Matches(after, bound + {(c, o, k)}) && KeyListsAreProper(after)
  {
    var after := infos[c := WithKey(infos[c], o, k)];
    forall d, p, j ensures Lists(after, d, p, j) <==> (d, p, j) in bound + {(c, o, k)} {
      assert Lists(infos, d, p, j) <==> (d, p, j) in bound;
    }
  }

  lemma BindKeepsInv(s: State, r: Reference, a: Action)
    requires Inv(s, r) && a.Bind?
    ensures Inv(Step(s, a), ReferenceStep(s, r, a))
  {
    if a.target.Some? && a.target.value in s.infos {
      var c := a.target.value;
      BindMatches(s.infos, r.bound, c, a.obj, a.key);
      hide Matches, KeyListsAreProper, WithKey, IsUseful;
      forall p ensures IsUseful(Step(s, a).infos, p) <==> p == a.obj || IsUseful(s.infos, p) {
        BindUses(s.infos, c, a.obj, a.key, p);
      }
    }
  }

  lemma UnbindMatches(infos: map<Config, BindInfo>, bound: set<(Config, Object, Key)>, o: Object, k: Key)
    requires Matches(infos, bound) && KeyListsAreProper(infos)
    ensures Matches(AllWithout(infos, o, k), set b | b in bound && !(b.1 == o && (k.Empty? || b.2 == k)))
    ensures KeyListsAreProper(AllWithout(infos, o, k))
  {
    var after := AllWithout(infos, o, k);
    forall c | c in infos && o in infos[c] ensures NoDuplicates(WithoutKey(infos[c][o], k)) {
      WithoutKeyKeepsDistinct(infos[c][o], k);
    }
    hide NoDuplicates;
    var left := set b | b in bound && !(b.1 == o && (k.Empty? || b.2 == k));
    forall d, p, j ensures Lists(after, d, p, j) <==> (d, p, j) in left {
      assert Lists(infos, d, p, j) <==> (d, p, j) in bound;
    }
  }

  /** Unbinding may make its own object useless, and no other. */
  lemma UnbindUses(infos: map<Config, BindInfo>, o: Object, k: Key, p: Object)
    ensures IsUseful(AllWithout(infos, o, k), p) ==> IsUseful(infos, p) && !(p == o && k.Empty?)
    ensures p != o && IsUseful(infos, p) ==> IsUseful(AllWithout(infos, o, k), p)
  {
    var after := AllWithout(infos, o, k);
    if p != o && IsUseful(infos, p) {
      var d :| d in infos && p in infos[d];
      assert d in after && p in after[d];
    }
  }

  lemma UnboundKeepsInv(s: State, r: Reference, o: Object, k: Key)
    requires Inv(s, r)
    ensures Inv(Unbound(s, o, k), ReferenceStep(s, r, Unbind(o, k)))
    ensures k.Empty? ==> !IsUseful(Unbound(s, o, k).infos, o)
  {
    UnbindMatches(s.infos, r.bound, o, k);
    hide Matches, KeyListsAreProper, AllWithout, IsUseful;
    forall p
      ensures IsUseful(AllWithout(s.infos, o, k), p) ==> IsUseful(s.infos, p) && !(p == o && k.Empty?)
      ensures p != o && IsUseful(s.infos, p) ==> IsUseful(AllWithout(s.infos, o, k), p)
    {
      UnbindUses(s.infos, o, k, p);
    }
  }

  lemma DestroyKeepsInv(s: State, r: Reference, o: Object)
    requires Inv(s, r)
    ensures Inv(Step(s, Destroy(o)), ReferenceStep(s, r, Destroy(o)))
  {
    var left := set b | b in r.bound && b.1 != o;
    if o in s.watched {
      UnboundKeepsInv(s, r, o, Empty);
      assert left == (set b | b in r.bound && !(b.1 == o && (Empty.Empty? || b.2 == Empty)));
    } else {
      forall b | b in r.bound ensures b.1 != o {
        assert Lists(s.infos, b.0, b.1, b.2);
        assert IsUseful(s.infos, b.1);
      }
      assert left == r.bound;
    }
  }

  lemma StepKeepsInv(s: State, r: Reference, a: Action)
    requires Inv(s, r) && Enabled(s, a)
    ensures Inv(Step(s, a), ReferenceStep(s, r, a))
  {
    match a {
      case Create(c) => CreateKeepsInv(s, r, c);
      case Bind(_, _, _, _) => BindKeepsInv(s, r, a);
      case Unbind(o, k) => UnboundKeepsInv(s, r, o, k);
      case Destroy(o) => DestroyKeepsInv(s, r, o);
    }
  }

  // ---------- runs ----------

  predicate IsRun(s: State, actions: seq<Action>)
    decreases |actions|
  {
    actions == [] || (Enabled(s, actions[0]) && IsRun(Step(s, actions[0]), actions[1..]))
  }

  function Run(s: State, actions: seq<Action>): State
    requires IsRun(s, actions)
    decreases |actions|
  {
    if actions == [] then s else Run(Step(s, actions[0]), actions[1..])
  }

  function ReferenceRun(s: State, r: Reference, actions: seq<Action>): Reference
    requires IsRun(s, actions)
    decreases |actions|
  {
    if actions == [] then r else ReferenceRun(Step(s, actions[0]), ReferenceStep(s, r, actions[0]), actions[1..])
  }

  const INITIAL := State(map[], map[], {})
  const NOTHING := Reference({}, map[])

  lemma InitHolds()
    ensures Inv(INITIAL, NOTHING)
  {
    forall c, o, k ensures Lists(INITIAL.infos, c, o, k) <==> (c, o, k) in NOTHING.bound {
    }
  }

  /** Over every run: the table lists just the bindings asked for and not taken back, an object has a
      callback just while some configuration lists a key for it, and no key list is empty. */
  lemma {:induction false} RunKeepsInv(s: State, r: Reference, actions: seq<Action>)
    requires Inv(s, r) && IsRun(s, actions)
    ensures Inv(Run(s, actions), ReferenceRun(s, r, actions))
    decreases |actions|
  {
    if actions != [] {
      StepKeepsInv(s, r, actions[0]);
      RunKeepsInv(Step(s, actions[0]), ReferenceStep(s, r, actions[0]), actions[1..]);
    }
  }

  /** A change of a key calls the objects bound to that key in that configuration and no others, each
      with the callback it was last bound with, for whatever key that was. */
  lemma DispatchIsExact(s: State, r: Reference, c: Config, k: Key)
    requires Inv(s, r)
    ensures forall o, f :: (o, f) in Called(s, c, k) <==> (c, o, k) in r.bound && o in r.last && f == r.last[o]
  {
    forall o, f ensures (o, f) in Called(s, c, k) <==> (c, o, k) in r.bound && o in r.last && f == r.last[o] {
      assert Lists(s.infos, c, o, k) <==> (c, o, k) in r.bound;
      assert Lists(s.infos, c, o, k) ==> IsUseful(s.infos, o);
    }
  }

  lemma DispatchIsExactInEveryRun(actions: seq<Action>, c: Config, k: Key, o: Object, f: Callback)
    requires IsRun(INITIAL, actions)
    ensures var r := ReferenceRun(INITIAL, NOTHING, actions);
            (o, f) in Called(Run(INITIAL, actions), c, k) <==> (c, o, k) in r.bound && o in r.last && f == r.last[o]
  {
    InitHolds();
    RunKeepsInv(INITIAL, NOTHING, actions);
    DispatchIsExact(Run(INITIAL, actions), ReferenceRun(INITIAL, NOTHING, actions), c, k);
  }

  /** After its destruction an object is in no table any more, so it is not called until it is bound again. */
  lemma DestroyedObjectsAreForgotten(s: State, r: Reference, o: Object)
    requires Inv(s, r)
    ensures var t := Step(s, Destroy(o)); o !in t.callbacks && !IsUseful(t.infos, o)
  {
    if o in s.watched {
      UnboundKeepsInv(s, r, o, Empty);
    }
  }

  function PartlyWithout(infos: map<Config, BindInfo>, todo: set<Config>, o: Object, k: Key): map<Config, BindInfo> {
    map c | c in infos :: if c in todo then infos[c] else Without(infos[c], o, k)
  }

  predicate IsUsefulOutside(infos: map<Config, BindInfo>, todo: set<Config>, o: Object) {
    exists c <- infos :: c !in todo && o in infos[c]
  }

  lemma UnbindingKeepsConfigs(infos: map<Config, BindInfo>, o: Object, k: Key)
    ensures AllWithout(infos, o, k).Keys == infos.Keys
  {
  }

  lemma StartUnbinding(infos: map<Config, BindInfo>, o: Object, k: Key)
    ensures infos == PartlyWithout(infos, infos.Keys, o, k) && !IsUsefulOutside(infos, infos.Keys, o)
  {
  }

  lemma EndUnbinding(infos: map<Config, BindInfo>, o: Object, k: Key)
    ensures PartlyWithout(infos, {}, o, k) == AllWithout(infos, o, k)
    ensures forall after: map<Config, BindInfo> :: IsUsefulOutside(after, {}, o) == IsUseful(after, o)
  {
    hide Without;
  }

  lemma UnbindOneMore(infos: map<Config, BindInfo>, todo: set<Config>, c: Config, o: Object, k: Key)
    requires c in todo && todo <= infos.Keys
    ensures var before := PartlyWithout(infos, todo, o, k);
            c in before && before[c] == infos[c] &&
            var after := before[c := Without(infos[c], o, k)];
            && after == PartlyWithout(infos, todo - {c}, o, k)
            && (IsUsefulOutside(after, todo - {c}, o) <==> IsUsefulOutside(before, todo, o) || o in Without(infos[c], o, k))
  {
    hide Without;
    var before := PartlyWithout(infos, todo, o, k);
    var after := before[c := Without(infos[c], o, k)];
    assert c in after && after[c] == Without(infos[c], o, k);
    if IsUsefulOutside(before, todo, o) {
      var d :| d in before && d !in todo && o in before[d];
      assert d in after && after[d] == before[d];
    }
  }

  // ---------- finding a configuration ----------

  /** The key a configuration is looked up by. */
  function PackagedPath(appId: string, name: string, subpath: string): string {
    appId + name + subpath
  }

  /** Nothing separates the parts, so a path says what they are together and not where one ends: two
      descriptions of one path are the same exactly if their first two parts are of the same lengths. */
  lemma PathsCollideIff(a: string, n: string, s: string, b: string, m: string, t: string)
    requires PackagedPath(a, n, s) == PackagedPath(b, m, t)
    ensures a == b && n == m && s == t <==> |a| == |b| && |n| == |m|
  {
    var path, other := PackagedPath(a, n, s), PackagedPath(b, m, t);
    assert a == path[..|a|] && n == path[|a|..][..|n|] && s == path[|a|..][|n|..];
    assert b == other[..|b|] && m == other[|b|..][..|m|] && t == other[|b|..][|m|..];
  }

  /** Such descriptions: whatever moves from the end of one part to the front of the next leads to the
      same path, and the descriptions differ exactly if anything moves. */
  lemma PathsCollide(first: string, moved: string, rest: string, other: string)
    ensures PackagedPath(first + moved, rest, other) == PackagedPath(first, moved + rest, other)
    ensures PackagedPath(other, first + moved, rest) == PackagedPath(other, first, moved + rest)
    ensures first + moved != first <==> moved != []
  {
    assert first + moved + rest + other == first + (moved + rest) + other;
    assert other + (first + moved) + rest == other + first + (moved + rest);
  }

  /** The configuration found for a path; `created` is the new object, if one can be created. */
  function ConfigFor(dConfigs: map<string, Config>, path: string, created: Option<Config>): Option<Config> {
    if path in dConfigs then Some(dConfigs[path]) else created
  }

  /** The configurations remembered after a lookup; a failure is not remembered. */
  function Remembered(dConfigs: map<string, Config>, path: string, created: Option<Config>): map<string, Config> {
    var found := ConfigFor(dConfigs, path, created);
    if found.Some? then dConfigs[path := found.value] else dConfigs
  }

  function AfterLookup(s: State, dConfigs: map<string, Config>, path: string, created: Option<Config>): State {
    if path in dConfigs || created.None? then s else Step(s, Create(created.value))
  }

  /** Every configuration remembered is in the table, and each is remembered for one path. */
  predicate RemembersApart(dConfigs: map<string, Config>, infos: map<Config, BindInfo>) {
    && (forall path <- dConfigs :: dConfigs[path] in infos)
    && (forall p, q | p in dConfigs && q in dConfigs && p != q :: dConfigs[p] != dConfigs[q])
  }

  /** Two lookups, one after the other, end at one configuration exactly if their paths are equal. */
  lemma LookupsMeetIff(s: State, dConfigs: map<string, Config>, path: string, other: string, created: Option<Config>,
                       next: Option<Config>)
    requires RemembersApart(dConfigs, s.infos) && (created.Some? ==> created.value !in s.infos)
    requires ConfigFor(dConfigs, path, created).Some?
    requires var t := AfterLookup(s, dConfigs, path, created); next.Some? ==> next.value !in t.infos
    ensures var first := ConfigFor(dConfigs, path, created);
            var after, t := Remembered(dConfigs, path, created), AfterLookup(s, dConfigs, path, created);
            && RemembersApart(after, t.infos)
            && (ConfigFor(after, other, next) == first <==> path == other)
  {
  }

  /** So different descriptions end at one configuration exactly if their paths are equal although the
      lengths of their first two parts are not: what is then bound under one is bound under the other. */
  lemma DescriptionsMeetIff(s: State, dConfigs: map<string, Config>, a: string, n: string, p: string,
                            b: string, m: string, q: string, created: Option<Config>, next: Option<Config>)
    requires RemembersApart(dConfigs, s.infos) && (created.Some? ==> created.value !in s.infos)
    requires ConfigFor(dConfigs, PackagedPath(a, n, p), created).Some?
    requires var t := AfterLookup(s, dConfigs, PackagedPath(a, n, p), created); next.Some? ==> next.value !in t.infos
    ensures var path, other := PackagedPath(a, n, p), PackagedPath(b, m, q);
            var after := Remembered(dConfigs, path, created);
            ConfigFor(after, other, next) == ConfigFor(dConfigs, path, created) && !(a == b && n == m && p == q)
            <==> path == other && !(|a| == |b| && |n| == |m|)
  {
    var path, other := PackagedPath(a, n, p), PackagedPath(b, m, q);
    LookupsMeetIff(s, dConfigs, path, other, created, next);
    if path == other {
      PathsCollideIff(a, n, p, b, m, q);
    }
  }

  // ---------- the helper as an object ----------

  class DConfigHelper {
    var dConfigs: map<string, Config>
    var bindInfos: map<Config, BindInfo>
    var objCallbackMap: map<Object, Callback>
    ghost var watched: set<Object>

    constructor ()
      ensures Valid() && Abs() == INITIAL && dConfigs == map[]
    {
      dConfigs, bindInfos, objCallbackMap, watched := map[], map[], map[], {};
    }

    predicate Valid()
      reads this
    {
      RemembersApart(dConfigs, bindInfos)
    }

    ghost function Abs(): State
      reads this
    {
      State(bindInfos, objCallbackMap, watched)
    }

    /** The configuration object has just been made. */
    method InitializeDConfig(path: string, dConfig: Config)
      requires Valid() && Enabled(Abs(), Create(dConfig))
      modifies this
      ensures Valid() && Abs() == Step(old(Abs()), Create(dConfig)) && dConfigs == old(dConfigs)[path := dConfig]
    {
      dConfigs := dConfigs[path := dConfig];
      bindInfos := bindInfos[dConfig := map[]];
    }

    /** Finds the configuration, or makes a new one; `created` is what making one gives. */
    method DConfigObject(appId: string, name: string, subpath: string, created: Option<Config>)
      returns (dConfig: Option<Config>)
      requires Valid() && (created.Some? ==> created.value !in bindInfos)
      modifies this
      ensures Valid()
      ensures var path := PackagedPath(appId, name, subpath);
              && dConfig == ConfigFor(old(dConfigs), path, created)
              && dConfigs == Remembered(old(dConfigs), path, created)
              && Abs() == AfterLookup(old(Abs()), old(dConfigs), path, created)
      ensures dConfig.Some? ==> dConfig.value in bindInfos
    {
      var configPath := PackagedPath(appId, name, subpath);
      if configPath in dConfigs {
        return Some(dConfigs[configPath]);
      }
      if created.Some? {
        InitializeDConfig(configPath, created.value);
      }
      dConfig := created;
    }

    method Bind(appId: string, name: string, subpath: string, created: Option<Config>, obj: Option<Object>, key: Key,
                callback: Callback)
      requires Valid() && (created.Some? ==> created.value !in bindInfos)
      modifies this
      ensures Valid()
      ensures obj.None? ==> Abs() == old(Abs()) && dConfigs == old(dConfigs)
      ensures obj.Some? ==>
                var path := PackagedPath(appId, name, subpath);
                && dConfigs == Remembered(old(dConfigs), path, created)
                && Abs() == Step(AfterLookup(old(Abs()), old(dConfigs), path, created),
                                 Action.Bind(ConfigFor(old(dConfigs), path, created), obj.value, key, callback))
    {
      if obj.None? {
        return;
      }
      var dConfig := DConfigObject(appId, name, subpath, created);
      if dConfig.None? || dConfig.value !in bindInfos {
        return;
      }
      var o, bindInfo := obj.value, bindInfos[dConfig.value];
      if o in bindInfo {
        if key !in bindInfo[o] {
          bindInfo := bindInfo[o := bindInfo[o] + [key]];
        }
      } else {
        bindInfo := bindInfo[o := [key]];
      }
      bindInfos := bindInfos[dConfig.value := bindInfo];
      objCallbackMap := objCallbackMap[o := callback];
      watched := watched + {o};
    }

    /** Takes a key, or all, from one configuration; tells whether the object is left with keys there. */
    static method UnbindIn(bindInfo: BindInfo, o: Object, key: Key) returns (info: BindInfo, useful: bool)
      ensures info == Without(bindInfo, o, key)
      ensures useful <==> !key.Empty? && o in info
    {
      info, useful := bindInfo, false;
      if key.Empty? {
        info := info - {o};
      } else if o in info {
        var keys := WithoutKey(info[o], key);
        if keys == [] {
          info := info - {o};
        } else {
          info := info[o := keys];
          useful := true;
        }
      }
    }

    static method UnbindInAll(bindInfos: map<Config, BindInfo>, o: Object, key: Key)
      returns (infos: map<Config, BindInfo>, useful: bool)
      ensures infos == AllWithout(bindInfos, o, key)
      ensures useful <==> !key.Empty? && IsUseful(infos, o)
    {
      hide Without, AllWithout, IsUseful;
      infos, useful := bindInfos, false;
      var todo := bindInfos.Keys;
      StartUnbinding(bindInfos, o, key);
      while todo != {}
        invariant todo <= bindInfos.Keys
        invariant infos == PartlyWithout(bindInfos, todo, o, key)
        invariant useful <==> !key.Empty? && IsUsefulOutside(infos, todo, o)
        decreases |todo|
      {
        hide PartlyWithout, IsUsefulOutside;
        var c :| c in todo;
        UnbindOneMore(bindInfos, todo, c, o, key);
        var info, left := UnbindIn(infos[c], o, key);
        infos := infos[c := info];
        if left {
          useful := true;
        }
        todo := todo - {c};
      }
      EndUnbinding(bindInfos, o, key);
    }

    method Unbind(obj: Option<Object>, key: Key)
      requires Valid()
      modifies this
      ensures Valid() && dConfigs == old(dConfigs)
      ensures obj.None? ==> Abs() == old(Abs())
      ensures obj.Some? ==> Abs() == Step(old(Abs()), Action.Unbind(obj.value, key))
    {
      hide AllWithout, IsUseful;
      if obj.None? {
        return;
      }
      var o := obj.value;
      var objStillUseful;
      UnbindingKeepsConfigs(bindInfos, o, key);
      bindInfos, objStillUseful := UnbindInAll(bindInfos, o, key);
      if key.Empty? || !objStillUseful {
        objCallbackMap := objCallbackMap - {o};
      }
    }

    /** The `destroyed` signal of an object that has been bound. */
    method OnDestroyed(obj: Object)
      requires Valid() && obj in watched
      modifies this
      ensures Valid() && dConfigs == old(dConfigs)
      ensures Abs() == Step(old(Abs()), Destroy(obj))
    {
      Unbind(Some(obj), Empty);
      watched := watched - {obj};
    }

    /** Calls the callbacks for a change of `key` in `dConfig`; the result is the calls in the order made. */
    method OnValueChanged(dConfig: Config, key: Key) returns (calls: seq<(Object, Callback)>)
      ensures forall call :: call in calls <==> call in Called(Abs(), dConfig, key)
      ensures forall i, j | 0 <= i < j < |calls| :: calls[i].0 != calls[j].0
    {
      calls := [];
      if dConfig !in bindInfos {
        return;
      }
      var bindInfo := bindInfos[dConfig];
      var todo := bindInfo.Keys;
      while todo != {}
        invariant todo <= bindInfo.Keys
        invariant forall call :: call in calls <==> call in Called(Abs(), dConfig, key) && call.0 !in todo
        invariant forall i, j | 0 <= i < j < |calls| :: calls[i].0 != calls[j].0
        decreases |todo|
      {
        var o :| o in todo;
        if key in bindInfo[o] && o in objCallbackMap {
          assert forall i | 0 <= i < |calls| :: calls[i] in calls && calls[i].0 != o;
          calls := calls + [(o, objCallbackMap[o])];
        }
        todo := todo - {o};
      }
    }
  }
}
