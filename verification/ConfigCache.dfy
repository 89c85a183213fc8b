/** The mark word: one bit of a 32-bit integer per property. */
module PropertyBits {
  // The number of properties one word holds.
  const BITS: nat := 32

  function Bit(index: nat): bv32
    requires index < BITS
  {
    (1 as bv32) << index
  }

  predicate IsMarked(status: bv32, index: nat)
    requires index < BITS
  {
    Overlap(status, Bit(index))
  }

  function MarkedIn(status: bv32): set<nat> {
    set i: nat | i < BITS && IsMarked(status, i)
  }

  lemma ConversionIsExact(index: nat)
    requires index < BITS
    ensures (index as bv5) as nat == index
  {
  }

  lemma BitIsShift(index: nat)
    requires index < BITS
    ensures Bit(index) == (1 as bv32) << (index as bv5)
  {
  }

  lemma ShiftsAreApart(x: bv5, y: bv5)
    ensures (1 as bv32) << x != 0
    ensures x != y ==> ((1 as bv32) << x) & ((1 as bv32) << y) == 0
  {
  }

  lemma BitsAreApart(index: nat, other: nat)
    requires index < BITS && other < BITS
    ensures Bit(index) != 0
    ensures index != other ==> Bit(index) & Bit(other) == 0
  {
    BitIsShift(index);
    BitIsShift(other);
    hide Bit;
    ConversionIsExact(index);
    ConversionIsExact(other);
    ShiftsAreApart(index as bv5, other as bv5);
  }

  predicate Overlap(a: bv32, b: bv32) {
    a & b != 0
  }

  lemma AndOverOr(x: bv32, y: bv32, z: bv32)
    ensures (x | y) & z == (x & z) | (y & z)
  {
  }

  lemma OrIsZero(x: bv32, y: bv32)
    ensures x | y == 0 <==> x == 0 && y == 0
  {
  }

  lemma OrOverlaps(status: bv32, a: bv32, b: bv32)
    ensures Overlap(status | a, b) <==> Overlap(status, b) || Overlap(a, b)
  {
    AndOverOr(status, a, b);
    OrIsZero(status & b, a & b);
  }

  lemma BitsOverlap(index: nat, other: nat)
    requires index < BITS && other < BITS
    ensures Overlap(Bit(index), Bit(other)) <==> index == other
  {
    hide Bit;
    BitsAreApart(index, other);
    if index == other {
      AndSelf(Bit(index));
    }
  }

  lemma AndSelf(b: bv32)
    ensures b & b == b
  {
  }

  /** Marking a property leaves the bits of the others as they are. */
  lemma MarkKeepsOtherBits(status: bv32, index: nat, other: nat)
    requires index < BITS && other < BITS
    ensures IsMarked(status | Bit(index), other) <==> other == index || IsMarked(status, other)
  {
    hide Bit, Overlap;
    BitsOverlap(index, other);
    OrOverlaps(status, Bit(index), Bit(other));
  }

  /** Or-ing the bit of one property in marks that property and no other. */
  lemma MarkAddsOne(status: bv32, index: nat)
    requires index < BITS
    ensures MarkedIn(status | Bit(index)) == MarkedIn(status) + {index}
  {
    hide IsMarked, Bit;
    forall other: nat | other < BITS
      ensures IsMarked(status | Bit(index), other) <==> other == index || IsMarked(status, other)
    {
      MarkKeepsOtherBits(status, index, other);
    }
  }

  lemma NothingMarked()
    ensures MarkedIn(0) == {}
  {
    hide Bit;
    forall index: nat | index < BITS ensures !IsMarked(0, index) {
      AndZero(Bit(index));
    }
  }

  lemma AndZero(b: bv32)
    ensures 0 & b == 0
  {
  }
}

/** The generated settings proxy: a GUI thread caches property values and pushes them to a
    config object that lives on another thread, while that thread echoes config changes back.

    Every action of `Action` is one atomic step of one of the two threads (or of the outside
    world); the setter and the initialisation are split where the other thread can interleave. */
module ConfigCache {
  import opened Collections
  import PropertyBits

  // A property value. Only equality of values matters to the protocol.
  type Value(==)

  // The proxy has two properties; the generator allots one bit of a 32-bit word to each.
  const PROPERTY_COUNT: nat := 2

  // A queued call: the property it is about and the value it carries.
  datatype Message = Message(prop: nat, value: Value)

  // Where the GUI thread is inside a property setter.
  datatype Setter = Idle | Written(prop: nat, value: Value) | Marked(prop: nat, value: Value)

  // Where the config thread is inside the construction and initialisation of the config.
  datatype Worker =
    | NotStarted
    | Failed
    | Testing(k: nat)
    | Pushing(k: nat)
    | Storing(k: nat, value: Value)
    | Pulling(k: nat)
    | Connected

  // Who wrote a config value: a setter of the proxy, or somebody outside the process.
  datatype Entry = Local(value: Value) | External(value: Value)

  datatype State = State(
    cached: seq<Value>,
    marked: set<nat>,             // the properties whose bit is set
    config: seq<Value>,
    writes: seq<Message>,         // posted to the config thread
    echoes: seq<Message>,         // posted to the GUI thread
    notices: seq<nat>,            // outside changes the config thread has not been told of
    setter: Setter,
    worker: Worker,
    lastSet: seq<Option<Value>>,  // history: the value of the last completed setter call
    log: seq<seq<Entry>>)         // history: the writes each config key has received

  datatype Action =
    | SetWrite(prop: nat, value: Value)
    | SetMark
    | SetPost
    | DeliverEcho
    | CreateConfig
    | CreateFails
    | TestMark
    | ReadCached
    | StoreConfig
    | PullConfig
    | Connect
    | RunWrite
    | ExternalChange(prop: nat, value: Value)
    | Notify

  /** The config pointer is visible to the GUI thread. */
  predicate Published(s: State) {
    s.worker != NotStarted && s.worker != Failed
  }

  /** Initialisation has dealt with `prop`. */
  predicate Done(s: State, prop: nat) {
    match s.worker
    case NotStarted | Failed => false
    case Testing(k) => prop < k
    case Pushing(k) => prop < k
    case Storing(k, _) => prop < k
    case Pulling(k) => prop < k
    case Connected => true
  }

  /** A setter of `prop` has started and not finished. */
  predicate Busy(s: State, prop: nat) {
    match s.setter
    case Idle => false
    case Written(p, _) => p == prop
    case Marked(p, _) => p == prop
  }

  predicate Enabled(s: State, a: Action) {
    match a
    case SetWrite(prop, _) => s.setter.Idle? && prop < PROPERTY_COUNT
    case SetMark => s.setter.Written?
    case SetPost => s.setter.Marked?
    case DeliverEcho => s.setter.Idle? && s.echoes != []
    case CreateConfig => s.worker.NotStarted?
    case CreateFails => s.worker.NotStarted?
    case TestMark => s.worker.Testing? && s.worker.k < PROPERTY_COUNT
    case ReadCached => s.worker.Pushing?
    case StoreConfig => s.worker.Storing?
    case PullConfig => s.worker.Pulling?
    case Connect => s.worker.Testing? && s.worker.k == PROPERTY_COUNT
    // the config thread returns to its event loop only when initialisation is over
    case RunWrite => s.worker.Connected? && s.writes != []
    case ExternalChange(prop, _) => prop < PROPERTY_COUNT
    case Notify => s.worker.Connected? && s.notices != []
  }

  /** The config takes a value; once connected, a change of value is echoed to the GUI thread. */
  function ConfigTakes(s: State, prop: nat, value: Value): State
    requires WellFormed(s) && prop < PROPERTY_COUNT
  {
    s.(config := s.config[prop := value],
       log := s.log[prop := s.log[prop] + [Local(value)]],
       echoes := if s.worker.Connected? && s.config[prop] != value
                 then s.echoes + [Message(prop, value)] else s.echoes)
  }

  /** Somebody else changes the config. The thread of a config that exists is told of a change of value
      by its event loop, and so not before initialisation is over. */
  function Changed(s: State, prop: nat, value: Value): State
    requires WellFormed(s) && prop < PROPERTY_COUNT
  {
    s.(config := s.config[prop := value],
       log := s.log[prop := s.log[prop] + [External(value)]],
       notices := if Published(s) && s.config[prop] != value then s.notices + [prop] else s.notices)
  }

  function Step(s: State, a: Action): State
    requires WellFormed(s) && Enabled(s, a)
  {
    match a
    case SetWrite(prop, v) => s.(cached := s.cached[prop := v], setter := Written(prop, v))
    case SetMark =>
      s.(marked := s.marked + {s.setter.prop}, setter := Marked(s.setter.prop, s.setter.value))
    case SetPost =>
      s.(writes := if Published(s) then s.writes + [Message(s.setter.prop, s.setter.value)] else s.writes,
         lastSet := s.lastSet[s.setter.prop := Some(s.setter.value)],
         setter := Idle)
    case DeliverEcho =>
      s.(cached := s.cached[s.echoes[0].prop := s.echoes[0].value], echoes := s.echoes[1..])
    case CreateConfig => s.(worker := Testing(0))
    case CreateFails => s.(worker := Failed)
    case TestMark => s.(worker := if s.worker.k in s.marked then Pushing(s.worker.k) else Pulling(s.worker.k))
    case ReadCached => s.(worker := Storing(s.worker.k, s.cached[s.worker.k]))
    case StoreConfig => ConfigTakes(s, s.worker.k, s.worker.value).(worker := Testing(s.worker.k + 1))
    case PullConfig =>
      s.(echoes := s.echoes + [Message(s.worker.k, s.config[s.worker.k])], worker := Testing(s.worker.k + 1))
    case Connect => s.(worker := Connected)
    case RunWrite => ConfigTakes(s.(writes := s.writes[1..]), s.writes[0].prop, s.writes[0].value)
    case ExternalChange(prop, v) => Changed(s, prop, v)
    case Notify =>
      assert s.notices[0] in s.notices;
      s.(echoes := s.echoes + [Message(s.notices[0], s.config[s.notices[0]])], notices := s.notices[1..])
  }

  predicate WellFormed(s: State) {
    && |s.cached| == |s.config| == |s.lastSet| == |s.log| == PROPERTY_COUNT
    && (forall m <- s.writes :: m.prop < PROPERTY_COUNT)
    && (forall m <- s.echoes :: m.prop < PROPERTY_COUNT)
    && (forall p <- s.notices :: p < PROPERTY_COUNT)
    && (!s.setter.Idle? ==> s.setter.prop < PROPERTY_COUNT)
    && (s.worker.Testing? ==> s.worker.k <= PROPERTY_COUNT)
    && (s.worker.Pushing? || s.worker.Storing? || s.worker.Pulling? ==> s.worker.k < PROPERTY_COUNT)
  }

  /** Before anything has run: defaults are cached, no bit is set, the config holds what it holds. */
  predicate Init(s: State) {
    && WellFormed(s)
    && s.marked == {} && s.writes == [] && s.echoes == [] && s.notices == []
    && s.setter.Idle? && s.worker.NotStarted?
    && (forall i | 0 <= i < PROPERTY_COUNT :: s.lastSet[i].None? && s.log[i] == [])
  }

  /** A run: each action is enabled where it is taken. */
  predicate IsRun(s: State, actions: seq<Action>)
    decreases |actions|
  {
    WellFormed(s) &&
    (actions == [] || (Enabled(s, actions[0]) && IsRun(Step(s, actions[0]), actions[1..])))
  }

  function Run(s: State, actions: seq<Action>): (t: State)
    requires IsRun(s, actions)
    decreases |actions|
  {
    if actions == [] then s else Run(Step(s, actions[0]), actions[1..])
  }

  // ---------- the invariant ----------

  /** The value the last queued message about `prop` carries. */
  function LastFor(q: seq<Message>, prop: nat): Option<Value> {
    if q == [] then None
    else if q[|q| - 1].prop == prop then Some(q[|q| - 1].value)
    else LastFor(q[..|q| - 1], prop)
  }

  /** The last write that a setter of the proxy made. */
  function LastLocal(log: seq<Entry>): Option<Value> {
    if log == [] then None
    else if log[|log| - 1].Local? then Some(log[|log| - 1].value)
    else LastLocal(log[..|log| - 1])
  }

  /** `LastFor`, reading the queue from its head. */
  function Earlier(q: seq<Message>, prop: nat): Option<Value>
    requires q != []
  {
    if LastFor(q[1..], prop).Some? then LastFor(q[1..], prop)
    else if q[0].prop == prop then Some(q[0].value) else None
  }

  lemma {:induction false} LastForDequeue(q: seq<Message>, prop: nat)
    requires q != []
    ensures LastFor(q, prop) == Earlier(q, prop)
  {
    if |q| > 1 {
      assert q[..|q| - 1][1..] == q[1..][..|q| - 2];
      LastForDequeue(q[..|q| - 1], prop);
    }
  }

  lemma LastForEnqueue(q: seq<Message>, m: Message, prop: nat)
    ensures LastFor(q + [m], prop) == if m.prop == prop then Some(m.value) else LastFor(q, prop)
  {
    assert (q + [m])[..|q|] == q;
  }

  lemma LastLocalAppend(log: seq<Entry>, e: Entry)
    ensures LastLocal(log + [e]) == if e.Local? then Some(e.value) else LastLocal(log)
  {
    assert (log + [e])[..|log|] == log;
  }

  /** Cache and config agree up to what is still under way. */
  predicate Agrees(s: State, i: nat)
    requires WellFormed(s) && i < PROPERTY_COUNT
  {
    var echo, write := LastFor(s.echoes, i), LastFor(s.writes, i);
    if Done(s, i) then
      i in s.notices ||
      (if echo.Some? then echo.value == s.config[i]
       else s.cached[i] == s.config[i] || write == Some(s.cached[i]) || Busy(s, i))
    else
      && echo.None?
      && (s.worker.Storing? && s.worker.k == i ==>
            s.worker.value == s.cached[i] || write == Some(s.cached[i]) || Busy(s, i))
  }

  /** The last completed set is in the config's log, on its way there, or waiting for initialisation. */
  predicate SetIsKept(s: State, i: nat)
    requires WellFormed(s) && i < PROPERTY_COUNT
  {
    s.lastSet[i].Some? && !Busy(s, i) ==>
      var write := LastFor(s.writes, i);
      if write.Some? then write == s.lastSet[i]
      else if Done(s, i) then LastLocal(s.log[i]) == s.lastSet[i]
      else
        && s.lastSet[i] == Some(s.cached[i])
        && i in s.marked
        && s.worker != Pulling(i)
        && (s.worker.Storing? && s.worker.k == i ==> s.worker.value == s.cached[i])
  }

  predicate Inv(s: State) {
    && WellFormed(s)
    && (!Published(s) ==> s.writes == [])
    && (!s.setter.Idle? ==> s.cached[s.setter.prop] == s.setter.value)
    && (s.setter.Marked? ==> s.setter.prop in s.marked)
    && (forall i: nat | i < PROPERTY_COUNT :: Agrees(s, i))
    && (forall i: nat | i < PROPERTY_COUNT :: SetIsKept(s, i))
    && (forall i: nat | i < PROPERTY_COUNT :: s.log[i] != [] ==> s.config[i] == s.log[i][|s.log[i]| - 1].value)
  }

  lemma InitHolds(s: State)
    requires Init(s)
    ensures Inv(s)
  {
  }

  lemma StepKeepsWellFormed(s: State, a: Action)
    requires WellFormed(s) && Enabled(s, a)
    ensures WellFormed(Step(s, a))
  {
    var t := Step(s, a);
    if a.SetPost? {
      assert forall m <- t.writes :: m in s.writes || m.prop == s.setter.prop;
    } else if a.RunWrite? {
      assert forall m <- t.writes :: m in s.writes;
      assert s.writes[0] in s.writes;
    } else if a.DeliverEcho? {
      assert forall m <- t.echoes :: m in s.echoes;
      assert s.echoes[0] in s.echoes;
    } else if a.Notify? {
      assert s.notices[0] in s.notices;
      assert forall p <- t.notices :: p in s.notices;
      assert forall m <- t.echoes :: m in s.echoes || m.prop == s.notices[0];
    } else if a.ExternalChange? {
      assert forall p <- t.notices :: p in s.notices || p == a.prop;
    }
  }

  /** What one action does to the queue of writes, as far as one property is concerned. */
  lemma StepEffects(s: State, a: Action, i: nat)
    requires WellFormed(s) && Enabled(s, a) && i < PROPERTY_COUNT
    ensures LastFor(Step(s, a).writes, i) ==
            if a.SetPost? && Published(s) && s.setter.prop == i then Some(s.setter.value)
            else if a.RunWrite? then LastFor(s.writes[1..], i)
            else LastFor(s.writes, i)
    ensures a.RunWrite? ==> LastFor(s.writes, i) == Earlier(s.writes, i)
    ensures a.DeliverEcho? ==> LastFor(s.echoes, i) == Earlier(s.echoes, i)
  {
    hide LastFor, Earlier;
    match a {
      case SetPost => LastForEnqueue(s.writes, Message(s.setter.prop, s.setter.value), i);
      case RunWrite => LastForDequeue(s.writes, i);
      case DeliverEcho => LastForDequeue(s.echoes, i);
      case _ =>
    }
  }

  /** What `ConfigTakes` does to the echo summary and the log of one property. */
  lemma ConfigTakesEffects(s: State, prop: nat, value: Value, i: nat)
    requires WellFormed(s) && prop < PROPERTY_COUNT && i < PROPERTY_COUNT
    ensures WellFormed(ConfigTakes(s, prop, value))
    ensures LastFor(ConfigTakes(s, prop, value).echoes, i) ==
            if i == prop && s.worker.Connected? && s.config[prop] != value then Some(value) else LastFor(s.echoes, i)
    ensures LastLocal(ConfigTakes(s, prop, value).log[i]) ==
            if i == prop then Some(value) else LastLocal(s.log[i])
  {
    LastForEnqueue(s.echoes, Message(prop, value), i);
    LastLocalAppend(s.log[prop], Local(value));
  }

  predicate OfSetter(a: Action) { a.SetWrite? || a.SetMark? || a.SetPost? }

  predicate OfInitialisation(a: Action) {
    a.CreateConfig? || a.CreateFails? || a.TestMark? || a.ReadCached? || a.StoreConfig? || a.PullConfig? || a.Connect?
  }

  lemma SetterStepKeeps(s: State, a: Action, i: nat)
    requires Inv(s) && Enabled(s, a) && i < PROPERTY_COUNT && OfSetter(a)
    ensures WellFormed(Step(s, a)) && Agrees(Step(s, a), i) && SetIsKept(Step(s, a), i)
  {
    assert Agrees(s, i) && SetIsKept(s, i);
    StepEffects(s, a, i);
    StepKeepsWellFormed(s, a);
  }

  lemma StoreStepKeeps(s: State, i: nat)
    requires Inv(s) && Enabled(s, StoreConfig) && i < PROPERTY_COUNT
    ensures WellFormed(Step(s, StoreConfig)) && Agrees(Step(s, StoreConfig), i) && SetIsKept(Step(s, StoreConfig), i)
  {
    assert Agrees(s, i) && SetIsKept(s, i);
    StepEffects(s, StoreConfig, i);
    StepKeepsWellFormed(s, StoreConfig);
    hide LastFor, LastLocal;
    ConfigTakesEffects(s, s.worker.k, s.worker.value, i);
  }

  lemma PullStepKeeps(s: State, i: nat)
    requires Inv(s) && Enabled(s, PullConfig) && i < PROPERTY_COUNT
    ensures WellFormed(Step(s, PullConfig)) && Agrees(Step(s, PullConfig), i) && SetIsKept(Step(s, PullConfig), i)
  {
    assert Agrees(s, i) && SetIsKept(s, i);
    StepEffects(s, PullConfig, i);
    StepKeepsWellFormed(s, PullConfig);
    hide LastFor, LastLocal;
    LastForEnqueue(s.echoes, Message(s.worker.k, s.config[s.worker.k]), i);
  }

  lemma InitialisationStepKeeps(s: State, a: Action, i: nat)
    requires Inv(s) && Enabled(s, a) && i < PROPERTY_COUNT && OfInitialisation(a)
    ensures WellFormed(Step(s, a)) && Agrees(Step(s, a), i) && SetIsKept(Step(s, a), i)
  {
    if a.StoreConfig? {
      StoreStepKeeps(s, i);
    } else if a.PullConfig? {
      PullStepKeeps(s, i);
    } else {
      assert Agrees(s, i) && SetIsKept(s, i);
      StepEffects(s, a, i);
      StepKeepsWellFormed(s, a);
    }
    hide LastFor, LastLocal, ConfigTakes;
  }

  lemma EchoStepKeeps(s: State, i: nat)
    requires Inv(s) && Enabled(s, DeliverEcho) && i < PROPERTY_COUNT
    ensures WellFormed(Step(s, DeliverEcho)) && Agrees(Step(s, DeliverEcho), i) && SetIsKept(Step(s, DeliverEcho), i)
  {
    assert Agrees(s, i) && SetIsKept(s, i);
    StepEffects(s, DeliverEcho, i);
    StepKeepsWellFormed(s, DeliverEcho);
  }

  lemma QueuedWriteKeeps(s: State, i: nat)
    requires Inv(s) && Enabled(s, RunWrite) && i < PROPERTY_COUNT
    ensures WellFormed(Step(s, RunWrite)) && Agrees(Step(s, RunWrite), i) && SetIsKept(Step(s, RunWrite), i)
  {
    assert Agrees(s, i) && SetIsKept(s, i);
    StepEffects(s, RunWrite, i);
    StepKeepsWellFormed(s, RunWrite);
    hide LastFor, LastLocal;
    ConfigTakesEffects(s.(writes := s.writes[1..]), s.writes[0].prop, s.writes[0].value, i);
  }

  lemma OutsideChangeKeeps(s: State, a: Action, i: nat)
    requires Inv(s) && Enabled(s, a) && i < PROPERTY_COUNT && a.ExternalChange?
    ensures WellFormed(Step(s, a)) && Agrees(Step(s, a), i) && SetIsKept(Step(s, a), i)
  {
    assert Agrees(s, i) && SetIsKept(s, i);
    StepKeepsWellFormed(s, a);
    LastLocalAppend(s.log[a.prop], External(a.value));
    hide LastFor, LastLocal;
    var t := Step(s, a);
    assert Published(s) && s.config[a.prop] != a.value ==> a.prop in t.notices;
    assert forall p <- s.notices :: p in t.notices;
  }

  lemma NotifyKeeps(s: State, i: nat)
    requires Inv(s) && Enabled(s, Notify) && i < PROPERTY_COUNT
    ensures WellFormed(Step(s, Notify)) && Agrees(Step(s, Notify), i) && SetIsKept(Step(s, Notify), i)
  {
    assert Agrees(s, i) && SetIsKept(s, i);
    StepKeepsWellFormed(s, Notify);
    assert s.notices[0] in s.notices;
    LastForEnqueue(s.echoes, Message(s.notices[0], s.config[s.notices[0]]), i);
    hide LastFor, LastLocal;
    assert i in s.notices ==> i == s.notices[0] || i in s.notices[1..];
  }

  lemma ConfigLoopStepKeeps(s: State, a: Action, i: nat)
    requires Inv(s) && Enabled(s, a) && i < PROPERTY_COUNT && (a.RunWrite? || a.ExternalChange? || a.Notify?)
    ensures WellFormed(Step(s, a)) && Agrees(Step(s, a), i) && SetIsKept(Step(s, a), i)
  {
    hide Inv, Step, Agrees, SetIsKept, WellFormed, Enabled;
    match a {
      case RunWrite => QueuedWriteKeeps(s, i);
      case ExternalChange(_, _) => OutsideChangeKeeps(s, a, i);
      case Notify => NotifyKeeps(s, i);
    }
  }

  lemma StepKeepsProperty(s: State, a: Action, i: nat)
    requires Inv(s) && Enabled(s, a) && i < PROPERTY_COUNT
    ensures WellFormed(Step(s, a)) && Agrees(Step(s, a), i) && SetIsKept(Step(s, a), i)
  {
    hide Inv, Step, Agrees, SetIsKept, WellFormed, Enabled;
    if OfSetter(a) {
      SetterStepKeeps(s, a, i);
    } else if OfInitialisation(a) {
      InitialisationStepKeeps(s, a, i);
    } else if a.DeliverEcho? {
      EchoStepKeeps(s, i);
    } else {
      ConfigLoopStepKeeps(s, a, i);
    }
  }

  lemma StepKeepsInv(s: State, a: Action)
    requires Inv(s) && Enabled(s, a)
    ensures Inv(Step(s, a))
  {
    var t := Step(s, a);
    StepKeepsWellFormed(s, a);
    hide Agrees, SetIsKept;
    forall i: nat | i < PROPERTY_COUNT ensures Agrees(t, i) && SetIsKept(t, i) {
      StepKeepsProperty(s, a, i);
    }
  }

  lemma {:induction false} RunKeepsInv(s: State, actions: seq<Action>)
    requires Inv(s) && IsRun(s, actions)
    ensures Inv(Run(s, actions))
    decreases |actions|
  {
    if actions != [] {
      StepKeepsInv(s, actions[0]);
      RunKeepsInv(Step(s, actions[0]), actions[1..]);
    }
  }

  // ---------- main results ----------

  /** Initialisation is over, no call and no notice is queued, and no setter is under way. */
  predicate Quiescent(s: State) {
    s.worker.Connected? && s.writes == [] && s.echoes == [] && s.notices == [] && s.setter.Idle?
  }

  /** In every interleaving: a quiescent proxy shows the config's values, and the last value set
      through the proxy is the last one a setter wrote to the config, so that the config and the
      cache hold it unless an outside change came later. */
  lemma QuiescentProxyIsExact(s: State, actions: seq<Action>, i: nat)
    requires Init(s) && IsRun(s, actions) && i < PROPERTY_COUNT
    ensures var t := Run(s, actions);
            && WellFormed(t)
            && (Quiescent(t) ==>
                  && t.cached[i] == t.config[i]
                  && (t.lastSet[i].Some? ==> LastLocal(t.log[i]) == t.lastSet[i])
                  && (t.lastSet[i].Some? && (forall e <- t.log[i] :: e.Local?) ==>
                        t.lastSet[i] == Some(t.cached[i])))
  {
    InitHolds(s);
    RunKeepsInv(s, actions);
    var t := Run(s, actions);
    assert Agrees(t, i) && SetIsKept(t, i);
  }

  // ---------- what is written, told by the actions alone ----------

  /** The value of the last set of `prop` in a run. */
  function LastSetIn(actions: seq<Action>, prop: nat): Option<Value> {
    if actions == [] then None
    else
      var later := LastSetIn(actions[1..], prop);
      if later.Some? then later
      else if actions[0].SetWrite? && actions[0].prop == prop then Some(actions[0].value)
      else None
  }

  /** The values outsiders gave to `prop` in a run. */
  function OutsideChanges(actions: seq<Action>, prop: nat): seq<Value> {
    if actions == [] then []
    else
      (if actions[0].ExternalChange? && actions[0].prop == prop then [actions[0].value] else []) +
      OutsideChanges(actions[1..], prop)
  }

  /** The writes of outsiders in a log. */
  function OutsideEntries(log: seq<Entry>): seq<Value> {
    if log == [] then []
    else
      var n := |log| - 1;
      OutsideEntries(log[..n]) + if log[n].External? then [log[n].value] else []
  }

  lemma OutsideEntriesAppend(log: seq<Entry>, e: Entry)
    ensures OutsideEntries(log + [e]) == OutsideEntries(log) + if e.External? then [e.value] else []
  {
    assert (log + [e])[..|log|] == log;
  }

  /** The value of the last set of `i`, completed or under way. */
  function Latest(s: State, i: nat): Option<Value>
    requires WellFormed(s) && i < PROPERTY_COUNT
  {
    if Busy(s, i) then Some(s.setter.value) else s.lastSet[i]
  }

  lemma StepKeepsCount(s: State, a: Action, i: nat)
    requires WellFormed(s) && Enabled(s, a) && WellFormed(Step(s, a)) && i < PROPERTY_COUNT
    ensures var t := Step(s, a);
            && Latest(t, i) == (if a.SetWrite? && a.prop == i then Some(a.value) else Latest(s, i))
            && OutsideEntries(t.log[i]) == OutsideEntries(s.log[i]) + OutsideChanges([a], i)
            && (t.log[i] == [] ==> s.log[i] == [] && t.config[i] == s.config[i])
  {
    assert [a][1..] == [] && OutsideChanges([], i) == [];
    match a {
      case StoreConfig => OutsideEntriesAppend(s.log[s.worker.k], Local(s.worker.value));
      case RunWrite => OutsideEntriesAppend(s.log[s.writes[0].prop], Local(s.writes[0].value));
      case ExternalChange(prop, v) => OutsideEntriesAppend(s.log[prop], External(v));
      case _ =>
    }
  }

  lemma OutsideChangesFirst(actions: seq<Action>, i: nat)
    requires actions != []
    ensures OutsideChanges(actions, i) == OutsideChanges([actions[0]], i) + OutsideChanges(actions[1..], i)
  {
    assert [actions[0]][1..] == [] && OutsideChanges([], i) == [];
  }

  /** The log of a config key holds the outside changes of a run, in order; the last set is the last one
      of the run; and a key nobody has written keeps its stored value. */
  lemma {:induction false} RunKeepsCount(s: State, actions: seq<Action>, i: nat)
    requires IsRun(s, actions) && i < PROPERTY_COUNT
    ensures var t := Run(s, actions);
            && WellFormed(t)
            && Latest(t, i) == (if LastSetIn(actions, i).Some? then LastSetIn(actions, i) else Latest(s, i))
            && OutsideEntries(t.log[i]) == OutsideEntries(s.log[i]) + OutsideChanges(actions, i)
            && (t.log[i] == [] ==> s.log[i] == [] && t.config[i] == s.config[i])
    decreases |actions|
  {
    hide Step, Enabled, Latest;
    if actions != [] {
      var u := Step(s, actions[0]);
      StepKeepsCount(s, actions[0], i);
      RunKeepsCount(u, actions[1..], i);
      OutsideChangesFirst(actions, i);
      hide OutsideChanges, OutsideEntries, IsRun;
    }
  }

  /** Whatever may still be written to the config for property `i` is one of `values`. */
  predicate WritesOnly(s: State, i: nat, values: set<Value>)
    requires WellFormed(s) && i < PROPERTY_COUNT
  {
    && (forall e <- s.log[i] | e.Local? :: e.value in values)
    && (forall m <- s.writes | m.prop == i :: m.value in values)
    && (Busy(s, i) ==> s.setter.value in values)
    && (!Done(s, i) && i in s.marked ==> s.cached[i] in values)
    && (s.worker == Pushing(i) ==> i in s.marked)
    && (s.worker.Storing? && s.worker.k == i ==> s.worker.value in values)
  }

  lemma {:induction false} NoEchoes(q: seq<Message>, prop: nat)
    requires LastFor(q, prop).None?
    ensures forall m <- q :: m.prop != prop
  {
    if q != [] {
      NoEchoes(q[..|q| - 1], prop);
      assert q == q[..|q| - 1] + [q[|q| - 1]];
    }
  }

  lemma EchoWritesOnly(s: State, i: nat, values: set<Value>)
    requires Inv(s) && Enabled(s, DeliverEcho) && i < PROPERTY_COUNT && WritesOnly(s, i, values)
    ensures WellFormed(Step(s, DeliverEcho)) && WritesOnly(Step(s, DeliverEcho), i, values)
  {
    StepKeepsWellFormed(s, DeliverEcho);
    assert Agrees(s, i);
    if !Done(s, i) {
      NoEchoes(s.echoes, i);
      assert s.echoes[0] in s.echoes;
    }
    hide LastFor, Agrees, SetIsKept;
  }

  lemma SetterWritesOnly(s: State, a: Action, i: nat, values: set<Value>)
    requires Inv(s) && Enabled(s, a) && WellFormed(Step(s, a)) && i < PROPERTY_COUNT && WritesOnly(s, i, values)
    requires OfSetter(a) && (a.SetWrite? && a.prop == i ==> a.value in values)
    ensures WritesOnly(Step(s, a), i, values)
  {
    hide Agrees, SetIsKept;
    assert forall m <- Step(s, a).writes :: m in s.writes || (a.SetPost? && m == Message(s.setter.prop, s.setter.value));
  }

  lemma InitialisationWritesOnly(s: State, a: Action, i: nat, values: set<Value>)
    requires WellFormed(s) && Enabled(s, a) && WellFormed(Step(s, a)) && i < PROPERTY_COUNT && WritesOnly(s, i, values)
    requires OfInitialisation(a)
    ensures WritesOnly(Step(s, a), i, values)
  {
  }

  lemma LoopWritesOnly(s: State, a: Action, i: nat, values: set<Value>)
    requires WellFormed(s) && Enabled(s, a) && WellFormed(Step(s, a)) && i < PROPERTY_COUNT && WritesOnly(s, i, values)
    requires a.RunWrite? || a.ExternalChange? || a.Notify?
    ensures WritesOnly(Step(s, a), i, values)
  {
    assert a.RunWrite? ==> s.writes[0] in s.writes;
    assert forall m <- Step(s, a).writes :: m in s.writes;
  }

  lemma StepWritesOnly(s: State, a: Action, i: nat, values: set<Value>)
    requires Inv(s) && Enabled(s, a) && i < PROPERTY_COUNT && WritesOnly(s, i, values)
    requires a.SetWrite? && a.prop == i ==> a.value in values
    ensures WellFormed(Step(s, a)) && WritesOnly(Step(s, a), i, values)
  {
    StepKeepsWellFormed(s, a);
    hide WritesOnly, Step, Enabled, WellFormed;
    if OfSetter(a) {
      SetterWritesOnly(s, a, i, values);
    } else if OfInitialisation(a) {
      InitialisationWritesOnly(s, a, i, values);
    } else if a.DeliverEcho? {
      EchoWritesOnly(s, i, values);
    } else {
      LoopWritesOnly(s, a, i, values);
    }
  }

  lemma {:induction false} RunWritesOnly(s: State, actions: seq<Action>, i: nat, values: set<Value>)
    requires Inv(s) && IsRun(s, actions) && i < PROPERTY_COUNT && WritesOnly(s, i, values)
    requires forall a <- actions :: a.SetWrite? && a.prop == i ==> a.value in values
    ensures WellFormed(Run(s, actions)) && WritesOnly(Run(s, actions), i, values)
    decreases |actions|
  {
    if actions != [] {
      StepKeepsInv(s, actions[0]);
      StepWritesOnly(s, actions[0], i, values);
      hide Inv, Step, Enabled, WritesOnly;
      assert forall a <- actions[1..] :: a in actions;
      RunWritesOnly(Step(s, actions[0]), actions[1..], i, values);
    }
  }

  /** The proxy writes nothing to the config but values it was given for that very property: what nobody
      sets keeps its stored value, whatever else is set and whenever the config appears. */
  lemma OnlySetValuesAreWritten(s: State, actions: seq<Action>, i: nat, v: Value)
    requires Init(s) && IsRun(s, actions) && i < PROPERTY_COUNT
    ensures WellFormed(Run(s, actions)) && (Local(v) in Run(s, actions).log[i] ==> SetWrite(i, v) in actions)
  {
    InitHolds(s);
    var values := set a | a in actions && a.SetWrite? && a.prop == i :: a.value;
    assert forall a <- actions :: a.SetWrite? && a.prop == i ==> a.value in values;
    RunWritesOnly(s, actions, i, values);
    var t := Run(s, actions);
    if Local(v) in t.log[i] {
      assert v in values;
      var a :| a in actions && a.SetWrite? && a.prop == i && a.value == v;
      assert a == SetWrite(i, v);
    }
  }

  lemma {:induction false} NeverSet(actions: seq<Action>, i: nat)
    requires LastSetIn(actions, i).None?
    ensures forall a <- actions :: !(a.SetWrite? && a.prop == i)
  {
    if actions != [] {
      NeverSet(actions[1..], i);
      assert actions == [actions[0]] + actions[1..];
    }
  }

  lemma NothingIsWritten(s: State, actions: seq<Action>, i: nat)
    requires Init(s) && IsRun(s, actions) && i < PROPERTY_COUNT && LastSetIn(actions, i).None?
    ensures WellFormed(Run(s, actions)) && forall e <- Run(s, actions).log[i] :: !e.Local?
  {
    RunKeepsCount(s, actions, i);
    NeverSet(actions, i);
    forall e | e in Run(s, actions).log[i] ensures !e.Local? {
      OnlySetValuesAreWritten(s, actions, i, e.value);
    }
  }

  lemma SomeLocal(log: seq<Entry>)
    requires OutsideEntries(log) == [] && log != []
    ensures exists e <- log :: e.Local?
  {
    assert log[|log| - 1] in log;
  }

  lemma {:induction false} AllLocal(log: seq<Entry>)
    requires OutsideEntries(log) == []
    ensures forall e <- log :: e.Local?
  {
    if log != [] {
      AllLocal(log[..|log| - 1]);
      assert log == log[..|log| - 1] + [log[|log| - 1]];
    }
  }

  /** A property outsiders leave alone ends, at rest, with the value it was last set to, in the cache and
      in the config; and with its stored value if it was never set. */
  lemma ValueAtRest(s: State, actions: seq<Action>, i: nat)
    requires Init(s) && IsRun(s, actions) && i < PROPERTY_COUNT
    requires OutsideChanges(actions, i) == [] && Quiescent(Run(s, actions))
    ensures var t := Run(s, actions);
            && WellFormed(t)
            && t.cached[i] == t.config[i]
            && t.config[i] == (if LastSetIn(actions, i).Some? then LastSetIn(actions, i).value else s.config[i])
  {
    QuiescentProxyIsExact(s, actions, i);
    RunKeepsCount(s, actions, i);
    var t := Run(s, actions);
    AllLocal(t.log[i]);
    if LastSetIn(actions, i).None? {
      NothingIsWritten(s, actions, i);
      if t.log[i] != [] {
        SomeLocal(t.log[i]);
      }
    }
  }

  /** Work left to do when nobody sets a property and nothing changes the config from outside. */
  function Remaining(s: State): nat
    requires WellFormed(s)
  {
    (match s.setter case Written(_, _) => 4 case Marked(_, _) => 3 case Idle => 0)
    + 2 * |s.writes| + |s.echoes| + 2 * |s.notices|
    + match s.worker
      case NotStarted => 5 * PROPERTY_COUNT + 2
      case Testing(k) => 5 * (PROPERTY_COUNT - k) + 1
      case Pushing(k) => 5 * (PROPERTY_COUNT - k)
      case Storing(k, _) => 5 * (PROPERTY_COUNT - k) - 1
      case Pulling(k) => 5 * (PROPERTY_COUNT - k)
      case Failed | Connected => 0
  }

  predicate FromOutside(a: Action) {
    a.SetWrite? || a.ExternalChange?
  }

  lemma InnerStepsDecrease(s: State, a: Action)
    requires Inv(s) && Enabled(s, a) && !FromOutside(a)
    ensures WellFormed(Step(s, a)) && Remaining(Step(s, a)) < Remaining(s)
  {
    StepKeepsInv(s, a);
  }

  lemma NothingLeftToDo(s: State)
    requires WellFormed(s) && (forall a | !FromOutside(a) :: !Enabled(s, a))
    ensures Quiescent(s) || s.worker.Failed?
  {
    assert !Enabled(s, SetMark) && !Enabled(s, SetPost) && !Enabled(s, DeliverEcho);
    assert !Enabled(s, RunWrite) && !Enabled(s, Notify);
    assert !Enabled(s, CreateConfig) && !Enabled(s, TestMark) && !Enabled(s, Connect);
    assert !Enabled(s, ReadCached) && !Enabled(s, StoreConfig) && !Enabled(s, PullConfig);
  }

  /** Left alone, the proxy comes to rest: every run of inner steps is at most `Remaining` long, and
      where no inner step is possible the proxy is quiescent (or the config could not be created). */
  lemma {:induction false} ProxyComesToRest(s: State, actions: seq<Action>)
    requires Inv(s) && IsRun(s, actions) && (forall a <- actions :: !FromOutside(a))
    ensures |actions| <= Remaining(s)
    ensures (forall a | !FromOutside(a) :: !Enabled(Run(s, actions), a)) ==>
              Quiescent(Run(s, actions)) || Run(s, actions).worker.Failed?
    decreases |actions|
  {
    hide Inv, Enabled, Step, Quiescent, Remaining;
    if actions == [] {
      if forall a | !FromOutside(a) :: !Enabled(s, a) {
        NothingLeftToDo(s);
      }
    } else {
      InnerStepsDecrease(s, actions[0]);
      StepKeepsInv(s, actions[0]);
      assert forall a <- actions[1..] :: a in actions;
      ProxyComesToRest(Step(s, actions[0]), actions[1..]);
    }
  }

  // ---------- the proxy object ----------

  lemma {:induction false} RunAppend(s: State, first: seq<Action>, second: seq<Action>)
    requires IsRun(s, first) && IsRun(Run(s, first), second)
    ensures IsRun(s, first + second) && Run(s, first + second) == Run(Run(s, first), second)
    decreases |first|
  {
    if first == [] {
      assert first + second == second;
    } else {
      assert (first + second)[1..] == first[1..] + second;
      RunAppend(Step(s, first[0]), first[1..], second);
    }
  }

  /** The state after an undisturbed setter call. */
  function AfterSet(s: State, prop: nat, value: Value): State
    requires WellFormed(s) && prop < PROPERTY_COUNT
  {
    s.(cached := s.cached[prop := value],
       marked := s.marked + {prop},
       writes := if Published(s) then s.writes + [Message(prop, value)] else s.writes,
       lastSet := s.lastSet[prop := Some(value)])
  }

  lemma SetterIsRun(s: State, prop: nat, value: Value)
    requires WellFormed(s) && s.setter.Idle? && prop < PROPERTY_COUNT
    ensures IsRun(s, [SetWrite(prop, value), SetMark, SetPost])
    ensures Run(s, [SetWrite(prop, value), SetMark, SetPost]) == AfterSet(s, prop, value)
  {
    var s1 := Step(s, SetWrite(prop, value));
    var s2 := Step(s1, SetMark);
    assert Step(s2, SetPost) == AfterSet(s, prop, value);
    assert Run(s2, [SetPost]) == Step(s2, SetPost);
    assert [SetMark, SetPost][1..] == [SetPost];
    assert [SetWrite(prop, value), SetMark, SetPost][1..] == [SetMark, SetPost];
  }

  /** The state after initialisation has dealt with property `k`. */
  function AfterInitialising(s: State, k: nat): State
    requires WellFormed(s) && k < PROPERTY_COUNT
  {
    if k in s.marked then
      s.(config := s.config[k := s.cached[k]],
         log := s.log[k := s.log[k] + [Local(s.cached[k])]],
         worker := Testing(k + 1))
    else
      s.(echoes := s.echoes + [Message(k, s.config[k])], worker := Testing(k + 1))
  }

  function InitialisingSteps(s: State, k: nat): seq<Action> {
    if k in s.marked then [TestMark, ReadCached, StoreConfig] else [TestMark, PullConfig]
  }

  lemma RunOfOne(t: State, a: Action)
    requires WellFormed(t) && Enabled(t, a) && WellFormed(Step(t, a))
    ensures IsRun(t, [a]) && Run(t, [a]) == Step(t, a)
  {
    hide Step, Enabled, WellFormed;
    assert [a][1..] == [];
    assert IsRun(Step(t, a), []) && Run(Step(t, a), []) == Step(t, a);
  }

  /** One more action at the end of a run. */
  lemma RunThen(s: State, actions: seq<Action>, a: Action)
    requires IsRun(s, actions) && Enabled(Run(s, actions), a) && WellFormed(Run(s, actions))
    requires WellFormed(Step(Run(s, actions), a))
    ensures IsRun(s, actions + [a]) && Run(s, actions + [a]) == Step(Run(s, actions), a)
  {
    hide *;
    RunOfOne(Run(s, actions), a);
    RunAppend(s, actions, [a]);
  }

  lemma PushingSteps(s: State, k: nat, s1: State, s2: State)
    requires WellFormed(s) && s.worker == Testing(k) && k < PROPERTY_COUNT && k in s.marked
    requires s1 == s.(worker := Pushing(k)) && s2 == s.(worker := Storing(k, s.cached[k]))
    ensures Enabled(s, TestMark) && Step(s, TestMark) == s1
    ensures WellFormed(s1) && Enabled(s1, ReadCached) && Step(s1, ReadCached) == s2
    ensures WellFormed(s2) && Enabled(s2, StoreConfig) && Step(s2, StoreConfig) == AfterInitialising(s, k)
    ensures WellFormed(AfterInitialising(s, k))
  {
  }

  lemma PullingSteps(s: State, k: nat, s1: State)
    requires WellFormed(s) && s.worker == Testing(k) && k < PROPERTY_COUNT && k !in s.marked
    requires s1 == s.(worker := Pulling(k))
    ensures Enabled(s, TestMark) && Step(s, TestMark) == s1
    ensures WellFormed(s1) && Enabled(s1, PullConfig) && Step(s1, PullConfig) == AfterInitialising(s, k)
    ensures WellFormed(AfterInitialising(s, k))
  {
    assert forall m <- AfterInitialising(s, k).echoes :: m in s.echoes || m.prop == k;
  }

  lemma InitialisingIsRun(s: State, k: nat)
    requires WellFormed(s) && s.worker == Testing(k) && k < PROPERTY_COUNT
    ensures IsRun(s, InitialisingSteps(s, k)) && (forall a <- InitialisingSteps(s, k) :: OfInitialisation(a))
    ensures Run(s, InitialisingSteps(s, k)) == AfterInitialising(s, k)
  {
    hide Step, Enabled, AfterInitialising;
    if k in s.marked {
      var s1, s2 := s.(worker := Pushing(k)), s.(worker := Storing(k, s.cached[k]));
      PushingSteps(s, k, s1, s2);
      hide IsRun, Run, WellFormed;
      RunOfOne(s, TestMark);
      RunThen(s, [TestMark], ReadCached);
      assert [TestMark] + [ReadCached] == [TestMark, ReadCached];
      RunThen(s, [TestMark, ReadCached], StoreConfig);
      assert [TestMark, ReadCached] + [StoreConfig] == InitialisingSteps(s, k);
    } else {
      var s1 := s.(worker := Pulling(k));
      PullingSteps(s, k, s1);
      hide IsRun, Run, WellFormed;
      RunOfOne(s, TestMark);
      RunThen(s, [TestMark], PullConfig);
      assert [TestMark] + [PullConfig] == InitialisingSteps(s, k);
    }
  }

  /** Undisturbed initialisation of the first `k` properties. */
  function InitialisedUpTo(s: State, k: nat): (t: State)
    requires WellFormed(s) && k <= PROPERTY_COUNT
    ensures WellFormed(t) && t.worker == Testing(k) && t.cached == s.cached && t.marked == s.marked
    ensures forall i: nat | i < PROPERTY_COUNT ::
              t.config[i] == if i < k && i in s.marked then s.cached[i] else s.config[i]
  {
    if k == 0 then s.(worker := Testing(0))
    else
      var u := InitialisedUpTo(s, k - 1);
      assert forall m <- AfterInitialising(u, k - 1).echoes :: m in u.echoes || m.prop == k - 1;
      AfterInitialising(u, k - 1)
  }

  function InitialisationRun(s: State, k: nat): seq<Action>
    requires WellFormed(s) && k <= PROPERTY_COUNT
  {
    if k == 0 then [CreateConfig]
    else InitialisationRun(s, k - 1) + InitialisingSteps(InitialisedUpTo(s, k - 1), k - 1)
  }

  lemma {:induction false} InitialisationIsRun(s: State, k: nat)
    requires WellFormed(s) && s.worker.NotStarted? && k <= PROPERTY_COUNT
    ensures IsRun(s, InitialisationRun(s, k)) && Run(s, InitialisationRun(s, k)) == InitialisedUpTo(s, k)
  {
    if k == 0 {
      RunOfOne(s, CreateConfig);
    } else {
      var u := InitialisedUpTo(s, k - 1);
      InitialisationIsRun(s, k - 1);
      InitialisingIsRun(u, k - 1);
      hide Run, IsRun;
      RunAppend(s, InitialisationRun(s, k - 1), InitialisingSteps(u, k - 1));
    }
  }

  lemma ConnectStep(s: State)
    requires WellFormed(s) && s.worker == Testing(PROPERTY_COUNT)
    ensures Enabled(s, Connect) && Step(s, Connect) == s.(worker := Connected) && WellFormed(s.(worker := Connected))
  {
  }

  lemma LastPropertyThenConnect(s: State)
    requires WellFormed(s) && s.worker.NotStarted?
    ensures var all := InitialisationRun(s, PROPERTY_COUNT) + [Connect];
            IsRun(s, all) && Run(s, all) == InitialisedUpTo(s, PROPERTY_COUNT).(worker := Connected)
  {
    hide Step, Enabled, Run, IsRun, InitialisedUpTo, InitialisationRun;
    InitialisationIsRun(s, PROPERTY_COUNT);
    ConnectStep(InitialisedUpTo(s, PROPERTY_COUNT));
    hide WellFormed;
    RunThen(s, InitialisationRun(s, PROPERTY_COUNT), Connect);
  }

  /** The proxy with both threads' fields; each method is one thread's code running undisturbed,
      and is proved to be a run of the atomic steps above. */
  class SettingsProxy {
    var cached: seq<Value>
    var propertySetStatus0: bv32
    var config: seq<Value>
    var writes: seq<Message>
    var echoes: seq<Message>
    var notices: seq<nat>
    var setter: Setter
    var worker: Worker
    ghost var lastSet: seq<Option<Value>>
    ghost var log: seq<seq<Entry>>

    ghost function Abs(): State
      reads this
    {
      State(cached, PropertyBits.MarkedIn(propertySetStatus0), config, writes, echoes, notices, setter, worker, lastSet,
            log)
    }

    constructor (defaults: seq<Value>, stored: seq<Value>)
      requires |defaults| == |stored| == PROPERTY_COUNT
      ensures Init(Abs()) && cached == defaults && config == stored
    {
      PropertyBits.NothingMarked();
      cached, config, propertySetStatus0 := defaults, stored, 0;
      writes, echoes, notices, setter, worker := [], [], [], Idle, NotStarted;
      lastSet, log := seq(PROPERTY_COUNT, i => None), seq(PROPERTY_COUNT, i => []);
    }

    method MarkPropertySet(index: nat)
      requires index < PropertyBits.BITS
      modifies this`propertySetStatus0
      ensures PropertyBits.MarkedIn(propertySetStatus0) == PropertyBits.MarkedIn(old(propertySetStatus0)) + {index}
    {
      hide PropertyBits.Bit, PropertyBits.IsMarked;
      PropertyBits.MarkAddsOne(propertySetStatus0, index);
      propertySetStatus0 := propertySetStatus0 | PropertyBits.Bit(index);
    }

    /** A property setter. The result tells whether the change signal is emitted. */
    method SetProperty(prop: nat, value: Value) returns (changed: bool)
      requires WellFormed(Abs()) && setter.Idle? && prop < PROPERTY_COUNT
      modifies this
      ensures IsRun(old(Abs()), [SetWrite(prop, value), SetMark, SetPost])
      ensures Abs() == Run(old(Abs()), [SetWrite(prop, value), SetMark, SetPost])
      ensures changed <==> old(cached)[prop] != value
    {
      SetterIsRun(Abs(), prop, value);
      var oldValue := cached[prop];
      cached := cached[prop := value];
      MarkPropertySet(prop);
      if worker != NotStarted && worker != Failed {
        writes := writes + [Message(prop, value)];
      }
      lastSet := lastSet[prop := Some(value)];
      changed := cached[prop] != oldValue;
    }

    /** Delivers one queued echo on the GUI thread. */
    method DeliverEcho() returns (changed: bool)
      requires WellFormed(Abs()) && Enabled(Abs(), Action.DeliverEcho)
      modifies this
      ensures Abs() == Step(old(Abs()), Action.DeliverEcho)
      ensures changed <==> cached != old(cached)
    {
      var m := echoes[0];
      echoes := echoes[1..];
      changed := cached[m.prop] != m.value;
      if changed {
        cached := cached[m.prop := m.value];
      }
    }

    /** Runs one queued `setValue` on the config thread, with the value-changed handler. */
    method RunQueuedWrite()
      requires WellFormed(Abs()) && Enabled(Abs(), RunWrite)
      modifies this
      ensures Abs() == Step(old(Abs()), RunWrite)
    {
      var m := writes[0];
      writes := writes[1..];
      log := log[m.prop := log[m.prop] + [Local(m.value)]];
      if config[m.prop] != m.value {
        config := config[m.prop := m.value];
        echoes := echoes + [Message(m.prop, config[m.prop])];
      }
    }

    /** The value-changed handler, called for an outside change. */
    method DeliverNotice()
      requires WellFormed(Abs()) && Enabled(Abs(), Notify)
      modifies this
      ensures Abs() == Step(old(Abs()), Notify)
    {
      var prop := notices[0];
      assert prop in notices;
      notices := notices[1..];
      echoes := echoes + [Message(prop, config[prop])];
    }

    /** One property of `initialize`. */
    method InitialiseProperty(k: nat)
      requires WellFormed(Abs()) && k < PROPERTY_COUNT
      modifies this`config, this`log, this`echoes, this`worker
      ensures Abs() == AfterInitialising(old(Abs()), k)
    {
      if PropertyBits.IsMarked(propertySetStatus0, k) {
        config := config[k := cached[k]];
        log := log[k := log[k] + [Local(cached[k])]];
      } else {
        echoes := echoes + [Message(k, config[k])];
      }
      worker := Testing(k + 1);
    }

    /** `initialize`: publish the config, then for each property push the cached value or echo the
        config's, then connect. It is the run `InitialisationRun` followed by `Connect`. */
    method Initialize()
      requires WellFormed(Abs()) && worker.NotStarted?
      modifies this
      ensures var all := InitialisationRun(old(Abs()), PROPERTY_COUNT) + [Connect];
              IsRun(old(Abs()), all) && Abs() == Run(old(Abs()), all)
    {
      ghost var s := Abs();
      LastPropertyThenConnect(s);
      hide Run, IsRun, InitialisationRun;
      worker := Testing(0);
      var k := 0;
      while k < PROPERTY_COUNT
        invariant k <= PROPERTY_COUNT && Abs() == InitialisedUpTo(s, k)
      {
        InitialiseProperty(k);
        k := k + 1;
      }
      worker := Connected;
    }
  }
}
