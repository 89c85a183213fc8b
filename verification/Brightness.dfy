/** Coalescing of brightness requests: one request slot and two flags, guarded by a mutex, while the
    work travels through timer callbacks, pool workers and finish events.

    A worker takes the request under the mutex and sends it to the display service after unlocking, so
    other steps may come between. The scheduler is modelled by counting what it still owes: scheduled
    handlers, workers that have not run, requests taken and not sent, workers that have sent theirs and
    whose finish event is to come, and workers that found nothing to do and whose finish event is to
    come. It may serve them in any order. */
module Brightness {
  import opened Collections

  datatype Request = Request(monitor: string, value: real)

  // What the slot is reset to when its request is taken.
  const EMPTY := Request("", 0.0)

  datatype State = State(
    pending: bool,
    waiting: bool,
    slot: Request,
    handles: nat,
    unstarted: nat,
    unsent: seq<nat>,         // workers about to send: the places of their requests in `taken`
    calling: nat,
    idle: nat,
    requested: seq<Request>,  // history: every request made
    taken: seq<Request>,      // history: every request taken out of the slot
    takenAt: seq<nat>,        // history: how many requests had been made at that time
    sent: seq<nat>)           // history: the places in `taken` of the requests sent, in sending order

  datatype Action = Ask(request: Request) | Handle | RunWorker | Send(k: nat) | FinishTaker | FinishIdle

  const INITIAL := State(false, false, EMPTY, 0, 0, [], 0, 0, [], [], [], [])

  predicate Enabled(s: State, a: Action) {
    match a
    case Ask(_) => true
    case Handle => s.handles > 0
    case RunWorker => s.unstarted > 0
    case Send(k) => k < |s.unsent|
    case FinishTaker => s.calling > 0
    case FinishIdle => s.idle > 0
  }

  function Step(s: State, a: Action): State
    requires Enabled(s, a)
  {
    match a
    case Ask(r) =>
      s.(waiting := true, slot := r, requested := s.requested + [r],
         handles := if s.pending then s.handles else s.handles + 1)
    case Handle =>
      if s.pending || !s.waiting then s.(handles := s.handles - 1)
      else s.(handles := s.handles - 1, unstarted := s.unstarted + 1)
    case RunWorker =>
      if s.pending || !s.waiting then s.(unstarted := s.unstarted - 1, idle := s.idle + 1)
      else
        s.(unstarted := s.unstarted - 1, unsent := s.unsent + [|s.taken|], pending := true, waiting := false, slot := EMPTY,
           taken := s.taken + [s.slot], takenAt := s.takenAt + [|s.requested|])
    case Send(k) =>
      s.(unsent := s.unsent[..k] + s.unsent[k + 1..], calling := s.calling + 1, sent := s.sent + [s.unsent[k]])
    case FinishTaker => Finished(s.(calling := s.calling - 1))
    case FinishIdle => Finished(s.(idle := s.idle - 1))
  }

  /** The finish handler, which does not know whether its worker took anything. */
  function Finished(s: State): State {
    s.(pending := false, handles := if s.waiting then s.handles + 1 else s.handles)
  }

  /** The calls in flight: requests out of the slot whose worker has not finished. */
  function InFlight(s: State): nat {
    |s.unsent| + s.calling
  }

  predicate IsRun(s: State, actions: seq<Action>)
    decreases |actions|
  {
    actions == [] || (Enabled(s, actions[0]) && IsRun(Step(s, actions[0]), actions[1..]))
  }

  function Run(s: State, actions: seq<Action>): State
    requires IsRun(s, actions)
    decreases |actions|
  {
    if actions == [] then s else Run(Step(s, actions[0]), actions[1..])
  }

  // ---------- no lost wake-up ----------

  predicate WakeUpIsComing(s: State) {
    && (s.pending ==> InFlight(s) > 0)
    && (s.waiting && !s.pending ==> s.handles + s.unstarted > 0)
  }

  predicate HistoryIsExact(s: State) {
    && |s.taken| == |s.takenAt|
    && (forall j | 0 <= j < |s.taken| :: 0 < s.takenAt[j] <= |s.requested| && s.taken[j] == s.requested[s.takenAt[j] - 1])
    && (forall j, k | 0 <= j < k < |s.taken| :: s.takenAt[j] < s.takenAt[k])
    && (s.waiting ==>
          && s.requested != []
          && s.slot == s.requested[|s.requested| - 1]
          && (forall j | 0 <= j < |s.takenAt| :: s.takenAt[j] < |s.requested|))
    && (!s.waiting && s.requested != [] ==>
          s.takenAt != [] && s.takenAt[|s.takenAt| - 1] == |s.requested|)
  }

  /** Every request taken is sent once or still to be sent, and the ones to be sent are in the order
      they were taken. */
  predicate SendsAreExact(taken: nat, unsent: seq<nat>, sent: seq<nat>) {
    && |sent| + |unsent| == taken
    && (forall i: nat | i < taken :: i in sent || i in unsent)
    && (forall j | 0 <= j < |sent| :: sent[j] < taken && sent[j] !in unsent)
    && (forall j | 0 <= j < |unsent| :: unsent[j] < taken)
    && (forall j, k | 0 <= j < k < |sent| :: sent[j] != sent[k])
    && (forall j, k | 0 <= j < k < |unsent| :: unsent[j] < unsent[k])
  }

  predicate Inv(s: State) {
    WakeUpIsComing(s) && HistoryIsExact(s) && SendsAreExact(|s.taken|, s.unsent, s.sent)
  }

  lemma TakingKeepsHistory(s: State)
    requires Inv(s) && Enabled(s, RunWorker)
    ensures HistoryIsExact(Step(s, RunWorker))
  {
    hide SendsAreExact;
  }

  lemma TakingKeepsSends(taken: nat, unsent: seq<nat>, sent: seq<nat>)
    requires SendsAreExact(taken, unsent, sent)
    ensures SendsAreExact(taken + 1, unsent + [taken], sent)
  {
    assert forall i <- unsent :: i in unsent + [taken];
    assert taken in unsent + [taken];
    assert forall i | i in unsent + [taken] :: i in unsent || i == taken;
  }

  lemma WithoutOne(unsent: seq<nat>, k: nat)
    requires k < |unsent| && (forall i, j | 0 <= i < j < |unsent| :: unsent[i] < unsent[j])
    ensures var rest := unsent[..k] + unsent[k + 1..];
            && (forall i :: i in rest <==> i in unsent && i != unsent[k])
            && (forall i, j | 0 <= i < j < |rest| :: rest[i] < rest[j])
  {
    var rest := unsent[..k] + unsent[k + 1..];
    assert forall j | 0 <= j < |rest| :: rest[j] == if j < k then unsent[j] else unsent[j + 1];
    forall i | i in unsent && i != unsent[k] ensures i in rest {
      var j :| 0 <= j < |unsent| && unsent[j] == i;
      assert i == rest[if j < k then j else j - 1];
    }
  }

  lemma SendingKeepsSends(taken: nat, unsent: seq<nat>, sent: seq<nat>, k: nat)
    requires SendsAreExact(taken, unsent, sent) && k < |unsent|
    ensures SendsAreExact(taken, unsent[..k] + unsent[k + 1..], sent + [unsent[k]])
  {
    var rest, done := unsent[..k] + unsent[k + 1..], sent + [unsent[k]];
    WithoutOne(unsent, k);
    assert unsent[k] in unsent && unsent[k] in done;
    assert forall i <- sent :: i in done;
    assert forall j | 0 <= j < |rest| :: rest[j] in rest;
    assert forall i <- unsent :: i < taken;
  }

  lemma StepKeepsWakeUp(s: State, a: Action)
    requires WakeUpIsComing(s) && Enabled(s, a)
    ensures WakeUpIsComing(Step(s, a))
  {
  }

  lemma StepKeepsHistory(s: State, a: Action)
    requires Inv(s) && Enabled(s, a)
    ensures HistoryIsExact(Step(s, a))
  {
    hide SendsAreExact, WakeUpIsComing;
    if a.RunWorker? {
      TakingKeepsHistory(s);
    }
  }

  lemma StepKeepsSends(s: State, a: Action)
    requires SendsAreExact(|s.taken|, s.unsent, s.sent) && Enabled(s, a)
    ensures SendsAreExact(|Step(s, a).taken|, Step(s, a).unsent, Step(s, a).sent)
  {
    hide SendsAreExact;
    match a {
      case RunWorker => TakingKeepsSends(|s.taken|, s.unsent, s.sent);
      case Send(k) => SendingKeepsSends(|s.taken|, s.unsent, s.sent, k);
      case _ =>
    }
  }

  lemma StepKeepsInv(s: State, a: Action)
    requires Inv(s) && Enabled(s, a)
    ensures Inv(Step(s, a))
  {
    hide SendsAreExact, HistoryIsExact, WakeUpIsComing, Step, Enabled;
    StepKeepsWakeUp(s, a);
    StepKeepsHistory(s, a);
    StepKeepsSends(s, a);
  }

  lemma {:induction false} RunKeepsInv(s: State, actions: seq<Action>)
    requires Inv(s) && IsRun(s, actions)
    ensures Inv(Run(s, actions))
    decreases |actions|
  {
    if actions != [] {
      StepKeepsInv(s, actions[0]);
      RunKeepsInv(Step(s, actions[0]), actions[1..]);
    }
  }

  /** In every reachable state a waiting request will be looked at again: by a scheduled handler, by
      a worker that has not run, or through the finish event of a worker that took one before. */
  lemma NoLostWakeUp(actions: seq<Action>)
    requires IsRun(INITIAL, actions)
    ensures var s := Run(INITIAL, actions);
            && (s.waiting ==> s.handles > 0 || s.unstarted > 0 || (s.pending && InFlight(s) > 0))
            && (s.pending ==> InFlight(s) > 0)
  {
    RunKeepsInv(INITIAL, actions);
  }

  // ---------- which requests are taken ----------

  /** The requests made in a run. */
  function Asked(actions: seq<Action>): seq<Request> {
    if actions == [] then []
    else (if actions[0].Ask? then [actions[0].request] else []) + Asked(actions[1..])
  }

  /** What the results call the requests made are just those of the run, in order. */
  lemma {:induction false} RequestsAreThoseAsked(s: State, actions: seq<Action>)
    requires IsRun(s, actions)
    ensures Run(s, actions).requested == s.requested + Asked(actions)
    decreases |actions|
  {
    if actions != [] {
      assert Step(s, actions[0]).requested == s.requested + if actions[0].Ask? then [actions[0].request] else [];
      hide Step, Enabled;
      RequestsAreThoseAsked(Step(s, actions[0]), actions[1..]);
    }
  }

  /** So at rest the last request made in the run is the last one taken, and it has been sent. */
  lemma LastAskedIsSent(actions: seq<Action>)
    requires IsRun(INITIAL, actions) && Asked(actions) != [] && Tokens(Run(INITIAL, actions)) == 0
    ensures var s, asked := Run(INITIAL, actions), Asked(actions);
            && SentAreTaken(s) && asked[|asked| - 1] in SentRequests(s)
            && (forall r <- SentRequests(s) :: r in asked)
  {
    RequestsAreThoseAsked(INITIAL, actions);
    RunKeepsInv(INITIAL, actions);
    var s := Run(INITIAL, actions);
    assert s.requested == Asked(actions);
    RestIsExact(s);
    hide IsRun, Run, Asked;
    var last := |s.taken| - 1;
    assert last in s.sent;
    var j :| 0 <= j < |s.sent| && s.sent[j] == last;
    assert SentRequests(s)[j] == s.taken[last];
  }

  predicate Subsequence<T(==)>(xs: seq<T>, ys: seq<T>)
    decreases |ys|
  {
    xs == [] ||
    (ys != [] &&
     (Subsequence(xs, ys[..|ys| - 1]) ||
      (xs[|xs| - 1] == ys[|ys| - 1] && Subsequence(xs[..|xs| - 1], ys[..|ys| - 1]))))
  }

  lemma {:induction false} IncreasingIndicesGiveSubsequence<T>(xs: seq<T>, ys: seq<T>, at: seq<nat>)
    requires |xs| == |at|
    requires forall j | 0 <= j < |xs| :: 0 < at[j] <= |ys| && xs[j] == ys[at[j] - 1]
    requires forall j, k | 0 <= j < k < |xs| :: at[j] < at[k]
    ensures Subsequence(xs, ys)
    decreases |ys|
  {
    if xs != [] {
      assert at[0] <= |ys|;
      var n, shorter := |xs| - 1, ys[..|ys| - 1];
      if at[n] == |ys| {
        IncreasingIndicesGiveSubsequence(xs[..n], shorter, at[..n]);
      } else {
        IncreasingIndicesGiveSubsequence(xs, shorter, at);
      }
    }
  }

  /** The requests taken out of the slot are requests made, in order, each at most once; and unless
      one is waiting, the last one taken is the last one made. */
  lemma RequestsAreTakenInOrder(actions: seq<Action>)
    requires IsRun(INITIAL, actions)
    ensures var s := Run(INITIAL, actions);
            && Subsequence(s.taken, s.requested)
            && (s.requested != [] && !s.waiting ==>
                  s.taken != [] && s.taken[|s.taken| - 1] == s.requested[|s.requested| - 1])
  {
    RunKeepsInv(INITIAL, actions);
    var s := Run(INITIAL, actions);
    IncreasingIndicesGiveSubsequence(s.taken, s.requested, s.takenAt);
  }

  /** Every request taken is sent once or still to be sent, and nothing else is sent. */
  lemma TakenAreSentOnce(actions: seq<Action>, i: nat)
    requires IsRun(INITIAL, actions) && i < |Run(INITIAL, actions).taken|
    ensures var s := Run(INITIAL, actions);
            && |s.sent| + |s.unsent| == |s.taken|
            && (i in s.sent <==> i !in s.unsent)
            && (forall j, k | 0 <= j < k < |s.sent| :: s.sent[j] != s.sent[k])
  {
    RunKeepsInv(INITIAL, actions);
  }

  // ---------- the order of sending ----------

  /** The requests sent so far are the first ones taken, in the order they were taken. */
  predicate SentInOrder(s: State) {
    forall j | 0 <= j < |s.sent| :: s.sent[j] == j
  }

  predicate SentAreTaken(s: State) {
    forall j | 0 <= j < |s.sent| :: s.sent[j] < |s.taken|
  }

  function SentRequests(s: State): (r: seq<Request>)
    requires SentAreTaken(s)
    ensures |r| == |s.sent| && forall j | 0 <= j < |r| :: r[j] == s.taken[s.sent[j]]
  {
    seq(|s.sent|, j requires 0 <= j < |s.sent| => s.taken[s.sent[j]])
  }

  lemma OldestIsNext(taken: nat, unsent: seq<nat>, sent: seq<nat>)
    requires SendsAreExact(taken, unsent, sent) && unsent != [] && (forall j | 0 <= j < |sent| :: sent[j] == j)
    ensures unsent[0] == |sent|
  {
    var n := |sent|;
    assert n !in sent && n in unsent;
    var j :| 0 <= j < |unsent| && unsent[j] == n;
    var oldest := unsent[0];
    assert oldest in unsent && oldest <= n;
    forall i: nat | i < n ensures i !in unsent {
      assert sent[i] == i;
    }
  }

  /** A send keeps the order exactly if it is the one of the oldest request not sent yet. */
  lemma SendKeepsOrderIff(s: State, k: nat)
    requires Inv(s) && SentInOrder(s) && k < |s.unsent|
    ensures SentInOrder(Step(s, Send(k))) <==> k == 0
  {
    hide WakeUpIsComing, HistoryIsExact;
    var n := |s.sent|;
    OldestIsNext(|s.taken|, s.unsent, s.sent);
    var t := Step(s, Send(k));
    assert t.sent[n] == s.unsent[k];
    assert k > 0 ==> s.unsent[0] < s.unsent[k];
  }

  lemma {:induction false} DisorderStays(s: State, actions: seq<Action>)
    requires IsRun(s, actions) && !SentInOrder(s)
    ensures !SentInOrder(Run(s, actions))
    decreases |actions|
  {
    if actions != [] {
      var j :| 0 <= j < |s.sent| && s.sent[j] != j;
      var t := Step(s, actions[0]);
      assert t.sent[j] != j;
      DisorderStays(t, actions[1..]);
    }
  }

  /** A run sends in order exactly if every send in it is the one of the oldest request not sent yet. */
  lemma {:induction false} RunSendsInOrderIff(s: State, actions: seq<Action>)
    requires Inv(s) && SentInOrder(s) && IsRun(s, actions)
    ensures SentInOrder(Run(s, actions)) <==> forall a <- actions :: a.Send? ==> a.k == 0
    decreases |actions|
  {
    if actions != [] {
      var a, t := actions[0], Step(s, actions[0]);
      StepKeepsInv(s, a);
      hide Inv;
      assert actions == [a] + actions[1..];
      if a.Send? {
        SendKeepsOrderIff(s, a.k);
      }
      if SentInOrder(t) {
        RunSendsInOrderIff(t, actions[1..]);
      } else {
        DisorderStays(t, actions[1..]);
      }
    }
  }

  predicate AlwaysOneInFlight(s: State, actions: seq<Action>)
    requires IsRun(s, actions)
    decreases |actions|
  {
    InFlight(s) <= 1 && (actions == [] || AlwaysOneInFlight(Step(s, actions[0]), actions[1..]))
  }

  lemma {:induction false} OneInFlightSendsOldest(s: State, actions: seq<Action>)
    requires IsRun(s, actions) && AlwaysOneInFlight(s, actions)
    ensures forall a <- actions :: a.Send? ==> a.k == 0
    decreases |actions|
  {
    if actions != [] {
      OneInFlightSendsOldest(Step(s, actions[0]), actions[1..]);
      assert actions == [actions[0]] + actions[1..];
    }
  }

  lemma InOrderMeansRequests(s: State)
    requires Inv(s) && SentInOrder(s)
    ensures |s.sent| <= |s.taken| && SentAreTaken(s) && SentRequests(s) == s.taken[..|s.sent|]
    ensures Subsequence(s.taken[..|s.sent|], s.requested)
    ensures s.requested != [] && !s.waiting && s.unsent == [] ==>
              s.sent != [] && s.taken[|s.sent| - 1] == s.requested[|s.requested| - 1]
  {
    hide WakeUpIsComing, Subsequence;
    var n := |s.sent|;
    assert n + |s.unsent| == |s.taken|;
    IncreasingIndicesGiveSubsequence(s.taken[..n], s.requested, s.takenAt[..n]);
  }

  /** If every send is the one of the oldest request not sent yet, the requests sent are requests made, in
      order; and when none is waiting or to be sent, the last one sent is the last one made. */
  lemma OldestFirstSendsInOrder(actions: seq<Action>)
    requires IsRun(INITIAL, actions) && (forall a <- actions :: a.Send? ==> a.k == 0)
    ensures var s := Run(INITIAL, actions);
            && |s.sent| <= |s.taken| && SentAreTaken(s)
            && SentRequests(s) == s.taken[..|s.sent|] && Subsequence(SentRequests(s), s.requested)
            && (s.requested != [] && !s.waiting && s.unsent == [] ==>
                  SentRequests(s) != [] && SentRequests(s)[|s.sent| - 1] == s.requested[|s.requested| - 1])
  {
    RunSendsInOrderIff(INITIAL, actions);
    RunKeepsInv(INITIAL, actions);
    hide Inv, SentInOrder, Subsequence, Run, IsRun, SentAreTaken;
    InOrderMeansRequests(Run(INITIAL, actions));
  }

  /** In particular with at most one call in flight throughout. */
  lemma OneCallSendsInOrder(actions: seq<Action>)
    requires IsRun(INITIAL, actions) && AlwaysOneInFlight(INITIAL, actions)
    ensures var s := Run(INITIAL, actions);
            && |s.sent| <= |s.taken| && SentAreTaken(s)
            && SentRequests(s) == s.taken[..|s.sent|] && Subsequence(SentRequests(s), s.requested)
            && (s.requested != [] && !s.waiting && s.unsent == [] ==>
                  SentRequests(s) != [] && SentRequests(s)[|s.sent| - 1] == s.requested[|s.requested| - 1])
  {
    OneInFlightSendsOldest(INITIAL, actions);
    OldestFirstSendsInOrder(actions);
  }

  // ---------- quiescence ----------

  function Tokens(s: State): nat {
    s.handles + s.unstarted + |s.unsent| + s.calling + s.idle
  }

  /** What is left to do within one combination of the flags. With a request waiting and none
      pending, any worker that runs takes it, so only sends, finish events and handlers count. */
  function TokenWork(s: State): nat {
    if s.waiting && !s.pending then 3 * |s.unsent| + 2 * (s.calling + s.idle) + s.handles
    else s.handles + 2 * s.unstarted + 2 * |s.unsent| + s.calling + s.idle
  }

  /** The lexicographic measure (waiting, pending, token work), flattened: no inner step adds a
      token, so the last component never exceeds three times their number. */
  function Measure(s: State): nat {
    ((if s.waiting then 2 else 0) + (if s.pending then 1 else 0)) * (3 * Tokens(s) + 1) + TokenWork(s)
  }

  lemma FlattenedMeasureDecreases(high: nat, high': nat, tokens: nat, tokens': nat, low: nat, low': nat)
    requires tokens' <= tokens && low' <= 3 * tokens'
    requires high' < high || (high' == high && low' < low)
    ensures high' * (3 * tokens' + 1) + low' < high * (3 * tokens + 1) + low
  {
    if high' < high {
      assert high' * (3 * tokens' + 1) <= (high - 1) * (3 * tokens + 1) by {
        assert high' * (3 * tokens' + 1) <= high' * (3 * tokens + 1);
      }
    } else {
      assert high * (3 * tokens' + 1) <= high * (3 * tokens + 1);
    }
  }

  lemma InnerStepsDecrease(s: State, a: Action)
    requires Enabled(s, a) && !a.Ask?
    ensures Measure(Step(s, a)) < Measure(s)
  {
    var t := Step(s, a);
    FlattenedMeasureDecreases(
      (if s.waiting then 2 else 0) + (if s.pending then 1 else 0),
      (if t.waiting then 2 else 0) + (if t.pending then 1 else 0),
      Tokens(s), Tokens(t), TokenWork(s), TokenWork(t));
  }

  lemma {:induction false} RunIsBounded(s: State, actions: seq<Action>)
    requires IsRun(s, actions) && (forall a <- actions :: !a.Ask?)
    ensures |actions| + Measure(Run(s, actions)) <= Measure(s)
    decreases |actions|
  {
    if actions != [] {
      InnerStepsDecrease(s, actions[0]);
      assert forall a <- actions[1..] :: a in actions;
      RunIsBounded(Step(s, actions[0]), actions[1..]);
    }
  }

  lemma RestIsExact(s: State)
    requires Inv(s) && Tokens(s) == 0
    ensures !s.pending && !s.waiting && |s.sent| == |s.taken| && (forall i: nat | i < |s.taken| :: i in s.sent)
    ensures s.requested != [] ==> s.taken != [] && s.taken[|s.taken| - 1] == s.requested[|s.requested| - 1]
  {
  }

  /** Without new requests every run ends, whatever the scheduler does; where it ends both flags are
      down, the last request made has been taken, and every request taken has been sent. */
  lemma ControllerComesToRest(before: seq<Action>, after: seq<Action>)
    requires IsRun(INITIAL, before) && IsRun(Run(INITIAL, before), after) && (forall a <- after :: !a.Ask?)
    ensures |after| <= Measure(Run(INITIAL, before))
    ensures var s := Run(Run(INITIAL, before), after);
            Tokens(s) == 0 ==>
              && !s.pending && !s.waiting
              && (s.requested != [] ==> s.taken != [] && s.taken[|s.taken| - 1] == s.requested[|s.requested| - 1])
              && |s.sent| == |s.taken| && (forall i: nat | i < |s.taken| :: i in s.sent)
  {
    var s := Run(INITIAL, before);
    RunKeepsInv(INITIAL, before);
    hide Inv, Run, IsRun, Measure, Tokens;
    RunKeepsInv(s, after);
    RunIsBounded(s, after);
    var t := Run(s, after);
    if Tokens(t) == 0 {
      RestIsExact(t);
    }
  }

  // ---------- how many calls are in flight ----------

  /** The intent of the pending flag: it is up while a call is in flight, so there is at most one. */
  predicate OneCallAtMost(s: State) {
    InFlight(s) <= 1 && (InFlight(s) == 1 ==> s.pending)
  }

  /** Exactly one kind of step breaks that intent: the finish event of a worker that took nothing,
      delivered while another worker's call is in flight. */
  lemma StepKeepsOneCallIff(s: State, a: Action)
    requires Inv(s) && Enabled(s, a) && OneCallAtMost(s)
    ensures OneCallAtMost(Step(s, a)) <==> !(a.FinishIdle? && InFlight(s) == 1)
  {
    hide HistoryIsExact, SendsAreExact;
  }

  predicate OneCallThroughout(s: State, actions: seq<Action>)
    requires IsRun(s, actions)
    decreases |actions|
  {
    OneCallAtMost(s) && (actions == [] || OneCallThroughout(Step(s, actions[0]), actions[1..]))
  }

  /** No worker that took nothing has its finish event delivered while another one's call is in flight. */
  predicate NeverFinishesIdleDuringCall(s: State, actions: seq<Action>)
    requires IsRun(s, actions)
    decreases |actions|
  {
    actions == [] ||
    (!(actions[0].FinishIdle? && InFlight(s) > 0) && NeverFinishesIdleDuringCall(Step(s, actions[0]), actions[1..]))
  }

  /** The intent is kept throughout a run exactly if that never happens in it. */
  lemma {:induction false} OneCallThroughoutIff(s: State, actions: seq<Action>)
    requires Inv(s) && OneCallAtMost(s) && IsRun(s, actions)
    ensures OneCallThroughout(s, actions) <==> NeverFinishesIdleDuringCall(s, actions)
    decreases |actions|
  {
    if actions != [] {
      StepKeepsOneCallIff(s, actions[0]);
      StepKeepsInv(s, actions[0]);
      hide Inv, Step, Enabled;
      if OneCallAtMost(Step(s, actions[0])) {
        OneCallThroughoutIff(Step(s, actions[0]), actions[1..]);
      }
    }
  }

  lemma {:induction false} OneCallIsOneInFlight(s: State, actions: seq<Action>)
    requires IsRun(s, actions) && OneCallThroughout(s, actions)
    ensures AlwaysOneInFlight(s, actions)
    decreases |actions|
  {
    if actions != [] {
      OneCallIsOneInFlight(Step(s, actions[0]), actions[1..]);
    }
  }

  /** From the start: while that never happens there is at most one call in flight, so that the requests
      are sent in the order they were made, and at rest the last one sent is the last one made. */
  lemma OneCallFromTheStart(actions: seq<Action>)
    requires IsRun(INITIAL, actions) && NeverFinishesIdleDuringCall(INITIAL, actions)
    ensures AlwaysOneInFlight(INITIAL, actions)
    ensures var s := Run(INITIAL, actions);
            && SentAreTaken(s) && Subsequence(SentRequests(s), s.requested)
            && (s.requested != [] && Tokens(s) == 0 ==>
                  SentRequests(s) != [] && SentRequests(s)[|s.sent| - 1] == s.requested[|s.requested| - 1])
  {
    OneCallThroughoutIff(INITIAL, actions);
    OneCallIsOneInFlight(INITIAL, actions);
    OneCallSendsInOrder(actions);
    RunKeepsInv(INITIAL, actions);
    hide SentRequests, Subsequence, SentAreTaken;
    if Tokens(Run(INITIAL, actions)) == 0 {
      RestIsExact(Run(INITIAL, actions));
    }
  }

  lemma RunPrepend(s: State, a: Action, rest: seq<Action>)
    requires Enabled(s, a) && IsRun(Step(s, a), rest)
    ensures IsRun(s, [a] + rest) && Run(s, [a] + rest) == Run(Step(s, a), rest)
  {
    assert ([a] + rest)[1..] == rest;
  }

  lemma {:induction false} RunAppend(s: State, first: seq<Action>, second: seq<Action>)
    requires IsRun(s, first) && IsRun(Run(s, first), second)
    ensures IsRun(s, first + second) && Run(s, first + second) == Run(Run(s, first), second)
    decreases |first|
  {
    if first == [] {
      assert first + second == second;
    } else {
      RunAppend(Step(s, first[0]), first[1..], second);
      assert (first + second)[1..] == first[1..] + second;
    }
  }

  /** A run that puts two calls in flight: two requests schedule two handlers, which start two workers. */
  function OverlappingRun(first: Request, second: Request, third: Request): seq<Action> {
    [Ask(first), Ask(second), Handle, Handle, RunWorker, RunWorker, Ask(third), FinishIdle, Handle, RunWorker]
  }

  /** Where that run leads: both requests are taken and neither is sent. */
  function TwoInFlight(first: Request, second: Request, third: Request): State {
    State(true, false, EMPTY, 0, 0, [0, 1], 0, 0, [first, second, third], [second, third], [2, 3], [])
  }

  lemma TwoWorkersSteps(first: Request, second: Request, s4: State, t: State)
    requires s4 == State(false, true, second, 0, 2, [], 0, 0, [first, second], [], [], [])
    requires t == State(true, false, EMPTY, 0, 0, [0], 0, 1, [first, second], [second], [2], [])
    ensures var s2 := Step(Step(INITIAL, Ask(first)), Ask(second));
            && Enabled(s2, Handle) && Enabled(Step(s2, Handle), Handle) && Step(Step(s2, Handle), Handle) == s4
    ensures Enabled(s4, RunWorker) && Enabled(Step(s4, RunWorker), RunWorker) && Step(Step(s4, RunWorker), RunWorker) == t
  {
  }

  /** The first request has two workers looking for it, and the second worker finds nothing. */
  lemma TwoWorkersRun(first: Request, second: Request, third: Request, t: State)
    requires t == State(true, false, EMPTY, 0, 0, [0], 0, 1, [first, second], [second], [2], [])
    ensures var start := OverlappingRun(first, second, third)[..6];
            IsRun(INITIAL, start) && Run(INITIAL, start) == t
  {
    var start := OverlappingRun(first, second, third)[..6];
    var s1 := Step(INITIAL, Ask(first));
    var s2 := Step(s1, Ask(second));
    var s3 := Step(s2, Handle);
    var s4 := Step(s3, Handle);
    var s5 := Step(s4, RunWorker);
    TwoWorkersSteps(first, second, State(false, true, second, 0, 2, [], 0, 0, [first, second], [], [], []), t);
    assert start == [Ask(first)] + start[1..] && start[1..] == [Ask(second)] + start[2..];
    assert start[2..] == [Handle] + start[3..] && start[3..] == [Handle] + start[4..];
    assert start[4..] == [RunWorker] + start[5..] && start[5..] == [RunWorker] + [];
    assert Enabled(INITIAL, Ask(first)) && Enabled(s1, Ask(second)) && IsRun(t, []) && Run(t, []) == t;
    hide Step, Run, IsRun, Enabled, OverlappingRun;
    RunPrepend(s5, RunWorker, []);
    RunPrepend(s4, RunWorker, start[5..]);
    RunPrepend(s3, Handle, start[4..]);
    RunPrepend(s2, Handle, start[3..]);
    RunPrepend(s1, Ask(second), start[2..]);
    RunPrepend(INITIAL, Ask(first), start[1..]);
  }

  /** Its finish event lets a third worker in. */
  lemma ThirdWorkerRuns(first: Request, second: Request, third: Request, s: State)
    requires s == State(true, false, EMPTY, 0, 0, [0], 0, 1, [first, second], [second], [2], [])
    ensures var rest := OverlappingRun(first, second, third)[6..];
            IsRun(s, rest) && Run(s, rest) == TwoInFlight(first, second, third)
  {
    var rest := OverlappingRun(first, second, third)[6..];
    var s1 := Step(s, Ask(third));
    var s2 := Step(s1, FinishIdle);
    var s3 := Step(s2, Handle);
    assert Step(s3, RunWorker) == TwoInFlight(first, second, third);
    RunPrepend(s3, RunWorker, []);
    RunPrepend(s2, Handle, rest[3..]);
    RunPrepend(s1, FinishIdle, rest[2..]);
    RunPrepend(s, Ask(third), rest[1..]);
  }

  lemma TwoCallsCanOverlap(first: Request, second: Request, third: Request)
    ensures IsRun(INITIAL, OverlappingRun(first, second, third))
    ensures Run(INITIAL, OverlappingRun(first, second, third)) == TwoInFlight(first, second, third)
    ensures InFlight(TwoInFlight(first, second, third)) == 2
  {
    var all := OverlappingRun(first, second, third);
    var s := State(true, false, EMPTY, 0, 0, [0], 0, 1, [first, second], [second], [2], []);
    TwoWorkersRun(first, second, third, s);
    hide Run, IsRun, OverlappingRun;
    ThirdWorkerRuns(first, second, third, s);
    RunAppend(INITIAL, all[..6], all[6..]);
    assert all == all[..6] + all[6..];
  }

  lemma ThenSentInReverse(s: State, first: Request, second: Request, third: Request)
    requires s == TwoInFlight(first, second, third)
    ensures var reversed := [Send(1), Send(0), FinishTaker, FinishTaker];
            && IsRun(s, reversed)
            && Run(s, reversed)
            == State(false, false, EMPTY, 0, 0, [], 0, 0, [first, second, third], [second, third], [2, 3], [1, 0])
  {
    var s1 := s.(unsent := [0], calling := 1, sent := [1]);
    var s2 := s.(unsent := [], calling := 2, sent := [1, 0]);
    var s3 := s2.(calling := 1, pending := false);
    var all := [Send(1), Send(0), FinishTaker, FinishTaker];
    assert Step(s, Send(1)) == s1 && Step(s1, Send(0)) == s2 && Step(s2, FinishTaker) == s3;
    RunPrepend(s3, FinishTaker, []);
    RunPrepend(s2, FinishTaker, all[3..]);
    RunPrepend(s1, Send(0), all[2..]);
    RunPrepend(s, Send(1), all[1..]);
  }

  /** Two calls in flight can be sent in reverse: nothing is left to do, both flags are down, and the
      display service was last told the older request. */
  lemma LastRequestCanBeOverwritten(first: Request, second: Request, third: Request)
    ensures var all := OverlappingRun(first, second, third) + [Send(1), Send(0), FinishTaker, FinishTaker];
            && IsRun(INITIAL, all)
            && var t := Run(INITIAL, all);
            && Tokens(t) == 0 && !t.pending && !t.waiting && t.requested == [first, second, third]
            && SentAreTaken(t) && SentRequests(t) == [third, second]
  {
    TwoCallsCanOverlap(first, second, third);
    hide Run, IsRun, OverlappingRun, Step, Enabled;
    ThenSentInReverse(TwoInFlight(first, second, third), first, second, third);
    RunAppend(INITIAL, OverlappingRun(first, second, third), [Send(1), Send(0), FinishTaker, FinishTaker]);
  }

  // ---------- the controller object ----------

  function Max(x: real, y: real): (r: real)
    ensures r >= x && r >= y && (r == x || r == y)
  {
    if x < y then y else x
  }

  /** The controller's request state. The ghost fields are what the event loop and the thread pool
      owe it. Every method body but that of `SendTaken` runs with the mutex held. */
  class BrightnessController {
    var hasPendingRequest: bool
    var hasWaitingRequest: bool
    var slot: Request
    ghost var handles: nat
    ghost var unstarted: nat
    ghost var unsent: seq<nat>
    ghost var calling: nat
    ghost var idle: nat
    ghost var requested: seq<Request>
    ghost var taken: seq<Request>
    ghost var takenAt: seq<nat>
    ghost var sent: seq<nat>

    ghost function Abs(): State
      reads this
    {
      State(hasPendingRequest, hasWaitingRequest, slot, handles, unstarted, unsent, calling, idle, requested, taken, takenAt,
            sent)
    }

    constructor ()
      ensures Abs() == INITIAL
    {
      hasPendingRequest, hasWaitingRequest, slot := false, false, EMPTY;
      handles, unstarted, unsent, calling, idle := 0, 0, [], 0, 0;
      requested, taken, takenAt, sent := [], [], [], [];
    }

    /** A request for a monitor (or for none), clamped from below to the minimum scale. */
    method SetMonitorBrightness(monitor: Option<string>, brightness: real, minimum: real)
      modifies this
      ensures monitor.None? ==> Abs() == old(Abs())
      ensures monitor.Some? ==> Abs() == Step(old(Abs()), Ask(Request(monitor.value, Max(brightness, minimum))))
      ensures monitor.Some? ==> slot.monitor == monitor.value && slot.value >= minimum
      ensures monitor.Some? && brightness >= minimum ==> slot.value == brightness
      ensures monitor.Some? && brightness < minimum ==> slot.value == minimum
    {
      if monitor.None? {
        return;
      }
      var value := Max(brightness, minimum);
      hasWaitingRequest := true;
      slot := Request(monitor.value, value);
      requested := requested + [slot];
      if !hasPendingRequest {
        handles := handles + 1;
      }
    }

    method HandleSetBrightnessRequest()
      requires Enabled(Abs(), Handle)
      modifies this
      ensures Abs() == Step(old(Abs()), Handle)
    {
      handles := handles - 1;
      if hasPendingRequest {
        return;
      }
      if !hasWaitingRequest {
        return;
      }
      unstarted := unstarted + 1;
    }

    /** The worker's locked section; the result is the request it is going to send, if any. */
    method RunWorker() returns (call: Option<Request>)
      requires Enabled(Abs(), Action.RunWorker)
      modifies this
      ensures Abs() == Step(old(Abs()), Action.RunWorker)
      ensures call.Some? <==> !old(hasPendingRequest) && old(hasWaitingRequest)
      ensures call.Some? ==> call.value == old(slot) && taken == old(taken) + [call.value]
    {
      unstarted := unstarted - 1;
      if hasPendingRequest || !hasWaitingRequest {
        idle := idle + 1;
        return None;
      }
      hasPendingRequest := true;
      hasWaitingRequest := false;
      call := Some(slot);
      slot := EMPTY;
      unsent := unsent + [|taken|];
      taken := taken + [call.value];
      takenAt := takenAt + [|requested|];
    }

    /** The worker's call after unlocking: the k-th of those about to send does it. The result is what
        the display service is told; the worker kept it in variables of its own. */
    method SendTaken(ghost k: nat, call: Request) returns (told: Request)
      requires Inv(Abs()) && Enabled(Abs(), Send(k)) && call == taken[unsent[k]]
      modifies this
      ensures Abs() == Step(old(Abs()), Send(k))
      ensures |sent| > 0 && SentAreTaken(Abs()) && SentRequests(Abs())[|sent| - 1] == told
    {
      SendingKeepsSends(|taken|, unsent, sent, k);
      sent := sent + [unsent[k]];
      unsent := unsent[..k] + unsent[k + 1..];
      calling := calling + 1;
      told := call;
    }

    /** The finish event of a worker, which took a request or did not. */
    method WorkerFinished(ghost tookRequest: bool)
      requires Enabled(Abs(), if tookRequest then FinishTaker else FinishIdle)
      modifies this
      ensures Abs() == Step(old(Abs()), if tookRequest then FinishTaker else FinishIdle)
    {
      if tookRequest {
        calling := calling - 1;
      } else {
        idle := idle - 1;
      }
      hasPendingRequest := false;
      if hasWaitingRequest {
        handles := handles + 1;
      }
    }
  }
}
