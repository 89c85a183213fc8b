/** Ids of tray items: a base name, a dash and the first number below 100 that is not in use. */
module UniqueId {
  import opened Collections

  const MOST := 100

  // ---------- names ----------

  function Digit(d: nat): char
    requires d < 10
  {
    "0123456789"[d]
  }

  function Number(n: nat): string
    requires n < MOST
  {
    if n < 10 then [Digit(n)] else [Digit(n / 10), Digit(n % 10)]
  }

  function Name(base: string, n: nat): string
    requires n < MOST
  {
    base + "-" + Number(n)
  }

  /** The number a string of decimal digits stands for. */
  function Value(s: string): (v: int) {
    if s == [] then 0 else 10 * Value(s[..|s| - 1]) + (s[|s| - 1] as int - '0' as int)
  }

  /** The number behind the dash is written in decimal, without leading zeros. */
  lemma NumberIsDecimal(n: nat)
    requires n < MOST
    ensures Value(Number(n)) == n && (forall c <- Number(n) :: '0' <= c <= '9')
    ensures |Number(n)| > 1 ==> Number(n)[0] != '0'
  {
    DigitIsDecimal(n % 10);
    DigitIsDecimal(n / 10);
    hide Digit;
    if n < 10 {
      assert Number(n)[..0] == [] && Value([]) == 0;
    } else {
      var tens := [Digit(n / 10)];
      assert Number(n)[..1] == tens && tens[..0] == [] && Value([]) == 0;
      assert Value(tens) == n / 10;
    }
  }

  lemma DigitIsDecimal(d: nat)
    requires d < 10
    ensures Digit(d) as int - '0' as int == d
  {
  }

  lemma DigitsAreDistinct(c: nat, d: nat)
    requires c < 10 && d < 10
    ensures Digit(c) == Digit(d) ==> c == d
    ensures Digit(d) != '-'
  {
  }

  lemma NumbersAreDistinct(m: nat, n: nat)
    requires m < MOST && n < MOST
    ensures Number(m) == Number(n) ==> m == n
    ensures '-' !in Number(n)
  {
    hide Digit;
    DigitsAreDistinct(n / 10, n % 10);
    DigitsAreDistinct(n % 10, n / 10);
    if m < 10 && n < 10 {
      assert Number(m)[0] == Digit(m) && Number(n)[0] == Digit(n);
      DigitsAreDistinct(m, n);
      DigitsAreDistinct(n, m);
    } else if m >= 10 && n >= 10 {
      assert Number(m)[0] == Digit(m / 10) && Number(n)[0] == Digit(n / 10);
      assert Number(m)[1] == Digit(m % 10) && Number(n)[1] == Digit(n % 10);
      DigitsAreDistinct(m / 10, n / 10);
      DigitsAreDistinct(m % 10, n % 10);
    } else if n < 10 {
      DigitsAreDistinct(n, n);
    }
  }

  lemma LastDash(b: string, m: nat, k: nat)
    requires m < MOST && |b| < k < |Name(b, m)|
    ensures Name(b, m)[k] != '-'
  {
    NumbersAreDistinct(m, m);
    assert Name(b, m)[k] == Number(m)[k - |b| - 1];
  }

  /** A name determines its base and its number, whatever dashes and digits the base holds itself. */
  lemma NamesAreDistinct(b: string, m: nat, c: string, n: nat)
    requires m < MOST && n < MOST && Name(b, m) == Name(c, n)
    ensures b == c && m == n
  {
    NumbersAreDistinct(m, n);
    hide Number;
    var s, t := Name(b, m), Name(c, n);
    assert s[|b|] == '-' && t[|c|] == '-';
    if |b| < |c| {
      LastDash(b, m, |c|);
    }
    assert s[..|b|] == b && t[..|c|] == c && s[|b| + 1..] == Number(m) && t[|c| + 1..] == Number(n);
  }

  // ---------- handing out and releasing ----------

  /** The first number from `n` on that is free for `base`, `MOST` if there is none. */
  function FirstFree(base: string, ids: set<string>, n: nat): (r: nat)
    requires n <= MOST
    ensures n <= r <= MOST
    ensures r < MOST ==> Name(base, r) !in ids
    ensures forall k | n <= k < r :: Name(base, k) in ids
    decreases MOST - n
  {
    if n == MOST || Name(base, n) !in ids then n else FirstFree(base, ids, n + 1)
  }

  predicate HasRoom(base: string, ids: set<string>) {
    FirstFree(base, ids, 0) < MOST
  }

  // The ids in the table, and those handed out and not released yet.
  datatype State = State(ids: set<string>, live: multiset<string>)

  const INITIAL := State({}, multiset{})

  datatype Action = Generate(base: string) | Release(id: string)

  function Generated(s: State, base: string): string {
    if HasRoom(base, s.ids) then Name(base, FirstFree(base, s.ids, 0)) else base
  }

  predicate Enabled(s: State, a: Action) {
    a.Release? ==> a.id in s.live
  }

  function Step(s: State, a: Action): State
    requires Enabled(s, a)
  {
    match a
    case Generate(base) =>
      State(if HasRoom(base, s.ids) then s.ids + {Generated(s, base)} else s.ids, s.live + multiset{Generated(s, base)})
    case Release(id) => State(s.ids - {id}, s.live - multiset{id})
  }

  predicate Distinct(s: State) {
    forall id <- s.live :: s.live[id] == 1
  }

  /** The table holds just the ids in use, and each is in use once. */
  predicate Inv(s: State) {
    s.live == multiset(s.ids)
  }

  /** Each id is in use once, and those in the table are in use. There may be bare ids in use besides. */
  predicate Kept(s: State) {
    Distinct(s) && forall id <- s.ids :: id in s.live
  }

  /** The ids in use that the table does not know: those of bases that were exhausted. */
  function Bare(s: State): set<string> {
    set id | id in s.live && id !in s.ids
  }

  /** A name found in the search is nobody's bare id, and a bare id is handed out only while it is not in
      use itself. */
  predicate Fresh(s: State, base: string) {
    if HasRoom(base, s.ids) then Name(base, FirstFree(base, s.ids, 0)) !in Bare(s) else base !in s.live
  }

  lemma BareIsWhatIsLeft(s: State)
    requires Kept(s)
    ensures s.live == multiset(s.ids) + multiset(Bare(s))
    ensures Bare(s) == {} <==> Inv(s)
  {
    assert forall id :: s.live[id] == multiset(s.ids)[id] + multiset(Bare(s))[id];
    if Inv(s) {
      assert forall id | id in s.live :: id in s.ids;
    }
  }

  /** Handing out an id keeps the ids in use different exactly when it is fresh, whatever bare ids are in
      use; releasing one always does. */
  lemma StepKeepsDistinctIff(s: State, a: Action)
    requires Kept(s) && Enabled(s, a)
    ensures Distinct(Step(s, a)) <==> (a.Generate? ==> Fresh(s, a.base))
    ensures Kept(Step(s, a)) <==> (a.Generate? ==> Fresh(s, a.base))
  {
    hide Name, HasRoom;
    var t := Step(s, a);
    match a {
      case Generate(base) =>
        var id := Generated(s, base);
        if HasRoom(base, s.ids) {
          RoomIsFree(base, s.ids);
        }
        assert Fresh(s, base) <==> id !in s.live by { FreshIsUnused(s, base); }
        assert t.live[id] == s.live[id] + 1;
        assert forall other <- t.live | other != id :: t.live[other] == s.live[other];
      case Release(id) =>
        assert t.live[id] == 0;
        assert forall other <- s.live | other != id :: t.live[other] == s.live[other];
    }
  }

  lemma RoomIsFree(base: string, ids: set<string>)
    requires HasRoom(base, ids)
    ensures Name(base, FirstFree(base, ids, 0)) !in ids
  {
  }

  lemma FreshIsUnused(s: State, base: string)
    requires Kept(s)
    ensures Fresh(s, base) <==> Generated(s, base) !in s.live
  {
    if HasRoom(base, s.ids) {
      RoomIsFree(base, s.ids);
    }
  }

  /** While no bare id is in use, an id handed out is a new one exactly when the base has a number left or
      is no id itself, and the table goes on to hold just the ids in use exactly when it has a number left. */
  lemma RoomIsEnoughIff(s: State, base: string)
    requires Inv(s)
    ensures Kept(s) && Bare(s) == {}
    ensures Fresh(s, base) <==> HasRoom(base, s.ids) || base !in s.live
    ensures Inv(Step(s, Generate(base))) <==> HasRoom(base, s.ids)
  {
    hide Name;
    var id, t := Generated(s, base), Step(s, Generate(base));
    assert t.live[id] == s.live[id] + 1;
    assert forall other | other in s.live :: other in s.ids;
    if HasRoom(base, s.ids) {
      assert id !in s.ids;
    } else {
      assert t.live[base] != multiset(s.ids)[base];
    }
  }

  lemma ReleaseKeepsInv(s: State, id: string)
    requires Inv(s) && id in s.live
    ensures Inv(Step(s, Release(id)))
  {
  }

  predicate IsRun(s: State, actions: seq<Action>)
    decreases |actions|
  {
    actions == [] || (Enabled(s, actions[0]) && IsRun(Step(s, actions[0]), actions[1..]))
  }

  function Run(s: State, actions: seq<Action>): State
    requires IsRun(s, actions)
    decreases |actions|
  {
    if actions == [] then s else Run(Step(s, actions[0]), actions[1..])
  }

  /** The ids in use that are made from `base`. */
  function LiveOf(base: string, live: multiset<string>): set<string> {
    set n | 0 <= n < MOST && Name(base, n) in live :: Name(base, n)
  }

  /** No id is asked for while `MOST` ids of its base are in use. */
  predicate NeverExhausted(s: State, actions: seq<Action>)
    requires IsRun(s, actions)
    decreases |actions|
  {
    actions == [] ||
    (&& (actions[0].Generate? ==> |LiveOf(actions[0].base, s.live)| < MOST)
     && NeverExhausted(Step(s, actions[0]), actions[1..]))
  }

  function NamesBelow(base: string, n: nat): set<string>
    requires n <= MOST
  {
    set k | 0 <= k < n :: Name(base, k)
  }

  lemma {:induction false} NamesBelowAreMany(base: string, n: nat)
    requires n <= MOST
    ensures |NamesBelow(base, n)| == n
  {
    hide Name;
    if n > 0 {
      NamesBelowAreMany(base, n - 1);
      var name := Name(base, n - 1);
      if name in NamesBelow(base, n - 1) {
        var k :| 0 <= k < n - 1 && name == Name(base, k);
        NamesAreDistinct(base, k, base, n - 1);
        assert false;
      }
      assert NamesBelow(base, n) == NamesBelow(base, n - 1) + {name};
    }
  }

  /** The bounded search finds a number exactly when fewer than `MOST` ids of the base are in use. */
  lemma SearchSucceedsIff(base: string, s: State)
    requires Inv(s)
    ensures HasRoom(base, s.ids) <==> |LiveOf(base, s.live)| < MOST
  {
    hide Name;
    var all, taken := NamesBelow(base, MOST), LiveOf(base, s.live);
    NamesBelowAreMany(base, MOST);
    var r := FirstFree(base, s.ids, 0);
    if r < MOST {
      assert Name(base, r) in all && Name(base, r) !in taken;
      assert taken <= all - {Name(base, r)};
      SubsetSize(taken, all - {Name(base, r)});
    } else {
      assert taken == all;
    }
  }

  /** As long as no base is exhausted, all ids in use are different, after any run of requests and
      releases. */
  lemma {:induction false} IdsStayDistinct(s: State, actions: seq<Action>)
    requires Inv(s) && IsRun(s, actions) && NeverExhausted(s, actions)
    ensures Inv(Run(s, actions)) && Distinct(Run(s, actions))
    decreases |actions|
  {
    if actions != [] {
      match actions[0] {
        case Generate(base) =>
          SearchSucceedsIff(base, s);
          RoomIsEnoughIff(s, base);
        case Release(id) => ReleaseKeepsInv(s, id);
      }
      IdsStayDistinct(Step(s, actions[0]), actions[1..]);
    }
  }

  predicate InvThroughout(s: State, actions: seq<Action>)
    requires IsRun(s, actions)
    decreases |actions|
  {
    Inv(s) && (actions == [] || InvThroughout(Step(s, actions[0]), actions[1..]))
  }

  /** The table holds just the ids in use, each of them in use once, throughout a run exactly if no base
      is exhausted when an id of it is asked for. */
  lemma {:induction false} TableIsExactIff(s: State, actions: seq<Action>)
    requires Inv(s) && IsRun(s, actions)
    ensures InvThroughout(s, actions) <==> NeverExhausted(s, actions)
    decreases |actions|
  {
    if actions != [] {
      match actions[0] {
        case Generate(base) =>
          SearchSucceedsIff(base, s);
          RoomIsEnoughIff(s, base);
        case Release(id) => ReleaseKeepsInv(s, id);
      }
      hide Inv, Step, LiveOf;
      if Inv(Step(s, actions[0])) {
        TableIsExactIff(Step(s, actions[0]), actions[1..]);
      }
    }
  }

  predicate DistinctThroughout(s: State, actions: seq<Action>)
    requires IsRun(s, actions)
    decreases |actions|
  {
    Distinct(s) && (actions == [] || DistinctThroughout(Step(s, actions[0]), actions[1..]))
  }

  predicate AlwaysFresh(s: State, actions: seq<Action>)
    requires IsRun(s, actions)
    decreases |actions|
  {
    actions == [] ||
    ((actions[0].Generate? ==> Fresh(s, actions[0].base)) && AlwaysFresh(Step(s, actions[0]), actions[1..]))
  }

  /** The ids in use are all different throughout a run exactly if every id handed out in it is fresh. */
  lemma {:induction false} DistinctThroughoutIff(s: State, actions: seq<Action>)
    requires Kept(s) && IsRun(s, actions)
    ensures DistinctThroughout(s, actions) <==> AlwaysFresh(s, actions)
    ensures AlwaysFresh(s, actions) ==> Kept(Run(s, actions))
    decreases |actions|
  {
    if actions != [] {
      StepKeepsDistinctIff(s, actions[0]);
      hide Step, Fresh, Distinct;
      if Kept(Step(s, actions[0])) {
        DistinctThroughoutIff(Step(s, actions[0]), actions[1..]);
      }
    }
  }

  lemma IdsDifferThroughoutIff(actions: seq<Action>)
    requires IsRun(INITIAL, actions)
    ensures DistinctThroughout(INITIAL, actions) <==> AlwaysFresh(INITIAL, actions)
  {
    DistinctThroughoutIff(INITIAL, actions);
  }

  /** From the start: as long as no base is exhausted, all ids in use are different and are just the ids in
      the table. */
  lemma IdsDifferFromTheStart(actions: seq<Action>)
    requires IsRun(INITIAL, actions) && NeverExhausted(INITIAL, actions)
    ensures var t := Run(INITIAL, actions); Distinct(t) && t.live == multiset(t.ids)
  {
    IdsStayDistinct(INITIAL, actions);
  }

  // ---------- exhausted bases ----------

  /** With its base exhausted, the same bare id is handed out again and again. */
  lemma ExhaustedBaseRepeats(s: State, base: string)
    requires !HasRoom(base, s.ids)
    ensures var a := Generate(base);
            var t := Step(Step(s, a), a);
            t.ids == s.ids && t.live == s.live + multiset{base, base} && !Distinct(t)
  {
    var t := Step(Step(s, Generate(base)), Generate(base));
    assert t.live[base] >= 2;
  }

  lemma {:induction false} RunAppend(s: State, first: seq<Action>, second: seq<Action>)
    requires IsRun(s, first) && IsRun(Run(s, first), second)
    ensures IsRun(s, first + second) && Run(s, first + second) == Run(Run(s, first), second)
    decreases |first|
  {
    if first == [] {
      assert first + second == second;
    } else {
      assert (first + second)[1..] == first[1..] + second;
      RunAppend(Step(s, first[0]), first[1..], second);
    }
  }

  lemma RunOfTwo(s: State, a: Action, b: Action)
    requires Enabled(s, a) && Enabled(Step(s, a), b)
    ensures IsRun(s, [a, b]) && Run(s, [a, b]) == Step(Step(s, a), b)
  {
    assert [a, b][1..] == [b];
    assert Run(Step(s, a), [b]) == Step(Step(s, a), b);
  }

  function Asking(base: string, n: nat): seq<Action> {
    if n == 0 then [] else Asking(base, n - 1) + [Generate(base)]
  }

  lemma FirstFreeIs(base: string, ids: set<string>, n: nat)
    requires n < MOST && Name(base, n) !in ids && (forall k | 0 <= k < n :: Name(base, k) in ids)
    ensures FirstFree(base, ids, 0) == n
  {
  }

  lemma NextOfBase(base: string, n: nat)
    requires n < MOST
    ensures Name(base, n) !in NamesBelow(base, n) && FirstFree(base, NamesBelow(base, n), 0) == n
    ensures NamesBelow(base, n + 1) == NamesBelow(base, n) + {Name(base, n)}
  {
    hide Name;
    forall k | 0 <= k < n ensures Name(base, k) != Name(base, n) {
      if Name(base, k) == Name(base, n) {
        NamesAreDistinct(base, k, base, n);
      }
    }
    assert forall k | 0 <= k < n :: Name(base, k) in NamesBelow(base, n);
    FirstFreeIs(base, NamesBelow(base, n), n);
  }

  lemma RunOfOne(s: State, a: Action)
    requires Enabled(s, a)
    ensures IsRun(s, [a]) && Run(s, [a]) == Step(s, a)
  {
  }

  /** The state after `n` requests for one base. */
  function Counted(base: string, n: nat): State
    requires n <= MOST
  {
    State(NamesBelow(base, n), multiset(NamesBelow(base, n)))
  }

  lemma CountOneMore(base: string, n: nat)
    requires n < MOST
    ensures Step(Counted(base, n), Generate(base)) == Counted(base, n + 1)
  {
    hide Name, NamesBelow;
    NextOfBase(base, n);
  }

  lemma NothingAsked(base: string)
    ensures IsRun(INITIAL, []) && Run(INITIAL, []) == Counted(base, 0)
  {
    assert NamesBelow(base, 0) == {};
  }

  /** From the empty table, the numbers of a base are handed out in order. */
  lemma {:induction false} AskingCounts(base: string, n: nat)
    requires n <= MOST
    ensures IsRun(INITIAL, Asking(base, n)) && Run(INITIAL, Asking(base, n)) == Counted(base, n)
  {
    hide Counted, Step, Run, IsRun;
    if n == 0 {
      NothingAsked(base);
    } else {
      AskingCounts(base, n - 1);
      CountOneMore(base, n - 1);
      RunOfOne(Counted(base, n - 1), Generate(base));
      RunAppend(INITIAL, Asking(base, n - 1), [Generate(base)]);
    }
  }

  lemma AllTaken(base: string)
    ensures !HasRoom(base, NamesBelow(base, MOST))
  {
    hide Name;
    assert forall k | 0 <= k < MOST :: Name(base, k) in NamesBelow(base, MOST);
  }

  /** A hundred requests from the start exhaust a base; two more hand out the same bare id. */
  lemma BareIdIsRepeated(base: string)
    ensures var actions := Asking(base, MOST) + [Generate(base), Generate(base)];
            IsRun(INITIAL, actions) && Run(INITIAL, actions).live[base] >= 2 && !Distinct(Run(INITIAL, actions))
  {
    AskingCounts(base, MOST);
    AllTaken(base);
    var s := Run(INITIAL, Asking(base, MOST));
    RunOfTwo(s, Generate(base), Generate(base));
    ExhaustedBaseRepeats(s, base);
    assert Run(s, [Generate(base), Generate(base)]).live[base] >= 2;
    hide Run, IsRun, Asking;
    RunAppend(INITIAL, Asking(base, MOST), [Generate(base), Generate(base)]);
  }

  lemma NamesOfAName(base: string, other: string, j: nat, k: nat)
    requires j < MOST && k < MOST && other == Name(base, 1)
    ensures Name(other, j) != Name(base, k) && Name(other, j) != other && Name(base, j) != base
  {
    if Name(other, j) == Name(base, k) {
      NamesAreDistinct(other, j, base, k);
    }
  }

  /** The exhausted base is the second name of another one: its bare id is the next that one hands out. */
  lemma BareIdIsNext(base: string, other: string, s: State, t: State)
    requires other == Name(base, 1)
    requires s == State(NamesBelow(other, MOST), multiset(NamesBelow(other, MOST)) + multiset{other})
    requires t == State(s.ids + {Name(base, 0)}, s.live + multiset{Name(base, 0)})
    ensures Step(Counted(other, MOST), Generate(other)) == s && Step(s, Generate(base)) == t
    ensures HasRoom(base, t.ids) && Generated(t, base) == other
    ensures Kept(t) && Bare(t) == {other}
    ensures LiveOf(base, t.live) == {Name(base, 0), other}
  {
    AllTaken(other);
    NamesAreDistinctBelow(base);
    hide Name;
    forall j, k | 0 <= j < MOST && 0 <= k < MOST
      ensures Name(other, j) != Name(base, k) && Name(other, j) != other
    {
      NamesOfAName(base, other, j, k);
    }
    FirstFreeIs(base, s.ids, 0);
    FirstFreeIs(base, t.ids, 1);
  }

  lemma NamesAreDistinctBelow(base: string)
    ensures forall j, k | 0 <= j < k < MOST :: Name(base, j) != Name(base, k)
  {
    hide Name;
    forall j, k | 0 <= j < k < MOST ensures Name(base, j) != Name(base, k) {
      if Name(base, j) == Name(base, k) {
        NamesAreDistinct(base, j, base, k);
      }
    }
  }

  /** Room is not enough once a bare id is in use. An exhausted base can be a name of another base; asking
      for that other one hands out the bare id again, although all but two of its numbers are free. */
  lemma BareIdIsFoundAgain(base: string)
    ensures var other := Name(base, 1);
            var before := Asking(other, MOST) + [Generate(other), Generate(base)];
            && IsRun(INITIAL, before)
            && var s := Run(INITIAL, before);
            && Kept(s) && Bare(s) == {other} && LiveOf(base, s.live) == {Name(base, 0), other}
            && HasRoom(base, s.ids) && Generated(s, base) == other && !Distinct(Step(s, Generate(base)))
  {
    var other := Name(base, 1);
    var s := State(NamesBelow(other, MOST), multiset(NamesBelow(other, MOST)) + multiset{other});
    var t := State(s.ids + {Name(base, 0)}, s.live + multiset{Name(base, 0)});
    BareIdIsNext(base, other, s, t);
    AskingCounts(other, MOST);
    hide Name, Counted, Kept, HasRoom, LiveOf;
    StepKeepsDistinctIff(t, Generate(base));
    FreshIsUnused(t, base);
    assert other in Bare(t);
    RunOfTwo(Counted(other, MOST), Generate(other), Generate(base));
    hide Run, IsRun, Step, Asking;
    RunAppend(INITIAL, Asking(other, MOST), [Generate(other), Generate(base)]);
  }

  /** A released id is available again: it is the next of its base, unless a lower number is free. */
  lemma ReleasedIdIsAvailable(s: State, base: string, n: nat)
    requires Inv(s) && n < MOST && Name(base, n) in s.live
    ensures var t := Step(s, Release(Name(base, n)));
            && HasRoom(base, t.ids)
            && (Generated(t, base) == Name(base, n) <==> n < FirstFree(base, s.ids, 0))
  {
    hide Name;
    var t := Step(s, Release(Name(base, n)));
    var before, after := FirstFree(base, s.ids, 0), FirstFree(base, t.ids, 0);
    assert Name(base, n) in s.ids && Name(base, n) !in t.ids;
    assert after <= n;
    forall k | 0 <= k < MOST && k != n ensures Name(base, k) in s.ids <==> Name(base, k) in t.ids {
      if Name(base, k) == Name(base, n) {
        NamesAreDistinct(base, k, base, n);
      }
    }
    if Generated(t, base) == Name(base, n) {
      NamesAreDistinct(base, after, base, n);
    }
  }

  // ---------- the table as an object ----------

  class Util {
    var currentIds: set<string>

    constructor ()
      ensures currentIds == {}
    {
      currentIds := {};
    }

    /** Runs under the mutex, so that calls of different threads do not overlap. */
    method GenerateUniqueId(id: string) returns (newId: string)
      modifies this
      ensures forall s: State | s.ids == old(currentIds) ::
                newId == Generated(s, id) && currentIds == Step(s, Generate(id)).ids
    {
      for i := 0 to MOST
        invariant currentIds == old(currentIds)
        invariant FirstFree(id, currentIds, 0) == FirstFree(id, currentIds, i)
      {
        newId := Name(id, i);
        if newId !in currentIds {
          currentIds := currentIds + {newId};
          return;
        }
      }
      return id;
    }

    method RemoveUniqueId(id: string)
      modifies this
      ensures currentIds == old(currentIds) - {id}
    {
      currentIds := currentIds - {id};
    }
  }
}
