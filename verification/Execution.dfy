/**
 What it means to execute a call sequence, and when the eligible calls in it may be moved to the front.
 Each program has a state of its own. What the states are and what the calls do to them is left open;
 a law says which calls may read the state of their program and which may reach other programs.
 */
module Execution {
  import opened Common
  import opened Sequences
  import opened Classifier
  import opened DependencyChecker

  datatype Call = Call(program: Pubkey, id: SyscallId, argsHash: ArgsHash)

  type Memory<S> = map<Pubkey, S>

  datatype Semantics<!S, +V> = Semantics(
    result: (Call, Memory<S>) -> V,
    next: (Call, Memory<S>) -> Memory<S>)

  datatype Outcome<+V> = Outcome(event: Event, value: V)

  function CallOf(e: Event): Call {
    Call(e.programId, e.syscallId, e.argsHash)
  }

  function StateOf<S>(m: Memory<S>, program: Pubkey): Option<S> {
    if program in m then Some(m[program]) else None
  }

  /** Which ids may read the state of their program, and which may read and write that of any program. */
  datatype Law = Law(mayRead: SyscallId -> bool, mayReach: SyscallId -> bool)

  /** The weakest law without side effects across programs. */
  function AnyCallReads(): Law {
    Law((id: SyscallId) => true, (id: SyscallId) => false)
  }

  /** The documented law: Idempotent calls are pure functions, OrderSensitive calls may affect other programs. */
  function DocumentedLaw(): Law {
    Law((id: SyscallId) => Classify(id) == ReadOnly, (id: SyscallId) => Classify(id) == OrderSensitive)
  }

  /** Eligible calls never reach other programs. */
  predicate Local(law: Law, id: SyscallId) {
    Eligible(id) || !law.mayReach(id)
  }

  /**
   Eligible calls do not write. Local calls depend on and change the state of their own program only.
   The result of an eligible call that does not read depends on nothing but the id and argument hash.
   */
  ghost predicate Lawful<S(!new), V>(sem: Semantics<S, V>, law: Law) {
    && (forall c: Call, m: Memory<S> :: Eligible(c.id) ==> sem.next(c, m) == m)
    && (forall c: Call, m: Memory<S>, p: Pubkey :: Local(law, c.id) && p != c.program ==>
          StateOf(sem.next(c, m), p) == StateOf(m, p))
    && (forall c: Call, m: Memory<S>, m': Memory<S> ::
          Local(law, c.id) && StateOf(m, c.program) == StateOf(m', c.program) ==>
            && sem.result(c, m) == sem.result(c, m')
            && StateOf(sem.next(c, m), c.program) == StateOf(sem.next(c, m'), c.program))
    && (forall c: Call, c': Call, m: Memory<S>, m': Memory<S> ::
          Eligible(c.id) && !law.mayRead(c.id) && c.id == c'.id && c.argsHash == c'.argsHash ==>
            sem.result(c, m) == sem.result(c', m'))
  }

  ghost function Value<S, V>(sem: Semantics<S, V>, m: Memory<S>, e: Event): V {
    sem.result(CallOf(e), m)
  }

  ghost function Perform<S, V>(sem: Semantics<S, V>, m: Memory<S>, e: Event): Memory<S> {
    sem.next(CallOf(e), m)
  }

  ghost function Trace<S, V>(sem: Semantics<S, V>, m: Memory<S>, s: seq<Event>): seq<Outcome<V>>
    decreases |s|
  {
    if s == [] then [] else [Outcome(s[0], Value(sem, m, s[0]))] + Trace(sem, Perform(sem, m, s[0]), s[1..])
  }

  ghost function Final<S, V>(sem: Semantics<S, V>, m: Memory<S>, s: seq<Event>): Memory<S>
    decreases |s|
  {
    if s == [] then m else Final(sem, Perform(sem, m, s[0]), s[1..])
  }

  lemma {:induction false} ExecuteConcat<S, V>(sem: Semantics<S, V>, m: Memory<S>, a: seq<Event>, b: seq<Event>)
    ensures Trace(sem, m, a + b) == Trace(sem, m, a) + Trace(sem, Final(sem, m, a), b)
    ensures Final(sem, m, a + b) == Final(sem, Final(sem, m, a), b)
    decreases |a|
  {
    if a == [] {
      assert a + b == b;
    } else {
      assert (a + b)[1..] == a[1..] + b;
      ExecuteConcat(sem, Perform(sem, m, a[0]), a[1..], b);
    }
  }

  /** May the call change the state of this program? */
  predicate Disturbs(law: Law, e: Event, program: Pubkey) {
    !Eligible(e.syscallId) && (e.programId == program || law.mayReach(e.syscallId))
  }

  lemma StateKept<S(!new), V>(sem: Semantics<S, V>, law: Law, m: Memory<S>, e: Event, program: Pubkey)
    requires Lawful(sem, law) && !Disturbs(law, e, program)
    ensures StateOf(Perform(sem, m, e), program) == StateOf(m, program)
    ensures Eligible(e.syscallId) ==> Perform(sem, m, e) == m
  {}

  /** Two memories give an eligible call one value if it does not read or its program has one state in both. */
  lemma ValueKept<S(!new), V>(sem: Semantics<S, V>, law: Law, m: Memory<S>, m': Memory<S>, e: Event)
    requires Lawful(sem, law) && Eligible(e.syscallId)
    requires law.mayRead(e.syscallId) ==> StateOf(m, e.programId) == StateOf(m', e.programId)
    ensures Value(sem, m, e) == Value(sem, m', e)
  {}

  /** Eligible calls leave the memory alone, and only the readers see anything: the states of their own programs. */
  lemma {:induction false} ExecuteEligible<S(!new), V>(
    sem: Semantics<S, V>, law: Law, m: Memory<S>, m': Memory<S>, s: seq<Event>)
    requires Lawful(sem, law)
    requires forall e :: e in s ==> Eligible(e.syscallId)
    requires forall e :: e in s && law.mayRead(e.syscallId) ==> StateOf(m, e.programId) == StateOf(m', e.programId)
    ensures Final(sem, m, s) == m
    ensures Trace(sem, m, s) == Trace(sem, m', s)
    decreases |s|
  {
    hide Lawful;
    if s != [] {
      StateKept(sem, law, m, s[0], s[0].programId);
      StateKept(sem, law, m', s[0], s[0].programId);
      ValueKept(sem, law, m, m', s[0]);
      ExecuteEligible(sem, law, m, m', s[1..]);
    }
  }

  // ---- Moving the eligible calls to the front -----------------------------------------------------

  function Select(s: seq<Event>, eligible: bool): seq<Event> {
    if s == [] then [] else
    var rest := Select(s[1..], eligible);
    if Eligible(s[0].syscallId) == eligible then [s[0]] + rest else rest
  }

  function SelectOutcomes<V>(t: seq<Outcome<V>>, eligible: bool): seq<Outcome<V>> {
    if t == [] then [] else
    var rest := SelectOutcomes(t[1..], eligible);
    if Eligible(t[0].event.syscallId) == eligible then [t[0]] + rest else rest
  }

  /** The eligible calls before all others, each group in its original order. */
  function Hoist(s: seq<Event>): seq<Event> {
    Select(s, true) + Select(s, false)
  }

  /** Hoisting changes no return value, event by event, and not the final memory. */
  ghost predicate HoistingIsSafe<S, V>(sem: Semantics<S, V>, m: Memory<S>, s: seq<Event>) {
    var t := Trace(sem, m, s);
    && Trace(sem, m, Hoist(s)) == SelectOutcomes(t, true) + SelectOutcomes(t, false)
    && Final(sem, m, Hoist(s)) == Final(sem, m, s)
  }

  lemma {:induction false} SelectMembers(s: seq<Event>, eligible: bool)
    ensures forall e :: e in Select(s, eligible) <==> e in s && Eligible(e.syscallId) == eligible
  {
    if s != [] {
      SelectMembers(s[1..], eligible);
      assert s == [s[0]] + s[1..];
    }
  }

  /** A call that may write keeps its place ahead of hoisted calls that it does not disturb. */
  lemma HoistPastWriter<S(!new), V>(sem: Semantics<S, V>, law: Law, m: Memory<S>, e: Event, rest: seq<Event>)
    requires Lawful(sem, law) && !Eligible(e.syscallId)
    requires forall x :: x in rest && Eligible(x.syscallId) && law.mayRead(x.syscallId) ==>
               !Disturbs(law, e, x.programId)
    requires HoistingIsSafe(sem, Perform(sem, m, e), rest)
    ensures HoistingIsSafe(sem, m, [e] + rest)
  {
    hide Lawful;
    var m' := Perform(sem, m, e);
    var front, back := Select(rest, true), Select(rest, false);
    SelectMembers(rest, true);
    forall x | x in front && law.mayRead(x.syscallId) ensures StateOf(m, x.programId) == StateOf(m', x.programId) {
      StateKept(sem, law, m, e, x.programId);
    }
    // The hoisted calls give what they would give if e had not run yet.
    ExecuteEligible(sem, law, m, m', front);
    ExecuteEligible(sem, law, m', m', front);
    ExecuteConcat(sem, m', front, back);
    ExecuteConcat(sem, m, front, [e] + back);
    assert ([e] + rest)[1..] == rest && ([e] + back)[1..] == back;
    var t' := Trace(sem, m', rest);
    var o := Outcome(e, Value(sem, m, e));
    assert Trace(sem, m, [e] + rest) == [o] + t' && ([o] + t')[1..] == t';
    TraceEvents(sem, m', rest);
    SelectedEvents(t', rest);
    TraceEvents(sem, m', front);
    PrefixEqual(Trace(sem, m', front), Trace(sem, m', back), SelectOutcomes(t', true), SelectOutcomes(t', false));
    assert Trace(sem, m, [e] + back) == [o] + Trace(sem, m', back);
  }

  lemma TraceCons<S, V>(sem: Semantics<S, V>, m: Memory<S>, e: Event, rest: seq<Event>)
    ensures Trace(sem, m, [e] + rest) == [Outcome(e, Value(sem, m, e))] + Trace(sem, Perform(sem, m, e), rest)
    ensures Final(sem, m, [e] + rest) == Final(sem, Perform(sem, m, e), rest)
  {
    assert ([e] + rest)[1..] == rest;
  }

  lemma SelectOutcomesCons<V>(o: Outcome<V>, t: seq<Outcome<V>>, eligible: bool)
    ensures SelectOutcomes([o] + t, eligible) ==
            (if Eligible(o.event.syscallId) == eligible then [o] else []) + SelectOutcomes(t, eligible)
  {
    assert ([o] + t)[1..] == t;
  }

  lemma HoistPastEligible<S(!new), V>(sem: Semantics<S, V>, law: Law, m: Memory<S>, e: Event, rest: seq<Event>)
    requires Lawful(sem, law) && Eligible(e.syscallId) && HoistingIsSafe(sem, m, rest)
    ensures HoistingIsSafe(sem, m, [e] + rest)
  {
    HoistCons(e, rest);
    StateKept(sem, law, m, e, e.programId);
    hide Lawful, Trace, Final, Value, Perform, SelectOutcomes, Hoist;
    var o, t := Outcome(e, Value(sem, m, e)), Trace(sem, m, rest);
    TraceCons(sem, m, e, rest);
    TraceCons(sem, m, e, Hoist(rest));
    SelectOutcomesCons(o, t, true);
    SelectOutcomesCons(o, t, false);
    ConsConcat(o, SelectOutcomes(t, true), SelectOutcomes(t, false));
  }

  lemma ConsConcat<T>(x: T, a: seq<T>, b: seq<T>)
    ensures ([x] + a) + ([] + b) == [x] + (a + b)
  {}

  lemma HoistCons(e: Event, rest: seq<Event>)
    requires Eligible(e.syscallId)
    ensures Hoist([e] + rest) == [e] + Hoist(rest)
  {
    assert ([e] + rest)[1..] == rest;
    ConsConcat(e, Select(rest, true), Select(rest, false));
  }

  /** The call at i may disturb the eligible call at j, which reads. */
  predicate DependsUnder(law: Law, s: seq<Event>, i: int, j: int) {
    && 0 <= i < j < |s| && Disturbs(law, s[i], s[j].programId)
    && Eligible(s[j].syscallId) && law.mayRead(s[j].syscallId)
  }

  ghost predicate DependsInto(law: Law, s: seq<Event>) {
    exists i, j :: DependsUnder(law, s, i, j)
  }

  lemma DependsIntoCons(law: Law, s: seq<Event>)
    requires s != [] && !DependsInto(law, s)
    ensures !DependsInto(law, s[1..])
    ensures forall x :: x in s[1..] && Eligible(x.syscallId) && law.mayRead(x.syscallId) ==>
              !Disturbs(law, s[0], x.programId)
  {
    forall i, j ensures !DependsUnder(law, s[1..], i, j) {
      assert !DependsUnder(law, s, i + 1, j + 1);
    }
    forall x | x in s[1..] && Eligible(x.syscallId) && law.mayRead(x.syscallId)
      ensures !Disturbs(law, s[0], x.programId)
    {
      var j :| 0 <= j < |s[1..]| && s[1..][j] == x;
      assert !DependsUnder(law, s, 0, j + 1);
    }
  }

  /** A sequence without dependencies may be hoisted. */
  lemma {:induction false} HoistingSound<S(!new), V>(sem: Semantics<S, V>, law: Law, m: Memory<S>, s: seq<Event>)
    requires Lawful(sem, law) && !DependsInto(law, s)
    ensures HoistingIsSafe(sem, m, s)
    decreases |s|
  {
    hide Lawful, DependsInto;
    if s != [] {
      DependsIntoCons(law, s);
      HoistingSound(sem, law, Perform(sem, m, s[0]), s[1..]);
      assert s == [s[0]] + s[1..];
      if Eligible(s[0].syscallId) {
        StateKept(sem, law, m, s[0], s[0].programId);
        HoistPastEligible(sem, law, m, s[0], s[1..]);
      } else {
        HoistPastWriter(sem, law, m, s[0], s[1..]);
      }
    }
  }

  // ---- A semantics that gives itself away ---------------------------------------------------------

  /** What a call returns: its program and how often that program's state has been written. */
  type Reading = Option<(Pubkey, nat)>

  function Count(m: Memory<nat>, program: Pubkey): nat {
    if program in m then m[program] else 0
  }

  function Marks(m: Memory<nat>, written: set<Pubkey>): Memory<nat> {
    map p | p in m.Keys + written :: Count(m, p) + if p in written then 1 else 0
  }

  /** The programs among `programs`, and its own, that the call may write. */
  function Written(law: Law, programs: set<Pubkey>, c: Call): set<Pubkey> {
    if Eligible(c.id) then {} else if law.mayReach(c.id) then programs + {c.program} else {c.program}
  }

  /** Whatever a call may write it counts, and whatever reads or writes returns the count of its program. */
  function Tally(law: Law, programs: set<Pubkey>): Semantics<nat, Reading> {
    Semantics(
      (c: Call, m: Memory<nat>) =>
        if Eligible(c.id) && !law.mayRead(c.id) then None else Some((c.program, Count(m, c.program))),
      (c: Call, m: Memory<nat>) => Marks(m, Written(law, programs, c)))
  }

  lemma MarksCount(m: Memory<nat>, written: set<Pubkey>, p: Pubkey)
    ensures Count(Marks(m, written), p) == Count(m, p) + if p in written then 1 else 0
    ensures p !in written ==> StateOf(Marks(m, written), p) == StateOf(m, p)
    ensures p in written ==> StateOf(Marks(m, written), p) == Some(Count(m, p) + 1)
    ensures Marks(m, {}) == m
  {}

  lemma TallyLawful(law: Law, programs: set<Pubkey>)
    ensures Lawful(Tally(law, programs), law)
  {
    hide Marks, Count;
    var sem := Tally(law, programs);
    forall c: Call, m: Memory<nat> | Eligible(c.id) ensures sem.next(c, m) == m {
      MarksCount(m, {}, c.program);
      assert Written(law, programs, c) == {};
    }
    forall c: Call, m: Memory<nat>, p: Pubkey | Local(law, c.id) && p != c.program
      ensures StateOf(sem.next(c, m), p) == StateOf(m, p)
    {
      MarksCount(m, Written(law, programs, c), p);
    }
    forall c: Call, m: Memory<nat>, m': Memory<nat> |
      Local(law, c.id) && StateOf(m, c.program) == StateOf(m', c.program)
      ensures sem.result(c, m) == sem.result(c, m')
      ensures StateOf(sem.next(c, m), c.program) == StateOf(sem.next(c, m'), c.program)
    {
      CountIsState(m, c.program);
      CountIsState(m', c.program);
      MarksCount(m, Written(law, programs, c), c.program);
      MarksCount(m', Written(law, programs, c), c.program);
    }
  }

  lemma CountIsState(m: Memory<nat>, p: Pubkey)
    ensures Count(m, p) == match StateOf(m, p) case Some(n) => n case None => 0
  {}

  /** What an execution step does to a program's count. */
  lemma TallyStep(law: Law, programs: set<Pubkey>, m: Memory<nat>, e: Event, p: Pubkey)
    ensures Count(Perform(Tally(law, programs), m, e), p) >= Count(m, p)
    ensures p in programs ==>
              Count(Perform(Tally(law, programs), m, e), p) == Count(m, p) + if Disturbs(law, e, p) then 1 else 0
    ensures Eligible(e.syscallId) ==> Perform(Tally(law, programs), m, e) == m
  {
    MarksCount(m, Written(law, programs, CallOf(e)), p);
  }

  function Programs(s: seq<Event>): set<Pubkey> {
    set e | e in s :: e.programId
  }

  predicate Positive(value: Reading) {
    value.Some? && value.value.1 > 0
  }

  /** After a dependency, the reader's value shows that its program has been written. */
  lemma {:induction false} DependentReadCounts(
    law: Law, programs: set<Pubkey>, m: Memory<nat>, s: seq<Event>, i: int, j: int)
    requires DependsUnder(law, s, i, j) && s[j].programId in programs
    ensures exists o :: o in SelectOutcomes(Trace(Tally(law, programs), m, s), true) && Positive(o.value)
    decreases |s|
  {
    hide Tally, Count;
    var sem := Tally(law, programs);
    var m', t := Perform(sem, m, s[0]), Trace(sem, m, s);
    assert t[1..] == Trace(sem, m', s[1..]);
    if i > 0 {
      DependentReadCounts(law, programs, m', s[1..], i - 1, j - 1);
    } else {
      TallyStep(law, programs, m, s[0], s[j].programId);
      ReadAfterWriteCounts(law, programs, m', s[1..], j - 1);
    }
  }

  lemma {:induction false} ReadAfterWriteCounts(
    law: Law, programs: set<Pubkey>, m: Memory<nat>, s: seq<Event>, j: int)
    requires 0 <= j < |s| && Eligible(s[j].syscallId) && law.mayRead(s[j].syscallId) && Count(m, s[j].programId) > 0
    ensures exists o :: o in SelectOutcomes(Trace(Tally(law, programs), m, s), true) && Positive(o.value)
    decreases |s|
  {
    hide Marks, Written, Count;
    var sem := Tally(law, programs);
    var m', t := Perform(sem, m, s[0]), Trace(sem, m, s);
    assert t[1..] == Trace(sem, m', s[1..]);
    if j > 0 {
      TallyStep(law, programs, m, s[0], s[j].programId);
      ReadAfterWriteCounts(law, programs, m', s[1..], j - 1);
    } else {
      assert t[0] in SelectOutcomes(t, true);
    }
  }

  lemma {:induction false} EligibleCountsStayZero(law: Law, programs: set<Pubkey>, s: seq<Event>)
    requires forall e :: e in s ==> Eligible(e.syscallId)
    ensures forall o :: o in Trace(Tally(law, programs), map[], s) ==> !Positive(o.value)
    decreases |s|
  {
    if s != [] {
      TallyStep(law, programs, map[], s[0], s[0].programId);
      EligibleCountsStayZero(law, programs, s[1..]);
    }
  }

  lemma {:induction false} SelectedEvents<V>(t: seq<Outcome<V>>, s: seq<Event>)
    requires |t| == |s| && forall i :: 0 <= i < |s| ==> t[i].event == s[i]
    ensures |SelectOutcomes(t, true)| == |Select(s, true)|
  {
    if s != [] {
      SelectedEvents(t[1..], s[1..]);
    }
  }

  lemma {:induction false} TraceEvents<S, V>(sem: Semantics<S, V>, m: Memory<S>, s: seq<Event>)
    ensures |Trace(sem, m, s)| == |s| && forall i :: 0 <= i < |s| ==> Trace(sem, m, s)[i].event == s[i]
    decreases |s|
  {
    if s != [] {
      TraceEvents(sem, Perform(sem, m, s[0]), s[1..]);
    }
  }

  /** With a dependency, some lawful semantics notices the hoisting. */
  lemma HoistingComplete(law: Law, s: seq<Event>)
    requires DependsInto(law, s)
    ensures exists sem: Semantics<nat, Reading> :: Lawful(sem, law) && !HoistingIsSafe(sem, map[], s)
  {
    hide Tally, Lawful;
    var sem := Tally(law, Programs(s));
    TallyLawful(law, Programs(s));
    var i, j :| DependsUnder(law, s, i, j);
    var t := Trace(sem, map[], s);
    var front, back := Select(s, true), Select(s, false);
    DependentReadCounts(law, Programs(s), map[], s, i, j);
    SelectMembers(s, true);
    EligibleCountsStayZero(law, Programs(s), front);
    ExecuteConcat(sem, map[], front, back);
    TraceEvents(sem, map[], s);
    SelectedEvents(t, s);
    TraceEvents(sem, map[], front);
    assert SelectOutcomes(t, true) != Trace(sem, map[], front);
    PrefixEqual(SelectOutcomes(t, true), SelectOutcomes(t, false),
                Trace(sem, map[], front), Trace(sem, Final(sem, map[], front), back));
    assert !HoistingIsSafe(sem, map[], s);
  }

  // ---- The check is exact -------------------------------------------------------------------------

  /** Hoisting is unnoticeable to every lawful semantics. */
  ghost predicate AlwaysHoistable(law: Law, s: seq<Event>) {
    forall sem: Semantics<nat, Reading>, m: Memory<nat> :: Lawful(sem, law) ==> HoistingIsSafe(sem, m, s)
  }

  /** Whatever reads and whatever reaches: hoisting is always unnoticeable exactly without dependencies. */
  lemma HoistingExact(law: Law, s: seq<Event>)
    ensures AlwaysHoistable(law, s) <==> !DependsInto(law, s)
  {
    hide Lawful, HoistingIsSafe, DependsInto;
    if DependsInto(law, s) {
      HoistingComplete(law, s);
    } else {
      forall sem: Semantics<nat, Reading>, m: Memory<nat> | Lawful(sem, law) ensures HoistingIsSafe(sem, m, s) {
        HoistingSound(sem, law, m, s);
      }
    }
  }

  /** A call that may reach other programs, followed by an eligible call of another program. */
  predicate ReachesAcross(law: Law, s: seq<Event>) {
    exists i, j | 0 <= i < |s| && 0 <= j < |s| ::
      && i < j && !Eligible(s[i].syscallId) && law.mayReach(s[i].syscallId)
      && Eligible(s[j].syscallId) && s[i].programId != s[j].programId
  }

  /**
   If any call may read, the check finds all there is to find except calls that reach the reader from
   another program.
   */
  lemma DependencyCheckMisses(law: Law, s: seq<Event>)
    requires forall id: SyscallId :: law.mayRead(id)
    ensures AlwaysHoistable(law, s) <==> !HasDependencies(s) && !ReachesAcross(law, s)
  {
    hide AlwaysHoistable;
    HoistingExact(law, s);
    if DependsInto(law, s) {
      var i, j :| DependsUnder(law, s, i, j);
      assert Depends(s, i, j) || s[i].programId != s[j].programId;
    }
    if HasDependencies(s) {
      var i, j :| 0 <= i < |s| && 0 <= j < |s| && Depends(s, i, j);
      assert DependsUnder(law, s, i, j);
    }
    if ReachesAcross(law, s) {
      var i, j :| && 0 <= i < |s| && 0 <= j < |s| && i < j && !Eligible(s[i].syscallId) && law.mayReach(s[i].syscallId)
                  && Eligible(s[j].syscallId) && s[i].programId != s[j].programId;
      assert DependsUnder(law, s, i, j);
    }
  }

  /** So without side effects across programs the check is exact. */
  lemma DependencyCheckExact(s: seq<Event>)
    ensures AlwaysHoistable(AnyCallReads(), s) <==> !HasDependencies(s)
  {
    DependencyCheckMisses(AnyCallReads(), s);
  }

  /**
   Under the documented law only ReadOnly calls matter, and those of other programs too where an
   OrderSensitive call precedes them: there the check is over-cautious in one respect and misses another.
   */
  lemma DocumentedHoistingExact(s: seq<Event>)
    ensures AlwaysHoistable(DocumentedLaw(), s) <==>
            forall i, j :: 0 <= i < j < |s| && !Eligible(s[i].syscallId) && Classify(s[j].syscallId) == ReadOnly ==>
              s[i].programId != s[j].programId && Classify(s[i].syscallId) != OrderSensitive
  {
    hide AlwaysHoistable;
    HoistingExact(DocumentedLaw(), s);
    assert forall i, j :: DependsUnder(DocumentedLaw(), s, i, j) <==>
      && 0 <= i < j < |s| && !Eligible(s[i].syscallId) && Classify(s[j].syscallId) == ReadOnly
      && (s[i].programId == s[j].programId || Classify(s[i].syscallId) == OrderSensitive);
  }
}
