/** Executing the calls of a sequence in another order: what the validator approves, and what would be safe. */
module Reordering {
  import opened Common
  import opened Sequences
  import opened Classifier
  import opened Validator
  import opened Execution

  ghost function OutcomesAt<S, V>(sem: Semantics<S, V>, m: Memory<S>, s: seq<Event>): seq<Outcome<V>> {
    if s == [] then [] else [Outcome(s[0], Value(sem, m, s[0]))] + OutcomesAt(sem, m, s[1..])
  }

  lemma {:induction false} EligibleOutcomes<S(!new), V>(
    sem: Semantics<S, V>, law: Law, m: Memory<S>, s: seq<Event>)
    requires Lawful(sem, law) && forall e :: e in s ==> Eligible(e.syscallId)
    ensures Trace(sem, m, s) == OutcomesAt(sem, m, s) && Final(sem, m, s) == m
    decreases |s|
  {
    if s != [] {
      StateKept(sem, law, m, s[0], s[0].programId);
      EligibleOutcomes(sem, law, m, s[1..]);
    }
  }

  lemma {:induction false} OutcomesAtConcat<S, V>(sem: Semantics<S, V>, m: Memory<S>, a: seq<Event>, b: seq<Event>)
    ensures OutcomesAt(sem, m, a + b) == OutcomesAt(sem, m, a) + OutcomesAt(sem, m, b)
  {
    if a == [] {
      assert a + b == b;
    } else {
      assert (a + b)[1..] == a[1..] + b;
      OutcomesAtConcat(sem, m, a[1..], b);
    }
  }

  lemma {:induction false} OutcomesAtPermuted<S, V>(sem: Semantics<S, V>, m: Memory<S>, s: seq<Event>, s': seq<Event>)
    requires multiset(s) == multiset(s')
    ensures multiset(OutcomesAt(sem, m, s)) == multiset(OutcomesAt(sem, m, s'))
    decreases |s|
  {
    if s == [] {
      assert |s'| == |multiset(s')| == 0;
    } else {
      assert s[0] in multiset(s');
      var i :| 0 <= i < |s'| && s'[i] == s[0];
      var a, b := s'[..i], s'[i + 1..];
      assert s == [s[0]] + s[1..] && s' == a + ([s[0]] + b);
      SameWithout(s[0], s[1..], a, b);
      OutcomesAtPermuted(sem, m, s[1..], a + b);
      OutcomesAtConcat(sem, m, a, b);
      OutcomesAtConcat(sem, m, a, [s[0]] + b);
      assert ([s[0]] + b)[1..] == b;
      SameWithout(Outcome(s[0], Value(sem, m, s[0])), OutcomesAt(sem, m, s[1..]),
                  OutcomesAt(sem, m, a), OutcomesAt(sem, m, b));
    }
  }

  /**
   An approved reordering: every permutation ends in the same memory and gives each event the same
   result, namely the one it would have had as the first call.
   */
  lemma ReorderApprovalIsSafe<S(!new), V>(
    v: SafetyValidator, sem: Semantics<S, V>, law: Law, m: Memory<S>, s: seq<Event>, s': seq<Event>)
    requires Lawful(sem, law) && v.ValidateReorder(s).approved && multiset(s) == multiset(s')
    ensures Final(sem, m, s') == Final(sem, m, s)
    ensures multiset(Trace(sem, m, s')) == multiset(Trace(sem, m, s))
    ensures Trace(sem, m, s') == OutcomesAt(sem, m, s')
  {
    ReorderApproval(v, s);
    forall e | e in s' ensures Eligible(e.syscallId) {
      assert e in multiset(s');
    }
    EligibleOutcomes(sem, law, m, s);
    EligibleOutcomes(sem, law, m, s');
    OutcomesAtPermuted(sem, m, s, s');
  }

  // ---- When reordering is safe ----------------------------------------------------------------------

  /** Same final memory, and the same value for each event. */
  ghost predicate Unnoticed<S, V>(sem: Semantics<S, V>, m: Memory<S>, s: seq<Event>, s': seq<Event>) {
    Final(sem, m, s) == Final(sem, m, s') && multiset(Trace(sem, m, s)) == multiset(Trace(sem, m, s'))
  }

  /** May e make a difference to f? */
  predicate Interferes(law: Law, e: Event, f: Event) {
    Disturbs(law, e, f.programId) && (Eligible(f.syscallId) ==> law.mayRead(f.syscallId))
  }

  /** No event makes a difference to a different one. */
  ghost predicate Independent(law: Law, s: seq<Event>) {
    forall e, f :: e in s && f in s && e != f ==> !Interferes(law, e, f)
  }

  lemma SameStates<S>(m: Memory<S>, m': Memory<S>)
    requires forall p: Pubkey :: StateOf(m, p) == StateOf(m', p)
    ensures m == m'
  {
    forall p: Pubkey ensures p in m <==> p in m' {
      assert StateOf(m, p) == StateOf(m', p);
    }
    forall p: Pubkey | p in m ensures m[p] == m'[p] {
      assert StateOf(m, p) == StateOf(m', p);
    }
  }

  lemma ValueUnaffected<S(!new), V>(sem: Semantics<S, V>, law: Law, m: Memory<S>, e: Event, f: Event)
    requires Lawful(sem, law) && !Interferes(law, e, f) && !Interferes(law, f, e)
    ensures Value(sem, Perform(sem, m, e), f) == Value(sem, m, f)
  {
    if Eligible(f.syscallId) {
      if law.mayRead(f.syscallId) {
        StateKept(sem, law, m, e, f.programId);
      }
      ValueKept(sem, law, m, Perform(sem, m, e), f);
    } else {
      StateKept(sem, law, m, e, f.programId);
    }
  }

  lemma Commute<S(!new), V>(sem: Semantics<S, V>, law: Law, m: Memory<S>, e: Event, f: Event)
    requires Lawful(sem, law) && !Interferes(law, e, f) && !Interferes(law, f, e)
    ensures Perform(sem, Perform(sem, m, e), f) == Perform(sem, Perform(sem, m, f), e)
  {
    if !Eligible(e.syscallId) && !Eligible(f.syscallId) {
      var ef, fe := Perform(sem, Perform(sem, m, e), f), Perform(sem, Perform(sem, m, f), e);
      forall p: Pubkey ensures StateOf(ef, p) == StateOf(fe, p) {
        StateKept(sem, law, m, e, f.programId);
        StateKept(sem, law, m, f, e.programId);
        if p != e.programId {
          StateKept(sem, law, m, e, p);
          StateKept(sem, law, Perform(sem, m, f), e, p);
        }
        if p != f.programId {
          StateKept(sem, law, m, f, p);
          StateKept(sem, law, Perform(sem, m, e), f, p);
        }
      }
      SameStates(ef, fe);
    }
  }

  lemma UnnoticedCons<S, V>(sem: Semantics<S, V>, m: Memory<S>, x: Event, s: seq<Event>, s': seq<Event>)
    requires Unnoticed(sem, Perform(sem, m, x), s, s')
    ensures Unnoticed(sem, m, [x] + s, [x] + s')
  {
    assert ([x] + s)[1..] == s && ([x] + s')[1..] == s';
    var o, m' := Outcome(x, Value(sem, m, x)), Perform(sem, m, x);
    assert Trace(sem, m, [x] + s) == [o] + Trace(sem, m', s);
    assert Trace(sem, m, [x] + s') == [o] + Trace(sem, m', s');
  }

  lemma SwapFirst<S(!new), V>(sem: Semantics<S, V>, law: Law, m: Memory<S>, x: Event, y: Event, s: seq<Event>)
    requires Lawful(sem, law) && !Interferes(law, x, y) && !Interferes(law, y, x)
    ensures Unnoticed(sem, m, [x] + ([y] + s), [y] + ([x] + s))
  {
    Commute(sem, law, m, x, y);
    ValueUnaffected(sem, law, m, x, y);
    ValueUnaffected(sem, law, m, y, x);
    hide Lawful, Interferes;
    TraceTwo(sem, m, x, y, s);
    TraceTwo(sem, m, y, x, s);
    SwapPair(Outcome(x, Value(sem, m, x)), Outcome(y, Value(sem, m, y)),
             Trace(sem, Perform(sem, Perform(sem, m, x), y), s));
  }

  lemma TraceTwo<S, V>(sem: Semantics<S, V>, m: Memory<S>, x: Event, y: Event, s: seq<Event>)
    ensures var m1 := Perform(sem, m, x);
            var m2 := Perform(sem, m1, y);
            && Trace(sem, m, [x] + ([y] + s)) ==
               [Outcome(x, Value(sem, m, x)), Outcome(y, Value(sem, m1, y))] + Trace(sem, m2, s)
            && Final(sem, m, [x] + ([y] + s)) == Final(sem, m2, s)
  {
    assert ([x] + ([y] + s))[1..] == [y] + s && ([y] + s)[1..] == s;
    assert Final(sem, Perform(sem, m, x), [y] + s) == Final(sem, Perform(sem, Perform(sem, m, x), y), s);
  }

  /** An event may be moved to the front past events that are independent of it. */
  lemma {:induction false} MoveToFront<S(!new), V>(
    sem: Semantics<S, V>, law: Law, m: Memory<S>, a: seq<Event>, x: Event, b: seq<Event>)
    requires Lawful(sem, law) && forall y :: y in a ==> !Interferes(law, x, y) && !Interferes(law, y, x)
    ensures Unnoticed(sem, m, a + ([x] + b), [x] + (a + b))
    decreases |a|
  {
    hide Lawful, Interferes, Trace, Final;
    if a == [] {
      assert a + ([x] + b) == [x] + (a + b);
    } else {
      var y, rest := a[0], a[1..];
      MoveToFront(sem, law, Perform(sem, m, y), rest, x, b);
      UnnoticedCons(sem, m, y, rest + ([x] + b), [x] + (rest + b));
      SwapFirst(sem, law, m, y, x, rest + b);
      assert a + ([x] + b) == [y] + (rest + ([x] + b)) && a + b == [y] + (rest + b);
    }
  }

  /** If no event interferes with a different one, every permutation is unnoticeable. */
  lemma {:induction false} ReorderSound<S(!new), V>(
    sem: Semantics<S, V>, law: Law, m: Memory<S>, s: seq<Event>, s': seq<Event>)
    requires Lawful(sem, law) && Independent(law, s) && multiset(s) == multiset(s')
    ensures Unnoticed(sem, m, s, s')
    decreases |s|
  {
    hide Lawful, Interferes, Trace, Final;
    if s == [] {
      assert |s'| == |multiset(s')| == 0;
    } else {
      var x, rest := s[0], s[1..];
      var a, b := FirstOccurrence(s', s);
      assert s == [x] + rest;
      SameWithout(x, rest, a, b);
      ReorderSound(sem, law, Perform(sem, m, x), rest, a + b);
      UnnoticedCons(sem, m, x, rest, a + b);
      forall y | y in a ensures !Interferes(law, x, y) && !Interferes(law, y, x) {
        assert y in s' && y in multiset(s');
      }
      MoveToFront(sem, law, m, a, x, b);
    }
  }

  lemma FirstOccurrence(s': seq<Event>, s: seq<Event>) returns (a: seq<Event>, b: seq<Event>)
    requires s != [] && multiset(s) == multiset(s')
    ensures s' == a + ([s[0]] + b) && s[0] !in a
  {
    assert s[0] in multiset(s');
    a, b := SplitAtFirst(s', s[0]);
  }

  /** Two different events brought to the front, in either order. */
  lemma BringToFront(s: seq<Event>, e: Event, f: Event) returns (rest: seq<Event>)
    requires e in s && f in s && e != f
    ensures multiset([e] + ([f] + rest)) == multiset(s) == multiset([f] + ([e] + rest))
  {
    var a, b := SplitAtFirst(s, e);
    var c, d := SplitAtFirst(a + b, f);
    rest := c + d;
    SameWithout(e, [f] + rest, a, b);
    SameWithout(f, rest, c, d);
    assert multiset([e] + ([f] + rest)) == multiset{e, f} + multiset(rest) == multiset([f] + ([e] + rest));
  }

  /** Under the tally, the order of two writes cannot be seen in the memory. */
  lemma MarksCommute(m: Memory<nat>, a: set<Pubkey>, b: set<Pubkey>)
    ensures Marks(Marks(m, a), b) == Marks(Marks(m, b), a)
  {}

  /** If one event interferes with a different one, the tally tells the two orders apart. */
  lemma TallyNotices(law: Law, programs: set<Pubkey>, e: Event, f: Event, rest: seq<Event>)
    requires e != f && Interferes(law, e, f) && f.programId in programs
    ensures !Unnoticed(Tally(law, programs), map[], [e] + ([f] + rest), [f] + ([e] + rest))
  {
    var sem, m := Tally(law, programs), map[];
    var me, mf := Perform(sem, m, e), Perform(sem, m, f);
    MarksCommute(m, Written(law, programs, CallOf(e)), Written(law, programs, CallOf(f)));
    TallyStep(law, programs, m, e, f.programId);
    TraceTwo(sem, m, e, f, rest);
    TraceTwo(sem, m, f, e, rest);
    var e0, f1 := Outcome(e, Value(sem, m, e)), Outcome(f, Value(sem, me, f));
    var f0, e1 := Outcome(f, Value(sem, m, f)), Outcome(e, Value(sem, mf, e));
    assert f1 != f0;
    DifferentPairs(e0, f1, f0, e1, Trace(sem, Perform(sem, me, f), rest));
  }

  /** If events interfere, some lawful semantics notices some permutation. */
  lemma ReorderComplete(law: Law, s: seq<Event>)
    requires !Independent(law, s)
    ensures exists sem: Semantics<nat, Reading>, s' ::
              Lawful(sem, law) && multiset(s) == multiset(s') && !Unnoticed(sem, map[], s, s')
  {
    hide Tally, Lawful, Interferes, Trace, Final;
    var e, f :| e in s && f in s && e != f && Interferes(law, e, f);
    var sem := Tally(law, Programs(s));
    TallyLawful(law, Programs(s));
    var rest := BringToFront(s, e, f);
    TallyNotices(law, Programs(s), e, f, rest);
    var p, q := [e] + ([f] + rest), [f] + ([e] + rest);
    assert !Unnoticed(sem, map[], s, p) || !Unnoticed(sem, map[], s, q);
  }

  /** Every permutation is unnoticeable to every lawful semantics. */
  ghost predicate AlwaysReorderable(law: Law, s: seq<Event>) {
    forall sem: Semantics<nat, Reading>, m: Memory<nat>, s' ::
      Lawful(sem, law) && multiset(s) == multiset(s') ==> Unnoticed(sem, m, s, s')
  }

  /** Whatever reads and whatever reaches: any order is as good as any other exactly for independent events. */
  lemma ReorderExact(law: Law, s: seq<Event>)
    ensures AlwaysReorderable(law, s) <==> Independent(law, s)
  {
    hide Lawful, Unnoticed, Independent;
    if Independent(law, s) {
      forall sem: Semantics<nat, Reading>, m: Memory<nat>, s' | Lawful(sem, law) && multiset(s) == multiset(s')
        ensures Unnoticed(sem, m, s, s')
      {
        ReorderSound(sem, law, m, s, s');
      }
    } else {
      ReorderComplete(law, s);
    }
  }

  /**
   How over-cautious `validate_reorder` is: it asks for ReadOnly calls only, while under the documented
   law different calls may be of any class as long as none that may write comes with a ReadOnly call or
   another that may write, of its own program, or of any program if it is OrderSensitive.
   */
  lemma DocumentedReorderExact(v: SafetyValidator, s: seq<Event>)
    ensures AlwaysReorderable(DocumentedLaw(), s) <==>
            forall e, f ::
              e in s && f in s && e != f && !Eligible(e.syscallId) && Classify(f.syscallId) != Idempotent ==>
                e.programId != f.programId && Classify(e.syscallId) != OrderSensitive
    ensures v.ValidateReorder(s).approved ==> AlwaysReorderable(DocumentedLaw(), s)
  {
    hide AlwaysReorderable;
    ReorderExact(DocumentedLaw(), s);
    ReorderApproval(v, s);
    assert forall e, f :: Interferes(DocumentedLaw(), e, f) <==>
      && !Eligible(e.syscallId) && Classify(f.syscallId) != Idempotent
      && (e.programId == f.programId || Classify(e.syscallId) == OrderSensitive);
  }
}
