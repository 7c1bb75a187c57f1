/**
 Streams of calls and transaction ends, executed plainly and through the dedup table behind
 `validate_dedup`, and exactly which streams cannot tell the difference.
 */
module DedupRuns {
  import opened Common
  import opened Modular
  import opened Classifier
  import opened Validator
  import opened Execution
  import opened Dedup

  datatype Op = Invoke(event: Event) | Complete(tx: TransactionId)

  function KeyOf(e: Event): Key {
    Key(e.transactionId, e.syscallId, e.argsHash)
  }

  /** The memory, and for every operation so far the value its call returned. */
  datatype Plain<S, V> = Plain(memory: Memory<S>, values: seq<Option<V>>)

  datatype Deduped<S, V> = Deduped(memory: Memory<S>, values: seq<Option<V>>, table: map<Key, V>, count: U64)

  ghost function PlainStep<S, V>(sem: Semantics<S, V>, p: Plain<S, V>, op: Op): Plain<S, V> {
    match op
    case Invoke(e) => Plain(Perform(sem, p.memory, e), p.values + [Some(Value(sem, p.memory, e))])
    case Complete(_) => p.(values := p.values + [None])
  }

  ghost function PlainRun<S, V>(sem: Semantics<S, V>, m: Memory<S>, ops: seq<Op>): Plain<S, V> {
    if ops == [] then Plain(m, []) else
    PlainStep(sem, PlainRun(sem, m, ops[..|ops| - 1]), ops[|ops| - 1])
  }

  /** An approved call is looked up, and on a miss executed and recorded; other calls are executed. */
  ghost function DedupStep<S, V>(v: SafetyValidator, sem: Semantics<S, V>, d: Deduped<S, V>, op: Op): Deduped<S, V> {
    match op
    case Invoke(e) =>
      var value := Value(sem, d.memory, e);
      if !v.ValidateDedup(e.syscallId).approved then
        d.(memory := Perform(sem, d.memory, e), values := d.values + [Some(value)])
      else if KeyOf(e) in d.table then
        d.(values := d.values + [Some(d.table[KeyOf(e)])], count := Bump(d.count))
      else
        Deduped(Perform(sem, d.memory, e), d.values + [Some(value)], d.table[KeyOf(e) := value], d.count)
    case Complete(tx) => d.(values := d.values + [None], table := Cleared(d.table, tx))
  }

  ghost function DedupRun<S, V>(v: SafetyValidator, sem: Semantics<S, V>, m: Memory<S>, ops: seq<Op>): Deduped<S, V> {
    if ops == [] then Deduped(m, [], map[], 0) else
    DedupStep(v, sem, DedupRun(v, sem, m, ops[..|ops| - 1]), ops[|ops| - 1])
  }

  /** Same return values, same final memory. */
  ghost predicate Faithful<S, V>(v: SafetyValidator, sem: Semantics<S, V>, m: Memory<S>, ops: seq<Op>) {
    var p, d := PlainRun(sem, m, ops), DedupRun(v, sem, m, ops);
    p.memory == d.memory && p.values == d.values
  }

  // ---- The condition --------------------------------------------------------------------------------

  /** Operation i is an eligible call with this key, and its transaction has not completed since. */
  predicate Source(ops: seq<Op>, i: int, key: Key) {
    && 0 <= i < |ops| && ops[i].Invoke? && Eligible(ops[i].event.syscallId)
    && ops[i].event.transactionId == key.transactionId
    && ops[i].event.syscallId == key.syscallId && ops[i].event.argsHash == key.argsHash
    && forall k :: i < k < |ops| ==> ops[k] != Complete(key.transactionId)
  }

  /** Operation j repeats the eligible call i of the same transaction: same id, same argument hash. */
  predicate Repeats(ops: seq<Op>, i: int, j: int) {
    && 0 <= i < j < |ops| && ops[j].Invoke?
    && var e := ops[j].event; Source(ops[..j], i, Key(e.transactionId, e.syscallId, e.argsHash))
  }

  /** May the operation change the state of this program? */
  predicate WritesTo(law: Law, op: Op, program: Pubkey) {
    op.Invoke? && Disturbs(law, op.event, program)
  }

  /** Operation j comes from the program of operation i, with no write of that program in between. */
  ghost predicate Undisturbed(law: Law, ops: seq<Op>, i: int, j: int)
    requires 0 <= i < j < |ops| && ops[i].Invoke? && ops[j].Invoke?
  {
    && ops[i].event.programId == ops[j].event.programId
    && forall k :: i < k < j ==> !WritesTo(law, ops[k], ops[i].event.programId)
  }

  /** Every repeated call of a reader is undisturbed. */
  ghost predicate RepeatsAreStable(law: Law, ops: seq<Op>) {
    forall i, j :: Repeats(ops, i, j) && law.mayRead(ops[j].event.syscallId) ==> Undisturbed(law, ops, i, j)
  }

  lemma RepeatsPrefix(ops: seq<Op>, n: nat)
    requires n <= |ops|
    ensures forall i, j :: Repeats(ops[..n], i, j) <==> j < n && Repeats(ops, i, j)
  {
    forall i, j | j < n ensures Repeats(ops[..n], i, j) <==> Repeats(ops, i, j) {
      if 0 <= j {
        assert ops[..n][..j] == ops[..j];
      }
    }
  }

  // ---- The table ------------------------------------------------------------------------------------

  ghost predicate HasSource(ops: seq<Op>, key: Key) {
    exists i :: Source(ops, i, key)
  }

  lemma SourceSnoc(ops: seq<Op>, op: Op, key: Key)
    ensures HasSource(ops + [op], key) <==>
            || (op.Invoke? && Eligible(op.event.syscallId) && KeyOf(op.event) == key)
            || (HasSource(ops, key) && op != Complete(key.transactionId))
  {
    var longer := ops + [op];
    if HasSource(longer, key) {
      var i :| Source(longer, i, key);
      if i < |ops| {
        assert longer[|ops|] == op && longer[i] == ops[i];
        assert forall k :: i < k < |ops| ==> ops[k] == longer[k];
        assert Source(ops, i, key);
      }
    }
    if HasSource(ops, key) && op != Complete(key.transactionId) {
      var i :| Source(ops, i, key);
      assert Source(longer, i, key);
    }
    if op.Invoke? && Eligible(op.event.syscallId) && KeyOf(op.event) == key {
      assert Source(longer, |ops|, key);
    }
  }

  /** The table holds exactly the keys that have a source. */
  lemma {:induction false} TableKeys<S, V>(
    v: SafetyValidator, sem: Semantics<S, V>, m: Memory<S>, ops: seq<Op>, key: Key)
    ensures key in DedupRun(v, sem, m, ops).table <==> HasSource(ops, key)
  {
    if ops != [] {
      var shorter, op := ops[..|ops| - 1], ops[|ops| - 1];
      assert ops == shorter + [op];
      TableKeys(v, sem, m, shorter, key);
      SourceSnoc(shorter, op, key);
    }
  }

  /** A reader's recorded result stays right until its program is written, any other for ever. */
  ghost predicate TableIsCurrent<S, V>(sem: Semantics<S, V>, law: Law, d: Deduped<S, V>, ops: seq<Op>) {
    forall key :: key in d.table ==> exists i :: HoldsFor(sem, law, d, ops, key, i)
  }

  ghost predicate HoldsFor<S, V>(
    sem: Semantics<S, V>, law: Law, d: Deduped<S, V>, ops: seq<Op>, key: Key, i: int)
    requires key in d.table
  {
    && Source(ops, i, key)
    && (!law.mayRead(key.syscallId) ||
        (forall k :: i < k < |ops| ==> !WritesTo(law, ops[k], ops[i].event.programId)) ==>
          d.table[key] == Value(sem, d.memory, ops[i].event))
  }

  /** Only a write to a program changes its state. */
  lemma StepKeepsState<S(!new), V>(
    v: SafetyValidator, sem: Semantics<S, V>, law: Law, d: Deduped<S, V>, op: Op, program: Pubkey)
    requires Lawful(sem, law) && !WritesTo(law, op, program)
    ensures StateOf(DedupStep(v, sem, d, op).memory, program) == StateOf(d.memory, program)
  {
    if op.Invoke? {
      StateKept(sem, law, d.memory, op.event, program);
    }
  }

  lemma EntryKept<S, V>(
    v: SafetyValidator, sem: Semantics<S, V>, d: Deduped<S, V>, op: Op, key: Key)
    requires key in d.table && key in DedupStep(v, sem, d, op).table
    ensures DedupStep(v, sem, d, op).table[key] == d.table[key] && op != Complete(key.transactionId)
  {}

  /** A call that is no reader always gives the same value to the same id and hash. */
  lemma NoReaderIsConstant<S(!new), V>(
    sem: Semantics<S, V>, law: Law, m: Memory<S>, m': Memory<S>, e: Event, e': Event)
    requires Lawful(sem, law) && Eligible(e.syscallId) && !law.mayRead(e.syscallId)
    requires e.syscallId == e'.syscallId && e.argsHash == e'.argsHash
    ensures Value(sem, m, e) == Value(sem, m', e')
  {}

  lemma TableStaysCurrent<S(!new), V>(
    v: SafetyValidator, sem: Semantics<S, V>, law: Law, d: Deduped<S, V>, ops: seq<Op>, op: Op, key: Key)
    requires Lawful(sem, law) && TableIsCurrent(sem, law, d, ops)
    requires key in DedupStep(v, sem, d, op).table
    ensures exists i :: HoldsFor(sem, law, DedupStep(v, sem, d, op), ops + [op], key, i)
  {
    hide DedupStep, Lawful;
    var d', longer := DedupStep(v, sem, d, op), ops + [op];
    if key in d.table {
      var i :| HoldsFor(sem, law, d, ops, key, i);
      EntryKept(v, sem, d, op, key);
      assert Source(longer, i, key) && longer[i] == ops[i];
      var e := ops[i].event;
      if !law.mayRead(key.syscallId) {
        NoReaderIsConstant(sem, law, d.memory, d'.memory, e, e);
      } else if forall k :: i < k < |longer| ==> !WritesTo(law, longer[k], e.programId) {
        assert forall k :: i < k < |ops| ==> longer[k] == ops[k];
        assert !WritesTo(law, longer[|ops|], e.programId);
        StepKeepsState(v, sem, law, d, op, e.programId);
        ValueKept(sem, law, d.memory, d'.memory, e);
      }
      assert HoldsFor(sem, law, d', longer, key, i);
    } else {
      NewEntry(v, sem, law, d, ops, op, key);
    }
  }

  lemma NewEntry<S(!new), V>(
    v: SafetyValidator, sem: Semantics<S, V>, law: Law, d: Deduped<S, V>, ops: seq<Op>, op: Op, key: Key)
    requires Lawful(sem, law) && key !in d.table && key in DedupStep(v, sem, d, op).table
    ensures HoldsFor(sem, law, DedupStep(v, sem, d, op), ops + [op], key, |ops|)
  {
    assert Source(ops + [op], |ops|, key);
  }

  lemma HitIsCurrent<S(!new), V>(
    sem: Semantics<S, V>, law: Law, d: Deduped<S, V>, ops: seq<Op>, e: Event)
    requires Lawful(sem, law) && TableIsCurrent(sem, law, d, ops)
    requires RepeatsAreStable(law, ops + [Invoke(e)])
    requires Eligible(e.syscallId) && KeyOf(e) in d.table
    ensures d.table[KeyOf(e)] == Value(sem, d.memory, e)
  {
    hide Lawful;
    var i :| HoldsFor(sem, law, d, ops, KeyOf(e), i);
    var longer := ops + [Invoke(e)];
    assert longer[..|ops|] == ops;
    assert Repeats(longer, i, |ops|);
    if law.mayRead(e.syscallId) {
      assert Undisturbed(law, longer, i, |ops|);
      assert forall k :: i < k < |ops| ==> longer[k] == ops[k];
    } else {
      NoReaderIsConstant(sem, law, d.memory, d.memory, ops[i].event, e);
    }
  }

  /** Deduplication is unnoticeable if every repeat of a reader is undisturbed. */
  lemma {:induction false} DedupSound<S(!new), V>(
    v: SafetyValidator, sem: Semantics<S, V>, law: Law, m: Memory<S>, ops: seq<Op>)
    requires Lawful(sem, law) && RepeatsAreStable(law, ops)
    ensures Faithful(v, sem, m, ops)
    ensures TableIsCurrent(sem, law, DedupRun(v, sem, m, ops), ops)
  {
    hide RepeatsAreStable;
    if ops != [] {
      var shorter, op := ops[..|ops| - 1], ops[|ops| - 1];
      StablePrefix(law, ops);
      DedupSound(v, sem, law, m, shorter);
      var d := DedupRun(v, sem, m, shorter);
      assert ops == shorter + [op];
      if op.Invoke? && Eligible(op.event.syscallId) && KeyOf(op.event) in d.table {
        HitIsCurrent(sem, law, d, shorter, op.event);
      }
      forall key | key in DedupStep(v, sem, d, op).table
        ensures exists i :: HoldsFor(sem, law, DedupStep(v, sem, d, op), ops, key, i)
      {
        TableStaysCurrent(v, sem, law, d, shorter, op, key);
      }
    }
  }

  lemma StablePrefix(law: Law, ops: seq<Op>)
    requires ops != [] && RepeatsAreStable(law, ops)
    ensures RepeatsAreStable(law, ops[..|ops| - 1])
  {
    var shorter := ops[..|ops| - 1];
    RepeatsPrefix(ops, |ops| - 1);
    forall i, j | Repeats(shorter, i, j) && law.mayRead(shorter[j].event.syscallId)
      ensures Undisturbed(law, shorter, i, j)
    {
      assert Repeats(ops, i, j) && Undisturbed(law, ops, i, j);
    }
  }

  // ---- The condition is exact -------------------------------------------------------------------------

  /** An eligible call leaves its value in the table. */
  lemma CallIsRecorded<S, V>(v: SafetyValidator, sem: Semantics<S, V>, d: Deduped<S, V>, e: Event)
    requires Eligible(e.syscallId)
    ensures var d' := DedupStep(v, sem, d, Invoke(e));
            KeyOf(e) in d'.table && d'.values == d.values + [Some(d'.table[KeyOf(e)])]
  {}

  lemma EntrySurvives<S, V>(v: SafetyValidator, sem: Semantics<S, V>, d: Deduped<S, V>, op: Op, key: Key)
    requires key in d.table && op != Complete(key.transactionId)
    ensures var d' := DedupStep(v, sem, d, op);
            && key in d'.table && d'.table[key] == d.table[key]
            && |d'.values| == |d.values| + 1 && d'.values[..|d.values|] == d.values
  {}

  /** A repeated call is always answered with the value its source returned. */
  lemma {:induction false} RepeatGetsSourceValue<S, V>(
    v: SafetyValidator, sem: Semantics<S, V>, m: Memory<S>, ops: seq<Op>, i: int, key: Key)
    requires Source(ops, i, key)
    ensures var d := DedupRun(v, sem, m, ops);
            |d.values| == |ops| && key in d.table && d.values[i] == Some(d.table[key])
  {
    hide DedupStep;
    var last := |ops| - 1;
    var shorter := ops[..last];
    var before := DedupRun(v, sem, m, shorter);
    ValuesAligned(v, sem, m, shorter);
    if i < last {
      RepeatGetsSourceValue(v, sem, m, shorter, i, key);
      EntrySurvives(v, sem, before, ops[last], key);
      var after := DedupStep(v, sem, before, ops[last]);
      assert after.values[i] == after.values[..last][i];
    } else {
      CallIsRecorded(v, sem, before, ops[last].event);
    }
  }

  lemma {:induction false} ValuesAligned<S, V>(v: SafetyValidator, sem: Semantics<S, V>, m: Memory<S>, ops: seq<Op>)
    ensures |PlainRun(sem, m, ops).values| == |DedupRun(v, sem, m, ops).values| == |ops|
  {
    if ops != [] {
      ValuesAligned(v, sem, m, ops[..|ops| - 1]);
    }
  }

  lemma {:induction false} ValuesStay<S, V>(
    v: SafetyValidator, sem: Semantics<S, V>, m: Memory<S>, ops: seq<Op>, n: nat)
    requires n <= |ops|
    ensures |PlainRun(sem, m, ops).values| == |DedupRun(v, sem, m, ops).values| == |ops|
    ensures PlainRun(sem, m, ops).values[..n] == PlainRun(sem, m, ops[..n]).values
    ensures DedupRun(v, sem, m, ops).values[..n] == DedupRun(v, sem, m, ops[..n]).values
  {
    ValuesAligned(v, sem, m, ops);
    if n < |ops| {
      var shorter := ops[..|ops| - 1];
      ValuesStay(v, sem, m, shorter, n);
      assert shorter[..n] == ops[..n];
    } else {
      assert ops[..n] == ops;
    }
  }

  ghost function Writes(law: Law, programs: set<Pubkey>, ops: seq<Op>, program: Pubkey): nat {
    Count(PlainRun(Tally(law, programs), map[], ops).memory, program)
  }

  lemma {:induction false} WritesGrow(law: Law, programs: set<Pubkey>, ops: seq<Op>, n: nat, program: Pubkey)
    requires n <= |ops| && program in programs
    ensures Writes(law, programs, ops[..n], program) <= Writes(law, programs, ops, program)
    ensures (exists k :: n <= k < |ops| && WritesTo(law, ops[k], program)) ==>
              Writes(law, programs, ops[..n], program) < Writes(law, programs, ops, program)
  {
    hide Tally, Count;
    if n == |ops| {
      assert ops[..n] == ops;
    } else {
      var shorter, op := ops[..|ops| - 1], ops[|ops| - 1];
      WritesGrow(law, programs, shorter, n, program);
      assert shorter[..n] == ops[..n];
      assert forall k :: n <= k < |shorter| ==> shorter[k] == ops[k];
      if op.Invoke? {
        TallyStep(law, programs, PlainRun(Tally(law, programs), map[], shorter).memory, op.event, program);
      }
    }
  }

  lemma PlainValueAt(law: Law, programs: set<Pubkey>, ops: seq<Op>, i: int)
    requires 0 <= i < |ops| && ops[i].Invoke? && law.mayRead(ops[i].event.syscallId)
    ensures |PlainRun(Tally(law, programs), map[], ops).values| == |ops|
    ensures PlainRun(Tally(law, programs), map[], ops).values[i] ==
            Some(Some((ops[i].event.programId, Writes(law, programs, ops[..i], ops[i].event.programId))))
  {
    var v, sem := SafetyValidator(true), Tally(law, programs);
    ValuesStay(v, sem, map[], ops, i + 1);
    ValuesAligned(v, sem, map[], ops[..i]);
    assert ops[..i + 1][..i] == ops[..i];
    assert PlainRun(sem, map[], ops).values[i] == PlainRun(sem, map[], ops[..i + 1]).values[i];
  }

  lemma RepeatGetsSameValue<S, V>(
    v: SafetyValidator, sem: Semantics<S, V>, m: Memory<S>, ops: seq<Op>, i: int, j: int)
    requires Repeats(ops, i, j)
    ensures |DedupRun(v, sem, m, ops).values| == |ops|
    ensures DedupRun(v, sem, m, ops).values[i] == DedupRun(v, sem, m, ops).values[j]
  {
    var values := DedupRun(v, sem, m, ops).values;
    RepeatGetsSourceValue(v, sem, m, ops[..j], i, KeyOf(ops[j].event));
    ValuesStay(v, sem, m, ops, j);
    ValuesStay(v, sem, m, ops, j + 1);
    assert ops[..j + 1][..j] == ops[..j];
    assert values[i] == values[..j][i] && values[j] == values[..j + 1][j];
  }

  /** A faithful run under the witness shows that a reader's repeat is from the same program, unwritten since. */
  lemma FaithfulRepeat(
    v: SafetyValidator, law: Law, programs: set<Pubkey>, ops: seq<Op>, i: int, j: int)
    requires Faithful(v, Tally(law, programs), map[], ops) && Repeats(ops, i, j) && law.mayRead(ops[j].event.syscallId)
    requires ops[i].event.programId in programs
    ensures Undisturbed(law, ops, i, j)
  {
    PlainValueAt(law, programs, ops, i);
    PlainValueAt(law, programs, ops, j);
    RepeatGetsSameValue(v, Tally(law, programs), map[], ops, i, j);
    SameWrites(law, programs, ops, i, j, ops[i].event.programId);
  }

  lemma SameWrites(law: Law, programs: set<Pubkey>, ops: seq<Op>, i: int, j: int, program: Pubkey)
    requires program in programs
    requires 0 <= i < j < |ops| && Writes(law, programs, ops[..i], program) == Writes(law, programs, ops[..j], program)
    ensures forall k :: i <= k < j ==> !WritesTo(law, ops[k], program)
  {
    WritesGrow(law, programs, ops[..j], i, program);
    assert ops[..j][..i] == ops[..i];
    forall k | i <= k < j ensures !WritesTo(law, ops[k], program) {
      assert ops[..j][k] == ops[k];
    }
  }

  /** Unnoticeable to every lawful semantics. */
  ghost predicate AlwaysFaithful(v: SafetyValidator, law: Law, ops: seq<Op>) {
    forall sem: Semantics<nat, Reading>, m: Memory<nat> :: Lawful(sem, law) ==> Faithful(v, sem, m, ops)
  }

  function Callers(ops: seq<Op>): set<Pubkey> {
    set op | op in ops && op.Invoke? :: op.event.programId
  }

  /** Whatever reads and whatever reaches: dedup is always unnoticeable exactly when repeats are undisturbed. */
  lemma DedupExact(v: SafetyValidator, law: Law, ops: seq<Op>)
    ensures AlwaysFaithful(v, law, ops) <==> RepeatsAreStable(law, ops)
  {
    hide Lawful, Faithful, Tally;
    if RepeatsAreStable(law, ops) {
      forall sem: Semantics<nat, Reading>, m: Memory<nat> | Lawful(sem, law) ensures Faithful(v, sem, m, ops) {
        DedupSound(v, sem, law, m, ops);
      }
    }
    if AlwaysFaithful(v, law, ops) {
      TallyLawful(law, Callers(ops));
      forall i, j | Repeats(ops, i, j) && law.mayRead(ops[j].event.syscallId) ensures Undisturbed(law, ops, i, j) {
        assert ops[i] in ops;
        FaithfulRepeat(v, law, Callers(ops), ops, i, j);
      }
    }
  }

  /**
   Under the documented law deduplicating Idempotent calls is always right, and deduplication as a whole
   is exactly when every repeat of a ReadOnly call comes from the same program, with no call in between
   that may write there: none of that program, and no OrderSensitive one of any.
   */
  lemma DocumentedDedupExact(v: SafetyValidator, ops: seq<Op>)
    ensures AlwaysFaithful(v, DocumentedLaw(), ops) <==>
            forall i, j :: Repeats(ops, i, j) && Classify(ops[j].event.syscallId) == ReadOnly ==>
              && ops[i].event.programId == ops[j].event.programId
              && forall k :: i < k < j && ops[k].Invoke? && !Eligible(ops[k].event.syscallId) ==>
                   && ops[k].event.programId != ops[i].event.programId
                   && Classify(ops[k].event.syscallId) != OrderSensitive
  {
    hide AlwaysFaithful;
    DedupExact(v, DocumentedLaw(), ops);
  }

  // ---- One transaction, and the count of skipped calls ------------------------------------------------

  ghost predicate Repeated(ops: seq<Op>, j: int) {
    exists i :: Repeats(ops, i, j)
  }

  ghost function RepeatCount(ops: seq<Op>): nat {
    if ops == [] then 0 else
    RepeatCount(ops[..|ops| - 1]) + if Repeated(ops, |ops| - 1) then 1 else 0
  }

  lemma LastRepeated(ops: seq<Op>)
    requires ops != []
    ensures var op := ops[|ops| - 1];
            Repeated(ops, |ops| - 1) <==>
              op.Invoke? && Eligible(op.event.syscallId) && HasSource(ops[..|ops| - 1], KeyOf(op.event))
  {
    var last := |ops| - 1;
    if ops[last].Invoke? && Eligible(ops[last].event.syscallId) && HasSource(ops[..last], KeyOf(ops[last].event)) {
      var i :| Source(ops[..last], i, KeyOf(ops[last].event));
      assert Repeats(ops, i, last);
    }
  }

  /** The counter is the number of calls that repeat an earlier one, modulo 2^64. */
  lemma {:induction false} CountIsRepeats<S, V>(v: SafetyValidator, sem: Semantics<S, V>, m: Memory<S>, ops: seq<Op>)
    ensures DedupRun(v, sem, m, ops).count == Wrap(RepeatCount(ops), TWO64)
  {
    hide Wrap, Bump;
    if ops == [] {
      WrapSmall(0, TWO64);
    } else {
      var shorter, op := ops[..|ops| - 1], ops[|ops| - 1];
      CountIsRepeats(v, sem, m, shorter);
      BumpWrap(RepeatCount(shorter));
      LastRepeated(ops);
      if op.Invoke? {
        TableKeys(v, sem, m, shorter, KeyOf(op.event));
      }
    }
  }

  function Invocations(s: seq<Event>): seq<Op> {
    seq(|s|, i requires 0 <= i < |s| => Invoke(s[i]))
  }

  /**
   A single-program sequence without dependencies, in particular one that passes the check, can be
   deduplicated: same values, same memory, and the counter moves once per skipped call.
   */
  lemma DependencyFreeDedup<S(!new), V>(
    v: SafetyValidator, sem: Semantics<S, V>, law: Law, m: Memory<S>, s: seq<Event>)
    requires Lawful(sem, law) && !DependsInto(law, s)
    requires forall i, j :: 0 <= i < j < |s| ==> s[i].programId == s[j].programId
    ensures Faithful(v, sem, m, Invocations(s))
    ensures DedupRun(v, sem, m, Invocations(s)).count == Wrap(RepeatCount(Invocations(s)), TWO64)
  {
    hide Lawful, Faithful;
    var ops := Invocations(s);
    forall i, j | Repeats(ops, i, j) && law.mayRead(ops[j].event.syscallId) ensures Undisturbed(law, ops, i, j) {
      forall k | i < k < j ensures !WritesTo(law, ops[k], ops[i].event.programId) {
        assert !DependsUnder(law, s, k, j);
      }
    }
    DedupSound(v, sem, law, m, ops);
    CountIsRepeats(v, sem, m, ops);
  }

  /**
   The validator approves a ReadOnly call, say get_return_data, by its id alone, although under the
   documented law a write between two equal reads makes deduplication wrong: set_return_data of the same
   program, or invoke_signed of any.
   */
  lemma ReadWriteReadIsUnstable(v: SafetyValidator, read: Event, write: Event)
    requires Classify(read.syscallId) == ReadOnly && !Eligible(write.syscallId)
    requires read.programId == write.programId || Classify(write.syscallId) == OrderSensitive
    ensures v.ValidateDedup(read.syscallId).approved
    ensures !AlwaysFaithful(v, DocumentedLaw(), [Invoke(read), Invoke(write), Invoke(read)])
  {
    hide AlwaysFaithful;
    var ops := [Invoke(read), Invoke(write), Invoke(read)];
    assert Source(ops[..2], 0, KeyOf(read));
    assert Repeats(ops, 0, 2) && WritesTo(DocumentedLaw(), ops[1], read.programId);
    DedupExact(v, DocumentedLaw(), ops);
  }
}
