/** What the sweeps do to a run: no lookup notices them, and exactly when they can cost a hit. */
module CacheSweeps {
  import opened Common
  import opened Fnv
  import opened Modular
  import opened Sequences
  import opened Lru
  import opened SysvarCaches
  import opened CacheRuns
  import opened CacheHits

  /** A lookup right after a sweep gives the same answer and moves the same counter as without it. */
  lemma GetAfterSweep(
    capacity: nat, policies: Policies, c: Cache, kind: InvalidationPolicy, key: CacheKey, epoch: U64, slot: U64)
    requires WellFormed(capacity, c.lru)
    ensures var swept := c.(lru := Sweep(policies, kind, c.lru, epoch, slot));
            var (c1, found1) := Lookup(policies, c, key, epoch, slot);
            var (c2, found2) := Lookup(policies, swept, key, epoch, slot);
            found1 == found2 && c1.hits == c2.hits && c1.misses == c2.misses
  {
    PeekSweep(policies, kind, c.lru, epoch, slot, key);
  }

  // ---- Counters and size over every run ---------------------------------------------------------

  function HitCount(answers: seq<Answer>): nat {
    if answers == [] then 0 else
    HitCount(answers[..|answers| - 1]) + if answers[|answers| - 1].hit then 1 else 0
  }

  /** The counters are the exact numbers of hits and of other lookups, modulo 2^64. */
  ghost predicate Counted(t: Setup, c: Client) {
    && WellFormed(t.capacity, c.cache.lru)
    && HitCount(c.answers) <= |c.answers|
    && c.cache.hits == Wrap(HitCount(c.answers), TWO64)
    && c.cache.misses == Wrap(|c.answers| - HitCount(c.answers), TWO64)
  }

  lemma HitCountSnoc(answers: seq<Answer>, a: Answer)
    ensures HitCount(answers + [a]) == HitCount(answers) + if a.hit then 1 else 0
  {
    assert (answers + [a])[..|answers|] == answers;
  }

  /** An access moves the counter that its answer says. */
  lemma AccessCounts(t: Setup, c: Client, q: Request) returns (a: Answer)
    ensures var c' := Step(t, c, Access(q));
            && c'.answers == c.answers + [a]
            && (c'.cache.hits, c'.cache.misses) ==
                 if a.hit then (Bump(c.cache.hits), c.cache.misses) else (c.cache.hits, Bump(c.cache.misses))
  {
    hide Bump, Hash, Put, Promote, Pop, Peek, Fresh;
    var c' := Step(t, c, Access(q));
    a := c'.answers[|c.answers|];
  }

  lemma CountedAccess(t: Setup, c: Client, q: Request)
    requires Counted(t, c)
    ensures Counted(t, Step(t, c, Access(q)))
  {
    hide Wrap, Bump, Hash, Step, WellFormed, HitCount;
    VisitKeys(t, c, Access(q), q);
    BumpWrap(HitCount(c.answers));
    BumpWrap(|c.answers| - HitCount(c.answers));
    var a := AccessCounts(t, c, q);
    HitCountSnoc(c.answers, a);
  }

  lemma CountedStep(t: Setup, c: Client, op: Op)
    requires Counted(t, c)
    ensures Counted(t, Step(t, c, op))
  {
    hide Wrap, Bump, Hash;
    var w := t.world;
    match op
    case Access(q) => CountedAccess(t, c, q);
    case Prefill(q) => PutWellFormed(t.capacity, c.cache.lru, KeyOf(q), Truth(w, q, c.now));
    case Advance(_) =>
    case Invalidate(kind) =>
      SweepWellFormed(t.capacity, t.policies, kind, c.cache.lru, w.epoch(c.now), w.slot(c.now));
  }

  /** In any run at all the cache stays within its capacity and the counters add up to the lookups. */
  lemma {:induction false} RunCounted(t: Setup, c: Client, ops: seq<Op>)
    requires Counted(t, c)
    ensures Counted(t, Run(t, c, ops))
    decreases |ops|
  {
    if ops != [] {
      CountedStep(t, c, ops[0]);
      RunCounted(t, Step(t, c, ops[0]), ops[1..]);
    }
  }

  /** From the empty cache: never over capacity, and hits plus misses is the number of lookups. */
  lemma EveryRunCounted(t: Setup, start: nat, ops: seq<Op>)
    requires t.capacity > 0
    ensures var c := Run(t, Start(start), ops);
            && |c.cache.lru| <= t.capacity
            && c.cache.hits == Wrap(HitCount(c.answers), TWO64)
            && Wrap(c.cache.hits + c.cache.misses, TWO64) == Wrap(|c.answers|, TWO64)
  {
    hide Wrap, Bump;
    WrapSmall(0, TWO64);
    RunCounted(t, Start(start), ops);
    var c := Run(t, Start(start), ops);
    var hits := HitCount(c.answers);
    WrapAccumulate(hits, c.cache.misses, TWO64);
    WrapAccumulate(|c.answers| - hits, hits, TWO64);
  }

  // ---- Clock paths and fewer sweeps ---------------------------------------------------------------

  function Moments(ops: seq<Op>): seq<nat> {
    if ops == [] then [] else
    var rest := Moments(ops[1..]);
    if ops[0].Advance? then [ops[0].moment] + rest else rest
  }

  /** The moments at which the clock stands during a run. */
  function Path(now: nat, ops: seq<Op>): seq<nat> {
    [now] + Moments(ops)
  }

  /** The policy's tick at moment i of the path is left by moment j and entered again at moment k. */
  predicate Returns(w: World, kind: InvalidationPolicy, path: seq<nat>, i: int, j: int, k: int) {
    0 <= i < j < k < |path| && !SameTick(w, kind, path[i], path[j]) && SameTick(w, kind, path[i], path[k])
  }

  /** For every policy that some id is mapped to, a tick once left is never entered again. */
  ghost predicate NoReturn(t: Setup, path: seq<nat>) {
    forall kind, i, j, k :: kind in t.policies.Values ==> !Returns(t.world, kind, path, i, j, k)
  }

  /** `fewer` is `more` without some of its sweeps. */
  predicate Thinned(more: seq<Op>, fewer: seq<Op>)
    decreases |more|
  {
    if more == [] then fewer == [] else
    || (fewer != [] && more[0] == fewer[0] && Thinned(more[1..], fewer[1..]))
    || (more[0].Invalidate? && Thinned(more[1..], fewer))
  }

  /** The accesses are the same, and each that hits with fewer sweeps hits with more. */
  ghost predicate NoHitLost(t: Setup, start: nat, more: seq<Op>, fewer: seq<Op>) {
    var a, b := Run(t, Start(start), more), Run(t, Start(start), fewer);
    SameRequests(a, b) && HitsKept(a.answers, b.answers)
  }

  // ---- Recency ------------------------------------------------------------------------------------

  /** When the key was last visited, -1 if never. */
  function Last(trail: seq<Visit>, key: CacheKey): int {
    if trail == [] then -1 else
    if trail[|trail| - 1].key == key then |trail| - 1 else Last(trail[..|trail| - 1], key)
  }

  lemma {:induction false} LastBound(trail: seq<Visit>, key: CacheKey)
    ensures Last(trail, key) < |trail|
  {
    if trail != [] {
      LastBound(trail[..|trail| - 1], key);
    }
  }

  lemma LastSnoc(trail: seq<Visit>, v: Visit, key: CacheKey)
    ensures Last(trail + [v], key) == if key == v.key then |trail| else Last(trail, key)
  {
    assert (trail + [v])[..|trail|] == trail;
  }

  ghost predicate Ordered(trail: seq<Visit>, keys: seq<CacheKey>) {
    forall i, j :: 0 <= i < j < |keys| ==> Last(trail, keys[i]) > Last(trail, keys[j])
  }

  lemma OrderedCons(trail: seq<Visit>, x: CacheKey, keys: seq<CacheKey>)
    ensures Ordered(trail, [x] + keys) <==>
            Ordered(trail, keys) && forall y :: y in keys ==> Last(trail, x) > Last(trail, y)
  {
    var longer := [x] + keys;
    if Ordered(trail, longer) {
      forall i, j | 0 <= i < j < |keys| ensures Last(trail, keys[i]) > Last(trail, keys[j]) {
        assert keys[i] == longer[i + 1] && keys[j] == longer[j + 1];
      }
      forall i | 0 <= i < |keys| ensures Last(trail, x) > Last(trail, keys[i]) {
        assert x == longer[0] && keys[i] == longer[i + 1];
      }
    }
  }

  lemma {:induction false} OrderedSubseq(trail: seq<Visit>, a: seq<CacheKey>, b: seq<CacheKey>)
    requires Subseq(a, b) && Ordered(trail, b)
    ensures Ordered(trail, a)
    decreases |b|
  {
    if a != [] {
      assert b == [b[0]] + b[1..] && a == [a[0]] + a[1..];
      OrderedCons(trail, b[0], b[1..]);
      if a[0] == b[0] && Subseq(a[1..], b[1..]) {
        OrderedSubseq(trail, a[1..], b[1..]);
        SubseqMembers(a[1..], b[1..]);
        OrderedCons(trail, a[0], a[1..]);
      } else {
        OrderedSubseq(trail, a, b[1..]);
      }
    }
  }

  lemma {:induction false} RecentKeysOrdered(trail: seq<Visit>)
    ensures Ordered(trail, RecentKeys(trail))
  {
    if trail != [] {
      var shorter, v := trail[..|trail| - 1], trail[|trail| - 1];
      var before := RecentKeys(shorter);
      assert trail == shorter + [v];
      RecentKeysOrdered(shorter);
      RecentKeysNoDup(shorter);
      RemoveIsSubseq(before, v.key);
      OrderedSubseq(shorter, Remove(before, v.key), before);
      OrderedAfterVisit(shorter, v, Remove(before, v.key), before);
    }
  }

  /** Visiting a key puts it ahead of all others and leaves their order alone. */
  lemma OrderedAfterVisit(trail: seq<Visit>, v: Visit, rest: seq<CacheKey>, before: seq<CacheKey>)
    requires NoDup(before) && rest == Remove(before, v.key) && Ordered(trail, rest)
    ensures Ordered(trail + [v], [v.key] + rest)
  {
    RemoveMembers(before, v.key);
    forall key | key in rest ensures Last(trail + [v], key) == Last(trail, key) < |trail| {
      LastSnoc(trail, v, key);
      LastBound(trail, key);
    }
    LastSnoc(trail, v, v.key);
    OrderedCons(trail + [v], v.key, rest);
  }

  // ---- One client with more sweeps, one with fewer ----------------------------------------------------

  /** Two clients after the same accesses. */
  ghost predicate Together(t: Setup, a: Client, b: Client) {
    ClientInv(t, a) && ClientInv(t, b) && SameRequests(a, b)
  }

  /** Of the keys in a, all that are more recent than some key in b are in b. */
  ghost predicate Closed(trail: seq<Visit>, a: seq<CacheKey>, b: seq<CacheKey>) {
    forall x, e :: x in a && e in b && Last(trail, x) > Last(trail, e) ==> x in b
  }

  /** What b holds and a does not is fresh neither now nor later. */
  ghost predicate Dead(t: Setup, a: Client, b: Client, path: seq<nat>) {
    forall key, m :: m in path && Peek(b.cache.lru, key).Some? && Stamped(t, key, Peek(b.cache.lru, key).value, m) ==>
      Peek(a.cache.lru, key).Some?
  }

  /** The tick of an earlier visit, once left, is not entered again. */
  ghost predicate Steady(t: Setup, trail: seq<Visit>, path: seq<nat>) {
    forall x, kind, i, j :: 0 <= x < |trail| && kind in t.policies.Values && 0 <= i < j < |path| ==>
      (SameTick(t.world, kind, trail[x].moment, path[j]) ==> SameTick(t.world, kind, trail[x].moment, path[i]))
  }

  /** Client a, with more sweeps, keeps up with client b; the clock still has `path` to go, from now on. */
  ghost predicate KeepsUp(t: Setup, a: Client, b: Client, path: seq<nat>) {
    && Together(t, a, b) && path != [] && path[0] == a.now
    && NoReturn(t, path) && Steady(t, a.trail, path)
    && Closed(a.trail, Keys(a.cache.lru), Keys(b.cache.lru)) && Dead(t, a, b, path)
    && HitsKept(a.answers, b.answers)
  }

  /** The keys after an access or a prefill, before the oldest is evicted. */
  function Moved(c: Client, key: CacheKey): seq<CacheKey> {
    [key] + Remove(Keys(c.cache.lru), key)
  }

  lemma MovedKeys(t: Setup, c: Client, op: Op, q: Request)
    requires ClientInv(t, c) && Visits(op, q)
    ensures var c', moved := Step(t, c, op), Moved(c, KeyOf(q));
            && Keys(c'.cache.lru) == Cut(moved, t.capacity)
            && c'.trail == c.trail + [Visit(KeyOf(q), c.now)]
            && NoDup(moved) && Ordered(c'.trail, moved)
            && forall k :: k in moved <==> k == KeyOf(q) || k in Keys(c.cache.lru)
  {
    hide Hash;
    var key, keys := KeyOf(q), Keys(c.cache.lru);
    VisitKeys(t, c, op, q);
    RemoveMembers(keys, key);
    NoDupCons(key, Remove(keys, key));
    RecentKeysOrdered(c.trail);
    RemoveIsSubseq(keys, key);
    SubseqTrans(Remove(keys, key), keys, RecentKeys(c.trail));
    OrderedSubseq(c.trail, Remove(keys, key), RecentKeys(c.trail));
    OrderedAfterVisit(c.trail, Visit(key, c.now), Remove(keys, key), keys);
  }

  /** What is at least as recent as a kept key is kept. */
  lemma CutKeepsRecent(trail: seq<Visit>, keys: seq<CacheKey>, n: nat, x: CacheKey, e: CacheKey)
    requires Ordered(trail, keys) && x in keys && e in Cut(keys, n) && Last(trail, x) > Last(trail, e)
    ensures x in Cut(keys, n)
  {
    var p :| 0 <= p < |keys| && keys[p] == x;
    var r :| 0 <= r < |Cut(keys, n)| && Cut(keys, n)[r] == e;
    assert keys[r] == e;
    assert p < r;
    assert Cut(keys, n)[p] == x;
  }

  /** A visit keeps the relation, even before the first client's eviction. */
  lemma ClosedAfterVisit(t: Setup, a: Client, b: Client, op: Op, q: Request)
    requires Visits(op, q) && Together(t, a, b) && Closed(a.trail, Keys(a.cache.lru), Keys(b.cache.lru))
    ensures var b' := Step(t, b, op); Closed(b'.trail, Moved(a, KeyOf(q)), Keys(b'.cache.lru))
  {
    hide Hash, Step;
    var key, v := KeyOf(q), Visit(KeyOf(q), b.now);
    var b' := Step(t, b, op);
    MovedKeys(t, a, op, q);
    MovedKeys(t, b, op, q);
    var moved := Moved(b, key);
    forall x, e | x in Moved(a, key) && e in Cut(moved, t.capacity) && Last(b'.trail, x) > Last(b'.trail, e)
      ensures x in Cut(moved, t.capacity)
    {
      LastSnoc(b.trail, v, x);
      LastSnoc(b.trail, v, e);
      LastBound(b.trail, x);
      assert e in moved;
      if x == key {
        assert Cut(moved, t.capacity)[0] == key;
      } else {
        CutKeepsRecent(b'.trail, moved, t.capacity, x, e);
      }
    }
  }

  /** What a visit evicts from the client with more sweeps, the other one does not hold either. */
  lemma EvictsNothingHeld(t: Setup, a: Client, b: Client, op: Op, q: Request, other: CacheKey)
    requires Visits(op, q) && Together(t, a, b) && Closed(a.trail, Keys(a.cache.lru), Keys(b.cache.lru))
    requires other in Keys(a.cache.lru) && other in Keys(Step(t, b, op).cache.lru)
    ensures other in Keys(Step(t, a, op).cache.lru)
  {
    hide Hash, Step, ClientInv, Closed, Ordered, Moved;
    var kept, moved := Keys(Step(t, b, op).cache.lru), Moved(a, KeyOf(q));
    MovedKeys(t, a, op, q);
    MovedKeys(t, b, op, q);
    ClosedAfterVisit(t, a, b, op, q);
    NotEvicted(Step(t, b, op).trail, moved, kept, t.capacity, other);
  }

  /** A key among at most n keys that include all more recent ones is among the n most recent. */
  lemma NotEvicted(trail: seq<Visit>, moved: seq<CacheKey>, kept: seq<CacheKey>, n: nat, other: CacheKey)
    requires NoDup(moved) && Ordered(trail, moved) && Closed(trail, moved, kept) && |kept| <= n
    requires other in moved && other in kept
    ensures other in Cut(moved, n)
  {
    hide Last;
    var i :| 0 <= i < |moved| && moved[i] == other;
    if i >= n {
      var j := FullAhead(moved, kept, n, i);
      assert false;
    }
    assert Cut(moved, n)[i] == other;
  }

  lemma DeadAfterVisit(t: Setup, a: Client, b: Client, path: seq<nat>, op: Op, q: Request)
    requires Visits(op, q) && Together(t, a, b) && Dead(t, a, b, path)
    requires Closed(a.trail, Keys(a.cache.lru), Keys(b.cache.lru))
    ensures Dead(t, Step(t, a, op), Step(t, b, op), path)
  {
    hide Hash, Step;
    var key := KeyOf(q);
    var a', b' := Step(t, a, op), Step(t, b, op);
    forall k, m | m in path && Peek(b'.cache.lru, k).Some? && Stamped(t, k, Peek(b'.cache.lru, k).value, m)
      ensures Peek(a'.cache.lru, k).Some?
    {
      VisitPeek(t, a, op, q, k);
      VisitPeek(t, b, op, q, k);
      if k != key {
        PeekFinds(a.cache.lru, k);
        PeekFinds(b'.cache.lru, k);
        MovedKeys(t, b, op, q);
        PeekFinds(b.cache.lru, k);
        EvictsNothingHeld(t, a, b, op, q, k);
        PeekFinds(a'.cache.lru, k);
      }
    }
  }

  lemma SteadyAfterVisit(t: Setup, trail: seq<Visit>, path: seq<nat>, v: Visit)
    requires Steady(t, trail, path) && NoReturn(t, path) && path != [] && v.moment == path[0]
    ensures Steady(t, trail + [v], path)
  {
    var w, longer := t.world, trail + [v];
    forall x, kind, i, j | 0 <= x < |longer| && kind in t.policies.Values && 0 <= i < j < |path|
      ensures SameTick(w, kind, longer[x].moment, path[j]) ==> SameTick(w, kind, longer[x].moment, path[i])
    {
      if x < |trail| {
        assert longer[x] == trail[x];
      } else {
        assert !Returns(w, kind, path, 0, i, j);
      }
    }
  }

  lemma KeepsUpVisit(t: Setup, a: Client, b: Client, path: seq<nat>, op: Op, q: Request)
    requires KeepsUp(t, a, b, path) && Visits(op, q)
    ensures KeepsUp(t, Step(t, a, op), Step(t, b, op), path)
  {
    hide Hash, Step, HitsKept;
    ClientInvVisit(t, a, op, q);
    ClientInvVisit(t, b, op, q);
    DeadAfterVisit(t, a, b, path, op, q);
    ClosedAfterVisit(t, a, b, op, q);
    MovedKeys(t, a, op, q);
    SteadyAfterVisit(t, a.trail, path, Visit(KeyOf(q), a.now));
    KeepsHit(t, a, b, path, op, q);
  }

  /** Where the second client hits, the first one does. */
  lemma KeepsHit(t: Setup, a: Client, b: Client, path: seq<nat>, op: Op, q: Request)
    requires KeepsUp(t, a, b, path) && Visits(op, q)
    ensures var a', b' := Step(t, a, op), Step(t, b, op);
            SameRequests(a', b') && HitsKept(a'.answers, b'.answers) && a'.now == a.now
  {
    hide Hash, Step;
    VisitKeys(t, a, op, q);
    if Hits(t, b, KeyOf(q)) {
      assert a.now in path;
      FreshTogether(t, a, b, KeyOf(q), a.now);
    }
    VisitTogether(t, t, a, b, op, q);
  }

  /** A sweep of both clients. */
  lemma KeepsUpSweepBoth(t: Setup, a: Client, b: Client, path: seq<nat>, kind: InvalidationPolicy)
    requires KeepsUp(t, a, b, path)
    ensures KeepsUp(t, Step(t, a, Invalidate(kind)), Step(t, b, Invalidate(kind)), path)
  {
    var a', b' := Step(t, a, Invalidate(kind)), Step(t, b, Invalidate(kind));
    ClientInvStep(t, a, Invalidate(kind));
    ClientInvStep(t, b, Invalidate(kind));
    forall key ensures SweptTogether(a, b, a', b', key) {
      SweepTogether(t, a, b, kind, key);
    }
    forall x, e | x in Keys(a'.cache.lru) && e in Keys(b'.cache.lru) && Last(a.trail, x) > Last(a.trail, e)
      ensures x in Keys(b'.cache.lru)
    {
      assert SweptTogether(a, b, a', b', x) && SweptTogether(a, b, a', b', e);
    }
    forall key, m | m in path && Peek(b'.cache.lru, key).Some? && Stamped(t, key, Peek(b'.cache.lru, key).value, m)
      ensures Peek(a'.cache.lru, key).Some?
    {
      assert SweptTogether(a, b, a', b', key);
    }
  }

  /** A sweep of both only removes, and a key that both hold from both or from neither. */
  ghost predicate SweptTogether(a: Client, b: Client, a': Client, b': Client, key: CacheKey) {
    && (Peek(a.cache.lru, key).Some? <==> key in Keys(a.cache.lru))
    && (Peek(b.cache.lru, key).Some? <==> key in Keys(b.cache.lru))
    && (Peek(a'.cache.lru, key).Some? <==> key in Keys(a'.cache.lru))
    && (Peek(b'.cache.lru, key).Some? <==> key in Keys(b'.cache.lru))
    && (key in Keys(a'.cache.lru) ==> key in Keys(a.cache.lru))
    && (key in Keys(b'.cache.lru) ==> key in Keys(b.cache.lru) && Peek(b'.cache.lru, key) == Peek(b.cache.lru, key))
    && (key in Keys(a.cache.lru) && key in Keys(b.cache.lru) ==>
          (key in Keys(a'.cache.lru) <==> key in Keys(b'.cache.lru)))
  }

  lemma SweepTogether(t: Setup, a: Client, b: Client, kind: InvalidationPolicy, key: CacheKey)
    requires Together(t, a, b)
    ensures SweptTogether(a, b, Step(t, a, Invalidate(kind)), Step(t, b, Invalidate(kind)), key)
  {
    var w := t.world;
    PeekSweep(t.policies, kind, a.cache.lru, w.epoch(a.now), w.slot(a.now), key);
    PeekSweep(t.policies, kind, b.cache.lru, w.epoch(a.now), w.slot(a.now), key);
    PeekFinds(a.cache.lru, key);
    PeekFinds(b.cache.lru, key);
    PeekFinds(Step(t, a, Invalidate(kind)).cache.lru, key);
    PeekFinds(Step(t, b, Invalidate(kind)).cache.lru, key);
    if key in Keys(a.cache.lru) && key in Keys(b.cache.lru) {
      FreshTogether(t, a, b, key, a.now);
    }
  }

  /** What a sweep removes is stale for as long as the clock path goes on. */
  lemma SweptStaysStale(t: Setup, a: Client, path: seq<nat>, kind: InvalidationPolicy, key: CacheKey, j: nat)
    requires ClientInv(t, a) && path != [] && path[0] == a.now && Steady(t, a.trail, path) && j < |path|
    requires Peek(a.cache.lru, key).Some?
    requires Peek(Step(t, a, Invalidate(kind)).cache.lru, key).None?
    ensures !Stamped(t, key, Peek(a.cache.lru, key).value, path[j])
  {
    var w := t.world;
    PeekSweep(t.policies, kind, a.cache.lru, w.epoch(a.now), w.slot(a.now), key);
    assert kind in t.policies.Values;
    var x :| LastVisit(a.trail, key, x) && Stamped(t, key, Peek(a.cache.lru, key).value, a.trail[x].moment);
    assert !SameTick(w, kind, a.trail[x].moment, path[0]);
    if j > 0 {
      assert !SameTick(w, kind, a.trail[x].moment, path[j]);
    }
  }

  /** A sweep of the first client only. */
  lemma KeepsUpSweep(t: Setup, a: Client, b: Client, path: seq<nat>, kind: InvalidationPolicy)
    requires KeepsUp(t, a, b, path)
    ensures KeepsUp(t, Step(t, a, Invalidate(kind)), b, path)
  {
    var w := t.world;
    var a' := Step(t, a, Invalidate(kind));
    ClientInvStep(t, a, Invalidate(kind));
    SweepKeys(t.policies, kind, a.cache.lru, w.epoch(a.now), w.slot(a.now));
    SubseqMembers(Keys(a'.cache.lru), Keys(a.cache.lru));
    forall key, m | m in path && Peek(b.cache.lru, key).Some? && Stamped(t, key, Peek(b.cache.lru, key).value, m)
      ensures Peek(a'.cache.lru, key).Some?
    {
      var j: nat :| j < |path| && path[j] == m;
      FreshTogether(t, a, b, key, m);
      if Peek(a'.cache.lru, key).None? {
        SweptStaysStale(t, a, path, kind, key, j);
      }
    }
  }

  lemma PathGoesOn(t: Setup, trail: seq<Visit>, path: seq<nat>)
    requires NoReturn(t, path) && Steady(t, trail, path) && |path| > 1
    ensures NoReturn(t, path[1..]) && Steady(t, trail, path[1..])
  {
    hide SameTick;
    var rest := path[1..];
    assert forall i :: 0 <= i < |rest| ==> rest[i] == path[i + 1];
    forall kind, i, j, k | kind in t.policies.Values ensures !Returns(t.world, kind, rest, i, j, k) {
      assert !Returns(t.world, kind, path, i + 1, j + 1, k + 1);
    }
  }

  lemma KeepsUpAdvance(t: Setup, a: Client, b: Client, path: seq<nat>)
    requires KeepsUp(t, a, b, path) && |path| > 1
    ensures KeepsUp(t, Step(t, a, Advance(path[1])), Step(t, b, Advance(path[1])), path[1..])
  {
    hide Hash, SameTick, Stamped, NoReturn, Steady, HitsKept, Subseq, RecentKeys, StampedAtLastVisit, WellFormed;
    PathGoesOn(t, a.trail, path);
    assert forall m :: m in path[1..] ==> m in path;
  }

  lemma {:induction false} RunKeepsUp(t: Setup, a: Client, b: Client, more: seq<Op>, fewer: seq<Op>)
    requires Thinned(more, fewer) && KeepsUp(t, a, b, Path(a.now, more))
    ensures var a', b' := Run(t, a, more), Run(t, b, fewer); KeepsUp(t, a', b', [a'.now])
    decreases |more|
  {
    hide Step, KeepsUp;
    var path := Path(a.now, more);
    if more == [] {
      assert path == [a.now];
    } else {
      var op := more[0];
      assert more == [op] + more[1..];
      if fewer != [] && op == fewer[0] && Thinned(more[1..], fewer[1..]) {
        KeepsUpStep(t, a, b, op, more[1..]);
        RunKeepsUp(t, Step(t, a, op), Step(t, b, op), more[1..], fewer[1..]);
        assert Run(t, b, fewer) == Run(t, Step(t, b, op), fewer[1..]);
      } else {
        KeepsUpSweep(t, a, b, path, op.kind);
        StepClock(t, a, op);
        RunKeepsUp(t, Step(t, a, op), b, more[1..], fewer);
      }
    }
  }

  lemma KeepsUpStep(t: Setup, a: Client, b: Client, op: Op, rest: seq<Op>)
    requires KeepsUp(t, a, b, Path(a.now, [op] + rest))
    ensures KeepsUp(t, Step(t, a, op), Step(t, b, op), Path(Step(t, a, op).now, rest))
  {
    hide Step, KeepsUp;
    var path := Path(a.now, [op] + rest);
    assert ([op] + rest)[1..] == rest;
    StepClock(t, a, op);
    match op
    case Access(q) => KeepsUpVisit(t, a, b, path, op, q);
    case Prefill(q) => KeepsUpVisit(t, a, b, path, op, q);
    case Advance(m) => KeepsUpAdvance(t, a, b, path); assert path[1..] == Path(m, rest);
    case Invalidate(kind) => KeepsUpSweepBoth(t, a, b, path, kind);
  }

  lemma StepClock(t: Setup, c: Client, op: Op)
    ensures Step(t, c, op).now == if op.Advance? then op.moment else c.now
  {}

  /**
   Adding sweeps anywhere to a run, whatever accesses, prefills and sweeps it has already: no access loses
   its hit, as long as the clock never returns to a tick it has left.
   */
  lemma SweepsNeverCostHits(t: Setup, start: nat, more: seq<Op>, fewer: seq<Op>)
    requires t.capacity > 0 && Thinned(more, fewer) && NoReturn(t, Path(start, more))
    ensures NoHitLost(t, start, more, fewer)
    ensures HitCount(Run(t, Start(start), fewer).answers) <= HitCount(Run(t, Start(start), more).answers)
  {
    RunKeepsUp(t, Start(start), Start(start), more, fewer);
    HitCountMonotone(Run(t, Start(start), more).answers, Run(t, Start(start), fewer).answers);
  }

  lemma {:induction false} HitCountMonotone(a: seq<Answer>, b: seq<Answer>)
    requires HitsKept(a, b)
    ensures HitCount(b) <= HitCount(a)
  {
    if a != [] {
      HitCountMonotone(a[..|a| - 1], b[..|b| - 1]);
    }
  }

  /** So it is under any clock on which epoch and slot never decrease. */
  lemma ForwardNeverReturns(t: Setup, path: seq<nat>)
    requires forall i, j :: 0 <= i < j < |path| ==>
               t.world.epoch(path[i]) <= t.world.epoch(path[j]) && t.world.slot(path[i]) <= t.world.slot(path[j])
    ensures NoReturn(t, path)
  {}

  // ---- The condition is exact ---------------------------------------------------------------------------

  function Advances(path: seq<nat>): seq<Op> {
    if path == [] then [] else [Advance(path[0])] + Advances(path[1..])
  }

  lemma {:induction false} MomentsConcat(a: seq<Op>, b: seq<Op>)
    ensures Moments(a + b) == Moments(a) + Moments(b)
  {
    if a == [] {
      assert a + b == b;
    } else {
      assert (a + b)[1..] == a[1..] + b;
      MomentsConcat(a[1..], b);
    }
  }

  lemma {:induction false} RunConcat(t: Setup, c: Client, a: seq<Op>, b: seq<Op>)
    ensures Run(t, c, a + b) == Run(t, Run(t, c, a), b)
    decreases |a|
  {
    hide Step;
    if a == [] {
      assert a + b == b;
    } else {
      assert (a + b)[1..] == a[1..] + b;
      RunConcat(t, Step(t, c, a[0]), a[1..], b);
    }
  }

  lemma {:induction false} ThinnedConcat(ops: seq<Op>, more: seq<Op>, fewer: seq<Op>)
    requires Thinned(more, fewer)
    ensures Thinned(ops + more, ops + fewer)
  {
    if ops == [] {
      assert ops + more == more && ops + fewer == fewer;
    } else {
      assert (ops + more)[1..] == ops[1..] + more && (ops + fewer)[1..] == ops[1..] + fewer;
      ThinnedConcat(ops[1..], more, fewer);
    }
  }

  lemma RunCons(t: Setup, c: Client, op: Op, rest: seq<Op>)
    ensures Run(t, c, [op] + rest) == Run(t, Step(t, c, op), rest)
  {
    assert ([op] + rest)[1..] == rest;
  }

  function Arrived(now: nat, path: seq<nat>): nat {
    if path == [] then now else path[|path| - 1]
  }

  lemma {:induction false} RunAdvances(t: Setup, c: Client, path: seq<nat>)
    ensures Run(t, c, Advances(path)) == c.(now := Arrived(c.now, path))
    decreases |path|
  {
    hide Step;
    if path != [] {
      hide Run;
      var c' := c.(now := path[0]);
      RunCons(t, c, Advance(path[0]), Advances(path[1..]));
      StepAdvance(t, c, path[0]);
      RunAdvances(t, c', path[1..]);
      assert Arrived(c'.now, path[1..]) == Arrived(c.now, path);
    }
  }

  lemma StepAdvance(t: Setup, c: Client, moment: nat)
    ensures Step(t, c, Advance(moment)) == c.(now := moment)
  {}

  lemma {:induction false} MomentsOfAdvances(path: seq<nat>)
    ensures Moments(Advances(path)) == path
  {
    if path != [] {
      assert Advances(path)[1..] == Advances(path[1..]);
      MomentsOfAdvances(path[1..]);
    }
  }

  /** Reach moment i, access, reach moment j, sweep or not, reach moment k, access again, finish the path. */
  function Reentry(path: seq<nat>, i: nat, j: nat, k: nat, q: Request, sweeps: seq<Op>): seq<Op>
    requires i < j < k < |path|
  {
    Advances(path[1..i + 1]) + ([Access(q)] + (Advances(path[i + 1..j + 1]) + (sweeps +
    (Advances(path[j + 1..k + 1]) + ([Access(q)] + Advances(path[k + 1..]))))))
  }

  lemma ReentryPath(path: seq<nat>, i: nat, j: nat, k: nat, q: Request, sweeps: seq<Op>)
    requires i < j < k < |path| && Moments(sweeps) == []
    ensures Path(path[0], Reentry(path, i, j, k, q, sweeps)) == path
  {
    hide Advances, Moments;
    var access := [Access(q)];
    var a1, a2, a3, a4 :=
      Advances(path[1..i + 1]), Advances(path[i + 1..j + 1]), Advances(path[j + 1..k + 1]), Advances(path[k + 1..]);
    MomentsOfAdvances(path[1..i + 1]);
    MomentsOfAdvances(path[i + 1..j + 1]);
    MomentsOfAdvances(path[j + 1..k + 1]);
    MomentsOfAdvances(path[k + 1..]);
    MomentsOfAccess(q);
    MomentsConcat(access, a4);
    MomentsConcat(a3, access + a4);
    MomentsConcat(sweeps, a3 + (access + a4));
    MomentsConcat(a2, sweeps + (a3 + (access + a4)));
    MomentsConcat(access, a2 + (sweeps + (a3 + (access + a4))));
    MomentsConcat(a1, access + (a2 + (sweeps + (a3 + (access + a4)))));
    PathPieces(path, i, j, k);
  }

  lemma PathPieces(path: seq<nat>, i: nat, j: nat, k: nat)
    requires i < j < k < |path|
    ensures path == [path[0]] + (path[1..i + 1] + (path[i + 1..j + 1] + (path[j + 1..k + 1] + path[k + 1..])))
  {}

  lemma MomentsOfAccess(q: Request)
    ensures Moments([Access(q)]) == []
  {}

  lemma ReentryThinned(path: seq<nat>, i: nat, j: nat, k: nat, q: Request, kind: InvalidationPolicy)
    requires i < j < k < |path|
    ensures Thinned(Reentry(path, i, j, k, q, [Invalidate(kind)]), Reentry(path, i, j, k, q, []))
  {
    hide Advances;
    var access := [Access(q)];
    var o5 := Advances(path[j + 1..k + 1]) + (access + Advances(path[k + 1..]));
    var o4 := [Invalidate(kind)] + o5;
    var a1, a2 := Advances(path[1..i + 1]), Advances(path[i + 1..j + 1]);
    ThinnedSelf(o5);
    assert o4[1..] == o5 && [] + o5 == o5;
    ThinnedConcat(a2, o4, o5);
    ThinnedConcat(access, a2 + o4, a2 + o5);
    ThinnedConcat(a1, access + (a2 + o4), access + (a2 + o5));
  }

  lemma {:induction false} ThinnedSelf(ops: seq<Op>)
    ensures Thinned(ops, ops)
  {
    if ops != [] {
      ThinnedSelf(ops[1..]);
    }
  }

  /** The client inside that run, from its first access to its second. */
  lemma ReentryRun(t: Setup, path: seq<nat>, i: nat, j: nat, k: nat, q: Request, sweeps: seq<Op>)
    requires i < j < k < |path|
    ensures var c1 := Step(t, Start(path[i]), Access(q));
            var c2 := Run(t, c1.(now := path[j]), sweeps);
            Run(t, Start(path[0]), Reentry(path, i, j, k, q, sweeps)).answers ==
              Step(t, c2.(now := path[k]), Access(q)).answers
  {
    hide Step, Start;
    var access := [Access(q)];
    var o6 := access + Advances(path[k + 1..]);
    var o5 := Advances(path[j + 1..k + 1]) + o6;
    var o4 := sweeps + o5;
    var o3 := Advances(path[i + 1..j + 1]) + o4;
    var o2 := access + o3;
    assert o6[1..] == Advances(path[k + 1..]) && o2[1..] == o3;
    StartAt(t, path, i);
    RunConcat(t, Start(path[0]), Advances(path[1..i + 1]), o2);
    var c1 := Step(t, Start(path[i]), Access(q));
    RunConcat(t, c1, Advances(path[i + 1..j + 1]), o4);
    RunAdvances(t, c1, path[i + 1..j + 1]);
    assert Run(t, c1, Advances(path[i + 1..j + 1])) == c1.(now := path[j]);
    RunConcat(t, c1.(now := path[j]), sweeps, o5);
    var c2 := Run(t, c1.(now := path[j]), sweeps);
    RunConcat(t, c2, Advances(path[j + 1..k + 1]), o6);
    RunAdvances(t, c2, path[j + 1..k + 1]);
    assert Run(t, c2, Advances(path[j + 1..k + 1])) == c2.(now := path[k]);
    RunAdvances(t, Step(t, c2.(now := path[k]), Access(q)), path[k + 1..]);
  }

  lemma StartAt(t: Setup, path: seq<nat>, i: nat)
    requires i < |path|
    ensures Run(t, Start(path[0]), Advances(path[1..i + 1])) == Start(path[i])
  {
    RunAdvances(t, Start(path[0]), path[1..i + 1]);
  }

  /** If the clock returns to a tick, a sweep in between costs the hit of a key whose policy saw the change. */
  lemma ReturningClockCostsHit(t: Setup, path: seq<nat>, i: nat, j: nat, k: nat, q: Request)
    requires t.capacity > 0 && q.syscallId in t.policies
    requires Returns(t.world, t.policies[q.syscallId], path, i, j, k)
    ensures var kind := t.policies[q.syscallId];
            var more, fewer := Reentry(path, i, j, k, q, [Invalidate(kind)]), Reentry(path, i, j, k, q, []);
            && Thinned(more, fewer) && Path(path[0], more) == path
            && var a, b := Run(t, Start(path[0]), more).answers, Run(t, Start(path[0]), fewer).answers;
            && |a| == |b| == 2 && b[1].hit && !a[1].hit
  {
    hide Hash;
    var kind := t.policies[q.syscallId];
    ReentryPath(path, i, j, k, q, [Invalidate(kind)]);
    ReentryThinned(path, i, j, k, q, kind);
    ReentryRun(t, path, i, j, k, q, [Invalidate(kind)]);
    ReentryRun(t, path, i, j, k, q, []);
    var c1 := Step(t, Start(path[i]), Access(q)).(now := path[j]);
    var e := Entry(KeyOf(q), Truth(t.world, q, path[i]));
    assert c1.cache.lru == [e];
    assert [Invalidate(kind)][1..] == [];
    assert Run(t, c1, [Invalidate(kind)]) == Step(t, c1, Invalidate(kind));
    assert [e][1..] == [] && [e][0] == e;
    assert Sweep(t.policies, kind, [e], t.world.epoch(path[j]), t.world.slot(path[j])) == [];
  }

  /**
   On this path of the clock, no run and no addition of sweeps to it loses a hit, exactly
   when no policy's tick is entered again after it was left.
   */
  lemma SweepsCostExact(t: Setup, path: seq<nat>)
    requires t.capacity > 0 && path != []
    ensures NoReturn(t, path) <==>
            forall more, fewer ::
              Thinned(more, fewer) && Path(path[0], more) == path ==> NoHitLost(t, path[0], more, fewer)
  {
    hide Run, Reentry, SameTick;
    if NoReturn(t, path) {
      forall more, fewer | Thinned(more, fewer) && Path(path[0], more) == path
        ensures NoHitLost(t, path[0], more, fewer)
      {
        SweepsNeverCostHits(t, path[0], more, fewer);
      }
    } else {
      var kind, i, j, k :| kind in t.policies.Values && Returns(t.world, kind, path, i, j, k);
      var id :| id in t.policies && t.policies[id] == kind;
      var q := Request(id, []);
      ReturningClockCostsHit(t, path, i, j, k, q);
      assert !NoHitLost(t, path[0], Reentry(path, i, j, k, q, [Invalidate(kind)]), Reentry(path, i, j, k, q, []));
    }
  }
}
