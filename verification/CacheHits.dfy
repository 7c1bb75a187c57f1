/** Exactly when an access hits in a run without sweeps. */
module CacheHits {
  import opened Common
  import opened Fnv
  import opened Sequences
  import opened Lru
  import opened SysvarCaches
  import opened CacheRuns

  // ---- Recency --------------------------------------------------------------------------------

  /** The distinct keys of a trail, most recently visited first. */
  function RecentKeys(trail: seq<Visit>): seq<CacheKey> {
    if trail == [] then [] else
    var last := |trail| - 1;
    [trail[last].key] + Remove(RecentKeys(trail[..last]), trail[last].key)
  }

  /** Is i the index of the last visit of the key? */
  ghost predicate LastVisit(trail: seq<Visit>, key: CacheKey, i: int) {
    0 <= i < |trail| && trail[i].key == key && forall j :: i < j < |trail| ==> trail[j].key != key
  }

  /** The distinct keys visited after index i. */
  ghost function KeysSince(trail: seq<Visit>, i: int): set<CacheKey>
    requires 0 <= i < |trail|
  {
    set j | i < j < |trail| :: trail[j].key
  }

  lemma {:induction false} RecentKeysNoDup(trail: seq<Visit>)
    ensures NoDup(RecentKeys(trail))
  {
    if trail != [] {
      var last := |trail| - 1;
      RecentKeysNoDup(trail[..last]);
      RemoveMembers(RecentKeys(trail[..last]), trail[last].key);
      NoDupCons(trail[last].key, Remove(RecentKeys(trail[..last]), trail[last].key));
    }
  }

  /** The keys ahead of a key in recency order are the distinct keys visited since its last visit. */
  lemma {:induction false} RankIsKeysSince(trail: seq<Visit>, key: CacheKey, i: int, n: nat)
    requires LastVisit(trail, key, i)
    ensures key in Cut(RecentKeys(trail), n) <==> |KeysSince(trail, i)| < n
  {
    var p := PositionOf(trail, key, i);
    RecentKeysNoDup(trail);
    var r := RecentKeys(trail);
    NoDupSize(r[..p]);
    assert key in Cut(r, n) ==> p < n by {
      if p >= n {
        assert forall j :: 0 <= j < |Cut(r, n)| ==> Cut(r, n)[j] == r[j] != r[p];
      }
    }
    assert p < n ==> Cut(r, n)[p] == key;
  }

  lemma KeysSinceExtend(trail: seq<Visit>, i: int, v: Visit)
    requires 0 <= i < |trail|
    ensures KeysSince(trail + [v], i) == KeysSince(trail, i) + {v.key}
  {
    var longer := trail + [v];
    assert longer[|trail|] == v;
    forall k | k in KeysSince(trail, i) ensures k in KeysSince(longer, i) {
      var j :| i < j < |trail| && trail[j].key == k;
      assert longer[j].key == k;
    }
  }

  lemma {:induction false} PositionOf(trail: seq<Visit>, key: CacheKey, i: int) returns (p: nat)
    requires LastVisit(trail, key, i)
    ensures p < |RecentKeys(trail)| && RecentKeys(trail)[p] == key
    ensures Elements(RecentKeys(trail)[..p]) == KeysSince(trail, i)
  {
    var last := |trail| - 1;
    var x, before := trail[last].key, RecentKeys(trail[..last]);
    if i == last {
      p := 0;
      assert KeysSince(trail, i) == {};
    } else {
      var q := PositionOf(trail[..last], key, i);
      RecentKeysNoDup(trail[..last]);
      p := RemoveShift(before, x, q);
      ElementsCons(x, Remove(before, x)[..p]);
      p := p + 1;
      assert RecentKeys(trail)[..p] == [x] + Remove(before, x)[..p - 1];
      assert trail == trail[..last] + [trail[last]];
      KeysSinceExtend(trail[..last], i, trail[last]);
    }
  }

  // ---- Exact hits without sweeps ----------------------------------------------------------------

  predicate NoSweeps(ops: seq<Op>) {
    forall op :: op in ops ==> !op.Invalidate?
  }

  /**
   The prediction from the trail alone: the key was visited before, fewer than `capacity` distinct
   other keys were visited since, and its policy saw no change since that visit.
   */
  ghost predicate Predicted(t: Setup, trail: seq<Visit>, v: Visit) {
    exists i :: && LastVisit(trail, v.key, i)
                && |KeysSince(trail, i)| < t.capacity
                && SameTick(t.world, PolicyOf(t.policies, v.key.syscallId), trail[i].moment, v.moment)
  }

  /** Every entry carries, where its policy looks, the stamp of the last visit of its key. */
  ghost predicate StampedAtLastVisit(t: Setup, trail: seq<Visit>, l: Entries) {
    forall key :: Peek(l, key).Some? ==>
      exists i :: LastVisit(trail, key, i) && Stamped(t, key, Peek(l, key).value, trail[i].moment)
  }

  predicate Stamped(t: Setup, key: CacheKey, result: CachedResult, moment: nat) {
    Fresh(PolicyOf(t.policies, key.syscallId), result, t.world.epoch(moment), t.world.slot(moment))
  }

  /** What holds of any client, swept or not. */
  ghost predicate ClientInv(t: Setup, c: Client) {
    && WellFormed(t.capacity, c.cache.lru)
    && StampedAtLastVisit(t, c.trail, c.cache.lru)
    && Subseq(Keys(c.cache.lru), RecentKeys(c.trail))
  }

  /** Without sweeps the cache holds exactly the most recently visited keys. */
  ghost predicate Unswept(t: Setup, c: Client) {
    ClientInv(t, c) && Keys(c.cache.lru) == Cut(RecentKeys(c.trail), t.capacity)
  }

  /** An access or a prefill moves its key to the front of the list, hit or miss. */
  lemma VisitKeys(t: Setup, c: Client, op: Op, q: Request)
    requires WellFormed(t.capacity, c.cache.lru) && Visits(op, q)
    ensures Keys(Step(t, c, op).cache.lru) == Cut([KeyOf(q)] + Remove(Keys(c.cache.lru), KeyOf(q)), t.capacity)
    ensures WellFormed(t.capacity, Step(t, c, op).cache.lru)
    ensures Step(t, c, op).now == c.now && Step(t, c, op).trail == c.trail + [Visit(KeyOf(q), c.now)]
  {
    hide Hash;
    var w, l, key := t.world, c.cache.lru, KeyOf(q);
    var e := Entry(key, Truth(w, q, c.now));
    LookupWellFormed(t.capacity, t.policies, c.cache, key, w.epoch(c.now), w.slot(c.now));
    PutWellFormed(t.capacity, Lookup(t.policies, c.cache, key, w.epoch(c.now), w.slot(c.now)).0.lru, key, e.result);
    PutWellFormed(t.capacity, l, key, e.result);
    PopKeys(l, key);
    PopWellFormed(t.capacity, l, key);
    PopKeys(Pop(l, key), key);
    RemoveAbsent(Keys(Pop(l, key)), key);
    PeekFinds(l, key);
    KeysIndex(l);
    KeysIndex(Pop(l, key));
    KeysCut([e] + Pop(l, key), t.capacity);
    KeysCut([e] + Pop(Pop(l, key), key), t.capacity);
  }

  /** It leaves its key freshly stamped and disturbs no other result that it keeps. */
  lemma VisitPeek(t: Setup, c: Client, op: Op, q: Request, other: CacheKey)
    requires WellFormed(t.capacity, c.cache.lru) && Visits(op, q)
    ensures var l, key := Step(t, c, op).cache.lru, KeyOf(q);
            && (other == key ==> Peek(l, key).Some? && Stamped(t, key, Peek(l, key).value, c.now))
            && (other != key && Peek(l, other).Some? ==> Peek(l, other) == Peek(c.cache.lru, other))
  {
    hide Hash;
    var l, key := c.cache.lru, KeyOf(q);
    var e := Entry(key, Truth(t.world, q, c.now));
    PopWellFormed(t.capacity, l, key);
    PeekAfterPop(l, key, other);
    PeekAfterPop(Pop(l, key), key, other);
    PeekAfterCut([e] + Pop(l, key), t.capacity, other);
    PeekAfterCut([e] + Pop(Pop(l, key), key), t.capacity, other);
  }

  lemma LastVisitExtend(trail: seq<Visit>, v: Visit)
    ensures LastVisit(trail + [v], v.key, |trail|)
    ensures forall key, i :: key != v.key && LastVisit(trail, key, i) ==> LastVisit(trail + [v], key, i)
  {}

  lemma LastVisitUnique(trail: seq<Visit>, key: CacheKey, i: int, j: int)
    requires LastVisit(trail, key, i) && LastVisit(trail, key, j)
    ensures i == j
  {}

  lemma ClientInvVisit(t: Setup, c: Client, op: Op, q: Request)
    requires ClientInv(t, c) && Visits(op, q)
    ensures ClientInv(t, Step(t, c, op))
    ensures Unswept(t, c) ==> Unswept(t, Step(t, c, op))
  {
    hide Hash, Step;
    var key := KeyOf(q);
    var v, c' := Visit(key, c.now), Step(t, c, op);
    VisitKeys(t, c, op, q);
    var old_r, r, l := RecentKeys(c.trail), RecentKeys(c'.trail), c'.cache.lru;
    assert c'.trail[..|c.trail|] == c.trail;
    assert r == [key] + Remove(old_r, key);
    LastVisitExtend(c.trail, v);
    forall other | Peek(l, other).Some?
      ensures exists i :: LastVisit(c'.trail, other, i) && Stamped(t, other, Peek(l, other).value, c'.trail[i].moment)
    {
      VisitPeek(t, c, op, q, other);
      if other == key {
        assert LastVisit(c'.trail, key, |c.trail|);
      } else {
        var i :| LastVisit(c.trail, other, i) && Stamped(t, other, Peek(l, other).value, c.trail[i].moment);
        assert LastVisit(c'.trail, other, i) && c'.trail[i] == c.trail[i];
      }
    }
    RecentKeysNoDup(c.trail);
    SubseqRemove(Keys(c.cache.lru), old_r, key);
    var moved := [key] + Remove(Keys(c.cache.lru), key);
    assert moved[1..] == Remove(Keys(c.cache.lru), key) && r[1..] == Remove(old_r, key);
    SubseqCut(moved, t.capacity);
    SubseqTrans(Keys(l), moved, r);
    CutThenMove(old_r, key, t.capacity - 1);
  }

  lemma PeekSweep(policies: Policies, kind: InvalidationPolicy, l: Entries, epoch: U64, slot: U64, key: CacheKey)
    requires NoDup(Keys(l))
    ensures Peek(Sweep(policies, kind, l, epoch, slot), key) ==
            match Peek(l, key)
            case None => None
            case Some(result) => if Swept(policies, kind, Entry(key, result), epoch, slot) then None else Some(result)
  {
    if l != [] {
      NoDupCons(l[0].key, Keys(l[1..]));
      PeekSweep(policies, kind, l[1..], epoch, slot, key);
      PeekFinds(l[1..], key);
    }
  }

  lemma ClientInvStep(t: Setup, c: Client, op: Op)
    requires ClientInv(t, c)
    ensures ClientInv(t, Step(t, c, op))
    ensures Unswept(t, c) && !op.Invalidate? ==> Unswept(t, Step(t, c, op))
  {
    match op
    case Access(q) => ClientInvVisit(t, c, op, q);
    case Prefill(q) => ClientInvVisit(t, c, op, q);
    case Advance(_) =>
    case Invalidate(kind) =>
      var w, l := t.world, c.cache.lru;
      var swept := Sweep(t.policies, kind, l, w.epoch(c.now), w.slot(c.now));
      SweepWellFormed(t.capacity, t.policies, kind, l, w.epoch(c.now), w.slot(c.now));
      SweepKeys(t.policies, kind, l, w.epoch(c.now), w.slot(c.now));
      SubseqTrans(Keys(swept), Keys(l), RecentKeys(c.trail));
      forall key | Peek(swept, key).Some? ensures Peek(l, key) == Peek(swept, key) {
        PeekSweep(t.policies, kind, l, w.epoch(c.now), w.slot(c.now), key);
      }
  }

  /** Does an access of the key hit now? */
  predicate Hits(t: Setup, c: Client, key: CacheKey) {
    Lookup(t.policies, c.cache, key, t.world.epoch(c.now), t.world.slot(c.now)).1.Some?
  }

  lemma HitIffPredicted(t: Setup, c: Client, key: CacheKey)
    requires Unswept(t, c)
    ensures Hits(t, c, key) <==> Predicted(t, c.trail, Visit(key, c.now))
  {
    var l := c.cache.lru;
    PeekFinds(l, key);
    if Peek(l, key).Some? {
      var i :| LastVisit(c.trail, key, i) && Stamped(t, key, Peek(l, key).value, c.trail[i].moment);
      RankIsKeysSince(c.trail, key, i, t.capacity);
      forall j | LastVisit(c.trail, key, j) ensures j == i {
        LastVisitUnique(c.trail, key, i, j);
      }
    } else {
      forall i | LastVisit(c.trail, key, i) ensures |KeysSince(c.trail, i)| >= t.capacity {
        RankIsKeysSince(c.trail, key, i, t.capacity);
      }
    }
  }

  /** Every answer so far is a hit exactly where the prediction from the trail before it says so. */
  ghost predicate AnswersPredicted(t: Setup, c: Client) {
    forall i :: 0 <= i < |c.answers| ==>
      var a := c.answers[i];
      a.at < |c.trail| && (a.hit <==> Predicted(t, c.trail[..a.at], c.trail[a.at]))
  }

  lemma PredictedStep(t: Setup, c: Client, op: Op)
    requires Unswept(t, c) && AnswersPredicted(t, c)
    ensures AnswersPredicted(t, Step(t, c, op))
  {
    hide Hash, Predicted;
    var c' := Step(t, c, op);
    if op.Access? {
      HitIffPredicted(t, c, KeyOf(op.request));
    }
    if op.Access? || op.Prefill? {
      assert c'.trail[..|c.trail|] == c.trail;
      assert forall i :: 0 <= i < |c.trail| ==> c'.trail[..i] == c.trail[..i];
    }
  }

  lemma {:induction false} RunHitsExactly(t: Setup, c: Client, ops: seq<Op>)
    requires Unswept(t, c) && AnswersPredicted(t, c) && NoSweeps(ops)
    ensures AnswersPredicted(t, Run(t, c, ops))
    decreases |ops|
  {
    hide Step, AnswersPredicted;
    if ops != [] {
      ClientInvStep(t, c, ops[0]);
      PredictedStep(t, c, ops[0]);
      RunHitsExactly(t, Step(t, c, ops[0]), ops[1..]);
    }
  }

  /** In a run without sweeps, hits are exactly the predicted ones, at every access. */
  lemma HitsExactly(t: Setup, start: nat, ops: seq<Op>)
    requires t.capacity > 0 && NoSweeps(ops)
    ensures AnswersPredicted(t, Run(t, Start(start), ops))
  {
    RunHitsExactly(t, Start(start), ops);
  }

  // ---- Two clients ---------------------------------------------------------------------------------

  /** Two clients that have done the same, whatever their caches answered. */
  ghost predicate SameRequests(c: Client, c': Client) {
    && c.now == c'.now && c.trail == c'.trail && |c.answers| == |c'.answers|
    && forall i :: 0 <= i < |c.answers| ==>
         c.answers[i].request == c'.answers[i].request && c.answers[i].at == c'.answers[i].at
  }

  /** Wherever the second client hit, so did the first. */
  ghost predicate HitsKept(better: seq<Answer>, worse: seq<Answer>) {
    |better| == |worse| && forall i :: 0 <= i < |worse| && worse[i].hit ==> better[i].hit
  }

  /** Entries of one key in two clients with one trail are fresh at the same moments. */
  lemma FreshTogether(t: Setup, a: Client, b: Client, key: CacheKey, moment: nat)
    requires StampedAtLastVisit(t, a.trail, a.cache.lru) && StampedAtLastVisit(t, b.trail, b.cache.lru)
    requires a.trail == b.trail
    requires Peek(a.cache.lru, key).Some? && Peek(b.cache.lru, key).Some?
    ensures Stamped(t, key, Peek(a.cache.lru, key).value, moment) <==>
            Stamped(t, key, Peek(b.cache.lru, key).value, moment)
  {
    var i :| LastVisit(a.trail, key, i) && Stamped(t, key, Peek(a.cache.lru, key).value, a.trail[i].moment);
    var j :| LastVisit(b.trail, key, j) && Stamped(t, key, Peek(b.cache.lru, key).value, b.trail[j].moment);
    LastVisitUnique(a.trail, key, i, j);
  }

  /** A visit keeps two such clients together if the first hits wherever the second does. */
  lemma VisitTogether(t: Setup, t': Setup, a: Client, b: Client, op: Op, q: Request)
    requires Visits(op, q) && SameRequests(a, b) && HitsKept(a.answers, b.answers)
    requires Hits(t', b, KeyOf(q)) ==> Hits(t, a, KeyOf(q))
    ensures var a', b' := Step(t, a, op), Step(t', b, op);
            SameRequests(a', b') && HitsKept(a'.answers, b'.answers)
  {
    hide Hash, Put, Peek, Promote, Pop;
  }
}
