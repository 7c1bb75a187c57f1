/** A larger cache hits wherever a smaller one does, whatever is swept and wherever the clock goes. */
module CacheSizes {
  import opened Common
  import opened Fnv
  import opened Sequences
  import opened Lru
  import opened SysvarCaches
  import opened CacheRuns
  import opened CacheHits

  lemma {:induction false} PeekAt(l: Entries, i: nat)
    requires NoDup(Keys(l)) && i < |l|
    ensures Peek(l, l[i].key) == Some(l[i].result)
  {
    KeysIndex(l);
    if i > 0 {
      NoDupCons(l[0].key, Keys(l[1..]));
      PeekAt(l[1..], i - 1);
    }
  }

  lemma SweepFirst(policies: Policies, kind: InvalidationPolicy, l: Entries, epoch: U64, slot: U64)
    requires l != []
    ensures var rest := Keys(Sweep(policies, kind, l[1..], epoch, slot));
            Keys(Sweep(policies, kind, l, epoch, slot)) ==
            if Swept(policies, kind, l[0], epoch, slot) then rest else [l[0].key] + rest
  {
    hide Swept;
    var rest := Sweep(policies, kind, l[1..], epoch, slot);
    assert ([l[0]] + rest)[1..] == rest;
  }

  /** A sweep keeps the prefix if it treats the common keys alike. */
  lemma {:induction false} SweepPrefix(
    policies: Policies, kind: InvalidationPolicy, l: Entries, l': Entries, epoch: U64, slot: U64)
    requires Keys(l) <= Keys(l') && |l| <= |l'|
    requires forall i :: 0 <= i < |l| ==>
               (Swept(policies, kind, l[i], epoch, slot) <==> Swept(policies, kind, l'[i], epoch, slot))
    ensures Keys(Sweep(policies, kind, l, epoch, slot)) <= Keys(Sweep(policies, kind, l', epoch, slot))
  {
    hide Swept;
    if l != [] {
      assert Keys(l)[1..] == Keys(l[1..]) && Keys(l')[1..] == Keys(l'[1..]);
      assert Keys(l)[0] == Keys(l')[0];
      SweepPrefix(policies, kind, l[1..], l'[1..], epoch, slot);
      hide *;
      SweepFirst(policies, kind, l, epoch, slot);
      SweepFirst(policies, kind, l', epoch, slot);
    }
  }

  /** The smaller cache holds the first keys of the larger one, and has hit nowhere else. */
  ghost predicate Within(t: Setup, larger: Setup, a: Client, b: Client) {
    && ClientInv(t, a) && ClientInv(larger, b) && SameRequests(a, b)
    && Keys(a.cache.lru) <= Keys(b.cache.lru) && HitsKept(b.answers, a.answers)
  }

  ghost predicate Larger(t: Setup, larger: Setup) {
    0 < t.capacity <= larger.capacity && larger == t.(capacity := larger.capacity)
  }

  /** A key in both caches is as fresh in one as in the other. */
  lemma AsFresh(t: Setup, larger: Setup, a: Client, b: Client, key: CacheKey, moment: nat)
    requires Larger(t, larger) && ClientInv(t, a) && ClientInv(larger, b) && SameRequests(a, b)
    requires Peek(a.cache.lru, key).Some? && Peek(b.cache.lru, key).Some?
    ensures Stamped(t, key, Peek(a.cache.lru, key).value, moment) <==>
            Stamped(t, key, Peek(b.cache.lru, key).value, moment)
  {
    assert StampedAtLastVisit(t, b.trail, b.cache.lru) by {
      forall k | Peek(b.cache.lru, k).Some?
        ensures exists i :: LastVisit(b.trail, k, i) && Stamped(t, k, Peek(b.cache.lru, k).value, b.trail[i].moment)
      {
        var i :| LastVisit(b.trail, k, i) && Stamped(larger, k, Peek(b.cache.lru, k).value, b.trail[i].moment);
        assert Stamped(t, k, Peek(b.cache.lru, k).value, b.trail[i].moment);
      }
    }
    FreshTogether(t, a, b, key, moment);
  }

  lemma WithinVisit(t: Setup, larger: Setup, a: Client, b: Client, op: Op, q: Request)
    requires Larger(t, larger) && Within(t, larger, a, b) && Visits(op, q)
    ensures Within(t, larger, Step(t, a, op), Step(larger, b, op))
  {
    hide Hash, Step;
    var key := KeyOf(q);
    ClientInvVisit(t, a, op, q);
    ClientInvVisit(larger, b, op, q);
    VisitKeys(t, a, op, q);
    VisitKeys(larger, b, op, q);
    RemovePrefix(Keys(a.cache.lru), Keys(b.cache.lru), key);
    CutPrefix([key] + Remove(Keys(a.cache.lru), key), [key] + Remove(Keys(b.cache.lru), key),
              t.capacity, larger.capacity);
    WithinHit(t, larger, a, b, op, q);
  }

  lemma WithinHit(t: Setup, larger: Setup, a: Client, b: Client, op: Op, q: Request)
    requires Larger(t, larger) && Within(t, larger, a, b) && Visits(op, q)
    ensures var a', b' := Step(t, a, op), Step(larger, b, op);
            SameRequests(a', b') && HitsKept(b'.answers, a'.answers)
  {
    hide Hash, Step, ClientInv;
    if Hits(t, a, KeyOf(q)) {
      PeekFinds(a.cache.lru, KeyOf(q));
      PeekFinds(b.cache.lru, KeyOf(q));
      PrefixMember(Keys(a.cache.lru), Keys(b.cache.lru), KeyOf(q));
      AsFresh(t, larger, a, b, KeyOf(q), a.now);
    }
    VisitTogether(larger, t, b, a, op, q);
  }

  lemma WithinSweep(t: Setup, larger: Setup, a: Client, b: Client, kind: InvalidationPolicy)
    requires Larger(t, larger) && Within(t, larger, a, b)
    ensures Within(t, larger, Step(t, a, Invalidate(kind)), Step(larger, b, Invalidate(kind)))
  {
    var w, l, l' := t.world, a.cache.lru, b.cache.lru;
    ClientInvStep(t, a, Invalidate(kind));
    ClientInvStep(larger, b, Invalidate(kind));
    KeysIndex(l);
    KeysIndex(l');
    forall i | 0 <= i < |l|
      ensures Swept(t.policies, kind, l[i], w.epoch(a.now), w.slot(a.now)) <==>
              Swept(t.policies, kind, l'[i], w.epoch(a.now), w.slot(a.now))
    {
      assert Keys(l)[i] == Keys(l')[i];
      PeekAt(l, i);
      PeekAt(l', i);
      AsFresh(t, larger, a, b, l[i].key, a.now);
    }
    SweepPrefix(t.policies, kind, l, l', w.epoch(a.now), w.slot(a.now));
  }

  lemma WithinStep(t: Setup, larger: Setup, a: Client, b: Client, op: Op)
    requires Larger(t, larger) && Within(t, larger, a, b)
    ensures Within(t, larger, Step(t, a, op), Step(larger, b, op))
  {
    hide Hash, Lookup, Put, Sweep;
    match op
    case Access(q) => WithinVisit(t, larger, a, b, op, q);
    case Prefill(q) => WithinVisit(t, larger, a, b, op, q);
    case Advance(_) =>
    case Invalidate(kind) => WithinSweep(t, larger, a, b, kind);
  }

  lemma {:induction false} RunWithin(t: Setup, larger: Setup, a: Client, b: Client, ops: seq<Op>)
    requires Larger(t, larger) && Within(t, larger, a, b)
    ensures Within(t, larger, Run(t, a, ops), Run(larger, b, ops))
    decreases |ops|
  {
    hide Step, Within;
    if ops != [] {
      WithinStep(t, larger, a, b, ops[0]);
      RunWithin(t, larger, Step(t, a, ops[0]), Step(larger, b, ops[0]), ops[1..]);
    }
  }

  /**
   In every run, through sweeps and any movement of the clock, a larger cache holds at each point all keys
   of a smaller one, in the same order and ahead of its own others, and hits at every access where it does.
   */
  lemma LargerCacheHitsMore(t: Setup, larger: Setup, start: nat, ops: seq<Op>)
    requires Larger(t, larger)
    ensures var a, b := Run(t, Start(start), ops), Run(larger, Start(start), ops);
            && SameRequests(a, b) && HitsKept(b.answers, a.answers)
            && Keys(a.cache.lru) <= Keys(b.cache.lru)
  {
    RunWithin(t, larger, Start(start), Start(start), ops);
  }
}
