/**
 Whole runs of a read-through client of the cache, in a world where the epoch, the slot and the true
 result of every call depend on the moment. A client access looks the key up and, on a miss, makes
 the call and inserts its result with the current stamps; it may insert results ahead of time too, and
 may keep requests of some ids away from the cache.
 */
module CacheRuns {
  import opened Common
  import opened Fnv
  import opened Lru
  import opened SysvarCaches

  /** A call with its argument bytes; the cache sees only their hash. */
  datatype Request = Request(syscallId: SyscallId, args: Bytes)

  function KeyOf(q: Request): CacheKey {
    CacheKey(q.syscallId, Hash(q.args))
  }

  datatype World = World(epoch: nat -> U64, slot: nat -> U64, truth: (Request, nat) -> Bytes)

  datatype Op =
    | Access(request: Request)
    | Prefill(request: Request)           // an insert that no lookup asked for
    | Advance(moment: nat)                // time moves to this moment, in either direction
    | Invalidate(kind: InvalidationPolicy)

  datatype Visit = Visit(key: CacheKey, moment: nat)
  datatype Answer = Answer(request: Request, value: Bytes, hit: bool, at: nat)

  /**
   The cache, the clock, the visits of keys by accesses and prefills, and the answers to the accesses,
   each with the index of its visit.
   */
  datatype Client = Client(cache: Cache, now: nat, trail: seq<Visit>, answers: seq<Answer>)

  /** A cache configuration: the world it runs in, its policies and its capacity. */
  datatype Setup = Setup(world: World, policies: Policies, capacity: nat)

  function Start(now: nat): Client {
    Client(Cache([], 0, 0), now, [], [])
  }

  function Truth(w: World, q: Request, moment: nat): CachedResult {
    CachedResult(w.truth(q, moment), w.epoch(moment), w.slot(moment))
  }

  function Step(t: Setup, c: Client, op: Op): Client {
    var w := t.world;
    match op
    case Access(q) =>
      var (cache, found) := Lookup(t.policies, c.cache, KeyOf(q), w.epoch(c.now), w.slot(c.now));
      var trail := c.trail + [Visit(KeyOf(q), c.now)];
      if found.Some? then
        Client(cache, c.now, trail, c.answers + [Answer(q, found.value.data, true, |c.trail|)])
      else
        var result := Truth(w, q, c.now);
        Client(cache.(lru := Put(t.capacity, cache.lru, KeyOf(q), result)), c.now, trail,
               c.answers + [Answer(q, result.data, false, |c.trail|)])
    case Prefill(q) =>
      c.(cache := c.cache.(lru := Put(t.capacity, c.cache.lru, KeyOf(q), Truth(w, q, c.now))),
         trail := c.trail + [Visit(KeyOf(q), c.now)])
    case Advance(moment) => c.(now := moment)
    case Invalidate(kind) =>
      c.(cache := c.cache.(lru := Sweep(t.policies, kind, c.cache.lru, w.epoch(c.now), w.slot(c.now))))
  }

  function Run(t: Setup, c: Client, ops: seq<Op>): Client
    decreases |ops|
  {
    if ops == [] then c else Run(t, Step(t, c, ops[0]), ops[1..])
  }

  // ---- Transparency ---------------------------------------------------------------------------

  /** Do two moments look the same to a policy? */
  predicate SameTick(w: World, policy: InvalidationPolicy, m: nat, m': nat) {
    match policy
    case Permanent => true
    case EpochBound => w.epoch(m) == w.epoch(m')
    case Slot => w.slot(m) == w.slot(m')
  }

  /** The ids that a client takes to the cache at all. */
  type Gate = SyscallId -> bool

  predicate Admitted(admit: Gate, op: Op) {
    op.Access? || op.Prefill? ==> admit(op.request.syscallId)
  }

  predicate AllAdmitted(admit: Gate, ops: seq<Op>) {
    forall i :: 0 <= i < |ops| ==> Admitted(admit, ops[i])
  }

  /**
   One key, one result, as far as admitted requests go: it can only change when the policy notices, and
   requests that share a key share it.
   */
  ghost predicate Coherent(w: World, policies: Policies, admit: Gate) {
    forall p: Request, q, m, m' ::
      admit(p.syscallId) && KeyOf(p) == KeyOf(q) && SameTick(w, PolicyOf(policies, p.syscallId), m, m') ==>
        w.truth(p, m) == w.truth(q, m')
  }

  ghost predicate AllTrue(w: World, c: Client) {
    forall i :: 0 <= i < |c.answers| ==>
      var a := c.answers[i];
      a.at < |c.trail| && a.value == w.truth(a.request, c.trail[a.at].moment)
  }

  /**
   No run of admitted requests, from any moment, through evictions, pops, sweeps and prefills, serves a
   wrong value.
   */
  ghost predicate Transparent(t: Setup, admit: Gate) {
    forall start: nat, ops :: AllAdmitted(admit, ops) ==> AllTrue(t.world, Run(t, Start(start), ops))
  }

  /** The clock never goes back. */
  predicate Forward(now: nat, ops: seq<Op>)
    decreases |ops|
  {
    ops == [] ||
    (if ops[0].Advance? then now <= ops[0].moment && Forward(ops[0].moment, ops[1..]) else Forward(now, ops[1..]))
  }

  /** The same, of the runs in which the clock never goes back. */
  ghost predicate TransparentForward(t: Setup, admit: Gate) {
    forall start: nat, ops :: AllAdmitted(admit, ops) && Forward(start, ops) ==>
      AllTrue(t.world, Run(t, Start(start), ops))
  }

  /**
   Every entry holds what was true of some admitted request with its key at some moment, with that
   moment's stamps.
   */
  ghost predicate Honest(w: World, admit: Gate, l: Entries) {
    forall e :: e in l ==> exists q: Request, m :: admit(q.syscallId) && IsTruth(w, e, q, m)
  }

  predicate IsTruth(w: World, e: Entry, q: Request, m: nat) {
    e == Entry(KeyOf(q), Truth(w, q, m))
  }

  lemma {:induction false} PopKeepsEntries(l: Entries, key: CacheKey)
    ensures forall e :: e in Pop(l, key) ==> e in l
  {
    if l != [] {
      PopKeepsEntries(l[1..], key);
    }
  }

  predicate Visits(op: Op, q: Request) {
    op == Access(q) || op == Prefill(q)
  }

  /** What an access or a prefill leaves in the cache was there before or is the current truth. */
  lemma EntriesAfter(t: Setup, c: Client, op: Op, q: Request)
    requires Visits(op, q)
    ensures forall e :: e in Step(t, c, op).cache.lru ==> e in c.cache.lru || IsTruth(t.world, e, q, c.now)
  {
    hide Hash;
    PopKeepsEntries(c.cache.lru, KeyOf(q));
    PopKeepsEntries(Pop(c.cache.lru, KeyOf(q)), KeyOf(q));
    PeekFinds(c.cache.lru, KeyOf(q));
  }

  lemma HonestStep(t: Setup, admit: Gate, c: Client, op: Op)
    requires Coherent(t.world, t.policies, admit) && Honest(t.world, admit, c.cache.lru) && AllTrue(t.world, c)
    requires Admitted(admit, op)
    ensures Honest(t.world, admit, Step(t, c, op).cache.lru) && AllTrue(t.world, Step(t, c, op))
  {
    hide Hash;
    var w, l := t.world, c.cache.lru;
    match op
    case Access(q) =>
      EntriesAfter(t, c, op, q);
      PeekFinds(l, KeyOf(q));
      if Peek(l, KeyOf(q)).Some? {
        var p: Request, m :| admit(p.syscallId) && IsTruth(w, Entry(KeyOf(q), Peek(l, KeyOf(q)).value), p, m);
        assert SameTick(w, PolicyOf(t.policies, q.syscallId), m, c.now) ==> w.truth(p, m) == w.truth(q, c.now);
      }
    case Prefill(q) => EntriesAfter(t, c, op, q);
    case Advance(_) =>
    case Invalidate(kind) => SweepKeepsEntries(t.policies, kind, l, w.epoch(c.now), w.slot(c.now));
  }

  lemma {:induction false} HonestRun(t: Setup, admit: Gate, c: Client, ops: seq<Op>)
    requires Coherent(t.world, t.policies, admit) && Honest(t.world, admit, c.cache.lru) && AllTrue(t.world, c)
    requires AllAdmitted(admit, ops)
    ensures AllTrue(t.world, Run(t, c, ops))
    decreases |ops|
  {
    if ops != [] {
      HonestStep(t, admit, c, ops[0]);
      HonestRun(t, admit, Step(t, c, ops[0]), ops[1..]);
    }
  }

  /** If one key stands for two results that its policy cannot tell apart, three operations serve the wrong one. */
  lemma StaleRun(t: Setup, p: Request, q: Request, m: nat, m': nat)
    requires t.capacity > 0 && KeyOf(p) == KeyOf(q) && SameTick(t.world, PolicyOf(t.policies, p.syscallId), m, m')
    ensures var c := Run(t, Start(m), [Access(p), Advance(m'), Access(q)]);
            && |c.trail| == |c.answers| == 2
            && c.trail[1] == Visit(KeyOf(q), m') && c.answers[1] == Answer(q, t.world.truth(p, m), true, 1)
  {
    hide Hash;
    var c0 := Start(m);
    var c1 := Step(t, c0, Access(p));
    var c2 := Step(t, c1, Advance(m'));
    var c3 := Step(t, c2, Access(q));
    assert c1.cache.lru == [Entry(KeyOf(p), Truth(t.world, p, m))];
    var ops := [Access(p), Advance(m'), Access(q)];
    assert ops[1..] == [Advance(m'), Access(q)] && ops[1..][1..] == [Access(q)] && ops[1..][1..][1..] == [];
    assert Run(t, c0, ops) == Run(t, c1, ops[1..]) == Run(t, c2, ops[1..][1..]) == Run(t, c3, []);
  }

  lemma ForwardThree(p: Request, q: Request, m: nat, m': nat)
    requires m <= m'
    ensures Forward(m, [Access(p), Advance(m'), Access(q)])
  {
    var ops := [Access(p), Advance(m'), Access(q)];
    var tail := [Advance(m'), Access(q)];
    assert ops[1..] == tail && tail[1..] == [Access(q)] && [Access(q)][1..] == [];
    assert Forward(m', [Access(q)]) && Forward(m, tail);
  }

  /** One key with two results that its policy cannot tell apart: the later one is answered wrongly. */
  lemma ForwardStaleRun(t: Setup, admit: Gate, p: Request, q: Request, m: nat, m': nat)
    requires t.capacity > 0 && admit(p.syscallId) && KeyOf(p) == KeyOf(q) && m <= m'
    requires SameTick(t.world, PolicyOf(t.policies, p.syscallId), m, m') && t.world.truth(p, m) != t.world.truth(q, m')
    ensures !TransparentForward(t, admit)
  {
    hide Hash, Run;
    StaleRun(t, p, q, m, m');
    var ops := [Access(p), Advance(m'), Access(q)];
    assert AllAdmitted(admit, ops);
    ForwardThree(p, q, m, m');
    assert !AllTrue(t.world, Run(t, Start(m), ops));
  }

  /**
   Behind any gate, the cache is invisible in every run exactly when what the gate admits is coherent,
   and no less is needed when the clock only goes forward.
   */
  lemma TransparentIffCoherent(t: Setup, admit: Gate)
    requires t.capacity > 0
    ensures Transparent(t, admit) <==> Coherent(t.world, t.policies, admit)
    ensures TransparentForward(t, admit) <==> Coherent(t.world, t.policies, admit)
  {
    hide Hash, Forward;
    if Coherent(t.world, t.policies, admit) {
      forall start: nat, ops | AllAdmitted(admit, ops) ensures AllTrue(t.world, Run(t, Start(start), ops)) {
        HonestRun(t, admit, Start(start), ops);
      }
    }
    if TransparentForward(t, admit) {
      forall p: Request, q, m: nat, m': nat |
        admit(p.syscallId) && KeyOf(p) == KeyOf(q) && SameTick(t.world, PolicyOf(t.policies, p.syscallId), m, m')
        ensures t.world.truth(p, m) == t.world.truth(q, m')
      {
        if t.world.truth(p, m) != t.world.truth(q, m') {
          if m <= m' {
            ForwardStaleRun(t, admit, p, q, m, m');
          } else {
            ForwardStaleRun(t, admit, q, p, m', m);
          }
        }
      }
    }
  }

  /** Each admitted request's result changes only when its policy notices. */
  ghost predicate Stable(w: World, policies: Policies, admit: Gate) {
    forall q: Request, m, m' ::
      admit(q.syscallId) && SameTick(w, PolicyOf(policies, q.syscallId), m, m') ==> w.truth(q, m) == w.truth(q, m')
  }

  /** Admitted requests whose results differ at some moment have different keys. */
  ghost predicate CollisionFree(w: World, admit: Gate) {
    forall p: Request, q, m :: admit(p.syscallId) && KeyOf(p) == KeyOf(q) ==> w.truth(p, m) == w.truth(q, m)
  }

  /** So two things, and only these, are asked of the world: stable results, and no harmful hash collision. */
  lemma TransparentIffStableAndCollisionFree(t: Setup, admit: Gate)
    requires t.capacity > 0
    ensures Transparent(t, admit) <==> Stable(t.world, t.policies, admit) && CollisionFree(t.world, admit)
    ensures TransparentForward(t, admit) <==> Stable(t.world, t.policies, admit) && CollisionFree(t.world, admit)
  {
    TransparentIffCoherent(t, admit);
    hide Hash, Transparent, TransparentForward;
    var w, policies := t.world, t.policies;
    if Coherent(w, policies, admit) {
      forall p: Request, q, m | admit(p.syscallId) && KeyOf(p) == KeyOf(q) ensures w.truth(p, m) == w.truth(q, m) {
        assert SameTick(w, PolicyOf(policies, p.syscallId), m, m);
      }
    }
    if Stable(w, policies, admit) && CollisionFree(w, admit) {
      forall p: Request, q, m, m' |
        admit(p.syscallId) && KeyOf(p) == KeyOf(q) && SameTick(w, PolicyOf(policies, p.syscallId), m, m')
        ensures w.truth(p, m) == w.truth(q, m')
      {
        assert w.truth(p, m) == w.truth(p, m');
      }
    }
  }
}
