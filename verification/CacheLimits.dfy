/** The cache behind the validator: exactly when what it approves is served right, and where it is not. */
module CacheLimits {
  import opened Common
  import opened Fnv
  import opened Classifier
  import opened SysvarCaches
  import opened CacheRuns
  import opened Validator

  function Approved(v: SafetyValidator): Gate {
    (id: SyscallId) => v.ValidateCache(id).approved
  }

  /** The ids that the gate lets through: with determinism enforced those listed, otherwise all. */
  function Listed(v: SafetyValidator): Gate {
    (id: SyscallId) => !v.enforceDeterminism || id in READ_ONLY_IDS + IDEMPOTENT_IDS
  }

  /**
   How long the policy table takes a result to last: that of a crypto call for ever, the slot hashes for
   a slot, everything else for an epoch.
   */
  predicate MustAgree(w: World, id: SyscallId, m: nat, m': nat) {
    if id in {20, 21, 22, 23} then true
    else if id == 5 then w.slot(m) == w.slot(m')
    else w.epoch(m) == w.epoch(m')
  }

  /** The results of the listed ids last that long. */
  ghost predicate ListedResultsLast(v: SafetyValidator, w: World) {
    forall q: Request, m, m' :: Listed(v)(q.syscallId) && MustAgree(w, q.syscallId, m, m') ==>
      w.truth(q, m) == w.truth(q, m')
  }

  lemma SourceTicks(w: World, id: SyscallId, m: nat, m': nat)
    ensures SameTick(w, PolicyOf(SOURCE_POLICIES, id), m, m') <==> MustAgree(w, id, m, m')
  {}

  /**
   What `validate_cache` approves may be cached, in every run of approved requests, exactly when the results
   of the listed ids last as long as the policy table takes them to last, and no requests of listed ids with
   different results share a key.
   */
  lemma GatedCacheExact(v: SafetyValidator, t: Setup)
    requires t.capacity > 0 && t.policies == SOURCE_POLICIES
    ensures Transparent(t, Approved(v)) <==> ListedResultsLast(v, t.world) && CollisionFree(t.world, Listed(v))
    ensures TransparentForward(t, Approved(v)) <==> ListedResultsLast(v, t.world) && CollisionFree(t.world, Listed(v))
  {
    TransparentIffStableAndCollisionFree(t, Approved(v));
    hide Hash, Transparent, TransparentForward, SameTick, PolicyOf, MustAgree;
    forall q: Request, m, m'
      ensures SameTick(t.world, PolicyOf(t.policies, q.syscallId), m, m') <==> MustAgree(t.world, q.syscallId, m, m')
    {
      SourceTicks(t.world, q.syscallId, m, m');
    }
    forall id: SyscallId ensures Approved(v)(id) <==> Listed(v)(id) {
      CacheApproval(v, id);
    }
  }

  /**
   `get_return_data` is approved for caching, but has no policy of its own and so falls under the epoch.
   If its result changes within an epoch, the second of two approved reads gets the first one's result,
   and some run fails in this way in which the clock only goes forward.
   */
  lemma ApprovedReadGoesStale(v: SafetyValidator, t: Setup, args: Bytes, m: nat, m': nat)
    requires t.capacity > 0 && t.policies == SOURCE_POLICIES
    requires t.world.epoch(m) == t.world.epoch(m')
    requires var q := Request(SOL_GET_RETURN_DATA, args); t.world.truth(q, m) != t.world.truth(q, m')
    ensures var q := Request(SOL_GET_RETURN_DATA, args);
            var ops := [Access(q), Advance(m'), Access(q)];
            var c := Run(t, Start(m), ops);
            && AllAdmitted(Approved(v), ops)
            && |c.answers| == |c.trail| == 2 && c.trail[1].moment == m'
            && c.answers[1] == Answer(q, t.world.truth(q, m), true, 1)
            && c.answers[1].value != t.world.truth(q, m')
    ensures !TransparentForward(t, Approved(v))
  {
    hide Hash, TransparentForward;
    var q := Request(SOL_GET_RETURN_DATA, args);
    var ops := [Access(q), Advance(m'), Access(q)];
    assert SameTick(t.world, PolicyOf(t.policies, q.syscallId), m, m');
    StaleRun(t, q, q, m, m');
    assert AllAdmitted(Approved(v), ops);
    GatedCacheExact(v, t);
    assert MustAgree(t.world, q.syscallId, m, m');
  }

  /** Requests of one id whose arguments differ in exactly one byte never share an entry. */
  lemma OneByteApartNeverShare(id: SyscallId, a: Bytes, b: Bytes, k: nat)
    requires |a| == |b| && k < |a| && a[k] != b[k]
    requires forall i :: 0 <= i < |a| && i != k ==> a[i] == b[i]
    ensures KeyOf(Request(id, a)) != KeyOf(Request(id, b))
  {
    hide Hash;
    OneByteDifferenceNeverCollides(a, b, k);
  }
}
