/** The epoch- and slot-aware cache on top of the LRU map (optimizer/src/cache.rs). */
module SysvarCaches {
  import opened Common
  import opened Sequences
  import opened Lru

  datatype InvalidationPolicy = EpochBound | Permanent | Slot

  type Policies = map<SyscallId, InvalidationPolicy>

  const SOURCE_POLICIES: Policies := map[
    SOL_GET_CLOCK_SYSVAR := EpochBound,
    SOL_GET_RENT_SYSVAR := EpochBound,
    SOL_GET_EPOCH_SCHEDULE_SYSVAR := EpochBound,
    SOL_GET_FEES_SYSVAR := EpochBound,
    SOL_GET_SLOT_HASHES_SYSVAR := Slot,
    SOL_SHA256 := Permanent,
    SOL_KECCAK256 := Permanent,
    SOL_SECP256K1_RECOVER := Permanent,
    SOL_ED25519_VERIFY := Permanent]

  /** The policy `get` applies; an id without one counts as EpochBound here, but not in the sweeps. */
  function PolicyOf(policies: Policies, id: SyscallId): InvalidationPolicy {
    if id in policies then policies[id] else EpochBound
  }

  predicate Fresh(policy: InvalidationPolicy, result: CachedResult, epoch: U64, slot: U64) {
    match policy
    case Permanent => true
    case EpochBound => result.epoch == epoch
    case Slot => result.cachedAtSlot == slot
  }

  predicate Swept(policies: Policies, kind: InvalidationPolicy, e: Entry, epoch: U64, slot: U64) {
    e.key.syscallId in policies && policies[e.key.syscallId] == kind && !Fresh(kind, e.result, epoch, slot)
  }

  /** What a sweep leaves: everything but the stale entries of ids mapped explicitly to `kind`. */
  function Sweep(policies: Policies, kind: InvalidationPolicy, l: Entries, epoch: U64, slot: U64): Entries {
    if l == [] then [] else
    var rest := Sweep(policies, kind, l[1..], epoch, slot);
    if Swept(policies, kind, l[0], epoch, slot) then rest else [l[0]] + rest
  }

  /** Which entries each sweep removes under the source's policies: by id, and by the stamp that it compares. */
  lemma SourceSweeps(e: Entry, epoch: U64, slot: U64)
    ensures Swept(SOURCE_POLICIES, EpochBound, e, epoch, slot) <==>
            e.key.syscallId in {1, 2, 3, 4} && e.result.epoch != epoch
    ensures Swept(SOURCE_POLICIES, Slot, e, epoch, slot) <==>
            e.key.syscallId == 5 && e.result.cachedAtSlot != slot
    ensures !Swept(SOURCE_POLICIES, Permanent, e, epoch, slot)
  {}

  /** And when `get` takes an entry to be fresh. */
  lemma SourceFreshness(id: SyscallId, result: CachedResult, epoch: U64, slot: U64)
    ensures Fresh(PolicyOf(SOURCE_POLICIES, id), result, epoch, slot) <==>
            if id in {20, 21, 22, 23} then true
            else if id == 5 then result.cachedAtSlot == slot
            else result.epoch == epoch
  {}

  datatype Cache = Cache(lru: Entries, hits: U64, misses: U64)

  /** The whole effect of `get`: the next state and the answer. */
  function Lookup(policies: Policies, c: Cache, key: CacheKey, epoch: U64, slot: U64): (Cache, Option<CachedResult>) {
    match Peek(c.lru, key)
    case Some(result) =>
      if Fresh(PolicyOf(policies, key.syscallId), result, epoch, slot)
      then (Cache(Promote(c.lru, key), Bump(c.hits), c.misses), Some(result))
      else (Cache(Pop(c.lru, key), c.hits, Bump(c.misses)), None)
    case None => (c.(misses := Bump(c.misses)), None)
  }

  ghost predicate WellFormed(capacity: nat, l: Entries) {
    capacity > 0 && NoDup(Keys(l)) && |l| <= capacity
  }

  // ---- The class ------------------------------------------------------------------------------

  class AtomicU64 {
    var value: U64
    constructor (value: U64)
      ensures this.value == value
    {
      this.value := value;
    }
  }

  class SysvarCache {
    const capacity: nat
    const currentEpoch: AtomicU64
    const currentSlot: AtomicU64
    var inner: Entries
    var invalidationMap: Policies
    var hits: U64
    var misses: U64

    ghost predicate Valid()
      reads this
    {
      WellFormed(capacity, inner) && invalidationMap == SOURCE_POLICIES
    }

    ghost function View(): Cache
      reads this
    {
      Cache(inner, hits, misses)
    }

    constructor (capacity: nat, epoch: AtomicU64, slot: AtomicU64)
      ensures Valid() && View() == Cache([], 0, 0)
      ensures this.capacity == (if capacity == 0 then 1 else capacity)
      ensures currentEpoch == epoch && currentSlot == slot
    {
      this.capacity := if capacity == 0 then 1 else capacity;
      currentEpoch, currentSlot := epoch, slot;
      inner, hits, misses := [], 0, 0;
      invalidationMap := SOURCE_POLICIES;
    }

    method Insert(key: CacheKey, result: CachedResult)
      requires Valid()
      modifies this`inner
      ensures Valid() && inner == Put(capacity, old(inner), key, result)
    {
      PutWellFormed(capacity, inner, key, result);
      inner := Put(capacity, inner, key, result);
    }

    method Get(key: CacheKey) returns (found: Option<CachedResult>)
      requires Valid()
      modifies this`inner, this`hits, this`misses
      ensures Valid()
      ensures (View(), found) == Lookup(invalidationMap, old(View()), key, currentEpoch.value, currentSlot.value)
    {
      var policy := if key.syscallId in invalidationMap then invalidationMap[key.syscallId] else EpochBound;
      LookupWellFormed(capacity, invalidationMap, View(), key, currentEpoch.value, currentSlot.value);
      var entry := Peek(inner, key);
      if entry.Some? {
        var valid := match policy {
          case Permanent => true
          case EpochBound => entry.value.epoch == currentEpoch.value
          case Slot => entry.value.cachedAtSlot == currentSlot.value
        };
        if valid {
          hits := Bump(hits);
          inner := Promote(inner, key);
          return entry;
        } else {
          inner := Pop(inner, key);
        }
      }
      misses := Bump(misses);
      return None;
    }

    method InvalidateSlot()
      requires Valid()
      modifies this`inner
      ensures Valid()
      ensures inner == Sweep(invalidationMap, Slot, old(inner), currentEpoch.value, currentSlot.value)
      ensures forall e :: e in inner <==>
                e in old(inner) && !(e.key.syscallId == 5 && e.result.cachedAtSlot != currentSlot.value)
    {
      RemoveStale(Slot);
      SweptBySource(Slot, old(inner), currentEpoch.value, currentSlot.value);
    }

    method InvalidateEpoch()
      requires Valid()
      modifies this`inner
      ensures Valid()
      ensures inner == Sweep(invalidationMap, EpochBound, old(inner), currentEpoch.value, currentSlot.value)
      ensures forall e :: e in inner <==>
                e in old(inner) && !(e.key.syscallId in {1, 2, 3, 4} && e.result.epoch != currentEpoch.value)
    {
      RemoveStale(EpochBound);
      SweptBySource(EpochBound, old(inner), currentEpoch.value, currentSlot.value);
    }

    // The loops that the two sweeps share: collect the stale keys, then pop them one by one.
    method RemoveStale(kind: InvalidationPolicy)
      requires Valid()
      modifies this`inner
      ensures Valid()
      ensures inner == Sweep(invalidationMap, kind, old(inner), currentEpoch.value, currentSlot.value)
    {
      var epoch, slot := currentEpoch.value, currentSlot.value;
      var toRemove := CollectStale(invalidationMap, kind, inner, epoch, slot);
      SweepByPops(invalidationMap, kind, inner, epoch, slot);
      SweepWellFormed(capacity, invalidationMap, kind, inner, epoch, slot);
      for i := 0 to |toRemove|
        invariant PopAll(inner, toRemove[i..]) == PopAll(old(inner), toRemove)
      {
        inner := Pop(inner, toRemove[i]);
        assert toRemove[i..][1..] == toRemove[i + 1..];
      }
      assert toRemove[|toRemove|..] == [];
    }

    static method CollectStale(
      policies: Policies, kind: InvalidationPolicy, l: Entries, epoch: U64, slot: U64) returns (keys: seq<CacheKey>)
      ensures keys == StaleKeys(policies, kind, l, epoch, slot)
    {
      keys := [];
      for i := 0 to |l|
        invariant keys + StaleKeys(policies, kind, l[i..], epoch, slot) == StaleKeys(policies, kind, l, epoch, slot)
      {
        assert l[i..][1..] == l[i + 1..];
        if Swept(policies, kind, l[i], epoch, slot) {
          keys := keys + [l[i].key];
        }
      }
    }

    method Stats() returns (hits: U64, misses: U64)
      ensures (hits, misses) == (View().hits, View().misses)
    {
      hits, misses := this.hits, this.misses;
    }

    method Len() returns (len: nat)
      requires Valid()
      ensures len == |View().lru| <= capacity
    {
      len := |inner|;
    }
  }

  // ---- How the loops compute a sweep ----------------------------------------------------------

  function StaleKeys(policies: Policies, kind: InvalidationPolicy, l: Entries, epoch: U64, slot: U64): seq<CacheKey> {
    if l == [] then [] else
    var rest := StaleKeys(policies, kind, l[1..], epoch, slot);
    if Swept(policies, kind, l[0], epoch, slot) then [l[0].key] + rest else rest
  }

  function PopAll(l: Entries, keys: seq<CacheKey>): Entries
    decreases |keys|
  {
    if keys == [] then l else PopAll(Pop(l, keys[0]), keys[1..])
  }

  lemma {:induction false} PopAllCons(e: Entry, l: Entries, keys: seq<CacheKey>)
    requires e.key !in keys
    ensures PopAll([e] + l, keys) == [e] + PopAll(l, keys)
    decreases |keys|
  {
    if keys != [] {
      PopAllCons(e, Pop(l, keys[0]), keys[1..]);
    }
  }

  lemma {:induction false} StaleKeysAreKeys(
    policies: Policies, kind: InvalidationPolicy, l: Entries, epoch: U64, slot: U64)
    ensures forall k :: k in StaleKeys(policies, kind, l, epoch, slot) ==> k in Keys(l)
  {
    if l != [] {
      StaleKeysAreKeys(policies, kind, l[1..], epoch, slot);
    }
  }

  lemma {:induction false} SweepByPops(
    policies: Policies, kind: InvalidationPolicy, l: Entries, epoch: U64, slot: U64)
    requires NoDup(Keys(l))
    ensures PopAll(l, StaleKeys(policies, kind, l, epoch, slot)) == Sweep(policies, kind, l, epoch, slot)
  {
    if l != [] {
      NoDupCons(l[0].key, Keys(l[1..]));
      var rest := StaleKeys(policies, kind, l[1..], epoch, slot);
      SweepByPops(policies, kind, l[1..], epoch, slot);
      if Swept(policies, kind, l[0], epoch, slot) {
        assert ([l[0].key] + rest)[1..] == rest;
      } else {
        StaleKeysAreKeys(policies, kind, l[1..], epoch, slot);
        PopAllCons(l[0], l[1..], rest);
        assert [l[0]] + l[1..] == l;
      }
    }
  }

  // ---- What every operation keeps -------------------------------------------------------------

  lemma PopWellFormed(capacity: nat, l: Entries, key: CacheKey)
    requires WellFormed(capacity, l)
    ensures WellFormed(capacity, Pop(l, key)) && key !in Keys(Pop(l, key))
    ensures key in Keys(l) ==> |Pop(l, key)| == |l| - 1
  {
    PopKeys(l, key);
    RemoveMembers(Keys(l), key);
    RemoveSize(Keys(l), key);
    KeysIndex(l);
    KeysIndex(Pop(l, key));
  }

  lemma PutWellFormed(capacity: nat, l: Entries, key: CacheKey, result: CachedResult)
    requires WellFormed(capacity, l)
    ensures WellFormed(capacity, Put(capacity, l, key, result))
  {
    PopWellFormed(capacity, l, key);
    KeysCut([Entry(key, result)] + Pop(l, key), capacity);
  }

  lemma LookupWellFormed(capacity: nat, policies: Policies, c: Cache, key: CacheKey, epoch: U64, slot: U64)
    requires WellFormed(capacity, c.lru)
    ensures WellFormed(capacity, Lookup(policies, c, key, epoch, slot).0.lru)
  {
    PopWellFormed(capacity, c.lru, key);
    PeekFinds(c.lru, key);
  }

  lemma {:induction false} SweepKeys(policies: Policies, kind: InvalidationPolicy, l: Entries, epoch: U64, slot: U64)
    ensures Subseq(Keys(Sweep(policies, kind, l, epoch, slot)), Keys(l))
    ensures |Sweep(policies, kind, l, epoch, slot)| <= |l|
  {
    if l != [] {
      SweepKeys(policies, kind, l[1..], epoch, slot);
      var rest := Keys(Sweep(policies, kind, l[1..], epoch, slot));
      assert Keys(l)[1..] == Keys(l[1..]) && ([l[0].key] + rest)[1..] == rest;
      assert Keys([l[0]] + Sweep(policies, kind, l[1..], epoch, slot)) == [l[0].key] + rest;
    }
  }

  /** A sweep removes exactly the stale entries explicitly mapped to its policy, and keeps the order. */
  lemma {:induction false} SweepKeepsEntries(
    policies: Policies, kind: InvalidationPolicy, l: Entries, epoch: U64, slot: U64)
    ensures forall e :: e in Sweep(policies, kind, l, epoch, slot) <==>
                        e in l && !Swept(policies, kind, e, epoch, slot)
    ensures Subseq(Sweep(policies, kind, l, epoch, slot), l)
  {
    if l != [] {
      SweepKeepsEntries(policies, kind, l[1..], epoch, slot);
      assert l == [l[0]] + l[1..];
      var rest := Sweep(policies, kind, l[1..], epoch, slot);
      assert ([l[0]] + rest)[1..] == rest;
    }
  }

  lemma SweptBySource(kind: InvalidationPolicy, l: Entries, epoch: U64, slot: U64)
    ensures var swept := Sweep(SOURCE_POLICIES, kind, l, epoch, slot);
            && (kind == Slot ==> forall e :: e in swept <==>
                  e in l && !(e.key.syscallId == 5 && e.result.cachedAtSlot != slot))
            && (kind == EpochBound ==> forall e :: e in swept <==>
                  e in l && !(e.key.syscallId in {1, 2, 3, 4} && e.result.epoch != epoch))
  {
    SweepKeepsEntries(SOURCE_POLICIES, kind, l, epoch, slot);
    forall e: Entry
      ensures Swept(SOURCE_POLICIES, EpochBound, e, epoch, slot) <==>
              e.key.syscallId in {1, 2, 3, 4} && e.result.epoch != epoch
      ensures Swept(SOURCE_POLICIES, Slot, e, epoch, slot) <==>
              e.key.syscallId == 5 && e.result.cachedAtSlot != slot
    {
      SourceSweeps(e, epoch, slot);
    }
  }

  /** The two sweeps commute. */
  lemma {:induction false} SweepsCommute(
    policies: Policies, kind: InvalidationPolicy, kind': InvalidationPolicy, l: Entries, epoch: U64, slot: U64)
    ensures Sweep(policies, kind, Sweep(policies, kind', l, epoch, slot), epoch, slot) ==
            Sweep(policies, kind', Sweep(policies, kind, l, epoch, slot), epoch, slot)
  {
    if l != [] {
      SweepsCommute(policies, kind, kind', l[1..], epoch, slot);
    }
  }

  /** Sweeping again at the same clock removes nothing more. */
  lemma {:induction false} SweepIdempotent(
    policies: Policies, kind: InvalidationPolicy, l: Entries, epoch: U64, slot: U64)
    ensures var once := Sweep(policies, kind, l, epoch, slot);
            Sweep(policies, kind, once, epoch, slot) == once
  {
    if l != [] {
      SweepIdempotent(policies, kind, l[1..], epoch, slot);
    }
  }

  lemma {:induction false} SweepWellFormed(
    capacity: nat, policies: Policies, kind: InvalidationPolicy, l: Entries, epoch: U64, slot: U64)
    requires WellFormed(capacity, l)
    ensures WellFormed(capacity, Sweep(policies, kind, l, epoch, slot))
  {
    if l != [] {
      NoDupCons(l[0].key, Keys(l[1..]));
      SweepWellFormed(capacity, policies, kind, l[1..], epoch, slot);
      SweepKeys(policies, kind, l[1..], epoch, slot);
      var rest := Sweep(policies, kind, l[1..], epoch, slot);
      SubseqMembers(Keys(rest), Keys(l[1..]));
      NoDupCons(l[0].key, Keys(rest));
      assert Keys([l[0]] + rest) == [l[0].key] + Keys(rest);
    }
  }

  // ---- What a lookup and an insert do ---------------------------------------------------------------

  /**
   A lookup answers exactly when the key is present and fresh, with the stored result. A hit makes the
   key most recent, a miss leaves it absent; all other entries keep their results and their order, and
   exactly one counter moves.
   */
  lemma LookupEffect(
    capacity: nat, policies: Policies, c: Cache, key: CacheKey, epoch: U64, slot: U64, other: CacheKey)
    requires WellFormed(capacity, c.lru)
    ensures var (c', found) := Lookup(policies, c, key, epoch, slot);
            && (found.Some? <==> Peek(c.lru, key).Some? &&
                                 Fresh(PolicyOf(policies, key.syscallId), Peek(c.lru, key).value, epoch, slot))
            && (found.Some? ==> found == Peek(c.lru, key))
            && Peek(c'.lru, key) == found
            && Keys(c'.lru) == (if found.Some? then [key] else []) + Remove(Keys(c.lru), key)
            && (other != key ==> Peek(c'.lru, other) == Peek(c.lru, other))
            && (c'.hits, c'.misses) ==
                 if found.Some? then (Bump(c.hits), c.misses) else (c.hits, Bump(c.misses))
  {
    hide Bump;
    PopKeys(c.lru, key);
    PeekFinds(c.lru, key);
    if key !in Keys(c.lru) {
      RemoveAbsent(Keys(c.lru), key);
    }
    PeekAfterPop(c.lru, key, key);
    PeekAfterPop(c.lru, key, other);
    assert [] + Remove(Keys(c.lru), key) == Remove(Keys(c.lru), key);
  }

  /** An insert makes its key most recent with the new result and evicts only from the old end. */
  lemma PutEffect(capacity: nat, l: Entries, key: CacheKey, result: CachedResult, other: CacheKey)
    requires WellFormed(capacity, l)
    ensures var l' := Put(capacity, l, key, result);
            && Keys(l') == Cut([key] + Remove(Keys(l), key), capacity)
            && Peek(l', key) == Some(result)
            && (other != key && Peek(l', other).Some? ==> Peek(l', other) == Peek(l, other))
            && (|l| < capacity && other != key ==> Peek(l', other) == Peek(l, other))
  {
    var moved := [Entry(key, result)] + Pop(l, key);
    PopKeys(l, key);
    PopWellFormed(capacity, l, key);
    KeysCut(moved, capacity);
    KeysIndex(l);
    KeysIndex(Pop(l, key));
    PeekAfterPop(l, key, other);
    PeekAfterCut(moved, capacity, other);
    RemoveSize(Keys(l), key);
  }
}
