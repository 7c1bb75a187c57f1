/** The classification table that every safety decision rests on (safety/src/classifier.rs). */
module Classifier {
  import opened Common

  const SYSVAR_READS: seq<SyscallId> := [
    SOL_GET_CLOCK_SYSVAR, SOL_GET_RENT_SYSVAR, SOL_GET_EPOCH_SCHEDULE_SYSVAR, SOL_GET_FEES_SYSVAR,
    SOL_GET_SLOT_HASHES_SYSVAR, SOL_GET_STAKE_HISTORY_SYSVAR, SOL_GET_RETURN_DATA]
  const LOGGING: seq<SyscallId> := [SOL_LOG, SOL_LOG_64, SOL_LOG_PUBKEY, SOL_LOG_COMPUTE_UNITS]
  const CRYPTO: seq<SyscallId> := [SOL_SHA256, SOL_KECCAK256, SOL_SECP256K1_RECOVER, SOL_ED25519_VERIFY]
  const MEMORY: seq<SyscallId> := [SOL_ALLOC_FREE, SOL_MEMCPY, SOL_MEMMOVE, SOL_MEMSET, SOL_MEMCMP]

  /** The class of an id, by number; ids outside the table count as StateChanging. */
  function Classify(id: SyscallId): SafetyClass {
    if 1 <= id <= 6 || id == 41 then ReadOnly
    else if 10 <= id <= 13 || 20 <= id <= 23 || 50 <= id <= 54 then Idempotent
    else if id == 30 then OrderSensitive
    else StateChanging
  }

  predicate Eligible(id: SyscallId) {
    Classify(id) in {ReadOnly, Idempotent}
  }

  predicate CanReorder(a: SyscallId, b: SyscallId) {
    Classify(a) == ReadOnly && Classify(b) == ReadOnly
  }

  class SyscallClassifier {
    var classifications: map<SyscallId, SafetyClass>

    constructor ()
      ensures forall id: SyscallId :: Get(id) == Classify(id)
    {
      classifications := map[];
      new;
      InsertAll(SYSVAR_READS, ReadOnly);
      InsertAll(LOGGING, Idempotent);
      InsertAll(CRYPTO, Idempotent);
      InsertAll(MEMORY, Idempotent);
      label Lists:
      classifications := classifications[SOL_SET_RETURN_DATA := StateChanging];
      classifications := classifications[SOL_PANIC := StateChanging];
      classifications := classifications[SOL_ABORT := StateChanging];
      classifications := classifications[SOL_INVOKE_SIGNED := OrderSensitive];
      forall id: SyscallId ensures Get(id) == Classify(id) {
        ListsByNumber(id);
        assert id !in {30, 40, 60, 61} ==> Get(id) == old@Lists(Get(id));
      }
    }

    method InsertAll(ids: seq<SyscallId>, class_: SafetyClass)
      modifies this
      ensures forall id: SyscallId :: Get(id) == if id in ids then class_ else old(Get(id))
    {
      for i := 0 to |ids|
        invariant forall id: SyscallId :: Get(id) == if id in ids[..i] then class_ else old(Get(id))
      {
        label Before:
        classifications := classifications[ids[i] := class_];
        assert ids[..i + 1] == ids[..i] + [ids[i]];
        assert forall id: SyscallId :: Get(id) == if id == ids[i] then class_ else old@Before(Get(id));
      }
      assert ids[..|ids|] == ids;
    }

    function Get(id: SyscallId): SafetyClass
      reads this
    {
      if id in classifications then classifications[id] else StateChanging
    }
  }

  const READ_ONLY_IDS: set<SyscallId> := {1, 2, 3, 4, 5, 6, 41}
  const IDEMPOTENT_IDS: set<SyscallId> := {10, 11, 12, 13, 20, 21, 22, 23, 50, 51, 52, 53, 54}

  /** The class of every id there is. */
  lemma ClassTable(id: SyscallId)
    ensures Classify(id) == ReadOnly <==> id in READ_ONLY_IDS
    ensures Classify(id) == Idempotent <==> id in IDEMPOTENT_IDS
    ensures Classify(id) == OrderSensitive <==> id == SOL_INVOKE_SIGNED == 30
    ensures Classify(id) == StateChanging <==> id !in READ_ONLY_IDS && id !in IDEMPOTENT_IDS && id != SOL_INVOKE_SIGNED
    ensures Eligible(id) <==> id in READ_ONLY_IDS + IDEMPOTENT_IDS
  {}

  /** The named ids, class by class. */
  lemma ClassOfNames()
    ensures READ_ONLY_IDS == {
              SOL_GET_CLOCK_SYSVAR, SOL_GET_RENT_SYSVAR, SOL_GET_EPOCH_SCHEDULE_SYSVAR, SOL_GET_FEES_SYSVAR,
              SOL_GET_SLOT_HASHES_SYSVAR, SOL_GET_STAKE_HISTORY_SYSVAR, SOL_GET_RETURN_DATA}
    ensures IDEMPOTENT_IDS == {
              SOL_LOG, SOL_LOG_64, SOL_LOG_PUBKEY, SOL_LOG_COMPUTE_UNITS,
              SOL_SHA256, SOL_KECCAK256, SOL_SECP256K1_RECOVER, SOL_ED25519_VERIFY,
              SOL_ALLOC_FREE, SOL_MEMCPY, SOL_MEMMOVE, SOL_MEMSET, SOL_MEMCMP}
    ensures forall id :: id in {SOL_SET_RETURN_DATA, SOL_PANIC, SOL_ABORT} ==> Classify(id) == StateChanging
    ensures Classify(SOL_INVOKE_SIGNED) == OrderSensitive
  {}

  lemma ListsByNumber(id: SyscallId)
    ensures id in SYSVAR_READS <==> 1 <= id <= 6 || id == 41
    ensures id in LOGGING <==> 10 <= id <= 13
    ensures id in CRYPTO <==> 20 <= id <= 23
    ensures id in MEMORY <==> 50 <= id <= 54
  {}
}
