/** The gate that every optimization passes (safety/src/validator.rs). */
module Validator {
  import opened Common
  import opened Classifier
  import opened DependencyChecker

  datatype OptimizationKind = Cache | Batch | Prefetch | Reorder | Dedup

  datatype ValidationResult = ValidationResult(approved: bool, kind: OptimizationKind)

  datatype SafetyValidator = SafetyValidator(enforceDeterminism: bool) {

    function ValidateCache(id: SyscallId): ValidationResult {
      if !enforceDeterminism then ValidationResult(true, Cache)
      else ValidationResult(Eligible(id), Cache)
    }

    function ValidateBatch(ids: seq<SyscallId>): ValidationResult {
      if ids == [] then ValidationResult(true, Batch)
      else if !Eligible(ids[0]) then ValidationResult(false, Batch)
      else ValidateBatch(ids[1..])
    }

    function ValidateReorder(s: seq<Event>): ValidationResult {
      if HasDependencies(s) then ValidationResult(false, Reorder)
      else if !IsSafeToReorder(s) then ValidationResult(false, Reorder)
      else ValidationResult(true, Reorder)
    }

    function ValidateDedup(id: SyscallId): ValidationResult {
      match Classify(id)
      case ReadOnly => ValidationResult(true, Dedup)
      case Idempotent => ValidationResult(true, Dedup)
      case _ => ValidationResult(false, Dedup)
    }
  }

  /** With determinism enforced, exactly the ReadOnly and Idempotent ids may be cached; without it, any. */
  lemma CacheApproval(v: SafetyValidator, id: SyscallId)
    ensures v.ValidateCache(id).approved <==> !v.enforceDeterminism || id in READ_ONLY_IDS + IDEMPOTENT_IDS
    ensures v.ValidateCache(id).kind == Cache
  {
    ClassTable(id);
  }

  /** Exactly those ids may be deduplicated, whether or not determinism is enforced. */
  lemma DedupApproval(v: SafetyValidator, id: SyscallId)
    ensures v.ValidateDedup(id).approved <==> id in READ_ONLY_IDS + IDEMPOTENT_IDS
    ensures v.ValidateDedup(id).kind == Dedup
  {
    ClassTable(id);
  }

  /** A batch is approved exactly when every id in it is eligible. */
  lemma {:induction false} BatchApproval(v: SafetyValidator, ids: seq<SyscallId>)
    ensures v.ValidateBatch(ids).approved <==> forall id :: id in ids ==> Eligible(id)
    ensures v.ValidateBatch(ids).kind == Batch
  {
    if ids != [] {
      BatchApproval(v, ids[1..]);
      assert ids == [ids[0]] + ids[1..];
    }
  }

  /**
   The dependency check adds nothing to reordering: approval means all calls are ReadOnly, and for
   two calls or more that every pair may be swapped.
   */
  lemma ReorderApproval(v: SafetyValidator, s: seq<Event>)
    ensures v.ValidateReorder(s).approved <==> forall e :: e in s ==> Classify(e.syscallId) == ReadOnly
    ensures v.ValidateReorder(s).kind == Reorder
    ensures |s| >= 2 ==>
              (v.ValidateReorder(s).approved <==>
               forall i, j :: 0 <= i < j < |s| ==> CanReorder(s[i].syscallId, s[j].syscallId))
  {
    if |s| >= 2 && forall i, j :: 0 <= i < j < |s| ==> CanReorder(s[i].syscallId, s[j].syscallId) {
      forall i | 0 <= i < |s| ensures Classify(s[i].syscallId) == ReadOnly {
        assert if i == 0 then CanReorder(s[0].syscallId, s[1].syscallId)
               else CanReorder(s[0].syscallId, s[i].syscallId);
      }
    }
  }
}
