/** What a bulk fetch achieves: nothing twice, nothing missing, and the results of the single calls. */
module BatchServing {
  import opened Common
  import opened Sequences
  import opened Classifier
  import opened Validator
  import opened Execution
  import opened Reordering
  import opened Batcher

  /** The fetches of ids and hashes that stand side by side, as requests. */
  function Paired(ids: seq<SyscallId>, hashes: seq<ArgsHash>): seq<PendingSyscall>
    requires |ids| == |hashes|
  {
    seq(|ids|, i requires 0 <= i < |ids| => PendingSyscall(ids[i], hashes[i], [], 0))
  }

  /** What a list of groups fetches, one group after the other. */
  function Flatten(r: seq<BatchedFetch>): seq<PendingSyscall>
    requires forall g :: g in r ==> |g.syscallIds| == |g.argsHashes|
  {
    if r == [] then [] else
    Flatten(r[..|r| - 1]) + Paired(r[|r| - 1].syscallIds, r[|r| - 1].argsHashes)
  }

  /** Everything that `Batches(pending)` fetches. */
  function Fetches(pending: seq<PendingSyscall>): seq<PendingSyscall> {
    Flatten(Batches(pending))
  }

  function GroupRequests(id: SyscallId, hashes: seq<ArgsHash>): seq<PendingSyscall> {
    Paired(Repeated(id, |hashes|), hashes)
  }

  function Requests(pending: seq<PendingSyscall>, ids: seq<SyscallId>): seq<PendingSyscall> {
    Flatten(GroupAll(pending, ids))
  }

  lemma RequestsSnoc(pending: seq<PendingSyscall>, ids: seq<SyscallId>, id: SyscallId)
    ensures Requests(pending, ids + [id]) ==
            Requests(pending, ids) + GroupRequests(id, Distinct(HashesOf(pending, id)))
  {
    var r, g := GroupAll(pending, ids), Group(id, Distinct(HashesOf(pending, id)));
    GroupAllSnoc(pending, ids, id);
    assert (r + [g])[..|r|] == r;
  }

  lemma {:induction false} HashesConcat(a: seq<PendingSyscall>, b: seq<PendingSyscall>, id: SyscallId)
    ensures HashesOf(a + b, id) == HashesOf(a, id) + HashesOf(b, id)
  {
    if b == [] {
      assert a + b == a;
    } else {
      assert (a + b)[..|a + b| - 1] == a + b[..|b| - 1];
      HashesConcat(a, b[..|b| - 1], id);
    }
  }

  lemma {:induction false} HashesOfGroup(id: SyscallId, hashes: seq<ArgsHash>, other: SyscallId)
    ensures HashesOf(GroupRequests(id, hashes), other) == if other == id then hashes else []
  {
    if hashes != [] {
      var shorter := hashes[..|hashes| - 1];
      HashesOfGroup(id, shorter, other);
      assert GroupRequests(id, hashes)[..|hashes| - 1] == GroupRequests(id, shorter);
    }
  }

  lemma {:induction false} HashesOfRequests(pending: seq<PendingSyscall>, ids: seq<SyscallId>, other: SyscallId)
    requires Increasing(ids)
    ensures HashesOf(Requests(pending, ids), other) ==
            if other in ids then Distinct(HashesOf(pending, other)) else []
  {
    if ids != [] {
      var shorter, id := ids[..|ids| - 1], ids[|ids| - 1];
      var distinct := Distinct(HashesOf(pending, id));
      assert Increasing(shorter) && id !in shorter;
      assert other in ids <==> other in shorter || other == id by {
        assert ids == shorter + [id];
      }
      HashesOfRequests(pending, shorter, other);
      HashesConcat(Requests(pending, shorter), GroupRequests(id, distinct), other);
      HashesOfGroup(id, distinct, other);
      assert ids == shorter + [id];
      RequestsSnoc(pending, shorter, id);
    }
  }

  /** For each id, exactly the distinct hashes requested of it are fetched; of other ids, nothing. */
  lemma FetchedHashes(pending: seq<PendingSyscall>, id: SyscallId)
    ensures HashesOf(Fetches(pending), id) == if CanBatch(id) then Distinct(HashesOf(pending, id)) else []
  {
    RequestedIdsSorted(pending);
    HashesOfRequests(pending, RequestedIds(pending, 1), id);
  }

  lemma {:induction false} DistinctFixed(s: seq<ArgsHash>)
    requires NoDup(s)
    ensures Distinct(s) == s
  {
    if s != [] {
      DistinctFixed(s[..|s| - 1]);
      assert s == s[..|s| - 1] + [s[|s| - 1]];
    }
  }

  lemma {:induction false} DistinctNoDup(s: seq<ArgsHash>)
    ensures NoDup(Distinct(s))
  {
    if s != [] {
      DistinctNoDup(s[..|s| - 1]);
    }
  }

  /** The grouping depends on nothing but the hashes requested of each batchable id, in order. */
  lemma {:induction false} SameHashesSameIds(a: seq<PendingSyscall>, b: seq<PendingSyscall>, from: nat)
    requires 1 <= from <= 10
    requires forall id: SyscallId :: CanBatch(id) ==> (HashesOf(a, id) == [] <==> HashesOf(b, id) == [])
    ensures RequestedIds(a, from) == RequestedIds(b, from)
    decreases 10 - from
  {
    if from < 10 {
      SameHashesSameIds(a, b, from + 1);
    }
  }

  lemma SameDistinctSameBatches(a: seq<PendingSyscall>, b: seq<PendingSyscall>)
    requires forall id: SyscallId :: CanBatch(id) ==> Distinct(HashesOf(a, id)) == Distinct(HashesOf(b, id))
    ensures Batches(a) == Batches(b)
  {
    forall id: SyscallId | CanBatch(id) ensures HashesOf(a, id) == [] <==> HashesOf(b, id) == [] {
      DistinctOrder(HashesOf(a, id));
      DistinctOrder(HashesOf(b, id));
      FirstIsMember(HashesOf(a, id));
      FirstIsMember(HashesOf(b, id));
    }
    SameHashesSameIds(a, b, 1);
    RequestedIdsSorted(a);
    var ids := RequestedIds(a, 1);
    forall i | 0 <= i < |ids| ensures Distinct(HashesOf(a, ids[i])) == Distinct(HashesOf(b, ids[i])) {
      assert ids[i] in ids;
    }
  }

  /** Batching what a batching fetches gives that batching again. */
  lemma RebatchingIsIdentity(pending: seq<PendingSyscall>)
    ensures Batches(Fetches(pending)) == Batches(pending)
  {
    forall id: SyscallId | CanBatch(id)
      ensures Distinct(HashesOf(Fetches(pending), id)) == Distinct(HashesOf(pending, id))
    {
      FetchedHashes(pending, id);
      DistinctNoDup(HashesOf(pending, id));
      DistinctFixed(Distinct(HashesOf(pending, id)));
    }
    SameDistinctSameBatches(Fetches(pending), pending);
  }

  /** Swapping neighbouring requests of different ids changes nothing. */
  lemma SwapChangesNothing(
    before: seq<PendingSyscall>, p: PendingSyscall, q: PendingSyscall, after: seq<PendingSyscall>)
    requires p.syscallId != q.syscallId
    ensures Batches(before + [p, q] + after) == Batches(before + [q, p] + after)
  {
    var a, b := before + [p, q] + after, before + [q, p] + after;
    forall id: SyscallId ensures HashesOf(a, id) == HashesOf(b, id) {
      HashesConcat(before + [p, q], after, id);
      HashesConcat(before + [q, p], after, id);
      HashesConcat(before, [p, q], id);
      HashesConcat(before, [q, p], id);
      assert [p, q][..1] == [p] && [q, p][..1] == [q] && [p][..0] == [] && [q][..0] == [];
    }
    SameDistinctSameBatches(a, b);
  }

  // ---- Minimality -----------------------------------------------------------------------------------------

  function Bare(p: PendingSyscall): PendingSyscall {
    PendingSyscall(p.syscallId, p.argsHash, [], 0)
  }

  lemma {:induction false} DistinctRequests(s: seq<PendingSyscall>)
    requires forall id: SyscallId :: NoDup(HashesOf(s, id))
    requires forall p :: p in s ==> p == Bare(p)
    ensures NoDup(s)
  {
    if s != [] {
      var shorter, p := s[..|s| - 1], s[|s| - 1];
      forall id: SyscallId ensures NoDup(HashesOf(shorter, id)) {
        assert NoDup(HashesOf(s, id));
        assert forall i :: 0 <= i < |HashesOf(shorter, id)| ==> HashesOf(shorter, id)[i] == HashesOf(s, id)[i];
      }
      DistinctRequests(shorter);
      var hashes, longer := HashesOf(shorter, p.syscallId), HashesOf(s, p.syscallId);
      assert NoDup(longer) && longer == hashes + [p.argsHash];
      forall k | 0 <= k < |hashes| ensures hashes[k] != p.argsHash {
        assert longer[k] == hashes[k] && longer[|hashes|] == p.argsHash;
      }
      HashesMembers(shorter, p.syscallId);
      assert p.argsHash !in hashes;
      assert p !in shorter;
    }
  }

  lemma {:induction false} FlattenBare(r: seq<BatchedFetch>)
    requires forall g :: g in r ==> |g.syscallIds| == |g.argsHashes|
    ensures forall p :: p in Flatten(r) ==> p == Bare(p)
  {
    if r != [] {
      FlattenBare(r[..|r| - 1]);
    }
  }

  lemma {:induction false} FewerKinds(s: seq<PendingSyscall>)
    ensures |set p | p in s :: Bare(p)| <= |s|
  {
    if s != [] {
      FewerKinds(s[1..]);
      assert s == [s[0]] + s[1..];
      assert (set p | p in s :: Bare(p)) == {Bare(s[0])} + (set p | p in s[1..] :: Bare(p));
    }
  }

  /** No list that requests every pending batchable pair is shorter than what the batching fetches. */
  lemma FetchesAreMinimal(pending: seq<PendingSyscall>, other: seq<PendingSyscall>)
    requires forall p :: p in pending && CanBatch(p.syscallId) ==>
               exists o :: o in other && o.syscallId == p.syscallId && o.argsHash == p.argsHash
    ensures |Fetches(pending)| <= |other|
  {
    var fetches := Fetches(pending);
    forall id: SyscallId ensures NoDup(HashesOf(fetches, id)) {
      FetchedHashes(pending, id);
      DistinctNoDup(HashesOf(pending, id));
    }
    FlattenBare(Batches(pending));
    DistinctRequests(fetches);
    NoDupSize(fetches);
    var kinds := set p | p in other :: Bare(p);
    FetchedArePending(pending);
    forall f | f in Elements(fetches) ensures f in kinds {
      var p :| p in pending && p.syscallId == f.syscallId && p.argsHash == f.argsHash;
      FetchedHashes(pending, f.syscallId);
      HashesMembers(fetches, f.syscallId);
      assert f.argsHash in HashesOf(fetches, f.syscallId);
      var o :| o in other && o.syscallId == p.syscallId && o.argsHash == p.argsHash;
      assert Bare(o) == f;
    }
    FewerKinds(other);
    SubsetSize(Elements(fetches), kinds);
  }

  // ---- With the validator and the execution -------------------------------------------------------------

  /**
   The batcher takes ids 7 to 9 for sysvar reads, the classifier does not know them: every group passes
   `validate_batch` exactly when none of these ids is pending.
   */
  lemma BatchesApprovedIff(v: SafetyValidator, pending: seq<PendingSyscall>)
    ensures (forall g :: g in Batches(pending) ==> v.ValidateBatch(g.syscallIds).approved) <==>
            (forall p :: p in pending ==> !(7 <= p.syscallId <= 9))
  {
    var r := Batches(pending);
    BatchesAreGrouping(pending);
    if forall g :: g in r ==> v.ValidateBatch(g.syscallIds).approved {
      forall p | p in pending ensures !(7 <= p.syscallId <= 9) {
        if CanBatch(p.syscallId) {
          var g :| g in r && IdOf(g) == p.syscallId;
          GroupApproved(v, g);
        }
      }
    }
    if forall p :: p in pending ==> !(7 <= p.syscallId <= 9) {
      forall g | g in r ensures v.ValidateBatch(g.syscallIds).approved {
        GroupApproved(v, g);
        HashesMembers(pending, IdOf(g));
        FirstIsMember(g.argsHashes);
        var p :| p in pending && p.syscallId == IdOf(g);
      }
    }
  }

  lemma GroupApproved(v: SafetyValidator, g: BatchedFetch)
    requires WellShaped(g) && CanBatch(IdOf(g))
    ensures v.ValidateBatch(g.syscallIds).approved <==> IdOf(g) <= 6
  {
    BatchApproval(v, g.syscallIds);
    FirstIsMember(g.syscallIds);
  }

  /** The request as a call made by `program` in transaction `tx`. */
  function AsEvent(program: Pubkey, tx: TransactionId, p: PendingSyscall): Event {
    SyscallTraceEvent(program, p.syscallId, p.argsHash, 0, 0, tx, 0)
  }

  function AsEvents(program: Pubkey, tx: TransactionId, pending: seq<PendingSyscall>): seq<Event> {
    seq(|pending|, i requires 0 <= i < |pending| => AsEvent(program, tx, pending[i]))
  }

  lemma {:induction false} OutcomesIndex<S, V>(sem: Semantics<S, V>, m: Memory<S>, s: seq<Event>)
    ensures |OutcomesAt(sem, m, s)| == |s|
    ensures forall i :: 0 <= i < |s| ==> OutcomesAt(sem, m, s)[i] == Outcome(s[i], Value(sem, m, s[i]))
  {
    if s != [] {
      OutcomesIndex(sem, m, s[1..]);
    }
  }

  /** Whatever is fetched is pending. */
  lemma FetchedArePending(pending: seq<PendingSyscall>)
    ensures forall f :: f in Fetches(pending) ==>
              exists p :: p in pending && p.syscallId == f.syscallId && p.argsHash == f.argsHash
  {
    forall f | f in Fetches(pending)
      ensures exists p :: p in pending && p.syscallId == f.syscallId && p.argsHash == f.argsHash
    {
      var id, h := f.syscallId, f.argsHash;
      HashesMembers(Fetches(pending), id);
      assert h in HashesOf(Fetches(pending), id);
      FetchedHashes(pending, id);
      DistinctOrder(HashesOf(pending, id));
      HashesMembers(pending, id);
      assert h in HashesOf(pending, id);
    }
  }

  lemma PendingAreFetched(pending: seq<PendingSyscall>, p: PendingSyscall)
    requires p in pending && CanBatch(p.syscallId)
    ensures exists f :: f in Fetches(pending) && f.syscallId == p.syscallId && f.argsHash == p.argsHash
  {
    var id, h := p.syscallId, p.argsHash;
    HashesMembers(pending, id);
    assert h in HashesOf(pending, id);
    DistinctOrder(HashesOf(pending, id));
    FetchedHashes(pending, id);
    assert h in HashesOf(Fetches(pending), id);
    HashesMembers(Fetches(pending), id);
  }

  /**
   An approved batching of one program's requests can stand in for them: the bulk fetch leaves the
   memory alone, and for every request the value that its own execution returns, in the order
   requested, is among the fetched ones under the same id and hash.
   */
  lemma BulkFetchServesAll<S(!new), V>(
    v: SafetyValidator, sem: Semantics<S, V>, law: Law, m: Memory<S>, program: Pubkey, tx: TransactionId,
    pending: seq<PendingSyscall>, i: nat)
    requires Lawful(sem, law) && i < |pending|
    requires forall p :: p in pending ==> CanBatch(p.syscallId)
    requires forall g :: g in Batches(pending) ==> v.ValidateBatch(g.syscallIds).approved
    ensures var single, bulk := AsEvents(program, tx, pending), AsEvents(program, tx, Fetches(pending));
            && Final(sem, m, bulk) == Final(sem, m, single) == m
            && |Trace(sem, m, single)| == |pending|
            && exists o :: o in Trace(sem, m, bulk)
                           && o.event.syscallId == pending[i].syscallId && o.event.argsHash == pending[i].argsHash
                           && o.value == Trace(sem, m, single)[i].value
  {
    var fetches := Fetches(pending);
    var single, bulk := AsEvents(program, tx, pending), AsEvents(program, tx, fetches);
    BatchesApprovedIff(v, pending);
    forall e | e in single ensures Eligible(e.syscallId) {
      var k :| 0 <= k < |pending| && single[k] == e;
      assert pending[k] in pending;
    }
    FetchedArePending(pending);
    forall e | e in bulk ensures Eligible(e.syscallId) {
      var k :| 0 <= k < |fetches| && bulk[k] == e;
      assert fetches[k] in fetches;
    }
    EligibleOutcomes(sem, law, m, single);
    EligibleOutcomes(sem, law, m, bulk);
    OutcomesIndex(sem, m, single);
    OutcomesIndex(sem, m, bulk);
    PendingAreFetched(pending, pending[i]);
    var f :| f in fetches && f.syscallId == pending[i].syscallId && f.argsHash == pending[i].argsHash;
    var j :| 0 <= j < |fetches| && fetches[j] == f;
    assert OutcomesAt(sem, m, bulk)[j].event == bulk[j];
    assert OutcomesAt(sem, m, bulk)[j] in OutcomesAt(sem, m, bulk);
  }
}
