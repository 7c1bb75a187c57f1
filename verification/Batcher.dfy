/** Grouping sysvar reads into bulk fetches (optimizer/src/batcher.rs). */
module Batcher {
  import opened Common

  datatype PendingSyscall = PendingSyscall(
    syscallId: SyscallId,
    argsHash: ArgsHash,
    args: Bytes,
    sequenceIndex: nat)

  datatype BatchedFetch = BatchedFetch(syscallIds: seq<SyscallId>, argsHashes: seq<ArgsHash>)

  predicate CanBatch(id: SyscallId) {
    1 <= id <= 9
  }

  // ---- The specification ----------------------------------------------------------------------------

  /** The hashes requested for one id, in order, repetitions included. */
  function HashesOf(pending: seq<PendingSyscall>, id: SyscallId): seq<ArgsHash> {
    if pending == [] then [] else
    var last := |pending| - 1;
    var rest := HashesOf(pending[..last], id);
    if pending[last].syscallId == id then rest + [pending[last].argsHash] else rest
  }

  /** The first occurrences. */
  function Distinct(s: seq<ArgsHash>): seq<ArgsHash> {
    if s == [] then [] else
    var rest := Distinct(s[..|s| - 1]);
    if s[|s| - 1] in rest then rest else rest + [s[|s| - 1]]
  }

  function Repeated(id: SyscallId, n: nat): seq<SyscallId> {
    seq(n, _ => id)
  }

  function Group(id: SyscallId, hashes: seq<ArgsHash>): BatchedFetch {
    BatchedFetch(Repeated(id, |hashes|), hashes)
  }

  /** The batchable ids from `id` upwards that are requested at all, in increasing order. */
  function RequestedIds(pending: seq<PendingSyscall>, id: nat): seq<SyscallId>
    requires 1 <= id <= 10
    decreases 10 - id
  {
    if id == 10 then [] else
    var rest := RequestedIds(pending, id + 1);
    if HashesOf(pending, id) == [] then rest else [id] + rest
  }

  function GroupAll(pending: seq<PendingSyscall>, ids: seq<SyscallId>): seq<BatchedFetch> {
    seq(|ids|, i requires 0 <= i < |ids| => Group(ids[i], Distinct(HashesOf(pending, ids[i]))))
  }

  function Batches(pending: seq<PendingSyscall>): seq<BatchedFetch> {
    GroupAll(pending, RequestedIds(pending, 1))
  }

  // ---- The loops ------------------------------------------------------------------------------------

  ghost predicate Increasing(ids: seq<SyscallId>) {
    forall i, j :: 0 <= i < j < |ids| ==> ids[i] < ids[j]
  }

  /** The sort of the group keys. */
  method SortedIds(ids: set<SyscallId>) returns (sorted: seq<SyscallId>)
    ensures Increasing(sorted) && forall id :: id in sorted <==> id in ids
  {
    sorted := [];
    var rest := ids;
    while rest != {}
      invariant rest <= ids && Increasing(sorted)
      invariant forall id :: id in sorted <==> id in ids && id !in rest
      invariant forall a, b :: a in sorted && b in rest ==> a < b
      decreases |rest|
    {
      var least := Least(rest);
      forall k | 0 <= k < |sorted| ensures sorted[k] < least {
        assert sorted[k] in sorted;
      }
      sorted := sorted + [least];
      rest := rest - {least};
    }
  }

  method Least(ids: set<SyscallId>) returns (least: SyscallId)
    requires ids != {}
    ensures least in ids && forall id :: id in ids ==> least <= id
  {
    least :| least in ids;
    var rest := ids - {least};
    while rest != {}
      invariant rest <= ids && least in ids
      invariant forall id :: id in ids && id !in rest ==> least <= id
      decreases |rest|
    {
      var id :| id in rest;
      if id < least {
        least := id;
      }
      rest := rest - {id};
    }
  }

  /** The table that the first loop builds: the distinct hashes of every batchable id seen. */
  ghost predicate GroupsOf(pending: seq<PendingSyscall>, groups: map<SyscallId, seq<ArgsHash>>) {
    forall id: SyscallId :: Grouped(pending, groups, id)
  }

  ghost predicate Grouped(pending: seq<PendingSyscall>, groups: map<SyscallId, seq<ArgsHash>>, id: SyscallId) {
    && (id in groups <==> CanBatch(id) && HashesOf(pending, id) != [])
    && (id in groups ==> groups[id] == Distinct(HashesOf(pending, id)))
  }

  method BatchSysvarReads(pending: seq<PendingSyscall>) returns (result: seq<BatchedFetch>)
    ensures result == Batches(pending)
  {
    var groups: map<SyscallId, seq<ArgsHash>> := map[];
    for i := 0 to |pending|
      invariant GroupsOf(pending[..i], groups)
    {
      var p := pending[i];
      ghost var before := groups;
      GroupsStep(pending[..i], groups, p);
      assert pending[..i + 1] == pending[..i] + [p];
      if !CanBatch(p.syscallId) {
        continue;
      }
      if p.syscallId !in groups {
        groups := groups[p.syscallId := []];
      }
      var hashes := groups[p.syscallId];
      if p.argsHash !in hashes {
        groups := groups[p.syscallId := hashes + [p.argsHash]];
      }
      Overwrite(before, p.syscallId, [], hashes + [p.argsHash]);
      Overwrite(before, p.syscallId, hashes, hashes);
    }
    assert pending[..|pending|] == pending;
    result := EmitGroups(pending, groups);
  }

  // The second loop: move the groups out of the table in the order of their ids.
  method EmitGroups(ghost pending: seq<PendingSyscall>, table: map<SyscallId, seq<ArgsHash>>)
    returns (result: seq<BatchedFetch>)
    requires GroupsOf(pending, table)
    ensures result == Batches(pending)
  {
    hide GroupsOf, HashesOf, Distinct, GroupAll, Repeated, RequestedIds;
    var groups := table;
    var sorted := SortedIds(groups.Keys);
    SortedAreRequested(pending, table, sorted);
    result := [];
    GroupAllEmpty(pending);
    for i := 0 to |sorted|
      invariant result == GroupAll(pending, sorted[..i])
      invariant forall k :: i <= k < |sorted| ==> sorted[k] in groups && groups[sorted[k]] == table[sorted[k]]
    {
      var id := sorted[i];
      var hashes := groups[id];
      groups := groups - {id};
      result := result + [BatchedFetch(Repeated(id, |hashes|), hashes)];
      GroupAllSnoc(pending, sorted[..i], id);
      assert sorted[..i + 1] == sorted[..i] + [id];
    }
    assert sorted[..|sorted|] == sorted;
  }

  lemma GroupAllEmpty(pending: seq<PendingSyscall>)
    ensures GroupAll(pending, []) == []
  {}

  lemma GroupAllSnoc(pending: seq<PendingSyscall>, ids: seq<SyscallId>, id: SyscallId)
    ensures GroupAll(pending, ids + [id]) == GroupAll(pending, ids) + [Group(id, Distinct(HashesOf(pending, id)))]
  {}

  lemma DistinctSnoc(s: seq<ArgsHash>, x: ArgsHash)
    ensures Distinct(s + [x]) == if x in Distinct(s) then Distinct(s) else Distinct(s) + [x]
  {
    assert (s + [x])[..|s|] == s;
  }

  lemma HashesSnoc(pending: seq<PendingSyscall>, p: PendingSyscall, id: SyscallId)
    ensures HashesOf(pending + [p], id) ==
            if p.syscallId == id then HashesOf(pending, id) + [p.argsHash] else HashesOf(pending, id)
  {
    assert (pending + [p])[..|pending|] == pending;
  }

  function NextGroups(groups: map<SyscallId, seq<ArgsHash>>, p: PendingSyscall): map<SyscallId, seq<ArgsHash>> {
    if !CanBatch(p.syscallId) then groups else
    var hashes := if p.syscallId in groups then groups[p.syscallId] else [];
    groups[p.syscallId := if p.argsHash in hashes then hashes else hashes + [p.argsHash]]
  }

  lemma GroupsStep(pending: seq<PendingSyscall>, groups: map<SyscallId, seq<ArgsHash>>, p: PendingSyscall)
    requires GroupsOf(pending, groups)
    ensures GroupsOf(pending + [p], NextGroups(groups, p))
  {
    forall id: SyscallId ensures Grouped(pending + [p], NextGroups(groups, p), id) {
      assert Grouped(pending, groups, id);
      HashesSnoc(pending, p, id);
      DistinctSnoc(HashesOf(pending, id), p.argsHash);
    }
  }

  lemma Overwrite<K, V>(m: map<K, V>, k: K, a: V, b: V)
    ensures m[k := a][k := b] == m[k := b]
    ensures k in m && m[k] == a ==> m[k := a] == m
  {}

  lemma SplitFirst<T>(s: seq<T>)
    requires s != []
    ensures s == [s[0]] + s[1..]
    ensures forall x :: x in s <==> x == s[0] || x in s[1..]
    ensures forall x :: x in s[1..] ==> exists k :: 0 < k < |s| && s[k] == x
  {
    forall x | x in s[1..] ensures exists k :: 0 < k < |s| && s[k] == x {
      var j :| 0 <= j < |s[1..]| && s[1..][j] == x;
      assert s[j + 1] == x;
    }
  }

  lemma FirstIsMember<T>(s: seq<T>)
    ensures s != [] ==> s[0] in s
  {}

  lemma {:induction false} RequestedIdsMember(pending: seq<PendingSyscall>, from: nat, id: SyscallId)
    requires 1 <= from <= 10
    ensures id in RequestedIds(pending, from) <==> from <= id <= 9 && HashesOf(pending, id) != []
    decreases 10 - from
  {
    hide HashesOf;
    if from < 10 {
      RequestedIdsMember(pending, from + 1, id);
    }
  }

  lemma {:induction false} RequestedIdsIncrease(pending: seq<PendingSyscall>, from: nat)
    requires 1 <= from <= 10
    ensures Increasing(RequestedIds(pending, from))
    decreases 10 - from
  {
    if from < 10 {
      var rest := RequestedIds(pending, from + 1);
      RequestedIdsIncrease(pending, from + 1);
      forall k | 0 <= k < |rest| ensures rest[k] > from {
        assert rest[k] in rest;
        RequestedIdsMember(pending, from + 1, rest[k]);
      }
    }
  }

  lemma RequestedIdsSorted(pending: seq<PendingSyscall>)
    ensures Increasing(RequestedIds(pending, 1))
    ensures forall id: SyscallId :: id in RequestedIds(pending, 1) <==> CanBatch(id) && HashesOf(pending, id) != []
  {
    RequestedIdsIncrease(pending, 1);
    forall id: SyscallId ensures id in RequestedIds(pending, 1) <==> CanBatch(id) && HashesOf(pending, id) != [] {
      RequestedIdsMember(pending, 1, id);
    }
  }

  lemma SortedAreRequested(
    pending: seq<PendingSyscall>, table: map<SyscallId, seq<ArgsHash>>, sorted: seq<SyscallId>)
    requires GroupsOf(pending, table)
    requires Increasing(sorted) && forall id :: id in sorted <==> id in table
    ensures sorted == RequestedIds(pending, 1)
    ensures forall k :: 0 <= k < |sorted| ==>
              sorted[k] in table && table[sorted[k]] == Distinct(HashesOf(pending, sorted[k]))
  {
    var ids := RequestedIds(pending, 1);
    RequestedIdsSorted(pending);
    forall id: SyscallId ensures id in sorted <==> id in ids {
      assert Grouped(pending, table, id);
    }
    RankedUnique(sorted, ids, (id: SyscallId) => id);
    forall k | 0 <= k < |sorted|
      ensures sorted[k] in table && table[sorted[k]] == Distinct(HashesOf(pending, sorted[k]))
    {
      assert sorted[k] in sorted;
      assert Grouped(pending, table, sorted[k]);
    }
  }

  // ---- First occurrences ------------------------------------------------------------------------------

  function FirstIndex(s: seq<ArgsHash>, x: ArgsHash): nat {
    if s == [] || s[0] == x then 0 else 1 + FirstIndex(s[1..], x)
  }

  ghost predicate InFirstOccurrenceOrder(s: seq<ArgsHash>, distinct: seq<ArgsHash>) {
    && (forall x :: x in distinct <==> x in s)
    && (forall i, j :: 0 <= i < j < |distinct| ==> FirstIndex(s, distinct[i]) < FirstIndex(s, distinct[j]))
  }

  lemma {:induction false} FirstIndexSnoc(s: seq<ArgsHash>, y: ArgsHash, x: ArgsHash)
    ensures x in s ==> FirstIndex(s + [y], x) == FirstIndex(s, x) < |s|
    ensures x !in s && x == y ==> FirstIndex(s + [y], x) == |s|
  {
    if s != [] {
      FirstIndexSnoc(s[1..], y, x);
      assert (s + [y])[1..] == s[1..] + [y];
    }
  }

  lemma {:induction false} DistinctOrder(s: seq<ArgsHash>)
    ensures InFirstOccurrenceOrder(s, Distinct(s))
  {
    if s != [] {
      var shorter, y := s[..|s| - 1], s[|s| - 1];
      DistinctOrder(shorter);
      assert s == shorter + [y];
      forall x ensures x in s ==> FirstIndex(s, x) == if x in shorter then FirstIndex(shorter, x) else |shorter| {
        FirstIndexSnoc(shorter, y, x);
      }
      forall x | x in shorter ensures FirstIndex(shorter, x) < |shorter| {
        FirstIndexSnoc(shorter, y, x);
      }
    }
  }

  /** Two lists of the same elements, strictly increasing in rank, are equal. */
  lemma {:induction false} RankedUnique<T>(a: seq<T>, b: seq<T>, rank: T -> int)
    requires forall i, j :: 0 <= i < j < |a| ==> rank(a[i]) < rank(a[j])
    requires forall i, j :: 0 <= i < j < |b| ==> rank(b[i]) < rank(b[j])
    requires forall x :: x in a <==> x in b
    ensures a == b
  {
    if a == [] {
      FirstIsMember(b);
    } else {
      FirstIsMember(a);
      FirstIsMember(b);
      SplitFirst(a);
      SplitFirst(b);
      assert a[0] == b[0];
      RankedUnique(a[1..], b[1..], rank);
    }
  }

  lemma OrderUnique(s: seq<ArgsHash>, a: seq<ArgsHash>, b: seq<ArgsHash>)
    requires InFirstOccurrenceOrder(s, a) && InFirstOccurrenceOrder(s, b)
    ensures a == b
  {
    assert forall x :: x in a <==> x in b;
    RankedUnique(a, b, h => FirstIndex(s, h));
  }

  // ---- The grouping is determined by what it must achieve ------------------------------------------------

  predicate WellShaped(g: BatchedFetch) {
    && |g.syscallIds| == |g.argsHashes| > 0
    && forall i :: 0 <= i < |g.syscallIds| ==> g.syscallIds[i] == g.syscallIds[0]
  }

  function IdOf(g: BatchedFetch): SyscallId
    requires WellShaped(g)
  {
    g.syscallIds[0]
  }

  /** One non-empty group per id, ids increasing, hashes distinct in first-occurrence order, all batchable requests. */
  ghost predicate IsGrouping(pending: seq<PendingSyscall>, r: seq<BatchedFetch>) {
    && (forall g :: g in r ==> WellShaped(g) && CanBatch(IdOf(g)))
    && (forall i, j :: 0 <= i < j < |r| ==> IdOf(r[i]) < IdOf(r[j]))
    && (forall g :: g in r ==> InFirstOccurrenceOrder(HashesOf(pending, IdOf(g)), g.argsHashes))
    && (forall p :: p in pending && CanBatch(p.syscallId) ==> exists g :: g in r && IdOf(g) == p.syscallId)
  }

  lemma {:induction false} HashesMembers(pending: seq<PendingSyscall>, id: SyscallId)
    ensures forall h :: h in HashesOf(pending, id) <==>
                        exists p :: p in pending && p.syscallId == id && p.argsHash == h
  {
    if pending != [] {
      var last := |pending| - 1;
      HashesMembers(pending[..last], id);
      assert pending == pending[..last] + [pending[last]];
      forall h ensures h in HashesOf(pending, id) <==>
                       exists p :: p in pending && p.syscallId == id && p.argsHash == h
      {
        if exists p :: p in pending && p.syscallId == id && p.argsHash == h {
          var p :| p in pending && p.syscallId == id && p.argsHash == h;
          assert p in pending[..last] || p == pending[last];
        }
        if h in HashesOf(pending, id) {
          if h in HashesOf(pending[..last], id) {
            var p :| p in pending[..last] && p.syscallId == id && p.argsHash == h;
            assert p in pending;
          } else {
            assert pending[last] in pending;
          }
        }
      }
    }
  }

  lemma GroupShape(pending: seq<PendingSyscall>, id: SyscallId)
    requires HashesOf(pending, id) != []
    ensures var g := Group(id, Distinct(HashesOf(pending, id)));
            WellShaped(g) && IdOf(g) == id && InFirstOccurrenceOrder(HashesOf(pending, id), g.argsHashes)
  {
    DistinctOrder(HashesOf(pending, id));
    FirstIsMember(HashesOf(pending, id));
  }

  lemma GroupAt(pending: seq<PendingSyscall>, i: nat)
    requires i < |Batches(pending)|
    ensures var g, id := Batches(pending)[i], RequestedIds(pending, 1)[i];
            && WellShaped(g) && IdOf(g) == id && CanBatch(id)
            && InFirstOccurrenceOrder(HashesOf(pending, id), g.argsHashes)
  {
    var id := RequestedIds(pending, 1)[i];
    assert id in RequestedIds(pending, 1);
    RequestedIdsMember(pending, 1, id);
    GroupShape(pending, id);
  }

  lemma GroupFor(pending: seq<PendingSyscall>, p: PendingSyscall)
    requires p in pending && CanBatch(p.syscallId)
    ensures exists g :: g in Batches(pending) && WellShaped(g) && IdOf(g) == p.syscallId
  {
    var id := p.syscallId;
    HashesMembers(pending, id);
    assert p.argsHash in HashesOf(pending, id);
    RequestedIdsMember(pending, 1, id);
    var i :| 0 <= i < |RequestedIds(pending, 1)| && RequestedIds(pending, 1)[i] == id;
    GroupAt(pending, i);
    assert Batches(pending)[i] in Batches(pending);
  }

  /** The result meets its description. */
  lemma BatchesAreGrouping(pending: seq<PendingSyscall>)
    ensures IsGrouping(pending, Batches(pending))
  {
    var r := Batches(pending);
    RequestedIdsIncrease(pending, 1);
    forall i | 0 <= i < |r|
      ensures && WellShaped(r[i]) && IdOf(r[i]) == RequestedIds(pending, 1)[i] && CanBatch(IdOf(r[i]))
              && InFirstOccurrenceOrder(HashesOf(pending, IdOf(r[i])), r[i].argsHashes)
    {
      GroupAt(pending, i);
    }
    forall p | p in pending && CanBatch(p.syscallId)
      ensures exists g :: g in r && WellShaped(g) && IdOf(g) == p.syscallId
    {
      GroupFor(pending, p);
    }
  }

  /** And nothing else does. */
  lemma GroupingUnique(pending: seq<PendingSyscall>, a: seq<BatchedFetch>, b: seq<BatchedFetch>)
    requires IsGrouping(pending, a) && IsGrouping(pending, b)
    ensures a == b
  {
    forall g ensures g in a <==> g in b {
      if g in a {
        SameGroup(pending, a, b, g);
      }
      if g in b {
        SameGroup(pending, b, a, g);
      }
    }
    RankedUnique(a, b, g => if WellShaped(g) then IdOf(g) else 0);
  }

  lemma SameGroup(pending: seq<PendingSyscall>, a: seq<BatchedFetch>, b: seq<BatchedFetch>, g: BatchedFetch)
    requires IsGrouping(pending, a) && IsGrouping(pending, b) && g in a
    ensures g in b
  {
    var id := IdOf(g);
    HashesMembers(pending, id);
    FirstIsMember(g.argsHashes);
    var g' :| g' in b && IdOf(g') == id;
    OrderUnique(HashesOf(pending, id), g.argsHashes, g'.argsHashes);
    assert g == g';
  }

  // ---- The grouping in terms of the requests themselves ----------------------------------------------------

  /** Where in `pending` the k-th request of the id stands. */
  function Place(pending: seq<PendingSyscall>, id: SyscallId, k: nat): nat {
    if pending == [] then 0 else
    var shorter := pending[..|pending| - 1];
    if k < |HashesOf(shorter, id)| then Place(shorter, id, k) else |pending| - 1
  }

  lemma {:induction false} PlaceExact(pending: seq<PendingSyscall>, id: SyscallId, k: nat)
    requires k < |HashesOf(pending, id)|
    ensures Place(pending, id, k) < |pending|
    ensures pending[Place(pending, id, k)].syscallId == id
    ensures pending[Place(pending, id, k)].argsHash == HashesOf(pending, id)[k]
  {
    var shorter := pending[..|pending| - 1];
    if k < |HashesOf(shorter, id)| {
      PlaceExact(shorter, id, k);
    }
  }

  lemma {:induction false} PlacesIncrease(pending: seq<PendingSyscall>, id: SyscallId, k: nat, k': nat)
    requires k < k' < |HashesOf(pending, id)|
    ensures Place(pending, id, k) < Place(pending, id, k')
  {
    var shorter := pending[..|pending| - 1];
    if k' < |HashesOf(shorter, id)| {
      PlacesIncrease(shorter, id, k, k');
    } else {
      PlaceExact(shorter, id, k);
    }
  }

  lemma {:induction false} EveryRequestHasPlace(pending: seq<PendingSyscall>, b: nat) returns (k: nat)
    requires b < |pending|
    ensures k < |HashesOf(pending, pending[b].syscallId)| && Place(pending, pending[b].syscallId, k) == b
    ensures HashesOf(pending, pending[b].syscallId)[k] == pending[b].argsHash
  {
    var shorter, last := pending[..|pending| - 1], |pending| - 1;
    if b < last {
      k := EveryRequestHasPlace(shorter, b);
    } else {
      k := |HashesOf(shorter, pending[b].syscallId)|;
    }
  }

  lemma {:induction false} FirstIndexLeast(s: seq<ArgsHash>, k: nat)
    requires k < |s|
    ensures FirstIndex(s, s[k]) <= k && s[FirstIndex(s, s[k])] == s[k]
  {
    if s[0] != s[k] {
      FirstIndexLeast(s[1..], k - 1);
    }
  }

  predicate IsRequest(p: PendingSyscall, id: SyscallId, hash: ArgsHash) {
    p.syscallId == id && p.argsHash == hash
  }

  /** Some request of the first hash comes before all requests of the second. */
  ghost predicate RequestedBefore(pending: seq<PendingSyscall>, id: SyscallId, first: ArgsHash, second: ArgsHash) {
    exists a :: 0 <= a < |pending| && IsRequest(pending[a], id, first) &&
      forall b :: 0 <= b < |pending| && IsRequest(pending[b], id, second) ==> a < b
  }

  lemma OrderOfRequests(pending: seq<PendingSyscall>, id: SyscallId, first: ArgsHash, second: ArgsHash)
    requires first in HashesOf(pending, id)
    requires FirstIndex(HashesOf(pending, id), first) < FirstIndex(HashesOf(pending, id), second)
    ensures RequestedBefore(pending, id, first, second)
  {
    var hashes := HashesOf(pending, id);
    var i: nat :| i < |hashes| && hashes[i] == first;
    FirstIndexLeast(hashes, i);
    var k := FirstIndex(hashes, first);
    PlaceExact(pending, id, k);
    var a := Place(pending, id, k);
    forall b | 0 <= b < |pending| && IsRequest(pending[b], id, second) ensures a < b {
      var k' := EveryRequestHasPlace(pending, b);
      FirstIndexLeast(hashes, k');
      PlacesIncrease(pending, id, k, k');
    }
    assert IsRequest(pending[a], id, first);
  }

  /** The group fetches for its id exactly the hashes requested of it, in the order of their first requests. */
  ghost predicate FetchesRequested(pending: seq<PendingSyscall>, g: BatchedFetch) {
    && WellShaped(g) && 1 <= IdOf(g) <= 9
    && (forall h :: h in g.argsHashes <==> exists p :: p in pending && IsRequest(p, IdOf(g), h))
    && (forall i, j :: 0 <= i < j < |g.argsHashes| ==>
          RequestedBefore(pending, IdOf(g), g.argsHashes[i], g.argsHashes[j]))
  }

  lemma GroupContents(pending: seq<PendingSyscall>)
    ensures forall g :: g in Batches(pending) ==> FetchesRequested(pending, g)
  {
    BatchesAreGrouping(pending);
    forall g | g in Batches(pending) ensures FetchesRequested(pending, g) {
      RequestedInOrder(pending, IdOf(g), g);
    }
  }

  lemma RequestedInOrder(pending: seq<PendingSyscall>, id: SyscallId, g: BatchedFetch)
    requires WellShaped(g) && CanBatch(id) && IdOf(g) == id
    requires InFirstOccurrenceOrder(HashesOf(pending, id), g.argsHashes)
    ensures FetchesRequested(pending, g)
  {
    HashesMembers(pending, id);
    forall h ensures h in g.argsHashes <==> exists p :: p in pending && IsRequest(p, id, h) {
      if h in HashesOf(pending, id) {
        var p :| p in pending && p.syscallId == id && p.argsHash == h;
        assert IsRequest(p, id, h);
      }
    }
    forall i, j | 0 <= i < j < |g.argsHashes| ensures RequestedBefore(pending, id, g.argsHashes[i], g.argsHashes[j]) {
      assert g.argsHashes[i] in g.argsHashes;
      OrderOfRequests(pending, id, g.argsHashes[i], g.argsHashes[j]);
    }
  }

  /** There is a group for exactly the ids from 1 to 9 that are requested. */
  lemma GroupsExist(pending: seq<PendingSyscall>, id: SyscallId)
    ensures (exists g :: g in Batches(pending) && WellShaped(g) && IdOf(g) == id) <==>
            1 <= id <= 9 && exists p :: p in pending && p.syscallId == id
  {
    BatchesAreGrouping(pending);
    if exists g :: g in Batches(pending) && WellShaped(g) && IdOf(g) == id {
      var g :| g in Batches(pending) && WellShaped(g) && IdOf(g) == id;
      GroupContents(pending);
      assert FetchesRequested(pending, g);
      FirstIsMember(g.argsHashes);
      var p :| p in pending && IsRequest(p, id, g.argsHashes[0]);
    }
    if p :| p in pending && p.syscallId == id && 1 <= id <= 9 {
      GroupFor(pending, p);
    }
  }
}
