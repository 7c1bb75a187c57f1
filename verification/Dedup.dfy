/** The intra-transaction memo table (optimizer/src/dedup.rs). */
module Dedup {
  import opened Common

  datatype Key = Key(transactionId: TransactionId, syscallId: SyscallId, argsHash: ArgsHash)

  /** The table without the entries of one transaction. */
  function Cleared<V>(table: map<Key, V>, tx: TransactionId): map<Key, V> {
    map k | k in table && k.transactionId != tx :: table[k]
  }

  class DedupTable {
    var table: map<Key, Bytes>
    var dedupCount: U64

    constructor ()
      ensures table == map[] && dedupCount == 0
    {
      table, dedupCount := map[], 0;
    }

    method Check(key: Key) returns (found: Option<Bytes>)
      ensures found == if key in table then Some(table[key]) else None
    {
      found := if key in table then Some(table[key]) else None;
    }

    method Record(key: Key, result: Bytes)
      modifies this`table
      ensures table == old(table)[key := result]
    {
      table := table[key := result];
    }

    method CheckAndCount(key: Key) returns (found: Option<Bytes>)
      modifies this`dedupCount
      ensures found == if key in table then Some(table[key]) else None
      ensures dedupCount == if key in table then Bump(old(dedupCount)) else old(dedupCount)
    {
      if key in table {
        dedupCount := Bump(dedupCount);
        return Some(table[key]);
      }
      return None;
    }

    /** Visits the keys in any order and keeps those of other transactions. */
    method ClearTransaction(tx: TransactionId)
      modifies this`table
      ensures forall k :: k in table <==> k in old(table) && k.transactionId != tx
      ensures forall k :: k in table ==> table[k] == old(table)[k]
      ensures table == Cleared(old(table), tx)
    {
      var rest := table.Keys;
      while rest != {}
        invariant rest <= old(table).Keys
        invariant forall k :: k in table <==> k in old(table) && (k.transactionId != tx || k in rest)
        invariant forall k :: k in table ==> table[k] == old(table)[k]
        decreases |rest|
      {
        var key :| key in rest;
        rest := rest - {key};
        if key.transactionId == tx {
          table := table - {key};
        }
      }
    }
  }

  // ---- Lookups after any run ----------------------------------------------------------------------

  datatype TableOp<+V> = Store(key: Key, result: V) | Clear(tx: TransactionId)

  function Applied<V>(table: map<Key, V>, ops: seq<TableOp<V>>): map<Key, V> {
    if ops == [] then table else
    var before := Applied(table, ops[..|ops| - 1]);
    match ops[|ops| - 1]
    case Store(key, result) => before[key := result]
    case Clear(tx) => Cleared(before, tx)
  }

  /** Does the operation overwrite or drop the entry of the key? */
  predicate Touches<V>(op: TableOp<V>, key: Key) {
    match op
    case Store(k, _) => k == key
    case Clear(tx) => tx == key.transactionId
  }

  /** The key was stored with this result, and neither stored again nor cleared since. */
  ghost predicate Latest<V>(ops: seq<TableOp<V>>, key: Key, result: V) {
    exists i :: LatestAt(ops, key, result, i)
  }

  ghost predicate LatestAt<V>(ops: seq<TableOp<V>>, key: Key, result: V, i: int) {
    && 0 <= i < |ops| && ops[i] == Store(key, result)
    && forall j :: i < j < |ops| ==> !Touches(ops[j], key)
  }

  /**
   Whatever transactions interleave, a lookup returns exactly the latest result stored for that key
   since its transaction was last cleared: no entry crosses transactions or outlives its own.
   */
  lemma {:induction false} LookupIsLatest<V>(ops: seq<TableOp<V>>, key: Key, result: V)
    ensures key in Applied(map[], ops) && Applied(map[], ops)[key] == result <==> Latest(ops, key, result)
  {
    if ops != [] {
      var last := |ops| - 1;
      var shorter := ops[..last];
      LookupIsLatest(shorter, key, result);
      if Touches(ops[last], key) {
        if ops[last] == Store(key, result) {
          assert LatestAt(ops, key, result, last);
        }
      } else {
        forall i ensures LatestAt(ops, key, result, i) <==> LatestAt(shorter, key, result, i) {
          assert LatestAt(shorter, key, result, i) ==> ops[i] == shorter[i];
        }
      }
    }
  }
}
