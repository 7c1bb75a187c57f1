/** A least-recently-used map as a list, most recently used entry first, and its usual operations. */
module Lru {
  import opened Common
  import opened Sequences

  datatype CachedResult = CachedResult(data: Bytes, epoch: U64, cachedAtSlot: U64)

  datatype Entry = Entry(key: CacheKey, result: CachedResult)

  type Entries = seq<Entry>

  function Keys(l: Entries): (keys: seq<CacheKey>) {
    if l == [] then [] else [l[0].key] + Keys(l[1..])
  }

  /** Looks a key up without touching the recency order. */
  function Peek(l: Entries, key: CacheKey): Option<CachedResult> {
    if l == [] then None else if l[0].key == key then Some(l[0].result) else Peek(l[1..], key)
  }

  function Pop(l: Entries, key: CacheKey): Entries {
    if l == [] then [] else if l[0].key == key then l[1..] else [l[0]] + Pop(l[1..], key)
  }

  /** Inserts or overwrites, making the key most recent; beyond the capacity the oldest entry goes. */
  function Put(capacity: nat, l: Entries, key: CacheKey, result: CachedResult): Entries {
    Cut([Entry(key, result)] + Pop(l, key), capacity)
  }

  /** Looks a key up and makes it most recent. */
  function Promote(l: Entries, key: CacheKey): Entries {
    match Peek(l, key)
    case Some(result) => [Entry(key, result)] + Pop(l, key)
    case None => l
  }

  lemma {:induction false} KeysIndex(l: Entries)
    ensures |Keys(l)| == |l|
    ensures forall i :: 0 <= i < |l| ==> Keys(l)[i] == l[i].key
  {
    if l != [] {
      KeysIndex(l[1..]);
    }
  }

  lemma {:induction false} PeekFinds(l: Entries, key: CacheKey)
    ensures Peek(l, key).Some? <==> key in Keys(l)
    ensures Peek(l, key).Some? ==> Entry(key, Peek(l, key).value) in l
  {
    if l != [] {
      PeekFinds(l[1..], key);
    }
  }

  lemma {:induction false} PopKeys(l: Entries, key: CacheKey)
    ensures Keys(Pop(l, key)) == Remove(Keys(l), key)
  {
    if l != [] {
      PopKeys(l[1..], key);
    }
  }

  lemma KeysCut(l: Entries, n: nat)
    ensures Keys(Cut(l, n)) == Cut(Keys(l), n)
  {
    KeysIndex(l);
    KeysIndex(Cut(l, n));
  }

  lemma {:induction false} PeekAfterPop(l: Entries, key: CacheKey, other: CacheKey)
    requires NoDup(Keys(l))
    ensures Peek(Pop(l, key), other) == if other == key then None else Peek(l, other)
  {
    if l != [] {
      NoDupCons(l[0].key, Keys(l[1..]));
      PeekAfterPop(l[1..], key, other);
      PeekFinds(l[1..], key);
    }
  }

  /** Cutting keeps the result of every key it keeps. */
  lemma {:induction false} PeekAfterCut(l: Entries, n: nat, key: CacheKey)
    ensures Peek(Cut(l, n), key) == if key in Cut(Keys(l), n) then Peek(l, key) else None
  {
    KeysCut(l, n);
    if l != [] && n > 0 {
      PeekAfterCut(l[1..], n - 1, key);
      KeysCut(l[1..], n - 1);
      assert Cut(l, n) == [l[0]] + Cut(l[1..], n - 1);
    }
  }
}
