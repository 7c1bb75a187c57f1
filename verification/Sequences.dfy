/** Sequences without repetition, removal, subsequences (some elements dropped, order kept), and prefixes. */
module Sequences {

  ghost predicate NoDup<T>(s: seq<T>) {
    forall i, j :: 0 <= i < j < |s| ==> s[i] != s[j]
  }

  ghost function Elements<T>(s: seq<T>): set<T> {
    set x | x in s
  }

  lemma NoDupCons<T>(x: T, s: seq<T>)
    ensures NoDup([x] + s) <==> x !in s && NoDup(s)
  {
    var t := [x] + s;
    if NoDup(t) {
      forall i, j | 0 <= i < j < |s| ensures s[i] != s[j] {
        assert s[i] == t[i + 1] && s[j] == t[j + 1];
      }
      forall i | 0 <= i < |s| ensures s[i] != x {
        assert s[i] == t[i + 1] && x == t[0];
      }
    }
  }

  lemma ElementsCons<T>(x: T, s: seq<T>)
    ensures Elements([x] + s) == {x} + Elements(s)
  {}

  lemma {:induction false} NoDupSize<T>(s: seq<T>)
    requires NoDup(s)
    ensures |Elements(s)| == |s|
  {
    if s != [] {
      NoDupSize(s[1..]);
      assert Elements(s) == {s[0]} + Elements(s[1..]);
    }
  }

  function Remove<T(==)>(s: seq<T>, x: T): seq<T> {
    if s == [] then [] else if s[0] == x then s[1..] else [s[0]] + Remove(s[1..], x)
  }

  lemma {:induction false} RemoveMembers<T>(s: seq<T>, x: T)
    requires NoDup(s)
    ensures NoDup(Remove(s, x))
    ensures forall y :: y in Remove(s, x) <==> y in s && y != x
  {
    if s != [] {
      RemoveMembers(s[1..], x);
      assert s == [s[0]] + s[1..] && s[0] !in s[1..];
    }
  }

  lemma {:induction false} RemoveSize<T>(s: seq<T>, x: T)
    ensures |Remove(s, x)| == if x in s then |s| - 1 else |s|
  {
    if s != [] {
      RemoveSize(s[1..], x);
    }
  }

  /** Where the element at q ends up, and what stays ahead of it, when x is removed. */
  lemma {:induction false} RemoveShift<T>(s: seq<T>, x: T, q: nat) returns (p: nat)
    requires q < |s| && s[q] != x && NoDup(s)
    ensures p < |Remove(s, x)| && Remove(s, x)[p] == s[q]
    ensures Elements(Remove(s, x)[..p]) == Elements(s[..q]) - {x}
  {
    assert s == [s[0]] + s[1..];
    NoDupCons(s[0], s[1..]);
    if s[0] == x {
      p := q - 1;
      assert s[..q] == [x] + s[1..][..p];
      ElementsCons(x, s[1..][..p]);
    } else if q == 0 {
      p := 0;
    } else {
      p := RemoveShift(s[1..], x, q - 1);
      p := p + 1;
      assert Remove(s, x)[..p] == [s[0]] + Remove(s[1..], x)[..p - 1];
      assert s[..q] == [s[0]] + s[1..][..q - 1];
      ElementsCons(s[0], Remove(s[1..], x)[..p - 1]);
      ElementsCons(s[0], s[1..][..q - 1]);
    }
  }

  /** The first n elements, or all of them. */
  function Cut<T>(s: seq<T>, n: nat): seq<T> {
    if |s| <= n then s else s[..n]
  }

  lemma CutCons<T>(x: T, s: seq<T>, n: nat)
    ensures Cut([x] + s, n + 1) == [x] + Cut(s, n)
  {}

  lemma RemoveCons<T>(y: T, s: seq<T>, x: T)
    ensures Remove([y] + s, x) == if y == x then s else [y] + Remove(s, x)
  {
    assert ([y] + s)[1..] == s;
  }

  lemma {:induction false} CutRemove<T>(s: seq<T>, x: T, n: nat)
    ensures Cut(Remove(Cut(s, n + 1), x), n) == Cut(Remove(s, x), n)
  {
    if s != [] {
      var y, t := s[0], s[1..];
      assert s == [y] + t;
      CutCons(y, t, n);
      RemoveCons(y, t, x);
      RemoveCons(y, Cut(t, n), x);
      if y == x {
        assert Cut(Cut(t, n), n) == Cut(t, n);
      } else if n > 0 {
        CutRemove(t, x, n - 1);
        CutCons(y, Remove(t, x), n - 1);
        CutCons(y, Remove(Cut(t, n), x), n - 1);
      } else {
        assert Cut(Remove(s, x), 0) == [] == Cut(Remove(Cut(s, 1), x), 0);
      }
    }
  }

  /** Moving x to the front of a list cut to n elements is cutting the list with x moved to the front. */
  lemma CutThenMove<T>(s: seq<T>, x: T, n: nat)
    ensures Cut([x] + Remove(Cut(s, n + 1), x), n + 1) == Cut([x] + Remove(s, x), n + 1)
  {
    CutRemove(s, x, n);
    CutCons(x, Remove(Cut(s, n + 1), x), n);
    CutCons(x, Remove(s, x), n);
  }

  predicate Subseq<T(==)>(a: seq<T>, b: seq<T>) {
    a == [] || (b != [] && ((a[0] == b[0] && Subseq(a[1..], b[1..])) || Subseq(a, b[1..])))
  }

  lemma {:induction false} SubseqGrow<T>(a: seq<T>, b: seq<T>, x: T)
    requires Subseq(a, b)
    ensures Subseq(a, b + [x]) && Subseq(a + [x], b + [x])
    decreases |b|
  {
    if b == [] {
      assert b + [x] == [x] && a + [x] == [x];
    } else {
      assert (b + [x])[1..] == b[1..] + [x];
      if a != [] && a[0] == b[0] && Subseq(a[1..], b[1..]) {
        SubseqGrow(a[1..], b[1..], x);
        assert (a + [x])[1..] == a[1..] + [x];
      } else {
        SubseqGrow(a, b[1..], x);
      }
    }
  }

  lemma {:induction false} SubseqMembers<T>(a: seq<T>, b: seq<T>)
    requires Subseq(a, b)
    ensures forall x :: x in a ==> x in b
    decreases |b|
  {
    if a != [] {
      if a[0] == b[0] && Subseq(a[1..], b[1..]) {
        SubseqMembers(a[1..], b[1..]);
        assert a == [a[0]] + a[1..] && b == [b[0]] + b[1..];
      } else {
        SubseqMembers(a, b[1..]);
      }
    }
  }

  /** Dropping further elements. */
  lemma {:induction false} SubseqTrans<T>(a: seq<T>, b: seq<T>, c: seq<T>)
    requires Subseq(a, b) && Subseq(b, c)
    ensures Subseq(a, c)
    decreases |c|
  {
    if a != [] {
      if b[0] == c[0] && Subseq(b[1..], c[1..]) {
        if a[0] == b[0] && Subseq(a[1..], b[1..]) {
          SubseqTrans(a[1..], b[1..], c[1..]);
        } else {
          SubseqTrans(a, b[1..], c[1..]);
        }
      } else {
        SubseqTrans(a, b, c[1..]);
      }
    }
  }

  lemma {:induction false} SubseqCut<T>(s: seq<T>, n: nat)
    ensures Subseq(Cut(s, n), s)
  {
    if s != [] && n > 0 {
      SubseqCut(s[1..], n - 1);
      assert Cut(s, n)[1..] == Cut(s[1..], n - 1);
    }
  }

  lemma {:induction false} SubseqRemove<T>(a: seq<T>, b: seq<T>, x: T)
    requires Subseq(a, b) && NoDup(b)
    ensures Subseq(Remove(a, x), Remove(b, x))
    decreases |b|
  {
    if a != [] {
      if a[0] == b[0] && Subseq(a[1..], b[1..]) {
        SubseqRemove(a[1..], b[1..], x);
      } else {
        SubseqRemove(a, b[1..], x);
        if b[0] == x {
          SubseqMembers(a, b[1..]);
          RemoveAbsent(a, x);
        }
      }
    }
  }

  lemma {:induction false} RemoveAbsent<T>(s: seq<T>, x: T)
    requires x !in s
    ensures Remove(s, x) == s
  {
    if s != [] {
      RemoveAbsent(s[1..], x);
    }
  }

  lemma {:induction false} SubseqSelf<T>(s: seq<T>)
    ensures Subseq(s, s)
  {
    if s != [] {
      SubseqSelf(s[1..]);
    }
  }

  lemma {:induction false} RemoveIsSubseq<T>(s: seq<T>, x: T)
    ensures Subseq(Remove(s, x), s)
  {
    if s != [] {
      if s[0] == x {
        SubseqSelf(s[1..]);
      } else {
        RemoveIsSubseq(s[1..], x);
        assert Remove(s, x)[1..] == Remove(s[1..], x);
      }
    }
  }

  // ---- Sizes ------------------------------------------------------------------------------------

  lemma {:induction false} ElementsBound<T>(s: seq<T>)
    ensures |Elements(s)| <= |s|
  {
    if s != [] {
      ElementsBound(s[1..]);
      assert s == [s[0]] + s[1..];
      ElementsCons(s[0], s[1..]);
    }
  }

  lemma SubsetSize<T>(a: set<T>, b: set<T>)
    requires a <= b
    ensures |a| <= |b|
  {
    assert |b| == |a| + |b - a|;
  }

  /** n elements cannot include another one and n different ones ahead of it. */
  lemma FullAhead<T>(s: seq<T>, kept: seq<T>, n: nat, i: nat) returns (j: nat)
    requires NoDup(s) && n <= i < |s| && |kept| <= n && s[i] in kept
    ensures j < n && s[j] !in kept
  {
    var ahead := s[..n] + [s[i]];
    if forall j: nat :: j < n ==> s[j] in kept {
      assert forall k :: k in Elements(ahead) ==> k in Elements(kept);
      NoDupSize(ahead);
      ElementsBound(kept);
      SubsetSize(Elements(ahead), Elements(kept));
      assert false;
    }
    j :| j < n && s[j] !in kept;
  }

  // ---- Prefixes ---------------------------------------------------------------------------------

  lemma {:induction false} RemovePrefix<T>(a: seq<T>, b: seq<T>, x: T)
    requires a <= b
    ensures Remove(a, x) <= Remove(b, x)
  {
    if a != [] {
      RemovePrefix(a[1..], b[1..], x);
    }
  }

  lemma CutPrefix<T>(a: seq<T>, b: seq<T>, n: nat, m: nat)
    requires a <= b && n <= m
    ensures Cut(a, n) <= Cut(b, m)
  {}

  lemma PrefixMember<T>(a: seq<T>, b: seq<T>, x: T)
    requires a <= b && x in a
    ensures x in b
  {}

  // ---- Splitting, and multisets ------------------------------------------------------------------

  lemma PrefixEqual<T>(a: seq<T>, b: seq<T>, c: seq<T>, d: seq<T>)
    requires |a| == |c|
    ensures a + b == c + d <==> a == c && b == d
  {
    assert a == (a + b)[..|a|] && b == (a + b)[|a|..];
    assert c == (c + d)[..|a|] && d == (c + d)[|a|..];
  }

  lemma {:induction false} SplitAtFirst<T>(s: seq<T>, x: T) returns (a: seq<T>, b: seq<T>)
    requires x in s
    ensures s == a + ([x] + b) && x !in a
  {
    if s[0] == x {
      a, b := [], s[1..];
    } else {
      a, b := SplitAtFirst(s[1..], x);
      a := [s[0]] + a;
    }
  }

  lemma SameWithout<T>(x: T, s: seq<T>, a: seq<T>, b: seq<T>)
    ensures multiset([x] + s) == multiset(a + ([x] + b)) <==> multiset(s) == multiset(a + b)
  {
    var ms, mab := multiset(s), multiset(a + b);
    assert multiset([x] + s) == multiset{x} + ms;
    assert multiset(a + ([x] + b)) == multiset{x} + mab;
    assert (multiset{x} + ms) - multiset{x} == ms;
    assert (multiset{x} + mab) - multiset{x} == mab;
  }

  lemma SwapPair<T>(x: T, y: T, s: seq<T>)
    ensures multiset([x, y] + s) == multiset([y, x] + s)
  {
    assert multiset([x, y] + s) == multiset{x, y} + multiset(s);
    assert multiset([y, x] + s) == multiset{x, y} + multiset(s);
  }

  lemma DifferentPairs<T>(e0: T, f1: T, f0: T, e1: T, s: seq<T>)
    requires f1 != f0 && f1 != e1
    ensures multiset([e0, f1] + s) != multiset([f0, e1] + s)
  {
    var ms := multiset(s);
    assert multiset([e0, f1] + s) == multiset{e0, f1} + ms;
    assert multiset([f0, e1] + s) == multiset{f0, e1} + ms;
    assert (multiset{e0, f1} + ms)[f1] > (multiset{f0, e1} + ms)[f1];
  }
}
