/** Arithmetic modulo n on counters. */
module Modular {
  import opened Common

  /** A counter reduced to an index of a ring of n slots. */
  function Wrap(count: nat, n: nat): (index: nat)
    requires n > 0
    ensures index < n
  {
    count % n
  }

  lemma MulMonotone(x: int, y: int, n: nat)
    ensures x <= y ==> x * n <= y * n
  {
    if x <= y {
      assert (y - x) * n >= 0;
    }
  }

  lemma WrapUnique(a: nat, n: nat, q: int)
    requires n > 0 && 0 <= a - q * n < n
    ensures Wrap(a, n) == a - q * n
  {
    MulMonotone(a / n, q - 1, n);
    MulMonotone(q + 1, a / n, n);
  }

  lemma WrapSmall(a: nat, n: nat)
    requires a < n
    ensures Wrap(a, n) == a
  {
    WrapUnique(a, n, 0);
  }

  lemma Turns(a: nat, n: nat) returns (q: int)
    requires n > 0
    ensures a == q * n + Wrap(a, n)
  {
    q := a / n;
  }

  lemma WrapAdd(a: nat, n: nat)
    requires n > 0
    ensures Wrap(a + n, n) == Wrap(a, n)
  {
    hide Wrap;
    var q := Turns(a, n);
    WrapUnique(a + n, n, q + 1);
  }

  lemma WrapSucc(a: nat, n: nat)
    requires n > 0
    ensures Wrap(Wrap(a, n) + 1, n) == Wrap(a + 1, n)
  {
    hide Wrap;
    var q := Turns(a, n);
    if Wrap(a, n) + 1 < n {
      WrapUnique(a + 1, n, q);
      WrapSmall(Wrap(a, n) + 1, n);
    } else {
      WrapUnique(a + 1, n, q + 1);
      WrapUnique(Wrap(a, n) + 1, n, 1);
    }
  }

  /** Counters less than n apart have the same index only if they are equal. */
  lemma WrapInjective(a: nat, b: nat, n: nat)
    requires n > 0 && 0 <= b - a < n && Wrap(a, n) == Wrap(b, n)
    ensures a == b
  {
    hide Wrap;
    var p := Turns(a, n);
    var q := Turns(b, n);
    assert b - a == (q - p) * n;
    MulMonotone(1, q - p, n);
    MulMonotone(q - p, -1, n);
  }

  /** Adding the same amount to two counters keeps equal indices equal and different ones different. */
  lemma WrapCancel(a: nat, b: nat, d: nat, n: nat)
    requires n > 0
    ensures Wrap(a + d, n) == Wrap(b + d, n) <==> Wrap(a, n) == Wrap(b, n)
  {
    hide Wrap;
    var p := Turns(a, n);
    var q := Turns(b, n);
    var p' := Turns(a + d, n);
    var q' := Turns(b + d, n);
    if Wrap(a, n) == Wrap(b, n) {
      assert a + d == (p - q + q') * n + Wrap(b + d, n);
      WrapUnique(a + d, n, p - q + q');
    }
    if Wrap(a + d, n) == Wrap(b + d, n) {
      assert a == (p' - q' + q) * n + Wrap(b, n);
      WrapUnique(a, n, p' - q' + q);
    }
  }

  lemma WrapAccumulate(a: nat, b: nat, n: nat)
    requires n > 0
    ensures Wrap(Wrap(a, n) + b, n) == Wrap(a + b, n)
  {
    hide Wrap;
    var p := Turns(a, n);
    var q := Turns(a + b, n);
    assert Wrap(a, n) + b == (q - p) * n + Wrap(a + b, n);
    WrapUnique(Wrap(a, n) + b, n, q - p);
  }

  /** A u64 counter that is bumped counts modulo 2^64. */
  lemma BumpWrap(n: nat)
    ensures Bump(Wrap(n, TWO64)) == Wrap(n + 1, TWO64)
  {
    WrapSucc(n, TWO64);
  }
}
