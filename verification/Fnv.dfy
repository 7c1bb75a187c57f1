/**
 The 64-bit FNV-1a hash that keys the cache and the dedup table. A u64 is a number below 2^64; its
 exclusive or is defined bit by bit, its multiplication wraps.
 */
module Fnv {
  import opened Common
  import opened Modular

  const OFFSET_BASIS: U64 := 14695981039346656037
  const PRIME: U64 := 1099511628211

  function Xor(a: nat, b: nat): nat
    decreases a + b
  {
    if a == 0 && b == 0 then 0 else 2 * Xor(a / 2, b / 2) + (a + b) % 2
  }

  /** A u64 and a byte widened to it. */
  function XorByte(hash: U64, byte: U8): U64 {
    TwoTo64();
    XorBelow(hash, byte, 64);
    Xor(hash, byte)
  }

  function WrappingMul(a: U64, b: U64): U64 {
    Wrap(a * b, TWO64)
  }

  /** Absorbs one byte. */
  function Mix(hash: U64, byte: U8): U64 {
    WrappingMul(XorByte(hash, byte), PRIME)
  }

  /** The hash state reached from `hash` after absorbing `data` from left to right. */
  function HashFrom(hash: U64, data: Bytes): U64
    decreases |data|
  {
    if data == [] then hash else HashFrom(Mix(hash, data[0]), data[1..])
  }

  function Hash(data: Bytes): ArgsHash {
    HashFrom(OFFSET_BASIS, data)
  }

  method FnvHash(data: Bytes) returns (hash: ArgsHash)
    ensures hash == Hash(data)
  {
    hash := OFFSET_BASIS;
    for i := 0 to |data|
      invariant Hash(data) == HashFrom(hash, data[i..])
    {
      assert data[i..][1..] == data[i + 1..];
      hash := XorByte(hash, data[i]);
      hash := WrappingMul(hash, PRIME);
    }
  }

  // ---- Exclusive or ---------------------------------------------------------------------------------

  function Pow2(k: nat): nat {
    if k == 0 then 1 else 2 * Pow2(k - 1)
  }

  lemma TwoTo64()
    ensures Pow2(8) == 256 && Pow2(64) == TWO64
  {
    assert Pow2(8) == 256 && Pow2(16) == 0x1_0000 && Pow2(24) == 0x100_0000 && Pow2(32) == 0x1_0000_0000;
    assert Pow2(40) == 0x100_0000_0000 && Pow2(48) == 0x1_0000_0000_0000 && Pow2(56) == 0x100_0000_0000_0000;
  }

  /** The last bit of the exclusive or, and the others. */
  lemma XorBits(a: nat, b: nat)
    ensures Xor(a, b) % 2 == (a + b) % 2 && Xor(a, b) / 2 == Xor(a / 2, b / 2)
  {
    if a == 0 && b == 0 {
      assert Xor(0, 0) == 0;
    } else {
      TwiceAndBit(Xor(a / 2, b / 2), (a + b) % 2);
    }
  }

  lemma TwiceAndBit(n: nat, bit: nat)
    requires bit < 2
    ensures (2 * n + bit) % 2 == bit && (2 * n + bit) / 2 == n
  {}

  lemma SameBits(x: nat, y: nat)
    requires x % 2 == y % 2 && x / 2 == y / 2
    ensures x == y
  {}

  lemma {:induction false} XorBelow(a: nat, b: nat, k: nat)
    requires a < Pow2(k) && b < Pow2(k)
    ensures Xor(a, b) < Pow2(k)
  {
    if k > 0 {
      XorBelow(a / 2, b / 2, k - 1);
    }
  }

  lemma {:induction false} XorTwice(a: nat, b: nat)
    ensures Xor(Xor(a, b), b) == a
    decreases a + b
  {
    hide Xor;
    if a == 0 && b == 0 {
      XorZero(0);
    } else {
      XorTwice(a / 2, b / 2);
      XorTwiceStep(a, b);
    }
  }

  lemma XorTwiceStep(a: nat, b: nat)
    requires Xor(Xor(a / 2, b / 2), b / 2) == a / 2
    ensures Xor(Xor(a, b), b) == a
  {
    hide Xor;
    XorBits(a, b);
    XorBits(Xor(a, b), b);
    SameBits(Xor(Xor(a, b), b), a);
  }

  /** Bits that are zero in b stay as they are in a. */
  lemma {:induction false} XorKeepsHigh(q: nat, r: nat, b: nat, k: nat)
    requires r < Pow2(k) && b < Pow2(k)
    ensures Xor(Pow2(k) * q + r, b) == Pow2(k) * q + Xor(r, b)
  {
    hide Xor;
    if k == 0 {
      XorZero(q);
      XorZero(0);
    } else {
      var m := Pow2(k - 1);
      Twofold(m, q);
      XorKeepsHigh(q, r / 2, b / 2, k - 1);
      XorKeepsEven(m * q, r, b);
    }
  }

  lemma Twofold(m: nat, q: nat)
    ensures 2 * m * q == 2 * (m * q)
  {}

  lemma XorKeepsEven(high: nat, r: nat, b: nat)
    requires Xor(high + r / 2, b / 2) == high + Xor(r / 2, b / 2)
    ensures Xor(2 * high + r, b) == 2 * high + Xor(r, b)
  {
    hide Xor;
    XorBits(2 * high + r, b);
    XorBits(r, b);
    assert (2 * high + r) / 2 == high + r / 2;
    SameBits(Xor(2 * high + r, b), 2 * high + Xor(r, b));
  }

  lemma {:induction false} XorZero(a: nat)
    ensures Xor(a, 0) == a
  {
    if a != 0 {
      XorZero(a / 2);
    }
  }

  function Bit(n: nat, k: nat): nat {
    if k == 0 then n % 2 else Bit(n / 2, k - 1)
  }

  /** Bit by bit: set exactly where the bits differ. */
  lemma {:induction false} XorBitwise(a: nat, b: nat, k: nat)
    ensures Bit(Xor(a, b), k) == if Bit(a, k) == Bit(b, k) then 0 else 1
  {
    hide Xor;
    XorBits(a, b);
    if k > 0 {
      XorBitwise(a / 2, b / 2, k - 1);
    }
  }

  // ---- What a step does to the number -----------------------------------------------------------------

  lemma LowByte(hash: U64, byte: U8)
    ensures XorByte(hash, byte) == hash - hash % 256 + Xor(hash % 256, byte)
    ensures Xor(hash % 256, byte) < 256
  {
    TwoTo64();
    XorBelow(hash % 256, byte, 8);
    XorKeepsHigh(hash / 256, hash % 256, byte, 8);
  }

  /**
   Absorbing a byte: exclusive or into the low-order octet, then multiplication by the FNV prime
   2^40 + 2^8 + 0xb3, modulo 2^64.
   */
  lemma AbsorbStep(data: Bytes, byte: U8)
    ensures var h := Hash(data);
            Hash(data + [byte]) ==
              (h - h % 256 + Xor(h % 256, byte)) * (0x100_0000_0000 + 0x100 + 0xb3) % 0x1_0000_0000_0000_0000
  {
    hide Xor, XorByte;
    HashConcat(OFFSET_BASIS, data, [byte]);
    HashOne(Hash(data), byte);
    LowByte(Hash(data), byte);
  }

  lemma HashOne(hash: U64, byte: U8)
    ensures HashFrom(hash, [byte]) == Mix(hash, byte)
  {
    hide Mix;
    assert [byte][1..] == [];
    assert HashFrom(hash, [byte]) == HashFrom(Mix(hash, byte), []);
  }

  /** Two published values: of the empty string and of "a". */
  lemma KnownValues()
    ensures Hash([]) == 0xcbf29ce484222325 && Hash([0x61]) == 0xaf63dc4c8601ec8c
  {
    hide *;
    HashEmpty();
    AbsorbStep([], 0x61);
    assert [] + [0x61] == [0x61];
    XorOfLowOctet();
  }

  lemma HashEmpty()
    ensures Hash([]) == 0xcbf29ce484222325
  {}

  lemma XorOfLowOctet()
    ensures Xor(0x25, 0x61) == 0x44
  {
    hide Xor;
    XorBits(0x25, 0x61);
    XorBits(18, 48);
    XorBits(9, 24);
    XorBits(4, 12);
    XorBits(2, 6);
    XorBits(1, 3);
    XorBits(0, 1);
    XorZero(0);
  }

  // ---- Running backwards ------------------------------------------------------------------------------

  /** The inverse of the prime modulo 2^64. */
  const PRIME_INVERSE: U64 := 0xce965057aff6957b

  function Divide(hash: U64): U64 {
    WrappingMul(hash, PRIME_INVERSE)
  }

  function Unmix(hash: U64, byte: U8): U64 {
    XorByte(Divide(hash), byte)
  }

  /** Runs the hash backwards: from the state after `data` to the state before it. */
  function Rewind(hash: U64, data: Bytes): U64
    decreases |data|
  {
    if data == [] then hash else Unmix(Rewind(hash, data[1..]), data[0])
  }

  lemma DivideMultiply(x: U64)
    ensures Divide(WrappingMul(x, PRIME)) == x
  {
    hide Wrap;
    var product := Wrap(x * PRIME, TWO64);
    var q := Turns(x * PRIME, TWO64);
    assert PRIME * PRIME_INVERSE == 0xce9650590f * TWO64 + 1;
    assert x * PRIME * PRIME_INVERSE == x * 0xce9650590f * TWO64 + x;
    assert product * PRIME_INVERSE == (x * 0xce9650590f - q * PRIME_INVERSE) * TWO64 + x;
    WrapUnique(product * PRIME_INVERSE, TWO64, x * 0xce9650590f - q * PRIME_INVERSE);
  }

  lemma UnmixMix(hash: U64, byte: U8)
    ensures Unmix(Mix(hash, byte), byte) == hash
  {
    hide WrappingMul, Xor;
    DivideMultiply(XorByte(hash, byte));
    XorTwice(hash, byte);
  }

  /** Different bytes make a difference. */
  lemma XorCancel(hash: U64, x: U8, y: U8)
    requires XorByte(hash, x) == XorByte(hash, y)
    ensures x == y
  {
    hide Xor;
    XorSwap(hash, x);
    XorSwap(hash, y);
    XorTwice(x, hash);
    XorTwice(y, hash);
  }

  lemma {:induction false} XorSwap(a: nat, b: nat)
    ensures Xor(a, b) == Xor(b, a)
    decreases a + b
  {
    if a != 0 || b != 0 {
      XorSwap(a / 2, b / 2);
    }
  }

  lemma MixInjective(hash: U64, x: U8, y: U8)
    requires x != y
    ensures Mix(hash, x) != Mix(hash, y)
  {
    hide WrappingMul, Xor, XorByte, Divide;
    DivideMultiply(XorByte(hash, x));
    DivideMultiply(XorByte(hash, y));
    if Mix(hash, x) == Mix(hash, y) {
      XorCancel(hash, x, y);
    }
  }

  /** The hash loses nothing about its starting state: knowing the bytes, it can be run backwards. */
  lemma {:induction false} RewindRestores(hash: U64, data: Bytes)
    ensures Rewind(HashFrom(hash, data), data) == hash
    decreases |data|
  {
    if data != [] {
      RewindRestores(Mix(hash, data[0]), data[1..]);
      UnmixMix(hash, data[0]);
    }
  }

  lemma {:induction false} HashConcat(hash: U64, a: Bytes, b: Bytes)
    ensures HashFrom(hash, a + b) == HashFrom(HashFrom(hash, a), b)
    decreases |a|
  {
    if a == [] {
      assert a + b == b;
    } else {
      assert (a + b)[1..] == a[1..] + b;
      HashConcat(Mix(hash, a[0]), a[1..], b);
    }
  }

  /** A common suffix neither creates nor removes a collision, whatever the lengths of `a` and `b`. */
  lemma SuffixKeepsCollisions(a: Bytes, b: Bytes, suffix: Bytes)
    ensures Hash(a + suffix) == Hash(b + suffix) <==> Hash(a) == Hash(b)
  {
    HashConcat(OFFSET_BASIS, a, suffix);
    HashConcat(OFFSET_BASIS, b, suffix);
    RewindRestores(Hash(a), suffix);
    RewindRestores(Hash(b), suffix);
  }

  /** Two strings of one length that differ at exactly one position never collide. */
  lemma OneByteDifferenceNeverCollides(a: Bytes, b: Bytes, k: nat)
    requires |a| == |b| && k < |a|
    requires a[k] != b[k]
    requires forall i :: 0 <= i < |a| && i != k ==> a[i] == b[i]
    ensures Hash(a) != Hash(b)
  {
    var prefix, suffix := a[..k], a[k + 1..];
    assert a == prefix + [a[k]] + suffix;
    assert b == prefix + [b[k]] + suffix;
    SuffixKeepsCollisions(prefix + [a[k]], prefix + [b[k]], suffix);
    HashConcat(OFFSET_BASIS, prefix, [a[k]]);
    HashConcat(OFFSET_BASIS, prefix, [b[k]]);
    MixInjective(Hash(prefix), a[k], b[k]);
  }
}
