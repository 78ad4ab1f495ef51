/** Java `int` arithmetic and MSB-first binary numbers, shared by the index computations. */
module Bits {

  const TWO_32: int := 0x1_0000_0000
  const TWO_31: int := 0x8000_0000

  /** A Java `int`. */
  type Int32 = x: int | -0x8000_0000 <= x < 0x8000_0000

  function Pow2(n: nat): (r: nat)
    ensures r >= 1
  {
    if n == 0 then 1 else 2 * Pow2(n - 1)
  }

  /** Java's wrap-around of an exact integer result into an `int`. */
  function Wrap(x: int): Int32 {
    (x + TWO_31) % TWO_32 - TWO_31
  }

  /** A result that fits in an `int` does not wrap. */
  lemma WrapInRange(x: int)
    requires -TWO_31 <= x < TWO_31
    ensures Wrap(x) == x
  {
  }

  /** The 32-bit two's-complement pattern of `x`, read as an unsigned number. */
  function Unsigned(x: Int32): (r: nat)
    ensures r < TWO_32
    ensures x >= 0 ==> r == x
  {
    if x >= 0 then x else x + TWO_32
  }

  /** Bit `k` of `x`, the lowest bit being bit 0. */
  predicate Bit(x: nat, k: nat) {
    if k == 0 then x % 2 == 1 else Bit(x / 2, k - 1)
  }

  /** Bitwise AND of two unsigned numbers. */
  function BitAnd(x: nat, y: nat): nat {
    if x == 0 || y == 0 then 0
    else 2 * BitAnd(x / 2, y / 2) + (if x % 2 == 1 && y % 2 == 1 then 1 else 0)
  }

  /** The value of a bit string read most significant bit first. */
  function Pack(bits: seq<bool>): nat {
    if bits == [] then 0 else 2 * Pack(bits[..|bits| - 1]) + (if bits[|bits| - 1] then 1 else 0)
  }

  /** The `n` lowest bits of `x`, most significant first. */
  function Digits(n: nat, x: nat): (r: seq<bool>)
    ensures |r| == n
  {
    if n == 0 then [] else Digits(n - 1, x / 2) + [x % 2 == 1]
  }

  lemma Pow2Values()
    ensures Pow2(30) == 0x4000_0000 && Pow2(31) == TWO_31 && Pow2(32) == TWO_32
  {
    assert Pow2(4) == 16;
    assert Pow2(8) == 256;
    assert Pow2(12) == 4096;
    assert Pow2(16) == 65536;
    assert Pow2(20) == 0x10_0000;
    assert Pow2(24) == 0x100_0000;
    assert Pow2(28) == 0x1000_0000;
  }

  lemma {:induction false} Pow2Monotone(a: nat, b: nat)
    requires a <= b
    ensures Pow2(a) <= Pow2(b)
  {
    if a < b {
      Pow2Monotone(a, b - 1);
    }
  }

  /** Masking with 2^k isolates bit k. */
  lemma {:induction false} BitAndPow2(x: nat, k: nat)
    ensures BitAnd(x, Pow2(k)) != 0 <==> Bit(x, k)
  {
    if k == 0 {
      if x != 0 {
        assert BitAnd(x / 2, 0) == 0;
      }
    } else if x == 0 {
      BitOfZero(k);
    } else {
      BitAndPow2(x / 2, k - 1);
    }
  }

  lemma {:induction false} BitOfZero(k: nat)
    ensures !Bit(0, k)
  {
    if k > 0 {
      BitOfZero(k - 1);
    }
  }

  /** A number below 2^k has no bit at position k or above. */
  lemma {:induction false} BitAboveWidth(x: nat, k: nat)
    requires x < Pow2(k)
    ensures !Bit(x, k)
  {
    if k > 0 {
      BitAboveWidth(x / 2, k - 1);
    }
  }

  /** Position `p` (from the left) of `Digits(n, x)` is bit `n - 1 - p` of `x`. */
  lemma {:induction false} DigitsAt(n: nat, x: nat, p: nat)
    requires p < n
    ensures Digits(n, x)[p] == Bit(x, n - 1 - p)
  {
    if p < n - 1 {
      DigitsAt(n - 1, x / 2, p);
    }
  }

  /** Reading the `n` lowest digits of a number below 2^n gives the number back. */
  lemma {:induction false} PackDigits(n: nat, x: nat)
    requires x < Pow2(n)
    ensures Pack(Digits(n, x)) == x
  {
    if n > 0 {
      var d := Digits(n, x);
      assert d[..n - 1] == Digits(n - 1, x / 2);
      PackDigits(n - 1, x / 2);
    }
  }

  lemma {:induction false} PackBound(bits: seq<bool>)
    ensures Pack(bits) < Pow2(|bits|)
  {
    if bits != [] {
      PackBound(bits[..|bits| - 1]);
    }
  }

  /** Writing the value of a bit string back in as many digits gives the bit string. */
  lemma {:induction false} DigitsPack(bits: seq<bool>)
    ensures Digits(|bits|, Pack(bits)) == bits
  {
    if bits != [] {
      var init := bits[..|bits| - 1];
      DigitsPack(init);
      assert bits == init + [bits[|bits| - 1]];
    }
  }

  /** Pack of a bit string extended on the right. */
  lemma PackAppend(bits: seq<bool>, b: bool)
    ensures Pack(bits + [b]) == 2 * Pack(bits) + (if b then 1 else 0)
  {
    assert (bits + [b])[..|bits|] == bits;
  }

  /**
   * Java's `(x & bitMask) != 0` at step `k` of a loop whose `int bitMask` starts at 1 and doubles
   * each step: bit `k` of `x` while k < 32; from k = 32 on the doubled mask has wrapped to 0.
   */
  predicate JavaBitSet(x: Int32, k: nat) {
    k < 32 && Bit(Unsigned(x), k)
  }

  /** The value of that `int bitMask` at step `k`: 2^k, then the sign bit, then 0. */
  function JavaBitMask(k: nat): Int32 {
    if k <= 30 then (Pow2Values(); Pow2Monotone(k, 30); Pow2(k))
    else if k == 31 then -TWO_31
    else 0
  }

  /** One doubling of the mask, `bitMask *= 2`, with Java's wrap-around. */
  lemma JavaBitMaskStep(k: nat)
    ensures Wrap(JavaBitMask(k) * 2) == JavaBitMask(k + 1)
  {
    Pow2Values();
    if k <= 29 {
      Pow2Monotone(k + 1, 30);
    }
  }

  /** Testing `x & bitMask` at step `k` is testing `JavaBitSet(x, k)`. */
  lemma JavaBitTest(x: Int32, k: nat)
    ensures (BitAnd(Unsigned(x), Unsigned(JavaBitMask(k))) != 0) == JavaBitSet(x, k)
  {
    Pow2Values();
    if k < 32 {
      if k == 31 {
        assert Unsigned(JavaBitMask(k)) == Pow2(31);
      }
      BitAndPow2(Unsigned(x), k);
    }
  }

  /** For a non-negative `int`, the Java bit test is the plain binary digit. */
  lemma JavaBitOfNonNegative(x: Int32, k: nat)
    requires x >= 0
    ensures JavaBitSet(x, k) == Bit(x, k)
  {
    if k >= 32 {
      Pow2Values();
      Pow2Monotone(32, k);
      BitAboveWidth(x, k);
    }
  }
}
