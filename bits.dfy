/** Bit-level primitives shared by every analysis:
    powers of two, bitwise AND and exclusive or on non-negative integers (Python's
    `&` and `^`), population count (`bin(v).count('1')`), parity, the big-endian
    digit expansion `binary_representation`, and the vector dot product that the
    Walsh analysis takes of two digit vectors. */
module Bits {

  /** `1 << k`. */
  function Pow2(k: nat): (r: nat)
    ensures r >= 1
  {
    if k == 0 then 1 else 2 * Pow2(k - 1)
  }

  /** Bitwise exclusive or of two non-negative integers, least significant bit first. */
  function Xor(a: nat, b: nat): nat
    decreases a + b
  {
    if a == 0 && b == 0 then 0
    else 2 * Xor(a / 2, b / 2) + (if a % 2 == b % 2 then 0 else 1)
  }

  /** Bitwise and of two non-negative integers, least significant bit first. */
  function And(a: nat, b: nat): nat
    decreases a + b
  {
    if a == 0 && b == 0 then 0
    else 2 * And(a / 2, b / 2) + (if a % 2 == 1 && b % 2 == 1 then 1 else 0)
  }

  /** Number of one bits of `n`. */
  function PopCount(n: nat): nat
  {
    if n == 0 then 0 else n % 2 + PopCount(n / 2)
  }

  /** `PopCount(n) % 2`: 1 when `n` has an odd number of one bits. */
  function Parity(n: nat): nat
  {
    PopCount(n) % 2
  }

  // ---------------------------------------------------------------------------
  // Step equations: each operation splits off the lowest bit, also at (0, 0).

  lemma {:induction false} XorStep(a: nat, b: nat)
    ensures Xor(a, b) == 2 * Xor(a / 2, b / 2) + (if a % 2 == b % 2 then 0 else 1)
  {
  }

  lemma {:induction false} AndStep(a: nat, b: nat)
    ensures And(a, b) == 2 * And(a / 2, b / 2) + (if a % 2 == 1 && b % 2 == 1 then 1 else 0)
  {
  }

  lemma {:induction false} PopCountStep(z: nat, c: nat)
    requires c <= 1
    ensures PopCount(2 * z + c) == c + PopCount(z)
  {
  }

  // ---------------------------------------------------------------------------
  // Ranges.

  lemma {:induction false} Pow2Increasing(j: nat, k: nat)
    requires j < k
    ensures Pow2(j) < Pow2(k)
    decreases k
  {
    if j < k - 1 {
      Pow2Increasing(j, k - 1);
    }
  }

  /** The exclusive or of two `w`-bit values is a `w`-bit value: the index
      `x ^ d` computed from two bytes is always below 256. */
  lemma {:induction false} XorBound(a: nat, b: nat, w: nat)
    requires a < Pow2(w) && b < Pow2(w)
    ensures Xor(a, b) < Pow2(w)
    decreases w
  {
    if w > 0 {
      XorBound(a / 2, b / 2, w - 1);
      XorStep(a, b);
    }
  }

  /** Dropping the lowest bit of a `w`-bit value leaves a `(w-1)`-bit value. */
  lemma {:induction false} HalfBelow(x: nat, w: nat)
    requires 0 < w && x < Pow2(w)
    ensures x / 2 < Pow2(w - 1)
  {
    assert Pow2(w) == 2 * Pow2(w - 1);
  }

  /** A `w`-bit value has at most `w` one bits. */
  lemma {:induction false} PopCountBound(n: nat, w: nat)
    requires n < Pow2(w)
    ensures PopCount(n) <= w
    decreases w
  {
    if n > 0 {
      PopCountBound(n / 2, w - 1);
    }
  }

  /** `1 << k` has exactly one bit set. */
  lemma {:induction false} PopCountPow2(k: nat)
    ensures PopCount(Pow2(k)) == 1
  {
    if k > 0 {
      PopCountPow2(k - 1);
      PopCountStep(Pow2(k - 1), 0);
    }
  }

  // ---------------------------------------------------------------------------
  // Algebra of exclusive or.

  /** `a ^ (a ^ b) == b`. */
  lemma {:induction false} XorCancel(a: nat, b: nat)
    ensures Xor(a, Xor(a, b)) == b
    decreases a + b
  {
    if !(a == 0 && b == 0) {
      var c := Xor(a, b);
      XorStep(a, b);
      assert c / 2 == Xor(a / 2, b / 2) && c % 2 == (if a % 2 == b % 2 then 0 else 1);
      XorStep(a, c);
      XorCancel(a / 2, b / 2);
    }
  }

  /** `a ^ a == 0`. */
  lemma {:induction false} XorSelf(a: nat)
    ensures Xor(a, a) == 0
  {
    if a > 0 {
      XorSelf(a / 2);
    }
  }

  /** On single bits, exclusive or is inequality. */
  lemma {:induction false} XorOfBits(p: nat, q: nat)
    requires p <= 1 && q <= 1
    ensures Xor(p, q) == if p == q then 0 else 1
  {
    XorStep(p, q);
    assert Xor(p / 2, q / 2) == Xor(0, 0) == 0;
  }

  /** `0 & b == 0`. */
  lemma {:induction false} AndZero(b: nat)
    ensures And(0, b) == 0
  {
    if b > 0 {
      AndZero(b / 2);
    }
  }

  // ---------------------------------------------------------------------------
  // binary_representation and its inverse.

  /** `format(num, '0{bits}b')` as a list of digits, most significant first. */
  function BinaryRepresentation(num: nat, bits: nat): (r: seq<nat>)
    requires 0 < bits && num < Pow2(bits)
    ensures |r| == bits
    ensures forall i :: 0 <= i < |r| ==> r[i] <= 1
    decreases bits
  {
    if bits == 1 then [num]
    else BinaryRepresentation(num / 2, bits - 1) + [num % 2]
  }

  /** The value of a big-endian digit list: sum of `bs[i] * 2^(|bs|-1-i)`. */
  function FromBits(bs: seq<nat>): (r: nat)
    requires forall i :: 0 <= i < |bs| ==> bs[i] <= 1
    ensures r < Pow2(|bs|)
  {
    if bs == [] then 0 else 2 * FromBits(bs[..|bs| - 1]) + bs[|bs| - 1]
  }

  /** Reading the digits back gives the number. */
  lemma {:induction false} FromBinaryRepresentation(num: nat, bits: nat)
    requires 0 < bits && num < Pow2(bits)
    ensures FromBits(BinaryRepresentation(num, bits)) == num
    decreases bits
  {
    var r := BinaryRepresentation(num, bits);
    if bits == 1 {
      assert r[..0] == [];
    } else {
      FromBinaryRepresentation(num / 2, bits - 1);
      assert r[..|r| - 1] == BinaryRepresentation(num / 2, bits - 1);
    }
  }

  /** Every digit list of length `w >= 1` is the representation of its value. */
  lemma {:induction false} BinaryRepresentationOfBits(bs: seq<nat>)
    requires |bs| > 0 && forall i :: 0 <= i < |bs| ==> bs[i] <= 1
    ensures BinaryRepresentation(FromBits(bs), |bs|) == bs
    decreases |bs|
  {
    var k := |bs| - 1;
    if k == 0 {
      assert bs[..0] == [];
    } else {
      var front := bs[..k];
      BinaryRepresentationOfBits(front);
      assert FromBits(bs) / 2 == FromBits(front);
      assert FromBits(bs) % 2 == bs[k];
      assert bs == front + [bs[k]];
    }
  }

  /** Dot product (numpy's `@`) of a digit vector `a` with an equally long
      vector `b`; since each `a[k]` is 0 or 1, `a[k] * b[k]` is `b[k]` or 0. */
  function Dot(a: seq<nat>, b: seq<nat>): nat
    requires |a| == |b| && forall k :: 0 <= k < |a| ==> a[k] <= 1
  {
    if a == [] then 0
    else Dot(a[..|a| - 1], b[..|b| - 1]) + (if a[|a| - 1] == 0 then 0 else b[|b| - 1])
  }

  /** Appending one pair of digits adds their conjunction. */
  lemma {:induction false} DotSnoc(a: seq<nat>, b: seq<nat>, p: nat, q: nat)
    requires |a| == |b| && p <= 1 && q <= 1 && forall k :: 0 <= k < |a| ==> a[k] <= 1
    ensures Dot(a + [p], b + [q]) == Dot(a, b) + (if p == 1 && q == 1 then 1 else 0)
  {
    assert (a + [p])[..|a|] == a;
    assert (b + [q])[..|b|] == b;
  }

  /** Splitting off the lowest bit of `x & u`. */
  lemma {:induction false} PopCountAndStep(x: nat, u: nat)
    ensures PopCount(And(x, u)) == PopCount(And(x / 2, u / 2)) + (if x % 2 == 1 && u % 2 == 1 then 1 else 0)
  {
    var bit := if x % 2 == 1 && u % 2 == 1 then 1 else 0;
    var z := And(x / 2, u / 2);
    var a := And(x, u);
    AndStep(x, u);
    assert a == 2 * z + bit;
    PopCountStep(z, bit);
  }

  /** One-digit case of `DotIsPopCountOfAnd`. */
  lemma {:induction false} DotOfOneDigit(x: nat, u: nat)
    requires x < 2 && u < 2
    ensures Dot(BinaryRepresentation(x, 1), BinaryRepresentation(u, 1)) == PopCount(And(x, u))
  {
    PopCountAndStep(x, u);
    AndZero(0);
    assert BinaryRepresentation(x, 1) == [] + [x];
    assert BinaryRepresentation(u, 1) == [] + [u];
    DotSnoc([], [], x, u);
  }

  /** Splitting off the last digit of both representations. */
  lemma {:induction false} DotOfDigitsStep(x: nat, u: nat, w: nat)
    requires 1 < w && x < Pow2(w) && u < Pow2(w)
    ensures x / 2 < Pow2(w - 1) && u / 2 < Pow2(w - 1)
    ensures Dot(BinaryRepresentation(x, w), BinaryRepresentation(u, w))
         == Dot(BinaryRepresentation(x / 2, w - 1), BinaryRepresentation(u / 2, w - 1))
            + (if x % 2 == 1 && u % 2 == 1 then 1 else 0)
  {
    DotSnoc(BinaryRepresentation(x / 2, w - 1), BinaryRepresentation(u / 2, w - 1), x % 2, u % 2);
  }

  /** Inductive step of `DotIsPopCountOfAnd`: the claim for `x / 2` and `u / 2`
      on `w - 1` digits gives the claim for `x` and `u` on `w` digits. */
  lemma {:induction false} DotIsPopCountOfAndStep(x: nat, u: nat, w: nat)
    requires 1 < w && x < Pow2(w) && u < Pow2(w)
    requires x / 2 < Pow2(w - 1) && u / 2 < Pow2(w - 1)
    requires Dot(BinaryRepresentation(x / 2, w - 1), BinaryRepresentation(u / 2, w - 1)) == PopCount(And(x / 2, u / 2))
    ensures Dot(BinaryRepresentation(x, w), BinaryRepresentation(u, w)) == PopCount(And(x, u))
  {
    DotOfDigitsStep(x, u, w);
    PopCountAndStep(x, u);
  }

  /** The dot product of the digit vectors of `x` and `u` counts the bits they
      share: `binary_representation(x) @ binary_representation(u) == popcount(x & u)`. */
  lemma {:induction false} DotIsPopCountOfAnd(x: nat, u: nat, w: nat)
    requires 0 < w && x < Pow2(w) && u < Pow2(w)
    ensures Dot(BinaryRepresentation(x, w), BinaryRepresentation(u, w)) == PopCount(And(x, u))
    decreases w
  {
    if w == 1 {
      DotOfOneDigit(x, u);
    } else {
      HalfBelow(x, w);
      HalfBelow(u, w);
      DotIsPopCountOfAnd(x / 2, u / 2, w - 1);
      DotIsPopCountOfAndStep(x, u, w);
    }
  }
}
