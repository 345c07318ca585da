/** Strict Avalanche Criterion (`calculate_sac`): for every input and every input
    bit, flip that bit and measure the fraction of the 8 output bits that change;
    the result is the average of these fractions over all 256 * 8 flips. */
module Avalanche {
  import opened Bits
  import opened SBox

  /** `i ^ (1 << bit)`: input `i` with bit `bit` flipped. */
  function Flip(i: nat, bit: nat): nat
  {
    Xor(i, Pow2(bit))
  }

  /** Index safety: flipping one of the 8 bits of a byte gives a byte, so
      `sbox[flipped_input]` never leaves the table. */
  lemma {:induction false} FlipInRange(i: nat, bit: nat)
    requires i < 256 && bit < 8
    ensures Flip(i, bit) < 256
  {
    assert Pow2(Width) == 256;
    Pow2Increasing(bit, Width);
    XorBound(i, Pow2(bit), Width);
  }

  /** `bin(sbox[i] ^ sbox[i ^ (1 << bit)]).count('1') / bit_size`. */
  function FlipFraction(s: seq<Byte>, i: nat, bit: nat): real
    requires |s| == Size && i < 256 && bit < Width
  {
    FlipInRange(i, bit);
    PopCount(Xor(s[i], s[Flip(i, bit)])) as real / Width as real
  }

  /** Sum of the fractions for input `i` over the bits `0 .. k-1`. */
  function RowTotal(s: seq<Byte>, i: nat, k: nat): real
    requires |s| == Size && i < 256 && k <= Width
  {
    if k == 0 then 0.0 else RowTotal(s, i, k - 1) + FlipFraction(s, i, k - 1)
  }

  /** `sac_total` after the inputs `0 .. m-1` have been visited. */
  function SacTotal(s: seq<Byte>, m: nat): real
    requires |s| == Size && m <= 256
  {
    if m == 0 then 0.0 else SacTotal(s, m - 1) + RowTotal(s, m - 1, Width)
  }

  /** The SAC value of a table: `sac_total / (n * bit_size)`. */
  function Sac(s: seq<Byte>): (r: real)
    requires |s| == Size
  {
    SacTotal(s, 256) / (Size * Width) as real
  }

  /** `calculate_sac`: the nested loop over inputs and bit positions. */
  method CalculateSac(sbox: seq<Byte>) returns (sac: real)
    requires |sbox| == Size
    ensures sac == Sac(sbox)
  {
    var n := |sbox|;
    var bitSize := Width;
    var sacTotal := 0.0;
    for i := 0 to n
      invariant sacTotal == SacTotal(sbox, i)
    {
      for bit := 0 to bitSize
        invariant sacTotal == SacTotal(sbox, i) + RowTotal(sbox, i, bit)
      {
        var flippedInput := Xor(i, Pow2(bit));
        FlipInRange(i, bit);
        var outputDiff := Xor(sbox[i], sbox[flippedInput]);
        sacTotal := sacTotal + PopCount(outputDiff) as real / bitSize as real;
      }
    }
    sac := sacTotal / (n * bitSize) as real;
  }

  // ---------------------------------------------------------------------------
  // Bounds.

  /** One flip changes between none and all of the 8 output bits. */
  lemma {:induction false} FlipFractionBound(s: seq<Byte>, i: nat, bit: nat)
    requires |s| == Size && i < 256 && bit < Width
    ensures 0.0 <= FlipFraction(s, i, bit) <= 1.0
  {
    FlipInRange(i, bit);
    assert Pow2(Width) == 256;
    var d := Xor(s[i], s[Flip(i, bit)]);
    XorBound(s[i], s[Flip(i, bit)], Width);
    PopCountBound(d, Width);
  }

  lemma {:induction false} RowTotalBound(s: seq<Byte>, i: nat, k: nat)
    requires |s| == Size && i < 256 && k <= Width
    ensures 0.0 <= RowTotal(s, i, k) <= k as real
  {
    if k > 0 {
      RowTotalBound(s, i, k - 1);
      FlipFractionBound(s, i, k - 1);
    }
  }

  lemma {:induction false} SacTotalBound(s: seq<Byte>, m: nat)
    requires |s| == Size && m <= 256
    ensures 0.0 <= SacTotal(s, m) <= (8 * m) as real
  {
    if m > 0 {
      SacTotalBound(s, m - 1);
      RowTotalBound(s, m - 1, Width);
    }
  }

  /** Every table of bytes has a SAC value between 0 and 1. */
  lemma {:induction false} SacInUnitInterval(s: seq<Byte>)
    requires |s| == Size
    ensures 0.0 <= Sac(s) <= 1.0
  {
    SacTotalBound(s, 256);
  }

  // ---------------------------------------------------------------------------
  // Fixed tables.

  /** In the identity table every flip changes exactly the flipped bit. */
  lemma {:induction false} IdentityRowTotal(s: seq<Byte>, i: nat, k: nat)
    requires IsIdentity(s) && i < 256 && k <= Width
    ensures RowTotal(s, i, k) == k as real / 8.0
  {
    if k > 0 {
      IdentityRowTotal(s, i, k - 1);
      FlipInRange(i, k - 1);
      assert s[i] == i && s[Flip(i, k - 1)] == Flip(i, k - 1);
      XorCancel(i, Pow2(k - 1));
      PopCountPow2(k - 1);
    }
  }

  lemma {:induction false} IdentitySacTotal(s: seq<Byte>, m: nat)
    requires IsIdentity(s) && m <= 256
    ensures SacTotal(s, m) == m as real
  {
    if m > 0 {
      IdentitySacTotal(s, m - 1);
      IdentityRowTotal(s, m - 1, Width);
    }
  }

  /** The identity table scores exactly 1/8: each flip changes one of 8 output bits. */
  lemma {:induction false} SacIdentity(s: seq<Byte>)
    requires IsIdentity(s)
    ensures Sac(s) == 0.125
  {
    IdentitySacTotal(s, 256);
  }

  lemma {:induction false} ConstantRowTotal(s: seq<Byte>, c: Byte, i: nat, k: nat)
    requires IsConstant(s, c) && i < 256 && k <= Width
    ensures RowTotal(s, i, k) == 0.0
  {
    if k > 0 {
      ConstantRowTotal(s, c, i, k - 1);
      FlipInRange(i, k - 1);
      XorSelf(c);
    }
  }

  lemma {:induction false} ConstantSacTotal(s: seq<Byte>, c: Byte, m: nat)
    requires IsConstant(s, c) && m <= 256
    ensures SacTotal(s, m) == 0.0
  {
    if m > 0 {
      ConstantSacTotal(s, c, m - 1);
      ConstantRowTotal(s, c, m - 1, Width);
    }
  }

  /** A constant table scores 0: no flip ever changes the output. */
  lemma {:induction false} SacConstant(s: seq<Byte>, c: Byte)
    requires IsConstant(s, c)
    ensures Sac(s) == 0.0
  {
    ConstantSacTotal(s, c, 256);
  }
}
