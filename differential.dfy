/** Differential approximation (`calculate_dap`): for every nonzero input
    difference and every output difference, count the inputs `x` whose partner
    `x ^ din` maps to an output differing by exactly `dout`; the probability of
    the pair is `count / 256` and the result is the largest probability. */
module Differential {
  import opened Bits
  import opened SBox
  import opened MaxReduce

  /** The guard of the count: the partner `x ^ din` lies inside the table and
      the two outputs differ by `dout`. */
  predicate Propagates(s: seq<Byte>, x: nat, din: nat, dout: nat)
    requires |s| == Size && x < Size
  {
    Xor(x, din) < |s| && Xor(s[x], s[Xor(x, din)]) == dout
  }

  /** `count` after the inputs `0 .. m-1` have been visited. */
  function DapCount(s: seq<Byte>, din: nat, dout: nat, m: nat): (r: nat)
    requires |s| == Size && m <= Size
    ensures r <= m
  {
    if m == 0 then 0
    else DapCount(s, din, dout, m - 1) + (if Propagates(s, m - 1, din, dout) then 1 else 0)
  }

  /** `prob = count / n` for the difference pair `(din, dout)`. */
  function Probability(s: seq<Byte>, din: nat, dout: nat): (r: real)
    requires |s| == Size
  {
    DapCount(s, din, dout, Size) as real / Size as real
  }

  /** The probabilities in visiting order: row `i` is input difference `i + 1`,
      column `j` output difference `j` (the output difference starts at 0). */
  function DapGrid(s: seq<Byte>): seq<seq<real>>
    requires |s| == Size
  {
    seq(255, i requires 0 <= i < 255 => seq(256, j requires 0 <= j < 256 => Probability(s, i + 1, j)))
  }

  /** The DAP value of a table: the running maximum of all the probabilities. */
  function Dap(s: seq<Byte>): (r: real)
    requires |s| == Size
  {
    GridMax(DapGrid(s))
  }

  /** `calculate_dap`: input differences 1..255, output differences 0..255,
      a count over all inputs per pair and `max_prob = max(max_prob, prob)`. */
  method CalculateDap(sbox: seq<Byte>) returns (maxProb: real)
    requires |sbox| == Size
    ensures maxProb == Dap(sbox)
  {
    var n := |sbox|;
    ghost var grid := DapGrid(sbox);
    maxProb := 0.0;
    for inputDiff := 1 to 256
      invariant maxProb == GridMax(grid[..inputDiff - 1])
    {
      RowStart(grid, inputDiff - 1);
      for outputDiff := 0 to 256
        invariant maxProb == Max(GridMax(grid[..inputDiff - 1]), RunningMax(grid[inputDiff - 1][..outputDiff]))
      {
        var count := 0;
        for x := 0 to n
          invariant count == DapCount(sbox, inputDiff, outputDiff, x)
        {
          if Xor(x, inputDiff) < n && Xor(sbox[x], sbox[Xor(x, inputDiff)]) == outputDiff {
            count := count + 1;
          }
        }
        var prob := count as real / n as real;
        assert prob == grid[inputDiff - 1][outputDiff] by {
          assert n as real == 256.0;
          DapGridAt(sbox, inputDiff, outputDiff);
        }
        RowStep(grid, inputDiff - 1, outputDiff, maxProb);
        maxProb := Max(maxProb, prob);
      }
      RowDone(grid, inputDiff - 1, maxProb);
    }
    assert grid[..255] == grid;
  }

  // ---------------------------------------------------------------------------
  // The index guard.

  /** For bytes the guard `x ^ din < n` always holds: two values below 2^8
      differ in bits below 2^8 only. */
  lemma {:induction false} GuardAlwaysHolds(x: nat, din: nat)
    requires x < 256 && din < 256
    ensures Xor(x, din) < 256
  {
    assert Pow2(Width) == 256;
    XorBound(x, din, Width);
  }

  // ---------------------------------------------------------------------------
  // Bounds and maximality.

  /** Every pair's probability lies between 0 and 1. */
  lemma {:induction false} ProbabilityBound(s: seq<Byte>, din: nat, dout: nat)
    requires |s| == Size
    ensures 0.0 <= Probability(s, din, dout) <= 1.0
  {
    var c := DapCount(s, din, dout, Size);
    assert 0 <= c <= 256;
  }

  lemma {:induction false} DapGridAt(s: seq<Byte>, din: nat, dout: nat)
    requires |s| == Size && 1 <= din < 256 && dout < 256
    ensures |DapGrid(s)| == 255 && |DapGrid(s)[din - 1]| == 256
    ensures DapGrid(s)[din - 1][dout] == Probability(s, din, dout)
  {
  }

  /** The result is at least every pair's probability. */
  lemma {:induction false} DapIsUpperBound(s: seq<Byte>, din: nat, dout: nat)
    requires |s| == Size && 1 <= din < 256 && dout < 256
    ensures Probability(s, din, dout) <= Dap(s)
  {
    DapGridAt(s, din, dout);
    GridMaxAtLeast(DapGrid(s), din - 1, dout);
  }

  /** The result is the probability of some pair with a nonzero input difference. */
  lemma {:induction false} DapIsAttained(s: seq<Byte>)
    requires |s| == Size
    ensures exists din, dout :: 1 <= din < 256 && 0 <= dout < 256 && Probability(s, din, dout) == Dap(s)
  {
    var g := DapGrid(s);
    forall i, j | 0 <= i < |g| && 0 <= j < |g[i]|
      ensures 0.0 <= g[i][j]
    {
      DapGridAt(s, i + 1, j);
      ProbabilityBound(s, i + 1, j);
    }
    DapGridAt(s, 1, 0);
    GridMaxAttained(g);
    var i, j :| 0 <= i < |g| && 0 <= j < |g[i]| && g[i][j] == Dap(s);
    DapGridAt(s, i + 1, j);
  }

  /** The result is the maximum probability over all pairs with a nonzero input difference. */
  lemma {:induction false} DapIsMaximum(s: seq<Byte>)
    requires |s| == Size
    ensures forall din, dout :: 1 <= din < 256 && 0 <= dout < 256 ==> Probability(s, din, dout) <= Dap(s)
    ensures exists din, dout :: 1 <= din < 256 && 0 <= dout < 256 && Probability(s, din, dout) == Dap(s)
  {
    forall din, dout | 1 <= din < 256 && 0 <= dout < 256
      ensures Probability(s, din, dout) <= Dap(s)
    {
      DapIsUpperBound(s, din, dout);
    }
    DapIsAttained(s);
  }

  /** Every table has a DAP value between 0 and 1. */
  lemma {:induction false} DapInUnitInterval(s: seq<Byte>)
    requires |s| == Size
    ensures 0.0 <= Dap(s) <= 1.0
  {
    DapIsAttained(s);
    var din, dout :| 1 <= din < 256 && 0 <= dout < 256 && Probability(s, din, dout) == Dap(s);
    ProbabilityBound(s, din, dout);
  }

  // ---------------------------------------------------------------------------
  // Fixed tables.

  lemma {:induction false} IdentityDapCount(s: seq<Byte>, d: nat, m: nat)
    requires IsIdentity(s) && d < 256 && m <= Size
    ensures DapCount(s, d, d, m) == m
  {
    if m > 0 {
      IdentityDapCount(s, d, m - 1);
      var x := m - 1;
      GuardAlwaysHolds(x, d);
      assert s[x] == x && s[Xor(x, d)] == Xor(x, d);
      XorCancel(x, d);
    }
  }

  /** The identity table scores 1, the worst value: every input difference
      passes through unchanged. */
  lemma {:induction false} DapIdentity(s: seq<Byte>)
    requires IsIdentity(s)
    ensures Dap(s) == 1.0
  {
    IdentityDapCount(s, 1, Size);
    DapIsUpperBound(s, 1, 1);
    DapInUnitInterval(s);
  }

  lemma {:induction false} ConstantDapCount(s: seq<Byte>, c: Byte, d: nat, m: nat)
    requires IsConstant(s, c) && d < 256 && m <= Size
    ensures DapCount(s, d, 0, m) == m
  {
    if m > 0 {
      ConstantDapCount(s, c, d, m - 1);
      GuardAlwaysHolds(m - 1, d);
      XorSelf(c);
    }
  }

  /** A constant table also scores 1: every input difference becomes output difference 0. */
  lemma {:induction false} DapConstant(s: seq<Byte>, c: Byte)
    requires IsConstant(s, c)
    ensures Dap(s) == 1.0
  {
    ConstantDapCount(s, c, 1, Size);
    DapIsUpperBound(s, 1, 0);
    DapInUnitInterval(s);
  }

  // ---------------------------------------------------------------------------
  // A row of counts is a distribution of the 256 inputs.

  /** `sbox[x] ^ sbox[x ^ din]`: the output difference that input `x` produces. */
  function OutputDiff(s: seq<Byte>, x: nat, din: nat): (r: nat)
    requires |s| == Size && x < Size && din < 256
    ensures r < 256
  {
    GuardAlwaysHolds(x, din);
    assert Pow2(Width) == 256;
    XorBound(s[x], s[Xor(x, din)], Width);
    Xor(s[x], s[Xor(x, din)])
  }

  /** Number of inputs `x < m` whose output difference is below `k`. */
  function CountBelow(s: seq<Byte>, din: nat, k: nat, m: nat): (r: nat)
    requires |s| == Size && din < 256 && m <= Size
    ensures r <= m
  {
    if m == 0 then 0
    else CountBelow(s, din, k, m - 1) + (if OutputDiff(s, m - 1, din) < k then 1 else 0)
  }

  /** The counts of the output differences `0 .. k-1` for input difference `din`, added up. */
  function RowCountSum(s: seq<Byte>, din: nat, k: nat): nat
    requires |s| == Size
  {
    if k == 0 then 0 else RowCountSum(s, din, k - 1) + DapCount(s, din, k - 1, Size)
  }

  /** Raising the bound from `k` to `k + 1` adds the inputs whose output difference is `k`. */
  lemma {:induction false} CountBelowStep(s: seq<Byte>, din: nat, k: nat, m: nat)
    requires |s| == Size && din < 256 && m <= Size
    ensures CountBelow(s, din, k + 1, m) == CountBelow(s, din, k, m) + DapCount(s, din, k, m)
  {
    if m > 0 {
      CountBelowStep(s, din, k, m - 1);
      GuardAlwaysHolds(m - 1, din);
    }
  }

  lemma {:induction false} RowCountSumIsCountBelow(s: seq<Byte>, din: nat, k: nat)
    requires |s| == Size && din < 256
    ensures RowCountSum(s, din, k) == CountBelow(s, din, k, Size)
  {
    if k == 0 {
      CountBelowNone(s, din, Size);
    } else {
      RowCountSumIsCountBelow(s, din, k - 1);
      CountBelowStep(s, din, k - 1, Size);
    }
  }

  lemma {:induction false} CountBelowNone(s: seq<Byte>, din: nat, m: nat)
    requires |s| == Size && din < 256 && m <= Size
    ensures CountBelow(s, din, 0, m) == 0
  {
    if m > 0 {
      CountBelowNone(s, din, m - 1);
    }
  }

  lemma {:induction false} CountBelowAll(s: seq<Byte>, din: nat, m: nat)
    requires |s| == Size && din < 256 && m <= Size
    ensures CountBelow(s, din, 256, m) == m
  {
    if m > 0 {
      CountBelowAll(s, din, m - 1);
    }
  }

  /** Every input produces exactly one output difference, so for each input
      difference the 256 counts add up to 256 (the probabilities to 1). */
  lemma {:induction false} DapRowSum(s: seq<Byte>, din: nat)
    requires |s| == Size && din < 256
    ensures RowCountSum(s, din, 256) == Size
  {
    RowCountSumIsCountBelow(s, din, 256);
    CountBelowAll(s, din, Size);
  }

  /** The probabilities of the output differences `0 .. k-1` for input difference `din`, added up. */
  function RowProbabilitySum(s: seq<Byte>, din: nat, k: nat): real
    requires |s| == Size
  {
    if k == 0 then 0.0 else RowProbabilitySum(s, din, k - 1) + Probability(s, din, k - 1)
  }

  lemma {:induction false} RowProbabilitySumIsScaledCount(s: seq<Byte>, din: nat, k: nat)
    requires |s| == Size
    ensures RowProbabilitySum(s, din, k) == RowCountSum(s, din, k) as real / 256.0
  {
    if k > 0 {
      RowProbabilitySumIsScaledCount(s, din, k - 1);
    }
  }

  /** For each input difference the probabilities `count / n` of the 256 output
      differences add up to 1. */
  lemma {:induction false} DapRowProbabilitySum(s: seq<Byte>, din: nat)
    requires |s| == Size && din < 256
    ensures RowProbabilitySum(s, din, 256) == 1.0
  {
    RowProbabilitySumIsScaledCount(s, din, 256);
    DapRowSum(s, din);
  }

  /** A positive sum of counts has a positive term. */
  lemma {:induction false} RowCountSumPositive(s: seq<Byte>, din: nat, k: nat)
    requires |s| == Size && 0 < RowCountSum(s, din, k)
    ensures exists dout :: 0 <= dout < k && 0 < DapCount(s, din, dout, Size)
  {
    if DapCount(s, din, k - 1, Size) == 0 {
      RowCountSumPositive(s, din, k - 1);
    }
  }

  /** No table does better than DAP 1/256: some output difference is always hit. */
  lemma {:induction false} DapAtLeastOneInput(s: seq<Byte>)
    requires |s| == Size
    ensures 1.0 / 256.0 <= Dap(s)
  {
    DapRowSum(s, 1);
    RowCountSumPositive(s, 1, 256);
    var dout :| 0 <= dout < 256 && 0 < DapCount(s, 1, dout, Size);
    DapIsUpperBound(s, 1, dout);
  }
}
