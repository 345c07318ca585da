/** Linear approximation (`calculate_lap`): for every nonzero input mask and
    nonzero output mask, count the inputs whose masked input parity equals the
    masked output parity; the bias of the pair is `|count - 128| / 256` and the
    result is the largest bias. */
module LinearApprox {
  import opened Bits
  import opened SBox
  import opened MaxReduce

  /** Input `x` satisfies the linear relation of the mask pair `(im, om)`. */
  predicate Agrees(s: seq<Byte>, x: nat, im: nat, om: nat)
    requires |s| == Size && x < Size
  {
    Parity(And(x, im)) == Parity(And(s[x], om))
  }

  /** `count` after the inputs `0 .. m-1` have been visited. */
  function LapCount(s: seq<Byte>, im: nat, om: nat, m: nat): (r: nat)
    requires |s| == Size && m <= Size
    ensures r <= m
  {
    if m == 0 then 0
    else LapCount(s, im, om, m - 1) + (if Agrees(s, m - 1, im, om) then 1 else 0)
  }

  /** `prob = abs(count - n / 2) / n` for the mask pair `(im, om)`. */
  function Bias(s: seq<Byte>, im: nat, om: nat): (r: real)
    requires |s| == Size
  {
    Abs(LapCount(s, im, om, Size) as real - Size as real / 2.0) / Size as real
  }

  /** The biases in visiting order: row `i` is input mask `i + 1`, column `j`
      output mask `j + 1`. */
  function LapGrid(s: seq<Byte>): seq<seq<real>>
    requires |s| == Size
  {
    seq(255, i requires 0 <= i < 255 => seq(255, j requires 0 <= j < 255 => Bias(s, i + 1, j + 1)))
  }

  /** The LAP value of a table: the running maximum of all the biases. */
  function Lap(s: seq<Byte>): (r: real)
    requires |s| == Size
  {
    GridMax(LapGrid(s))
  }

  /** `calculate_lap`: masks in increasing order, a count over all inputs per pair,
      and `max_prob = max(max_prob, prob)`. */
  method CalculateLap(sbox: seq<Byte>) returns (maxProb: real)
    requires |sbox| == Size
    ensures maxProb == Lap(sbox)
  {
    var n := |sbox|;
    ghost var grid := LapGrid(sbox);
    maxProb := 0.0;
    for inputMask := 1 to 256
      invariant maxProb == GridMax(grid[..inputMask - 1])
    {
      RowStart(grid, inputMask - 1);
      for outputMask := 1 to 256
        invariant maxProb == Max(GridMax(grid[..inputMask - 1]), RunningMax(grid[inputMask - 1][..outputMask - 1]))
      {
        var count := 0;
        for x := 0 to n
          invariant count == LapCount(sbox, inputMask, outputMask, x)
        {
          var inputParity := PopCount(And(x, inputMask)) % 2;
          var outputParity := PopCount(And(sbox[x], outputMask)) % 2;
          if inputParity == outputParity {
            count := count + 1;
          }
        }
        var prob := Abs(count as real - n as real / 2.0) / n as real;
        assert prob == grid[inputMask - 1][outputMask - 1] by {
          assert n as real == 256.0;
          LapGridAt(sbox, inputMask, outputMask);
        }
        RowStep(grid, inputMask - 1, outputMask - 1, maxProb);
        maxProb := Max(maxProb, prob);
      }
      RowDone(grid, inputMask - 1, maxProb);
    }
    assert grid[..255] == grid;
  }

  // ---------------------------------------------------------------------------
  // Bounds and maximality.

  /** Every pair's bias lies between 0 and 1/2, since its count lies between 0 and 256. */
  lemma {:induction false} BiasBound(s: seq<Byte>, im: nat, om: nat)
    requires |s| == Size
    ensures 0.0 <= Bias(s, im, om) <= 0.5
  {
    var c := LapCount(s, im, om, Size);
    assert 0 <= c <= 256;
  }

  lemma {:induction false} LapGridAt(s: seq<Byte>, im: nat, om: nat)
    requires |s| == Size && 1 <= im < 256 && 1 <= om < 256
    ensures |LapGrid(s)| == 255 && |LapGrid(s)[im - 1]| == 255
    ensures LapGrid(s)[im - 1][om - 1] == Bias(s, im, om)
  {
  }

  /** The result is at least every pair's bias. */
  lemma {:induction false} LapIsUpperBound(s: seq<Byte>, im: nat, om: nat)
    requires |s| == Size && 1 <= im < 256 && 1 <= om < 256
    ensures Bias(s, im, om) <= Lap(s)
  {
    LapGridAt(s, im, om);
    GridMaxAtLeast(LapGrid(s), im - 1, om - 1);
  }

  /** The result is the bias of some nonzero mask pair. */
  lemma {:induction false} LapIsAttained(s: seq<Byte>)
    requires |s| == Size
    ensures exists im, om :: 1 <= im < 256 && 1 <= om < 256 && Bias(s, im, om) == Lap(s)
  {
    var g := LapGrid(s);
    forall i, j | 0 <= i < |g| && 0 <= j < |g[i]|
      ensures 0.0 <= g[i][j]
    {
      LapGridAt(s, i + 1, j + 1);
      BiasBound(s, i + 1, j + 1);
    }
    LapGridAt(s, 1, 1);
    GridMaxAttained(g);
    var i, j :| 0 <= i < |g| && 0 <= j < |g[i]| && g[i][j] == Lap(s);
    LapGridAt(s, i + 1, j + 1);
  }

  /** The result is the maximum bias over all nonzero mask pairs. */
  lemma {:induction false} LapIsMaximum(s: seq<Byte>)
    requires |s| == Size
    ensures forall im, om :: 1 <= im < 256 && 1 <= om < 256 ==> Bias(s, im, om) <= Lap(s)
    ensures exists im, om :: 1 <= im < 256 && 1 <= om < 256 && Bias(s, im, om) == Lap(s)
  {
    forall im, om | 1 <= im < 256 && 1 <= om < 256
      ensures Bias(s, im, om) <= Lap(s)
    {
      LapIsUpperBound(s, im, om);
    }
    LapIsAttained(s);
  }

  /** Every table has a LAP value between 0 and 1/2. */
  lemma {:induction false} LapInRange(s: seq<Byte>)
    requires |s| == Size
    ensures 0.0 <= Lap(s) <= 0.5
  {
    LapIsAttained(s);
    var im, om :| 1 <= im < 256 && 1 <= om < 256 && Bias(s, im, om) == Lap(s);
    BiasBound(s, im, om);
  }

  // ---------------------------------------------------------------------------
  // Fixed tables.

  lemma {:induction false} IdentityCount(s: seq<Byte>, u: nat, m: nat)
    requires IsIdentity(s) && m <= Size
    ensures LapCount(s, u, u, m) == m
  {
    if m > 0 {
      IdentityCount(s, u, m - 1);
      assert s[m - 1] == m - 1;
    }
  }

  /** The identity table scores 1/2, the worst value: equal input and output
      masks make the two parities agree on every input. */
  lemma {:induction false} LapIdentity(s: seq<Byte>)
    requires IsIdentity(s)
    ensures Lap(s) == 0.5
  {
    IdentityCount(s, 1, Size);
    assert Bias(s, 1, 1) == 0.5;
    LapIsUpperBound(s, 1, 1);
    LapInRange(s);
  }

  // ---------------------------------------------------------------------------
  // Constant tables: every nonzero input mask splits the inputs into two halves.

  /** Number of inputs `x < m` whose masked input `x & u` has even parity. */
  function EvenCount(u: nat, m: nat): (r: nat)
    ensures r <= m
  {
    if m == 0 then 0 else EvenCount(u, m - 1) + (if Parity(And(m - 1, u)) == 0 then 1 else 0)
  }

  /** Appending the low bit `b` to `y` adds `b & (u % 2)` to the masked parity. */
  lemma {:induction false} ParityOfAndStep(y: nat, b: nat, u: nat)
    requires b <= 1
    ensures Parity(And(2 * y + b, u)) == (Parity(And(y, u / 2)) + (if b == 1 && u % 2 == 1 then 1 else 0)) % 2
  {
    var x := 2 * y + b;
    assert x / 2 == y && x % 2 == b;
    PopCountAndStep(x, u);
  }

  /** The inputs `2m` and `2m + 1` together: one even parity each when `u` is odd,
      and the parity of `m & (u / 2)` twice when `u` is even. */
  lemma {:induction false} EvenCountPairStep(u: nat, m: nat)
    ensures EvenCount(u, 2 * m + 2) == EvenCount(u, 2 * m) +
      (if u % 2 == 1 then 1 else if Parity(And(m, u / 2)) == 0 then 2 else 0)
  {
    ParityOfAndStep(m, 0, u);
    ParityOfAndStep(m, 1, u);
  }

  lemma {:induction false} EvenCountOdd(u: nat, m: nat)
    requires u % 2 == 1
    ensures EvenCount(u, 2 * m) == m
  {
    if m > 0 {
      EvenCountOdd(u, m - 1);
      EvenCountPairStep(u, m - 1);
    }
  }

  lemma {:induction false} EvenCountEven(u: nat, m: nat)
    requires u % 2 == 0
    ensures EvenCount(u, 2 * m) == 2 * EvenCount(u / 2, m)
  {
    if m > 0 {
      EvenCountEven(u, m - 1);
      EvenCountPairStep(u, m - 1);
    }
  }

  /** A nonzero mask below `2^k` gives even parity on exactly half of the inputs below `2^k`. */
  lemma {:induction false} EvenCountBalanced(u: nat, k: nat)
    requires 1 <= u < Pow2(k)
    ensures 0 < k && EvenCount(u, Pow2(k)) == Pow2(k - 1)
  {
    assert k != 0;
    assert Pow2(k) == 2 * Pow2(k - 1);
    if u % 2 == 1 {
      EvenCountOdd(u, Pow2(k - 1));
    } else {
      assert k != 1;
      EvenCountBalanced(u / 2, k - 1);
      EvenCountEven(u, Pow2(k - 1));
      assert Pow2(k - 1) == 2 * Pow2(k - 2);
    }
  }

  /** For a constant table the output parity is fixed, so the count of agreements is
      the number of inputs with that input parity. */
  lemma {:induction false} ConstantLapCount(s: seq<Byte>, c: Byte, im: nat, om: nat, m: nat)
    requires IsConstant(s, c) && m <= Size
    ensures LapCount(s, im, om, m) ==
      if Parity(And(c, om)) == 0 then EvenCount(im, m) else m - EvenCount(im, m)
  {
    if m > 0 {
      ConstantLapCount(s, c, im, om, m - 1);
      assert s[m - 1] == c;
    }
  }

  /** Every pair with a nonzero input mask has bias 0 on a constant table. */
  lemma {:induction false} ConstantBias(s: seq<Byte>, c: Byte, im: nat, om: nat)
    requires IsConstant(s, c) && 1 <= im < 256
    ensures Bias(s, im, om) == 0.0
  {
    assert Pow2(Width) == 256 && Pow2(Width - 1) == 128;
    EvenCountBalanced(im, Width);
    ConstantLapCount(s, c, im, om, Size);
  }

  /** A constant table scores 0, the best value: the output parity is fixed while
      every nonzero input mask is even on exactly half of the inputs. */
  lemma {:induction false} LapConstant(s: seq<Byte>, c: Byte)
    requires IsConstant(s, c)
    ensures Lap(s) == 0.0
  {
    var g := LapGrid(s);
    forall i, j | 0 <= i < |g| && 0 <= j < |g[i]|
      ensures g[i][j] <= 0.0
    {
      LapGridAt(s, i + 1, j + 1);
      ConstantBias(s, c, i + 1, j + 1);
    }
    GridMaxUnique(g, 0.0);
  }
}
