/** Nonlinearity (`optimized_walsh_hadamard`): every input and every output is
    written as 8 binary digits; for every nonzero input mask `u` and nonzero
    output mask `v` the Walsh coefficient adds +1 for each input whose masked
    input and output parities agree and -1 for each input where they differ.
    The result is `2^7 - max |coefficient| / 2`. */
module WalshSpectrum {
  import opened Bits
  import opened SBox
  import opened MaxReduce
  import opened LinearApprox

  // ---------------------------------------------------------------------------
  // The coefficient as the source computes it, with digit arrays.

  /** A matrix whose rows are `w` binary digits each. */
  predicate IsBitMatrix(rows: seq<seq<nat>>, w: nat)
  {
    forall i :: 0 <= i < |rows| ==> |rows[i]| == w && forall k :: 0 <= k < w ==> rows[i][k] <= 1
  }

  /** `inputs`: row `x` holds the digits of `x`, most significant first. */
  function InputRows(): (r: seq<seq<nat>>)
    ensures |r| == Size && IsBitMatrix(r, Width)
  {
    assert Pow2(Width) == 256;
    seq(256, x requires 0 <= x < 256 => BinaryRepresentation(x, Width))
  }

  /** `outputs`: row `x` holds the digits of `sbox[x]`. */
  function OutputRows(s: seq<Byte>): (r: seq<seq<nat>>)
    requires |s| == Size
    ensures |r| == Size && IsBitMatrix(r, Width)
  {
    assert Pow2(Width) == 256;
    seq(256, x requires 0 <= x < 256 => BinaryRepresentation(s[x], Width))
  }

  /** `(rows @ vec) % 2`: the parity of each row's dot product with `vec`. */
  function MatVecMod2(rows: seq<seq<nat>>, vec: seq<nat>): (r: seq<nat>)
    requires IsBitMatrix(rows, |vec|)
    ensures |r| == |rows|
  {
    seq(|rows|, i requires 0 <= i < |rows| => Dot(rows[i], vec) % 2)
  }

  /** `p ^ q` on two arrays of equal length, entry by entry. */
  function XorEach(p: seq<nat>, q: seq<nat>): (r: seq<nat>)
    requires |p| == |q|
    ensures |r| == |p|
  {
    seq(|p|, k requires 0 <= k < |p| => Xor(p[k], q[k]))
  }

  /** `1 - 2 * d` on an array, entry by entry. */
  function Signs(d: seq<nat>): (r: seq<int>)
    ensures |r| == |d|
  {
    seq(|d|, k requires 0 <= k < |d| => 1 - 2 * (d[k] as int))
  }

  /** `np.sum(xs)`. */
  function Sum(xs: seq<int>): int
  {
    if xs == [] then 0 else Sum(xs[..|xs| - 1]) + xs[|xs| - 1]
  }

  /** `walsh_sum` for the digit arrays `uBin` and `vBin` of the two masks. */
  function WalshSum(inputs: seq<seq<nat>>, outputs: seq<seq<nat>>, uBin: seq<nat>, vBin: seq<nat>): int
    requires IsBitMatrix(inputs, |uBin|) && IsBitMatrix(outputs, |vBin|) && |inputs| == |outputs|
  {
    Sum(Signs(XorEach(MatVecMod2(inputs, uBin), MatVecMod2(outputs, vBin))))
  }

  // ---------------------------------------------------------------------------
  // The coefficient as a sum over inputs of +1 / -1.

  /** +1 when input `x` satisfies the linear relation of `(u, v)`, -1 otherwise. */
  function Correlation(s: seq<Byte>, x: nat, u: nat, v: nat): int
    requires |s| == Size && x < Size
  {
    if Agrees(s, x, u, v) then 1 else -1
  }

  /** The coefficient summed over the inputs `0 .. m-1`. */
  function WalshPrefix(s: seq<Byte>, u: nat, v: nat, m: nat): int
    requires |s| == Size && m <= Size
  {
    if m == 0 then 0 else WalshPrefix(s, u, v, m - 1) + Correlation(s, m - 1, u, v)
  }

  /** The Walsh coefficient of the table for input mask `u` and output mask `v`. */
  function Walsh(s: seq<Byte>, u: nat, v: nat): (r: int)
    requires |s| == Size
  {
    WalshPrefix(s, u, v, Size)
  }

  /** `abs(walsh_sum)` in visiting order: row `i` is `u = i + 1`, column `j` is `v = j + 1`. */
  function NlGrid(s: seq<Byte>): seq<seq<real>>
    requires |s| == Size
  {
    seq(255, i requires 0 <= i < 255 => seq(255, j requires 0 <= j < 255 => Abs(Walsh(s, i + 1, j + 1) as real)))
  }

  /** The nonlinearity of a table: `2^(n-1) - max_walsh / 2`. */
  function Nonlinearity(s: seq<Byte>): (r: real)
    requires |s| == Size
  {
    128.0 - GridMax(NlGrid(s)) / 2.0
  }

  /** `optimized_walsh_hadamard` with `n = m = 8`. */
  method OptimizedWalshHadamard(sbox: seq<Byte>) returns (nl: real)
    requires |sbox| == Size
    ensures nl == Nonlinearity(sbox)
  {
    var inputs := InputRows();
    var outputs := OutputRows(sbox);
    ghost var grid := NlGrid(sbox);
    assert Pow2(Width) == 256;
    var maxWalsh := 0;
    for u := 1 to 256
      invariant maxWalsh as real == GridMax(grid[..u - 1])
    {
      var uBin := BinaryRepresentation(u, Width);
      RowStart(grid, u - 1);
      for v := 1 to 256
        invariant maxWalsh as real == Max(GridMax(grid[..u - 1]), RunningMax(grid[u - 1][..v - 1]))
      {
        var vBin := BinaryRepresentation(v, Width);
        var walshSum := WalshSum(inputs, outputs, uBin, vBin);
        var magnitude := if walshSum < 0 then -walshSum else walshSum;
        assert magnitude as real == grid[u - 1][v - 1] by {
          WalshSumIsWalsh(sbox, u, v);
          NlGridAt(sbox, u, v);
        }
        RowStep(grid, u - 1, v - 1, maxWalsh as real);
        maxWalsh := if maxWalsh < magnitude then magnitude else maxWalsh;
      }
      RowDone(grid, u - 1, maxWalsh as real);
    }
    assert grid[..255] == grid;
    nl := 128.0 - maxWalsh as real / 2.0;
  }

  // ---------------------------------------------------------------------------
  // The digit-array computation is the parity sum.

  /** One entry of the source's sign array is the correlation of that input:
      a dot product of digit arrays taken mod 2 is the parity of the masked value. */
  lemma {:induction false} SignIsCorrelation(s: seq<Byte>, u: nat, v: nat, x: nat)
    requires |s| == Size && u < 256 && v < 256 && x < Size
    ensures Pow2(Width) == 256
    ensures Signs(XorEach(MatVecMod2(InputRows(), BinaryRepresentation(u, Width)),
                          MatVecMod2(OutputRows(s), BinaryRepresentation(v, Width))))[x]
            == Correlation(s, x, u, v)
  {
    assert Pow2(Width) == 256;
    var p := MatVecMod2(InputRows(), BinaryRepresentation(u, Width))[x];
    var q := MatVecMod2(OutputRows(s), BinaryRepresentation(v, Width))[x];
    DotIsPopCountOfAnd(x, u, Width);
    DotIsPopCountOfAnd(s[x], v, Width);
    assert p == Parity(And(x, u));
    assert q == Parity(And(s[x], v));
    XorOfBits(p, q);
  }

  /** Summing a prefix of the sign array gives the coefficient over that prefix. */
  lemma {:induction false} SumIsWalshPrefix(s: seq<Byte>, u: nat, v: nat, terms: seq<int>, m: nat)
    requires |s| == Size && |terms| == Size && m <= Size
    requires forall x :: 0 <= x < Size ==> terms[x] == Correlation(s, x, u, v)
    ensures Sum(terms[..m]) == WalshPrefix(s, u, v, m)
  {
    if m > 0 {
      SumIsWalshPrefix(s, u, v, terms, m - 1);
      assert terms[..m][..m - 1] == terms[..m - 1];
    }
  }

  /** `walsh_sum` as the source computes it is the Walsh coefficient of `(u, v)`. */
  lemma {:induction false} WalshSumIsWalsh(s: seq<Byte>, u: nat, v: nat)
    requires |s| == Size && u < 256 && v < 256
    ensures Pow2(Width) == 256
    ensures WalshSum(InputRows(), OutputRows(s), BinaryRepresentation(u, Width), BinaryRepresentation(v, Width))
            == Walsh(s, u, v)
  {
    assert Pow2(Width) == 256;
    var terms := Signs(XorEach(MatVecMod2(InputRows(), BinaryRepresentation(u, Width)),
                               MatVecMod2(OutputRows(s), BinaryRepresentation(v, Width))));
    forall x | 0 <= x < Size
      ensures terms[x] == Correlation(s, x, u, v)
    {
      SignIsCorrelation(s, u, v, x);
    }
    SumIsWalshPrefix(s, u, v, terms, Size);
    assert terms[..Size] == terms;
  }

  // ---------------------------------------------------------------------------
  // Relation to the linear approximation count.

  /** Agreements count +1 and disagreements -1, so the prefix sum is twice the
      agreement count minus the number of inputs visited. */
  lemma {:induction false} WalshPrefixFromCount(s: seq<Byte>, u: nat, v: nat, m: nat)
    requires |s| == Size && m <= Size
    ensures WalshPrefix(s, u, v, m) == 2 * LapCount(s, u, v, m) - m
  {
    if m > 0 {
      WalshPrefixFromCount(s, u, v, m - 1);
    }
  }

  /** A Walsh coefficient is `2 * count - 256`, for the count `calculate_lap` takes
      of the same mask pair; so it is even and lies between -256 and 256. */
  lemma {:induction false} WalshFromCount(s: seq<Byte>, u: nat, v: nat)
    requires |s| == Size
    ensures Walsh(s, u, v) == 2 * LapCount(s, u, v, Size) - 256
    ensures -256 <= Walsh(s, u, v) <= 256 && Walsh(s, u, v) % 2 == 0
  {
    WalshPrefixFromCount(s, u, v, Size);
  }

  lemma {:induction false} NlGridAt(s: seq<Byte>, u: nat, v: nat)
    requires |s| == Size && 1 <= u < 256 && 1 <= v < 256
    ensures |NlGrid(s)| == 255 && |NlGrid(s)[u - 1]| == 255
    ensures NlGrid(s)[u - 1][v - 1] == Abs(Walsh(s, u, v) as real)
  {
  }

  /** Each entry of the nonlinearity grid is 512 times the bias of the same mask pair. */
  lemma {:induction false} NlGridIsScaledBias(s: seq<Byte>, u: nat, v: nat)
    requires |s| == Size && 1 <= u < 256 && 1 <= v < 256
    ensures Abs(Walsh(s, u, v) as real) == 512.0 * Bias(s, u, v)
  {
    WalshFromCount(s, u, v);
  }

  /** Nonlinearity and the linear approximation probability measure the same
      thing: `NL = 128 - 256 * LAP`. */
  lemma {:induction false} NlFromLap(s: seq<Byte>)
    requires |s| == Size
    ensures Nonlinearity(s) == 128.0 - 256.0 * Lap(s)
  {
    var g := NlGrid(s);
    var r := 512.0 * Lap(s);
    LapInRange(s);
    forall i, j | 0 <= i < |g| && 0 <= j < |g[i]|
      ensures g[i][j] <= r
    {
      NlGridAt(s, i + 1, j + 1);
      NlGridIsScaledBias(s, i + 1, j + 1);
      LapIsUpperBound(s, i + 1, j + 1);
    }
    LapIsAttained(s);
    var u, v :| 1 <= u < 256 && 1 <= v < 256 && Bias(s, u, v) == Lap(s);
    NlGridAt(s, u, v);
    NlGridIsScaledBias(s, u, v);
    GridMaxUnique(g, r);
  }

  /** The nonlinearity is `128 - |W(u, v)| / 2` for the largest coefficient:
      no nonzero mask pair has a larger coefficient and some pair has it. */
  lemma {:induction false} NlIsMinimum(s: seq<Byte>)
    requires |s| == Size
    ensures forall u, v :: 1 <= u < 256 && 1 <= v < 256 ==>
              Nonlinearity(s) <= 128.0 - Abs(Walsh(s, u, v) as real) / 2.0
    ensures exists u, v :: 1 <= u < 256 && 1 <= v < 256 &&
              Nonlinearity(s) == 128.0 - Abs(Walsh(s, u, v) as real) / 2.0
  {
    var g := NlGrid(s);
    forall u, v | 1 <= u < 256 && 1 <= v < 256
      ensures Nonlinearity(s) <= 128.0 - Abs(Walsh(s, u, v) as real) / 2.0
    {
      NlGridAt(s, u, v);
      GridMaxAtLeast(g, u - 1, v - 1);
    }
    forall i, j | 0 <= i < |g| && 0 <= j < |g[i]|
      ensures 0.0 <= g[i][j]
    {
      NlGridAt(s, i + 1, j + 1);
    }
    NlGridAt(s, 1, 1);
    GridMaxAttained(g);
    var i, j :| 0 <= i < |g| && 0 <= j < |g[i]| && g[i][j] == GridMax(g);
    NlGridAt(s, i + 1, j + 1);
  }

  /** Every table has a nonlinearity between 0 and 128. */
  lemma {:induction false} NlInRange(s: seq<Byte>)
    requires |s| == Size
    ensures 0.0 <= Nonlinearity(s) <= 128.0
  {
    NlFromLap(s);
    LapInRange(s);
  }

  /** The nonlinearity is a whole number: every coefficient is even. */
  lemma {:induction false} NlIsWhole(s: seq<Byte>)
    requires |s| == Size
    ensures Nonlinearity(s) == Nonlinearity(s).Floor as real
  {
    NlIsMinimum(s);
    var u, v :| 1 <= u < 256 && 1 <= v < 256 &&
      Nonlinearity(s) == 128.0 - Abs(Walsh(s, u, v) as real) / 2.0;
    WalshFromCount(s, u, v);
    var c := LapCount(s, u, v, Size);
    var k := if c < 128 then c else 256 - c;
    assert Nonlinearity(s) == k as real;
  }

  /** The identity table is linear: its nonlinearity is 0. */
  lemma {:induction false} NlIdentity(s: seq<Byte>)
    requires IsIdentity(s)
    ensures Nonlinearity(s) == 0.0
  {
    NlFromLap(s);
    LapIdentity(s);
  }

  /** A constant table has the largest nonlinearity, 128: every coefficient is 0. */
  lemma {:induction false} NlConstant(s: seq<Byte>, c: Byte)
    requires IsConstant(s, c)
    ensures Nonlinearity(s) == 128.0
  {
    NlFromLap(s);
    LapConstant(s, c);
  }
}
