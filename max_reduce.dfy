/** The reduction every search analysis ends with: a running maximum that starts
    at 0 and is updated with `max(max_prob, prob)` once per candidate, row by row
    over a grid of candidates (input mask or difference by output mask or difference). */
module MaxReduce {

  /** Python's `max(a, b)` on two numbers. */
  function Max(a: real, b: real): real
  {
    if a < b then b else a
  }

  /** Python's `abs(x)`. */
  function Abs(x: real): real
  {
    if x < 0.0 then -x else x
  }

  /** `acc = 0; for p in xs: acc = max(acc, p)`. */
  function RunningMax(xs: seq<real>): real
  {
    if xs == [] then 0.0 else Max(RunningMax(xs[..|xs| - 1]), xs[|xs| - 1])
  }

  /** The running maximum carried through the rows of a grid in order. */
  function GridMax(g: seq<seq<real>>): real
  {
    if g == [] then 0.0 else Max(GridMax(g[..|g| - 1]), RunningMax(g[|g| - 1]))
  }

  /** The running maximum is the largest of 0 and the entries. */
  lemma {:induction false} RunningMaxIsMaximum(xs: seq<real>)
    ensures 0.0 <= RunningMax(xs)
    ensures forall i :: 0 <= i < |xs| ==> xs[i] <= RunningMax(xs)
    ensures RunningMax(xs) == 0.0 || exists i :: 0 <= i < |xs| && xs[i] == RunningMax(xs)
  {
    if xs != [] {
      var front := xs[..|xs| - 1];
      RunningMaxIsMaximum(front);
      assert forall i :: 0 <= i < |front| ==> front[i] == xs[i];
    }
  }

  /** The grid maximum is the largest of 0 and all entries of all rows. */
  lemma {:induction false} GridMaxIsMaximum(g: seq<seq<real>>)
    ensures 0.0 <= GridMax(g)
    ensures forall i, j :: 0 <= i < |g| && 0 <= j < |g[i]| ==> g[i][j] <= GridMax(g)
    ensures GridMax(g) == 0.0 || exists i, j :: 0 <= i < |g| && 0 <= j < |g[i]| && g[i][j] == GridMax(g)
  {
    if g != [] {
      var front := g[..|g| - 1];
      GridMaxIsMaximum(front);
      RunningMaxIsMaximum(g[|g| - 1]);
      assert forall i :: 0 <= i < |front| ==> front[i] == g[i];
    }
  }

  /** The result of the reduction does not depend on the order in which the
      candidates are visited: any non-negative bound of the grid that is 0 or
      one of its entries is the grid's maximum. */
  lemma {:induction false} GridMaxUnique(g: seq<seq<real>>, r: real)
    requires 0.0 <= r
    requires forall i, j :: 0 <= i < |g| && 0 <= j < |g[i]| ==> g[i][j] <= r
    requires r == 0.0 || exists i, j :: 0 <= i < |g| && 0 <= j < |g[i]| && g[i][j] == r
    ensures GridMax(g) == r
  {
    GridMaxIsMaximum(g);
  }

  /** Every entry of the grid is at most its maximum. */
  lemma {:induction false} GridMaxAtLeast(g: seq<seq<real>>, i: nat, j: nat)
    requires i < |g| && j < |g[i]|
    ensures g[i][j] <= GridMax(g)
  {
    GridMaxIsMaximum(g);
  }

  /** On a grid of non-negative entries with a non-empty first row the maximum
      is always one of the entries (the starting 0 never survives alone). */
  lemma {:induction false} GridMaxAttained(g: seq<seq<real>>)
    requires |g| > 0 && |g[0]| > 0
    requires forall i, j :: 0 <= i < |g| && 0 <= j < |g[i]| ==> 0.0 <= g[i][j]
    ensures exists i, j :: 0 <= i < |g| && 0 <= j < |g[i]| && g[i][j] == GridMax(g)
  {
    GridMaxIsMaximum(g);
    if GridMax(g) == 0.0 {
      assert g[0][0] == GridMax(g);
    }
  }

  /** Loop entry of a row: nothing of row `i` has been visited yet. */
  lemma {:induction false} RowStart(g: seq<seq<real>>, i: nat)
    requires i < |g|
    ensures Max(GridMax(g[..i]), RunningMax(g[i][..0])) == GridMax(g[..i])
  {
    assert g[i][..0] == [];
    GridMaxIsMaximum(g[..i]);
  }

  /** Loop step inside row `i`: `acc = max(acc, g[i][j])` visits entry `j`. */
  lemma {:induction false} RowStep(g: seq<seq<real>>, i: nat, j: nat, acc: real)
    requires i < |g| && j < |g[i]|
    requires acc == Max(GridMax(g[..i]), RunningMax(g[i][..j]))
    ensures Max(acc, g[i][j]) == Max(GridMax(g[..i]), RunningMax(g[i][..j + 1]))
  {
    assert g[i][..j + 1][..j] == g[i][..j];
  }

  /** Loop exit of a row: once row `i` is visited in full, it joins the visited rows. */
  lemma {:induction false} RowDone(g: seq<seq<real>>, i: nat, acc: real)
    requires i < |g|
    requires acc == Max(GridMax(g[..i]), RunningMax(g[i][..|g[i]|]))
    ensures acc == GridMax(g[..i + 1])
  {
    assert g[i][..|g[i]|] == g[i];
    assert g[..i + 1][..i] == g[..i];
  }
}
