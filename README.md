# S-box analysis, modelled in Dafny

This project models the analysis core of a small S-box analysis tool. An S-box
is a table of 256 byte values, where position `x` holds the output for input
byte `x`. The tool offers four measures of its cryptographic strength, chosen by
name:

- **SAC**, the strict avalanche criterion (`calculate_sac`). It flips each of
  the 8 bits of each input and averages the fraction of output bits that change.
- **LAP**, the linear approximation probability (`calculate_lap`). It takes the
  largest bias `|count - 128| / 256` over all nonzero input and output masks.
  Here `count` is the number of inputs whose masked input parity equals the
  masked output parity.
- **DAP**, the differential approximation probability (`calculate_dap`). It
  takes the largest fraction of inputs that turn input difference `din` into
  output difference `dout`, over all `din` in 1..255 and `dout` in 0..255.
- **NL**, the nonlinearity (`optimized_walsh_hadamard`). It writes inputs and
  outputs as 8 binary digits (`binary_representation`) and computes every Walsh
  coefficient as a sum of `1 - 2 * (dot parity xor dot parity)`. It then
  returns `128 - max |coefficient| / 2`.

The dispatch (`perform_calculation`) first checks that the loaded table has 256
entries, then that the name is one of `NL`, `SAC`, `LAP` and `DAP`. It then runs
that analysis and reports the name together with the value.

The project is organised as follows:

- Each analysis is a `method` with the source's loops. Its postcondition ties its
  result to a pure specification function: `Sac`, `Lap`, `Dap` or
  `Nonlinearity`.
- The lemmas state what the source promises about those functions: bounds,
  maximality, the fixed tables, and the relation between NL and LAP.
- The running maximum `max_prob = max(max_prob, prob)` shared by three analyses
  is the function `MaxReduce.GridMax` over a grid of candidates in visiting
  order.
- Python's integer bit operations (`^`, `&`, `1 << k`, `bin(..).count('1')`) are
  recursive functions on natural numbers in module `Bits`.
- Every result is an exact `real` built from integer counts.

Modules: `Bits`, `MaxReduce`, `SBox` (the table type), `Avalanche` (SAC),
`LinearApprox` (LAP), `Differential` (DAP), `WalshSpectrum` (NL) and `Dispatch`.

A constant table might be expected to score LAP 0.5, as it scores DAP 1.
`calculate_lap` (sbox_analysis.py:43-52) computes 0 for it. The output parity is
fixed, and every nonzero input mask is even on exactly 128 of the 256 inputs, so
every bias is `|128 - 128| / 256 = 0`; see `LinearApprox.LapConstant`. Likewise
`WalshSpectrum.NlConstant` gives 128 for a constant table.

The specification functions that the methods are proved equal to follow the
source line by line:

- `Bits.Xor`, `Bits.And`, `Bits.PopCount` and `Bits.Pow2` are Python's `^`, `&`,
  `bin(v).count('1')` and `1 << k` on non-negative integers.
- `Avalanche.Flip`, `Avalanche.FlipFraction` and `Avalanche.Sac` are lines
  35-38: the flipped input, one term `popcount(output_diff) / bit_size`, and the
  total divided by `n * bit_size`.
- `LinearApprox.Agrees` and `LinearApprox.Bias` are lines 47-51: the two masked
  parities compared, and `abs(count - n / 2) / n`.
- `Differential.Propagates` and `Differential.Probability` are lines 62-64: the
  guard as written, and `count / n`.
- `WalshSpectrum.InputRows` and `WalshSpectrum.OutputRows` are lines 72-73.
  `MatVecMod2`, `XorEach`, `Signs`, `Sum` and `WalshSum` are the numpy
  expressions of lines 79-82.
- `Lap`, `Dap` and `Nonlinearity` apply `MaxReduce.GridMax` to the candidates
  in the order the loops visit them.

## Model

| member | source | states |
|---|---|---|
| Bits.BinaryRepresentation | sbox_analysis.py:68-69 | for `num < 2^bits`, the result has exactly `bits` entries, each 0 or 1 |
| Bits.FromBinaryRepresentation | sbox_analysis.py:68-69 | reading the digits most significant first, `sum b_i * 2^(bits-1-i)`, gives back `num` |
| Bits.BinaryRepresentationOfBits | sbox_analysis.py:68-69 | conversely, every digit array of length `bits` is the representation of the number it denotes |
| Bits.DotIsPopCountOfAnd | sbox_analysis.py:79-80 | the dot product of the digit arrays of `x` and `u` is the number of set bits of `x & u` |
| Bits.XorBound | sbox_analysis.py:62 | xor of two values below `2^w` stays below `2^w` |
| Bits.PopCountBound | sbox_analysis.py:37 | a value below `2^w` has at most `w` set bits |
| Bits.PopCountPow2 | sbox_analysis.py:35 | `1 << k` has exactly one set bit |
| Bits.XorCancel | sbox_analysis.py:36 | `a ^ (a ^ b) == b` |
| MaxReduce.GridMaxIsMaximum | sbox_analysis.py:52 | the running maximum from 0 is at least 0, at least every candidate, and is 0 or one of the candidates |
| MaxReduce.GridMaxUnique | sbox_analysis.py:52 | the running maximum is the largest of 0 and the entries: any non-negative bound of the entries that is 0 or one of them equals it |
| Avalanche.FlipInRange | sbox_analysis.py:35-36 | for `i < 256` and `bit < 8`, `i ^ (1 << bit)` is a valid table index |
| Avalanche.CalculateSac | sbox_analysis.py:29-38 | the loop computes the mean flip fraction over all 256 * 8 single-bit flips |
| Avalanche.FlipFractionBound | sbox_analysis.py:37 | each term `popcount(output_diff) / 8` lies in [0, 1] |
| Avalanche.SacInUnitInterval | sbox_analysis.py:29-38 | every table of bytes has SAC in [0, 1] |
| Avalanche.SacIdentity | sbox_analysis.py:33-38 | the identity table has SAC exactly 0.125, since each flip changes one output bit |
| Avalanche.SacConstant | sbox_analysis.py:33-38 | a constant table has SAC 0, since no output ever changes |
| LinearApprox.LapCount | sbox_analysis.py:45-50 | the agreement count after `m` inputs is at most `m` |
| LinearApprox.CalculateLap | sbox_analysis.py:40-53 | the triple loop returns the running maximum of the biases of all nonzero mask pairs |
| LinearApprox.BiasBound | sbox_analysis.py:51 | every pair's bias `abs(count - n/2) / n` lies in [0, 0.5] |
| LinearApprox.LapIsUpperBound | sbox_analysis.py:52 | the result is at least the bias of every nonzero mask pair |
| LinearApprox.LapIsAttained | sbox_analysis.py:43-52 | the result equals the bias of some nonzero mask pair |
| LinearApprox.LapIsMaximum | sbox_analysis.py:43-52 | the result is the maximum bias over all nonzero mask pairs |
| LinearApprox.LapInRange | sbox_analysis.py:40-53 | every table has LAP in [0, 0.5] |
| LinearApprox.LapIdentity | sbox_analysis.py:40-53 | the identity table has LAP 0.5, witnessed by equal input and output masks |
| LinearApprox.EvenCountBalanced | sbox_analysis.py:46-47 | a nonzero mask below `2^k` gives even parity on exactly half of the inputs below `2^k` |
| LinearApprox.ConstantBias | sbox_analysis.py:46-51 | on a constant table every pair with a nonzero input mask has bias 0 |
| LinearApprox.LapConstant | sbox_analysis.py:40-53 | a constant table has LAP 0 |
| Differential.DapCount | sbox_analysis.py:60-63 | the propagation count after `m` inputs is at most `m` |
| Differential.CalculateDap | sbox_analysis.py:55-66 | the triple loop returns the running maximum of `count / n` over `din` in 1..255 and `dout` in 0..255 |
| Differential.GuardAlwaysHolds | sbox_analysis.py:62 | for bytes `x` and `din`, the guard `x ^ din < n` always holds, so it filters nothing |
| Differential.ProbabilityBound | sbox_analysis.py:64 | every pair's probability lies in [0, 1] |
| Differential.DapIsUpperBound | sbox_analysis.py:65 | the result is at least every pair's probability |
| Differential.DapIsAttained | sbox_analysis.py:58-65 | the result equals the probability of some pair |
| Differential.DapIsMaximum | sbox_analysis.py:58-65 | the result is the maximum probability over all pairs |
| Differential.DapInUnitInterval | sbox_analysis.py:55-66 | every table has DAP in [0, 1] |
| Differential.DapIdentity | sbox_analysis.py:55-66 | the identity table has DAP 1, witnessed by `dout == din` |
| Differential.DapConstant | sbox_analysis.py:55-66 | a constant table has DAP 1, witnessed by `dout == 0` |
| Differential.OutputDiff | sbox_analysis.py:62 | the output difference `sbox[x] ^ sbox[x ^ din]` of bytes is itself a byte, one of the 256 values `dout` ranges over |
| Differential.DapRowSum | sbox_analysis.py:59-63 | for each input difference the 256 counts add up to 256: every input produces exactly one output difference |
| Differential.DapRowProbabilitySum | sbox_analysis.py:59-64 | for each input difference the probabilities `count / n` of the 256 output differences add up to 1 |
| Differential.DapAtLeastOneInput | sbox_analysis.py:55-66 | every table has DAP at least 1/256 |
| WalshSpectrum.OptimizedWalshHadamard | sbox_analysis.py:71-84 | the double loop returns `128 - max abs(W(u, v)) / 2` over all nonzero masks |
| WalshSpectrum.InputRows | sbox_analysis.py:72 | `inputs` has 256 rows of 8 binary digits each |
| WalshSpectrum.OutputRows | sbox_analysis.py:73 | `outputs` has 256 rows of 8 binary digits each |
| WalshSpectrum.MatVecMod2 | sbox_analysis.py:79-80 | `(rows @ vec) % 2` has one entry per row |
| WalshSpectrum.SignIsCorrelation | sbox_analysis.py:79-82 | entry `x` of `1 - 2 * (dot_u_x ^ dot_v_Sx)` is +1 when `parity(x & u) == parity(S(x) & v)` and -1 otherwise |
| WalshSpectrum.WalshSumIsWalsh | sbox_analysis.py:79-82 | `walsh_sum` computed on digit arrays is the Walsh coefficient of `(u, v)` |
| WalshSpectrum.WalshFromCount | sbox_analysis.py:79-82 | each coefficient is `2 * count - 256` for the LAP count of the same masks, so it is even and in [-256, 256] |
| WalshSpectrum.NlGridIsScaledBias | sbox_analysis.py:83 | `abs(W(u, v))` is 512 times the LAP bias of the same masks |
| WalshSpectrum.NlFromLap | sbox_analysis.py:84 | for every table, `NL = 128 - 256 * LAP` |
| WalshSpectrum.NlIsMinimum | sbox_analysis.py:83-84 | NL is `128 - abs(W) / 2` for the largest coefficient: no nonzero pair is larger and some pair attains it |
| WalshSpectrum.NlInRange | sbox_analysis.py:84 | every table has NL in [0, 128] |
| WalshSpectrum.NlIsWhole | sbox_analysis.py:84 | NL is always a whole number |
| WalshSpectrum.NlIdentity | sbox_analysis.py:71-84 | the identity table has NL 0 |
| WalshSpectrum.NlConstant | sbox_analysis.py:71-84 | a constant table has NL 128 |
| Dispatch.ParseOperation | sbox_analysis.py:92-102 | an accepted name is the name of the operation it selects |
| Dispatch.ParseOperationName | sbox_analysis.py:93-99 | every analysis is selected by its own name |
| Dispatch.ParseOperationAccepts | sbox_analysis.py:93-102 | a name is accepted exactly when it is one of `NL`, `SAC`, `LAP`, `DAP` |
| Dispatch.PerformCalculation | sbox_analysis.py:89-102 | a table whose length is not 256 is refused whatever the name; an unknown name is refused for a valid table; a success reports the selected name |
| Dispatch.PerformCalculationRoutes | sbox_analysis.py:93-100 | each accepted name runs exactly its own analysis |
| Dispatch.PerformCalculationInRange | sbox_analysis.py:89-100 | every reported value lies in its analysis' range |

## Left out

- The tkinter window, its widgets and `root.mainloop()` (sbox_analysis.py:109-159): user-interface plumbing.
- Excel import and export, the file dialogs and the `results_df` data frame (sbox_analysis.py:8-27, 104). These are file I/O through foreign libraries. The dispatch returns the one-row result as a `Dispatch.Outcome` value instead.
- The global `current_sbox` and the `messagebox` error dialogs. The loaded table is a parameter, and a refusal is a `Dispatch.Error` value without the message text.
- Floating point. Every division (`/ bit_size`, `/ n`, `/ 2`) is exact on `real`, and numpy's integer matrix products are exact dot products. Rounding is not modelled.
- Avalanche.CalculateSac: `int(np.log2(n))` is the constant 8, and the method requires a 256-entry table, the only size the dispatch lets through.
- LinearApprox.CalculateLap: requires a 256-entry table. Its mask ranges are fixed to 1..255 in the source, so other sizes are not modelled.
- Differential.CalculateDap: requires a 256-entry table. For other sizes the guard `x ^ din < n` would matter; the model keeps the guard as written.
- WalshSpectrum.OptimizedWalshHadamard: the parameters `n` and `m` are fixed at their defaults, 8. The dispatch never passes anything else.
- Bits.BinaryRepresentation: requires `0 < bits` and `num < 2^bits`. Python's `format` would return more digits for larger values and a sign for negative ones. Every call in the core passes a byte and width 8.
- Table entries outside 0..255 (a spreadsheet could hold any number): the table type holds bytes only.
