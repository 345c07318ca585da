/** The validation and dispatch part of `perform_calculation`: the loaded table
    must have 256 entries, the selected operation name must be one of the four
    analyses, and the selected analysis produces a one-row result
    (`Operation`, `Result`). */
module Dispatch {
  import opened SBox
  import opened Avalanche
  import opened LinearApprox
  import opened Differential
  import opened WalshSpectrum

  /** The four analyses that can be selected. */
  datatype Operation = NL | SAC | LAP | DAP

  /** Why a calculation was refused: the table is not 256 entries long, or the
      operation name is not one of the four. */
  datatype Error = InvalidTable | UnknownOperation

  datatype Result<T> = Success(value: T) | Failure(error: Error)

  datatype Option<T> = None | Some(value: T)

  /** The row of the result table: the operation name as selected and its value. */
  datatype Outcome = Outcome(operation: string, result: real)

  /** The name under which an analysis is selected. */
  function OperationName(op: Operation): string
  {
    match op
    case NL => "NL"
    case SAC => "SAC"
    case LAP => "LAP"
    case DAP => "DAP"
  }

  /** The `if/elif` chain on the selected name: exact string comparison. */
  function ParseOperation(name: string): (r: Option<Operation>)
    ensures r.Some? ==> OperationName(r.value) == name
  {
    if name == "NL" then Some(NL)
    else if name == "SAC" then Some(SAC)
    else if name == "LAP" then Some(LAP)
    else if name == "DAP" then Some(DAP)
    else None
  }

  /** Every analysis can be selected by its name. */
  lemma {:induction false} ParseOperationName(op: Operation)
    ensures ParseOperation(OperationName(op)) == Some(op)
  {
  }

  /** Exactly the four names are accepted. */
  lemma {:induction false} ParseOperationAccepts(name: string)
    ensures ParseOperation(name).Some? <==> name in {"NL", "SAC", "LAP", "DAP"}
  {
  }

  /** The analysis the operation selects, applied to a valid table. */
  function Analysis(op: Operation, s: seq<Byte>): real
    requires |s| == Size
  {
    match op
    case NL => Nonlinearity(s)
    case SAC => Sac(s)
    case LAP => Lap(s)
    case DAP => Dap(s)
  }

  /** `perform_calculation` for the loaded table `s` and the selected name:
      the length is checked first, then the name. */
  function PerformCalculation(s: seq<Byte>, name: string): (r: Result<Outcome>)
    ensures r == Failure(InvalidTable) <==> |s| != Size
    ensures r == Failure(UnknownOperation) <==> |s| == Size && name !in {"NL", "SAC", "LAP", "DAP"}
    ensures r.Success? ==> r.value.operation == name
  {
    if |s| != Size then Failure(InvalidTable)
    else match ParseOperation(name)
      case None => Failure(UnknownOperation)
      case Some(op) => Success(Outcome(name, Analysis(op, s)))
  }

  /** Each accepted name runs exactly its own analysis. */
  lemma {:induction false} PerformCalculationRoutes(s: seq<Byte>)
    requires |s| == Size
    ensures PerformCalculation(s, "NL") == Success(Outcome("NL", Nonlinearity(s)))
    ensures PerformCalculation(s, "SAC") == Success(Outcome("SAC", Sac(s)))
    ensures PerformCalculation(s, "LAP") == Success(Outcome("LAP", Lap(s)))
    ensures PerformCalculation(s, "DAP") == Success(Outcome("DAP", Dap(s)))
  {
  }

  /** Every value the dispatch reports lies in its analysis' range: nonlinearity
      in [0, 128], the three probabilities in [0, 1], the linear one in [0, 1/2]. */
  lemma {:induction false} PerformCalculationInRange(s: seq<Byte>, name: string)
    requires PerformCalculation(s, name).Success?
    ensures var v := PerformCalculation(s, name).value.result;
      0.0 <= v <= 128.0 &&
      (name == "SAC" || name == "DAP" ==> v <= 1.0) &&
      (name == "LAP" ==> v <= 0.5)
  {
    match ParseOperation(name)
    case Some(NL) => NlInRange(s);
    case Some(SAC) => SacInUnitInterval(s);
    case Some(LAP) => LapInRange(s);
    case Some(DAP) => DapInUnitInterval(s);
  }
}
