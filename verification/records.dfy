/** The rows the scanners produce and the boundaries they are cut from. */
module Records {
  import opened Wrappers
  import opened Features

  /** One dataset row: `source, function_index, function_code,
      vulnerability_label`, and the five feature columns when the
      producing function adds them. */
  datatype FunctionRecord = FunctionRecord(
    source: string,
    functionIndex: int,
    functionCode: string,
    vulnerabilityLabel: Option<string>,
    features: Option<FeatureVector>)

  /** A closed function found by an enumerative scan: the recorded
      `func_index`, the recorded `start_line`, and the index `i` of the line
      that closed it. */
  datatype Emission = Emission(index: int, start: int, end: int)

  function EmissionsOf(e: Option<Emission>): seq<Emission> {
    if e.Some? then [e.value] else []
  }
}
