/** The backward scan both anchored scanners run when the anchor line is
    not itself inside a function they have seen: walk down from
    `anchor - 1` to the nearest `function` or `contract` line. The walk
    has no lower bound: below index 0 Python's negative indices continue
    from the end of the file, and below `-len` the lookup raises
    IndexError. The model walks exactly that way, so it ends. */
module Backward {
  import opened Wrappers
  import opened PyStr
  import opened Patterns

  /** Where the walk stopped: on a declaration (with its text) or on a
      contract line. `index` is the Python index used, possibly negative. */
  datatype BackHit = FunctionAt(index: int, text: string) | ContractAt(index: int)

  /** Python's `code[t]` exists and stops the walk. */
  predicate IsMarkerAt(code: seq<string>, t: int) {
    PyIndex(code, t).Some? && IsMarker(PyIndex(code, t).value)
  }

  /** The `while True` loop of the backward scan, started at `k`. Its
      meaning is stated by `BackScanSpec`. */
  function BackScan(code: seq<string>, k: int): (r: Result<BackHit, Fault>)
    ensures r.Success? ==> -|code| <= r.value.index <= k
    ensures r.Failure? ==> r.error == IndexError
    decreases k + |code| + 1
  {
    match PyIndex(code, k)
    case None => Failure(IndexError)
    case Some(line) =>
      if IsDeclaration(line) then Success(FunctionAt(k, line))
      else if IsContractLine(line) then Success(ContractAt(k))
      else BackScan(code, k - 1)
  }

  /** The walk stops at the first `function` or `contract` line going down
      from `k`, reporting which kind it found; it raises IndexError exactly
      when it starts past the end of the file or meets no such line before
      running off the front. */
  lemma {:induction false} BackScanSpec(code: seq<string>, k: int)
    ensures var r := BackScan(code, k);
      && (r.Success? ==>
            && IsMarkerAt(code, r.value.index)
            && (forall t :: r.value.index < t <= k ==> !IsMarkerAt(code, t))
            && (r.value.FunctionAt? <==> IsDeclaration(PyIndex(code, r.value.index).value))
            && (r.value.FunctionAt? ==> r.value.text == PyIndex(code, r.value.index).value))
      && (r.Failure? ==>
            && r.error == IndexError
            && (k >= |code| || forall t :: -|code| <= t <= k ==> !IsMarkerAt(code, t)))
    decreases k + |code| + 1
  {
    match PyIndex(code, k)
    case None =>
    case Some(line) =>
      if !IsDeclaration(line) && !IsContractLine(line) {
        BackScanSpec(code, k - 1);
      }
  }

  /** When a `function` or `contract` line lies below the anchor, the walk
      stops at the nearest one and never leaves `[0, anchor)`. */
  lemma BackScanNearest(code: seq<string>, anchor: int, j: int)
    requires 0 <= j < anchor <= |code|
    requires IsMarker(code[j])
    requires forall t {:trigger IsMarker(code[t])} :: j < t < anchor ==> !IsMarker(code[t])
    ensures BackScan(code, anchor - 1)
         == Success(if IsDeclaration(code[j]) then FunctionAt(j, code[j]) else ContractAt(j))
  {
    BackScanSpec(code, anchor - 1);
    assert IsMarkerAt(code, j);
  }

  /** When no such line lies below the anchor, the walk does not stop in
      `[0, anchor)`: it either raises IndexError or stops on a line it
      reached through a negative index, counted from the end of the file. */
  lemma BackScanWraps(code: seq<string>, anchor: int)
    requires 0 <= anchor <= |code|
    requires forall t {:trigger IsMarker(code[t])} :: 0 <= t < anchor ==> !IsMarker(code[t])
    ensures BackScan(code, anchor - 1).Success? ==> BackScan(code, anchor - 1).value.index < 0
  {
    BackScanSpec(code, anchor - 1);
  }
}
