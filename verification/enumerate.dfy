/** The enumerative scanner: one pass over a whole file that emits a
    record each time the brace stack of the current function empties.
    The stack only ever holds `{` markers, so its depth is all of it. */
module Enumerate {
  import opened Wrappers
  import opened PyStr
  import opened Patterns
  import opened Features
  import opened Records

  /** The scan's local variables: `depth` is `len(brace_stack)`,
      `wrapper` is `start_lib_int`. */
  datatype ScanState = ScanState(
    inside: bool,
    startLine: int,
    depth: nat,
    wrapper: bool,
    funcIndex: int)

  const Initial := ScanState(false, 0, 0, false, 0)

  datatype StepResult = StepResult(state: ScanState, emitted: Option<Emission>)

  /** What the loop body tests about one line. */
  datatype LineFacts = LineFacts(
    wrapper: bool,
    mentions: bool,
    opens: bool,
    startsBrace: bool,
    endsBrace: bool,
    closes: bool)

  function Classify(line: string): LineFacts {
    LineFacts(IsWrapperLine(line), MentionsFunction(line), '{' in line,
              StartsWithBrace(line), EndsWithBrace(line), ClosesFunction(line))
  }

  /** A library, interface or contract line sets the wrapper flag and
      empties the stack. */
  function WrapperPhase(st: ScanState, line: LineFacts): ScanState {
    if line.wrapper then st.(wrapper := true, depth := 0) else st
  }

  /** A line mentioning `function` starts a function here. */
  function DeclarationPhase(st: ScanState, i: int, line: LineFacts): ScanState {
    if line.mentions then st.(inside := true, funcIndex := i, startLine := i) else st
  }

  /** Inside a function, a line holding `{` pushes one marker. */
  function PushPhase(st: ScanState, line: LineFacts): ScanState {
    if st.inside && line.opens then st.(depth := st.depth + 1) else st
  }

  /** Outside a function, a `}` line pops the wrapper's marker once. */
  function WrapperPopPhase(st: ScanState, line: LineFacts): ScanState {
    if !st.inside && (line.startsBrace || line.endsBrace) && st.depth > 0 && st.wrapper then
      st.(depth := st.depth - 1, wrapper := false)
    else st
  }

  /** Inside a function, a closing line pops one marker; an empty stack
      ends the function and emits it. */
  function ClosePhase(st: ScanState, i: int, line: LineFacts): StepResult {
    if st.inside && line.closes then
      var depth := if st.depth > 0 then st.depth - 1 else 0;
      if depth == 0 then
        StepResult(st.(inside := false, depth := 0), Some(Emission(st.funcIndex, st.startLine, i)))
      else StepResult(st.(depth := depth), None)
    else StepResult(st, None)
  }

  /** The depth the line starts from: a wrapper line discards the stack. */
  function BaseDepth(st: ScanState, line: LineFacts): nat {
    if line.wrapper then 0 else st.depth
  }

  /** One iteration of the loop. What it does is stated by `StepShape`. */
  function Step(st: ScanState, i: int, line: LineFacts): StepResult {
    ClosePhase(WrapperPopPhase(PushPhase(DeclarationPhase(WrapperPhase(st, line), i, line), line), line), i, line)
  }

  /** One iteration pushes at most one marker, and only for a `{` line
      inside a function (or one that starts it); pops at most one; emits
      only when a closing line leaves the stack empty, the emission ending
      at this line; and clears the wrapper flag only by popping its
      marker outside any function. */
  lemma StepShape(st: ScanState, i: int, line: LineFacts)
    ensures var r := Step(st, i, line);
      && r.state.depth <= BaseDepth(st, line) + 1
      && BaseDepth(st, line) <= r.state.depth + 1
      && (r.state.depth == BaseDepth(st, line) + 1 ==> line.opens && (st.inside || line.mentions))
      && (r.emitted.Some? ==>
            && r.state.depth == 0 && !r.state.inside
            && line.closes && (st.inside || line.mentions)
            && r.emitted.value == Emission(r.state.funcIndex, r.state.startLine, i))
      && (r.state.wrapper != (st.wrapper || line.wrapper) ==>
            !r.state.inside && !line.mentions && r.state.depth + 1 == BaseDepth(st, line))
  {
  }

  /** Outside a function the stack is empty. */
  predicate Settled(st: ScanState) {
    !st.inside ==> st.depth == 0
  }

  /** Every state the scan reaches from `Initial` is settled: markers are
      pushed only inside a function, and a function is left only when its
      stack empties. So the wrapper pop, which needs a non-empty stack
      outside a function, never changes anything. */
  lemma StepSettled(st: ScanState, i: int, line: LineFacts)
    requires Settled(st)
    ensures Settled(Initial)
    ensures Settled(Step(st, i, line).state)
    ensures var before := PushPhase(DeclarationPhase(WrapperPhase(st, line), i, line), line);
      WrapperPopPhase(before, line) == before
  {
  }

  /** The classification of every line of a file, computed once; the
      scan reads it instead of re-testing the text. */
  function ClassifyAll(lines: seq<string>): (fs: seq<LineFacts>)
    ensures |fs| == |lines|
    ensures forall k {:trigger fs[k]} :: 0 <= k < |lines| ==> fs[k] == Classify(lines[k])
  {
    seq(|lines|, k requires 0 <= k < |lines| => Classify(lines[k]))
  }

  /** The loop from line `i` on: the emissions, in order. */
  function Scan(fs: seq<LineFacts>, i: nat, st: ScanState): seq<Emission>
    requires i <= |fs|
    decreases |fs| - i
  {
    if i == |fs| then []
    else
      var r := Step(st, i, fs[i]);
      EmissionsOf(r.emitted) + Scan(fs, i + 1, r.state)
  }

  /** A sound emission: a start at a line mentioning `function`, an end
      at a closing line no earlier than the start, and the start recorded
      as the function index. */
  predicate EmissionOk(fs: seq<LineFacts>, e: Emission) {
    && 0 <= e.start <= e.end < |fs|
    && e.index == e.start
    && fs[e.start].mentions
    && fs[e.end].closes
  }

  /** Each emission starts after the previous one ended. */
  predicate Ordered(es: seq<Emission>) {
    forall j, k :: 0 <= j < k < |es| ==> es[j].end < es[k].start
  }

  /** While inside a function, the recorded start is an earlier line
      mentioning `function`, also recorded as the function index. */
  predicate StateOk(fs: seq<LineFacts>, i: int, st: ScanState) {
    st.inside ==>
      && 0 <= st.startLine < i <= |fs|
      && st.funcIndex == st.startLine
      && fs[st.startLine].mentions
  }

  /** The first line a future emission can start at. */
  function Earliest(i: int, st: ScanState): int {
    if st.inside then st.startLine else i
  }

  /** One step keeps the state sound and emits only sound boundaries. */
  lemma StepOk(fs: seq<LineFacts>, i: nat, st: ScanState)
    requires i < |fs| && StateOk(fs, i, st)
    ensures var r := Step(st, i, fs[i]);
      && StateOk(fs, i + 1, r.state)
      && (r.emitted.Some? ==>
            && EmissionOk(fs, r.emitted.value)
            && r.emitted.value.end == i
            && Earliest(i, st) <= r.emitted.value.start
            && !r.state.inside)
      && (r.emitted.None? ==> Earliest(i, st) <= Earliest(i + 1, r.state))
  {
    var s2 := DeclarationPhase(WrapperPhase(st, fs[i]), i, fs[i]);
    assert StateOk(fs, i + 1, s2);
  }

  /** Every emission of the scan from line `i` on is sound, ends at or
      after `i`, starts no earlier than the open function (if any), and
      the emissions are disjoint and in file order. */
  lemma {:induction false} ScanOk(fs: seq<LineFacts>, i: nat, st: ScanState)
    requires i <= |fs| && StateOk(fs, i, st)
    ensures var es := Scan(fs, i, st);
      && (forall k :: 0 <= k < |es| ==> EmissionOk(fs, es[k]))
      && (forall k :: 0 <= k < |es| ==> i <= es[k].end && Earliest(i, st) <= es[k].start)
      && Ordered(es)
    decreases |fs| - i
  {
    if i < |fs| {
      var r := Step(st, i, fs[i]);
      StepOk(fs, i, st);
      ScanOk(fs, i + 1, r.state);
      var rest := Scan(fs, i + 1, r.state);
      var es := Scan(fs, i, st);
      assert es == EmissionsOf(r.emitted) + rest;
      if r.emitted.Some? {
        ConsSound(fs, r.emitted.value, rest, i, Earliest(i, st));
      } else {
        assert es == rest;
      }
    }
  }

  /** A sound emission ending before every emission after it. */
  lemma ConsSound(fs: seq<LineFacts>, e: Emission, rest: seq<Emission>, i: int, lo: int)
    requires EmissionOk(fs, e) && e.end == i && lo <= e.start
    requires forall k :: 0 <= k < |rest| ==> EmissionOk(fs, rest[k]) && i < rest[k].start <= rest[k].end
    requires Ordered(rest)
    ensures var es := [e] + rest;
      && (forall k :: 0 <= k < |es| ==> EmissionOk(fs, es[k]))
      && (forall k :: 0 <= k < |es| ==> i <= es[k].end && lo <= es[k].start)
      && Ordered(es)
  {
    var es := [e] + rest;
    forall k | 0 < k < |es|
      ensures es[k] == rest[k - 1]
    {
    }
  }

  /** The function boundaries of a whole file: every start is a line
      mentioning `function`, every end a closing line at or after its
      start, and the blocks are disjoint and in file order. */
  function Boundaries(lines: seq<string>): (es: seq<Emission>)
    ensures forall k :: 0 <= k < |es| ==>
      && 0 <= es[k].start <= es[k].end < |lines|
      && es[k].index == es[k].start
      && MentionsFunction(lines[es[k].start])
      && ClosesFunction(lines[es[k].end])
    ensures Ordered(es)
  {
    var fs := ClassifyAll(lines);
    ScanOk(fs, 0, Initial);
    var es := Scan(fs, 0, Initial);
    assert forall k :: 0 <= k < |es| ==> EmissionOk(fs, es[k]);
    es
  }

  /** `extract_sanctuary_functions(lines, source)`: one record per
      boundary, with the lines from its start through its end, no label,
      and the file's features. */
  function ExtractAll(lines: seq<string>, source: string): (r: seq<FunctionRecord>)
    ensures |r| == |Boundaries(lines)|
    ensures forall k :: 0 <= k < |r| ==>
      var e := Boundaries(lines)[k];
      && r[k].functionIndex == e.start
      && r[k].functionCode == Join(lines[e.start..e.end + 1])
      && r[k].vulnerabilityLabel == None
      && r[k].features == Some(Vector(Join(lines)))
      && r[k].source == source
  {
    var fv := Vector(Join(lines));
    var es := Boundaries(lines);
    seq(|es|, k requires 0 <= k < |es| => RecordAt(lines, es[k], source, fv))
  }

  /** The row for one boundary. */
  function RecordAt(lines: seq<string>, e: Emission, source: string, fv: FeatureVector): FunctionRecord
    requires 0 <= e.start <= e.end < |lines|
  {
    FunctionRecord(source, e.index, Join(lines[e.start..e.end + 1]), None, Some(fv))
  }

  /** A `  } function name() {` line that also holds `{`: the new function
      starts on this line, and its push and pop cancel, so the stack depth
      is unchanged and the function open before it is not emitted on its
      own; an emission happens only if the stack was already empty. */
  lemma MalformedLine(st: ScanState, i: int, line: string)
    requires MalformedTransition(line) && '{' in line
    ensures var r := Step(st, i, Classify(line));
      && r.state.startLine == i && r.state.funcIndex == i
      && r.state.depth == st.depth
      && (r.emitted.Some? <==> st.depth == 0)
  {
    MalformedFacts(line);
  }
}
