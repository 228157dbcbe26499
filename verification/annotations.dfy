/** The per-file body of the labelled-extraction driver: find the
    `@vulnerable_at_lines` comment, parse its comma-separated line numbers,
    decide whether they form a run, and turn each anchor (or only the
    first, for a run) into a labelled record through the anchored scanner. */
module Annotations {
  import opened Wrappers
  import opened PyStr
  import opened Features
  import opened Records
  import opened Anchored

  const MarkerToken := "@vulnerable_at_lines"

  /** Line `j` is the first line carrying the marker. */
  predicate FirstMarkerAt(lines: seq<string>, j: int) {
    && 0 <= j < |lines|
    && Contains(lines[j], MarkerToken)
    && forall t :: 0 <= t < j ==> !Contains(lines[t], MarkerToken)
  }

  /** The first marker line is the first element of any filtered list
      that starts with some first marker line. */
  lemma FirstMarkerIsFirst(lines: seq<string>, first: string)
    requires exists j :: FirstMarkerAt(lines, j) && first == lines[j]
    ensures forall j :: FirstMarkerAt(lines, j) ==> lines[j] == first
  {
    var j0 :| FirstMarkerAt(lines, j0) && first == lines[j0];
    forall j | FirstMarkerAt(lines, j) ensures lines[j] == first {
      assert !(j < j0) && !(j0 < j);
    }
  }

  /** The lines carrying the marker, in file order. */
  function MarkerLines(lines: seq<string>): (r: seq<string>)
    ensures forall k :: 0 <= k < |r| ==> Contains(r[k], MarkerToken)
    ensures |r| == 0 <==> forall t :: 0 <= t < |lines| ==> !Contains(lines[t], MarkerToken)
    ensures |r| > 0 ==> exists j :: FirstMarkerAt(lines, j) && r[0] == lines[j]
  {
    if |lines| == 0 then []
    else
      var rest := MarkerLines(lines[1..]);
      if Contains(lines[0], MarkerToken) then
        assert FirstMarkerAt(lines, 0);
        [lines[0]] + rest
      else
        assert forall j :: FirstMarkerAt(lines[1..], j) ==> FirstMarkerAt(lines, j + 1);
        rest
  }

  /** `line.split(":")[-1].strip().split(",")`: the comma-separated
      fields after the last colon. */
  function AnchorFields(line: string): seq<string> {
    var parts := Split(line, ':');
    Split(Strip(parts[|parts| - 1]), ',')
  }

  /** `list(map(lambda x: int(x), fields))`: `None` when any field raises
      ValueError. */
  function ParseAll(fields: seq<string>): (r: Option<seq<int>>)
    ensures r.Some? <==> forall k :: 0 <= k < |fields| ==> ParseInt(fields[k]).Some?
    ensures r.Some? ==>
      && |r.value| == |fields|
      && forall k :: 0 <= k < |fields| ==> ParseInt(fields[k]) == Some(r.value[k])
  {
    if |fields| == 0 then Some([])
    else
      match ParseInt(fields[0])
      case None => None
      case Some(v) =>
        match ParseAll(fields[1..])
        case None => None
        case Some(vs) => Some([v] + vs)
  }

  /** The `is_in_seq` test: more than one anchor, and as many anchors as
      the span from the first to the last. Only the count and the two
      endpoints are compared. */
  predicate IsRun(anchors: seq<int>) {
    1 < |anchors| && |anchors| == anchors[|anchors| - 1] - anchors[0] + 1
  }

  /** Anchors that go up by one each time. */
  predicate Consecutive(anchors: seq<int>) {
    forall k :: 0 < k < |anchors| ==> anchors[k] == anchors[k - 1] + 1
  }

  /** Consecutive line numbers always form a run. */
  lemma {:induction false} ConsecutiveIsRun(anchors: seq<int>)
    requires 1 < |anchors| && Consecutive(anchors)
    ensures IsRun(anchors)
  {
    ConsecutiveOffsets(anchors, |anchors| - 1);
  }

  lemma {:induction false} ConsecutiveOffsets(anchors: seq<int>, k: int)
    requires 0 <= k < |anchors| && Consecutive(anchors)
    ensures anchors[k] == anchors[0] + k
  {
    if k > 0 {
      ConsecutiveOffsets(anchors, k - 1);
    }
  }

  /** The converse fails: the run test accepts anchors that are not
      consecutive, as long as count and endpoints agree. */
  lemma RunNeedNotBeConsecutive()
    ensures IsRun([10, 14, 12]) && !Consecutive([10, 14, 12])
  {
    assert [10, 14, 12][1] != [10, 14, 12][0] + 1;
  }

  const ReportTag := "// <yes> <report>"

  /** `re.sub(r"// <yes> <report>\s|\n|\t", "", s)`: a left-to-right pass
      that deletes the report tag with the whitespace character after it,
      and every newline and tab. */
  function StripReport(s: string): (r: string)
    ensures '\n' !in r && '\t' !in r
    ensures |r| <= |s|
    decreases |s|
  {
    if |s| == 0 then ""
    else if StartsWith(s, ReportTag) && |s| > |ReportTag| && IsSpace(s[|ReportTag|]) then
      StripReport(s[|ReportTag| + 1..])
    else if s[0] == '\n' || s[0] == '\t' then StripReport(s[1..])
    else [s[0]] + StripReport(s[1..])
  }

  /** The `vulnerability_label` cut from the line before the anchor line. */
  function Label(previous: string): string {
    Strip(StripReport(previous))
  }

  /** One anchor `v` (1-based): read the label from `lines[v - 2]`, then
      extract the block with start line `v - 1`. */
  function RecordFor(lines: seq<string>, source: string, fv: FeatureVector, v: int)
    : Result<FunctionRecord, Fault>
  {
    var start := v - 1;
    match PyIndex(lines, start - 1)
    case None => Failure(IndexError)
    case Some(previous) =>
      match ExtractAnchored(lines, start)
      case Failure(f) => Failure(f)
      case Success(block) => Success(FunctionRecord(source, v, block, Some(Label(previous)), Some(fv)))
  }

  /** The record for anchor `v` exists exactly when line `v - 2` exists
      (as a Python index) and the anchored extraction from start line
      `v - 1` succeeds; it holds that extraction's block and the label
      cleaned from line `v - 2`. Otherwise the fault is IndexError for the
      missing line, or the extractor's own. */
  lemma RecordForSpec(lines: seq<string>, source: string, fv: FeatureVector, v: int)
    ensures var r := RecordFor(lines, source, fv, v);
      && (r.Success? <==> -|lines| <= v - 2 < |lines| && ExtractAnchored(lines, v - 1).Success?)
      && (r.Success? ==>
            && r.value.functionCode == ExtractAnchored(lines, v - 1).value
            && r.value.vulnerabilityLabel == Some(Label(PyIndex(lines, v - 2).value))
            && r.value.functionIndex == v && r.value.source == source && r.value.features == Some(fv))
      && (r.Failure? && -|lines| <= v - 2 < |lines| ==> r.error == ExtractAnchored(lines, v - 1).error)
      && (r.Failure? && !(-|lines| <= v - 2 < |lines|) ==> r.error == IndexError)
  {
  }

  /** Anchor 1 gives start line 0, which Python reads as "no start line":
      its block is extracted from the whole file, and its label is read
      from `lines[-1]`, the last line of the file. */
  lemma FirstLineAnchor(lines: seq<string>, source: string, fv: FeatureVector)
    requires |lines| > 0
    ensures var r := RecordFor(lines, source, fv, 1);
      && (r.Success? <==> ExtractAnchored(lines, 0).Success?)
      && (r.Success? ==>
            && r.value.functionCode == ExtractAnchored(lines, 0).value
            && r.value.vulnerabilityLabel == Some(Label(lines[|lines| - 1])))
  {
    RecordForSpec(lines, source, fv, 1);
  }

  /** The records a file contributes, and the exception that cut it short,
      if any. Records appended before the exception stay in the output. */
  datatype FileOutcome = FileOutcome(records: seq<FunctionRecord>, fault: Option<Fault>)

  /** The outcome of the record for each anchor, in order. Python builds
      them one at a time and stops at the first exception; every outcome
      depends only on the file, so computing them all and stopping in
      `Collect` is the same. */
  function Outcomes(lines: seq<string>, source: string, fv: FeatureVector, anchors: seq<int>)
    : (rs: seq<Result<FunctionRecord, Fault>>)
    ensures |rs| == |anchors|
    ensures forall k :: 0 <= k < |anchors| ==> rs[k] == RecordFor(lines, source, fv, anchors[k])
  {
    seq(|anchors|, k requires 0 <= k < |anchors| => RecordFor(lines, source, fv, anchors[k]))
  }

  /** The body of the `for v in vuln_lines` loop over the outcomes: keep
      each record, stop at the first exception, and stop after the first
      record when the anchors form a run. */
  function Collect(rs: seq<Result<FunctionRecord, Fault>>, run: bool): (r: FileOutcome)
    ensures |r.records| <= |rs|
    ensures run ==> |r.records| <= 1
    ensures forall k :: 0 <= k < |r.records| ==> rs[k] == Success(r.records[k])
    ensures r.fault.None? ==> |r.records| == (if run && |rs| > 0 then 1 else |rs|)
    ensures r.fault.Some? ==> |r.records| < |rs| && rs[|r.records|] == Failure(r.fault.value)
    decreases |rs|
  {
    if |rs| == 0 then FileOutcome([], None)
    else
      match rs[0]
      case Failure(f) => FileOutcome([], Some(f))
      case Success(rec) =>
        if run then FileOutcome([rec], None)
        else
          var rest := Collect(rs[1..], run);
          var records := [rec] + rest.records;
          assert forall k :: 1 <= k < |records| ==> records[k] == rest.records[k - 1] && rs[k] == rs[1..][k - 1];
          FileOutcome(records, rest.fault)
  }

  /** The `for v in vuln_lines` loop, which breaks after its first record
      when the anchors form a run. */
  function AnchorRecords(lines: seq<string>, source: string, fv: FeatureVector,
                         anchors: seq<int>, run: bool): (r: FileOutcome)
    ensures |r.records| <= |anchors|
    ensures run ==> |r.records| <= 1
    ensures forall k :: 0 <= k < |r.records| ==>
      && r.records[k].functionIndex == anchors[k]
      && r.records[k].source == source
      && r.records[k].vulnerabilityLabel.Some?
      && r.records[k].features == Some(fv)
    ensures forall k :: 0 <= k < |r.records| ==> RecordFor(lines, source, fv, anchors[k]) == Success(r.records[k])
    ensures r.fault.None? ==> |r.records| == (if run && |anchors| > 0 then 1 else |anchors|)
    ensures r.fault.Some? ==>
      && |r.records| < |anchors|
      && RecordFor(lines, source, fv, anchors[|r.records|]) == Failure(r.fault.value)
  {
    var r := Collect(Outcomes(lines, source, fv, anchors), run);
    assert forall k :: 0 <= k < |r.records| ==>
      && r.records[k].functionIndex == anchors[k]
      && r.records[k].source == source
      && r.records[k].vulnerabilityLabel.Some?
      && r.records[k].features == Some(fv)
    by {
      forall k | 0 <= k < |r.records|
        ensures && r.records[k].functionIndex == anchors[k]
                && r.records[k].source == source
                && r.records[k].vulnerabilityLabel.Some?
                && r.records[k].features == Some(fv)
      {
        RecordForSpec(lines, source, fv, anchors[k]);
      }
    }
    r
  }

  /** What a file with a first marker line whose fields parse to `parsed`
      contributes: nothing but ValueError when a field is not an integer;
      otherwise one record per anchor in listed order, or only the first
      anchor's record for a run, each carrying a label and the file's
      features — fewer only when an exception cut the loop short. */
  predicate OutcomeFor(lines: seq<string>, source: string, parsed: Option<seq<int>>, r: FileOutcome) {
    match parsed
    case None => r == FileOutcome([], Some(ValueError))
    case Some(anchors) =>
      var expected := if IsRun(anchors) then 1 else |anchors|;
      && |r.records| <= expected
      && (r.fault.None? ==> |r.records| == expected)
      && (forall k :: 0 <= k < |r.records| ==>
            && RecordFor(lines, source, Vector(Join(lines)), anchors[k]) == Success(r.records[k])
            && r.records[k].functionIndex == anchors[k]
            && r.records[k].source == source
            && r.records[k].vulnerabilityLabel.Some?
            && r.records[k].features == Some(Vector(Join(lines))))
      && (r.fault.Some? ==>
            && |r.records| < |anchors|
            && RecordFor(lines, source, Vector(Join(lines)), anchors[|r.records|]) == Failure(r.fault.value))
  }

  /** The loop body of `get_vulnerable_blocks` for one file. */
  function VulnerableRecords(lines: seq<string>, source: string): (r: FileOutcome)
    ensures (forall t :: 0 <= t < |lines| ==> !Contains(lines[t], MarkerToken)) ==>
      r == FileOutcome([], None)
    ensures forall j :: FirstMarkerAt(lines, j) ==>
      OutcomeFor(lines, source, ParseAll(AnchorFields(lines[j])), r)
  {
    var marked := MarkerLines(lines);
    if |marked| == 0 then FileOutcome([], None)
    else
      FirstMarkerIsFirst(lines, marked[0]);
      match ParseAll(AnchorFields(marked[0]))
      case None => FileOutcome([], Some(ValueError))
      case Some(anchors) =>
        assert |anchors| >= 1;
        AnchorRecords(lines, source, Vector(Join(lines)), anchors, IsRun(anchors))
  }
}
