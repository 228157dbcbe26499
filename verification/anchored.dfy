/** The anchored scanner: given the lines of a file and the 0-based index
    of a reported line, find the one code block enclosing it by counting
    `{` lines against `}`-ending lines. */
module Anchored {
  import opened Wrappers
  import opened PyStr
  import opened Patterns
  import opened Backward

  /** The scan's local variables. `opening` counts lines holding `{` seen
      while inside a function, `closing` counts every line whose stripped
      text ends with `}`; both only grow. `functionLine` 0 means no start
      has been recorded (Python treats it as false). `recorded` says a
      block has been cut: its text is `code[startBlock : endBlock + 1]`
      joined, and since the file never changes it is cut once, at the
      end, from the last recorded bounds. */
  datatype AnchoredState = AnchoredState(
    inside: bool,
    functionLine: int,
    opening: nat,
    closing: nat,
    startBlock: int,
    endBlock: int,
    recorded: bool)

  const Fresh := AnchoredState(false, 0, 0, 0, 0, 0, false)

  /** The counters agree and a start is recorded: the closing test. */
  predicate Balanced(st: AnchoredState) {
    st.functionLine != 0 && st.opening == st.closing
  }

  /** The index recorded as the block's end when closing at loop index `i`. */
  function EndIndex(start: int, i: int): int {
    if start == 0 then i + 1 else start + i + 1
  }

  /** The backward scan's effect on the state, given the scan's outcome
      `hit`: enter the function found (counting its `{`), or record the
      anchor itself after a contract line. */
  function Seed(hit: Result<BackHit, Fault>, start: int, st: AnchoredState): Result<AnchoredState, Fault> {
    match hit
    case Failure(f) => Failure(f)
    case Success(h) =>
      if h.FunctionAt? then
        Success(st.(inside := true, functionLine := h.index,
                    opening := st.opening + (if '{' in h.text then 1 else 0)))
      else
        Success(st.(inside := false, functionLine := start))
  }

  /** Record the block bounds when balanced. */
  function Close(start: int, i: int, st: AnchoredState): AnchoredState {
    if Balanced(st) then
      st.(inside := false, startBlock := st.functionLine, endBlock := EndIndex(start, i), recorded := true)
    else st
  }

  /** What the loop body tests about one line: a stripped `function`
      start, a signature match, a `{`, and a stripped `}` end. */
  datatype LineKind = LineKind(declaration: bool, signature: bool, opens: bool, closes: bool)

  function KindOf(line: string): LineKind {
    LineKind(IsDeclaration(line), HasSignature(line), '{' in line, EndsWithBrace(line))
  }

  /** The kinds of all lines, computed once; the loop reads these. */
  function KindsOf(lines: seq<string>): (ks: seq<LineKind>)
    ensures |ks| == |lines|
    ensures forall k {:trigger ks[k]} :: 0 <= k < |lines| ==> ks[k] == KindOf(lines[k])
  {
    seq(|lines|, k requires 0 <= k < |lines| => KindOf(lines[k]))
  }

  /** One iteration of the loop, at loop index `i`, on a line of kind
      `line`. `hit` is the outcome of the backward scan from `start - 1`;
      the scan is a function of the file alone, and it is consulted only
      where Python runs it: on the first line, outside a function, with a
      start line set. What a step does is stated by the four lemmas that
      follow. */
  function Step(hit: Result<BackHit, Fault>, start: int, i: nat, line: LineKind, st: AnchoredState)
    : Result<AnchoredState, Fault>
  {
    if line.declaration && !line.signature then Failure(NoSignature)
    else
      var s1 := if line.declaration then st.(inside := true, functionLine := i + 1) else st;
      var s2 := if s1.inside && line.opens then s1.(opening := s1.opening + 1) else s1;
      var s3 := if line.closes then s2.(closing := s2.closing + 1) else s2;
      var r4 := if !s3.inside && i == 0 && start != 0 then Seed(hit, start, s3) else Success(s3);
      match r4
      case Failure(f) => Failure(f)
      case Success(s4) => Success(Close(start, i, s4))
  }

  /** The step raises exactly for a declaration without a signature
      (NoSignature), and for any other line when it runs the backward
      scan and the scan raised (the scan's own error). */
  lemma StepFailure(hit: Result<BackHit, Fault>, start: int, i: nat, line: LineKind, st: AnchoredState)
    ensures var r := Step(hit, start, i, line, st);
      && (line.declaration && !line.signature ==> r == Failure(NoSignature))
      && (!line.declaration && !st.inside && i == 0 && start != 0 && hit.Failure? ==>
            r == Failure(hit.error))
      && (r.Failure? ==>
            || (line.declaration && !line.signature)
            || (!line.declaration && !st.inside && i == 0 && start != 0 && hit.Failure?))
  {
  }

  /** `closing` grows by one exactly on a `}`-ending line; `opening` grows
      by at most one for the line's `{` and one for the declaration the
      backward scan finds, and only inside a function. */
  lemma StepCounts(hit: Result<BackHit, Fault>, start: int, i: nat, line: LineKind, st: AnchoredState)
    ensures var r := Step(hit, start, i, line, st);
      r.Success? ==>
        && r.value.closing == st.closing + (if line.closes then 1 else 0)
        && st.opening <= r.value.opening
             <= st.opening + (if line.opens then 1 else 0) + (if i == 0 && start != 0 then 1 else 0)
        && (r.value.opening > st.opening ==> st.inside || line.declaration || (i == 0 && start != 0))
  {
  }

  /** Apart from the backward scan on the first line, the recorded start
      moves only on a declaration, to its 1-based line number. */
  lemma StepStart(hit: Result<BackHit, Fault>, start: int, i: nat, line: LineKind, st: AnchoredState)
    ensures var r := Step(hit, start, i, line, st);
      r.Success? && (i != 0 || start == 0 || st.inside || line.declaration) ==>
        r.value.functionLine == (if line.declaration then i + 1 else st.functionLine)
  {
  }

  /** When the counters balance with a start recorded, the step leaves the
      function and records the block from that start to the end index;
      otherwise the recorded block is unchanged. */
  lemma StepBlock(hit: Result<BackHit, Fault>, start: int, i: nat, line: LineKind, st: AnchoredState)
    ensures var r := Step(hit, start, i, line, st);
      && (r.Success? && Balanced(r.value) ==>
            && !r.value.inside
            && r.value.recorded
            && r.value.startBlock == r.value.functionLine
            && r.value.endBlock == EndIndex(start, i))
      && (r.Success? && !Balanced(r.value) ==>
            && r.value.startBlock == st.startBlock
            && r.value.endBlock == st.endBlock
            && r.value.recorded == st.recorded)
  {
  }

  /** The loop's `break` test. */
  predicate Finished(st: AnchoredState) {
    st.endBlock > st.startBlock && !st.inside
  }

  /** A recorded block starts at a recorded (non-zero) line. */
  predicate BlockOk(st: AnchoredState) {
    st.recorded ==> st.startBlock != 0
  }

  /** Where a start can come from once the loop has seen `ks[..i]`: the
      line after a scanned declaration (Python's 1-based `i + 1`), the
      declaration the backward scan found, or the start line itself when
      the backward scan met a contract line. */
  predicate StartFrom(hit: Result<BackHit, Fault>, start: int, ks: seq<LineKind>, i: int, a: int) {
    || (exists k :: 0 <= k < i && k < |ks| && ks[k].declaration && a == k + 1)
    || (start != 0 && hit.Success? && hit.value.FunctionAt? && a == hit.value.index)
    || (start != 0 && hit.Success? && hit.value.ContractAt? && a == start)
  }

  /** What the loop variables mean after `ks[..i]`: a recorded function
      line comes from `StartFrom`, and so does a recorded block's start,
      whose end is the end index of a line already seen. */
  predicate Traced(hit: Result<BackHit, Fault>, start: int, ks: seq<LineKind>, i: int, st: AnchoredState) {
    && (st.functionLine != 0 ==> StartFrom(hit, start, ks, i, st.functionLine))
    && (st.recorded ==>
          && StartFrom(hit, start, ks, i, st.startBlock)
          && exists j :: 0 <= j < i && j < |ks| && st.endBlock == EndIndex(start, j))
  }

  /** What is true after `ks[..i]` stays true after more lines. */
  lemma TracedLater(hit: Result<BackHit, Fault>, start: int, ks: seq<LineKind>, i: int, i': int, st: AnchoredState)
    requires i <= i' && Traced(hit, start, ks, i, st)
    ensures Traced(hit, start, ks, i', st)
  {
  }

  /** One step keeps the meaning of the loop variables, for the next line
      and for the end of the loop. */
  lemma StepTraced(hit: Result<BackHit, Fault>, start: int, ks: seq<LineKind>, i: nat, st: AnchoredState)
    requires i < |ks| && Step(hit, start, i, ks[i], st).Success?
    ensures Traced(hit, start, ks, i, st) ==>
      && Traced(hit, start, ks, i + 1, Step(hit, start, i, ks[i], st).value)
      && Traced(hit, start, ks, |ks|, Step(hit, start, i, ks[i], st).value)
  {
    if Traced(hit, start, ks, i, st) {
      StepTracedNext(hit, start, ks, i, st);
      TracedLater(hit, start, ks, i + 1, |ks|, Step(hit, start, i, ks[i], st).value);
    }
  }

  lemma StepTracedNext(hit: Result<BackHit, Fault>, start: int, ks: seq<LineKind>, i: nat, st: AnchoredState)
    requires i < |ks| && Traced(hit, start, ks, i, st)
    requires Step(hit, start, i, ks[i], st).Success?
    ensures Traced(hit, start, ks, i + 1, Step(hit, start, i, ks[i], st).value)
  {
    var line := ks[i];
    TracedLater(hit, start, ks, i, i + 1, st);
    var s1 := if line.declaration then st.(inside := true, functionLine := i + 1) else st;
    if line.declaration {
      assert 0 <= i < i + 1 && i < |ks| && ks[i].declaration && s1.functionLine == i + 1;
    }
    assert Traced(hit, start, ks, i + 1, s1);
    var s2 := if s1.inside && line.opens then s1.(opening := s1.opening + 1) else s1;
    var s3 := if line.closes then s2.(closing := s2.closing + 1) else s2;
    assert Traced(hit, start, ks, i + 1, s3);
    var r4 := if !s3.inside && i == 0 && start != 0 then Seed(hit, start, s3) else Success(s3);
    var s4 := r4.value;
    assert Traced(hit, start, ks, i + 1, s4);
    var s5 := Close(start, i, s4);
    assert s5 == Step(hit, start, i, ks[i], st).value;
    if Balanced(s4) {
      assert 0 <= i < i + 1 && i < |ks| && s5.endBlock == EndIndex(start, i);
    }
  }

  /** The loop from index `i` on, stopping after the first step that
      leaves the scan `Finished`. Both counters only grow, and a failure
      is NoSignature or the backward scan's error; `LoopTraced` says where
      a recorded block comes from. */
  function Loop(hit: Result<BackHit, Fault>, start: int, ks: seq<LineKind>, i: nat, st: AnchoredState)
    : (r: Result<AnchoredState, Fault>)
    requires i <= |ks|
    ensures r.Success? ==> r.value.opening >= st.opening && r.value.closing >= st.closing
    ensures r.Success? && BlockOk(st) ==> BlockOk(r.value)
    ensures r.Failure? ==> r.error == NoSignature || (start != 0 && hit.Failure? && r.error == hit.error)
    decreases |ks| - i
  {
    if i == |ks| then Success(st)
    else
      StepFailure(hit, start, i, ks[i], st);
      StepCounts(hit, start, i, ks[i], st);
      StepBlock(hit, start, i, ks[i], st);
      match Step(hit, start, i, ks[i], st)
      case Failure(f) => Failure(f)
      case Success(next) =>
        if Finished(next) then Success(next) else Loop(hit, start, ks, i + 1, next)
  }

  /** A recorded block starts at a line `StartFrom` allows and ends at the
      end index of a scanned line. */
  lemma {:induction false} LoopTraced(hit: Result<BackHit, Fault>, start: int, ks: seq<LineKind>, i: nat, st: AnchoredState)
    requires i <= |ks| && Traced(hit, start, ks, i, st)
    ensures var r := Loop(hit, start, ks, i, st);
      r.Success? ==> Traced(hit, start, ks, |ks|, r.value)
    decreases |ks| - i
  {
    if i < |ks| && Step(hit, start, i, ks[i], st).Success? {
      var next := Step(hit, start, i, ks[i], st).value;
      StepTraced(hit, start, ks, i, st);
      if !Finished(next) {
        LoopTraced(hit, start, ks, i + 1, next);
      }
    }
  }

  /** The lines scanned: `code[start:]` when `start` is set, else all. */
  function ScannedLines(code: seq<string>, start: int): seq<string> {
    if start != 0 then PySlice(code, start, |code|) else code
  }

  /** `extract_smartbugs_functions(code, start)`: the block last recorded
      before the loop stopped, or "" when none was. It raises only for a
      declaration without a signature, or when the backward scan runs
      off the front of the file. */
  function ExtractAnchored(code: seq<string>, start: int): (r: Result<string, Fault>)
    ensures r.Failure? ==>
      r.error == NoSignature || (r.error == IndexError && start != 0 && BackScan(code, start - 1).Failure?)
  {
    var hit := BackScan(code, start - 1);
    match Loop(hit, start, KindsOf(ScannedLines(code, start)), 0, Fresh)
    case Failure(f) => Failure(f)
    case Success(st) =>
      if st.recorded then Success(Join(PySlice(code, st.startBlock, st.endBlock + 1)))
      else Success("")
  }

  /** A non-empty result is one block `code[a : b + 1]` with the origin
      `BlockFrom` describes. */
  lemma AnchoredBlock(code: seq<string>, start: int)
    ensures var r := ExtractAnchored(code, start);
      r.Success? && r.value != "" ==>
        exists a, b :: IsBlockOf(code, r.value, a, b) && BlockFrom(code, start, a, b)
  {
    var hit := BackScan(code, start - 1);
    var lines := ScannedLines(code, start);
    var ks := KindsOf(lines);
    var r := Loop(hit, start, ks, 0, Fresh);
    assert Traced(hit, start, ks, 0, Fresh);
    LoopTraced(hit, start, ks, 0, Fresh);
    if r.Success? && r.value.recorded {
      var st := r.value;
      FromKinds(code, start, hit, lines, st.startBlock, st.endBlock);
      assert IsBlockOf(code, ExtractAnchored(code, start).value, st.startBlock, st.endBlock);
    }
  }

  /** `text` is the Python slice `code[a : b + 1]` joined, from a recorded
      (non-zero) start `a`. */
  predicate IsBlockOf(code: seq<string>, text: string, a: int, b: int) {
    a != 0 && text == Join(PySlice(code, a, b + 1))
  }

  /** Where an anchored block comes from. It ends at `start + j + 1` (or
      `j + 1` in whole-file mode) for a scanned line `j`. It starts on the
      line after a scanned declaration, or, with a start line set, at the
      declaration the backward scan from `start - 1` found, or at `start`
      itself when that scan met a contract line first. */
  predicate BlockFrom(code: seq<string>, start: int, a: int, b: int) {
    var lines := ScannedLines(code, start);
    var hit := BackScan(code, start - 1);
    && (exists j :: 0 <= j < |lines| && b == EndIndex(start, j))
    && (|| (exists k :: 0 <= k < |lines| && IsDeclaration(lines[k]) && a == k + 1)
        || (start != 0 && hit.Success? && hit.value.FunctionAt? && a == hit.value.index)
        || (start != 0 && hit.Success? && hit.value.ContractAt? && a == start))
  }

  /** The loop's account of a recorded block, restated on the lines. */
  lemma FromKinds(code: seq<string>, start: int, hit: Result<BackHit, Fault>, lines: seq<string>, a: int, b: int)
    requires hit == BackScan(code, start - 1) && lines == ScannedLines(code, start)
    requires StartFrom(hit, start, KindsOf(lines), |lines|, a)
    requires exists j :: 0 <= j < |lines| && j < |KindsOf(lines)| && b == EndIndex(start, j)
    ensures BlockFrom(code, start, a, b)
  {
    var ks := KindsOf(lines);
    if exists k :: 0 <= k < |lines| && k < |ks| && ks[k].declaration && a == k + 1 {
      var k :| 0 <= k < |lines| && k < |ks| && ks[k].declaration && a == k + 1;
      assert IsDeclaration(lines[k]);
    }
  }

  /** The run of the loop recorded the bounds `a` and `stop - 1`. */
  lemma ExtractRecorded(code: seq<string>, start: int, hit: Result<BackHit, Fault>, lines: seq<string>, a: int, stop: int)
    requires hit == BackScan(code, start - 1) && lines == ScannedLines(code, start)
    requires var r := Loop(hit, start, KindsOf(lines), 0, Fresh);
      r.Success? && r.value.recorded && r.value.startBlock == a && r.value.endBlock == stop - 1
    ensures ExtractAnchored(code, start) == Success(Join(PySlice(code, a, stop)))
  {
  }

  /** The run of the loop recorded nothing. */
  lemma ExtractNothing(code: seq<string>, start: int, hit: Result<BackHit, Fault>, lines: seq<string>)
    requires hit == BackScan(code, start - 1) && lines == ScannedLines(code, start)
    requires var r := Loop(hit, start, KindsOf(lines), 0, Fresh);
      r.Success? && !r.value.recorded
    ensures ExtractAnchored(code, start) == Success("")
  {
  }

  /** How many of the lines `code[a..b]` hold a `{`. */
  function Openers(code: seq<string>, a: int, b: int): nat
    requires 0 <= a <= b <= |code|
    decreases b - a
  {
    if a == b then 0 else Openers(code, a, b - 1) + (if '{' in code[b - 1] then 1 else 0)
  }

  /** How many of the lines `code[a..b]` end with `}` once stripped. */
  function Closers(code: seq<string>, a: int, b: int): nat
    requires 0 <= a <= b <= |code|
    decreases b - a
  {
    if a == b then 0 else Closers(code, a, b - 1) + (if EndsWithBrace(code[b - 1]) then 1 else 0)
  }

  function Seeded(decl: string): nat {
    if '{' in decl then 1 else 0
  }

  /** Counting from a declaration at `d` found by the backward scan, the
      counters balance `k` lines past the anchor `s`: the declaration's
      own `{`, plus the `{` lines after the anchor, against every
      `}`-ending line from the anchor on. The anchor line's own `{` is not
      counted because the scan is not yet inside a function when it reads
      that line. */
  predicate BalancedAt(code: seq<string>, s: int, d: int, k: int)
    requires 0 <= d < |code| && 0 <= s && 0 <= k && s + k < |code|
  {
    Seeded(code[d]) + Openers(code, s + 1, s + k + 1) == Closers(code, s, s + k + 1)
  }

  /** The backward scan's outcome when it stops on the declaration at `d`. */
  function FoundAt(code: seq<string>, d: int): Result<BackHit, Fault>
    requires 0 <= d < |code|
  {
    Success(FunctionAt(d, code[d]))
  }

  /** The state after `k >= 1` loop iterations when the anchor lies in a
      function declared at `d`. */
  function Inside(code: seq<string>, s: int, d: int, k: int): AnchoredState
    requires 0 <= d < |code| && 0 <= s && 1 <= k && s + k <= |code|
  {
    AnchoredState(true, d, Seeded(code[d]) + Openers(code, s + 1, s + k), Closers(code, s, s + k), 0, 0, false)
  }

  /** A reported line inside a function: when the nearest `function` or
      `contract` line below the anchor `s` is a declaration at `d != 0`,
      and no declaration follows the anchor before the counters first
      balance `c` lines later, the block is the lines from the declaration
      through the line after the balancing one. It therefore encloses the
      anchor: `d < s <= s + c + 1`. */
  lemma AnchorInsideFunction(code: seq<string>, s: int, d: int, c: int)
    requires 0 < d < s < |code|
    requires IsDeclaration(code[d])
    requires forall t {:trigger IsMarker(code[t])} :: d < t < s ==> !IsMarker(code[t])
    requires 0 <= c < |code| - s
    requires forall t {:trigger IsDeclaration(code[t])} :: s <= t <= s + c ==> !IsDeclaration(code[t])
    requires forall k :: 0 <= k < c ==> !BalancedAt(code, s, d, k)
    requires BalancedAt(code, s, d, c)
    ensures ExtractAnchored(code, s) == Success(Join(PySlice(code, d, s + c + 2)))
  {
    InsideRun(code, s, d, c);
    InsideResult(code, s, d, c);
  }

  /** The recorded bounds of `InsideRun`, as the extractor's result. */
  lemma InsideResult(code: seq<string>, s: int, d: int, c: int)
    requires var r := Loop(BackScan(code, s - 1), s, KindsOf(ScannedLines(code, s)), 0, Fresh);
      r.Success? && r.value.recorded && r.value.startBlock == d && r.value.endBlock == s + c + 1
    ensures ExtractAnchored(code, s) == Success(Join(PySlice(code, d, s + c + 2)))
  {
    ExtractRecorded(code, s, BackScan(code, s - 1), ScannedLines(code, s), d, s + c + 2);
  }

  /** The loop run of the situation above records the declaration and the
      line after the balancing one. */
  lemma InsideRun(code: seq<string>, s: int, d: int, c: int)
    requires 0 < d < s < |code|
    requires IsDeclaration(code[d])
    requires forall t {:trigger IsMarker(code[t])} :: d < t < s ==> !IsMarker(code[t])
    requires 0 <= c < |code| - s
    requires forall t {:trigger IsDeclaration(code[t])} :: s <= t <= s + c ==> !IsDeclaration(code[t])
    requires forall k :: 0 <= k < c ==> !BalancedAt(code, s, d, k)
    requires BalancedAt(code, s, d, c)
    ensures var r := Loop(BackScan(code, s - 1), s, KindsOf(ScannedLines(code, s)), 0, Fresh);
      r.Success? && r.value.recorded && r.value.startBlock == d && r.value.endBlock == s + c + 1
  {
    BackScanNearest(code, s, d);
    assert BackScan(code, s - 1) == FoundAt(code, d);
    assert ScannedLines(code, s) == code[s..];
    if c == 0 {
      InsideAtOnce(code, s, d);
    } else {
      InsideLater(code, s, d, c);
    }
  }

  /** The counters balance on the anchor line itself. */
  lemma InsideAtOnce(code: seq<string>, s: int, d: int)
    requires 0 < d < s < |code|
    requires !IsDeclaration(code[s])
    requires BalancedAt(code, s, d, 0)
    ensures var r := Loop(FoundAt(code, d), s, KindsOf(code[s..]), 0, Fresh);
      r.Success? && r.value.recorded && r.value.startBlock == d && r.value.endBlock == s + 1
  {
    assert KindsOf(code[s..])[0] == KindOf(code[s]);
    FirstStep(code, s, d);
    var st1 := AnchoredState(true, d, Seeded(code[d]), Closers(code, s, s + 1), 0, 0, false);
    assert Openers(code, s + 1, s + 1) == 0;
    assert Balanced(st1);
    assert Finished(Close(s, 0, st1));
  }

  /** The counters first balance `c >= 1` lines after the anchor. */
  lemma InsideLater(code: seq<string>, s: int, d: int, c: int)
    requires 0 < d < s < |code|
    requires 1 <= c < |code| - s
    requires forall t {:trigger IsDeclaration(code[t])} :: s <= t <= s + c ==> !IsDeclaration(code[t])
    requires forall k :: 0 <= k < c ==> !BalancedAt(code, s, d, k)
    requires BalancedAt(code, s, d, c)
    ensures var r := Loop(FoundAt(code, d), s, KindsOf(code[s..]), 0, Fresh);
      r.Success? && r.value.recorded && r.value.startBlock == d && r.value.endBlock == s + c + 1
  {
    var ks := KindsOf(code[s..]);
    assert ks[0] == KindOf(code[s]);
    FirstStep(code, s, d);
    var st1 := AnchoredState(true, d, Seeded(code[d]), Closers(code, s, s + 1), 0, 0, false);
    assert Openers(code, s + 1, s + 1) == 0;
    assert !BalancedAt(code, s, d, 0);
    assert !Balanced(st1);
    assert st1 == Inside(code, s, d, 1);
    assert Loop(FoundAt(code, d), s, ks, 0, Fresh) == Loop(FoundAt(code, d), s, ks, 1, st1);
    InsideLoop(code, s, d, c, 1);
  }

  /** The first iteration when the anchor line is not a declaration and
      the backward scan found one at `d`. */
  lemma FirstStep(code: seq<string>, s: int, d: int)
    requires 0 < d < s < |code|
    requires !IsDeclaration(code[s])
    ensures Step(FoundAt(code, d), s, 0, KindOf(code[s]), Fresh)
         == Success(Close(s, 0, AnchoredState(true, d, Seeded(code[d]), Closers(code, s, s + 1), 0, 0, false)))
  {
    var s3 := Fresh.(closing := Closers(code, s, s + 1));
    assert Seed(FoundAt(code, d), s, s3) == Success(s3.(inside := true, functionLine := d, opening := Seeded(code[d])));
  }

  /** The loop from iteration `k` of the situation above. */
  lemma {:induction false} InsideLoop(code: seq<string>, s: int, d: int, c: int, k: int)
    requires 0 < d < s < |code|
    requires 1 <= k <= c < |code| - s
    requires forall t {:trigger IsDeclaration(code[t])} :: s <= t <= s + c ==> !IsDeclaration(code[t])
    requires forall j :: 0 <= j < c ==> !BalancedAt(code, s, d, j)
    requires BalancedAt(code, s, d, c)
    ensures var r := Loop(FoundAt(code, d), s, KindsOf(code[s..]), k, Inside(code, s, d, k));
      r.Success? && r.value.recorded && r.value.startBlock == d && r.value.endBlock == s + c + 1
    decreases c - k
  {
    assert KindsOf(code[s..])[k] == KindOf(code[s + k]);
    InsideStep(code, s, d, k);
    var next := Inside(code, s, d, k + 1);
    if k < c {
      assert !BalancedAt(code, s, d, k);
      assert !Balanced(next);
      InsideLoop(code, s, d, c, k + 1);
    } else {
      assert BalancedAt(code, s, d, k);
      assert Balanced(next);
    }
  }

  /** One line past the anchor inside the function declared at `d`. */
  lemma InsideStep(code: seq<string>, s: int, d: int, k: int)
    requires 0 < d < s < |code|
    requires 1 <= k < |code| - s
    requires !IsDeclaration(code[s + k])
    ensures Step(FoundAt(code, d), s, k, KindOf(code[s + k]), Inside(code, s, d, k))
         == Success(Close(s, k, Inside(code, s, d, k + 1)))
  {
  }

  /** A reported line outside any function: when the nearest `function` or
      `contract` line below the anchor `s` is a contract line, the block is
      the anchor line and the line after it, unless the anchor line itself
      ends with `}`; then, with no declaration after the anchor, the
      counters never balance and the result is "". */
  lemma AnchorOutsideFunction(code: seq<string>, s: int, j: int)
    requires 0 <= j < s < |code|
    requires IsContractLine(code[j]) && !IsDeclaration(code[j])
    requires forall t {:trigger IsMarker(code[t])} :: j < t < s ==> !IsMarker(code[t])
    requires !IsDeclaration(code[s])
    ensures !EndsWithBrace(code[s]) ==>
      ExtractAnchored(code, s) == Success(Join(PySlice(code, s, s + 2)))
    ensures EndsWithBrace(code[s]) && (forall t {:trigger IsDeclaration(code[t])} :: s < t < |code| ==> !IsDeclaration(code[t])) ==>
      ExtractAnchored(code, s) == Success("")
  {
    BackScanNearest(code, s, j);
    if !EndsWithBrace(code[s]) {
      OutsideClosed(code, s, j);
      ExtractRecorded(code, s, Success(ContractAt(j)), code[s..], s, s + 2);
    } else if forall t {:trigger IsDeclaration(code[t])} :: s < t < |code| ==> !IsDeclaration(code[t]) {
      OutsideOpen(code, s, j);
      ExtractNothing(code, s, Success(ContractAt(j)), code[s..]);
    }
  }

  /** The anchor line does not end with `}`: the block closes at once. */
  lemma OutsideClosed(code: seq<string>, s: int, j: int)
    requires 0 <= j < s < |code|
    requires !IsDeclaration(code[s]) && !EndsWithBrace(code[s])
    ensures var r := Loop(Success(ContractAt(j)), s, KindsOf(code[s..]), 0, Fresh);
      r.Success? && r.value.recorded && r.value.startBlock == s && r.value.endBlock == s + 1
  {
    var ks := KindsOf(code[s..]);
    assert ks[0] == KindOf(code[s]);
    OutsideFirstStep(code, s, j);
    var st := AnchoredState(false, s, 0, 0, s, s + 1, true);
    assert Finished(st);
  }

  /** The anchor line ends with `}` and no declaration follows: the
      counters never balance. */
  lemma OutsideOpen(code: seq<string>, s: int, j: int)
    requires 0 <= j < s < |code|
    requires !IsDeclaration(code[s]) && EndsWithBrace(code[s])
    requires forall t {:trigger IsDeclaration(code[t])} :: s < t < |code| ==> !IsDeclaration(code[t])
    ensures var r := Loop(Success(ContractAt(j)), s, KindsOf(code[s..]), 0, Fresh);
      r.Success? && !r.value.recorded
  {
    var ks := KindsOf(code[s..]);
    assert ks[0] == KindOf(code[s]);
    OutsideFirstStep(code, s, j);
    forall t | 1 <= t < |ks|
      ensures !ks[t].declaration
    {
      assert ks[t] == KindOf(code[s + t]);
    }
    var st := AnchoredState(false, s, 0, 1, 0, 0, false);
    assert !Finished(st);
    assert Loop(Success(ContractAt(j)), s, ks, 0, Fresh) == Loop(Success(ContractAt(j)), s, ks, 1, st);
    NeverBalanced(Success(ContractAt(j)), s, ks, 1, st);
  }

  /** The first iteration when the backward scan found a contract line:
      the anchor is recorded as the start, and the block is closed at once
      unless the anchor line ends with `}`. */
  lemma OutsideFirstStep(code: seq<string>, s: int, j: int)
    requires 0 <= j < s < |code|
    requires !IsDeclaration(code[s])
    ensures Step(Success(ContractAt(j)), s, 0, KindOf(code[s]), Fresh)
         == Success(if EndsWithBrace(code[s]) then AnchoredState(false, s, 0, 1, 0, 0, false)
                    else AnchoredState(false, s, 0, 0, s, s + 1, true))
  {
    var c := if EndsWithBrace(code[s]) then 1 else 0;
    assert Seed(Success(ContractAt(j)), s, Fresh.(closing := c)) == Success(AnchoredState(false, s, 0, c, 0, 0, false));
  }

  /** Outside any function with no declaration ahead, `opening` stays 0
      while `closing` is already positive, so no block is ever recorded. */
  lemma {:induction false} NeverBalanced(hit: Result<BackHit, Fault>, s: int, ks: seq<LineKind>, k: nat, st: AnchoredState)
    requires 1 <= k <= |ks|
    requires !st.inside && st.opening == 0 && st.closing >= 1
    requires st.startBlock == 0 && st.endBlock == 0 && !st.recorded
    requires forall t :: k <= t < |ks| ==> !ks[t].declaration
    ensures Loop(hit, s, ks, k, st).Success? && !Loop(hit, s, ks, k, st).value.recorded
    decreases |ks| - k
  {
    if k < |ks| {
      var r := Step(hit, s, k, ks[k], st);
      assert r.Success? && r.value == st.(closing := r.value.closing);
      assert !Finished(r.value);
      NeverBalanced(hit, s, ks, k + 1, r.value);
    }
  }

  /** In whole-file mode the counters, from the first declaration `d`,
      balance at line `i`: the `{` lines from the declaration on against
      every `}`-ending line from the top of the file. */
  predicate WholeBalancedAt(code: seq<string>, d: int, i: int)
    requires 0 <= d <= i < |code|
  {
    Openers(code, d, i + 1) == Closers(code, 0, i + 1)
  }

  /** The state before the first declaration: only `closing` has moved. */
  function Before(code: seq<string>, k: int): AnchoredState
    requires 0 <= k <= |code|
  {
    Fresh.(closing := Closers(code, 0, k))
  }

  /** The state after line `k - 1` inside the function declared at `d`. */
  function WholeInside(code: seq<string>, d: int, k: int): AnchoredState
    requires 0 <= d < k <= |code|
  {
    AnchoredState(true, d + 1, Openers(code, d, k), Closers(code, 0, k), 0, 0, false)
  }

  /** Whole-file mode (`start_line` 0, which Python treats as unset): for
      the first declaration `d`, with no declaration after it before the
      counters first balance at a later line `e`, the block starts one
      line AFTER the declaration, because the recorded start is the
      1-based `i + 1`, and ends one line after `e`. */
  lemma AnchorWholeFile(code: seq<string>, d: int, e: int)
    requires 0 <= d < e < |code|
    requires IsDeclaration(code[d]) && HasSignature(code[d])
    requires forall t {:trigger IsDeclaration(code[t])} :: 0 <= t < d ==> !IsDeclaration(code[t])
    requires forall t {:trigger IsDeclaration(code[t])} :: d < t <= e ==> !IsDeclaration(code[t])
    requires forall i :: d <= i < e ==> !WholeBalancedAt(code, d, i)
    requires WholeBalancedAt(code, d, e)
    ensures ExtractAnchored(code, 0) == Success(Join(PySlice(code, d + 1, e + 2)))
  {
    WholeRun(BackScan(code, -1), code, d, e);
    WholeResult(code, d, e);
  }

  /** The recorded bounds of `WholeRun`, as the extractor's result. */
  lemma WholeResult(code: seq<string>, d: int, e: int)
    requires var r := Loop(BackScan(code, -1), 0, KindsOf(code), 0, Fresh);
      r.Success? && r.value.recorded && r.value.startBlock == d + 1 && r.value.endBlock == e + 1
    ensures ExtractAnchored(code, 0) == Success(Join(PySlice(code, d + 1, e + 2)))
  {
    ExtractRecorded(code, 0, BackScan(code, -1), code, d + 1, e + 2);
  }

  /** The whole-file loop run of the situation above records the line
      after the declaration and the line after the balancing one. */
  lemma WholeRun(hit: Result<BackHit, Fault>, code: seq<string>, d: int, e: int)
    requires 0 <= d < e < |code|
    requires IsDeclaration(code[d]) && HasSignature(code[d])
    requires forall t {:trigger IsDeclaration(code[t])} :: 0 <= t < d ==> !IsDeclaration(code[t])
    requires forall t {:trigger IsDeclaration(code[t])} :: d < t <= e ==> !IsDeclaration(code[t])
    requires forall i :: d <= i < e ==> !WholeBalancedAt(code, d, i)
    requires WholeBalancedAt(code, d, e)
    ensures var r := Loop(hit, 0, KindsOf(code), 0, Fresh);
      r.Success? && r.value.recorded && r.value.startBlock == d + 1 && r.value.endBlock == e + 1
  {
    var ks := KindsOf(code);
    assert Before(code, 0) == Fresh;
    BeforeLoop(hit, code, d, 0);
    assert !WholeBalancedAt(code, d, d);
    DeclarationStep(hit, code, d);
    assert ks[d] == KindOf(code[d]);
    assert !Finished(WholeInside(code, d, d + 1));
    assert Loop(hit, 0, ks, d, Before(code, d)) == Loop(hit, 0, ks, d + 1, WholeInside(code, d, d + 1));
    WholeLoop(hit, code, d, e, d + 1);
  }

  /** The lines before the first declaration only count closers. */
  lemma {:induction false} BeforeLoop(hit: Result<BackHit, Fault>, code: seq<string>, d: int, k: int)
    requires 0 <= k <= d < |code|
    requires forall t {:trigger IsDeclaration(code[t])} :: 0 <= t < d ==> !IsDeclaration(code[t])
    ensures Loop(hit, 0, KindsOf(code), k, Before(code, k)) == Loop(hit, 0, KindsOf(code), d, Before(code, d))
    decreases d - k
  {
    if k < d {
      assert KindsOf(code)[k] == KindOf(code[k]);
      assert Step(hit, 0, k, KindOf(code[k]), Before(code, k)) == Success(Before(code, k + 1));
      BeforeLoop(hit, code, d, k + 1);
    }
  }

  /** The declaration line enters the function and counts its own `{`. */
  lemma DeclarationStep(hit: Result<BackHit, Fault>, code: seq<string>, d: int)
    requires 0 <= d < |code| - 1
    requires IsDeclaration(code[d]) && HasSignature(code[d])
    requires !WholeBalancedAt(code, d, d)
    ensures Step(hit, 0, d, KindOf(code[d]), Before(code, d)) == Success(WholeInside(code, d, d + 1))
  {
    var s3 := WholeInside(code, d, d + 1);
    assert Openers(code, d, d + 1) == (if '{' in code[d] then 1 else 0);
    assert !Balanced(s3);
    assert Step(hit, 0, d, KindOf(code[d]), Before(code, d)) == Success(Close(0, d, s3));
  }

  /** The loop inside the function from line `k` until it balances at `e`. */
  lemma {:induction false} WholeLoop(hit: Result<BackHit, Fault>, code: seq<string>, d: int, e: int, k: int)
    requires 0 <= d < k <= e < |code|
    requires forall t {:trigger IsDeclaration(code[t])} :: d < t <= e ==> !IsDeclaration(code[t])
    requires forall i :: d <= i < e ==> !WholeBalancedAt(code, d, i)
    requires WholeBalancedAt(code, d, e)
    ensures var r := Loop(hit, 0, KindsOf(code), k, WholeInside(code, d, k));
      r.Success? && r.value.recorded && r.value.startBlock == d + 1 && r.value.endBlock == e + 1
    decreases e - k
  {
    var ks := KindsOf(code);
    assert ks[k] == KindOf(code[k]);
    var next := WholeInside(code, d, k + 1);
    WholeStep(hit, code, d, k);
    if k < e {
      assert !WholeBalancedAt(code, d, k);
      assert Close(0, k, next) == next;
      assert Loop(hit, 0, ks, k, WholeInside(code, d, k)) == Loop(hit, 0, ks, k + 1, next);
      WholeLoop(hit, code, d, e, k + 1);
    } else {
      assert Balanced(next);
      assert Finished(Close(0, k, next));
    }
  }

  /** One line inside the function in whole-file mode. */
  lemma WholeStep(hit: Result<BackHit, Fault>, code: seq<string>, d: int, k: int)
    requires 0 <= d < k < |code|
    requires !IsDeclaration(code[k])
    ensures Step(hit, 0, k, KindOf(code[k]), WholeInside(code, d, k))
         == Success(Close(0, k, WholeInside(code, d, k + 1)))
  {
  }
}
