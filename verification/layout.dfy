/** What the whole-file scanner finds in a file it was written for:
    lines between functions that do not mention `function` (contract,
    library and interface lines, their closing braces, state variables,
    comments), one-line functions, and functions whose header opens with
    `{`, whose body lines are quiet, and whose last line closes. Exactly
    one boundary per function comes out, at its first and last lines. */
module Layout {
  import opened Wrappers
  import opened Records
  import opened Enumerate
  import opened Samples

  /** A run of `n` lines between functions, a function on one line, or a
      function with `body` quiet lines between its header and footer. */
  datatype Chunk = Gap(n: nat) | Single | Func(body: nat)

  function Size(c: Chunk): nat {
    match c
    case Gap(n) => n
    case Single => 1
    case Func(b) => b + 2
  }

  /** A line between functions: anything that does not mention `function`. */
  predicate Between(f: LineFacts) {
    !f.mentions
  }

  /** A body line the scanner passes over: no wrapper keyword, no
      `function`, no `{`, and no closing. */
  predicate Quiet(f: LineFacts) {
    !f.wrapper && !f.mentions && !f.opens && !f.closes
  }

  /** A whole function on one line: it mentions `function` and closes. */
  predicate OneLiner(f: LineFacts) {
    f.mentions && f.closes
  }

  /** A function's first line: it mentions `function` and holds `{`. */
  predicate Header(f: LineFacts) {
    f.mentions && f.opens && !f.closes
  }

  /** A function's last line: it closes, and holds no `{`. */
  predicate Footer(f: LineFacts) {
    !f.mentions && !f.opens && f.closes
  }

  predicate AllBetween(fs: seq<LineFacts>, a: int, b: int)
    requires 0 <= a <= b <= |fs|
  {
    forall t :: a <= t < b ==> Between(fs[t])
  }

  predicate AllQuiet(fs: seq<LineFacts>, a: int, b: int)
    requires 0 <= a <= b <= |fs|
  {
    forall t :: a <= t < b ==> Quiet(fs[t])
  }

  predicate ChunkAt(fs: seq<LineFacts>, c: Chunk, pos: nat)
    requires pos + Size(c) <= |fs|
  {
    match c
    case Gap(n) => AllBetween(fs, pos, pos + n)
    case Single => OneLiner(fs[pos])
    case Func(b) => Header(fs[pos]) && AllQuiet(fs, pos + 1, pos + b + 1) && Footer(fs[pos + b + 1])
  }

  /** The lines from `pos` on are laid out as `cs`. */
  predicate Laid(fs: seq<LineFacts>, cs: seq<Chunk>, pos: nat)
    decreases |cs|
  {
    if |cs| == 0 then pos == |fs|
    else pos + Size(cs[0]) <= |fs| && ChunkAt(fs, cs[0], pos) && Laid(fs, cs[1..], pos + Size(cs[0]))
  }

  /** The boundaries the layout calls for: one per function, from its
      first line to its last. */
  function Expected(cs: seq<Chunk>, pos: int): seq<Emission>
    decreases |cs|
  {
    if |cs| == 0 then []
    else
      match cs[0]
      case Gap(n) => Expected(cs[1..], pos + n)
      case Single => [Emission(pos, pos, pos)] + Expected(cs[1..], pos + 1)
      case Func(b) => [Emission(pos, pos, pos + b + 1)] + Expected(cs[1..], pos + b + 2)
  }

  function FunctionCount(cs: seq<Chunk>): nat {
    if |cs| == 0 then 0 else (if cs[0].Gap? then 0 else 1) + FunctionCount(cs[1..])
  }

  /** Outside any function, with an empty stack; the wrapper flag may be
      either way. */
  predicate Idle(st: ScanState) {
    !st.inside && st.depth == 0
  }

  /** The state after the lines `fs[a..b]`, emissions set aside. */
  function StateAfter(fs: seq<LineFacts>, a: nat, b: nat, st: ScanState): ScanState
    requires a <= b <= |fs|
    decreases b - a
  {
    if a == b then st else StateAfter(fs, a + 1, b, Step(st, a, fs[a]).state)
  }

  /** A line between functions emits nothing and at most raises the
      wrapper flag. */
  lemma BetweenStep(st: ScanState, i: int, f: LineFacts)
    requires Idle(st) && Between(f)
    ensures Step(st, i, f) == StepResult(st.(wrapper := st.wrapper || f.wrapper), None)
  {
  }

  /** Lines between functions keep the scan idle. */
  lemma {:induction false} BetweenIdle(fs: seq<LineFacts>, a: nat, b: nat, st: ScanState)
    requires a <= b <= |fs| && AllBetween(fs, a, b) && Idle(st)
    ensures Idle(StateAfter(fs, a, b, st))
    decreases b - a
  {
    if a < b {
      BetweenStep(st, a, fs[a]);
      BetweenIdle(fs, a + 1, b, st.(wrapper := st.wrapper || fs[a].wrapper));
    }
  }

  /** Lines between functions emit nothing. */
  lemma {:induction false} BetweenRun(fs: seq<LineFacts>, a: nat, b: nat, st: ScanState)
    requires a <= b <= |fs| && AllBetween(fs, a, b) && Idle(st)
    ensures Scan(fs, a, st) == Scan(fs, b, StateAfter(fs, a, b, st))
    decreases b - a
  {
    if a < b {
      var next := st.(wrapper := st.wrapper || fs[a].wrapper);
      BetweenStep(st, a, fs[a]);
      assert Scan(fs, a, st) == Scan(fs, a + 1, next);
      BetweenRun(fs, a + 1, b, next);
    }
  }

  /** A quiet line leaves the state of an open function as it is. */
  lemma QuietStep(st: ScanState, i: int, f: LineFacts)
    requires st.inside && Quiet(f)
    ensures Step(st, i, f) == StepResult(st, None)
  {
  }

  /** Quiet lines leave the state of an open function as it is. */
  lemma {:induction false} QuietRun(fs: seq<LineFacts>, a: nat, b: nat, st: ScanState)
    requires a <= b <= |fs| && AllQuiet(fs, a, b) && st.inside
    ensures Scan(fs, a, st) == Scan(fs, b, st)
    decreases b - a
  {
    if a < b {
      QuietStep(st, a, fs[a]);
      assert Scan(fs, a, st) == Scan(fs, a + 1, st);
      QuietRun(fs, a + 1, b, st);
    }
  }

  /** The state after a function: closed, at depth 0, having started at
      `pos`, with the wrapper flag raised by any wrapper line it held. */
  function Closed(st: ScanState, pos: nat, w: bool): ScanState {
    ScanState(false, pos, 0, st.wrapper || w, pos)
  }

  /** A one-line function is entered and left on its line. */
  lemma SingleChunk(fs: seq<LineFacts>, pos: nat, st: ScanState)
    requires pos < |fs| && OneLiner(fs[pos]) && Idle(st)
    ensures Scan(fs, pos, st)
         == [Emission(pos, pos, pos)] + Scan(fs, pos + 1, Closed(st, pos, fs[pos].wrapper))
  {
    assert Step(st, pos, fs[pos])
        == StepResult(Closed(st, pos, fs[pos].wrapper), Some(Emission(pos, pos, pos)));
  }

  /** A function chunk: the header enters with one marker, the footer
      pops it and emits. */
  lemma FuncChunk(fs: seq<LineFacts>, b: nat, pos: nat, st: ScanState)
    requires pos + b + 2 <= |fs| && ChunkAt(fs, Func(b), pos) && Idle(st)
    ensures var e := pos + b + 1;
      Scan(fs, pos, st)
        == [Emission(pos, pos, e)] + Scan(fs, e + 1, Closed(st, pos, fs[pos].wrapper || fs[e].wrapper))
  {
    var s1 := ScanState(true, pos, 1, st.wrapper || fs[pos].wrapper, pos);
    assert Step(st, pos, fs[pos]) == StepResult(s1, None);
    QuietRun(fs, pos + 1, pos + b + 1, s1);
    var e := pos + b + 1;
    var s2 := Closed(st, pos, fs[pos].wrapper || fs[e].wrapper);
    assert Step(s1, e, fs[e]) == StepResult(s2, Some(Emission(pos, pos, e)));
  }

  /** The state after the chunk `c` at `pos`. */
  function AfterChunk(fs: seq<LineFacts>, c: Chunk, pos: nat, st: ScanState): ScanState
    requires pos + Size(c) <= |fs|
  {
    match c
    case Gap(n) => StateAfter(fs, pos, pos + n, st)
    case Single => Closed(st, pos, fs[pos].wrapper)
    case Func(b) => Closed(st, pos, fs[pos].wrapper || fs[pos + b + 1].wrapper)
  }

  /** The first chunk fits, is in place, and the rest is laid out after it. */
  lemma LaidFirst(fs: seq<LineFacts>, cs: seq<Chunk>, pos: nat)
    requires Laid(fs, cs, pos) && |cs| > 0
    ensures pos + Size(cs[0]) <= |fs| && ChunkAt(fs, cs[0], pos)
    ensures Laid(fs, cs[1..], pos + Size(cs[0]))
  {
  }

  /** Every chunk leaves the scan idle. */
  lemma ChunkIdle(fs: seq<LineFacts>, c: Chunk, pos: nat, st: ScanState)
    requires pos + Size(c) <= |fs| && ChunkAt(fs, c, pos) && Idle(st)
    ensures Idle(AfterChunk(fs, c, pos, st))
  {
    if c.Gap? {
      BetweenIdle(fs, pos, pos + c.n, st);
    }
  }

  /** The scan of a laid-out file, from any idle state, finds exactly the
      boundaries the layout calls for. */
  lemma {:induction false} ScanLaid(fs: seq<LineFacts>, cs: seq<Chunk>, pos: nat, st: ScanState)
    requires Laid(fs, cs, pos) && Idle(st)
    ensures Scan(fs, pos, st) == Expected(cs, pos)
    decreases |cs|
  {
    if |cs| > 0 {
      LaidFirst(fs, cs, pos);
      var after := AfterChunk(fs, cs[0], pos, st);
      ChunkIdle(fs, cs[0], pos, st);
      ScanLaid(fs, cs[1..], pos + Size(cs[0]), after);
      ChunkFirst(fs, cs, pos, st);
    }
  }

  /** The first chunk adds its boundaries in front of the rest. */
  lemma ChunkFirst(fs: seq<LineFacts>, cs: seq<Chunk>, pos: nat, st: ScanState)
    requires Laid(fs, cs, pos) && Idle(st) && |cs| > 0
    requires pos + Size(cs[0]) <= |fs|
    requires Scan(fs, pos + Size(cs[0]), AfterChunk(fs, cs[0], pos, st)) == Expected(cs[1..], pos + Size(cs[0]))
    ensures Scan(fs, pos, st) == Expected(cs, pos)
  {
    match cs[0]
    case Gap(n) => GapFirst(fs, cs, pos, st);
    case Single => SingleFirst(fs, cs, pos, st);
    case Func(b) => FuncFirst(fs, cs, pos, st);
  }

  /** A leading run of lines between functions adds no boundary. */
  lemma GapFirst(fs: seq<LineFacts>, cs: seq<Chunk>, pos: nat, st: ScanState)
    requires Laid(fs, cs, pos) && Idle(st) && |cs| > 0 && cs[0].Gap?
    requires var n := cs[0].n;
      pos + n <= |fs| && Scan(fs, pos + n, StateAfter(fs, pos, pos + n, st)) == Expected(cs[1..], pos + n)
    ensures Scan(fs, pos, st) == Expected(cs, pos)
  {
    BetweenRun(fs, pos, pos + cs[0].n, st);
  }

  /** A leading one-line function adds its boundary in front of the rest. */
  lemma SingleFirst(fs: seq<LineFacts>, cs: seq<Chunk>, pos: nat, st: ScanState)
    requires Laid(fs, cs, pos) && Idle(st) && |cs| > 0 && cs[0].Single?
    requires pos < |fs| && Scan(fs, pos + 1, Closed(st, pos, fs[pos].wrapper)) == Expected(cs[1..], pos + 1)
    ensures Scan(fs, pos, st) == Expected(cs, pos)
  {
    assert ChunkAt(fs, Single, pos);
    SingleChunk(fs, pos, st);
  }

  /** A leading function adds its one boundary in front of the rest. */
  lemma FuncFirst(fs: seq<LineFacts>, cs: seq<Chunk>, pos: nat, st: ScanState)
    requires Laid(fs, cs, pos) && Idle(st) && |cs| > 0 && cs[0].Func?
    requires var e := pos + cs[0].body + 1;
      e < |fs| && Scan(fs, e + 1, Closed(st, pos, fs[pos].wrapper || fs[e].wrapper)) == Expected(cs[1..], e + 1)
    ensures Scan(fs, pos, st) == Expected(cs, pos)
  {
    var b := cs[0].body;
    assert cs[0] == Func(b);
    assert pos + b + 2 <= |fs| && ChunkAt(fs, Func(b), pos);
    FuncChunk(fs, b, pos, st);
    assert Expected(cs, pos) == [Emission(pos, pos, pos + b + 1)] + Expected(cs[1..], pos + b + 2);
  }

  lemma {:induction false} ExpectedCount(cs: seq<Chunk>, pos: int)
    ensures |Expected(cs, pos)| == FunctionCount(cs)
    decreases |cs|
  {
    if |cs| > 0 {
      match cs[0]
      case Gap(n) => ExpectedCount(cs[1..], pos + n);
      case Single => ExpectedCount(cs[1..], pos + 1);
      case Func(b) => ExpectedCount(cs[1..], pos + b + 2);
    }
  }

  /** A file whose lines are laid out as `cs` yields one boundary per
      function, at its header and footer, in order. */
  lemma LaidOutFile(lines: seq<string>, cs: seq<Chunk>)
    requires Laid(ClassifyAll(lines), cs, 0)
    ensures Boundaries(lines) == Expected(cs, 0)
    ensures |Boundaries(lines)| == FunctionCount(cs)
  {
    ScanLaid(ClassifyAll(lines), cs, 0, Initial);
    ExpectedCount(cs, 0);
  }

  /** The lines of a small contract: `contract C {`, `function f() {`,
      `x = 1;`, `}`, `}`. */
  predicate ContractFile(lines: seq<string>) {
    && |lines| == 5
    && lines[0] == ContractLine
    && lines[1] == HeaderLine
    && lines[2] == BodyLine
    && lines[3] == BraceLine
    && lines[4] == BraceLine
  }

  /** The scan over the classified lines of such a contract. */
  lemma ContractScan(fs: seq<LineFacts>)
    requires |fs| == 5 && fs[0] == ContractFacts && fs[1] == HeaderFacts && fs[2] == BodyFacts
    requires fs[3] == BraceFacts && fs[4] == BraceFacts
    ensures Scan(fs, 0, Initial) == [Emission(1, 1, 3)]
  {
    var cs := [Gap(1), Func(1), Gap(1)];
    assert Laid(fs, cs[3..], 5);
    assert Laid(fs, cs[2..], 4);
    assert Laid(fs, cs[1..], 1);
    assert Laid(fs, cs, 0);
    ScanLaid(fs, cs, 0, Initial);
  }

  /** In that contract the function is found, from its header to its
      closing brace, and the contract's own closing brace ends nothing. */
  lemma ContractExample(lines: seq<string>)
    requires ContractFile(lines)
    ensures Boundaries(lines) == [Emission(1, 1, 3)]
  {
    ContractClassified();
    HeaderClassified();
    BodyClassified();
    BraceClassified();
    ContractScan(ClassifyAll(lines));
  }
}
