/** The pipeline-registry scanner `extract_sanctuary_functions(code,
    vulnerable_line, source)`: the whole-file scanner run over the lines
    from the reported line on, with one extra branch on the first line. If
    that line does not open a function, a backward scan from the reported
    line looks for the function it belongs to. Boundaries are indices into
    the scanned lines, but the code is cut from the whole file.

    The module never imports `re`, so its close test raises NameError
    whenever it has to call `re.search`. `RegistryStep` and the members
    built on it are the scanner as intended, with `re` imported;
    `WrittenStep` and the members built on it are the scanner as written. */
module Registry {
  import opened Wrappers
  import opened PyStr
  import opened Patterns
  import opened Records
  import opened Backward
  import opened Enumerate
  import opened Samples

  /** `code[vulnerable_line:] if vulnerable_line else code`. */
  function RegistryLines(code: seq<string>, vl: int): (lines: seq<string>)
    ensures vl == 0 ==> lines == code
    ensures 0 < vl <= |code| ==> lines == code[vl..]
  {
    if vl != 0 then PySlice(code, vl, |code|) else code
  }

  /** The backward-scan branch: on the first line, when no function has
      been entered and a line was reported. A declaration found below the
      reported line opens the function there (pushing `{` if that line
      holds one); a contract line leaves the scan outside any function. */
  function BackPhase(code: seq<string>, vl: int, i: int, st: ScanState): Result<ScanState, Fault> {
    if !st.inside && i == 0 && vl != 0 then
      match BackScan(code, vl - 1)
      case Failure(e) => Failure(e)
      case Success(FunctionAt(k, text)) =>
        Success(st.(inside := true, startLine := k,
                    depth := if '{' in text then st.depth + 1 else st.depth))
      case Success(ContractAt(_)) => Success(st.(inside := false, startLine := vl))
    else Success(st)
  }

  /** One iteration of the registry loop: the phases of the whole-file
      step with the backward-scan branch between the push and the pops. */
  function RegistryStep(code: seq<string>, vl: int, i: int, f: LineFacts, st: ScanState)
    : (r: Result<StepResult, Fault>)
    ensures r.Failure? ==>
      i == 0 && vl != 0 && !st.inside && !f.mentions && r.error == IndexError
    ensures (i != 0 || vl == 0 || st.inside || f.mentions) ==> r == Success(Step(st, i, f))
    ensures r.Success? ==> r.value.state.depth <= BaseDepth(st, f) + 1
    ensures r.Success? && r.value.emitted.Some? ==>
      && r.value.state.depth == 0 && !r.value.state.inside && f.closes
      && r.value.emitted.value.end == i
  {
    var s3 := PushPhase(DeclarationPhase(WrapperPhase(st, f), i, f), f);
    match BackPhase(code, vl, i, s3)
    case Failure(e) => Failure(e)
    case Success(s4) => Success(ClosePhase(WrapperPopPhase(s4, f), i, f))
  }

  /** The loop from line `i` on; an exception in the backward scan ends
      the call with no rows. */
  function RegistryLoop(code: seq<string>, vl: int, fs: seq<LineFacts>, i: nat, st: ScanState)
    : Result<seq<Emission>, Fault>
    requires i <= |fs|
    decreases |fs| - i
  {
    if i == |fs| then Success([])
    else
      match RegistryStep(code, vl, i, fs[i], st)
      case Failure(e) => Failure(e)
      case Success(r) =>
        match RegistryLoop(code, vl, fs, i + 1, r.state)
        case Failure(e) => Failure(e)
        case Success(rest) => Success(EmissionsOf(r.emitted) + rest)
  }

  /** After the first line the registry loop is the whole-file loop. */
  lemma {:induction false} RegistryLater(code: seq<string>, vl: int, fs: seq<LineFacts>, i: nat, st: ScanState)
    requires 1 <= i <= |fs|
    ensures RegistryLoop(code, vl, fs, i, st) == Success(Scan(fs, i, st))
    decreases |fs| - i
  {
    if i < |fs| {
      var r := Step(st, i, fs[i]);
      assert RegistryStep(code, vl, i, fs[i], st) == Success(r);
      RegistryLater(code, vl, fs, i + 1, r.state);
    }
  }

  /** Without a reported line the registry scanner is the whole-file
      scanner: the same boundaries, from the first line on. */
  lemma RegistryWithoutLine(code: seq<string>)
    ensures RegistryLoop(code, 0, ClassifyAll(code), 0, Initial)
         == Success(Boundaries(code))
  {
    var fs := ClassifyAll(code);
    if |fs| > 0 {
      var r := Step(Initial, 0, fs[0]);
      assert RegistryStep(code, 0, 0, fs[0], Initial) == Success(r);
      RegistryLater(code, 0, fs, 1, r.state);
    }
  }

  /** An emission for the function the backward scan found: recorded with
      function index 0 and the scan's (absolute, possibly negative) line,
      closed by a line that no line mentioning `function` precedes. */
  predicate BackEmission(code: seq<string>, vl: int, fs: seq<LineFacts>, e: Emission) {
    && vl != 0
    && BackScan(code, vl - 1).Success?
    && BackScan(code, vl - 1).value.FunctionAt?
    && BackEmissionAt(BackScan(code, vl - 1).value.index, fs, e)
  }

  /** An emission for a function opened at line `b` before the scanned
      lines: function index 0, closed by a line that no line mentioning
      `function` precedes. */
  predicate BackEmissionAt(b: int, fs: seq<LineFacts>, e: Emission) {
    && e.index == 0
    && e.start == b
    && 0 <= e.end < |fs|
    && fs[e.end].closes
    && (forall t :: 0 <= t <= e.end ==> !fs[t].mentions)
  }

  /** A line mentioning `function` opens a function there, whatever the
      state: the next state is sound and any emission starts on this line. */
  lemma MentionStep(fs: seq<LineFacts>, i: nat, st: ScanState)
    requires i < |fs| && fs[i].mentions
    ensures var r := Step(st, i, fs[i]);
      && StateOk(fs, i + 1, r.state)
      && (r.emitted.Some? ==>
            && EmissionOk(fs, r.emitted.value) && r.emitted.value.start == i == r.emitted.value.end
            && !r.state.inside)
      && (r.emitted.None? ==> r.state.inside && r.state.startLine == i)
  {
    var s2 := DeclarationPhase(WrapperPhase(st, fs[i]), i, fs[i]);
    assert StateOk(fs, i + 1, s2);
  }

  /** The emissions `es` of the scan from line `i` on, while inside the
      function opened at `b` by the backward scan: disjoint and in order,
      ending at or after `i`, each sound except that the first may be the
      emission for that function. */
  predicate TailOk(b: int, fs: seq<LineFacts>, i: int, es: seq<Emission>) {
    && Ordered(es)
    && (forall k :: 0 <= k < |es| ==> i <= es[k].end)
    && (forall k :: 0 <= k < |es| ==> EmissionOk(fs, es[k]) || (k == 0 && BackEmissionAt(b, fs, es[k])))
  }

  /** The scan while inside the function the backward scan found: at most
      the first emission is for that function, the rest are sound. */
  lemma {:induction false} BackTailOk(b: int, fs: seq<LineFacts>, i: nat, st: ScanState)
    requires 1 <= i <= |fs|
    requires st.inside && st.funcIndex == 0 && st.startLine == b
    requires forall t :: 0 <= t < i ==> !fs[t].mentions
    ensures TailOk(b, fs, i, Scan(fs, i, st))
    decreases |fs| - i
  {
    if i < |fs| {
      var r := Step(st, i, fs[i]);
      if fs[i].mentions {
        MentionBack(b, fs, i, st);
      } else if r.emitted.Some? {
        BackClose(b, fs, i, st);
      } else {
        StillInside(st, i, fs[i]);
        BackTailOk(b, fs, i + 1, r.state);
        TailSkip(b, fs, i, st);
      }
    }
  }

  /** A line that emits nothing passes the tail property back one line. */
  lemma TailSkip(b: int, fs: seq<LineFacts>, i: nat, st: ScanState)
    requires i < |fs| && Step(st, i, fs[i]).emitted.None?
    requires TailOk(b, fs, i + 1, Scan(fs, i + 1, Step(st, i, fs[i]).state))
    ensures TailOk(b, fs, i, Scan(fs, i, st))
  {
    assert Scan(fs, i, st) == Scan(fs, i + 1, Step(st, i, fs[i]).state);
  }

  /** From a line mentioning `function` on, no emission is for the
      function the backward scan found. */
  lemma MentionBack(b: int, fs: seq<LineFacts>, i: nat, st: ScanState)
    requires i < |fs| && fs[i].mentions
    ensures TailOk(b, fs, i, Scan(fs, i, st))
  {
    MentionTail(fs, i, st);
  }

  /** A line without `function` that emits nothing leaves the open
      function's start and index alone. */
  lemma StillInside(st: ScanState, i: int, f: LineFacts)
    requires st.inside && !f.mentions && Step(st, i, f).emitted.None?
    ensures var s := Step(st, i, f).state;
      s.inside && s.funcIndex == st.funcIndex && s.startLine == st.startLine
  {
  }

  /** From a line mentioning `function` on, every emission is sound. */
  lemma MentionTail(fs: seq<LineFacts>, i: nat, st: ScanState)
    requires i < |fs| && fs[i].mentions
    ensures var es := Scan(fs, i, st);
      && Ordered(es)
      && (forall k :: 0 <= k < |es| ==> i <= es[k].end && EmissionOk(fs, es[k]))
  {
    var r := Step(st, i, fs[i]);
    var rest := Scan(fs, i + 1, r.state);
    assert Scan(fs, i, st) == EmissionsOf(r.emitted) + rest;
    MentionStep(fs, i, st);
    ScanOk(fs, i + 1, r.state);
    var lo := Earliest(i + 1, r.state);
    assert forall k :: 0 <= k < |rest| ==> EmissionOk(fs, rest[k]) && lo <= rest[k].start && i + 1 <= rest[k].end;
    if r.emitted.Some? {
      assert lo == i + 1;
      ConsSound(fs, r.emitted.value, rest, i, i);
    }
  }

  /** The line that closes the function the backward scan found. */
  lemma BackClose(b: int, fs: seq<LineFacts>, i: nat, st: ScanState)
    requires 1 <= i < |fs|
    requires st.inside && st.funcIndex == 0 && st.startLine == b
    requires forall t :: 0 <= t <= i ==> !fs[t].mentions
    requires Step(st, i, fs[i]).emitted.Some?
    ensures TailOk(b, fs, i, Scan(fs, i, st))
  {
    var r := Step(st, i, fs[i]);
    var e := r.emitted.value;
    var rest := Scan(fs, i + 1, r.state);
    assert Scan(fs, i, st) == [e] + rest;
    assert e == Emission(0, st.startLine, i);
    assert BackEmissionAt(b, fs, e);
    ScanOk(fs, i + 1, r.state);
    ConsOk(b, fs, e, rest);
  }

  /** The registry loop fails exactly when the backward scan runs and
      raises; otherwise its emissions are disjoint and in order, each a
      sound whole-file boundary in the scanned lines, except that the first
      may be the function the backward scan found. */
  lemma RegistrySound(code: seq<string>, vl: int)
    ensures var lines := RegistryLines(code, vl);
      var fs := ClassifyAll(lines);
      var r := RegistryLoop(code, vl, fs, 0, Initial);
      && (r.Failure? <==>
            vl != 0 && |lines| > 0 && !MentionsFunction(lines[0]) && BackScan(code, vl - 1).Failure?)
      && (r.Failure? ==> r.error == IndexError)
      && (r.Success? ==>
            && Ordered(r.value)
            && (forall k :: 0 <= k < |r.value| ==>
                  EmissionOk(fs, r.value[k]) || (k == 0 && BackEmission(code, vl, fs, r.value[k]))))
  {
    var lines := RegistryLines(code, vl);
    var fs := ClassifyAll(lines);
    LoopSound(code, vl, fs);
    if |fs| > 0 {
      assert fs[0].mentions == MentionsFunction(lines[0]);
    }
  }

  /** `RegistrySound` over the classified lines. */
  lemma LoopSound(code: seq<string>, vl: int, fs: seq<LineFacts>)
    ensures var r := RegistryLoop(code, vl, fs, 0, Initial);
      && (r.Failure? <==>
            vl != 0 && |fs| > 0 && !fs[0].mentions && BackScan(code, vl - 1).Failure?)
      && (r.Failure? ==> r.error == IndexError)
      && (r.Success? ==>
            && Ordered(r.value)
            && (forall k :: 0 <= k < |r.value| ==>
                  EmissionOk(fs, r.value[k]) || (k == 0 && BackEmission(code, vl, fs, r.value[k]))))
  {
    if |fs| > 0 {
      var f := fs[0];
      var s3 := PushPhase(DeclarationPhase(WrapperPhase(Initial, f), 0, f), f);
      var b := BackPhase(code, vl, 0, s3);
      if b.Success? {
        var r := ClosePhase(WrapperPopPhase(b.value, f), 0, f);
        assert RegistryStep(code, vl, 0, f, Initial) == Success(r);
        RegistryLater(code, vl, fs, 1, r.state);
        if f.mentions {
          assert r == Step(Initial, 0, f);
          MentionStep(fs, 0, Initial);
          ScanOk(fs, 1, r.state);
        } else if b.value.inside {
          BackFirst(code, vl, fs, s3, b.value, r);
        } else {
          assert r.emitted.None?;
          ScanOk(fs, 1, r.state);
        }
      }
    }
  }

  /** The first line when the backward scan found a declaration. */
  lemma BackFirst(code: seq<string>, vl: int, fs: seq<LineFacts>, s3: ScanState, s4: ScanState, r: StepResult)
    requires 0 < |fs| && !fs[0].mentions
    requires s3 == PushPhase(DeclarationPhase(WrapperPhase(Initial, fs[0]), 0, fs[0]), fs[0])
    requires BackPhase(code, vl, 0, s3) == Success(s4) && s4.inside
    requires r == ClosePhase(WrapperPopPhase(s4, fs[0]), 0, fs[0])
    ensures var es := EmissionsOf(r.emitted) + Scan(fs, 1, r.state);
      && Ordered(es)
      && (forall k :: 0 <= k < |es| ==>
            EmissionOk(fs, es[k]) || (k == 0 && BackEmission(code, vl, fs, es[k])))
  {
    BackFound(code, vl, fs, s3, s4, r);
    var b := BackScan(code, vl - 1).value.index;
    var rest := Scan(fs, 1, r.state);
    var es := EmissionsOf(r.emitted) + rest;
    if r.emitted.Some? {
      ScanOk(fs, 1, r.state);
      ConsOk(b, fs, r.emitted.value, rest);
    } else {
      assert es == rest;
      BackTailOk(b, fs, 1, r.state);
    }
    assert forall k :: 0 <= k < |es| && BackEmissionAt(b, fs, es[k]) ==> BackEmission(code, vl, fs, es[k]);
  }

  /** The state the first line leaves when the backward scan found a
      declaration: still in that function, or closed with its emission. */
  lemma BackFound(code: seq<string>, vl: int, fs: seq<LineFacts>, s3: ScanState, s4: ScanState, r: StepResult)
    requires 0 < |fs| && !fs[0].mentions
    requires s3 == PushPhase(DeclarationPhase(WrapperPhase(Initial, fs[0]), 0, fs[0]), fs[0])
    requires BackPhase(code, vl, 0, s3) == Success(s4) && s4.inside
    requires r == ClosePhase(WrapperPopPhase(s4, fs[0]), 0, fs[0])
    ensures vl != 0 && BackScan(code, vl - 1).Success? && BackScan(code, vl - 1).value.FunctionAt?
    ensures r.emitted.Some? ==> BackEmission(code, vl, fs, r.emitted.value) && !r.state.inside
    ensures r.emitted.None? ==>
      r.state.inside && r.state.funcIndex == 0 && r.state.startLine == BackScan(code, vl - 1).value.index
  {
  }

  /** A back emission followed by emissions that start after it. */
  lemma ConsOk(b: int, fs: seq<LineFacts>, e: Emission, rest: seq<Emission>)
    requires BackEmissionAt(b, fs, e)
    requires forall k :: 0 <= k < |rest| ==> EmissionOk(fs, rest[k]) && e.end < rest[k].start
    requires Ordered(rest)
    ensures TailOk(b, fs, e.end, [e] + rest)
  {
    var es := [e] + rest;
    forall k | 0 < k < |es|
      ensures es[k] == rest[k - 1]
    {
    }
  }

  /** `extract_sanctuary_functions(code, vulnerable_line, source)`: one
      row per emission, without label or features, its code cut from the
      WHOLE file at the emission's indices, which count from the reported
      line. */
  function ExtractRegistry(code: seq<string>, vl: int, source: string)
    : (r: Result<seq<FunctionRecord>, Fault>)
    ensures r.Success? <==> RegistryLoop(code, vl, ClassifyAll(RegistryLines(code, vl)), 0, Initial).Success?
    ensures r.Success? ==>
      var es := RegistryLoop(code, vl, ClassifyAll(RegistryLines(code, vl)), 0, Initial).value;
      && |r.value| == |es|
      && forall k :: 0 <= k < |es| ==>
           && r.value[k].functionIndex == es[k].index
           && r.value[k].functionCode == Join(PySlice(code, es[k].start, es[k].end + 1))
           && r.value[k].vulnerabilityLabel == None
           && r.value[k].features == None
           && r.value[k].source == source
  {
    var fs := ClassifyAll(RegistryLines(code, vl));
    match RegistryLoop(code, vl, fs, 0, Initial)
    case Failure(e) => Failure(e)
    case Success(es) => Success(Rows(code, es, source))
  }

  /** One row per emission, cut from the whole file. */
  function Rows(code: seq<string>, es: seq<Emission>, source: string): seq<FunctionRecord> {
    seq(|es|, k requires 0 <= k < |es| =>
      FunctionRecord(source, es[k].index, Join(PySlice(code, es[k].start, es[k].end + 1)), None, None))
  }

  /** Without a reported line the registry rows are the whole-file rows
      without the feature columns. */
  lemma ExtractRegistryWithoutLine(code: seq<string>, source: string)
    ensures ExtractRegistry(code, 0, source).Success?
    ensures var a := ExtractRegistry(code, 0, source).value;
      var b := ExtractAll(code, source);
      && |a| == |b|
      && forall k :: 0 <= k < |a| ==> a[k] == b[k].(features := None)
  {
    RegistryWithoutLine(code);
  }

  /** The first line enters the function the backward scan found. */
  predicate BackOpened(code: seq<string>, vl: int, i: int, f: LineFacts, st: ScanState) {
    && i == 0 && vl != 0 && !st.inside && !f.mentions
    && BackScan(code, vl - 1).Success? && BackScan(code, vl - 1).value.FunctionAt?
  }

  /** One iteration of the registry loop as written. The close test is
      `inside_function and (line.strip().endswith("}") or re.search(...))`,
      so `re.search` runs, and raises NameError, exactly when the line is
      inside a function and its stripped form does not end with `}`. Every
      other iteration is `RegistryStep`. */
  function WrittenStep(code: seq<string>, vl: int, i: int, f: LineFacts, st: ScanState)
    : (r: Result<StepResult, Fault>)
    ensures r != Failure(NameError) ==> r == RegistryStep(code, vl, i, f, st)
    ensures RegistryStep(code, vl, i, f, st).Failure? ==> r == RegistryStep(code, vl, i, f, st)
    ensures r == Failure(NameError) <==>
      && RegistryStep(code, vl, i, f, st).Success?
      && !f.endsBrace
      && (st.inside || f.mentions || BackOpened(code, vl, i, f, st))
  {
    var s3 := PushPhase(DeclarationPhase(WrapperPhase(st, f), i, f), f);
    match BackPhase(code, vl, i, s3)
    case Failure(e) => Failure(e)
    case Success(s4) =>
      var s5 := WrapperPopPhase(s4, f);
      if s5.inside && !f.endsBrace then Failure(NameError)
      else Success(ClosePhase(s5, i, f))
  }

  /** The registry loop as written. */
  function WrittenLoop(code: seq<string>, vl: int, fs: seq<LineFacts>, i: nat, st: ScanState)
    : Result<seq<Emission>, Fault>
    requires i <= |fs|
    decreases |fs| - i
  {
    if i == |fs| then Success([])
    else
      match WrittenStep(code, vl, i, fs[i], st)
      case Failure(e) => Failure(e)
      case Success(r) =>
        match WrittenLoop(code, vl, fs, i + 1, r.state)
        case Failure(e) => Failure(e)
        case Success(rest) => Success(EmissionsOf(r.emitted) + rest)
  }

  /** Whether the whole-file scan from line `i` on reaches, inside a
      function (or on the line that starts one), a line whose stripped form
      does not end with `}`. */
  predicate Unclosed(fs: seq<LineFacts>, i: nat, st: ScanState)
    requires i <= |fs|
    decreases |fs| - i
  {
    && i < |fs|
    && (|| ((st.inside || fs[i].mentions) && !fs[i].endsBrace)
        || Unclosed(fs, i + 1, Step(st, i, fs[i]).state))
  }

  /** Past the backward-scan branch, the loop as written raises NameError
      exactly when the whole-file scan reaches an unclosed line inside a
      function, and otherwise yields the whole-file boundaries. */
  lemma {:induction false} WrittenLater(code: seq<string>, vl: int, fs: seq<LineFacts>, i: nat, st: ScanState)
    requires i <= |fs| && (1 <= i || vl == 0)
    ensures WrittenLoop(code, vl, fs, i, st)
         == if Unclosed(fs, i, st) then Failure(NameError) else Success(Scan(fs, i, st))
    decreases |fs| - i
  {
    if i < |fs| {
      var f := fs[i];
      assert RegistryStep(code, vl, i, f, st) == Success(Step(st, i, f));
      if !((st.inside || f.mentions) && !f.endsBrace) {
        assert !BackOpened(code, vl, i, f, st);
        WrittenLater(code, vl, fs, i + 1, Step(st, i, f).state);
      }
    }
  }

  /** Without a reported line, the scanner as written yields the whole-file
      boundaries exactly when no line inside a function lacks a closing
      `}`, and raises NameError otherwise. */
  lemma WrittenWithoutLine(code: seq<string>)
    ensures WrittenLoop(code, 0, ClassifyAll(code), 0, Initial)
         == if Unclosed(ClassifyAll(code), 0, Initial) then Failure(NameError) else Success(Boundaries(code))
  {
    WrittenLater(code, 0, ClassifyAll(code), 0, Initial);
  }

  /** A line mentioning `function` whose stripped form does not end with
      `}` (a multi-line header) makes the loop as written raise, at that
      line at the latest. */
  lemma {:induction false} WrittenFails(code: seq<string>, vl: int, fs: seq<LineFacts>, i: nat, st: ScanState, j: nat)
    requires i <= j < |fs| && fs[j].mentions && !fs[j].endsBrace
    ensures WrittenLoop(code, vl, fs, i, st).Failure?
    decreases j - i
  {
    var r := WrittenStep(code, vl, i, fs[i], st);
    if i < j && r.Success? {
      WrittenFails(code, vl, fs, i + 1, r.value.state, j);
    }
  }

  /** The loop as written and as intended agree on every success and on
      every failure other than NameError, and the loop as written fails
      whenever the intended one does. */
  lemma {:induction false} WrittenAgrees(code: seq<string>, vl: int, fs: seq<LineFacts>, i: nat, st: ScanState)
    requires i <= |fs|
    ensures var w := WrittenLoop(code, vl, fs, i, st);
      var c := RegistryLoop(code, vl, fs, i, st);
      && (w.Success? ==> w == c)
      && (c.Failure? ==> w == c)
      && (w.Failure? && w.error != NameError ==> w == c)
    decreases |fs| - i
  {
    if i < |fs| {
      var ws := WrittenStep(code, vl, i, fs[i], st);
      var cs := RegistryStep(code, vl, i, fs[i], st);
      if ws.Success? {
        WrittenAgrees(code, vl, fs, i + 1, ws.value.state);
      } else if cs.Success? {
        RegistryLater(code, vl, fs, i + 1, cs.value.state);
      }
    }
  }

  /** The registry scanner as written: it raises IndexError exactly when
      the intended scanner does, raises NameError on every file with a
      multi-line function header among the scanned lines, and otherwise
      yields exactly the intended boundaries. */
  lemma WrittenSound(code: seq<string>, vl: int)
    ensures var lines := RegistryLines(code, vl);
      var fs := ClassifyAll(lines);
      var w := WrittenLoop(code, vl, fs, 0, Initial);
      var c := RegistryLoop(code, vl, fs, 0, Initial);
      && (w.Success? ==> w == c)
      && (w.Failure? ==> w.error == IndexError || w.error == NameError)
      && (w == Failure(IndexError) <==> c.Failure?)
      && ((exists j :: 0 <= j < |lines| && MentionsFunction(lines[j]) && !EndsWithBrace(lines[j])) ==> w.Failure?)
  {
    var lines := RegistryLines(code, vl);
    var fs := ClassifyAll(lines);
    RegistrySound(code, vl);
    WrittenAgrees(code, vl, fs, 0, Initial);
    if j :| 0 <= j < |lines| && MentionsFunction(lines[j]) && !EndsWithBrace(lines[j]) {
      WrittenFails(code, vl, fs, 0, Initial, j);
    }
  }

  /** `extract_sanctuary_functions(code, vulnerable_line, source)` as
      written: the intended rows whenever it returns, IndexError exactly
      when the intended scanner raises it, NameError otherwise. */
  function ExtractWritten(code: seq<string>, vl: int, source: string)
    : (r: Result<seq<FunctionRecord>, Fault>)
    ensures r.Success? ==> r == ExtractRegistry(code, vl, source)
    ensures r.Failure? ==> r.error == IndexError || r.error == NameError
    ensures r == Failure(IndexError) <==> ExtractRegistry(code, vl, source).Failure?
  {
    WrittenSound(code, vl);
    var fs := ClassifyAll(RegistryLines(code, vl));
    match WrittenLoop(code, vl, fs, 0, Initial)
    case Failure(e) => Failure(e)
    case Success(es) => Success(Rows(code, es, source))
  }

  /** A file that is one two-line function: `function f() {` and `}`. */
  predicate TwoLineFunction(code: seq<string>) {
    |code| == 2 && code[0] == HeaderLine && code[1] == BraceLine
  }

  /** As written, the scanner raises NameError on that file: the header
      is inside the function it opens and does not end with `}`. */
  lemma WrittenTwoLine(code: seq<string>, source: string)
    requires TwoLineFunction(code)
    ensures ExtractWritten(code, 0, source) == Failure(NameError)
  {
    HeaderClassified();
    var fs := ClassifyAll(code);
    assert fs[0] == HeaderFacts;
    assert WrittenStep(code, 0, 0, fs[0], Initial) == Failure(NameError);
  }

  /** The whole-file scan over the classified lines of that file. */
  lemma TwoLineScan(fs: seq<LineFacts>)
    requires |fs| == 2 && fs[0] == HeaderFacts && fs[1] == BraceFacts
    ensures Scan(fs, 0, Initial) == [Emission(0, 0, 1)]
  {
    var r := Step(Initial, 0, fs[0]);
    assert r.state == ScanState(true, 0, 1, false, 0) && r.emitted.None?;
    var r' := Step(r.state, 1, fs[1]);
    assert r'.emitted == Some(Emission(0, 0, 1));
    assert Scan(fs, 2, r'.state) == [];
    assert Scan(fs, 1, r.state) == [Emission(0, 0, 1)];
  }

  /** As intended, the scanner finds that function: one row holding both
      lines, with function index 0. */
  lemma RegistryTwoLine(code: seq<string>, source: string)
    requires TwoLineFunction(code)
    ensures ExtractRegistry(code, 0, source) == Success([FunctionRecord(source, 0, Join(code), None, None)])
  {
    HeaderClassified();
    BraceClassified();
    var es := [Emission(0, 0, 1)];
    TwoLineScan(ClassifyAll(code));
    assert Boundaries(code) == es;
    RegistryWithoutLine(code);
    assert RegistryLines(code, 0) == code;
    assert PySlice(code, 0, 2) == code;
    assert Rows(code, es, source) == [FunctionRecord(source, 0, Join(code), None, None)];
  }
}
