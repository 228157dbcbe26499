# Function-boundary scanners of openvulns, in Dafny

This project models the line-oriented scanners that cut Solidity source
files into function bodies for the openvulns vulnerability dataset, and
proves properties of them. A file is a `seq<string>` of lines. Each scanner
is a pure step function over a small state record, folded over the lines.

- **Anchored extraction** (`extract_smartbugs_functions`, module
  `Anchored`). Given a reported line, it counts `{` lines seen inside a
  function against `}`-ending lines. When the anchor line does not start
  a function, a backward scan (module `Backward`) looks for the nearest
  `function` or `contract` line below it. The result is the one block
  recorded when the counters balance, or `""`.
- **Annotation driver** (the per-file body of `get_vulnerable_blocks`,
  module `Annotations`). It finds the first `@vulnerable_at_lines` line,
  parses the comma-separated numbers after its last `:`, and decides
  whether they form a run. It then emits one labelled record per anchor,
  or only the first anchor's record for a run.
- **Features** (`get_additional_features`, module `Features`). These are
  four substring flags and a count of `+ - * /` characters.
- **Enumerative extraction** (`extract_sanctuary_functions` in
  `de_nodes.py`, module `Enumerate`). This scanner keeps a brace stack, a
  library/interface/contract wrapper flag, and a special case for
  malformed `} function ... {` lines. It emits one boundary each time the
  stack empties inside a function. Module `Layout` shows it finds
  exactly the functions of a file made of one-line functions, functions
  with a flat body, and any lines between them that do not mention
  `function`, such as contract, library and interface lines and their
  closing braces.
- **Registry variant** (`extract_sanctuary_functions(solidity_code,
  vulnerable_line, source)` in `pipeline_registry.py`, module `Registry`).
  This is the enumerative scanner started at the reported line, with the
  backward scan on its first line. The module never imports `re`, so its
  close test raises NameError whenever it has to call `re.search` (see
  "## Findings"). `RegistryStep` and the members built on it model the
  scanner as intended, with `re` imported. `WrittenStep` and the members
  built on it model it as written.
- Module `Samples` holds a few concrete lines (`contract C {`,
  `function f() {`, `x = 1;`, `}`) and proves what the scanners' tests
  find in each, for the worked examples.
- Python's string and list primitives are written out in modules
  `PyStr` and `Patterns`: `isspace`, `strip`, `startswith`/`endswith`,
  substring `in`, `"".join`, `split`, `int()`, negative indices, slice
  clamping, and the regular expressions used.

Python exceptions are explicit results. They are `Result<T, Fault>`, with
`Fault` one of four cases:

- `IndexError`: the backward scan ran off the front of the file, or the
  label line lies outside the file.
- `NoSignature`: `re.search(...)` returned `None` on a `function` line
  without `(`, so `.group()` raised.
- `ValueError`: `int()` was given a field that is not an integer.
- `NameError`: the registry scanner called `re.search` without `re`
  being imported.

Python falsiness is kept:

- a start line of 0 means "the whole file";
- a recorded function line of 0 never closes a block.

Offsets are also kept as written. Loop indices count from the slice that
is scanned, while backward-scan indices and the code that is cut count
from the whole file.

The model follows the code as written, including these behaviours:

- The anchored block runs through the line AFTER the balancing line. This
  is because the end index is `start_line + i + 1` and the slice is
  `[start : end + 1]`.
- After a `contract` line, the "degenerate" block is two lines, the
  anchor and the line after it, unless the anchor line itself ends with
  `}`. In that case no block is recorded on the anchor line, and the
  result is `""` when no declaration follows (`AnchorOutsideFunction`).
- In whole-file mode the block starts one line after the declaration,
  because the recorded start is the 1-based `i + 1`.
- A declaration line without `(` raises. The signature is not just left
  out.
- The backward scan is not bounded below by 0. It continues through
  Python's negative indices from the end of the file, and raises
  IndexError below `-len`. `BackScanNearest` shows that it stays inside
  `[0, anchor)` whenever a `function` or `contract` line lies there.
  `BackScanWraps` shows what happens otherwise.
- Anchor 1 gives start line 0, which Python reads as "no start line". Its
  block comes from the whole file, and its label from the file's last
  line, `lines[-1]` (`FirstLineAnchor`).
- In the enumerative scanner, a malformed `} function ... {` line never
  emits the function it closes. Its push and pop cancel, and the new
  function takes over the open one's stack (`Enumerate.MalformedLine`).
- The enumerative scanner's wrapper pop never fires. Markers are pushed
  only inside a function, and a function ends only when its stack is
  empty, so the stack is always empty outside a function
  (`Enumerate.StepSettled`). Once a wrapper line is seen, the wrapper flag
  therefore stays set, and it has no effect.

## Model

| member | source | states |
|---|---|---|
| Anchored.ExtractAnchored | src/openvulns/de_nodes.py:18-72 | The extractor raises only NoSignature, or IndexError when a start line is set and the backward scan from `start - 1` raised. |
| Anchored.AnchoredBlock | src/openvulns/de_nodes.py:30-72 | A non-empty result is the join of one slice `code[a : b + 1]` with `a` non-zero. The end `b` is `start + j + 1` (or `j + 1` with no start line) for a scanned line `j`. The start `a` is one of: the line after a scanned declaration; the declaration the backward scan from `start - 1` found; or `start` itself when that scan met a contract line. |
| Anchored.LoopTraced | src/openvulns/de_nodes.py:30-71 | Over the loop, a recorded block's start is a line after a scanned declaration, the backward scan's declaration, or the start line after a contract line. Its end is the end index of a scanned line. |
| Anchored.Loop | src/openvulns/de_nodes.py:30-71 | Both counters only grow over the loop. A recorded block keeps a non-zero start. A failure is NoSignature, or the backward scan's own error when a start line is set. |
| Anchored.StepFailure | src/openvulns/de_nodes.py:31-61 | A `function` line without a signature match raises NoSignature. A line that runs the backward scan (the first line, outside a function, with a start line set) raises the scan's error when it raised. No other line raises. |
| Anchored.StepCounts | src/openvulns/de_nodes.py:36-51 | `closing` grows by exactly one on a stripped `}`-ending line. `opening` grows by at most one per line, plus one on the first line for the `{` of a function found by the backward scan. It grows only inside a function, on a declaration line, or on that first line. |
| Anchored.StepStart | src/openvulns/de_nodes.py:31-33 | Apart from the backward scan, the recorded function line changes only on a `function` line, and then to `i + 1`. |
| Anchored.StepBlock | src/openvulns/de_nodes.py:63-67 | When the function line is non-zero and the counters are equal, the step leaves the function and records `[function_line, end]`, with the end `i + 1` or `start + i + 1`. Otherwise the recorded block is unchanged. |
| Anchored.AnchorInsideFunction | src/openvulns/de_nodes.py:44-72 | Suppose the nearest marker below the anchor `s` is a declaration at `d > 0`, and the counters first balance `c` lines later with no declaration in between. Then the result is lines `d` through `s + c + 1`, which enclose the anchor. |
| Anchored.AnchorOutsideFunction | src/openvulns/de_nodes.py:44-72 | When the nearest marker below the anchor is a contract line, the result is the anchor line and the next line. If the anchor line ends with `}` and no declaration follows, the result is `""`. |
| Anchored.AnchorWholeFile | src/openvulns/de_nodes.py:18-72 | Take start line 0, the first declaration at `d`, and the first balance at `e > d`. The result is lines `d + 1` through `e + 1`. |
| Anchored.NeverBalanced | src/openvulns/de_nodes.py:36-69 | Outside any function, with no declaration ahead and a `}` already counted, no block is ever recorded. |
| Backward.BackScan | src/openvulns/de_nodes.py:45-61 | The walk stops at an index in `[-len, start]`. Its only failure is IndexError. |
| Backward.BackScanSpec | src/openvulns/de_nodes.py:45-61 | The walk stops at the first `function`/`contract` line going down, and reports which kind it found and that line's text. It raises exactly when no such line exists down to `-len`, or when it starts past the end. |
| Backward.BackScanNearest | src/openvulns/de_nodes.py:45-61 | When a marker lies in `[0, anchor)`, the walk stops at the nearest one, at its non-negative index. |
| Backward.BackScanWraps | src/openvulns/pipeline_registry.py:105-120 | When no marker lies in `[0, anchor)`, a walk that succeeds stopped at a negative index, that is, on a line counted from the end of the file. |
| Features.AdditionalFeatures | src/openvulns/de_nodes.py:75-112 | The list has five entries. Entries 0, 1 and 3 are 1 exactly when `import`, `require` and `pragma` occur. Entry 4 is 1 exactly when one of `inheritance`, `state machine` or `delegate` occurs. Entry 2 is the number of `+ - * /` characters, so it lies between 0 and the text length. |
| Features.ArithmeticCount | src/openvulns/de_nodes.py:91 | The count of regular-expression matches equals the sum of the multiplicities of `+`, `-`, `*` and `/`. |
| Features.RequireCallIsRequire | src/openvulns/de_nodes.py:87 | The `require(` alternative adds nothing to the access-control flag. |
| Annotations.MarkerLines | src/openvulns/de_nodes.py:132-137 | The filtered list holds only marker lines. It is empty exactly when no line holds the marker. Its head is the first marker line of the file. |
| Annotations.FirstMarkerIsFirst | src/openvulns/de_nodes.py:132-139 | The first marker line is unique, so `vuln_lines_spec[0]` is determined. |
| Annotations.ParseAll | src/openvulns/de_nodes.py:143 | The result is defined exactly when every field parses. It then has one integer per field, in order, each the value `int()` gives. |
| Annotations.ConsecutiveIsRun | src/openvulns/de_nodes.py:145-150 | Two or more anchors that go up by one always pass the run test. |
| Annotations.RunNeedNotBeConsecutive | src/openvulns/de_nodes.py:145-150 | The converse fails: `[10, 14, 12]` passes the run test without being consecutive. |
| Annotations.StripReport | src/openvulns/de_nodes.py:163-168 | The cleaned label holds no newline or tab and is no longer than the line. |
| Annotations.RecordForSpec | src/openvulns/de_nodes.py:160-183 | The record for anchor `v` exists exactly when line `v - 2` exists as a Python index and the anchored extraction with start line `v - 1` succeeds. Its code is that extraction's block, and its label is the cleaned line `v - 2`. It carries index `v`, the source and the features. Otherwise it raises IndexError for the missing line, or the extractor's own error. |
| Annotations.FirstLineAnchor | src/openvulns/de_nodes.py:161-169 | Anchor 1 extracts in whole-file mode (start line 0 is false) and takes its label from the file's last line. |
| Annotations.AnchorRecords | src/openvulns/de_nodes.py:160-185 | Record `k` is exactly the record `RecordFor` builds for anchor `k`: its index, the source, its code, its label and the file's features. A run yields at most one record. Without an exception the loop yields one record per anchor, or one for a run. An exception stops it at the first anchor whose record raised, and the fault is that record's error. |
| Annotations.Collect | src/openvulns/de_nodes.py:160-186 | The loop keeps each successful record in order, stops at the first exception with that error as the fault, and stops after the first record when `is_in_seq` holds. Without a fault it yields one record per anchor, or exactly one for a non-empty run. |
| Annotations.VulnerableRecords | src/openvulns/de_nodes.py:131-185 | A file without the marker yields nothing. Otherwise the first marker line decides the outcome. It is ValueError alone when a field is not an integer. Else record `k` is `RecordFor` of anchor `k` with the file's features, and any fault is the first failing anchor's error. |
| Enumerate.StepSettled | src/openvulns/de_nodes.py:218-241 | From a state with an empty stack outside any function, a step leads to such a state again, and the wrapper pop leaves the state unchanged. The initial state is such a state. |
| Enumerate.StepShape | src/openvulns/de_nodes.py:218-253 | One iteration pushes at most one marker, and only for a `{` line inside a function or one that starts it. It pops at most one marker. It emits only when a closing line leaves the stack empty, and the emission ends at that line. It clears the wrapper flag only by popping outside a function. |
| Enumerate.StepOk | src/openvulns/de_nodes.py:226-253 | One iteration keeps the open function's start on a line mentioning `function`, recorded as the function index. Any emission is sound, ends at this line, and starts no earlier than the open function. |
| Enumerate.ScanOk | src/openvulns/de_nodes.py:215-266 | Every emission of the scan is sound: its start mentions `function`, its end closes, start ≤ end, and index = start. Emissions are strictly ordered and disjoint: each starts after the previous one ends. |
| Enumerate.Boundaries | src/openvulns/de_nodes.py:215-266 | The same facts stated on the file's text: each start line mentions `function`, each end line closes, and the blocks are disjoint and in file order. |
| Enumerate.ExtractAll | src/openvulns/de_nodes.py:195-268 | There is one row per boundary. It holds `lines[start..end]` inclusive, index = start, no label, and the file's feature vector. |
| Enumerate.MalformedLine | src/openvulns/de_nodes.py:226-251 | A `  } function f() {` line restarts the function on this line. Its push and pop cancel, so the depth is unchanged. It emits exactly when the stack was already empty. |
| Patterns.MalformedFacts | src/openvulns/de_nodes.py:245 | A malformed-transition line mentions `function` and starts with `}` once stripped. It is neither a wrapper line nor a stripped `function` line. |
| Layout.LaidOutFile | src/openvulns/de_nodes.py:215-266 | Take a file made of three kinds of piece: lines that do not mention `function` (wrapper lines and stray `}` lines included); one-line functions; and functions whose header holds `{`, whose body is quiet and whose footer closes. The scan finds exactly one boundary per function, from its first line to its last, in order. |
| Layout.ScanLaid | src/openvulns/de_nodes.py:215-266 | The same, from any position and any state outside a function with an empty stack, whatever the wrapper flag. |
| Layout.ContractExample | src/openvulns/de_nodes.py:215-266 | On the five text lines `contract C {`, `function f() {`, `x = 1;`, `}`, `}`, the boundaries are exactly one function, lines 1 to 3. The contract's closing brace ends nothing. |
| Samples.ContractClassified | src/openvulns/de_nodes.py:218-245 | `contract C {` is a wrapper line holding `{`. It does not mention `function`, and it neither starts nor ends with `}` nor closes a function. |
| Samples.HeaderClassified | src/openvulns/de_nodes.py:218-245 | `function f() {` mentions `function` and holds `{`. It is not a wrapper line, does not start or end with `}`, and does not close a function. |
| Samples.BodyClassified | src/openvulns/de_nodes.py:218-245 | `x = 1;` passes none of the scanner's tests. |
| Samples.BraceClassified | src/openvulns/de_nodes.py:218-245 | `}` starts and ends with `}` and closes a function. It is not a wrapper line, holds no `{` and does not mention `function`. |
| Layout.ExpectedCount | src/openvulns/de_nodes.py:215-266 | The layout calls for as many boundaries as it has functions. |
| Registry.RegistryLines | src/openvulns/pipeline_registry.py:73 | With no reported line the whole file is scanned. Otherwise the scan starts at the reported line. |
| Registry.RegistryStep | src/openvulns/pipeline_registry.py:84-149 | The intended iteration, with `re` imported. Apart from the first line's backward scan, it is the whole-file step. It fails only there, with IndexError. It pushes at most one marker. An emission leaves the stack empty and ends at this line. |
| Registry.RegistryLater | src/openvulns/pipeline_registry.py:84-141 | After the first line, the intended registry loop is the whole-file loop. |
| Registry.RegistryWithoutLine | src/openvulns/pipeline_registry.py:72-149 | Without a reported line, the intended registry scanner finds exactly the whole-file boundaries. |
| Registry.MentionStep | src/openvulns/pipeline_registry.py:95-102 | A line mentioning `function` starts a function on that line whatever came before. Any emission it makes is that one-line function. |
| Registry.BackTailOk | src/openvulns/pipeline_registry.py:104-141 | In the intended loop, inside the function found by the backward scan, emissions are ordered. At most the first belongs to that function, and it has function index 0. |
| Registry.RegistrySound | src/openvulns/pipeline_registry.py:72-149 | The intended registry loop fails exactly when the first line does not mention `function`, a line was reported, and the backward scan raised. Otherwise its emissions are ordered and sound. The first may be the backward-found function: index 0, started at the scan's absolute index, closed before any `function` line. |
| Registry.ExtractRegistry | src/openvulns/pipeline_registry.py:72-151 | The intended scanner yields one row per emission. Its code is cut from the WHOLE file at the emission's start and end indices, which are relative to the reported line. It has no label and no features. |
| Registry.ExtractRegistryWithoutLine | src/openvulns/pipeline_registry.py:72-151 | Without a reported line, the intended scanner's rows are the whole-file rows without the feature columns. |
| Registry.WrittenStep | src/openvulns/pipeline_registry.py:84-141 | As written, an iteration raises NameError exactly when the intended step succeeds, the line's stripped form does not end with `}`, and the line is inside a function: already inside, mentioning `function`, or the first line after the backward scan found a declaration. Every other iteration is the intended step. |
| Registry.WrittenLater | src/openvulns/pipeline_registry.py:84-141 | Past the backward-scan branch, the loop as written raises NameError exactly when the whole-file scan reaches, inside a function, a line not ending with `}`. Otherwise it yields exactly the whole-file boundaries. |
| Registry.WrittenWithoutLine | src/openvulns/pipeline_registry.py:72-141 | Without a reported line, the scanner as written yields the whole-file boundaries when no line inside a function lacks a closing `}`, and raises NameError otherwise. |
| Registry.WrittenFails | src/openvulns/pipeline_registry.py:95-134 | Any line that mentions `function` and does not end with `}` makes the loop as written raise, at that line at the latest. |
| Registry.WrittenAgrees | src/openvulns/pipeline_registry.py:84-141 | The loop as written succeeds only with the intended result. It fails whenever the intended loop fails, with the same error, and any other failure is NameError. |
| Registry.WrittenSound | src/openvulns/pipeline_registry.py:72-149 | As written, the scanner raises only IndexError or NameError. It raises IndexError exactly when the intended scanner fails, and NameError on every file with a multi-line function header among the scanned lines. When it returns, the result is the intended one. |
| Registry.ExtractWritten | src/openvulns/pipeline_registry.py:72-151 | The rows as written are the intended rows whenever the call returns. The call raises IndexError exactly when the intended call fails, and NameError otherwise. |
| Registry.WrittenTwoLine | src/openvulns/pipeline_registry.py:72-134 | As written, the file `function f() {`, `}` with no reported line raises NameError. |
| Registry.RegistryTwoLine | src/openvulns/pipeline_registry.py:72-151 | As intended, the same file yields one row: function index 0, both lines as its code, no label. |
| PyStr.StripSpec | src/openvulns/de_nodes.py:31 | `strip()` removes exactly the whitespace framing the text, by Python's `isspace`. |
| PyStr.TrimLeftSpec | src/openvulns/de_nodes.py:31 | `lstrip()` drops exactly the maximal leading whitespace run. |
| PyStr.TrimRightSpec | src/openvulns/de_nodes.py:31 | `rstrip()` drops exactly the maximal trailing whitespace run. |
| PyStr.ContainsIff | src/openvulns/de_nodes.py:82 | The substring test `p in s` holds exactly when `p` occurs at some index of `s`. |
| PyStr.PyIndex | src/openvulns/de_nodes.py:47 | `code[k]` exists exactly for `-len ≤ k < len`. Negative indices count from the end. |
| PyStr.PySlice | src/openvulns/de_nodes.py:67 | Within bounds, a Python slice is the plain subsequence. It is never longer than the list. |
| PyStr.SplitJoin | src/openvulns/de_nodes.py:139 | Joining the parts of `split(sep)` with `sep` gives the text back. |
| PyStr.JoinSplit | src/openvulns/de_nodes.py:139 | Splitting separator-free parts joined by `sep` gives the parts back. |
| PyStr.SplitCount | src/openvulns/de_nodes.py:139 | `split(sep)` yields one more part than there are separators. |
| PyStr.SplitParts | src/openvulns/de_nodes.py:139 | No part of `split(sep)` holds the separator. |
| PyStr.AfterLastSeparator | src/openvulns/de_nodes.py:139 | `split(":")[-1]` holds no `:` and ends the text. It follows the last `:` when there is one, and is the whole text otherwise. |
| PyStr.ParseShow | src/openvulns/de_nodes.py:143 | `int(str(n)) == n` for every integer. |

## Left out

- Registry.RegistryLater: it describes the intended loop, with `re`
  imported. As written, the loop raises NameError on the lines
  `WrittenLater` names.
- Registry.BackTailOk: it describes the intended loop. As written, the
  function the backward scan found raises NameError on its first line
  that does not end with `}` (`WrittenStep`).
- Registry.RegistrySound: it states the intended scanner. `WrittenSound`
  relates the scanner as written to it.
- Registry.RegistryWithoutLine: it states the intended scanner.
  `WrittenWithoutLine` gives the scanner as written.
- Registry.ExtractRegistry: it states the intended rows. `ExtractWritten`
  gives the call as written.
- Registry.ExtractRegistryWithoutLine: it states the intended rows. As
  written, the call raises NameError unless every line inside a function
  ends with `}` (`WrittenWithoutLine`).

- File I/O, `os.walk`, the `.sol` filter and the cap of ten files in
  `pipeline_registry.py` are not modelled. They are plumbing around the
  scanners.
- The per-directory `try/except` with logging is left out. Each model
  function returns the exception as a `Fault` instead. `FileOutcome` keeps
  the records appended before it.
- pandas DataFrame construction and `validate_datasets` are left out. The
  rows are `FunctionRecord` values in a `seq`.
- The `source` path rewrite `replace(repo_dir, repo_url)` is left out. The
  source is a parameter.
- `get_sanctuary_functions`, `register_pipelines`, `pipeline.py` and
  `ds_nodes.py` (label encoding, vectorising, logistic regression,
  accuracy) are not part of this model. They are wiring, foreign
  libraries or floating point.
- The call in `pipeline_registry.py` that passes a `start_line=` keyword
  is left out. The variant's signature does not accept it, so it would
  raise TypeError. The model gives the function itself.
- `print` calls, the unused locals `linecount`, `linn`, `end_line` and
  `start_of_func`, and the unused `function_signature` value are left
  out. Only the exception `.group()` raises is kept.
- `int()` is modelled on ASCII decimal text with optional sign and
  surrounding whitespace. Digit-group underscores and non-ASCII digits are
  left out.
- Anchored.ExtractAnchored: the backward scan is computed once, before
  the loop, and its result is used only where Python runs it. This is
  equivalent because the scan depends only on the file. The block text is
  cut once at the end from the last recorded bounds, which is also
  equivalent because the file never changes.
- Layout.LaidOutFile: exact output is proved only for function bodies of
  quiet lines (no `{`, `}`, wrapper keyword or `function`), and only for
  functions whose header holds `{` or that fit on one line. Nested blocks
  and bodiless declarations ending in `;` are covered by `ScanOk`'s
  soundness, not by an exact-output theorem.
- Anchored.AnchoredBlock: the contract says where a block's start and
  end come from. It does not say which balancing line ends the block.
  The scenario lemmas `AnchorInsideFunction`, `AnchorOutsideFunction`
  and `AnchorWholeFile` fix that for the shapes they cover.
- Anchored.AnchorInsideFunction: stated for an anchor below its
  declaration (`d > 0`) with no declaration before the balance. Other
  shapes are covered only by `ExtractAnchored`'s general contract.
- Annotations.StripReport: the label's regular expression is modelled as a
  left-to-right pass. Its contract states only that newlines and tabs are
  gone and the length does not grow.
- Enumerate.StepShape: the step is the composition of five small phase
  functions, one per `if` block of the loop body. Each phase's effect is
  its own definition.

## Findings

| source | as written | input that shows it | evidently intended | confidence | as-written member | corrected member |
|---|---|---|---|---|---|---|
| src/openvulns/pipeline_registry.py:132-134 | The close test calls `re.search`, but the module never imports `re` (its imports are lines 2-8). The call runs whenever a line inside a function does not end with `}` once stripped, and then raises NameError. | `solidity_code = ["function f() {", "}"]`, `vulnerable_line = 0`: line 0 opens `f` and does not end with `}` | `import re`, as `de_nodes.py` has: the file yields one row for `f`, lines 0 to 1 | high; not executed | Registry.WrittenTwoLine | Registry.RegistryTwoLine |
