/** The line patterns the scanners test, gathered in one place: each is a
    hand-written predicate with the meaning of the Python test or regular
    expression it stands for. */
module Patterns {
  import opened PyStr

  /** `line.strip().startswith("function")`: a declaration line. */
  predicate IsDeclaration(line: string) {
    StartsWith(Strip(line), "function")
  }

  /** `line.strip().startswith("contract")`. */
  predicate IsContractLine(line: string) {
    StartsWith(Strip(line), "contract")
  }

  /** A line that stops the backward scan. */
  predicate IsMarker(line: string) {
    IsDeclaration(line) || IsContractLine(line)
  }

  /** A `library`, `interface` or `contract` line: opens a wrapper scope. */
  predicate IsWrapperLine(line: string) {
    var t := Strip(line);
    StartsWith(t, "library") || StartsWith(t, "interface") || StartsWith(t, "contract")
  }

  /** `line.strip().startswith("function") or "function" in line.strip()`:
      the enumerative scanners' declaration test. */
  predicate MentionsFunction(line: string) {
    StartsWith(Strip(line), "function") || Contains(Strip(line), "function")
  }

  /** `line.strip().endswith("}")`. */
  predicate EndsWithBrace(line: string) {
    EndsWith(Strip(line), "}")
  }

  /** `line.strip().startswith("}")`. */
  predicate StartsWithBrace(line: string) {
    StartsWith(Strip(line), "}")
  }

  /** What regular-expression `.*$` accepts: no newline, except possibly a
      single one at the very end. */
  predicate LineTail(r: string) {
    || '\n' !in r
    || (|r| > 0 && r[|r| - 1] == '\n' && '\n' !in r[..|r| - 1])
  }

  /** `re.search(r"^\s+\} function .*$", line)`: at least one leading
      whitespace character, then `} function `, then a tail without inner
      newlines. The leading run is taken whole because `}` is not
      whitespace, so `\s+` cannot stop anywhere else. */
  predicate MalformedTransition(line: string) {
    var k := |line| - |TrimLeft(line)|;
    k >= 1 && StartsWith(line[k..], "} function ") && LineTail(line[k + 11..])
  }

  /** The enumerative scanners' closing test. */
  predicate ClosesFunction(line: string) {
    EndsWithBrace(line) || MalformedTransition(line)
  }

  /** `re.search(r"function.*\(.*\)?", line)` finds a match: some
      `function` is followed on the same line by `(`. */
  predicate HasSignature(line: string) {
    exists p, q | 0 <= p < |line| && 0 <= q < |line| :: SignatureAt(line, p, q)
  }

  /** `function` at index `p`, and `(` at index `q` later on the same line. */
  predicate SignatureAt(line: string, p: int, q: int) {
    0 <= p && p + 8 <= q < |line|
    && line[p..p + 8] == "function" && line[q] == '(' && '\n' !in line[p + 8..q]
  }

  /** A malformed `  } function name() {` line counts as a declaration
      for the enumerative scanners, starts with `}` once stripped, and is
      neither a wrapper line nor a stripped `function` line. */
  lemma MalformedFacts(line: string)
    requires MalformedTransition(line)
    ensures MentionsFunction(line)
    ensures StartsWithBrace(line)
    ensures !IsWrapperLine(line) && !IsDeclaration(line)
  {
    var r := Strip(line);
    MalformedStrip(line);
    assert r[0] == '}';
    assert OccursAt(r, "function", 2);
    ContainsIff(r, "function");
    assert r[..1] == "}";
  }

  /** Stripped, a malformed line reads `} function` and more. */
  lemma MalformedStrip(line: string)
    requires MalformedTransition(line)
    ensures |Strip(line)| >= 10 && Strip(line)[..10] == "} function"
  {
    var x := TrimLeft(line);
    TrimLeftSpec(line);
    assert x[..11] == "} function ";
    assert x[9] == 'n';
    NonSpaceKept(x, 9);
    var r := TrimRight(x);
    TrimRightSpec(x);
    assert Strip(line) == r;
    assert r[..10] == x[..10];
    assert x[..10] == "} function";
  }

  /** Right-stripping keeps every character up to the last non-space one. */
  lemma {:induction false} NonSpaceKept(x: string, j: int)
    requires 0 <= j < |x| && !IsSpace(x[j])
    ensures j < |TrimRight(x)|
    decreases |x|
  {
    if IsSpace(x[|x| - 1]) {
      NonSpaceKept(x[..|x| - 1], j);
    }
  }
}
