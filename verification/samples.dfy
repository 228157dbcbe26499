/** A few concrete source lines and what the scanners' tests find in them,
    for the worked examples. */
module Samples {
  import opened PyStr
  import opened Patterns
  import opened Enumerate

  const ContractLine: string := "contract C {"
  const HeaderLine: string := "function f() {"
  const BodyLine: string := "x = 1;"
  const BraceLine: string := "}"

  /** A line with no whitespace at either end is its own strip. */
  lemma StripUnchanged(s: string)
    requires |s| > 0 && !IsSpace(s[0]) && !IsSpace(s[|s| - 1])
    ensures TrimLeft(s) == s && Strip(s) == s
  {
  }

  /** A line without a letter of `p` does not contain `p`. */
  lemma LacksLetter(s: string, p: string, k: nat)
    requires k < |p| && p[k] !in s
    ensures !Contains(s, p)
  {
    ContainsIff(s, p);
    forall j
      ensures !OccursAt(s, p, j)
    {
      if 0 <= j && j + |p| <= |s| {
        assert s[j..j + |p|][k] == s[j + k];
      }
    }
  }

  /** A line whose first character is not `p`'s does not start with `p`. */
  lemma FirstDiffers(s: string, p: string)
    requires |s| > 0 && |p| > 0 && s[0] != p[0]
    ensures !StartsWith(s, p)
  {
    if |p| <= |s| {
      assert s[..|p|][0] != p[0];
    }
  }

  /** A line whose last character is not `p`'s does not end with `p`. */
  lemma LastDiffers(s: string, p: string)
    requires |s| > 0 && |p| > 0 && s[|s| - 1] != p[|p| - 1]
    ensures !EndsWith(s, p)
  {
    if |p| <= |s| {
      assert s[|s| - |p|..][|p| - 1] != p[|p| - 1];
    }
  }

  /** `contract C {` opens a wrapper scope and holds `{`, nothing else. */
  const ContractFacts := LineFacts(true, false, true, false, false, false)

  lemma ContractClassified()
    ensures Classify(ContractLine) == ContractFacts
  {
    var t := ContractLine;
    StripUnchanged(t);
    assert IsWrapperLine(t) by { assert t[..8] == "contract"; }
    FirstDiffers(t, "function");
    LacksLetter(t, "function", 1);
    FirstDiffers(t, "}");
    LastDiffers(t, "}");
    assert !MalformedTransition(t);
  }

  /** `function f() {` mentions `function` and holds `{`, nothing else. */
  const HeaderFacts := LineFacts(false, true, true, false, false, false)

  lemma HeaderClassified()
    ensures Classify(HeaderLine) == HeaderFacts
  {
    var t := HeaderLine;
    StripUnchanged(t);
    assert StartsWith(t, "function") by { assert t[..8] == "function"; }
    FirstDiffers(t, "library");
    FirstDiffers(t, "interface");
    FirstDiffers(t, "contract");
    FirstDiffers(t, "}");
    LastDiffers(t, "}");
    assert !MalformedTransition(t);
  }

  /** `x = 1;` passes none of the tests. */
  const BodyFacts := LineFacts(false, false, false, false, false, false)

  lemma BodyClassified()
    ensures Classify(BodyLine) == BodyFacts
  {
    var t := BodyLine;
    StripUnchanged(t);
    FirstDiffers(t, "library");
    FirstDiffers(t, "interface");
    FirstDiffers(t, "contract");
    FirstDiffers(t, "function");
    LacksLetter(t, "function", 0);
    FirstDiffers(t, "}");
    LastDiffers(t, "}");
    assert !MalformedTransition(t);
  }

  /** `}` starts and ends with `}` and closes a function. */
  const BraceFacts := LineFacts(false, false, false, true, true, true)

  lemma BraceClassified()
    ensures Classify(BraceLine) == BraceFacts
  {
    var t := BraceLine;
    StripUnchanged(t);
    FirstDiffers(t, "library");
    FirstDiffers(t, "interface");
    FirstDiffers(t, "contract");
    FirstDiffers(t, "function");
    LacksLetter(t, "function", 0);
    assert StartsWith(t, "}") && EndsWith(t, "}");
  }
}
