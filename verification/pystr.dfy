/** The Python string and list primitives the scanners rely on, with
    Python's own semantics: the `str.isspace` whitespace set, `strip`,
    substring tests, `"".join`, `str.split`, `int(...)`, and list indexing
    and slicing with negative indices. */
module PyStr {
  import opened Wrappers

  /** The characters for which Python's `str.isspace()` holds; `strip()`
      and the regular-expression class `\s` use the same set. */
  predicate IsSpace(c: char) {
    var n := c as int;
    || 9 <= n <= 13
    || 0x1c <= n <= 0x20
    || n == 0x85 || n == 0xa0 || n == 0x1680
    || 0x2000 <= n <= 0x200a
    || n == 0x2028 || n == 0x2029 || n == 0x202f || n == 0x205f || n == 0x3000
  }

  predicate AllSpace(s: string) {
    forall k :: 0 <= k < |s| ==> IsSpace(s[k])
  }

  predicate NoSpace(s: string) {
    forall k :: 0 <= k < |s| ==> !IsSpace(s[k])
  }

  /** `s.lstrip()`. */
  function TrimLeft(s: string): (r: string)
    ensures |r| <= |s|
  {
    if |s| > 0 && IsSpace(s[0]) then TrimLeft(s[1..]) else s
  }

  /** `s.rstrip()`. */
  function TrimRight(s: string): (r: string)
    ensures |r| <= |s|
  {
    if |s| > 0 && IsSpace(s[|s| - 1]) then TrimRight(s[..|s| - 1]) else s
  }

  /** `s.strip()`. */
  function Strip(s: string): string {
    TrimRight(TrimLeft(s))
  }

  /** `lstrip` drops exactly the maximal leading run of whitespace. */
  lemma {:induction false} TrimLeftSpec(s: string)
    ensures var r := TrimLeft(s);
      && r == s[|s| - |r|..]
      && AllSpace(s[..|s| - |r|])
      && (|r| > 0 ==> !IsSpace(r[0]))
    decreases |s|
  {
    if |s| > 0 && IsSpace(s[0]) {
      TrimLeftSpec(s[1..]);
      var r := TrimLeft(s[1..]);
      assert s[1..][..|s| - 1 - |r|] == s[1..|s| - |r|];
    }
  }

  /** `rstrip` drops exactly the maximal trailing run of whitespace. */
  lemma {:induction false} TrimRightSpec(s: string)
    ensures var r := TrimRight(s);
      && r == s[..|r|]
      && AllSpace(s[|r|..])
      && (|r| > 0 ==> !IsSpace(r[|r| - 1]))
    decreases |s|
  {
    if |s| > 0 && IsSpace(s[|s| - 1]) {
      TrimRightSpec(s[..|s| - 1]);
      var r := TrimRight(s[..|s| - 1]);
      assert s[..|s| - 1][|r|..] + [s[|s| - 1]] == s[|r|..];
    }
  }

  /** `r` is what remains of `s` once all leading and trailing whitespace
      is removed: a slice of `s` framed by whitespace on both sides whose
      own ends are not whitespace. */
  ghost predicate StrippedFrom(s: string, r: string) {
    exists a :: 0 <= a <= |s| - |r| && r == s[a..a + |r|]
      && AllSpace(s[..a]) && AllSpace(s[a + |r|..])
      && (|r| > 0 ==> !IsSpace(r[0]) && !IsSpace(r[|r| - 1]))
  }

  /** `strip` removes exactly the whitespace framing the text. */
  lemma StripSpec(s: string)
    ensures StrippedFrom(s, Strip(s))
  {
    var l := TrimLeft(s);
    TrimLeftSpec(s);
    TrimRightSpec(l);
    var r := TrimRight(l);
    var a := |s| - |l|;
    assert r == s[a..a + |r|];
    assert s[a + |r|..] == l[|r|..];
  }

  /** Stripping text that holds no whitespace leaves it unchanged. */
  lemma StripNoSpace(s: string)
    requires NoSpace(s)
    ensures Strip(s) == s
  {
    assert TrimLeft(s) == s;
    assert TrimRight(s) == s;
  }

  /** `s.startswith(p)`. */
  predicate StartsWith(s: string, p: string) {
    |p| <= |s| && s[..|p|] == p
  }

  /** `s.endswith(p)`. */
  predicate EndsWith(s: string, p: string) {
    |p| <= |s| && s[|s| - |p|..] == p
  }

  /** `p` occurs in `s` starting at index `k`. */
  predicate OccursAt(s: string, p: string, k: int) {
    0 <= k && k + |p| <= |s| && s[k..k + |p|] == p
  }

  ghost predicate Occurs(s: string, p: string) {
    exists k :: OccursAt(s, p, k)
  }

  /** `p in s` for strings: a left-to-right search. */
  predicate Contains(s: string, p: string)
    decreases |s|
  {
    StartsWith(s, p) || (|s| > 0 && Contains(s[1..], p))
  }

  /** The search finds `p` exactly when `p` occurs somewhere in `s`. */
  lemma {:induction false} ContainsIff(s: string, p: string)
    ensures Contains(s, p) <==> Occurs(s, p)
    decreases |s|
  {
    if StartsWith(s, p) {
      assert OccursAt(s, p, 0);
    } else if |s| > 0 {
      ContainsIff(s[1..], p);
      OccursTail(s, p);
      if Contains(s[1..], p) {
        var k :| OccursAt(s[1..], p, k);
        assert k + 1 + |p| <= |s|;
        assert s[1..][k..k + |p|] == s[k + 1..k + 1 + |p|];
        assert OccursAt(s, p, k + 1);
      }
    }
  }

  /** An occurrence that is not at the front is an occurrence in the tail. */
  lemma OccursTail(s: string, p: string)
    requires |s| > 0 && !StartsWith(s, p)
    ensures Occurs(s, p) ==> Occurs(s[1..], p)
  {
    if Occurs(s, p) {
      var k :| OccursAt(s, p, k);
      assert k != 0;
      assert s[1..][k - 1..k - 1 + |p|] == s[k..k + |p|];
      assert OccursAt(s[1..], p, k - 1);
    }
  }

  /** `"".join(ls)`. */
  function Join(ls: seq<string>): string {
    if |ls| == 0 then "" else ls[0] + Join(ls[1..])
  }

  /** A non-negative Python index `x` of a length-`n` list after
      normalisation: negative values count from the end, and both ends
      are clamped into `[0, n]`. */
  function Clamp(x: int, n: nat): (r: nat)
    ensures r <= n
    ensures 0 <= x <= n ==> r == x
    ensures -(n as int) <= x < 0 ==> r == x + n as int
  {
    if x < 0 then (if x + n < 0 then 0 else x + n)
    else if x > n then n
    else x
  }

  /** Python's `s[a:b]` for arbitrary integers `a` and `b`. */
  function PySlice<T>(s: seq<T>, a: int, b: int): (r: seq<T>)
    ensures |r| <= |s|
    ensures 0 <= a <= b <= |s| ==> r == s[a..b]
  {
    var lo := Clamp(a, |s|);
    var hi := Clamp(b, |s|);
    if lo <= hi then s[lo..hi] else []
  }

  /** Python's `s[k]`: `None` stands for the IndexError raised outside
      `[-len(s), len(s))`. */
  function PyIndex<T>(s: seq<T>, k: int): (r: Option<T>)
    ensures r.Some? <==> -|s| <= k < |s|
    ensures 0 <= k < |s| ==> r == Some(s[k])
    ensures -|s| <= k < 0 ==> r == Some(s[|s| + k])
  {
    if 0 <= k < |s| then Some(s[k])
    else if -|s| <= k < 0 then Some(s[|s| + k])
    else None
  }

  /** `s.split(sep)` with an explicit separator: every separator splits,
      so there is always one more part than there are separators. */
  function Split(s: string, sep: char): (parts: seq<string>)
    ensures |parts| >= 1
  {
    if |s| == 0 then [""]
    else
      var rest := Split(s[1..], sep);
      if s[0] == sep then [""] + rest
      else [[s[0]] + rest[0]] + rest[1..]
  }

  /** There is one more part than there are separators. */
  lemma {:induction false} SplitCount(s: string, sep: char)
    ensures |Split(s, sep)| == multiset(s)[sep] + 1
  {
    if |s| > 0 {
      SplitCount(s[1..], sep);
      assert s == [s[0]] + s[1..];
    }
  }

  /** No part holds a separator. */
  lemma {:induction false} SplitParts(s: string, sep: char)
    ensures forall k :: 0 <= k < |Split(s, sep)| ==> sep !in Split(s, sep)[k]
  {
    if |s| > 0 {
      SplitParts(s[1..], sep);
      var rest := Split(s[1..], sep);
      if s[0] != sep {
        var parts := Split(s, sep);
        assert parts[0] == [s[0]] + rest[0];
        assert forall k :: 1 <= k < |parts| ==> parts[k] == rest[k];
      }
    }
  }

  /** `sep.join(parts)`. */
  function JoinWith(parts: seq<string>, sep: char): string {
    if |parts| == 0 then ""
    else if |parts| == 1 then parts[0]
    else parts[0] + [sep] + JoinWith(parts[1..], sep)
  }

  /** Joining the parts of a split with the same separator gives back the
      original text. */
  lemma {:induction false} SplitJoin(s: string, sep: char)
    ensures JoinWith(Split(s, sep), sep) == s
  {
    if |s| > 0 {
      SplitJoin(s[1..], sep);
      var rest := Split(s[1..], sep);
      assert s == [s[0]] + s[1..];
      if s[0] == sep {
        assert Split(s, sep) == [""] + rest;
        JoinWithCons("", rest, sep);
      } else {
        assert Split(s, sep) == [[s[0]] + rest[0]] + rest[1..];
        JoinWithFirst(s[0], rest, sep);
      }
    }
  }

  lemma JoinWithCons(p: string, rest: seq<string>, sep: char)
    requires |rest| >= 1
    ensures JoinWith([p] + rest, sep) == p + [sep] + JoinWith(rest, sep)
  {
    assert ([p] + rest)[1..] == rest;
  }

  /** Putting a character in front of the first part puts it in front of
      the joined text. */
  lemma JoinWithFirst(c: char, rest: seq<string>, sep: char)
    requires |rest| >= 1
    ensures JoinWith([[c] + rest[0]] + rest[1..], sep) == [c] + JoinWith(rest, sep)
  {
    if |rest| > 1 {
      JoinWithCons([c] + rest[0], rest[1..], sep);
      JoinWithCons(rest[0], rest[1..], sep);
      assert [rest[0]] + rest[1..] == rest;
    }
  }

  /** Splitting a word that holds no separator, then a separator and more
      text, peels off exactly that word. */
  lemma {:induction false} SplitWord(w: string, sep: char, t: string)
    requires sep !in w
    ensures Split(w + [sep] + t, sep) == [w] + Split(t, sep)
    decreases |w|
  {
    if |w| == 0 {
      assert w + [sep] + t == [sep] + t;
      assert ([sep] + t)[1..] == t;
    } else {
      var u := w[1..] + [sep] + t;
      SplitWord(w[1..], sep, t);
      assert w + [sep] + t == [w[0]] + u;
      SplitCons(w[0], u, sep);
      assert [w[0]] + w[1..] == w;
    }
  }

  /** A first character other than the separator joins the first part. */
  lemma SplitCons(c: char, s: string, sep: char)
    requires c != sep
    ensures Split([c] + s, sep) == [[c] + Split(s, sep)[0]] + Split(s, sep)[1..]
  {
    assert ([c] + s)[1..] == s;
  }

  /** A word without separators splits into itself alone. */
  lemma {:induction false} SplitNoSep(w: string, sep: char)
    requires sep !in w
    ensures Split(w, sep) == [w]
    decreases |w|
  {
    if |w| > 0 {
      SplitNoSep(w[1..], sep);
      assert [w[0]] + w[1..] == w;
    }
  }

  /** Splitting a separator-free list joined by the separator gives the
      list back. */
  lemma {:induction false} JoinSplit(parts: seq<string>, sep: char)
    requires |parts| >= 1
    requires forall k :: 0 <= k < |parts| ==> sep !in parts[k]
    ensures Split(JoinWith(parts, sep), sep) == parts
  {
    if |parts| == 1 {
      SplitNoSep(parts[0], sep);
    } else {
      JoinSplit(parts[1..], sep);
      SplitWord(parts[0], sep, JoinWith(parts[1..], sep));
      assert [parts[0]] + parts[1..] == parts;
    }
  }

  /** The joined text ends with the last part, right after a separator
      when there is more than one part. */
  lemma {:induction false} JoinWithLast(parts: seq<string>, sep: char)
    requires |parts| >= 2
    ensures JoinWith(parts, sep)
         == JoinWith(parts[..|parts| - 1], sep) + [sep] + parts[|parts| - 1]
  {
    if |parts| > 2 {
      JoinWithLast(parts[1..], sep);
      assert parts[1..][..|parts| - 2] == parts[..|parts| - 1][1..];
    }
  }

  /** `s.split(sep)[-1]` is the text after the last separator: it holds
      no separator, ends `s`, and is preceded by a separator whenever `s`
      holds one. */
  lemma AfterLastSeparator(s: string, sep: char)
    ensures var parts := Split(s, sep);
      var last := parts[|parts| - 1];
      && sep !in last
      && EndsWith(s, last)
      && (sep in s ==> |last| < |s| && s[|s| - |last| - 1] == sep)
      && (sep !in s ==> last == s)
  {
    var parts := Split(s, sep);
    SplitJoin(s, sep);
    SplitParts(s, sep);
    JoinLastPart(s, parts, sep);
  }

  /** The last of separator-free parts joined into `s` ends `s`, right
      after a separator when `s` holds one. */
  lemma JoinLastPart(s: string, parts: seq<string>, sep: char)
    requires |parts| >= 1 && JoinWith(parts, sep) == s
    requires sep !in parts[|parts| - 1]
    ensures var last := parts[|parts| - 1];
      && EndsWith(s, last)
      && (sep in s ==> |last| < |s| && s[|s| - |last| - 1] == sep)
      && (sep !in s ==> last == s)
  {
    var last := parts[|parts| - 1];
    if |parts| >= 2 {
      JoinWithLast(parts, sep);
      LastAfterSeparator(s, JoinWith(parts[..|parts| - 1], sep), sep, last);
    } else {
      assert s[|s| - |last|..] == last;
    }
  }

  lemma LastAfterSeparator(s: string, a: string, sep: char, last: string)
    requires s == a + [sep] + last
    ensures sep in s
    ensures EndsWith(s, last)
    ensures |last| < |s| && s[|s| - |last| - 1] == sep
  {
    assert s[|a|] == sep;
    assert s[|s| - |last|..] == last;
  }

  predicate IsDigit(c: char) {
    '0' <= c <= '9'
  }

  predicate AllDigits(s: string) {
    forall k :: 0 <= k < |s| ==> IsDigit(s[k])
  }

  /** The value of a string of decimal digits. */
  function DigitsValue(ds: string): nat
    requires AllDigits(ds)
  {
    if |ds| == 0 then 0
    else DigitsValue(ds[..|ds| - 1]) * 10 + (ds[|ds| - 1] as int - '0' as int)
  }

  /** Python's `int(s)` on ASCII text: surrounding whitespace, an optional
      sign and at least one decimal digit; anything else raises
      ValueError, modelled as `None`. */
  function ParseInt(s: string): Option<int> {
    var t := Strip(s);
    if |t| > 0 && (t[0] == '-' || t[0] == '+') then
      var ds := t[1..];
      if |ds| > 0 && AllDigits(ds) then
        Some(if t[0] == '-' then -(DigitsValue(ds) as int) else DigitsValue(ds))
      else None
    else if |t| > 0 && AllDigits(t) then Some(DigitsValue(t))
    else None
  }

  /** Decimal rendering of a natural number, most significant digit first. */
  function ShowNat(n: nat): (r: string)
    ensures |r| > 0 && AllDigits(r)
    ensures DigitsValue(r) == n
  {
    var d := ['0' + (n % 10) as char];
    if n < 10 then d
    else
      var r := ShowNat(n / 10) + d;
      assert r[..|r| - 1] == ShowNat(n / 10);
      r
  }

  /** Decimal rendering of an integer, with a leading '-' when negative. */
  function ShowInt(n: int): string {
    if n < 0 then "-" + ShowNat(-n) else ShowNat(n)
  }

  /** Digits and the minus sign are not whitespace. */
  lemma ShowIntNoSpace(n: int)
    ensures NoSpace(ShowInt(n))
  {
    var s := ShowInt(n);
    forall k | 0 <= k < |s| ensures !IsSpace(s[k]) {
      if n < 0 && k > 0 {
        assert s[k] == ShowNat(-n)[k - 1];
        assert IsDigit(s[k]);
      } else if n >= 0 {
        assert IsDigit(s[k]);
      }
    }
  }

  /** `int(str(n)) == n`. */
  lemma ParseShow(n: int)
    ensures ParseInt(ShowInt(n)) == Some(n)
  {
    var s := ShowInt(n);
    ShowIntNoSpace(n);
    StripNoSpace(s);
    if n < 0 {
      assert s[1..] == ShowNat(-n);
      assert s[0] == '-';
    } else {
      assert IsDigit(s[0]);
    }
  }
}
