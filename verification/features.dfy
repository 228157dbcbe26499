/** The file-level feature list: four substring flags and a count of
    arithmetic-operator characters, computed once per file over the
    concatenated text. */
module Features {
  import opened PyStr

  /** A character matched by `\+|\-|\*|\/`. */
  predicate IsArithmetic(c: char) {
    c == '+' || c == '-' || c == '*' || c == '/'
  }

  /** `len(re.findall(r"\+|\-|\*|\/", text))`: every match is a single
      character, so this is how often the four characters occur. */
  function ArithmeticCount(text: string): (n: nat)
    ensures n <= |text|
    ensures n == multiset(text)['+'] + multiset(text)['-']
               + multiset(text)['*'] + multiset(text)['/']
  {
    if |text| == 0 then 0
    else
      assert text == [text[0]] + text[1..];
      (if IsArithmetic(text[0]) then 1 else 0) + ArithmeticCount(text[1..])
  }

  function Flag(b: bool): int {
    if b then 1 else 0
  }

  /** The list `[use_of_libraries, access_control, num_arithmetic_ops,
      pragma_directives, use_of_design_patterns]`. */
  function AdditionalFeatures(text: string): (r: seq<int>)
    ensures |r| == 5
    ensures r[0] in {0, 1} && (r[0] == 1 <==> Occurs(text, "import"))
    ensures r[1] in {0, 1} && (r[1] == 1 <==> Occurs(text, "require"))
    ensures r[2] == multiset(text)['+'] + multiset(text)['-']
                  + multiset(text)['*'] + multiset(text)['/']
    ensures 0 <= r[2] <= |text|
    ensures r[3] in {0, 1} && (r[3] == 1 <==> Occurs(text, "pragma"))
    ensures r[4] in {0, 1}
    ensures r[4] == 1 <==> Occurs(text, "inheritance") || Occurs(text, "state machine")
                           || Occurs(text, "delegate")
  {
    ContainsIff(text, "import");
    ContainsIff(text, "require");
    ContainsIff(text, "require(");
    RequireCallIsRequire(text);
    ContainsIff(text, "pragma");
    ContainsIff(text, "inheritance");
    ContainsIff(text, "state machine");
    ContainsIff(text, "delegate");
    [ Flag(Contains(text, "import")),
      Flag(Contains(text, "require") || Contains(text, "require(")),
      ArithmeticCount(text),
      Flag(Contains(text, "pragma")),
      Flag(Contains(text, "inheritance") || Contains(text, "state machine")
           || Contains(text, "delegate")) ]
  }

  /** The `"require(" in ...` alternative of the access-control test adds
      nothing: any `require(` is also a `require`. */
  lemma RequireCallIsRequire(text: string)
    ensures Occurs(text, "require(") ==> Occurs(text, "require")
  {
    if Occurs(text, "require(") {
      var k :| OccursAt(text, "require(", k);
      assert text[k..k + 7] == text[k..k + 8][..7];
      assert OccursAt(text, "require", k);
    }
  }

  /** The feature columns of a record, by name. */
  datatype FeatureVector = FeatureVector(
    useOfLibraries: int,
    accessControl: int,
    numArithmeticOps: int,
    pragmaDirectives: int,
    useOfDesignPatterns: int)

  /** The tuple unpacking `(use_of_libraries, ...) = get_additional_features(...)`. */
  function Vector(text: string): FeatureVector {
    var f := AdditionalFeatures(text);
    FeatureVector(f[0], f[1], f[2], f[3], f[4])
  }
}
