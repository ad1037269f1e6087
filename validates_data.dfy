/**
 * The built-in rules. Each reads `$fields[$key] ?? null` and its options and
 * either passes or fails with the message key `validation.<name>`; the ones
 * that hand the value to a string-only library call raise a type error when
 * the value is truthy but not a string.
 */
module ValidatesData {
  import opened Wrappers
  import opened Text
  import opened Values
  import opened Environment

  datatype Builtin =
    | Required | Alpha | Alphanum | Num | Slug | Regex | Email | Same | Different
    | After | Before | Between | Min | Max | Size | Array | Numeric | String

  /** The rule's name: its method name after `validate`, lower-cased. */
  function Name(b: Builtin): string {
    match b
    case Required => "required"
    case Alpha => "alpha"
    case Alphanum => "alphanum"
    case Num => "num"
    case Slug => "slug"
    case Regex => "regex"
    case Email => "email"
    case Same => "same"
    case Different => "different"
    case After => "after"
    case Before => "before"
    case Between => "between"
    case Min => "min"
    case Max => "max"
    case Size => "size"
    case Array => "array"
    case Numeric => "numeric"
    case String => "string"
  }

  /** The message key a failing built-in passes to the failure callback. */
  function Message(b: Builtin): string {
    "validation." + Name(b)
  }

  function FailWith(b: Builtin): RuleOutcome {
    Fail(Some(Message(b)))
  }

  // ---------------------------------------------------------------- lookup by name

  /** `s` without the characters the method-name synthesis removes: '-', '_' and ' '. */
  function StripSeparators(s: string): (r: string)
    ensures forall i :: 0 <= i < |r| ==> r[i] != '-' && r[i] != '_' && r[i] != ' '
  {
    if s == [] then []
    else if s[0] == '-' || s[0] == '_' || s[0] == ' ' then StripSeparators(s[1..])
    else [s[0]] + StripSeparators(s[1..])
  }

  /**
   * The key under which a rule type finds its method: `validate_<type>`
   * turned into camel case, and compared the way PHP compares method names,
   * ignoring ASCII case.
   */
  function NormalizeName(ty: string): string {
    Lower(StripSeparators(ty))
  }

  /** Every built-in, in the order the trait declares them. */
  const Builtins: seq<Builtin> := [Required, Alpha, Alphanum, Num, Slug, Regex, Email, Same, Different,
                                   After, Before, Between, Min, Max, Size, Array, Numeric, String]

  lemma AllListed(b: Builtin)
    ensures b in Builtins
  {
  }

  /** The first built-in of `bs` with the normalised name `n`. */
  function Find(bs: seq<Builtin>, n: string): (r: Option<Builtin>)
    ensures r.Some? ==> r.value in bs && Name(r.value) == n
    ensures r.None? ==> forall i :: 0 <= i < |bs| ==> Name(bs[i]) != n
  {
    if bs == [] then None
    else if Name(bs[0]) == n then Some(bs[0])
    else Find(bs[1..], n)
  }

  /** The built-in a normalised name denotes. */
  function ByName(n: string): (r: Option<Builtin>)
    ensures r.Some? ==> Name(r.value) == n
    ensures r.None? ==> forall b :: Name(b) != n
  {
    var r := Find(Builtins, n);
    assert r.None? ==> forall b :: Name(b) != n by {
      forall b ensures r.None? ==> Name(b) != n {
        AllListed(b);
      }
    }
    r
  }

  /** The built-in whose method `method_exists` finds for a rule type. */
  function Lookup(ty: string): (r: Option<Builtin>)
    ensures r.Some? ==> Name(r.value) == NormalizeName(ty)
    ensures r.None? ==> forall b :: Name(b) != NormalizeName(ty)
  {
    ByName(NormalizeName(ty))
  }

  /** No two built-ins share a name. */
  lemma NameInjective(a: Builtin, b: Builtin)
    requires Name(a) == Name(b)
    ensures a == b
  {
  }

  lemma {:induction false} FindListed(bs: seq<Builtin>, b: Builtin)
    requires b in bs
    ensures Find(bs, Name(b)).Some?
  {
    if bs[0] != b {
      FindListed(bs[1..], b);
    }
  }

  /** A rule type finds a built-in exactly when its normal form is that built-in's name. */
  lemma LookupExactly(ty: string, b: Builtin)
    ensures Lookup(ty) == Some(b) <==> NormalizeName(ty) == Name(b)
  {
    if NormalizeName(ty) == Name(b) {
      AllListed(b);
      FindListed(Builtins, b);
      NameInjective(Lookup(ty).value, b);
    }
  }

  lemma {:induction false} StripAppend(a: string, b: string)
    ensures StripSeparators(a + b) == StripSeparators(a) + StripSeparators(b)
  {
    if a != [] {
      assert (a + b)[0] == a[0];
      assert (a + b)[1..] == a[1..] + b;
      StripAppend(a[1..], b);
    } else {
      assert a + b == b;
    }
  }

  lemma LowerAppend(a: string, b: string)
    ensures Lower(a + b) == Lower(a) + Lower(b)
  {
  }

  /** A separator anywhere in a rule type is ignored. */
  lemma SeparatorIgnored(a: string, c: char, b: string)
    requires c == '-' || c == '_' || c == ' '
    ensures NormalizeName(a + [c] + b) == NormalizeName(a + b)
  {
    StripAppend(a + [c], b);
    StripAppend(a, [c]);
    StripAppend(a, b);
    assert StripSeparators([c]) == [];
    assert StripSeparators(a + [c] + b) == StripSeparators(a) + StripSeparators(b);
  }

  /** Upper-casing letters in a rule type is ignored. */
  lemma {:induction false} CaseIgnored(s: string)
    ensures NormalizeName(Lower(s)) == NormalizeName(s)
  {
    StripLower(s);
    var t := StripSeparators(s);
    assert Lower(Lower(t)) == Lower(t);
  }

  lemma {:induction false} StripLower(s: string)
    ensures StripSeparators(Lower(s)) == Lower(StripSeparators(s))
  {
    if s != [] {
      assert Lower(s) == [LowerChar(s[0])] + Lower(s[1..]);
      StripAppend([LowerChar(s[0])], Lower(s[1..]));
      StripAppend([s[0]], s[1..]);
      assert s == [s[0]] + s[1..];
      StripLower(s[1..]);
      LowerAppend(StripSeparators([s[0]]), StripSeparators(s[1..]));
    }
  }

  /** Lower-casing a rule type, or dropping a separator from it, does not change the built-in it finds. */
  lemma LookupIgnoresCaseAndSeparators(ty: string, a: string, c: char, b: string)
    requires c == '-' || c == '_' || c == ' '
    ensures Lookup(Lower(ty)) == Lookup(ty)
    ensures Lookup(a + [c] + b) == Lookup(a + b)
  {
    CaseIgnored(ty);
    SeparatorIgnored(a, c, b);
  }

  /** A rule type without separators is its own stripped form. */
  lemma {:induction false} StripPlain(s: string)
    requires forall i :: 0 <= i < |s| ==> s[i] != '-' && s[i] != '_' && s[i] != ' '
    ensures StripSeparators(s) == s
  {
    if s != [] {
      StripPlain(s[1..]);
    }
  }

  /** 'aLPhAnum' finds the alphanum built-in: the case of a rule type plays no part. */
  lemma MixedCaseLookup(ty: string)
    requires ty == "aLPhAnum"
    ensures Lookup(ty) == Some(Alphanum)
  {
    StripPlain(ty);
    var low := Lower(ty);
    assert low == "alphanum" by {
      assert |low| == 8;
      assert forall i :: 0 <= i < 8 ==> low[i] == LowerChar(ty[i]);
    }
    LookupExactly(ty, Alphanum);
  }

  // ---------------------------------------------------------------- character-class rules

  datatype CharClass = Letters | LettersDigits | Digits | SlugChars

  predicate InClass(c: char, cls: CharClass) {
    match cls
    case Letters => IsLetter(c)
    case LettersDigits => IsAlnum(c)
    case Digits => IsDigit(c)
    case SlugChars => IsLowerLetter(c) || c == '-' || c == '_'
  }

  /**
   * `preg_match('/^[class]+$/', $s) == 1`: one or more characters of the
   * class, where PCRE's `$` also matches before one final "\n".
   */
  predicate MatchesRun(s: string, cls: CharClass) {
    var body := DropFinalNewline(s);
    |body| > 0 && forall i :: 0 <= i < |body| ==> InClass(body[i], cls)
  }

  /** On a string without "\n" the pattern matches iff every character is in the class; one final "\n" makes no difference. */
  lemma MatchesRunNewline(s: string, cls: CharClass)
    requires '\n' !in s
    ensures MatchesRun(s, cls) <==> |s| > 0 && forall i :: 0 <= i < |s| ==> InClass(s[i], cls)
    ensures MatchesRun(s + "\n", cls) == MatchesRun(s, cls)
    ensures !MatchesRun(s + "\n\n", cls)
  {
    assert DropFinalNewline(s + "\n") == s;
    var t := s + "\n\n";
    assert DropFinalNewline(t) == s + "\n";
    assert DropFinalNewline(t)[|s|] == '\n';
  }

  /** The shared shape of alpha, alphanum, num and slug. */
  function MatchRule(b: Builtin, v: Value, cls: CharClass): (r: RuleOutcome)
    ensures r.Pass? <==> v.VStr? && Truthy(v) && MatchesRun(v.s, cls)
    ensures r.Raise? <==> Truthy(v) && !v.VStr?
    ensures r.Raise? ==> r.error == TypeError
    ensures r.Fail? ==> r == FailWith(b)
  {
    if !Truthy(v) then FailWith(b)
    else if !v.VStr? then Raise(TypeError)
    else if MatchesRun(v.s, cls) then Pass
    else FailWith(b)
  }

  function ValidateRequired(fields: Fields, key: string): (r: RuleOutcome)
    ensures r == Pass || r == FailWith(Required)
    ensures r.Pass? <==> key in fields && Truthy(fields[key])
  {
    if Truthy(Get(fields, key)) then Pass else FailWith(Required)
  }

  /** `required` fails exactly on a missing key and on null, false, 0, "", "0" and []; 'foo' passes. */
  lemma RequiredFailsOnEmpty(fields: Fields, key: string)
    ensures ValidateRequired(fields, key).Fail? <==>
      key !in fields || fields[key] in [VNull, VBool(false), VInt(0), VStr(""), VStr("0"), VArr([])]
    ensures ValidateRequired(map[key := VStr("foo")], key) == Pass
  {
    if key in fields {
      FalsyValues(fields[key]);
    }
  }

  function ValidateAlpha(fields: Fields, key: string): RuleOutcome {
    MatchRule(Alpha, Get(fields, key), Letters)
  }

  function ValidateAlphanum(fields: Fields, key: string): RuleOutcome {
    MatchRule(Alphanum, Get(fields, key), LettersDigits)
  }

  function ValidateNum(fields: Fields, key: string): RuleOutcome {
    MatchRule(Num, Get(fields, key), Digits)
  }

  function ValidateSlug(fields: Fields, key: string): RuleOutcome {
    MatchRule(Slug, Get(fields, key), SlugChars)
  }

  /**
   * `alpha` on the values of its test in tests/Validation/ValidationTest.php,
   * plus a missing key, which fails, and an integer, which raises a TypeError.
   */
  lemma AlphaExamples(key: string)
    ensures ValidateAlpha(map[key := VStr("test")], key) == Pass
    ensures ValidateAlpha(map[key := VStr("Test")], key) == Pass
    ensures ValidateAlpha(map[key := VStr("TEST")], key) == Pass
    ensures ValidateAlpha(map[key := VStr("test123")], key) == FailWith(Alpha)
    ensures ValidateAlpha(map[], key) == FailWith(Alpha)
    ensures ValidateAlpha(map[key := VInt(7)], key) == Raise(TypeError)
  {
    assert "test123"[4] == '1';
  }

  /** `alphanum` on the value of its test in tests/Validation/ValidationTest.php, and on "test123", which it accepts. */
  lemma AlphanumExamples(key: string)
    ensures ValidateAlphanum(map[key := VStr("test123")], key) == Pass
    ensures ValidateAlphanum(map[key := VStr("test123!")], key) == FailWith(Alphanum)
  {
    assert "test123!"[7] == '!';
  }

  /** `num` on the values of its test in tests/Validation/ValidationTest.php; the falsy "0" fails although it is a digit. */
  lemma NumExamples(key: string)
    ensures ValidateNum(map[key := VStr("123")], key) == Pass
    ensures ValidateNum(map[key := VStr("test")], key) == FailWith(Num)
    ensures ValidateNum(map[key := VStr("0")], key) == FailWith(Num)
  {
    assert "test"[0] == 't';
  }

  /** `slug` on the values of its test in tests/Validation/ValidationTest.php: '-' and '_' are both slug characters. */
  lemma SlugExamples(key: string)
    ensures ValidateSlug(map[key := VStr("valid-slug")], key) == Pass
    ensures ValidateSlug(map[key := VStr("valid_slug")], key) == Pass
    ensures ValidateSlug(map[key := VStr("non valid slug")], key) == FailWith(Slug)
  {
    assert "non valid slug"[3] == ' ';
  }

  // ---------------------------------------------------------------- regex and email

  /** `regex` matches against options[0], the raw remainder of the expression, so commas in a pattern survive. */
  function ValidateRegex(env: Env, fields: Fields, key: string, options: seq<string>): (r: RuleOutcome)
    ensures r.Pass? <==>
      && Get(fields, key).VStr? && TruthyStr(Get(fields, key).s)
      && |options| > 0 && TruthyStr(options[0])
      && env.pregMatch(options[0], Get(fields, key).s)
    ensures |options| == 0 ==> r == FailWith(Regex)
    ensures r.Raise? ==> r.error == TypeError && !Get(fields, key).VStr?
  {
    var v := Get(fields, key);
    if !(Truthy(v) && |options| > 0 && TruthyStr(options[0])) then FailWith(Regex)
    else if !v.VStr? then Raise(TypeError)
    else if env.pregMatch(options[0], v.s) then Pass
    else FailWith(Regex)
  }

  predicate IsLocalChar(c: char) {
    IsAlnum(c) || c in ".!#$%&'*+/=?^_`{|}~-"
  }

  /** One domain label: 1 to 63 letters, digits or hyphens, neither starting nor ending with a hyphen. */
  predicate IsLabel(l: string) {
    && 1 <= |l| <= 63
    && IsAlnum(l[0]) && IsAlnum(l[|l| - 1])
    && forall i :: 0 <= i < |l| ==> IsAlnum(l[i]) || l[i] == '-'
  }

  predicate IsLocalPart(s: string) {
    |s| > 0 && forall i :: 0 <= i < |s| ==> IsLocalChar(s[i])
  }

  /** A string the email pattern matches up to its end: local part, '@', dot-separated labels. */
  predicate IsEmailBody(b: string) {
    var at := IndexOf(b, '@');
    && at < |b|
    && IsLocalPart(b[..at])
    && var labels := SplitOn(b[at + 1..], '.');
       forall k :: 0 <= k < |labels| ==> IsLabel(labels[k])
  }

  /** The pattern of the `email` rule of ValidatesData.php, with PCRE's `$` allowing one final "\n". */
  predicate IsEmailAddress(s: string) {
    IsEmailBody(DropFinalNewline(s))
  }

  lemma LocalPartHasNoAt(local: string)
    requires IsLocalPart(local)
    ensures '@' !in local
  {
    assert forall i :: 0 <= i < |local| ==> local[i] != '@';
  }

  lemma LabelsHaveNoDot(labels: seq<string>)
    requires forall k :: 0 <= k < |labels| ==> IsLabel(labels[k])
    ensures forall k :: 0 <= k < |labels| ==> '.' !in labels[k]
  {
    forall k | 0 <= k < |labels| ensures '.' !in labels[k] {
      var l := labels[k];
      assert forall i :: 0 <= i < |l| ==> l[i] != '.';
    }
  }

  /** The first '@' of `local + "@" + d`, where `local` holds none, separates the two. */
  lemma SplitAtSign(local: string, d: string)
    requires '@' !in local
    ensures var b := local + "@" + d;
      IndexOf(b, '@') == |local| && b[..|local|] == local && b[|local| + 1..] == d
  {
    IndexOfAfterPrefix(local, '@', d);
    var b := local + "@" + d;
    assert b[..|local|] == local;
    assert b[|local| + 1..] == d;
  }

  /** Any local part, '@' and one or more labels joined by '.' is accepted. */
  lemma EmailFromParts(local: string, labels: seq<string>)
    requires IsLocalPart(local)
    requires |labels| >= 1 && forall k :: 0 <= k < |labels| ==> IsLabel(labels[k])
    ensures IsEmailBody(local + "@" + Join(labels, '.'))
  {
    var d := Join(labels, '.');
    LocalPartHasNoAt(local);
    SplitAtSign(local, d);
    LabelsHaveNoDot(labels);
    SplitOnJoin(labels, '.');
  }

  /** Everything accepted is a local part, '@' and labels joined by '.'. */
  lemma EmailToParts(b: string) returns (local: string, labels: seq<string>)
    requires IsEmailBody(b)
    ensures IsLocalPart(local)
    ensures |labels| >= 1 && forall k :: 0 <= k < |labels| ==> IsLabel(labels[k])
    ensures b == local + "@" + Join(labels, '.')
  {
    var at := IndexOf(b, '@');
    local := b[..at];
    var d := b[at + 1..];
    labels := SplitOn(d, '.');
    JoinSplitOn(d, '.');
    assert b == b[..at] + [b[at]] + b[at + 1..];
  }

  function ValidateEmail(fields: Fields, key: string): (r: RuleOutcome)
    ensures r.Pass? <==> Get(fields, key).VStr? && TruthyStr(Get(fields, key).s) && IsEmailAddress(Get(fields, key).s)
    ensures r.Raise? <==> Truthy(Get(fields, key)) && !Get(fields, key).VStr?
    ensures r.Fail? ==> r == FailWith(Email)
  {
    var v := Get(fields, key);
    if !Truthy(v) then FailWith(Email)
    else if !v.VStr? then Raise(TypeError)
    else if IsEmailAddress(v.s) then Pass
    else FailWith(Email)
  }

  lemma LocalPartConcat(a: string, b: string)
    requires IsLocalPart(a) && IsLocalPart(b)
    ensures IsLocalPart(a + b)
  {
  }

  lemma ExampleDomain()
    ensures IsLabel("example") && IsLabel("com")
    ensures Join(["example", "com"], '.') == "example.com"
  {
  }

  /** 'test@example.com' is an address. */
  lemma SimpleAddress(e: string)
    requires e == "test@example.com"
    ensures IsEmailBody(e)
  {
    ExampleDomain();
    EmailFromParts("test", ["example", "com"]);
    assert "test" + "@" + "example.com" == e;
  }

  lemma DottedLocalPart()
    ensures IsLocalPart("another.test")
  {
    assert IsLocalPart(".");
    LocalPartConcat("another", ".");
    LocalPartConcat("another.", "test");
  }

  /** 'another.test@example.com' is an address: dots may appear in the local part. */
  lemma DottedAddress(e: string)
    requires e == "another.test@example.com"
    ensures IsEmailBody(e)
  {
    ExampleDomain();
    DottedLocalPart();
    EmailFromParts("another.test", ["example", "com"]);
    assert "another.test" + "@" + "example.com" == e;
  }

  /** 'not an email' has no '@' and is not an address. */
  lemma NotAnAddress(e: string)
    requires e == "not an email"
    ensures !IsEmailBody(e)
  {
    assert IndexOf(e, '@') == |e|;
  }

  // ---------------------------------------------------------------- same and different

  /** The field `same`/`different` compare with: options[1], or "" (PHP reads `$fields[null]` as `$fields[""]`). */
  function OtherField(options: seq<string>): string {
    if |options| > 1 then options[1] else ""
  }

  function ValidateSame(fields: Fields, key: string, options: seq<string>): (r: RuleOutcome)
    ensures r == Pass || r == FailWith(Same)
    ensures r.Pass? <==> LooseEq(Get(fields, key), Get(fields, OtherField(options)))
  {
    if LooseEq(Get(fields, key), Get(fields, OtherField(options))) then Pass else FailWith(Same)
  }

  function ValidateDifferent(fields: Fields, key: string, options: seq<string>): (r: RuleOutcome)
    ensures r == Pass || r == FailWith(Different)
    ensures r.Pass? <==> !LooseEq(Get(fields, key), Get(fields, OtherField(options)))
  {
    if LooseEq(Get(fields, key), Get(fields, OtherField(options))) then FailWith(Different) else Pass
  }

  /**
   * `different` is the negation of `same`: on any input, a bare token with no
   * option included, exactly one of them fails.
   */
  lemma SameDifferentComplement(fields: Fields, key: string, options: seq<string>)
    ensures ValidateSame(fields, key, options).Fail? != ValidateDifferent(fields, key, options).Fail?
  {
  }

  /** Swapping the two fields named by `same` does not change its verdict. */
  lemma SameSymmetric(fields: Fields, key: string, other: string, options: seq<string>)
    requires |options| > 1 && options[1] == other
    ensures ValidateSame(fields, key, options) == Pass <==> ValidateSame(fields, other, [other, key]) == Pass
  {
    LooseEqSymmetric(Get(fields, key), Get(fields, other));
  }

  /** A value is the same as itself; a missing field counts as null. */
  lemma SameOnItself(fields: Fields, key: string)
    ensures ValidateSame(fields, key, [key, key]) == Pass
    ensures key !in fields && "" !in fields ==> ValidateSame(fields, key, []) == Pass
  {
    LooseEqReflexive(Get(fields, key));
  }

  /** A string that starts with a letter is not numeric. */
  lemma LetterLeadIsNotNumeric(s: string)
    requires |s| > 0 && IsLetter(s[0])
    ensures !IsNumericStr(s)
  {
    assert Unsigned(s) == s;
    assert IndexOf(s, '.') > 0;
    assert IntPart(s)[0] == s[0];
  }

  /** The comparison is case-sensitive: 'FooBarBaz!' is not the same as 'fOObARbAZ!'. */
  lemma SameIsCaseSensitive(key: string, other: string)
    requires key != other
    ensures var fields := map[key := VStr("FooBarBaz!"), other := VStr("fOObARbAZ!")];
      ValidateSame(fields, key, [other, other]) == FailWith(Same)
      && ValidateDifferent(fields, key, [other, other]) == Pass
    ensures var fields := map[key := VStr("FooBarBaz!"), other := VStr("FooBarBaz!")];
      ValidateSame(fields, key, [other, other]) == Pass
  {
    LetterLeadIsNotNumeric("FooBarBaz!");
    LooseEqStrings("FooBarBaz!", "fOObARbAZ!");
    LooseEqReflexive(VStr("FooBarBaz!"));
  }

  // ---------------------------------------------------------------- after and before

  /** `strtotime($s)` as the subtraction sees it: its `false` counts as 0. */
  function TimeOf(env: Env, s: string): int {
    match env.strtotime(s)
    case Some(t) => t
    case None => 0
  }

  /** The time the value stands for: its parse when truthy, `time()` otherwise. */
  function ValueTime(env: Env, v: Value): int
    requires !(Truthy(v) && !v.VStr?)
  {
    if Truthy(v) then TimeOf(env, v.s) else env.now
  }

  /** A limit is given when options[1] is a truthy string. */
  predicate HasLimit(options: seq<string>) {
    |options| > 1 && TruthyStr(options[1])
  }

  function ValidateAfter(env: Env, fields: Fields, key: string, options: seq<string>): (r: RuleOutcome)
    ensures var v := Get(fields, key);
      && (r.Raise? <==> Truthy(v) && !v.VStr?)
      && (r.Pass? <==> !(Truthy(v) && !v.VStr?) && HasLimit(options) && ValueTime(env, v) > TimeOf(env, options[1]))
    ensures r.Raise? ==> r.error == TypeError
    ensures r.Fail? ==> r == FailWith(After)
  {
    var v := Get(fields, key);
    if Truthy(v) && !v.VStr? then Raise(TypeError)
    else
      var time := if Truthy(v) then TimeOf(env, v.s) else env.now;
      if HasLimit(options) && time - TimeOf(env, options[1]) > 0 then Pass else FailWith(After)
  }

  function ValidateBefore(env: Env, fields: Fields, key: string, options: seq<string>): (r: RuleOutcome)
    ensures var v := Get(fields, key);
      && (r.Raise? <==> Truthy(v) && !v.VStr?)
      && (r.Pass? <==> !(Truthy(v) && !v.VStr?) && HasLimit(options) && ValueTime(env, v) < TimeOf(env, options[1]))
    ensures r.Raise? ==> r.error == TypeError
    ensures r.Fail? ==> r == FailWith(Before)
  {
    var v := Get(fields, key);
    if Truthy(v) && !v.VStr? then Raise(TypeError)
    else
      var time := if Truthy(v) then TimeOf(env, v.s) else env.now;
      if HasLimit(options) && time - TimeOf(env, options[1]) < 0 then Pass else FailWith(Before)
  }

  /**
   * `after` and `before` never both pass; both fail without a limit and both
   * fail when the value's time equals the limit's.
   */
  lemma AfterBeforeExclusive(env: Env, fields: Fields, key: string, options: seq<string>)
    ensures !(ValidateAfter(env, fields, key, options).Pass? && ValidateBefore(env, fields, key, options).Pass?)
    ensures !HasLimit(options) ==> !ValidateAfter(env, fields, key, options).Pass? && !ValidateBefore(env, fields, key, options).Pass?
    ensures var v := Get(fields, key);
      !(Truthy(v) && !v.VStr?) && HasLimit(options) && ValueTime(env, v) == TimeOf(env, options[1]) ==>
        ValidateAfter(env, fields, key, options) == FailWith(After) && ValidateBefore(env, fields, key, options) == FailWith(Before)
  {
  }

  // ---------------------------------------------------------------- size rules

  /** `is_numeric($v)`: an integer or a numeric string. */
  predicate IsNumericValue(v: Value) {
    v.VInt? || (v.VStr? && IsNumericStr(v.s))
  }

  /**
   * What the size rules compare: the value itself when it is numeric, the
   * character count of another string, the element count of an array; other
   * types have no measure.
   */
  function Measure(v: Value): (m: Option<Scalar>)
    ensures m.Some? ==> IsNum(m.value)
    ensures m.None? <==> !(v.VInt? || v.VStr? || v.VArr?)
  {
    if IsNumericValue(v) then Some(if v.VInt? then SInt(v.i) else SStr(v.s))
    else if v.VStr? then Some(SInt(|v.s|))
    else if v.VArr? then Some(SInt(|v.items|))
    else None
  }

  /**
   * An integer measures as itself, a numeric string as its numeral, another
   * string by its length and an array by its count.
   */
  lemma MeasureByType(v: Value)
    ensures v.VInt? ==> Measure(v) == Some(SInt(v.i))
    ensures v.VStr? && IsNumericStr(v.s) ==> Measure(v) == Some(SStr(v.s))
    ensures v.VStr? && !IsNumericStr(v.s) ==> Measure(v) == Some(SInt(|v.s|))
    ensures v.VArr? ==> Measure(v) == Some(SInt(|v.items|))
  {
  }

  /** options[i], or the integer 0 when absent (`$options[i] ?? 0`). */
  function Threshold(options: seq<string>, i: nat): Scalar {
    if |options| > i then SStr(options[i]) else SInt(0)
  }

  function ValidateBetween(fields: Fields, key: string, options: seq<string>): (r: RuleOutcome)
    ensures r == Pass || r == FailWith(Between)
    ensures Measure(Get(fields, key)).None? ==> r.Fail?
  {
    match Measure(Get(fields, key))
    case None => FailWith(Between)
    case Some(x) =>
      if Compare(x, Threshold(options, 1)) >= 0 && Compare(x, Threshold(options, 2)) <= 0 then Pass
      else FailWith(Between)
  }

  function ValidateMin(fields: Fields, key: string, options: seq<string>): (r: RuleOutcome)
    ensures r == Pass || r == FailWith(Min)
    ensures Measure(Get(fields, key)).None? ==> r.Fail?
  {
    match Measure(Get(fields, key))
    case None => FailWith(Min)
    case Some(x) => if Compare(x, Threshold(options, 1)) >= 0 then Pass else FailWith(Min)
  }

  function ValidateMax(fields: Fields, key: string, options: seq<string>): (r: RuleOutcome)
    ensures r == Pass || r == FailWith(Max)
    ensures Measure(Get(fields, key)).None? ==> r.Fail?
  {
    match Measure(Get(fields, key))
    case None => FailWith(Max)
    case Some(x) => if Compare(x, Threshold(options, 1)) <= 0 then Pass else FailWith(Max)
  }

  function ValidateSize(fields: Fields, key: string, options: seq<string>): (r: RuleOutcome)
    ensures r == Pass || r == FailWith(Size)
    ensures Measure(Get(fields, key)).None? ==> r.Fail?
  {
    match Measure(Get(fields, key))
    case None => FailWith(Size)
    case Some(x) => if Compare(x, Threshold(options, 1)) == 0 then Pass else FailWith(Size)
  }

  /** The number a measured value is compared by, when the threshold is numeric. */
  function MeasureValue(v: Value): (m: real)
    requires Measure(v).Some?
    ensures v.VInt? ==> m == v.i as real
    ensures v.VStr? && IsNumericStr(v.s) ==> m == NumValue(v.s)
    ensures v.VStr? && !IsNumericStr(v.s) ==> m == |v.s| as real
    ensures v.VArr? ==> m == |v.items| as real
  {
    NumOf(Measure(v).value)
  }

  /** Against a numeric operand, `<=>` is the order of the numbers. */
  lemma CompareNumbers(x: Scalar, y: Scalar)
    requires IsNum(x) && IsNum(y)
    ensures Compare(x, y) >= 0 <==> NumOf(x) >= NumOf(y)
    ensures Compare(x, y) <= 0 <==> NumOf(x) <= NumOf(y)
    ensures Compare(x, y) == 0 <==> NumOf(x) == NumOf(y)
  {
  }

  /**
   * With numeric thresholds `between:a,b` compares the measure (the number,
   * the character count or the element count) by value, and never accepts
   * null, booleans or objects.
   */
  lemma BetweenByValue(fields: Fields, key: string, options: seq<string>)
    requires |options| > 2 && IsNumericStr(options[1]) && IsNumericStr(options[2])
    ensures var v := Get(fields, key);
      ValidateBetween(fields, key, options).Pass? <==>
        Measure(v).Some? && NumValue(options[1]) <= MeasureValue(v) <= NumValue(options[2])
  {
    var v := Get(fields, key);
    if Measure(v).Some? {
      var x := Measure(v).value;
      CompareNumbers(x, SStr(options[1]));
      CompareNumbers(x, SStr(options[2]));
    }
  }

  /**
   * With a numeric threshold in options[1], as `min:n`, `max:n` and `size:n`
   * give, the three rules compare the measure with it by value, and never
   * accept null, booleans or objects.
   */
  lemma MinMaxSizeByValue(fields: Fields, key: string, options: seq<string>)
    requires |options| > 1 && IsNumericStr(options[1])
    ensures var v := Get(fields, key);
      && (ValidateMin(fields, key, options).Pass? <==> Measure(v).Some? && MeasureValue(v) >= NumValue(options[1]))
      && (ValidateMax(fields, key, options).Pass? <==> Measure(v).Some? && MeasureValue(v) <= NumValue(options[1]))
      && (ValidateSize(fields, key, options).Pass? <==> Measure(v).Some? && MeasureValue(v) == NumValue(options[1]))
  {
    var v := Get(fields, key);
    if Measure(v).Some? {
      CompareNumbers(Measure(v).value, SStr(options[1]));
    }
  }

  /** Given only a positive minimum, the maximum defaults to 0 and `between` accepts nothing. */
  lemma BetweenWithoutMaximum(fields: Fields, key: string, options: seq<string>)
    requires |options| == 2 && IsNumericStr(options[1]) && NumValue(options[1]) > 0.0
    ensures ValidateBetween(fields, key, options) == FailWith(Between)
  {
  }

  /**
   * With no threshold `max` accepts exactly the numbers at most 0, the empty
   * string and the empty array, and `size` exactly the numbers equal to 0,
   * the empty string and the empty array.
   */
  lemma MaxSizeWithoutOption(fields: Fields, key: string, options: seq<string>)
    requires |options| <= 1
    ensures var v := Get(fields, key);
      ValidateMax(fields, key, options).Pass? <==>
        (IsNumericValue(v) && MeasureValue(v) <= 0.0) || v == VStr("") || v == VArr([])
    ensures var v := Get(fields, key);
      ValidateSize(fields, key, options).Pass? <==>
        (IsNumericValue(v) && MeasureValue(v) == 0.0) || v == VStr("") || v == VArr([])
  {
    var v := Get(fields, key);
    if v.VStr? && !IsNumericStr(v.s) && v.s != "" {
      assert |v.s| > 0;
    }
  }

  /** `between:5,10`: the measure must lie between 5 and 10. */
  lemma BetweenFiveAndTen(fields: Fields, key: string, options: seq<string>)
    requires options == ["5,10", "5", "10"]
    ensures ValidateBetween(fields, key, options).Pass? <==>
      Measure(Get(fields, key)).Some? && 5.0 <= MeasureValue(Get(fields, key)) <= 10.0
  {
    assert DigitsValue("5") == 5;
    assert DigitsValue("10") == 10 by {
      assert "10"[..1] == "1";
    }
    DigitRunIsNumeric(options[1]);
    DigitRunIsNumeric(options[2]);
    BetweenByValue(fields, key, options);
  }

  /** The values of the `between:5,10` test in tests/Validation/ValidationTest.php: 6, 'Contosso' and a six-element array pass; 12, a long sentence and a three-element array fail. */
  lemma BetweenExamples(key: string, options: seq<string>)
    requires options == ["5,10", "5", "10"]
    ensures ValidateBetween(map[key := VInt(6)], key, options) == Pass
    ensures ValidateBetween(map[key := VStr("Contosso")], key, options) == Pass
    ensures ValidateBetween(map[key := VArr([VInt(1), VInt(2), VInt(3), VInt(4), VInt(5), VInt(6)])], key, options) == Pass
    ensures ValidateBetween(map[key := VInt(12)], key, options) == FailWith(Between)
    ensures ValidateBetween(map[key := VStr("Lorem ipsum dolor sit amet")], key, options) == FailWith(Between)
    ensures ValidateBetween(map[key := VArr([VInt(1), VInt(2), VInt(3)])], key, options) == FailWith(Between)
  {
    BetweenFiveAndTen(map[key := VInt(6)], key, options);
    LetterLeadIsNotNumeric("Contosso");
    BetweenFiveAndTen(map[key := VStr("Contosso")], key, options);
    BetweenFiveAndTen(map[key := VArr([VInt(1), VInt(2), VInt(3), VInt(4), VInt(5), VInt(6)])], key, options);
    BetweenFiveAndTen(map[key := VInt(12)], key, options);
    LetterLeadIsNotNumeric("Lorem ipsum dolor sit amet");
    BetweenFiveAndTen(map[key := VStr("Lorem ipsum dolor sit amet")], key, options);
    BetweenFiveAndTen(map[key := VArr([VInt(1), VInt(2), VInt(3)])], key, options);
  }

  /** `min:3`, `max:3` and `size:3` (options ['3', '3']) compare the measure with 3. */
  lemma ThresholdThree(fields: Fields, key: string, options: seq<string>)
    requires options == ["3", "3"]
    ensures var v := Get(fields, key);
      && (ValidateMin(fields, key, options).Pass? <==> Measure(v).Some? && MeasureValue(v) >= 3.0)
      && (ValidateMax(fields, key, options).Pass? <==> Measure(v).Some? && MeasureValue(v) <= 3.0)
      && (ValidateSize(fields, key, options).Pass? <==> Measure(v).Some? && MeasureValue(v) == 3.0)
  {
    assert DigitsValue("3") == 3;
    DigitRunIsNumeric(options[1]);
    MinMaxSizeByValue(fields, key, options);
  }

  /** `max:5` (options ['5', '5']) accepts a measure of at most 5. */
  lemma ThresholdFive(fields: Fields, key: string, options: seq<string>)
    requires options == ["5", "5"]
    ensures ValidateMax(fields, key, options).Pass? <==>
      Measure(Get(fields, key)).Some? && MeasureValue(Get(fields, key)) <= 5.0
  {
    assert DigitsValue("5") == 5;
    DigitRunIsNumeric(options[1]);
    MinMaxSizeByValue(fields, key, options);
  }

  /** The values of the `min:3` test in tests/Validation/ValidationTest.php: 6, 'Contosso' and a six-element array pass; 2, 'No', a two-element array and an object fail. */
  lemma MinExamples(key: string, options: seq<string>)
    requires options == ["3", "3"]
    ensures ValidateMin(map[key := VInt(6)], key, options) == Pass
    ensures ValidateMin(map[key := VStr("Contosso")], key, options) == Pass
    ensures ValidateMin(map[key := VArr([VInt(1), VInt(2), VInt(3), VInt(4), VInt(5), VInt(6)])], key, options) == Pass
    ensures ValidateMin(map[key := VInt(2)], key, options) == FailWith(Min)
    ensures ValidateMin(map[key := VStr("No")], key, options) == FailWith(Min)
    ensures ValidateMin(map[key := VArr([VInt(1), VInt(2)])], key, options) == FailWith(Min)
    ensures ValidateMin(map[key := VObj(0)], key, options) == FailWith(Min)
  {
    ThresholdThree(map[key := VInt(6)], key, options);
    LetterLeadIsNotNumeric("Contosso");
    ThresholdThree(map[key := VStr("Contosso")], key, options);
    ThresholdThree(map[key := VArr([VInt(1), VInt(2), VInt(3), VInt(4), VInt(5), VInt(6)])], key, options);
    ThresholdThree(map[key := VInt(2)], key, options);
    LetterLeadIsNotNumeric("No");
    ThresholdThree(map[key := VStr("No")], key, options);
    ThresholdThree(map[key := VArr([VInt(1), VInt(2)])], key, options);
  }

  /** The values of the `max:5` test in tests/Validation/ValidationTest.php: 3, 'Yes' and a four-element array pass; 6, 'Lorem ipsum', a six-element array and an object fail. */
  lemma MaxExamples(key: string, options: seq<string>)
    requires options == ["5", "5"]
    ensures ValidateMax(map[key := VInt(3)], key, options) == Pass
    ensures ValidateMax(map[key := VStr("Yes")], key, options) == Pass
    ensures ValidateMax(map[key := VArr([VInt(1), VInt(2), VInt(3), VInt(4)])], key, options) == Pass
    ensures ValidateMax(map[key := VInt(6)], key, options) == FailWith(Max)
    ensures ValidateMax(map[key := VStr("Lorem ipsum")], key, options) == FailWith(Max)
    ensures ValidateMax(map[key := VArr([VInt(1), VInt(2), VInt(3), VInt(4), VInt(5), VInt(6)])], key, options) == FailWith(Max)
    ensures ValidateMax(map[key := VObj(0)], key, options) == FailWith(Max)
  {
    ThresholdFive(map[key := VInt(3)], key, options);
    LetterLeadIsNotNumeric("Yes");
    ThresholdFive(map[key := VStr("Yes")], key, options);
    ThresholdFive(map[key := VArr([VInt(1), VInt(2), VInt(3), VInt(4)])], key, options);
    ThresholdFive(map[key := VInt(6)], key, options);
    LetterLeadIsNotNumeric("Lorem ipsum");
    ThresholdFive(map[key := VStr("Lorem ipsum")], key, options);
    ThresholdFive(map[key := VArr([VInt(1), VInt(2), VInt(3), VInt(4), VInt(5), VInt(6)])], key, options);
  }

  /** The values of the `size:3` test in tests/Validation/ValidationTest.php: 3, 'Yes' and a three-element array pass; 6, 'Lorem ipsum', a six-element array and an object fail. */
  lemma SizeExamples(key: string, options: seq<string>)
    requires options == ["3", "3"]
    ensures ValidateSize(map[key := VInt(3)], key, options) == Pass
    ensures ValidateSize(map[key := VStr("Yes")], key, options) == Pass
    ensures ValidateSize(map[key := VArr([VInt(1), VInt(2), VInt(3)])], key, options) == Pass
    ensures ValidateSize(map[key := VInt(6)], key, options) == FailWith(Size)
    ensures ValidateSize(map[key := VStr("Lorem ipsum")], key, options) == FailWith(Size)
    ensures ValidateSize(map[key := VArr([VInt(1), VInt(2), VInt(3), VInt(4), VInt(5), VInt(6)])], key, options) == FailWith(Size)
    ensures ValidateSize(map[key := VObj(0)], key, options) == FailWith(Size)
  {
    ThresholdThree(map[key := VInt(3)], key, options);
    LetterLeadIsNotNumeric("Yes");
    ThresholdThree(map[key := VStr("Yes")], key, options);
    ThresholdThree(map[key := VArr([VInt(1), VInt(2), VInt(3)])], key, options);
    ThresholdThree(map[key := VInt(6)], key, options);
    LetterLeadIsNotNumeric("Lorem ipsum");
    ThresholdThree(map[key := VStr("Lorem ipsum")], key, options);
    ThresholdThree(map[key := VArr([VInt(1), VInt(2), VInt(3), VInt(4), VInt(5), VInt(6)])], key, options);
  }

  // ---------------------------------------------------------------- type tests

  function ValidateArray(fields: Fields, key: string): (r: RuleOutcome)
    ensures r == Pass || r == FailWith(Array)
    ensures r.Pass? <==> Get(fields, key).VArr?
  {
    if Get(fields, key).VArr? then Pass else FailWith(Array)
  }

  function ValidateNumeric(fields: Fields, key: string): (r: RuleOutcome)
    ensures r == Pass || r == FailWith(Numeric)
    ensures r.Pass? <==> IsNumericValue(Get(fields, key))
  {
    if IsNumericValue(Get(fields, key)) then Pass else FailWith(Numeric)
  }

  function ValidateString(fields: Fields, key: string): (r: RuleOutcome)
    ensures r == Pass || r == FailWith(String)
    ensures r.Pass? <==> Get(fields, key).VStr?
  {
    if Get(fields, key).VStr? then Pass else FailWith(String)
  }

  // ---------------------------------------------------------------- dispatch

  /**
   * Calling the built-in method: a failing built-in always passes its own
   * message key, and only the rules that hand the value to `preg_match` or
   * `strtotime` can raise, and then only a type error.
   */
  function Apply(env: Env, b: Builtin, fields: Fields, key: string, options: seq<string>): (r: RuleOutcome)
    ensures r.Fail? ==> r.message == Some(Message(b))
    ensures r.Raise? ==> r.error == TypeError && b in {Alpha, Alphanum, Num, Slug, Regex, Email, After, Before}
  {
    match b
    case Required => ValidateRequired(fields, key)
    case Alpha => ValidateAlpha(fields, key)
    case Alphanum => ValidateAlphanum(fields, key)
    case Num => ValidateNum(fields, key)
    case Slug => ValidateSlug(fields, key)
    case Regex => ValidateRegex(env, fields, key, options)
    case Email => ValidateEmail(fields, key)
    case Same => ValidateSame(fields, key, options)
    case Different => ValidateDifferent(fields, key, options)
    case After => ValidateAfter(env, fields, key, options)
    case Before => ValidateBefore(env, fields, key, options)
    case Between => ValidateBetween(fields, key, options)
    case Min => ValidateMin(fields, key, options)
    case Max => ValidateMax(fields, key, options)
    case Size => ValidateSize(fields, key, options)
    case Array => ValidateArray(fields, key)
    case Numeric => ValidateNumeric(fields, key)
    case String => ValidateString(fields, key)
  }
}
