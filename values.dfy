/**
 * The PHP values a field can hold, and the parts of PHP 8's semantics the
 * rules rely on: `empty()`, numeric strings, the decimal form of an integer,
 * the comparison operators and loose equality `==`.
 */
module Values {
  import opened Text

  /** A field value. Arrays are lists (their keys play no part in the rules); objects are opaque. */
  datatype Value =
    | VNull
    | VBool(b: bool)
    | VInt(i: int)
    | VStr(s: string)
    | VArr(items: seq<Value>)
    | VObj(id: nat)

  /** The input mapping from field name to value. */
  type Fields = map<string, Value>

  /** `$fields[$key] ?? null`. */
  function Get(fields: Fields, key: string): Value {
    if key in fields then fields[key] else VNull
  }

  /** PHP `empty($v)`. */
  predicate IsEmpty(v: Value) {
    match v
    case VNull => true
    case VBool(b) => !b
    case VInt(i) => i == 0
    case VStr(s) => s == "" || s == "0"
    case VArr(items) => items == []
    case VObj(_) => false
  }

  /** The truth value PHP gives `$v` in a condition. */
  predicate Truthy(v: Value) {
    !IsEmpty(v)
  }

  /** The truth value of a string: anything but "" and "0". */
  predicate TruthyStr(s: string) {
    Truthy(VStr(s))
  }

  /** The falsy values are exactly null, false, 0, "", "0" and the empty array. */
  lemma FalsyValues(v: Value)
    ensures !Truthy(v) <==> v in [VNull, VBool(false), VInt(0), VStr(""), VStr("0"), VArr([])]
  {
  }

  // ---------------------------------------------------------------- numeric strings

  predicate AllDigits(s: string) {
    forall i :: 0 <= i < |s| ==> IsDigit(s[i])
  }

  /** `s` without one leading sign. */
  function Unsigned(s: string): string {
    if |s| > 0 && (s[0] == '+' || s[0] == '-') then s[1..] else s
  }

  /** The digits before the decimal point. */
  function IntPart(u: string): string {
    u[..IndexOf(u, '.')]
  }

  /** The digits after the decimal point ("" when there is none). */
  function FracPart(u: string): string {
    var d := IndexOf(u, '.');
    if d < |u| then u[d + 1..] else ""
  }

  /**
   * A numeric string in the decimal form: an optional sign, digits, an
   * optional point and more digits, with at least one digit in all.
   */
  predicate IsNumericStr(s: string) {
    var u := Unsigned(s);
    AllDigits(IntPart(u)) && AllDigits(FracPart(u)) && |IntPart(u)| + |FracPart(u)| > 0
  }

  function DigitValue(c: char): nat
    requires IsDigit(c)
  {
    c as int - '0' as int
  }

  /** The number a run of decimal digits denotes. */
  function DigitsValue(ds: string): nat
    requires AllDigits(ds)
  {
    if ds == [] then 0 else DigitsValue(ds[..|ds| - 1]) * 10 + DigitValue(ds[|ds| - 1])
  }

  function Pow10(n: nat): (r: nat)
    ensures r >= 1
  {
    if n == 0 then 1 else 10 * Pow10(n - 1)
  }

  /** The value of a numeric string. */
  function NumValue(s: string): real
    requires IsNumericStr(s)
  {
    var u := Unsigned(s);
    var frac := FracPart(u);
    var magnitude := DigitsValue(IntPart(u)) as real + DigitsValue(frac) as real / Pow10(|frac|) as real;
    if |s| > 0 && s[0] == '-' then -magnitude else magnitude
  }

  /** A run of digits has no decimal point, so it is its own integer part. */
  lemma DigitRunParts(ds: string)
    requires |ds| >= 1 && AllDigits(ds) && ds[0] != '+' && ds[0] != '-'
    ensures Unsigned(ds) == ds && IntPart(ds) == ds && FracPart(ds) == ""
    ensures IsNumericStr(ds)
  {
    assert IndexOf(ds, '.') == |ds|;
  }

  /** An unsigned run of digits is a numeric string denoting its digits' value. */
  lemma DigitRunIsNumeric(ds: string)
    requires |ds| >= 1 && AllDigits(ds) && ds[0] != '+' && ds[0] != '-'
    ensures IsNumericStr(ds) && NumValue(ds) == DigitsValue(ds) as real
  {
    DigitRunParts(ds);
  }

  /** The strings the `numeric` test in tests/Validation/ValidationTest.php accepts. */
  lemma NumericStringsAccepted()
    ensures IsNumericStr("6") && IsNumericStr("6.0") && IsNumericStr("-6") && IsNumericStr("-6.0")
  {
    DigitRunParts("6");
    assert Unsigned("-6") == "6";
    assert IndexOf("6.0", '.') == 1;
    assert IntPart("6.0") == "6" && FracPart("6.0") == "0";
    assert Unsigned("-6.0") == "6.0";
  }

  /** The strings the `numeric` test in tests/Validation/ValidationTest.php rejects. */
  lemma NumericStringsRejected()
    ensures !IsNumericStr("v6.0") && !IsNumericStr("") && !IsNumericStr(".") && !IsNumericStr("-")
  {
    assert IndexOf("v6.0", '.') == 2;
    assert IntPart("v6.0") == "v6";
    assert IndexOf(".", '.') == 0;
    assert IntPart(".") == "" && FracPart(".") == "";
    assert Unsigned("-") == "";
  }

  function DigitChar(d: nat): (c: char)
    requires d < 10
    ensures IsDigit(c) && DigitValue(c) == d
  {
    ('0' as int + d) as char
  }

  /** The decimal digits of `n`. */
  function NatToString(n: nat): string
  {
    if n < 10 then [DigitChar(n)] else NatToString(n / 10) + [DigitChar(n % 10)]
  }

  /** `(string)$n`: PHP's decimal form of an integer. */
  function IntToString(n: int): string {
    if n < 0 then "-" + NatToString(-n) else NatToString(n)
  }

  lemma {:induction false} NatToStringDigits(n: nat)
    ensures |NatToString(n)| >= 1 && AllDigits(NatToString(n))
    ensures DigitsValue(NatToString(n)) == n
  {
    if n >= 10 {
      NatToStringDigits(n / 10);
      var p := NatToString(n / 10);
      var s := p + [DigitChar(n % 10)];
      assert s[..|s| - 1] == p;
    }
  }

  /** The decimal form of an integer is a numeric string denoting that integer. */
  lemma IntToStringIsNumeric(n: int)
    ensures IsNumericStr(IntToString(n))
    ensures NumValue(IntToString(n)) == n as real
  {
    var t := NatToString(if n < 0 then -n else n);
    NatToStringDigits(if n < 0 then -n else n);
    var s := IntToString(n);
    assert Unsigned(s) == t by {
      if n < 0 {
        assert s[1..] == t;
      }
    }
    assert IndexOf(t, '.') == |t|;
    assert IntPart(t) == t;
  }

  // ---------------------------------------------------------------- comparison

  /** An operand of a comparison in the size rules: an integer or a string. */
  datatype Scalar = SInt(n: int) | SStr(s: string)

  /** `is_numeric` on an operand. */
  predicate IsNum(x: Scalar) {
    x.SInt? || IsNumericStr(x.s)
  }

  function NumOf(x: Scalar): real
    requires IsNum(x)
  {
    match x
    case SInt(n) => n as real
    case SStr(s) => NumValue(s)
  }

  /** The string an operand is compared as when the comparison is not numeric. */
  function StrOf(x: Scalar): string {
    match x
    case SInt(n) => IntToString(n)
    case SStr(s) => s
  }

  function Sign(r: real): int {
    if r < 0.0 then -1 else if r > 0.0 then 1 else 0
  }

  /** `strcmp`'s verdict: the lexicographic order of character codes. */
  function LexCompare(a: string, b: string): (r: int)
    ensures -1 <= r <= 1
  {
    if a == [] && b == [] then 0
    else if a == [] then -1
    else if b == [] then 1
    else if a[0] < b[0] then -1
    else if a[0] > b[0] then 1
    else LexCompare(a[1..], b[1..])
  }

  /**
   * PHP 8's `$a <=> $b` for integers and strings: by value when both are
   * numeric, otherwise as strings, the integer side in its decimal form.
   */
  function Compare(a: Scalar, b: Scalar): (r: int)
    ensures -1 <= r <= 1
  {
    if IsNum(a) && IsNum(b) then Sign(NumOf(a) - NumOf(b)) else LexCompare(StrOf(a), StrOf(b))
  }

  lemma {:induction false} LexCompareAntisymmetric(a: string, b: string)
    ensures LexCompare(a, b) == -LexCompare(b, a)
  {
    if a != [] && b != [] && a[0] == b[0] {
      LexCompareAntisymmetric(a[1..], b[1..]);
    }
  }

  /** Two strings compare as equal exactly when they are the same string. */
  lemma {:induction false} LexCompareZero(a: string, b: string)
    ensures LexCompare(a, b) == 0 <==> a == b
  {
    if a != [] && b != [] && a[0] == b[0] {
      LexCompareZero(a[1..], b[1..]);
      assert a == [a[0]] + a[1..] && b == [b[0]] + b[1..];
    }
  }

  /** Swapping the operands negates the verdict; an operand equals itself. */
  lemma CompareAntisymmetric(a: Scalar, b: Scalar)
    ensures Compare(a, b) == -Compare(b, a)
    ensures Compare(a, a) == 0
  {
    LexCompareAntisymmetric(StrOf(a), StrOf(b));
    LexCompareZero(StrOf(a), StrOf(a));
  }

  /** Integers compare by value, whatever the other side's form. */
  lemma CompareIntegers(m: int, n: int)
    ensures Compare(SInt(m), SInt(n)) < 0 <==> m < n
    ensures Compare(SInt(m), SInt(n)) == 0 <==> m == n
    ensures Compare(SInt(m), SStr(IntToString(n))) == Compare(SInt(m), SInt(n))
  {
    IntToStringIsNumeric(n);
  }

  // ---------------------------------------------------------------- loose equality

  /**
   * PHP 8's loose equality `$a == $b` on field values. Null meets a string
   * as ""; a boolean or null meets anything else by truth value; integers and
   * strings follow `Compare`; arrays are equal when their elements are,
   * position by position; objects are equal when they are the same object.
   */
  function LooseEq(a: Value, b: Value): bool
  {
    match (a, b)
    case (VNull, VNull) => true
    case (VNull, VStr(t)) => t == ""
    case (VStr(s), VNull) => s == ""
    case (VBool(x), _) => x == Truthy(b)
    case (_, VBool(y)) => Truthy(a) == y
    case (VNull, _) => !Truthy(b)
    case (_, VNull) => !Truthy(a)
    case (VInt(m), VInt(n)) => m == n
    case (VInt(m), VStr(t)) => Compare(SInt(m), SStr(t)) == 0
    case (VStr(s), VInt(n)) => Compare(SStr(s), SInt(n)) == 0
    case (VStr(s), VStr(t)) => Compare(SStr(s), SStr(t)) == 0
    case (VArr(xs), VArr(ys)) => |xs| == |ys| && forall i :: 0 <= i < |xs| ==> LooseEq(xs[i], ys[i])
    case (VObj(p), VObj(q)) => p == q
    case _ => false
  }

  /** Every value is loosely equal to itself. */
  lemma {:induction false} LooseEqReflexive(v: Value)
    ensures LooseEq(v, v)
  {
    match v
    case VStr(s) => CompareAntisymmetric(SStr(s), SStr(s));
    case VArr(xs) =>
      forall i | 0 <= i < |xs| ensures LooseEq(xs[i], xs[i]) {
        LooseEqReflexive(xs[i]);
      }
    case _ =>
  }

  /** Loose equality does not depend on the order of its operands. */
  lemma {:induction false} LooseEqSymmetric(a: Value, b: Value)
    ensures LooseEq(a, b) == LooseEq(b, a)
  {
    match (a, b)
    case (VInt(m), VStr(t)) => CompareAntisymmetric(SInt(m), SStr(t));
    case (VStr(s), VInt(n)) => CompareAntisymmetric(SStr(s), SInt(n));
    case (VStr(s), VStr(t)) => CompareAntisymmetric(SStr(s), SStr(t));
    case (VArr(xs), VArr(ys)) =>
      if |xs| == |ys| {
        forall i | 0 <= i < |xs| ensures LooseEq(xs[i], ys[i]) == LooseEq(ys[i], xs[i]) {
          LooseEqSymmetric(xs[i], ys[i]);
        }
      }
    case _ =>
  }

  /** Two strings that are not both numeric are loosely equal only when identical: the comparison is case-sensitive. */
  lemma LooseEqStrings(s: string, t: string)
    requires !IsNumericStr(s) || !IsNumericStr(t)
    ensures LooseEq(VStr(s), VStr(t)) <==> s == t
  {
    LexCompareZero(s, t);
  }
}
