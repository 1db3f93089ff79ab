/** The JavaScript values that travel between the portal's forms and its
    API routes, with JavaScript's truthiness and the `value || undefined`
    idiom the forms use. */
module Js {
  import opened Text

  /** A JSON-ish value. `Num(text)` is a number, written as JavaScript's
      `String(n)` renders it (so zero is "0" and not-a-number is "NaN");
      `ParsedFloat(raw)` is the number `parseFloat(raw)` yields, which the
      model does not compute. */
  datatype JsVal =
    | Undefined
    | Null
    | Bool(b: bool)
    | Str(s: string)
    | Num(text: string)
    | ParsedFloat(raw: string)
    | List(items: seq<JsVal>)
    | Object(fields: map<string, JsVal>)

  /** A JSON object: absent keys read as `undefined`. */
  type JsObject = map<string, JsVal>

  /** JavaScript's `Boolean(v)`. A parsed number is only ever judged by
      an endpoint, after the request body has been sent as JSON, where a
      NaN or an infinity arrives as `null`: it is truthy when it is a
      finite number other than zero. */
  predicate Truthy(v: JsVal) {
    match v
    case Undefined => false
    case Null => false
    case Bool(b) => b
    case Str(s) => s != ""
    case Num(t) => t != "0" && t != "NaN"
    case ParsedFloat(raw) => ParsesNonZero(raw)
    case List(_) => true
    case Object(_) => true
  }

  /** The decimal digits at the start of `s`. */
  function DigitRun(s: string): (r: string)
    ensures |r| <= |s| && r == s[..|r|]
    ensures forall k :: 0 <= k < |r| ==> '0' <= r[k] <= '9'
    ensures |r| < |s| ==> !('0' <= s[|r|] <= '9')
  {
    if |s| > 0 && '0' <= s[0] <= '9' then [s[0]] + DigitRun(s[1..]) else []
  }

  /** The digits of the decimal literal `parseFloat(raw)` reads: past
      leading whitespace and one sign, the integer digits and, after a
      '.', the fraction digits. The exponent is not read. */
  function MantissaDigits(raw: string): (r: string)
    ensures forall k :: 0 <= k < |r| ==> '0' <= r[k] <= '9'
  {
    var t := TrimStart(raw);
    var u := if |t| > 0 && (t[0] == '+' || t[0] == '-') then t[1..] else t;
    var whole := DigitRun(u);
    var rest := u[|whole|..];
    whole + if |rest| > 0 && rest[0] == '.' then DigitRun(rest[1..]) else []
  }

  /** `parseFloat(raw)` is a finite number other than zero: its literal has
      a digit other than '0'. Without digits it is NaN (or, for
      "Infinity", an infinity); with zeros only it is zero. */
  predicate ParsesNonZero(raw: string) {
    exists k :: 0 <= k < |MantissaDigits(raw)| && MantissaDigits(raw)[k] != '0'
  }

  /** Whitespace-free text is its own `TrimStart`. */
  lemma NothingToTrim(s: string)
    requires |s| > 0 && !IsWhitespace(s[0])
    ensures TrimStart(s) == s
  {
  }

  /** `s` has no digit from 1 to 9. */
  predicate NoNonZeroDigit(s: string) {
    forall k :: 0 <= k < |s| ==> !('1' <= s[k] <= '9')
  }

  lemma SuffixNoNonZeroDigit(s: string, i: nat)
    requires NoNonZeroDigit(s) && i <= |s|
    ensures NoNonZeroDigit(s[i..])
  {
    forall k | 0 <= k < |s| - i
      ensures !('1' <= s[i..][k] <= '9')
    {
      assert s[i..][k] == s[i + k];
    }
  }

  lemma DigitRunZeros(s: string)
    requires NoNonZeroDigit(s)
    ensures forall k :: 0 <= k < |DigitRun(s)| ==> DigitRun(s)[k] == '0'
  {
    var r := DigitRun(s);
    assert forall k :: 0 <= k < |r| ==> r[k] == s[k];
  }

  /** `parseFloat` gives a truthy number only when the text has a digit
      other than '0': text whose digits are all zeros (or that has none)
      parses to zero or NaN, both falsy. */
  lemma NoNonZeroDigitFalsy(raw: string)
    requires NoNonZeroDigit(raw)
    ensures !ParsesNonZero(raw)
  {
    var t := TrimStart(raw);
    SuffixNoNonZeroDigit(raw, |raw| - |t|);
    var u := if |t| > 0 && (t[0] == '+' || t[0] == '-') then t[1..] else t;
    if |t| > 0 && (t[0] == '+' || t[0] == '-') {
      SuffixNoNonZeroDigit(t, 1);
    }
    var whole := DigitRun(u);
    DigitRunZeros(u);
    var rest := u[|whole|..];
    SuffixNoNonZeroDigit(u, |whole|);
    var frac := if |rest| > 0 && rest[0] == '.' then DigitRun(rest[1..]) else [];
    if |rest| > 0 && rest[0] == '.' {
      SuffixNoNonZeroDigit(rest, 1);
      DigitRunZeros(rest[1..]);
    }
    AllZerosFalsy(raw, whole, frac);
  }

  lemma AllZerosFalsy(raw: string, whole: string, frac: string)
    requires MantissaDigits(raw) == whole + frac
    requires forall k :: 0 <= k < |whole| ==> whole[k] == '0'
    requires forall k :: 0 <= k < |frac| ==> frac[k] == '0'
    ensures !ParsesNonZero(raw)
  {
    var m := MantissaDigits(raw);
    assert forall k :: 0 <= k < |whole| ==> m[k] == whole[k];
    assert forall k :: |whole| <= k < |m| ==> m[k] == frac[k - |whole|];
  }

  /** A text that starts with a digit from 1 to 9 parses to a non-zero
      number, which is truthy. */
  lemma LeadingDigitTruthy(raw: string)
    requires |raw| > 0 && '1' <= raw[0] <= '9'
    ensures ParsesNonZero(raw)
  {
    NothingToTrim(raw);
    assert DigitRun(raw)[0] == raw[0];
    assert MantissaDigits(raw)[0] == raw[0];
  }

  /** A custom price of '12.5' arrives as a truthy number. */
  lemma PriceParsesNonZero()
    ensures ParsesNonZero("12.5")
  {
    NothingToTrim("12.5");
    assert DigitRun("12.5") == "12" by {
      assert "12.5"[1..] == "2.5" && "2.5"[1..] == ".5";
    }
    assert MantissaDigits("12.5")[0] == '1';
  }

  /** A custom price of '0.00' arrives as zero, which is falsy. */
  lemma ZeroPriceFalsy()
    ensures !ParsesNonZero("0.00")
  {
    NothingToTrim("0.00");
    assert DigitRun("0.00") == "0" by {
      assert "0.00"[1..] == ".00";
    }
    assert DigitRun("00") == "00" by {
      assert "00"[1..] == "0" && "0"[1..] == "";
    }
    assert MantissaDigits("0.00") == "000";
  }

  /** A custom price of 'abc' is NaN and arrives as `null`. */
  lemma TextPriceFalsy()
    ensures !ParsesNonZero("abc")
  {
    NothingToTrim("abc");
    assert MantissaDigits("abc") == "";
  }

  /** `obj.key`. */
  function Get(obj: JsObject, key: string): (r: JsVal)
    ensures key in obj ==> r == obj[key]
    ensures key !in obj ==> r == Undefined
  {
    if key in obj then obj[key] else Undefined
  }

  /** `v.key` for a value that is not `null` or `undefined`: only objects
      have fields. */
  function Field(v: JsVal, key: string): JsVal {
    if v.Object? then Get(v.fields, key) else Undefined
  }

  /** `v || fallback`. */
  function Or(v: JsVal, fallback: JsVal): (r: JsVal)
    ensures Truthy(v) ==> r == v
    ensures !Truthy(v) ==> r == fallback
  {
    if Truthy(v) then v else fallback
  }

  /** `value || undefined`: a falsy value (`false`, `''`, `null`, `0`) is
      replaced by `undefined`, a truthy one is kept. */
  function OrUndefined(v: JsVal): (r: JsVal)
    ensures Truthy(r) == Truthy(v)
    ensures Truthy(v) ==> r == v
    ensures !Truthy(v) ==> r == Undefined
  {
    if Truthy(v) then v else Undefined
  }

  /** `String(v)` for the values `parseInt`/`parseFloat` are given. */
  function RawText(v: JsVal): string {
    match v
    case Undefined => "undefined"
    case Null => "null"
    case Bool(b) => if b then "true" else "false"
    case Str(s) => s
    case Num(t) => t
    case ParsedFloat(raw) => raw
    case List(items) => Join(seq(|items|, i requires 0 <= i < |items| => RawText(items[i])), ",")
    case Object(_) => "[object Object]"
  }
}
