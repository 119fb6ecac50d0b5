/**
 * The few pieces of JavaScript semantics the blog handler relies on: the values
 * JSON.parse produces, truthiness (which decides what `x || d` yields), reading a
 * property of a parsed value, and Number.prototype.toString on an integer.
 */
module JsRuntime {
  import opened Wrappers

  /** A value as JSON.parse returns it. JSON numbers are modelled as integers. */
  datatype Json =
    | JNull
    | JBool(b: bool)
    | JNumber(n: int)
    | JString(s: string)
    | JArray(elems: seq<Json>)
    | JObject(members: map<string, Json>)

  /** JavaScript truthiness; `None` stands for `undefined`. */
  predicate Truthy(v: Option<Json>) {
    match v
    case None => false
    case Some(JNull) => false
    case Some(JBool(b)) => b
    case Some(JNumber(n)) => n != 0
    case Some(JString(s)) => s != ""
    case Some(JArray(_)) => true
    case Some(JObject(_)) => true
  }

  /** `v || fallback`: the left operand when it is truthy, the right one otherwise. */
  function Or(v: Option<Json>, fallback: Json): Json {
    if Truthy(v) then v.value else fallback
  }

  /** The own member `key` of an object; `None` (undefined) for anything else. */
  function Member(v: Json, key: string): Option<Json> {
    if v.JObject? && key in v.members then Some(v.members[key]) else None
  }

  /** The message of the TypeError thrown by reading property `key` of `null`. */
  function NullReadMessage(key: string): string {
    "Cannot read properties of null (reading '" + key + "')"
  }

  /**
   * The property read `v.key`. Reading from `null` throws; every other value yields
   * its own member, or undefined. The keys the handler reads name no built-in
   * property of strings, arrays, numbers or booleans.
   */
  function GetProperty(v: Json, key: string): Result<Option<Json>, string> {
    if v.JNull? then Failure(NullReadMessage(key)) else Success(Member(v, key))
  }

  predicate IsDigit(c: char) {
    '0' <= c <= '9'
  }

  predicate AllDigits(s: string) {
    forall i :: 0 <= i < |s| ==> IsDigit(s[i])
  }

  function DigitChar(d: int): char
    requires 0 <= d < 10
  {
    ('0' as int + d) as char
  }

  /** The shortest decimal numeral of `n`: no sign and no leading zero. */
  function Digits(n: nat): (s: string)
    ensures |s| >= 1 && AllDigits(s)
    ensures |s| > 1 ==> s[0] != '0'
    decreases n
  {
    if n < 10 then [DigitChar(n)] else Digits(n / 10) + [DigitChar(n % 10)]
  }

  /** Number.prototype.toString for an integer value below 10^21 in magnitude. */
  function NumberToString(n: int): (s: string)
    ensures |s| >= 1
    ensures n < 0 <==> s[0] == '-'
    ensures var d := if n < 0 then s[1..] else s;
      |d| >= 1 && AllDigits(d) && (|d| > 1 ==> d[0] != '0')
  {
    if n < 0 then
      var d := Digits(-n);
      assert ("-" + d)[1..] == d;
      "-" + d
    else Digits(n)
  }

  /** The value of a string of decimal digits. */
  function DigitsValue(s: string): nat
    requires AllDigits(s)
  {
    if s == [] then 0 else DigitsValue(s[..|s| - 1]) * 10 + (s[|s| - 1] as int - '0' as int)
  }

  /** Reads back an optionally signed decimal integer numeral; the inverse of NumberToString. */
  function ParseInteger(s: string): Option<int> {
    if |s| >= 2 && s[0] == '-' && AllDigits(s[1..]) then Some(0 - DigitsValue(s[1..]) as int)
    else if |s| >= 1 && AllDigits(s) then Some(DigitsValue(s))
    else None
  }

  lemma {:induction false} DigitsRoundTrip(n: nat)
    ensures DigitsValue(Digits(n)) == n
    decreases n
  {
    if n >= 10 {
      DigitsRoundTrip(n / 10);
      var s := Digits(n);
      assert s[..|s| - 1] == Digits(n / 10);
    }
  }

  /** Decoding the numeral that toString writes gives back the number. */
  lemma NumberToStringRoundTrip(n: int)
    ensures ParseInteger(NumberToString(n)) == Some(n)
  {
    if n < 0 {
      DigitsRoundTrip(-n);
      assert NumberToString(n)[1..] == Digits(-n);
    } else {
      DigitsRoundTrip(n);
    }
  }

  /** Distinct numbers have distinct numerals. */
  lemma NumberToStringInjective(m: int, n: int)
    ensures NumberToString(m) == NumberToString(n) ==> m == n
  {
    NumberToStringRoundTrip(m);
    NumberToStringRoundTrip(n);
  }
}
