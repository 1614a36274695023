/** The JavaScript values the handler sees: parsed JSON, and `undefined` as None.
    Only the parts of JavaScript's semantics the handler relies on are modelled:
    truthiness (`!x`, `x || y`), optional chaining (`x?.key`, `x?.[0]`) and the
    conversion to a string done by template literals and `Array.prototype.join`. */
module Json {
  import opened Wrappers

  /** A value `JSON.parse` can produce. Numbers are modelled as integers. */
  datatype JsonValue =
    | JNull
    | JBool(b: bool)
    | JNumber(n: int)
    | JString(s: string)
    | JArray(items: seq<JsonValue>)
    | JObject(fields: map<string, JsonValue>)

  /** JavaScript truthiness; None is `undefined`. The falsy values are exactly
      `undefined`, `null`, `false`, `0` and the empty string. */
  predicate Truthy(v: Option<JsonValue>)
    ensures !Truthy(v) <==> v in {None, Some(JNull), Some(JBool(false)), Some(JNumber(0)), Some(JString(""))}
  {
    match v
    case None => false
    case Some(JNull) => false
    case Some(JBool(b)) => b
    case Some(JNumber(n)) => n != 0
    case Some(JString(s)) => s != ""
    case Some(JArray(_)) => true
    case Some(JObject(_)) => true
  }

  /** `v?.key`: `undefined` when `v` is `undefined` or `null`. Only objects have
      own properties here: the keys the handler reads ("error", "data", "pa",
      "places_of_consumption", "poc_number", "invoices") are not array indices nor
      "length", and no prototype defines them. */
  function Member(v: Option<JsonValue>, key: string): Option<JsonValue> {
    match v
    case Some(JObject(m)) => if key in m then Some(m[key]) else None
    case _ => None
  }

  /** `v?.[0]`: the first element of an array, the property "0" of an object,
      the first character of a string, otherwise `undefined`. */
  function First(v: Option<JsonValue>): Option<JsonValue> {
    match v
    case Some(JArray(xs)) => if |xs| > 0 then Some(xs[0]) else None
    case Some(JObject(m)) => if "0" in m then Some(m["0"]) else None
    case Some(JString(s)) => if |s| > 0 then Some(JString([s[0]])) else None
    case _ => None
  }

  /** A word of lower-case letters and digits, possibly after one leading minus
      sign: what `String` writes for `null`, a boolean or an integer. Such a word
      holds no carriage return, no `?`, no `&` and does not start with "--". */
  predicate Word(s: string) {
    forall i :: 0 <= i < |s| ==> '0' <= s[i] <= '9' || 'a' <= s[i] <= 'z' || (i == 0 && s[i] == '-')
  }

  /** Decimal digits of a natural number, as `Number.prototype.toString()` writes them. */
  function NatToDecimal(n: nat): (r: string)
    ensures |r| > 0
    ensures forall i :: 0 <= i < |r| ==> '0' <= r[i] <= '9'
  {
    var d := [(('0' as int) + n % 10) as char];
    if n < 10 then d else NatToDecimal(n / 10) + d
  }

  /** The number a string of decimal digits denotes, most significant first. */
  function DigitsValue(s: string): int {
    if s == [] then 0 else DigitsValue(s[..|s| - 1]) * 10 + (s[|s| - 1] as int - '0' as int)
  }

  /** The digits of `n` denote `n`. */
  lemma {:induction false} NatToDecimalValue(n: nat)
    ensures DigitsValue(NatToDecimal(n)) == n
  {
    var r := NatToDecimal(n);
    if n >= 10 {
      NatToDecimalValue(n / 10);
      assert r[..|r| - 1] == NatToDecimal(n / 10);
    }
  }

  /** `Number.prototype.toString()` of an integer: its decimal digits, after a
      minus sign exactly when it is negative. */
  function IntToDecimal(n: int): (r: string)
    ensures r != "" && Word(r)
    ensures forall i :: 0 <= i < |r| ==> '0' <= r[i] <= '9' || (i == 0 && n < 0 && r[i] == '-')
    ensures n < 0 <==> r[0] == '-'
  {
    if n < 0 then
      var d := NatToDecimal(-n);
      assert forall i :: 1 <= i < |d| + 1 ==> ("-" + d)[i] == d[i - 1];
      "-" + d
    else NatToDecimal(n)
  }

  /** The decimal form of an integer denotes it: the digits give `n` itself, or
      `-n` after the minus sign. */
  lemma IntToDecimalValue(n: int)
    ensures n >= 0 ==> DigitsValue(IntToDecimal(n)) == n
    ensures n < 0 ==> DigitsValue(IntToDecimal(n)[1..]) == -n
  {
    if n >= 0 {
      NatToDecimalValue(n);
    } else {
      NatToDecimalValue(-n);
      assert IntToDecimal(n)[1..] == NatToDecimal(-n);
    }
  }

  /** The message of the TypeError raised when an object cannot become a string. */
  const ToPrimitiveError: string := "Cannot convert object to primitive value"

  /** The values whose conversion to a string throws: an object with an own
      "toString" key, or an array holding such a value at any depth of arrays. */
  predicate Unprintable(v: JsonValue) {
    match v
    case JObject(m) => "toString" in m
    case JArray(items) => exists i :: 0 <= i < |items| && Unprintable(items[i])
    case _ => false
  }

  /** JavaScript's `String(v)`; None when it throws. An object parsed from JSON
      prints as "[object Object]" unless it has an own "toString" key: that value
      is not callable, and `valueOf` gives back the object itself, so the
      conversion raises a TypeError. An array prints as its elements joined with
      ",", where `null` prints as "". */
  function ToJsString(v: JsonValue): (r: Option<string>)
    decreases v, 1
    ensures r.None? <==> Unprintable(v)
    ensures v.JNull? || v.JBool? || v.JNumber? ==> r.Some? && r.value != "" && Word(r.value)
  {
    match v
    case JNull => Some("null")
    case JBool(b) => Some(if b then "true" else "false")
    case JNumber(n) => Some(IntToDecimal(n))
    case JString(s) => Some(s)
    case JArray(items) => JoinItems(items)
    case JObject(m) => if "toString" in m then None else Some("[object Object]")
  }

  /** `items.join(",")`, converting each element as `Array.prototype.join` does. */
  function JoinItems(items: seq<JsonValue>): (r: Option<string>)
    decreases items, 0
    ensures r.None? <==> exists i :: 0 <= i < |items| && Unprintable(items[i])
  {
    if |items| == 0 then Some("")
    else
      var head := if items[0] == JNull then Some("") else ToJsString(items[0]);
      if head.None? then None
      else if |items| == 1 then head
      else
        match JoinItems(items[1..])
        case None => None
        case Some(tail) => Some(head.value + "," + tail)
  }
}
