/**
 * The Python values `json.loads` hands the WebSocket handler, and the three
 * things the handler does with them: `dict.get`, truthiness (`x or y`) and
 * `str(x)`, plus `int(x)` for a command's duration. A JSON number is an
 * `int` or a `float`; a float is kept abstract, as its rendering, whether
 * it is zero and what `int(x)` truncates it to.
 */
module PyValue {
  import opened Wrappers
  import opened Text
  import Numbers

  /** Python's rendering of a float (`0.5`, `1e+20`, `inf`, `nan`): never empty. */
  type FloatText = s: string | |s| > 0 witness "0.0"

  datatype Number =
    | Int(value: int)
    | Float(text: FloatText, isZero: bool, truncated: Option<int>)   // `truncated` is None for inf and nan

  /** A decoded JSON document. Object members keep their order; `json.loads` never yields a key twice. */
  datatype Json =
    | JNull
    | JBool(b: bool)
    | JNumber(n: Number)
    | JString(s: string)
    | JArray(items: seq<Json>)
    | JObject(members: seq<(string, Json)>)

  /** `bool(x)`: None, False, zero and empty strings and containers are false. */
  predicate Truthy(v: Json) {
    match v
    case JNull => false
    case JBool(b) => b
    case JNumber(n) => if n.Int? then n.value != 0 else !n.isZero
    case JString(s) => s != ""
    case JArray(items) => items != []
    case JObject(members) => members != []
  }

  /** The falsy values are exactly None, False, a numeric zero and an empty string, list or object. */
  lemma FalsyValues(v: Json)
    ensures !Truthy(v) <==>
      || v == JNull || v == JBool(false)
      || (v.JNumber? && (if v.n.Int? then v.n.value == 0 else v.n.isZero))
      || v == JString("") || v == JArray([]) || v == JObject([])
  {
  }

  /** `d.get(key)` on an object's members: None when the key is absent. */
  function Get(members: seq<(string, Json)>, key: string): (r: Option<Json>)
    ensures r.Some? <==> exists k :: 0 <= k < |members| && members[k].0 == key
    ensures r.Some? ==> exists k :: 0 <= k < |members| && members[k] == (key, r.value)
  {
    if |members| == 0 then None
    else if members[0].0 == key then
      assert members[0] == (key, members[0].1);
      Some(members[0].1)
    else
      var r := Get(members[1..], key);
      assert forall k :: 0 <= k < |members| - 1 ==> members[1..][k] == members[k + 1];
      r
  }

  /** `d.get(key, default)`. */
  function GetOr(members: seq<(string, Json)>, key: string, default: Json): Json {
    Get(members, key).GetOr(default)
  }

  /** `str(x)`. Strings nested in a container are quoted but not escaped. */
  function PyStr(v: Json): (s: string)
    ensures v.JString? ==> s == v.s
    ensures !v.JString? ==> |s| > 0
    ensures Truthy(v) ==> |s| > 0
    decreases v, 1
  {
    match v
    case JNull => "None"
    case JBool(b) => if b then "True" else "False"
    case JNumber(n) => if n.Int? then Numbers.IntToDecimal(n.value) else n.text
    case JString(s) => s
    case JArray(items) => "[" + ReprItems(items) + "]"
    case JObject(members) => "{" + ReprMembers(members) + "}"
  }

  /** `repr(x)` as `str` shows it inside a container. */
  function Repr(v: Json): string
    decreases v, 2
  {
    if v.JString? then "'" + v.s + "'" else PyStr(v)
  }

  function ReprItems(items: seq<Json>): string
    decreases items, 0
  {
    if |items| == 0 then ""
    else Repr(items[0]) + (if |items| == 1 then "" else ", " + ReprItems(items[1..]))
  }

  function ReprMembers(members: seq<(string, Json)>): string
    decreases members, 0
  {
    if |members| == 0 then ""
    else
      assert members[0].1 < JObject(members);
      "'" + members[0].0 + "': " + Repr(members[0].1) + (if |members| == 1 then "" else ", " + ReprMembers(members[1..]))
  }

  /** `int(x)`, or None where it raises. */
  function PyIntOf(v: Json): (r: Option<int>)
    ensures v.JBool? ==> r == Some(if v.b then 1 else 0)
    ensures v.JString? ==> r == Numbers.PyInt(v.s)
    ensures v.JNull? || v.JArray? || v.JObject? ==> r.None?
  {
    match v
    case JBool(b) => Some(if b then 1 else 0)
    case JNumber(n) => if n.Int? then Some(n.value) else n.truncated
    case JString(s) => Numbers.PyInt(s)
    case _ => None
  }

  /**
   * A JSON integer converts back to itself, and so does its rendering as a
   * string as long as `int` accepts that many digits.
   */
  lemma IntRoundTrip(i: int)
    ensures PyIntOf(JNumber(Int(i))) == Some(i)
    ensures PyIntOf(JString(PyStr(JNumber(Int(i))))) == if Numbers.DigitCount(i) <= Numbers.MaxStrDigits then Some(i) else None
  {
    var d := Numbers.IntToDecimal(i);
    assert Strip(d) == d by {
      assert Trimmed(d) by {
        if i < 0 {
          assert d[1..] == Numbers.NatToDecimal(-i);
          assert d[|d| - 1] == d[1..][|d| - 2];
        }
      }
      StripTrimmed(d);
    }
    Numbers.DecimalRoundTrip(i);
  }
}
