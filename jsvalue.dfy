/** The JavaScript values that template contexts are built from, property access on them,
    and `String(value)`. Numbers are modelled as integers. */
module JsValue {
  import opened Text

  datatype JValue =
    | JUndefined
    | JNull
    | JBool(b: bool)
    | JNum(n: int)
    | JStr(s: string)
    | JArr(items: seq<JValue>)
    | JObj(fields: map<string, JValue>)

  /** `v == null` in JavaScript: true for both `null` and `undefined`. */
  predicate IsNullish(v: JValue) {
    v.JUndefined? || v.JNull?
  }

  /** A property name that is the canonical form of an array index ("0", "17", not "017"). */
  predicate IsIndexKey(key: string) {
    key != [] && (forall k :: 0 <= k < |key| ==> IsDigit(key[k])) && (|key| == 1 || key[0] != '0')
  }

  /** `a[i]` for a numeric index: the element, or `undefined` past the end. */
  function ElementAt(items: seq<JValue>, i: nat): (r: JValue)
    ensures i < |items| ==> r == items[i]
    ensures i >= |items| ==> r == JUndefined
  {
    if i < |items| then items[i] else JUndefined
  }

  /** `v[key]` for a non-nullish `v`, own properties only: object fields, array elements and
      string characters by index, and the `length` of arrays and strings. */
  function Get(v: JValue, key: string): (r: JValue)
    requires !IsNullish(v)
    ensures v.JObj? ==> r == (if key in v.fields then v.fields[key] else JUndefined)
    ensures v.JBool? || v.JNum? ==> r == JUndefined
  {
    match v
    case JObj(f) => if key in f then f[key] else JUndefined
    case JArr(a) =>
      if key == "length" then JNum(|a|)
      else if IsIndexKey(key) then ElementAt(a, DigitsValue(key))
      else JUndefined
    case JStr(s) =>
      if key == "length" then JNum(|s|)
      else if IsIndexKey(key) && DigitsValue(key) < |s| then JStr([s[DigitsValue(key)]])
      else JUndefined
    case _ => JUndefined
  }

  /** `String(v)`. Array elements that are `null` or `undefined` become empty strings, as
      `Array.prototype.join` does; every object prints as "[object Object]". */
  function ToStr(v: JValue): (r: string)
    ensures v.JStr? ==> r == v.s
    ensures v.JNum? ==> r == IntToString(v.n)
    ensures v.JArr? && v.items == [] ==> r == ""
  {
    match v
    case JUndefined => "undefined"
    case JNull => "null"
    case JBool(b) => if b then "true" else "false"
    case JNum(n) => IntToString(n)
    case JStr(s) => s
    case JArr(a) => JoinItems(a)
    case JObj(_) => "[object Object]"
  }

  /** `a.join(",")` over the string forms of the elements. */
  function JoinItems(a: seq<JValue>): string
    decreases a, 0
  {
    if a == [] then ""
    else
      var head := if IsNullish(a[0]) then "" else ToStr(a[0]);
      if |a| == 1 then head else head + "," + JoinItems(a[1..])
  }

  /** A list of strings as a JavaScript array. */
  function StrArray(xs: seq<string>): (r: JValue)
    ensures r.JArr? && |r.items| == |xs|
    ensures forall i :: 0 <= i < |xs| ==> r.items[i] == JStr(xs[i])
  {
    JArr(seq(|xs|, i requires 0 <= i < |xs| => JStr(xs[i])))
  }
}
