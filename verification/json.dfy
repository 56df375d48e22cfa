/**
 A parsed JSON value, as the HTTP client hands the classifier's reply to the
 verdict logic, together with the property enumeration that `Object.keys`
 performs on it.
 */
module Json {

  /** The fields of a `JObj` are listed in the order `Object.keys` enumerates them;
      a parsed object never repeats a key. A number is the exact value of the
      parsed double. */
  datatype JValue =
    | JNull
    | JBool(b: bool)
    | JNum(n: real)
    | JStr(s: string)
    | JArr(items: seq<JValue>)
    | JObj(fields: seq<(string, JValue)>)

  function Digit(d: nat): char
    requires d < 10
  {
    "0123456789"[d]
  }

  /** The property key under which an array element or a string character is enumerated. */
  function IndexKey(i: nat): (k: string)
    ensures |k| > 0
    ensures forall j :: 0 <= j < |k| ==> '0' <= k[j] <= '9'
  {
    if i < 10 then [Digit(i)] else IndexKey(i / 10) + [Digit(i % 10)]
  }

  /** `Object.keys(v)` paired with `v[key]`. Objects yield their fields, arrays their
      elements and strings their one-character substrings under index keys;
      numbers and booleans have no own keys. Null is excluded: `Object.keys(null)`
      throws, and the callers treat that case before asking for entries. */
  function Entries(v: JValue): (es: seq<(string, JValue)>)
    ensures v.JObj? ==> es == v.fields
    ensures v.JArr? ==> |es| == |v.items| && forall i :: 0 <= i < |es| ==> es[i] == (IndexKey(i), v.items[i])
    ensures v.JStr? ==> |es| == |v.s| && forall i :: 0 <= i < |es| ==> es[i] == (IndexKey(i), JStr([v.s[i]]))
    ensures v.JNull? || v.JBool? || v.JNum? ==> es == []
  {
    match v
    case JObj(fs) => fs
    case JArr(xs) => seq(|xs|, i requires 0 <= i < |xs| => (IndexKey(i), xs[i]))
    case JStr(s) => seq(|s|, i requires 0 <= i < |s| => (IndexKey(i), JStr([s[i]])))
    case _ => []
  }
}
