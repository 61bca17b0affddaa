/** JavaScript values as `JSON.parse` produces them, and the three language
    operations the log parser applies to them: reading a property (`v.key`),
    object destructuring with a rest element (`const {a, ...rest} = v`), and
    conversion to a string (a template literal's `${v}`). */
module JsValues {
  import opened Outcomes

  /** A value `JSON.parse` can return. A number is held as the string JavaScript's
      Number::toString gives for it, the only use the parser makes of a number.
      An object lists its own properties in enumeration order. */
  datatype Json =
    | JNull
    | JBool(b: bool)
    | JNum(literal: string)
    | JStr(str: string)
    | JArr(elems: seq<Json>)
    | JObj(fields: seq<(string, Json)>)

  type Fields = seq<(string, Json)>

  function Digit(d: nat): char
    requires d < 10
  {
    "0123456789"[d]
  }

  /** The canonical decimal form of an array or string index. */
  function DecimalString(n: nat): (r: string)
    ensures |r| >= 1
    ensures forall i :: 0 <= i < |r| ==> '0' <= r[i] <= '9'
  {
    if n < 10 then [Digit(n)] else DecimalString(n / 10) + [Digit(n % 10)]
  }

  /** The number a string of decimal digits denotes. */
  function DigitsValue(s: string): nat
    requires forall i :: 0 <= i < |s| ==> '0' <= s[i] <= '9'
  {
    if s == [] then 0
    else DigitsValue(s[..|s| - 1]) * 10 + ((s[|s| - 1] as int) - ('0' as int))
  }

  /** `DecimalString(n)` is the canonical decimal form of `n`: it denotes `n`
      and has no leading zero. */
  lemma {:induction false} DecimalStringValue(n: nat)
    ensures DigitsValue(DecimalString(n)) == n
    ensures |DecimalString(n)| > 1 ==> DecimalString(n)[0] != '0'
    decreases n
  {
    if n >= 10 {
      var s := DecimalString(n);
      var p := DecimalString(n / 10);
      DecimalStringValue(n / 10);
      assert s[..|s| - 1] == p;
      assert s[|s| - 1] == Digit(n % 10);
      assert Digit(n % 10) as int - '0' as int == n % 10;
      assert |p| > 1 || p[0] != '0';
      assert s[0] == p[0];
    }
  }

  /** Distinct indices have distinct keys. */
  lemma DecimalStringInjective(m: nat, n: nat)
    ensures DecimalString(m) == DecimalString(n) ==> m == n
  {
    DecimalStringValue(m);
    DecimalStringValue(n);
  }

  /** The own enumerable properties of `v` after conversion to an object, which
      is what destructuring and property reads see: none for a boolean or a
      number, one per index for a string or an array (keyed by the index's
      decimal form), the listed properties for an object. `null` has none; the
      callers raise a TypeError before asking. */
  function OwnProperties(v: Json): Fields {
    match v
    case JNull => []
    case JBool(_) => []
    case JNum(_) => []
    case JStr(s) => IndexKeyed(Characters(s), 0)
    case JArr(es) => IndexKeyed(es, 0)
    case JObj(fs) => fs
  }

  /** The one-character strings of `s`, in order. */
  function Characters(s: string): (r: seq<Json>)
    ensures |r| == |s|
  {
    if s == [] then [] else [JStr([s[0]])] + Characters(s[1..])
  }

  /** `es` as properties keyed by their indices, counting from `from`. */
  function IndexKeyed(es: seq<Json>, from: nat): (r: Fields)
    ensures |r| == |es|
  {
    if es == [] then [] else [(DecimalString(from), es[0])] + IndexKeyed(es[1..], from + 1)
  }

  /** Property read: the value of the first property named `key`, or
      `None` (undefined) when there is none. */
  function Get(fields: Fields, key: string): Option<Json> {
    if fields == [] then None
    else if fields[0].0 == key then Some(fields[0].1)
    else Get(fields[1..], key)
  }

  /** The rest element of a destructuring: every property whose key is not in
      `keys`, in the original order. */
  function Omit(fields: Fields, keys: set<string>): Fields {
    if fields == [] then []
    else if fields[0].0 in keys then Omit(fields[1..], keys)
    else [fields[0]] + Omit(fields[1..], keys)
  }

  /** The string a template literal or `String(v)` gives for `v`; `None` is
      undefined. An array joins its elements' strings with commas, writing
      nothing for null; any object is "[object Object]". */
  function ToString(v: Option<Json>): string {
    match v
    case None => "undefined"
    case Some(j) => JsonToString(j)
  }

  function JsonToString(v: Json): string
    decreases v, 1
  {
    match v
    case JNull => "null"
    case JBool(b) => if b then "true" else "false"
    case JNum(literal) => literal
    case JStr(s) => s
    case JArr(es) => JoinElements(v, es)
    case JObj(_) => "[object Object]"
  }

  function JoinElements(v: Json, es: seq<Json>): string
    requires forall e :: e in es ==> e < v
    decreases v, 0, |es|
  {
    if es == [] then ""
    else
      assert es[0] in es;
      assert forall e :: e in es[1..] ==> e in es;
      var first := if es[0] == JNull then "" else JsonToString(es[0]);
      if |es| == 1 then first else first + "," + JoinElements(v, es[1..])
  }

  /** A read finds nothing exactly when no property has the key, and otherwise
      gives the value of the first property that has it. */
  lemma {:induction false} GetFindsFirst(fields: Fields, key: string)
    ensures Get(fields, key).None? <==> forall i :: 0 <= i < |fields| ==> fields[i].0 != key
    ensures Get(fields, key).Some? ==>
      exists i :: 0 <= i < |fields| && fields[i] == (key, Get(fields, key).value) &&
        forall j :: 0 <= j < i ==> fields[j].0 != key
    decreases |fields|
  {
    if fields != [] && fields[0].0 != key {
      GetFindsFirst(fields[1..], key);
      assert forall i :: 1 <= i < |fields| ==> fields[1..][i - 1] == fields[i];
      if Get(fields, key).Some? {
        var i :| 0 <= i < |fields[1..]| && fields[1..][i] == (key, Get(fields, key).value) &&
          forall j :: 0 <= j < i ==> fields[1..][j].0 != key;
        assert fields[i + 1] == (key, Get(fields, key).value);
      }
    }
  }

  /** Omitting keeps exactly the properties whose key is not omitted. */
  lemma {:induction false} OmitKeeps(fields: Fields, keys: set<string>)
    ensures forall f :: f in Omit(fields, keys) <==> f in fields && f.0 !in keys
    ensures |Omit(fields, keys)| <= |fields|
    decreases |fields|
  {
    if fields != [] {
      OmitKeeps(fields[1..], keys);
      assert fields == [fields[0]] + fields[1..];
    }
  }

  /** Omitting keys distributes over concatenation, so `Omit` keeps the order
      of the properties it retains. */
  lemma {:induction false} OmitAppend(a: Fields, b: Fields, keys: set<string>)
    ensures Omit(a + b, keys) == Omit(a, keys) + Omit(b, keys)
    decreases |a|
  {
    if a != [] {
      assert (a + b)[1..] == a[1..] + b;
      OmitAppend(a[1..], b, keys);
    } else {
      assert a + b == b;
    }
  }

  /** Omitting keys that no property has leaves the properties unchanged. */
  lemma {:induction false} OmitAbsent(fields: Fields, keys: set<string>)
    requires forall i :: 0 <= i < |fields| ==> fields[i].0 !in keys
    ensures Omit(fields, keys) == fields
    decreases |fields|
  {
    if fields != [] {
      OmitAbsent(fields[1..], keys);
    }
  }
}
