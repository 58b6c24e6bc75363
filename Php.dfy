/** The parts of PHP's value semantics the plugin relies on: arrays decoded
    from JSON, truthiness, `isset`, reading `$a['key']` and `$a[0]`, and the
    ordering PHP uses when it compares two non-numeric strings. */
module Php {

  datatype Option<T> = None | Some(value: T) {
    function GetOr(default: T): T {
      if Some? then value else default
    }
  }

  /** A PHP value as `json_decode($text, true)` produces it. A JSON array is
      a PHP array with keys 0..n-1 (`JList`), a JSON object a PHP array with
      string keys (`JMap`). Numbers are carried opaquely: the plugin only
      ever tests them for truthiness. The order of a PHP array's keys is not
      modelled. */
  datatype Json =
    | JNull
    | JBool(b: bool)
    | JNum(n: real)
    | JStr(s: string)
    | JList(items: seq<Json>)
    | JMap(members: map<string, Json>)

  /** PHP's conversion to bool for strings: only "" and "0" are false. */
  predicate StringTruthy(s: string) {
    s != "" && s != "0"
  }

  /** PHP's conversion to bool: null, false, 0, "", "0" and the empty array
      are false, everything else is true. */
  predicate Truthy(v: Json) {
    match v
    case JNull => false
    case JBool(b) => b
    case JNum(n) => n != 0.0
    case JStr(s) => StringTruthy(s)
    case JList(items) => items != []
    case JMap(m) => m != map[]
  }

  /** `isset($v)`: anything but null. */
  predicate IsSet(v: Json) {
    !v.JNull?
  }

  /** `isset($v) && $v !== ''`, the test the sync service applies to the
      `id` and `lookup` entries of the field value. */
  predicate NonEmpty(v: Json) {
    IsSet(v) && v != JStr("")
  }

  /** `$v['key']` for a non-numeric key: the entry when `v` is an array with
      that key, null otherwise (a list has only integer keys). */
  function Get(v: Json, key: string): (r: Json)
    ensures IsSet(r) ==> v.JMap? && key in v.members && r == v.members[key]
  {
    if v.JMap? && key in v.members then v.members[key] else JNull
  }

  /** `$v[0]`: the first element of a list, or the entry a JSON object
      stores under "0" (PHP turns that key into the integer 0). */
  function First(v: Json): Json {
    match v
    case JList(items) => if items != [] then items[0] else JNull
    case JMap(m) => if "0" in m then m["0"] else JNull
    case _ => JNull
  }

  /** `$a < $b` for two PHP strings that are not both numeric: byte-wise
      comparison, where a proper prefix comes first (strcmp's order). */
  predicate LexLess(a: string, b: string)
    decreases |a|
  {
    if a == [] then b != []
    else if b == [] then false
    else if a[0] != b[0] then a[0] < b[0]
    else LexLess(a[1..], b[1..])
  }

  /** strcmp's order is a strict total order: of two different strings
      exactly one is below the other, and no string is below itself. */
  lemma {:induction false} LexLessStrictTotal(a: string, b: string)
    ensures LexLess(a, b) ==> a != b && !LexLess(b, a)
    ensures a != b ==> LexLess(a, b) || LexLess(b, a)
    decreases |a|
  {
    if a != [] && b != [] && a[0] == b[0] {
      LexLessStrictTotal(a[1..], b[1..]);
      if a != b {
        assert a == [a[0]] + a[1..] && b == [b[0]] + b[1..];
      }
    }
  }
}
