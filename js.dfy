/** JavaScript values as the stores and the connection manager see them: the JSON
    objects exchanged with the server, with JavaScript's truthiness, `||`, `??`,
    object spread and `new Date(...)` written out. */
module JsValues {

  datatype Option<+T> = None | Some(value: T)

  /** A JavaScript value. `Stamp(t)` is an ISO-8601 date string denoting the
      instant `t` (milliseconds); every timestamp the client or the server
      produces has this form. `Str` is any other string. */
  datatype JsValue =
    | Undefined
    | Null
    | Bool(b: bool)
    | Num(n: int)
    | Str(s: string)
    | Stamp(t: int)
    | Obj(fields: JsObject)

  /** A plain object: its own enumerable properties. A property that is not in
      the map is absent (reads as `undefined`). */
  type JsObject = map<string, JsValue>

  /** `o.p` */
  function Get(o: JsObject, p: string): JsValue {
    if p in o then o[p] else Undefined
  }

  /** `!!v` */
  predicate Truthy(v: JsValue) {
    match v
    case Undefined => false
    case Null => false
    case Bool(b) => b
    case Num(n) => n != 0
    case Str(s) => s != ""
    case Stamp(_) => true
    case Obj(_) => true
  }

  /** `a || b` */
  function Or(a: JsValue, b: JsValue): JsValue {
    if Truthy(a) then a else b
  }

  /** `v === null || v === undefined` */
  predicate Nullish(v: JsValue) {
    v.Undefined? || v.Null?
  }

  /** `a ?? b` */
  function Coalesce(a: JsValue, b: JsValue): JsValue {
    if Nullish(a) then b else a
  }

  /** The properties that spreading or destructuring `v` yields: an object's own
      properties, nothing for `null`, `undefined`, numbers and booleans. */
  function AsObject(v: JsValue): JsObject {
    if v.Obj? then v.fields else map[]
  }

  /** `new Date(v).getTime()`, with `None` standing for NaN (an invalid date). */
  function TimeOf(v: JsValue): Option<int> {
    match v
    case Stamp(t) => Some(t)
    case Num(n) => Some(n)
    case Null => Some(0)
    case Bool(b) => Some(if b then 1 else 0)
    case Undefined => None
    case Str(_) => None
    case Obj(_) => None
  }

  /** `new Date(a) <= new Date(b)`: false as soon as either side is NaN. */
  predicate NotLater(a: Option<int>, b: Option<int>) {
    a.Some? && b.Some? && a.value <= b.value
  }

  /** `(v || 0) + 1`, JavaScript's `+`: numeric addition for numbers and
      booleans, string concatenation for strings and objects (the text of a
      date string is stood in for by `DateText`). */
  function PlusOne(v: JsValue): JsValue {
    match v
    case Num(n) => Num(n + 1)
    case Bool(b) => Num(if b then 2 else 1)
    case Str(s) => if s == "" then Num(1) else Str(s + "1")
    case Stamp(t) => Str(DateText(t) + "1")
    case Obj(_) => Str("[object Object]1")
    case Undefined => Num(1)
    case Null => Num(1)
  }

  /** Decimal digits of a natural number. */
  function NatText(n: nat): string
    decreases n
  {
    var d := "0123456789"[n % 10];
    if n < 10 then [d] else NatText(n / 10) + [d]
  }

  /** `String(n)` for an integer. */
  function IntText(n: int): string {
    if n < 0 then "-" + NatText(-n) else NatText(n)
  }

  /** Stands in for the ISO-8601 text of the instant `t`: distinct instants
      give distinct texts, none of which starts with "http". */
  function DateText(t: int): string {
    "<date " + IntText(t) + ">"
  }

  /** The property name `v` becomes when used as `o[v]`. */
  function PropertyKey(v: JsValue): string {
    match v
    case Undefined => "undefined"
    case Null => "null"
    case Bool(b) => if b then "true" else "false"
    case Num(n) => IntText(n)
    case Str(s) => s
    case Stamp(t) => DateText(t)
    case Obj(_) => "[object Object]"
  }

  /** `s.startsWith(p)` */
  predicate StartsWith(s: string, p: string) {
    |p| <= |s| && s[..|p|] == p
  }
}
