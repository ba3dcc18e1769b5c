/** JavaScript values as the kay validators observe them: their
    `Object.prototype.toString` tag, their `typeof`, their truthiness,
    whether they are `== null`, and their `length` property. */
module JsValues {

  datatype Option<+T> = None | Some(value: T)

  /** A JavaScript value. Numbers are integers (floating point and NaN are
      not modelled). `Str` holds the string's characters; its `length` counts
      UTF-16 code units (`Utf16Length`). `Obj` is an ordinary object without
      a `Symbol.toStringTag`; `lengthProp` is the integer its `length`
      property reads as, own or inherited, if it has one. `Fn` is an ordinary
      function (neither async nor a generator); JavaScript gives every
      function a `length` equal to the number of its parameters before the
      first default or rest parameter. */
  datatype Value =
    | Null
    | Undefined
    | Str(chars: string)
    | Num(n: int)
    | BoolV(b: bool)
    | Arr(elems: seq<Value>)
    | Obj(lengthProp: Option<int>)
    | Fn(arity: nat)

  /** `Object.prototype.toString.call(v)`. */
  function Tag(v: Value): (t: string)
    ensures |t| > 8 && t[..8] == "[object " && t[|t| - 1] == ']'
  {
    match v
    case Null => "[object Null]"
    case Undefined => "[object Undefined]"
    case Str(_) => "[object String]"
    case Num(_) => "[object Number]"
    case BoolV(_) => "[object Boolean]"
    case Arr(_) => "[object Array]"
    case Obj(_) => "[object Object]"
    case Fn(_) => "[object Function]"
  }

  /** The `typeof` operator; note that `typeof null` is "object". */
  function TypeOf(v: Value): string {
    match v
    case Null => "object"
    case Undefined => "undefined"
    case Str(_) => "string"
    case Num(_) => "number"
    case BoolV(_) => "boolean"
    case Arr(_) => "object"
    case Obj(_) => "object"
    case Fn(_) => "function"
  }

  /** `v == null` with JavaScript's loose equality. */
  predicate IsNullish(v: Value) {
    v.Null? || v.Undefined?
  }

  /** `Boolean(v)`: the falsy values are null, undefined, "", 0 and false. */
  predicate Truthy(v: Value) {
    match v
    case Null => false
    case Undefined => false
    case Str(s) => s != ""
    case Num(n) => n != 0
    case BoolV(b) => b
    case _ => true
  }

  /** The number of UTF-16 code units that encode `s`, which is what
      JavaScript's `length` counts: a character outside the Basic
      Multilingual Plane takes a surrogate pair, two units. */
  function Utf16Length(s: string): (units: nat)
    ensures |s| <= units <= 2 * |s|
  {
    if s == [] then 0
    else (if s[0] as int >= 0x1_0000 then 2 else 1) + Utf16Length(s[1..])
  }

  /** `v.length` for a value that is not nullish; `None` stands for
      `undefined`, which `v.length == null` detects. */
  function Length(v: Value): (len: Option<int>)
    ensures len.Some? && !v.Obj? ==> 0 <= len.value
  {
    match v
    case Str(s) => Some(Utf16Length(s))
    case Arr(a) => Some(|a|)
    case Fn(k) => Some(k)
    case Obj(p) => p
    case _ => None
  }
}
