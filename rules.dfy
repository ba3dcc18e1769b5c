/** The built-in kay rules: one constructor per rule, each carrying the
    argument it was registered with and naming its own error key. */
module Rules {
  import opened JsValues

  /** A rule as `chain` stores it. `Pattern` holds the regular expression's
      `test` operation, which belongs to the host's regex engine. */
  datatype Rule =
    | String
    | Number
    | Func
    | Object
    | Array
    | Bool
    | Required
    | MinLength(minimum: int)
    | MaxLength(maximum: int)
    | Min(minimum: int)
    | Max(maximum: int)
    | Pattern(test: Value -> bool)
  {
    /** The error key reported when the rule fails: the name the source
        gives its predicate function. */
    function Name(): string {
      match this
      case String => "string"
      case Number => "number"
      case Func => "func"
      case Object => "object"
      case Array => "array"
      case Bool => "bool"
      case Required => "required"
      case MinLength(_) => "minlength"
      case MaxLength(_) => "maxlength"
      case Min(_) => "min"
      case Max(_) => "max"
      case Pattern(_) => "pattern"
    }
  }

  /** Whether the rule's predicate accepts `v`. No built-in rule accepts
      null or undefined, and `bool` accepts nothing. */
  predicate Passes(r: Rule, v: Value)
    ensures IsNullish(v) ==> !Passes(r, v)
    ensures r.Bool? ==> !Passes(r, v)
  {
    match r
    case String => Tag(v) == "[object String]"
    case Number => Tag(v) == "[object Number]"
    case Func => Tag(v) == "[object Function]"
    case Object => Tag(v) == "[object Object]"
    case Array => Tag(v) == "[object Array]"
    case Bool => Tag(v) == "[object Bool]"
    case Required =>
      Truthy(v) && (Length(v).None? || Length(v).value > 0)
    case MinLength(minimum) =>
      if IsNullish(v) || Length(v).None? then false
      else Length(v).value >= minimum
    case MaxLength(maximum) =>
      if IsNullish(v) || Length(v).None? then false
      else Length(v).value <= maximum
    case Min(minimum) =>
      if TypeOf(v) != "number" then false
      else v.n >= minimum
    case Max(maximum) =>
      if TypeOf(v) != "number" then false
      else v.n <= maximum
    case Pattern(test) =>
      if IsNullish(v) then false
      else test(v)
  }

  /** The five working type rules accept exactly the values of their kind:
      the tag comparison tells the kinds apart. */
  lemma TypeRulesAcceptTheirKind(v: Value)
    ensures Passes(String, v) <==> v.Str?
    ensures Passes(Number, v) <==> v.Num?
    ensures Passes(Func, v) <==> v.Fn?
    ensures Passes(Object, v) <==> v.Obj?
    ensures Passes(Array, v) <==> v.Arr?
  {
  }

  /** `bool` compares against "[object Bool]", a tag that
      `Object.prototype.toString` gives no modelled value (booleans get
      "[object Boolean]"), so it rejects every value, `true` and `false`
      included. */
  lemma BoolRejectsEverything(v: Value)
    ensures !Passes(Bool, v)
  {
  }

  /** `required` fails exactly on the falsy values and on values whose
      `length` is not positive. */
  lemma RequiredAccepts(v: Value)
    ensures Passes(Required, v) <==>
      match v
      case Null => false
      case Undefined => false
      case Str(s) => |s| > 0
      case Num(n) => n != 0
      case BoolV(b) => b
      case Arr(a) => |a| > 0
      case Obj(p) => p.None? || p.value > 0
      case Fn(k) => k > 0
  {
  }

  /** `minlength(n)` and `maxlength(n)` fail on null, undefined and every
      value without a `length`; otherwise they compare the length with `n`,
      equality passing. Only strings, arrays, functions and objects with
      a `length` property have one. */
  lemma LengthRulesAccept(v: Value, n: int)
    ensures Passes(MinLength(n), v) <==>
      (v.Str? || v.Arr? || v.Fn? || (v.Obj? && v.lengthProp.Some?)) && Length(v).value >= n
    ensures Passes(MaxLength(n), v) <==>
      (v.Str? || v.Arr? || v.Fn? || (v.Obj? && v.lengthProp.Some?)) && Length(v).value <= n
  {
  }

  /** `min(n)` and `max(n)` fail on every non-number and otherwise compare
      the number with `n`, equality passing. */
  lemma RangeRulesAccept(v: Value, n: int)
    ensures Passes(Min(n), v) <==> v.Num? && v.n >= n
    ensures Passes(Max(n), v) <==> v.Num? && v.n <= n
  {
  }

  /** `pattern` fails on null and undefined and otherwise is the regex test. */
  lemma PatternAccepts(test: Value -> bool, v: Value)
    ensures Passes(Pattern(test), v) <==> !v.Null? && !v.Undefined? && test(v)
  {
  }

  /** Lengths count UTF-16 code units: one character outside the Basic
      Multilingual Plane is long enough for `minlength(2)` and too long for
      `maxlength(1)`. */
  lemma LengthCountsCodeUnits()
    ensures Length(Str("\U{1F600}")) == Some(2)
    ensures Passes(MinLength(2), Str("\U{1F600}"))
    ensures !Passes(MaxLength(1), Str("\U{1F600}"))
  {
    var s := "\U{1F600}";
    assert s[1..] == [];
    assert Utf16Length(s) == 2;
  }

  /** Distinct built-in rules report distinct error keys, except that rules
      of one kind with different arguments share their key. */
  lemma NamesIdentifyKinds(r1: Rule, r2: Rule)
    requires r1.Name() == r2.Name()
    ensures r1.String? == r2.String? && r1.Number? == r2.Number?
    ensures r1.Func? == r2.Func? && r1.Object? == r2.Object?
    ensures r1.Array? == r2.Array? && r1.Bool? == r2.Bool?
    ensures r1.Required? == r2.Required? && r1.Pattern? == r2.Pattern?
    ensures r1.MinLength? == r2.MinLength? && r1.MaxLength? == r2.MaxLength?
    ensures r1.Min? == r2.Min? && r1.Max? == r2.Max?
  {
  }
}
