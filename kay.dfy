/** Builders and validation. A builder is the ordered list of rules that
    `chain` has accumulated; `validate` runs every rule against one value
    and reports one `{err: name}` record per failing rule. */
module Kay {
  import opened JsValues
  import opened Rules

  /** The `validators` list of a builder object. The root API object has
      none, which `this.validators || []` reads as the empty list. */
  type Builder = seq<Rule>

  /** The error record `{err: name}` built by `Err`. */
  datatype Failure = Err(err: string)

  /** What `validate` returns: the error list itself when no callback is
      given, otherwise whatever the callback returned. */
  datatype Reply<R> = Errors(errors: seq<Failure>) | Returned(value: R)

  /** `chain(obj, validator)`: a new builder whose list is the old one with
      the rule appended at the end; the old builder is a value and stays as
      it was. Registering a built-in rule, as `kay.minlength(3)` does, is
      `Chain(b, MinLength(3))`. */
  function Chain(b: Builder, r: Rule): (c: Builder)
    ensures |c| == |b| + 1
    ensures c[..|b|] == b && c[|b|] == r
  {
    b + [r]
  }

  /** The `map` step of `validate` for one rule: nothing when the rule
      accepts `v`, its error record when it does not. */
  function Check(r: Rule, v: Value): (o: Option<Failure>)
    ensures o.None? <==> Passes(r, v)
    ensures o.Some? ==> o.value == Err(r.Name())
  {
    if Passes(r, v) then None else Some(Err(r.Name()))
  }

  /** The error list of `validate`: the `map` over the rules followed by the
      `filter` that drops the passing ones. Every rule is tried. */
  function Validate(b: Builder, v: Value): (errs: seq<Failure>)
    ensures |errs| <= |b|
    ensures errs == [] <==> forall i :: 0 <= i < |b| ==> Passes(b[i], v)
  {
    if b == [] then []
    else
      var rest := Validate(b[1..], v);
      assert forall i :: 1 <= i < |b| ==> b[i] == b[1..][i - 1];
      match Check(b[0], v)
      case None => rest
      case Some(e) => [e] + rest
  }

  /** `validate(value, callback)`: the error list itself, or the callback's
      result on that list when a callback is given. */
  function ValidateThen<R>(b: Builder, v: Value, callback: Option<seq<Failure> -> R>): (reply: Reply<R>)
    ensures callback.None? ==> reply == Errors(Validate(b, v))
    ensures callback.Some? ==> reply == Returned(callback.value(Validate(b, v)))
  {
    var errors := Validate(b, v);
    if callback.None? then Errors(errors) else Returned(callback.value(errors))
  }

  /** Validation distributes over concatenation of builders: the errors of
      the first rules come first, in order, and no failure stops the rest. */
  lemma {:induction false} ValidateAppend(b1: Builder, b2: Builder, v: Value)
    ensures Validate(b1 + b2, v) == Validate(b1, v) + Validate(b2, v)
  {
    if b1 != [] {
      assert (b1 + b2)[0] == b1[0];
      assert (b1 + b2)[1..] == b1[1..] + b2;
      ValidateAppend(b1[1..], b2, v);
    } else {
      assert b1 + b2 == b2;
    }
  }

  /** Chaining a rule appends that rule's report to the old builder's errors,
      whatever the old errors were. */
  lemma ValidateChain(b: Builder, r: Rule, v: Value)
    ensures Validate(Chain(b, r), v) == Validate(b, v) + (if Passes(r, v) then [] else [Err(r.Name())])
  {
    ValidateAppend(b, [r], v);
    assert [r][1..] == [];
  }

  /** The empty builder reports nothing. */
  lemma ValidateEmpty(v: Value)
    ensures Validate([], v) == []
  {
  }

  /** The indices of the failing rules of `b`, built from the end of the
      list; each names a rule of `b` that rejects `v`. */
  ghost function FailingIndices(b: Builder, v: Value): (ix: seq<nat>)
    ensures forall k :: 0 <= k < |ix| ==> ix[k] < |b| && !Passes(b[ix[k]], v)
  {
    if b == [] then []
    else
      var init := b[..|b| - 1];
      assert forall i :: 0 <= i < |init| ==> init[i] == b[i];
      FailingIndices(init, v) + (if Passes(b[|b| - 1], v) then [] else [|b| - 1])
  }

  /** The failing indices are increasing and include every rule that
      rejects `v`. */
  lemma {:induction false} FailingIndicesComplete(b: Builder, v: Value)
    ensures var ix := FailingIndices(b, v);
      && (forall k, l :: 0 <= k < l < |ix| ==> ix[k] < ix[l])
      && (forall i :: 0 <= i < |b| && !Passes(b[i], v) ==> i in ix)
  {
    if b != [] {
      var init := b[..|b| - 1];
      assert forall i :: 0 <= i < |init| ==> init[i] == b[i];
      FailingIndicesComplete(init, v);
    }
  }

  /** `validate` returns exactly one error per failing rule, named after that
      rule, in registration order, and nothing for passing rules. */
  lemma {:induction false} ValidateIsFailingRules(b: Builder, v: Value)
    ensures var ix := FailingIndices(b, v);
      Validate(b, v) == seq(|ix|, k requires 0 <= k < |ix| => Err(b[ix[k]].Name()))
  {
    if b != [] {
      var init := b[..|b| - 1];
      var last := b[|b| - 1];
      assert b == init + [last];
      var ix0 := FailingIndices(init, v);
      var ix := FailingIndices(b, v);
      ValidateIsFailingRules(init, v);
      ValidateAppend(init, [last], v);
      var lhs := seq(|ix|, k requires 0 <= k < |ix| => Err(b[ix[k]].Name()));
      var front := seq(|ix0|, k requires 0 <= k < |ix0| => Err(init[ix0[k]].Name()));
      assert Validate(b, v) == front + Validate([last], v);
      if Passes(last, v) {
        assert ix == ix0;
        assert lhs == front;
      } else {
        assert ix == ix0 + [|b| - 1];
        assert lhs == front + [Err(last.Name())];
      }
    }
  }

  /** When every rule fails, the errors name every rule in order: the first
      failure does not short-circuit the rest. */
  lemma {:induction false} ValidateAllFailing(b: Builder, v: Value)
    requires forall i :: 0 <= i < |b| ==> !Passes(b[i], v)
    ensures Validate(b, v) == seq(|b|, i requires 0 <= i < |b| => Err(b[i].Name()))
  {
    if b != [] {
      assert forall i :: 0 <= i < |b| - 1 ==> b[1..][i] == b[i + 1];
      ValidateAllFailing(b[1..], v);
    }
  }

  /** The example of the source's tests: `string().required().minlength(4)`
      on the number 1 reports `string` and `minlength`; given a callback,
      the callback's result on that list is returned. */
  lemma ValidateExample<R>(f: seq<Failure> -> R)
    ensures var b := Chain(Chain(Chain([], String), Required), MinLength(4));
      && Validate(b, Num(1)) == [Err("string"), Err("minlength")]
      && ValidateThen(b, Num(1), Some(f)) == Returned(f([Err("string"), Err("minlength")]))
  {
    var b := Chain(Chain(Chain([], String), Required), MinLength(4));
    assert b == [String, Required, MinLength(4)];
    assert b[1..] == [Required, MinLength(4)];
    assert b[1..][1..] == [MinLength(4)];
  }
}
