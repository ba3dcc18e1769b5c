/** `messages(msgs)`: a callback for `validate` that turns the error records
    whose names have an entry in `msgs` into that entry's message, in order,
    and drops the others. */
module Msgs {
  import opened JsValues
  import opened Rules
  import opened Kay

  /** An entry of the `msgs` object: a literal message, or a function that
      receives the error record and returns the message. */
  datatype Message<T> = Literal(value: T) | Formatter(format: Failure -> T)

  /** One entry applied to one error: the literal itself, or the formatter
      called with the error record. */
  function Render<T>(m: Message<T>, e: Failure): (msg: T)
    ensures m.Literal? ==> msg == m.value
    ensures m.Formatter? ==> msg == m.format(e)
  {
    match m
    case Literal(text) => text
    case Formatter(format) => format(e)
  }

  /** The `filter` step: the errors whose name is an own key of `msgs`. */
  function Known<T>(msgs: map<string, Message<T>>, errs: seq<Failure>): (kept: seq<Failure>)
    ensures |kept| <= |errs|
    ensures forall e :: e in kept <==> e in errs && e.err in msgs
  {
    if errs == [] then []
    else
      var rest := Known(msgs, errs[1..]);
      if errs[0].err in msgs then [errs[0]] + rest else rest
  }

  /** The `filter` followed by the `map`: one message per known error. */
  function Translate<T>(msgs: map<string, Message<T>>, errs: seq<Failure>): (out: seq<T>)
    ensures |out| <= |errs|
  {
    var kept := Known(msgs, errs);
    seq(|kept|, i requires 0 <= i < |kept| => Render(msgs[kept[i].err], kept[i]))
  }

  /** `messages(msgs)` as the callback it returns. The callback yields
      nothing for no errors, the entry's message or nothing for one error,
      and treats a list as its parts in order; together these fix its
      result on every list. */
  function Messages<T>(msgs: map<string, Message<T>>): (callback: seq<Failure> -> seq<T>)
    ensures callback([]) == []
    ensures forall e :: callback([e]) == if e.err in msgs then [Render(msgs[e.err], e)] else []
    ensures forall e1, e2 :: callback(e1 + e2) == callback(e1) + callback(e2)
  {
    assert forall e :: Translate(msgs, [e]) == if e.err in msgs then [Render(msgs[e.err], e)] else [] by {
      forall e { TranslateOne(msgs, e); }
    }
    assert forall e1, e2 :: Translate(msgs, e1 + e2) == Translate(msgs, e1) + Translate(msgs, e2) by {
      forall e1, e2 { TranslateAppend(msgs, e1, e2); }
    }
    errs => Translate(msgs, errs)
  }

  /** Filtering keeps the relative order of the errors it keeps. */
  lemma {:induction false} KnownAppend<T>(msgs: map<string, Message<T>>, e1: seq<Failure>, e2: seq<Failure>)
    ensures Known(msgs, e1 + e2) == Known(msgs, e1) + Known(msgs, e2)
  {
    if e1 == [] {
      assert e1 + e2 == e2;
    } else {
      assert (e1 + e2)[0] == e1[0];
      assert (e1 + e2)[1..] == e1[1..] + e2;
      KnownAppend(msgs, e1[1..], e2);
    }
  }

  /** The messages of a concatenation are the messages of each part, in
      order: the output follows the order of the errors. */
  lemma TranslateAppend<T>(msgs: map<string, Message<T>>, e1: seq<Failure>, e2: seq<Failure>)
    ensures Translate(msgs, e1 + e2) == Translate(msgs, e1) + Translate(msgs, e2)
  {
    KnownAppend(msgs, e1, e2);
  }

  /** One error yields its message when its name has an entry, and nothing
      otherwise. */
  lemma TranslateOne<T>(msgs: map<string, Message<T>>, e: Failure)
    ensures Translate(msgs, [e]) == if e.err in msgs then [Render(msgs[e.err], e)] else []
  {
    assert [e][1..] == [];
  }

  /** When every error has an entry, every error gets its message, at its
      own position. */
  lemma {:induction false} TranslateAllKnown<T>(msgs: map<string, Message<T>>, errs: seq<Failure>)
    requires forall i :: 0 <= i < |errs| ==> errs[i].err in msgs
    ensures var out := Translate(msgs, errs);
      && |out| == |errs|
      && forall i :: 0 <= i < |errs| ==> out[i] == Render(msgs[errs[i].err], errs[i])
  {
    KnownAll(msgs, errs);
  }

  /** Filtering keeps every error whose name has an entry. */
  lemma {:induction false} KnownAll<T>(msgs: map<string, Message<T>>, errs: seq<Failure>)
    requires forall i :: 0 <= i < |errs| ==> errs[i].err in msgs
    ensures Known(msgs, errs) == errs
  {
    if errs != [] {
      assert forall i :: 0 <= i < |errs| - 1 ==> errs[1..][i] == errs[i + 1];
      KnownAll(msgs, errs[1..]);
    }
  }

  /** When no error has an entry, there are no messages. */
  lemma {:induction false} TranslateNoneKnown<T>(msgs: map<string, Message<T>>, errs: seq<Failure>)
    requires forall i :: 0 <= i < |errs| ==> errs[i].err !in msgs
    ensures Translate(msgs, errs) == []
  {
    if errs != [] {
      assert forall i :: 0 <= i < |errs| - 1 ==> errs[1..][i] == errs[i + 1];
      TranslateNoneKnown(msgs, errs[1..]);
      assert Known(msgs, errs) == Known(msgs, errs[1..]);
    }
  }

  /** The examples of the source's tests: `required().validate(null,
      messages({required: text}))` returns `[text]`, and with a formatter in
      place of the text, the formatter's result on `{err: 'required'}`. */
  lemma MessagesExample<T>(text: T, format: Failure -> T)
    ensures ValidateThen([Required], Null, Some(Messages(map["required" := Literal(text)])))
      == Returned([text])
    ensures ValidateThen([Required], Null, Some(Messages(map["required" := Formatter(format)])))
      == Returned([format(Err("required"))])
  {
    assert [Required][1..] == [];
    var errs := [Err("required")];
    assert Validate([Required], Null) == errs;
    var literal := map["required" := Literal(text)];
    var formatted := map["required" := Formatter(format)];
    TranslateOne(literal, Err("required"));
    TranslateOne(formatted, Err("required"));
    assert Messages(literal)(errs) == [text];
    assert Messages(formatted)(errs) == [format(Err("required"))];
  }
}
