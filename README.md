# kay: chainable value validators, modelled in Dafny

kay builds a validator by chaining rule registrations such as
`kay.string().required().minlength(4)`. Each call returns a new builder
whose `validators` list is the previous list with one more rule appended.
`validate(value, callback)` runs every rule against the value. It produces
one `{err: name}` record per failing rule, in registration order, and hands
that list to the callback when one is given. `messages(msgs)` builds such a
callback. It keeps the errors that have an entry in `msgs` and turns each
one into its literal message or into the result of its formatter function.

The model has four modules:

- `JsValues` (values.dfy) covers the parts of a JavaScript value that the
  rules observe: the `Object.prototype.toString` tag, `typeof`, truthiness,
  `== null` and the `length` property. A string's `length` counts UTF-16
  code units, so a character outside the Basic Multilingual Plane counts
  twice. A function's `length` is the number of its parameters before the first
  default or rest parameter. A plain object may have a
  `length` property, own or inherited, that reads as an integer.
- `Rules` (rules.dfy) has one `Rule` constructor per built-in rule. Each
  constructor carries its argument and names its own error key, so nothing
  is read back from a function's name. `Passes` is the rule predicate.
- `Kay` (kay.dfy) holds builders as `seq<Rule>`, together with `Chain`,
  `Validate` (the `map`/`filter` pipeline) and `ValidateThen` (the callback
  dispatch).
- `Msgs` (messages.dfy) models `messages` as the `filter` step `Known`
  followed by the `map` step in `Translate`.

The model follows the code of index.js where the tests in test.js
disagree with it:

- Several tests expect `null` (and `''` for `minlength`) to pass every
  non-`required` rule. As written, every type rule rejects `null`, because
  its tag is "[object Null]". `minlength`, `maxlength` and `pattern` reject
  null and undefined explicitly. `min` and `max` reject every non-number.
  `minlength(3)` rejects `''`. The lemmas state what the code does, and no
  "empty passes" property is claimed.
- `bool` compares against "[object Bool]". `Object.prototype.toString`
  gives that tag to no built-in value (booleans give "[object Boolean]"),
  so the rule rejects every modelled value, `true` and `false` included.
  Only an object whose `Symbol.toStringTag` (own or inherited) is "Bool" could
  pass, and such objects are not modelled. The model keeps this behaviour
  and `Rules.BoolRejectsEverything` states it.

## Model

| member | source | states |
|---|---|---|
| `JsValues.Tag` | index.js:8-10 | every value's toString tag has the form "[object …]": it starts with "[object " and ends with "]" |
| `JsValues.Utf16Length` | index.js:66 | a string's `length` counts UTF-16 code units: at least one and at most two per character |
| `JsValues.Length` | index.js:56 | a `length` that exists is never negative, except an object's `length` property |
| `Rules.Passes` | index.js:18-108 | the twelve rule predicates; no built-in rule accepts null or undefined, and `bool` accepts nothing |
| `Rules.TypeRulesAcceptTheirKind` | index.js:18-46 | `string`, `number`, `func`, `object` and `array` each accept exactly the values of their own kind: `123` fails `string`, `['foo']` fails `object`, `{}` fails `array` |
| `Rules.BoolRejectsEverything` | index.js:48-52 | `bool` rejects every value |
| `Rules.RequiredAccepts` | index.js:54-58 | `required` fails exactly on null, undefined, `''`, `0`, `false`, empty arrays, zero-arity functions and objects whose `length` is not positive |
| `Rules.LengthRulesAccept` | index.js:60-78 | `minlength(n)`/`maxlength(n)` fail on values without a `length` (null, undefined, numbers, booleans, `{}`) and otherwise pass iff `length >= n` / `length <= n` |
| `Rules.RangeRulesAccept` | index.js:80-98 | `min(n)`/`max(n)` fail on every non-number and otherwise pass iff `value >= n` / `value <= n`; equality passes |
| `Rules.PatternAccepts` | index.js:100-108 | `pattern` fails on null and undefined and otherwise gives the regex test's answer |
| `Rules.LengthCountsCodeUnits` | index.js:60-78 | a single character outside the Basic Multilingual Plane has `length` 2, so it passes `minlength(2)` and fails `maxlength(1)` |
| `Rules.NamesIdentifyKinds` | index.js:18-108 | two rules that report the same error key are of the same kind |
| `Kay.Chain` | index.js:3-6 | the new builder is the old rule list with exactly one rule appended at the end; the old list is its unchanged prefix |
| `Kay.Check` | index.js:115 | a rule contributes nothing iff it accepts the value, and a failing rule contributes `{err: name}` with its own name |
| `Kay.Validate` | index.js:110-116 | at most one error per rule, and no errors iff every rule accepts the value |
| `Kay.ValidateThen` | index.js:118-122 | without a callback the result is the error list; with one it is the callback applied once to that list |
| `Kay.ValidateAppend` | index.js:113-116 | the errors of a concatenated builder are the first part's errors followed by the second part's: evaluation is ordered and never stops early |
| `Kay.ValidateChain` | index.js:110-116 | chaining a rule leaves the earlier errors in place and adds that rule's error at the end iff it fails |
| `Kay.ValidateEmpty` | index.js:111 | a builder with no rules yields `[]` |
| `Kay.FailingIndices` | index.js:113-116 | the positions of the rules that reject the value |
| `Kay.FailingIndicesComplete` | index.js:113-116 | those positions are strictly increasing and include every rejecting rule |
| `Kay.ValidateIsFailingRules` | index.js:113-116 | the error list holds exactly one `{err: name}` per failing rule, in registration order, and nothing for passing rules |
| `Kay.ValidateAllFailing` | index.js:113-116 | when every rule fails, every rule is reported, in order |
| `Kay.ValidateExample` | test.js:200-214 | `string().required().minlength(4)` on `1` yields `[{err:'string'}, {err:'minlength'}]`, and a callback receives exactly that list |
| `Msgs.Render` | index.js:129 | a literal entry yields the literal whatever the error; a function entry yields its result on the error record |
| `Msgs.Messages` | index.js:125-131 | the returned callback maps `[]` to `[]`, one error to its entry's message or to nothing when its name is not a key, and a concatenation to the concatenation of the parts' results, in order |
| `Msgs.Known` | index.js:128 | the kept errors are never more than the input and are exactly those whose name is a key of `msgs` |
| `Msgs.Translate` | index.js:127-129 | the output is never longer than the error list |
| `Msgs.KnownAppend` | index.js:128 | the filter keeps the relative order of the errors |
| `Msgs.TranslateAppend` | index.js:127-129 | the messages follow the order of the errors |
| `Msgs.TranslateOne` | index.js:128-129 | one error yields `msgs[name]` if it is a literal, `msgs[name](err)` if it is a function, and nothing if `name` is not a key |
| `Msgs.KnownAll` | index.js:128 | when every error's name is a key, the filter keeps everything |
| `Msgs.TranslateAllKnown` | index.js:127-129 | when every name is a key, each error is replaced in place by its message |
| `Msgs.TranslateNoneKnown` | index.js:127-129 | when no name is a key, the result is empty |
| `Msgs.MessagesExample` | test.js:217-230 | `required().validate(null, messages({required: m}))` yields `[m]`; with a formatter `f` it yields `[f({err:'required'})]` |

## Left out

- Regular-expression matching (`regex.test`) belongs to the host's regex engine. `Pattern` carries it as an arbitrary `Value -> bool`, and that function includes the engine's conversion of the value to a string. Only the null check around it is modelled.
- Numbers are integers. Floating point, NaN and infinities are not modelled.
- Only these kinds of value are modelled: null, undefined, strings, integers, booleans, arrays, ordinary functions, and plain objects without `Symbol.toStringTag`. Boxed primitives, dates, regular expressions, symbols and BigInts are not.
- Strings containing an unpaired UTF-16 surrogate (such as `'\uD800'`, of length 1) are not modelled. A `Str` holds Unicode scalar values, which exclude lone surrogates.
- Async and generator functions are not modelled. Their tags are "[object AsyncFunction]" and "[object GeneratorFunction]", so `func` rejects them.
- Objects with a `Symbol.toStringTag`, own or inherited, are not modelled. Such an object gets whatever tag it names, so it can pass a type rule for another kind, `bool` included.
- An object's `length` property (own or inherited) is modelled only when it is absent, `null`/`undefined`, or an integer.
- Omitted or non-numeric rule arguments are not modelled. `minlength()`, `maxlength()`, `min()` and `max()` compare with `undefined` and so reject every value. The arguments of `MinLength`, `MaxLength`, `Min` and `Max` are always integers.
- A missing `pattern` argument is not modelled, and neither is an argument without a callable `test` method. Either one throws a `TypeError` on every non-null value. Any object whose `test` is callable works like a RegExp, and `Pattern` models it by its (pure, total) test.
- Stateful regular expressions (the `g` and `y` flags) are not modelled. Their `test` reads and advances `lastIndex`, so the same builder can give different answers on successive `validate` calls. `Pattern`'s test is a pure function, so `Validate` is deterministic.
- A `msgs` object without `hasOwnProperty` (such as one made by `Object.create(null)`) is not modelled. It throws inside the filter step of `messages`. `msgs` is modelled as a map whose keys are its own property names.
- The `object-assign` copying of every API function onto each builder (index.js:1, 5) is not modelled. It is object plumbing and decides no behaviour of validation.
- Error keys do not come from `validator.name`. Each rule names its own key.
- Only the `messages` entries that are own keys are modelled, as a map from name to message. Inherited entries are not modelled, and neither is an object whose own key `hasOwnProperty` shadows the method.
- The callback is a pure function of the error list. The claim "called exactly once" is modelled as "the result is the callback applied to the error list". A callback argument that is not a function (which throws in the source) is not modelled.
- A `messages` formatter is likewise a pure function of the error record. Its call count (once per kept error) and any side effects are not modelled; `Msgs.Render` gives its result on that error.
- Messages.Translate: its own contract states only the length bound; the full content (filter then map, in order) is stated by `Msgs.TranslateAppend` and `Msgs.TranslateOne`.
