# BigDecimal field kind for mongoose, in Dafny

This project models `SchemaBigDecimal`, the custom schema type of
mongoose-bigdecimal. The type adds exact decimal fields (backed by big.js) to a
mongoose schema. The model covers everything the adapter in `index.js` does itself:

- `cast` turns raw input into a decimal or `null`, or throws a CastError of kind `BigDecimal`;
- `checkRequired` is the required-field test;
- `min` / `max` reconfigure the field's validator list, replacing the entry they installed before;
- `castForQuery` casts query conditions through a fixed table of operators;
- module loading registers the type under `BigDecimal` in mongoose's two type registries, without overwriting an existing entry.

The decimal library is modelled as parameters. A `BigLib.Library` record holds its parser,
its `String(number)` step, `toString` and the overridden `valueOf`, so every result below holds
whatever those functions do. Decimals are exact `real`s, and `gt` / `lt` are `>` / `<`.

Files, one module each: `wrappers.dfy` (Option, Result), `js_values.dfy` (JavaScript values
and truthiness), `big_lib.dfy`, `templates.dfy` (first-occurrence `replace`), `casting.dfy`,
`bounds.dfy`, `query.dfy`, `registration.dfy`.

On two points a reader might expect otherwise; the model follows the code:

- The CastError kind is `BigDecimal` (index.js:35, 160, 164), not `Decimal`.
- The `min` / `max` bounds are strict (`gt` / `lt`, index.js:80, 116), not inclusive. A value equal to the bound is rejected.

A field's validator functions are identified by a fresh `id`, which stands in for
JavaScript function identity. The invariant `Bounds.WF` says four things. Every id in use
is below `nextId`. The function `min` (`max`) installed last checks a lower (upper) bound.
Every entry that checks a lower (upper) bound is that function, tagged `'min'` (`'max'`).
There is at most one such entry per side. That validators installed by anyone else
(`Foreign`) are never touched is not part of the invariant: it is `Bounds.SetBound`'s
promise that the entries not checking its side are the same before and after, in order.

## Model

| member | source | states |
|---|---|---|
| JsValues.Truthy | index.js:156 | a value is falsy exactly when it is `null`, `undefined`, `false`, `0`, `NaN` or `''` |
| BigLib.Construct | index.js:158 | the constructor yields a decimal only for a string or a number, and a string is handed to the parser as is |
| BigLib.NumberConstructedViaString | index.js:158 | a number is constructed exactly as its `String(n)` form would be |
| Casting.Cast | index.js:138-165 | `null` and `''` (and nothing else) give `null`; a decimal is returned unchanged; a truthy string or number succeeds exactly when the library constructor accepts it, with the constructor's value; every failure is a CastError carrying kind `BigDecimal`, the raw value and the path |
| Casting.CheckRequired | index.js:53-55 | true exactly for decimal instances, which are never `null` |
| Casting.CastOthersWithoutParsing | index.js:156-164 | for inputs that are not truthy strings or numbers the result does not depend on the parser at all, and apart from `null`, `''` and decimals it is a CastError |
| Casting.FalsyInputsFail | index.js:156-164 | every falsy input other than `null` and `''` is a CastError |
| Casting.ZeroIsACastError | index.js:156-164 | `0`, `NaN`, `undefined`, `false` and `true` are CastErrors |
| Casting.CastIsIdempotent | index.js:141-153 | casting a cast result again gives the same result |
| Casting.CastSatisfiesCheckRequired | index.js:53-55 | a successful cast passes the required check exactly when it is non-null, which is exactly when the input was neither `null` nor `''` |
| Templates.IndexFrom | index.js:77 | finds the leftmost occurrence of the placeholder at or after a position, or proves there is none |
| Templates.ReplaceFirst | index.js:77 | a template without the placeholder is unchanged; otherwise only the leftmost placeholder is replaced and the rest is kept verbatim |
| Templates.OnlyFirstPlaceholderReplaced | index.js:77 | `'{MIN} < {MIN}'` becomes `'4 < {MIN}'`, and a message with no placeholder is kept |
| Bounds.Drop | index.js:70-72 | the identity filter keeps exactly the entries whose function is not the given one, never growing the list |
| Bounds.NewField | index.js:25-27 | a field as the mapper's constructor leaves it, with only foreign validators and no bound installed, satisfies the invariant and has no bound entries |
| Bounds.Withdraw | index.js:69-73 | filtering out the previously installed function (or not filtering, when none was installed) leaves exactly the entries that do not check that side, in order |
| Bounds.Template | index.js:76 | the template is the caller's message when it is non-empty and the mapper's default otherwise |
| Bounds.BoundMessage | index.js:77 | the installed message is the template when it has no placeholder, and otherwise the template with only its first placeholder replaced by the bound's string form |
| Bounds.SetBound | index.js:67-91 | keeps the field invariant, leaves the other side's function and every entry not checking this side unchanged in order, and leaves exactly one entry for this side, a fresh function appended last, when the bound is non-null and none otherwise |
| Bounds.Min | index.js:67-91 | as SetBound for the lower side: the appended entry is tagged `'min'`, admits exactly non-null values strictly above the bound, and its message is the caller's non-empty message or the default, with the first `{MIN}` replaced by the bound's string form |
| Bounds.Max | index.js:103-127 | the mirror of Min: tag `'max'`, admits exactly non-null values strictly below the bound, first `{MAX}` replaced |
| Bounds.MinReplacesPrevious | index.js:69-88 | `min(b1)` then `min(b2)` leaves exactly one lower-bound entry, checking `b2`, and all other entries as they were |
| Bounds.MinNullClears | index.js:69-75 | `min(null)` after `min(b)` leaves no lower-bound entry and all other entries in place |
| Bounds.BoundsAreStrict | index.js:79-81 | the installed `min` and `max` entries reject `null` and the bound itself |
| Bounds.BoundsAreIndependent | index.js:103-109 | `max` after `min` keeps the `min` entry and its function; each side then has exactly one entry |
| Query.HandlerTable | index.js:192-202 | every operator in the table is single-value or array, and the table holds exactly `$lt $lte $gt $gte $ne` (single-value) and `$in $nin $mod $all` (array) |
| Query.CastAll | index.js:184-186 | mapping `cast` succeeds iff every element casts; then it has the input's length with element i the cast of input i; otherwise the error is that of the first failing element |
| Query.HandleSingle | index.js:171-175 | the handler's result is the cast of the operand, failure included |
| Query.HandleArray | index.js:177-188 | a scalar is wrapped into a one-element list; the result has one cast value per operand, and succeeds iff every operand casts; otherwise the error is the CastError of the first operand that fails |
| Query.ValueOf | index.js:220 | `valueOf` throws exactly on a `null` handler result, keeps a list as it is, and converts one decimal through the library |
| Query.CastForQuery | index.js:212-226 | an operator outside the table fails with "Can't use <op> with BigDecimal."; array operators return the list of cast decimals (length of the array, or 1), unconverted, or fail with the CastError of the first operand that fails; single-value operators and the one-argument form return the cast value converted by `valueOf`, and throw on a `null` cast result |
| Query.NullOperandThrows | index.js:220-223 | `castForQuery('$ne', null)`, `castForQuery(null)` and the same with `''` throw a TypeError as written, although the operand casts cleanly |
| Query.ArrayOperandsKeepNulls | index.js:177-188 | for every operand, array operators never throw the `null.valueOf()` TypeError, and an operand that casts to `null` is `null` in the returned list |
| Query.CastForQueryNullSafe | index.js:220-223 | with the unwrap guarded, `castForQuery` fails only for an unsupported operator or a cast error; it agrees with the original everywhere the original does not throw the TypeError, and returns `null` where it does |
| Registration.Occupied | index.js:234 | a registry slot counts as taken exactly when it holds an implementation; an absent name never does |
| Registration.AttachType | index.js:234-236 | after attaching, the name is bound to a truthy entry; an existing truthy entry is kept; otherwise the new type is stored; all other names are unchanged |
| Registration.Attach | index.js:233-241 | both registries end up holding a `BigDecimal` entry; each keeps the one it already had; every other name in either registry is unchanged |
| Registration.AttachIsIdempotent | index.js:234-241 | loading the module twice equals loading it once |
| Registration.AttachNeverOverwrites | index.js:239-241 | a registry already holding an implementation under the name is returned unchanged |

## Left out

- The `valueOf` override (index.js:11-15) is the opaque `Library.valueOf`. It converts through a JavaScript double, and floating point is not modelled.
- big.js itself is not modelled: its string grammar, `toString`, and the `String(n)` it applies to numbers are opaque `Library` functions.
- The `SchemaType` constructor and prototype wiring (index.js:25-42) are mongoose machinery. A `Field` is the state those leave behind.
- Running the validators, skipping them for `undefined`, and collecting CastError and ValidatorError into a ValidationError all happen inside mongoose and are not modelled. The model states what each installed predicate admits.
- Persisting a document and reading it back needs a database and is not modelled.
- `min(undefined)` is not modelled: a bound is either `null` (`None`) or a decimal. The source would install a validator comparing against `undefined`.
- Messages are strings. A non-string message, and `$` patterns in the replacement, are not modelled. big.js string forms never contain `$`.
- The handler lookup only knows the nine table keys. In JavaScript, a key inherited from `Object.prototype` (such as `toString`) would also find a "handler"; mongoose only passes `$`-prefixed operators.
- Holes in sparse arrays given to the array handler are not modelled.
- Registration: a name bound to a falsy value is represented as `None`. It is overwritten, as in the source.

## Findings

| source | as written | input that shows it | evidently intended | confidence | as-written member | corrected member |
|---|---|---|---|---|---|---|
| index.js:220-223 | `.valueOf()` is called on the handler's result without a `null` check, and `cast` returns `null` for `null` and `''` | `castForQuery('$ne', null)` (the query `{price: {$ne: null}}`), or `castForQuery('')` | a `null` operand stays `null`, as array operators already allow | medium, not executed | Query.NullOperandThrows | Query.CastForQueryNullSafe |
