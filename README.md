# sqlfluff-sqlc-postgres placeholder templater, modelled in Dafny

This project models `SqlcPlaceholderTemplater`, the sqlfluff templater for SQL files written for
sqlc. The templater finds bind-parameter placeholders such as `@user_id` or `@flag::boolean` and
replaces each one:
- with a value bound in the templater's context; or
- when `autofill_missing_params` is set and the context has no such key, with a literal chosen
  from the placeholder's type annotation.

While it substitutes, it records how the source and the output correspond. It builds two slice
lists side by side:
- `TemplatedFileSlice`: a source span and its output span;
- `RawFileSlice`: a source text, its kind and where it starts.

Both lists alternate a literal gap and a templated placeholder, and end with the text after the
last placeholder, if there is any.

Modules, following the structure of `sqlfluff_sqlc_postgres/templater.py`:

- `Wrappers` (wrappers.dfy): `Option` and `Result`.
- `Strings` (strings.dfy): ASCII lower-casing, `str()` of a counter, and substring tests.
- `Regex` (regex.dfy): match records and a scanner for the built-in `sqlc` pattern.
  - A match record holds a span plus the `param_name` and `param_type` groups.
  - The scanner proves that it finds exactly the leftmost, non-overlapping tokens.
- `Context` (context.dfy): context values, templater errors and the templater's two fixed
  layers. It also holds `get_context`: the three-layer merge, then the `param_regex` /
  `param_style` validation.
- `Autofill` (autofill.dfy): `AUTOFILL_PARAMS` and `_get_autofill_value`, an ordered table of
  substring tests.
- `Slices` (slices.dfy): the slice records and the `TemplatedFile`. Its `Build` fold describes
  one loop pass per segment. It also states the consistency a templated file must have:
  - the spans tile both texts;
  - each slice agrees with its raw slice;
  - literals are copied unchanged;
  - the raw texts rebuild the source.
- `Templating` (templater.dfy): the main operations.
  - Value resolution.
  - The specification functions `Expected` (the substitution) and `Template` (the whole `process`).
  - The methods `Process` and `Substitute`. `Substitute` is the `for` loop over the matches,
    with the cursors `lastPosRaw` / `lastPosTemplated`, the counter `paramCounter` and the three
    accumulators. Each is proved equal to its specification function.
- `Properties` (properties.dfy): what a result of `process` satisfies.
  - It is consistent.
  - It has 2k slices, plus one for trailing text.
  - Match i gives a literal slice and then a templated slice whose output is its replacement.
  - A text without placeholders comes out unchanged.
  - Positional names `"1"`, `"2"`, … are distinct.
- `Instances` (instances.dfy): a lone placeholder worked through, with and without text after
  it, and three concrete texts: an autofilled parameter, a bound one and a missing one.

The templater's fields are set once in `__init__` and never updated, so it is a datatype
(`Context.Templater`). `process` works step by step on local lists and cursors, so it is a
method with a loop whose invariant ties the three accumulators to the fold `Partial`.

## Model

| member | source | states |
|---|---|---|
| Context.LiveContext | sqlfluff_sqlc_postgres/templater.py:63-66 | a key is live exactly when some layer has it; the override wins, then the loaded settings, then the defaults |
| Context.Truthy | sqlfluff_sqlc_postgres/templater.py:184 | defines `context.get(key)` read as a condition: the key is present and its value is a non-empty text, `True` or a compiled pattern |
| Context.NewTemplater | sqlfluff_sqlc_postgres/templater.py:47-49 | defines `__init__`: the defaults hold only `test_value = "__test__"`, and an absent override context is the empty one |
| Context.IsKnownStyle | sqlfluff_sqlc_postgres/templater.py:20-22 | defines membership in `KNOWN_STYLES` (`Context.KnownStyles`, a constant map holding only `"sqlc"` and its pattern) for a `param_style` value |
| Context.MergeOrder | sqlfluff_sqlc_postgres/templater.py:47-66 | for a constructed templater, key by key: the override value, else the loaded value, else `"__test__"` for `test_value`, else absent |
| Context.CompileRegex | sqlfluff_sqlc_postgres/templater.py:72-74 | compiling `param_regex` fails exactly when the value is a flag rather than text or a pattern |
| Context.GetContext | sqlfluff_sqlc_postgres/templater.py:52-88 | "not both" exactly when both options are live; "neither" exactly when neither is; an unknown style gives the style and the list `["sqlc"]`, and only then; otherwise the live context plus the chosen compiled pattern under `__bind_param_regex` |
| Context.GetContextSuccess | sqlfluff_sqlc_postgres/templater.py:71-88 | on success the context keeps every live key unchanged and adds a compiled pattern under `__bind_param_regex` |
| Context.SetupWithoutStyle | test/placeholder_test.py:99-104 | a templater given only a binding reports that neither option was given |
| Context.SetupWithBoth | test/placeholder_test.py:106-113 | `param_style="bla"` with `param_regex="bli"` reports "not both", not the unknown style |
| Context.SetupWithUnknownStyle | test/placeholder_test.py:118-120 | an unregistered style is reported with the registered ones |
| Autofill.FirstFiring | sqlfluff_sqlc_postgres/templater.py:113-128 | the kind of the first table row that fires, and text when none fires |
| Autofill.AutofillParams | sqlfluff_sqlc_postgres/templater.py:24-34 | defines `AUTOFILL_PARAMS`: the literal of each of the nine kinds |
| Autofill.DispatchType | sqlfluff_sqlc_postgres/templater.py:112-128 | defines the if/elif chain on the lower-cased type: the first of its substring tests that holds picks the kind, text when none holds |
| Autofill.AutofillKind | sqlfluff_sqlc_postgres/templater.py:101-112 | defines the kind a match selects: text without a type group or with an empty one, otherwise the dispatch on the lower-cased type |
| Autofill.AutofillValue | sqlfluff_sqlc_postgres/templater.py:90-141 | defines `_get_autofill_value`: the `AUTOFILL_PARAMS` literal of the selected kind |
| Autofill.DispatchFollowsTable | sqlfluff_sqlc_postgres/templater.py:112-141 | the if/elif chain is the first firing row of the ordered table (arrays before their element types, `integer`/`int` before `float`, then `boolean`, then `date`) |
| Autofill.AutofillIgnoresCase | sqlfluff_sqlc_postgres/templater.py:112 | a type annotation and its lower-cased form autofill the same way |
| Autofill.AutofillUntyped | sqlfluff_sqlc_postgres/templater.py:102-110 | no type group, or an empty one, gives `'string'` |
| Autofill.AutofillBoolean | sqlfluff_sqlc_postgres/templater.py:125-126 | `boolean` gives `true` |
| Autofill.AutofillInteger | sqlfluff_sqlc_postgres/templater.py:121-122 | `integer` gives `1000` |
| Autofill.AutofillFloat | sqlfluff_sqlc_postgres/templater.py:123-124 | `float` gives `1.2345` |
| Autofill.AutofillDate | sqlfluff_sqlc_postgres/templater.py:127-128 | `date` gives `CURRENT_DATE` |
| Autofill.AutofillIntegerArray | sqlfluff_sqlc_postgres/templater.py:113-114 | `integer[]` gives `ARRAY[1,2,3]` |
| Autofill.AutofillTextArray | sqlfluff_sqlc_postgres/templater.py:119-120 | `text[]` gives `ARRAY['abc','def','ghi']` |
| Autofill.AutofillBooleanArray | sqlfluff_sqlc_postgres/templater.py:117-118 | `boolean[]` gives `ARRAY[true,false,true]`, although it contains `boolean` |
| Autofill.AutofillFloatArray | sqlfluff_sqlc_postgres/templater.py:115-116 | `float[]` gives `ARRAY[1.1,2.2,3.3]`, although it contains `float` |
| Strings.Lower | sqlfluff_sqlc_postgres/templater.py:112 | same length, each character lower-cased |
| Strings.LowerIdempotent | sqlfluff_sqlc_postgres/templater.py:112 | lower-casing twice is lower-casing once |
| Strings.Decimal | sqlfluff_sqlc_postgres/templater.py:177 | a non-empty run of digits, one digit exactly when n < 10; `Strings.DecimalValue` shows it is `str(n)` |
| Strings.DecimalInjective | sqlfluff_sqlc_postgres/templater.py:177-178 | distinct counters are rendered as distinct names |
| Strings.DigitsValue | sqlfluff_sqlc_postgres/templater.py:177 | defines the number a run of decimal digits denotes, most significant digit first |
| Strings.DecimalValue | sqlfluff_sqlc_postgres/templater.py:177 | `Decimal(n)` denotes n and has no leading zero once n >= 10, so it is `str(n)` |
| Regex.RunEnd | sqlfluff_sqlc_postgres/templater.py:21 | a greedy `+`: every character up to the end is in the class, and the next one is not |
| Regex.SqlcMatchAt | sqlfluff_sqlc_postgres/templater.py:21 | the pattern matches at i exactly when `@` and a word character start there; the match is non-empty and lies in the text |
| Regex.SqlcMatchAtIsToken | sqlfluff_sqlc_postgres/templater.py:21 | what matches is `@`, a longest word run as the name, and `::` with a longest type run whenever one follows |
| Regex.TokenText | sqlfluff_sqlc_postgres/templater.py:21 | the matched text is `@` + name, then `::` + type when there is a type |
| Regex.SqlcTokenUnique | sqlfluff_sqlc_postgres/templater.py:21 | at most one token reading starts at a position |
| Regex.ScanFrom | sqlfluff_sqlc_postgres/templater.py:174 | the scan from i is well formed and each match is the pattern's match at its start |
| Regex.ScanFromSkipsNothing | sqlfluff_sqlc_postgres/templater.py:174 | no token starts in a gap the scan from i passes over, nor after its last match |
| Regex.ScanSqlc | sqlfluff_sqlc_postgres/templater.py:174 | `finditer` of the sqlc pattern: in order, non-overlapping, each a match at its start |
| Regex.ScanSqlcSkipsNothing | sqlfluff_sqlc_postgres/templater.py:174 | the scan is leftmost: no token starts before, between or after the matches it reports |
| Regex.ScanSqlcTokens | sqlfluff_sqlc_postgres/templater.py:20-22 | every reported match is a whole token of the sqlc pattern |
| Regex.NoAtSignNoMatches | sqlfluff_sqlc_postgres/templater.py:21 | a text without `@` has no sqlc match |
| Slices.TemplatedSlicesAt | sqlfluff_sqlc_postgres/templater.py:203-232 | slice j has segment j's kind and source span; its output span runs from the output length before segment j to the length after it |
| Slices.RawSlicesAt | sqlfluff_sqlc_postgres/templater.py:214-239 | raw slice j holds segment j's source text and kind, with `source_idx` its start |
| Slices.RenderedAt | sqlfluff_sqlc_postgres/templater.py:221-240 | the output region of segment j is segment j's output text |
| Slices.RenderedAppend | sqlfluff_sqlc_postgres/templater.py:221-264 | the output of two runs of segments is the concatenation of their outputs |
| Slices.JoinRawCovers | sqlfluff_sqlc_postgres/templater.py:214-263 | segments covering the source up to n have raw texts that concatenate to the source's first n characters |
| Slices.TemplatedTiles | sqlfluff_sqlc_postgres/templater.py:207-211 | the output spans tile the output in order |
| Slices.SourceSpansOfSlices | sqlfluff_sqlc_postgres/templater.py:206-227 | the source spans of the slices are the segments' source spans |
| Slices.SliceAgreesAt | sqlfluff_sqlc_postgres/templater.py:203-240 | each slice agrees with its raw slice, lies in both texts, and a literal's output is its source text |
| Slices.AssembleConsistent | sqlfluff_sqlc_postgres/templater.py:203-279 | a decomposition of the source gives a consistent templated file |
| Slices.Push | sqlfluff_sqlc_postgres/templater.py:203-240 | defines one append to the three accumulators: the segment's output text, a slice from its source span to the output it adds, and its raw slice |
| Slices.Build | sqlfluff_sqlc_postgres/templater.py:203-264 | defines the accumulators after pushing segments in order from empty ones |
| Slices.Assemble | sqlfluff_sqlc_postgres/templater.py:266-279 | defines the `TemplatedFile` returned: the source, the built output, the file name and the two built slice lists |
| Templating.FindParams | sqlfluff_sqlc_postgres/templater.py:171-176 | the matches of the context's pattern are well formed; for the sqlc style they are whole tokens and the name group exists |
| Templating.ParamName | sqlfluff_sqlc_postgres/templater.py:176-180 | with a name group, the captured name; without one, a decimal number |
| Templating.ResolveParam | sqlfluff_sqlc_postgres/templater.py:176-201 | defines one match's replacement: its name, the group or the positional counter, resolved in the context with its type group |
| Templating.Resolve | sqlfluff_sqlc_postgres/templater.py:183-201 | a bound text value wins; autofill only when the flag is truthy and the name is no context key; otherwise a missing key fails naming the parameter, and a non-text value fails |
| Templating.ResolveFirst | sqlfluff_sqlc_postgres/templater.py:174-201 | on success, one replacement for each of the first k matches |
| Templating.ResolveAll | sqlfluff_sqlc_postgres/templater.py:174-201 | on success, one replacement per match |
| Templating.ResolveFirstStep | sqlfluff_sqlc_postgres/templater.py:174-201 | after k successes, a resolved match k appends its replacement |
| Templating.ResolveNext | sqlfluff_sqlc_postgres/templater.py:175-201 | one pass's value is match k's name (the group, or the counter, which then advances) resolved in the context |
| Templating.ResolveFirstSpec | sqlfluff_sqlc_postgres/templater.py:174-201 | resolution succeeds exactly when every match resolves, and then replacement i is match i's value |
| Templating.FailureSticks | sqlfluff_sqlc_postgres/templater.py:195-201 | once resolution fails, later matches do not change the error |
| Templating.ResolveStopsAt | sqlfluff_sqlc_postgres/templater.py:195-201 | a failure at match k after k successes is the error of the whole call |
| Templating.ResolveFirstFailure | sqlfluff_sqlc_postgres/templater.py:195-201 | the error reported is that of the first match that does not resolve |
| Templating.Gap | sqlfluff_sqlc_postgres/templater.py:203-221 | defines the literal segment before match i: from the previous match's end (0 for the first) to the match's start, copied unchanged |
| Templating.Replaced | sqlfluff_sqlc_postgres/templater.py:223-240 | defines the templated segment of a match: its source span and text, with the replacement as output |
| Templating.Tail | sqlfluff_sqlc_postgres/templater.py:244-264 | defines the final literal segment: from the last match's end to the end of the text, present only when text remains |
| Templating.Segments | sqlfluff_sqlc_postgres/templater.py:203-264 | defines the full decomposition: each match's gap and replacement in order, then the tail |
| Templating.Expected | sqlfluff_sqlc_postgres/templater.py:166-279 | defines the substitution: the first resolution error, or the templated file the segments assemble |
| Templating.Template | sqlfluff_sqlc_postgres/templater.py:143-279 | defines `process`: a context error, or the substitution over the matches of the context's pattern |
| Templating.Partial | sqlfluff_sqlc_postgres/templater.py:203-243 | defines the accumulators after the first k passes of the loop: each pass pushes a gap and then a replaced match |
| Templating.MatchSegments | sqlfluff_sqlc_postgres/templater.py:203-240 | two segments per resolved match |
| Templating.MatchSegmentsAt | sqlfluff_sqlc_postgres/templater.py:203-240 | segment 2i is the literal gap before match i, segment 2i + 1 is match i with its replacement |
| Templating.TailSegments | sqlfluff_sqlc_postgres/templater.py:245-264 | the segments are those of the matches, then the text after the last match exactly when some remains |
| Templating.PartialBuilds | sqlfluff_sqlc_postgres/templater.py:203-243 | the loop's accumulators after k matches are the fold of the first 2k segments |
| Templating.PartialStep | sqlfluff_sqlc_postgres/templater.py:203-243 | one more pass pushes the gap, then the replaced match |
| Templating.GapStep | sqlfluff_sqlc_postgres/templater.py:203-221 | the literal the loop appends is the gap segment pushed onto what was built |
| Templating.ReplaceStep | sqlfluff_sqlc_postgres/templater.py:223-240 | the templated slice the loop appends is the replaced segment pushed onto what was built |
| Templating.TailStep | sqlfluff_sqlc_postgres/templater.py:245-264 | the final literal the loop appends is the tail segment pushed onto what was built |
| Templating.BuildsSegments | sqlfluff_sqlc_postgres/templater.py:244-264 | all segments build the loop's accumulators, plus the tail when there is one |
| Templating.AppendMatch | sqlfluff_sqlc_postgres/templater.py:202-243 | one loop pass appends the gap and the replaced match to the three accumulators, and `last_pos_templated` is the output length |
| Templating.AppendTail | sqlfluff_sqlc_postgres/templater.py:244-264 | the remainder after the last match is appended exactly when `len(in_str) > last_pos_raw` |
| Templating.Substitute | sqlfluff_sqlc_postgres/templater.py:166-279 | the loop returns the first resolution error, or the templated file of the decomposition into gaps, replacements and tail |
| Templating.Process | sqlfluff_sqlc_postgres/templater.py:143-279 | `process` is the context validation, then the scan of its pattern, then the substitution |
| Properties.MatchSegmentsCover | sqlfluff_sqlc_postgres/templater.py:203-243 | the segments of the first k matches tile the source up to the end of match k - 1, and each fits the source |
| Properties.MatchStepCovers | sqlfluff_sqlc_postgres/templater.py:203-243 | a gap and a replaced match extend a cover of the source from the previous match's end to this match's end |
| Properties.SegmentsDecompose | sqlfluff_sqlc_postgres/templater.py:166-264 | all segments decompose the whole source |
| Properties.ExpectedConsistent | sqlfluff_sqlc_postgres/templater.py:166-279 | a successful substitution of inStr is a consistent templated file of inStr named fname |
| Properties.TemplateConsistent | sqlfluff_sqlc_postgres/templater.py:143-279 | whatever `process` returns on success: equal-length slice lists, source spans tiling the input, output spans tiling the output, literals copied verbatim, raw texts rebuilding the input |
| Properties.SliceCount | sqlfluff_sqlc_postgres/templater.py:203-264 | k matches give 2k slices in each list, plus one when text follows the last match, and that one is the literal from the last match to the end |
| Properties.SliceOfSegment | sqlfluff_sqlc_postgres/templater.py:203-264 | slice j of the assembled file is segment j: kind, source span, raw slice and output text |
| Properties.SegmentsAt | sqlfluff_sqlc_postgres/templater.py:203-240 | segments 2i and 2i + 1 are match i's gap and replacement |
| Properties.MatchSlices | sqlfluff_sqlc_postgres/templater.py:203-243 | match i gives slice 2i, the literal from the previous match's end to its start (empty when adjacent), and slice 2i + 1, the templated match span whose output is the parameter's value; the raw slices hold the matching source texts |
| Properties.NoMatchSegments | sqlfluff_sqlc_postgres/templater.py:245-264 | without matches the only segment is the whole input, or there is none when it is empty |
| Properties.NoMatchesIdentity | sqlfluff_sqlc_postgres/templater.py:245-264 | without matches the output is the input, with one literal slice, or none when the input is empty |
| Properties.SqlcWithoutPlaceholders | test/placeholder_test.py:11-16 | with the sqlc style, a text without `@` is templated to itself |
| Properties.PositionalNamesDistinct | sqlfluff_sqlc_postgres/templater.py:172-178 | without a name group, two matches get the same name exactly when they are the same match |
| Properties.PositionalNamesCount | sqlfluff_sqlc_postgres/templater.py:172-178 | without a name group, the first match is `"1"`, the second `"2"`, the tenth `"10"` |
| Instances.OneMatchPartial | sqlfluff_sqlc_postgres/templater.py:203-243 | after one match: the text before it plus its replacement, a literal slice and a templated slice, and their raw slices |
| Instances.ExpectedOne | sqlfluff_sqlc_postgres/templater.py:166-279 | a lone match that resolves gives the templated file built from its segments |
| Instances.SegmentsOne | sqlfluff_sqlc_postgres/templater.py:244-264 | a lone match builds the loop's two slices, then a third with the rest of the text exactly when some remains |
| Instances.OneMatchAtEnd | sqlfluff_sqlc_postgres/templater.py:166-279 | a lone match that ends the text: output is the text before it plus its replacement, with exactly two slices in each list |
| Instances.OneMatchInside | sqlfluff_sqlc_postgres/templater.py:166-279 | a lone match followed by text: output is prefix, replacement, rest, with three slices in each list, the last one shifted by the change in length |
| Instances.AutofilledInstance | test/placeholder_test.py:42-43 | `@p::integer[]` missing from a context with autofill on becomes `ARRAY[1,2,3]`; the slices map `a = ` to itself and the 13-character match to 12 output characters |
| Instances.BoundInstance | test/placeholder_test.py:21-23 | a bound `@e` becomes its value even though autofill is on, giving `x = v;` and three slices |
| Instances.MissingInstance | test/placeholder_test.py:87-94 | without autofill, an unbound `@user_id` fails with the missing-parameter error naming `user_id` |

## Left out

- Logging and the coloured `print` calls (templater.py:103-109, 130-140, 188-194) never affect
  the result, so they are not modelled.
- Compiling a caller's `param_regex` text and `finditer` over it belong to the `regex`
  library.
  - The matches of such a pattern are an input (`Templating.CustomMatches`), required to be in
    order, non-overlapping and inside the text.
  - Whether the pattern has a `param_name` group is an input too.
  - A `param_regex` text the library cannot compile is not modelled as an error.
  - A `param_regex` holding a boolean is modelled as the error `RegexNotText`.
- The `regex.UNICODE` classes `\w` are approximated by ASCII letters, digits and `_`.
  `.lower()` lowers only ASCII letters.
- Reading the templater's section of a `FluffConfig` (templater.py:56-62) is host
  configuration I/O. The loaded settings are a map parameter of `GetContext`; an absent config
  is the empty map.
- Context values are text, booleans or compiled patterns.
  - Other types a configuration might hold (integers, lists) are not modelled.
  - A bound value that is not text (where `len(replacement)` would raise a `TypeError`) is
    the error `ReplacementNotText`.
- Exceptions become `Result` failures. Their message texts are not modelled; the
  missing-parameter error carries the parameter's name, `None` when the name group took no part
  in the match.
- The second element of `process`'s return value, the always-empty violations list, and the
  unused `formatter` argument are not modelled.
- `TemplatedFile`, `TemplatedFileSlice`, `RawFileSlice` and `SQLTemplaterError` come from
  sqlfluff. They are modelled as plain records; checks their constructors may run are not.
  `sqlfluff_sqlc_postgres/__init__.py` is only plugin registration and is not part of this model.
- The autofill literal is always one of the `AUTOFILL_PARAMS` values by construction
  (`Autofill.AutofillValue` maps a `Kind` to its literal), so no lemma states it separately.
- Autofill applies whenever the name is not a key of the whole context, as the code tests
  `param_name not in context.keys()`. Explicit bindings, `test_value`, the option keys and
  `__bind_param_regex` all count as keys, not only the caller's overrides. A bound value that
  is not text fails even with autofill on. The model follows the code here.
