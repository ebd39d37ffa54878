# parsy's parser-combinator engine in Dafny

This project models the engine of parsy, a Python parser-combinator library,
and proves how its parsers behave. It covers both copies of the engine:
`parsy/__init__.py` and the older `src/parsy/__init__.py`.

- **Results** (`results.dfy`): the `Result` record and its `success`/`failure`
  constructors. `aggregate` is the merge rule that keeps the furthest failure
  and unions the expectations on a tie. Also the values parsers produce and the
  exceptions the engine raises.
- **Position** (`position.dfy`): `line_info_at`, proved equal to a cursor that
  walks the text one character at a time.
- **Engine** (`engine.dfy`): every parser of the library is one constructor of
  the `Parser` datatype. `Run` is the interpreter that calls a parser on a
  stream at an offset. It includes the loops of `times`, `until` and
  `generate`.
  - Python's loops need not stop: an item that succeeds without consuming
    input repeats forever. So `Run` carries fuel and reports `OutOfFuel` when
    it runs out.
  - `Semantics.Yields(rules, p, s, i, r)` means that some fuel lets `p` finish
    with `r`. Results do not depend on the fuel (`Stability`). So every law is
    stated about what a parser yields, independent of fuel.
- **Combinators** (`combinators.dfy`): each combinator is composed exactly as
  `parsy/__init__.py` composes it. For example, `map` is a `bind`, and `then`
  is `&` followed by `map`. This module also has the primitives and the entry
  points `parse`/`parse_partial`. `Legacy` (`legacy.dfy`) holds the definitions
  in which `src/parsy/__init__.py` differs.
- **Drivers** (`drivers.dfy`): the imperative loops `times_parser`,
  `until_parser`, `generated` and `seq`, written as `while`/`for` loops. Each
  is proved to compute the interpreter's definition.
- **Declarations** (`declarations.dfy`): `forward_declaration`. A `Grammar`
  object holds what each declaration has become. A declaration is the parser
  `Ref(id)`, which the interpreter looks up each time it runs, so every
  existing holder of the placeholder sees what it became.
- **Laws** (`*_laws.dfy`): the properties proved about the combinators,
  repetition, choice, `generate` and the entry points.

## Model

| member | source | states |
|---|---|---|
| Results.Result.Aggregate | parsy/__init__.py:114-125 | status, index and value come from `self`; with no other result it is `self`; furthest is the larger of the two; expected comes from whichever side reached furthest, the union on a tie |
| Results.AggregateIdempotent | parsy/__init__.py:114-125 | merging a result with itself returns it unchanged |
| Results.AggregateSymmetric | parsy/__init__.py:114-125 | the furthest offset and the expected set of a merge do not depend on the order of the two results |
| Results.AggregateAssociative | parsy/__init__.py:114-125 | nor on how three merges are grouped |
| Results.SuccessKeepsContext | parsy/__init__.py:99-101 | a success records furthest -1 and nothing expected, so merging it into a context keeps the context's diagnostics and takes the success's index and value |
| Results.FailureExtendsContext | parsy/__init__.py:110-112 | a failure has status false and index -1; merged into a context, it replaces the diagnostics if it lies further, adds its expectation on a tie, and is absorbed otherwise |
| Position.CountNewlines | parsy/__init__.py:56 | the newline count of a text is at most its length |
| Position.LastNewline | parsy/__init__.py:57 | `rfind` gives -1 or the offset of a newline, with no newline after it |
| Position.LineInfoAt | parsy/__init__.py:53-59 | it raises `ValueError` exactly when the index is past the end |
| Position.WalkCounts | parsy/__init__.py:56-58 | the cursor's line is the newline count and its column the distance from the last newline |
| Position.LineInfoIsWalk | parsy/__init__.py:53-59 | at every offset inside the text, `line_info_at` equals the cursor position reached by walking the prefix |
| Position.LineInfoExample | parsy/__init__.py:53-59 | on "abc\ndef": (0,0) at 0, (0,2) at 2, (0,3) at 3, (1,0) at 4, (1,3) at 7, and an error at 8 |
| Engine.Slice | parsy/__init__.py:453 | the clamped slice is the ordinary slice when the bounds are inside the text, and never longer than the text |
| Engine.Run | parsy/__init__.py:142-143 | a call records a failure offset of at least -1, and a success never ends before the offset it started at |
| Engine.TimesLoop | parsy/__init__.py:208-219 | the same for the `times` loop, from the offset it is entered at |
| Engine.UntilLoop | parsy/__init__.py:251-278 | the same for the `until` loop |
| Engine.GenLoop | parsy/__init__.py:421-430 | the same for the `generate` driver loop |
| Semantics.YieldsUnique | parsy/__init__.py:142-143 | calling a parser is deterministic: it yields at most one result |
| Semantics.YieldsSound | parsy/__init__.py:128-143 | every result has furthest >= -1, and a success ends at or after its start |
| Drivers.RunTimes | parsy/__init__.py:203-219 | the `while times < the_max` loop returns exactly what the interpreter's `times` loop returns |
| Drivers.RunUntil | parsy/__init__.py:248-278 | the `while True` loop of `until` returns exactly what the interpreter's `until` loop returns |
| Drivers.RunGenerate | parsy/__init__.py:414-430 | the driver of `generate` returns exactly what the interpreter's generator loop returns |
| Drivers.SeqOf | parsy/__init__.py:598-605 | `seq()` raises `ValueError`; otherwise the loop builds `args[0].as_tuple()` appended with each later argument in turn |
| Combinators.JoinStrings | parsy/__init__.py:179-180 | the `"".join` of `concat` gives a str exactly when its argument is a str or a list or tuple of strs, and nothing otherwise |
| Combinators.JoinAll | parsy/__init__.py:179-180 | joining a list gives a str exactly when every item is a str, and nothing otherwise |
| Runs.SuccessiveSteps | parsy/__init__.py:208-213 | a run of successes is, item by item, a success of the parser that starts where the one before it ended |
| Runs.SuccessiveAppend | parsy/__init__.py:208-213 | two runs of successes, the second starting where the first ends, make one run |
| Runs.TimesLoopRun | parsy/__init__.py:208-219 | every result of the `times` loop is the outcome of a run of successes that the loop stops after, because `max` is reached or the next attempt fails |
| Runs.TimesLoopFrom | parsy/__init__.py:208-219 | conversely, every such run is what the loop returns, given enough fuel |
| Runs.UntilProbesSteps | parsy/__init__.py:251-278 | in a run of `until`, `other` is tried at the start of each round and the loop goes on past it; where the items end `other` is tried last, and the item is tried there and fails exactly when the loop goes on past that probe too |
| Runs.UntilLoopRun | parsy/__init__.py:251-278 | every result of the `until` loop is the outcome of a run: the items, the probes of `other` before each, and the last probe |
| Runs.UntilLoopFrom | parsy/__init__.py:251-278 | conversely, every such run is what the loop returns, given enough fuel |
| CombinatorLaws.BindFails | parsy/__init__.py:163-174 | a failure of `p` is the result of `p.bind(f)`, unchanged |
| CombinatorLaws.BindContinues | parsy/__init__.py:163-174 | after a success, `f(value)` runs where `p` stopped and its result is merged with p's |
| CombinatorLaws.BindInversion | parsy/__init__.py:163-174 | every result of `bind` arises in one of those two ways |
| CombinatorLaws.MapLaw | parsy/__init__.py:176-177 | `map(g)` replaces a success's value by `g(value)` and changes nothing else; a failure passes through |
| CombinatorLaws.MapInversion | parsy/__init__.py:176-177 | every result of `map` comes from a result of `p` that way |
| CombinatorLaws.AltFirst | parsy/__init__.py:334-346 | ordered choice (`__or__`) returns p's success without running `q` |
| CombinatorLaws.AltSecond | parsy/__init__.py:334-346 | when `p` fails, `q` runs at the same offset and p's failure is merged into its result |
| CombinatorLaws.AltInversion | parsy/__init__.py:334-346 | every result of the choice arises in one of those two ways |
| CombinatorLaws.BothFirstFails | parsy/__init__.py:348-361 | `p & q` returns p's failure unchanged |
| CombinatorLaws.BothSecond | parsy/__init__.py:348-361 | after p's success, `q` runs at p's end; its merged failure is returned, or the pair of values at q's end |
| CombinatorLaws.BothInversion | parsy/__init__.py:348-361 | every result of `&` arises in one of those two ways |
| CombinatorLaws.ThenLaw | parsy/__init__.py:182-183 | `p >> q` yields q's result, where `p` stopped, merged with p's diagnostics; p's failure otherwise |
| CombinatorLaws.ThenInversion | parsy/__init__.py:182-183 | every result of `p >> q` arises from a result of `p` and, after its success, one of `q` at p's end |
| CombinatorLaws.SkipLaw | parsy/__init__.py:185-186 | `p << q` runs both and keeps p's value, ending where `q` ends |
| CombinatorLaws.SkipInversion | parsy/__init__.py:185-186 | every result of `p << q` is p's failure, or q's result at p's end merged with p's diagnostics, holding p's value when it succeeds |
| CombinatorLaws.ResultOfLaw | parsy/__init__.py:188-189 | `p.result(v)` succeeds exactly where `p` does, with value `v` |
| CombinatorLaws.ResultOfInversion | parsy/__init__.py:188-189 | every result of `p.result(v)` is a result of `p`, with `v` as the value of a success |
| CombinatorLaws.TagLaw | parsy/__init__.py:308-309 | `p.tag(name)` yields the pair (name, value) where `p` succeeds |
| CombinatorLaws.TagInversion | parsy/__init__.py:308-309 | every result of `p.tag(name)` is a result of `p`, with a success's value paired with `name` |
| CombinatorLaws.AddLaw | parsy/__init__.py:321-327 | `p + q` runs `p`, then `q` where it stopped, and succeeds with the sum of the two values at q's end; a failure of `p` is returned unchanged, one of `q` merged with p's diagnostics |
| CombinatorLaws.JoinLaw | parsy/__init__.py:363-365 | `p.join(q)` yields what `p & q` yields: the pair of values at q's end, or the first failure |
| CombinatorLaws.CombineLaw | parsy/__init__.py:377-382 | `p.combine(fn)` succeeds where `p` does with `fn` applied to the unpacked items of p's value; a failure passes through |
| CombinatorLaws.DescLaw | src/parsy/__init__.py:259-268 | `desc(d)` leaves a success alone and replaces any failure by one at the start offset expecting exactly {d} |
| CombinatorLaws.DescInversion | src/parsy/__init__.py:259-268 | every result of `desc(d)` is a success of `p`, or a failure at the start offset expecting exactly {d} where `p` failed |
| CombinatorLaws.PeekLaw | src/parsy/__init__.py:471-480 | `peek(p)` succeeds at the start offset with p's value; a failure passes through |
| CombinatorLaws.PeekInversion | src/parsy/__init__.py:471-480 | every result of `peek(p)` is p's value at the start offset, or p's failure |
| CombinatorLaws.ShouldFailLaw | src/parsy/__init__.py:283-291 | `should_fail(d)` fails at the start expecting {d} when `p` succeeds, and otherwise succeeds at the start with p's failure as its value |
| CombinatorLaws.ShouldFailInversion | src/parsy/__init__.py:283-291 | every result of `should_fail(d)` is a failure at the start expecting {d} where `p` succeeded, or a success at the start holding p's failure |
| PrimitiveLaws.SliceIsLiteral | parsy/__init__.py:452-458 | the slice of the literal's length equals the literal exactly when the literal occurs there |
| PrimitiveLaws.StringLaw | parsy/__init__.py:447-458 | `string(lit)` succeeds exactly where `lit` occurs, moves past it and yields it; otherwise it fails at the offset expecting {lit} |
| PrimitiveLaws.StringTransformYieldsLiteral | src/parsy/__init__.py:400-411 | with any transform, a success yields the literal itself and advances by its length, and a failure is at the offset expecting the literal |
| PrimitiveLaws.MatchesAtNoop | parsy/__init__.py:447-458 | with the identity transform, the transformed slice equals the transformed literal exactly when the literal occurs at the offset |
| PrimitiveLaws.StringTransformLaw | parsy/__init__.py:447-458 | `string(lit, transform)` succeeds past the literal's length, yielding `lit`, exactly when the transformed slice equals the transformed literal, and otherwise fails at the offset expecting {lit} |
| PrimitiveLaws.LowerExample | parsy/__init__.py:447-458 | `string("Mr", transform=lower)` reads "MR" and yields "Mr" |
| PrimitiveLaws.TestItemLaw | parsy/__init__.py:616-624 | `test_char(f, d)` consumes exactly one item on which `f` holds and yields it; otherwise it fails at the offset expecting {d} |
| PrimitiveLaws.MatchCharLaw | parsy/__init__.py:627-630 | `match_char(c)` accepts one character equal to the whole string `c`, yielding `c`, so a `c` of any other length never matches; by default it expects `c` |
| PrimitiveLaws.MatchItemLaw | src/parsy/__init__.py:453-456 | `match_item(item)` accepts one item equal to `item`, yielding `item`; by default it expects `str(item)` |
| PrimitiveLaws.CharFromLaw | parsy/__init__.py:639-640 | `char_from(chars)` accepts one character of `chars`, expecting "[chars]" |
| PrimitiveLaws.EofLaw | parsy/__init__.py:666-671 | `eof` succeeds without consuming exactly at or past the end, and otherwise fails expecting "EOF" |
| PrimitiveLaws.ConstantLaws | parsy/__init__.py:435-444 | `success(v)`, `fail(e)` and `index` consume nothing, yielding `v`, failing expecting {e}, and yielding the offset |
| PrimitiveLaws.LineInfoLaw | parsy/__init__.py:436 | `line_info` yields the walked (line, column) of the offset without consuming, and raises past the end |
| ChoiceLaws.AltAllFails | parsy/__init__.py:633-635 | when every alternative of a `reduce(or_)` chain fails at the offset, the chain fails there expecting all their expectations |
| ChoiceLaws.AltAllFirst | parsy/__init__.py:633-635 | the chain yields the success of the first alternative that succeeds, merged with the failures before it |
| ChoiceLaws.LongestFirstOrdered | parsy/__init__.py:633-635 | `sorted(key=len, reverse=True)` orders the candidates longest first |
| ChoiceLaws.LongestFirstStable | parsy/__init__.py:633-635 | the sort is stable: candidates of each length keep their argument order |
| ChoiceLaws.LongestFirstSame | parsy/__init__.py:633-635 | the sort hands back exactly the candidates it was given |
| ChoiceLaws.ChoiceFails | parsy/__init__.py:633-635 | for any transform, a chain of candidates fails expecting every key when no key matches |
| ChoiceLaws.ChoiceLongest | parsy/__init__.py:633-635 | with the candidates longest first, the chain yields the first key that matches, under any transform, and no matching key is longer |
| ChoiceLaws.FirstMatchOfLength | parsy/__init__.py:633-635 | the first matching candidate is also the first match among the candidates of its length |
| ChoiceLaws.FirstMatchIndex | parsy/__init__.py:633-635 | the first match among the candidates of one length matches and comes after no earlier matching candidate of that length |
| ChoiceLaws.SortedChoice | parsy/__init__.py:633-635 | the chain over the candidates sorted longest first yields a longest match; among the candidates as given, every match before it is strictly shorter, so ties go to the earliest |
| ChoiceLaws.KeyedKeys | parsy/__init__.py:633-635 | the sorted candidates of `string_from` carry exactly the strings given |
| ChoiceLaws.MembersBehave | parsy/__init__.py:677-681 | for any transform, `string(value, transform).result(member)` succeeds with the member where the value matches and fails expecting the value elsewhere |
| ChoiceLaws.StringFromFails | parsy/__init__.py:633-635 | `string_from()` with no strings raises `TypeError`; for any transform, when none matches it fails at the offset expecting every string |
| ChoiceLaws.StringFromLongest | parsy/__init__.py:633-635 | for any transform, when some string matches, `string_from` yields a longest matching string and moves past it; every matching string before it in the arguments is shorter, so the first of equal length wins |
| ChoiceLaws.FromEnumFails | parsy/__init__.py:677-681 | an enumeration without members raises `TypeError`; for any transform, when no value matches it fails expecting every value |
| ChoiceLaws.FromEnumLongest | parsy/__init__.py:677-681 | for any transform, when some value matches, `from_enum` yields the member with a longest matching value and moves past it; every matching member before it in definition order is shorter |
| RepetitionLaws.TimesLaw | parsy/__init__.py:194-221 | every result of `times(min, max)` comes from a run of successes from the start offset that stops when `max` is reached or the next attempt fails; it succeeds exactly when `max` was reached or at least `min` items were collected, with the items' values in order, ending where the last one ended; otherwise it is the stopping failure merged with the run's diagnostics |
| RepetitionLaws.TimesRuns | parsy/__init__.py:194-221 | every such run is a result of `times(min, max)` |
| RepetitionLaws.TimesYieldsRun | parsy/__init__.py:194-221 | `times(min, max)` yields `r` if and only if `r` is the outcome of such a run |
| RepetitionLaws.TimesExactly | parsy/__init__.py:194-199 | `times(n)` succeeds with exactly `n` items (none for negative `n`) in order; it fails only on an item that failed after fewer than `n` successes |
| RepetitionLaws.MulCountLaw | parsy/__init__.py:329-332 | `p * n` is `times(n)`: exactly `n` items in order, or the failure of the first attempt that did not match, merged with the run |
| RepetitionLaws.MulRangeLaw | parsy/__init__.py:329-331 | `p * range(start, stop)` collects fewer than `stop` items, stopping early only where an attempt fails; it succeeds exactly when it reached `stop - 1` or `start` items, with their values in order, and otherwise returns the stopping failure merged with the run |
| RepetitionLaws.ManyNeverFails | parsy/__init__.py:191-192 | `many()` always succeeds with the values of a run of successes, ending where an attempt failed, whose diagnostics it carries |
| RepetitionLaws.AtMostLaw | parsy/__init__.py:223-224 | `at_most(n)` always succeeds with the values of a run of at most `n` successes, and with fewer than `n` only where the next attempt fails |
| RepetitionLaws.AtLeastLaw | parsy/__init__.py:226-227 | `at_least(n)` is greedy: it takes successes until one attempt fails, and succeeds with all their values exactly when there are at least `n`; otherwise it returns that failure merged with the run |
| RepetitionLaws.AtLeastLegacyLaw | src/parsy/__init__.py:200-201 | src's `times(n) + many()` succeeds only with the values of a run of at least `n` successes, ending where the next attempt fails, and cannot fail for `n <= 0` |
| RepetitionLaws.AtLeastLegacySame | src/parsy/__init__.py:200-201 | src's `at_least(n)` yields a result if and only if parsy/'s `times(n, inf)` yields it: the same values, end and diagnostics |
| RepetitionLaws.ManyCharsLoop | parsy/__init__.py:208-219 | the `times` loop of `test_char(f).many()` collects every character of the run satisfying `f`, and records the failure that stopped it |
| RepetitionLaws.ManyCharsLaw | parsy/__init__.py:191-192 | `test_char(f, d).many()` consumes the longest run satisfying `f`, yields its characters one by one, and expects {d} where the run ends |
| RepetitionLaws.JoinChars | parsy/__init__.py:179-180 | joining the one-character strings of a slice gives the slice |
| RepetitionLaws.ManyCharsConcat | parsy/__init__.py:179-180 | `test_char(f, d).many().concat()` yields the longest run satisfying `f` as one string |
| RepetitionLaws.AtMostOnce | parsy/__init__.py:203-221 | `times(0, 1)` collects p's value when `p` matches and nothing when it fails, succeeding either way with p's diagnostics |
| RepetitionLaws.OptionalLaw | parsy/__init__.py:237-238 | `optional(default)` never fails: it yields p's value where `p` succeeds, and `default` at the start offset otherwise, keeping p's diagnostics |
| RepetitionLaws.SeparatedRun | parsy/__init__.py:289 | each success in a run of `sep >> p` is a success of `sep` followed by one of `p` where `sep` stopped, with p's value and end |
| RepetitionLaws.SepByBody | parsy/__init__.py:289 | `p & (sep >> p).times(min - 1, max - 1)` returns p's failure unchanged; after p's success it succeeds exactly when the tail run hit `max - 1` or reached `min - 1` items, yielding p's value followed by the tail's values and ending where the tail ends; otherwise it is the tail's failure merged with p's result |
| RepetitionLaws.TimesOnce | src/parsy/__init__.py:254 | `times(1)` keeps p's status, end and diagnostics, and wraps a success's value in a one-item list |
| RepetitionLaws.SepByLaw | parsy/__init__.py:282-292 | with `max` 0, `sep_by` is the empty list at the start; otherwise a non-empty success is p's first value followed by the items of separator-then-item successes, between `min` and `max` items; an empty success (only with `min` 0) keeps the first item's failure diagnostics at the start; a failure is the first item's failure or too few items; it never fails when `min` is 0 |
| RepetitionLaws.SepByEmpty | parsy/__init__.py:282-292 | with `min` 0, a failing first item gives the empty list at the start offset, keeping that failure's diagnostics |
| RepetitionLaws.SepByLegacyLaw | src/parsy/__init__.py:250-257 | src's `sep_by` (first item via `times(1)`, lists added) yields a result if and only if parsy/'s `sep_by` yields it |
| RepetitionLaws.UntilLaw | parsy/__init__.py:240-280 | every result of `until` comes from a run in which `other` is tried before each item and the loop goes on past it; it succeeds exactly when the last probe of `other` succeeded with at least `min` items, yielding the items in order (then other's value, ending where other ended, when consumed) with no diagnostics; otherwise it fails where the items end with "at most", "did not find other parser" or "at least ... got ..." as the count dictates |
| RepetitionLaws.UntilRuns | parsy/__init__.py:240-280 | every such run is a result of `until` |
| RepetitionLaws.UntilYieldsRun | parsy/__init__.py:240-280 | `until` yields `r` if and only if `r` is the outcome of such a run |
| RepetitionLaws.UntilTooFewExample | parsy/__init__.py:240-280 | `string("s").until(string("x"), min=3)` on "ssx" fails at 2 with "at least 3 items; got 2 item(s)" |
| GenerateLaws.GenStarts | parsy/__init__.py:414-420 | each call of a generated parser starts the steps afresh with nothing sent and no context |
| GenerateLaws.GenReturn | parsy/__init__.py:428-430 | when the steps return a value, the parser succeeds where it stands with that value, merged with the context |
| GenerateLaws.GenReturnParser | src/parsy/__init__.py:378-383 | in src, a returned parser runs where the steps stopped and its result is merged with the context |
| GenerateLaws.GenYieldFails | parsy/__init__.py:422-425 | the first yielded parser that fails ends the run with its merged failure |
| GenerateLaws.GenYieldContinues | parsy/__init__.py:422-427 | a yielded parser that succeeds moves the driver to where it stopped and sends its value back |
| GenerateLaws.GenInversion | parsy/__init__.py:414-430 | every result of the driver arises in one of those ways |
| GenerateLaws.BrittleExample | parsy/__init__.py:411-432 | a generator whose first parser fails is never resumed, so the choice of it and `string("z")` on "z" yields "z" |
| GenerateLaws.AppendLaw | parsy/__init__.py:370-375 | after a success of `p`, `append(q)` extends p's tuple with q's value at q's end, merging the diagnostics; a failure of `q` is returned merged with p's |
| GenerateLaws.MarkLaw | parsy/__init__.py:305-306 | `mark()` yields (start position, value, end position) where `p` succeeds, and p's failure otherwise |
| GenerateLaws.MarkLegacyLaw | src/parsy/__init__.py:270-278 | src's `mark()`, written with `generate`, yields exactly the same |
| EntryLaws.SkipEof | parsy/__init__.py:145-148 | `p << eof` passes on a failure of `p`, keeps p's value when the whole stream was read, and otherwise fails on `eof` with p's diagnostics merged in |
| EntryLaws.ParseIffPartial | parsy/__init__.py:145-161 | `parse(s)` returns `v` exactly when `parse_partial(s)` returns `v` with nothing left over |
| EntryLaws.ParsePartialLaw | parsy/__init__.py:150-161 | `parse_partial` returns the value and `stream[index:]` on success, and raises `ParseError(expected, stream, furthest)` on failure |
| EntryLaws.ParseLaw | parsy/__init__.py:145-148 | `parse` returns the value of a success that read the whole stream; otherwise it raises with eof's failure merged in, or with p's failure |
| EntryLaws.UnsettledRefuses | parsy/__init__.py:701-705 | before `become`, `parse` and `parse_partial` raise `ValueError` |
| Declarations.Grammar.Declare | parsy/__init__.py:698-699 | `forward_declaration()` creates a fresh placeholder that has not become anything |
| Declarations.Grammar.Become | parsy/__init__.py:707-711 | a second `become` raises `AttributeError`; the first settles the declaration, which then yields exactly what the target yields |
| Declarations.RefLaw | parsy/__init__.py:707-711 | a settled declaration yields exactly what the parser it became yields |
| Declarations.RefUnsettled | parsy/__init__.py:698-699 | calling a placeholder that has not become anything raises `AttributeError` |
| Declarations.SettlingKeepsResults | src/parsy/__init__.py:529-531 | settling more declarations never changes what a parser already yields |

## Left out

- `regex` is an oracle: the `Regex` parser takes the match as a function from (stream, offset) to an optional (length, group). The `re` engine, flags and group selection are not modelled.
- The Unicode predicates of `letter` and `digit` are not modelled. The callables given to `test_char`, `any_char` and `string(transform=)` are uninterpreted functions.
- The text of `ParseError.__str__` and `ParseError.line_info` is not modelled. `ParseError` is kept as its expected set, stream and index.
- `dataparser`, `parse_field` and the dataclass protocol are not modelled, because they work by reflection over field metadata. Typing-only machinery (overloads, type variables) is not modelled either.
- Loops that do not stop: `times`, `many`, `until` and `generate` over an item that succeeds without consuming input run forever in the source. The model reports `OutOfFuel` once its fuel is spent, and every law is stated for results that some fuel reaches.
- Python's recursion limit is not modelled. A left-recursive grammar through a declaration (`d.become(d | x)`) or very deep nesting raises `RecursionError` in the source. The model has no such limit: the left-recursive grammar spends all its fuel and yields nothing, and a deep but finite nesting yields its result given enough fuel.
- `float("inf")` as a bound is the `Unbounded` case. Other float bounds are not modelled.
- Generator state: a generator is modelled as a function from the values sent so far to its next step. A generator whose behaviour depends on anything else (outside state, exceptions thrown into it) is not modelled.
- In parsy/, `generate` can return any object, including a `Parser`, which it treats as a plain value. The model's values cannot hold parsers, so that case is missing. src's run-the-returned-parser behaviour is modelled.
- Combinators.Plus: `t[0] + t[1]` adds two ints and concatenates two strs, lists or tuples. Other operands (mismatched types, floats, objects with their own `__add__`) raise `TypeError` or call user code in Python; the model yields `VNone` there.
- Combinators.Items: `*value` unpacks the items of a list or tuple and the characters of a str. On a value that is not iterable Python raises `TypeError`; the model unpacks it to no items, so `append` and `combine` succeed there.
- Combinators.JoinStrings: `"".join` raises `TypeError` on a list or tuple holding a non-str item, or on an argument that is no iterable of strs; the model yields `VNone` there. A str argument joins its own characters, which gives the str back. Other iterables (dicts, generators) are not values of the model.
- Bytes streams (the bytes branches of `test_item` and `char_from`) are not modelled. Streams are strings.
- `from_enum` is given the members as (`str(value)`, member) pairs in definition order. Python's enumeration machinery is not modelled.
- `become` in Python copies the target's state into the placeholder object. The model records the target in the `Grammar`'s map instead.
- Declarations.Grammar.Become returns the declaration as in parsy/, where src's `become` returns `None`. A target that is itself an unsettled placeholder leaves the declaration unsettled.
- Declarations.RefUnsettled: the error is the `AttributeError` raised by calling a placeholder that has no wrapped function. Its message text is modelled as a constant.
