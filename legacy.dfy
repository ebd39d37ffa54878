/**
 * The definitions in which src/parsy/__init__.py, the older copy of the
 * engine, differs from parsy/__init__.py. Everything else (the interpreter,
 * `|`, `&`, `times`, `until`, `desc`, `peek`, `should_fail`, `string`,
 * `string_from`, `parse`, `parse_partial`) is shared.
 */
module Legacy {
  import opened Results
  import opened Engine
  import opened Combinators

  /** `p.at_least(n)` in src/: `(p.times(n) & p.many()).map(lambda t: t[0] + t[1])`. */
  function AtLeastLegacy(p: Parser, n: int): Parser {
    Map(Both(TimesOf(p, n, None), Many(p)), SumPair)
  }

  /** `p.sep_by(sep, min=, max=)` in src/: the first item is `p.times(1)`. */
  function SepByLegacy(p: Parser, sep: Parser, min: int, max: Bound): Parser {
    if max == Finite(0) then Succeed(VList([]))
    else
      var res := Map(Both(TimesOf(p, 1, None), Times(Then(sep, p), min - 1, max.Pred())),
                     SumPair);
      if min == 0 then Alt(res, Succeed(VList([]))) else res
  }

  /** `generate(fn)` in src/: the generator may also return a parser, which
      is then run where the steps stopped. */
  function GenerateLegacy(step: seq<Value> -> Step): Parser {
    Gen(step)
  }

  /** The generator of src/'s `mark`: yield `line_info`, `p`, `line_info`,
      then return the three values. */
  function MarkSteps(p: Parser, sent: seq<Value>): Step {
    if |sent| == 0 then Yield(LineInfo)
    else if |sent| == 1 then Yield(p)
    else if |sent| == 2 then Yield(LineInfo)
    else Return(VTuple(sent[..3]))
  }

  /** `p.mark()` in src/, written with `generate`. */
  function MarkLegacy(p: Parser): Parser {
    GenerateLegacy(sent => MarkSteps(p, sent))
  }

  /** `match_item(item, description)`: the description defaults to `str(item)`. */
  function MatchItem(item: string, description: Option<string>): Parser {
    TestItem(x => item == [x], if description.None? then item else description.value)
  }
}
