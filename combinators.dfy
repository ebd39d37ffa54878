/**
 * The combinators parsy/__init__.py builds from the engine's parsers, its
 * primitive parsers, and the two entry points `parse` and `parse_partial`.
 * Each is written exactly as the source composes it (`map` is a `bind`,
 * `then` and `skip` are an `&` followed by a `map`, ...).
 */
module Combinators {
  import opened Results
  import opened Engine

  /** `noop`, the default `transform`. */
  function Noop(s: string): string { s }

  /** `t[k]` on a tuple value. */
  function Nth(t: Value, k: nat): Value {
    match t
    case VTuple(xs) => if k < |xs| then xs[k] else VNone
    case _ => VNone
  }

  /** The elements `*v` unpacks: the items of a list or tuple, the
      one-character strings of a str. */
  function Items(v: Value): seq<Value> {
    match v
    case VList(xs) => xs
    case VTuple(xs) => xs
    case VStr(x) => Characters(x)
    case _ => []
  }

  /** The characters of `x`, each as a str of length one. */
  function Characters(x: string): (r: seq<Value>)
    ensures |r| == |x|
    ensures forall k :: 0 <= k < |x| ==> r[k] == VStr([x[k]])
  {
    seq(|x|, k requires 0 <= k < |x| => VStr([x[k]]))
  }

  /** `a + b` on two int, str, list or tuple values. */
  function Plus(a: Value, b: Value): Value {
    match (a, b)
    case (VInt(x), VInt(y)) => VInt(x + y)
    case (VStr(x), VStr(y)) => VStr(x + y)
    case (VList(x), VList(y)) => VList(x + y)
    case (VTuple(x), VTuple(y)) => VTuple(x + y)
    case _ => VNone
  }

  /** `"".join(v)`: joining a str gives its own characters back, and a list
      or tuple of str values their concatenation. Anything else raises
      `TypeError` in Python, modelled as `VNone`. */
  function JoinStrings(v: Value): (r: Value)
    ensures r.VStr? <==> v.VStr? || ((v.VList? || v.VTuple?) && forall k :: 0 <= k < |v.items| ==> v.items[k].VStr?)
  {
    match v
    case VStr(_) => v
    case VList(xs) => JoinAll(xs)
    case VTuple(xs) => JoinAll(xs)
    case _ => VNone
  }

  /** The concatenation of `xs`, when every item is a str. */
  function JoinAll(xs: seq<Value>): (r: Value)
    ensures r.VStr? <==> forall k :: 0 <= k < |xs| ==> xs[k].VStr?
    ensures !r.VStr? ==> r == VNone
  {
    if xs == [] then VStr("")
    else match (xs[0], JoinAll(xs[1..]))
      case (VStr(x), VStr(y)) => VStr(x + y)
      case _ => VNone
  }

  // ---- Parser methods ---------------------------------------------------

  /** `p.map(f)`, defined by the source as `p.bind(lambda v: success(f(v)))`. */
  function Map(p: Parser, f: Value -> Value): Parser {
    Bind(p, v => Succeed(f(v)))
  }

  /** `p.concat()` */
  function Concat(p: Parser): Parser {
    Map(p, JoinStrings)
  }

  /** `p.then(q)`, also `p >> q` */
  function Then(p: Parser, q: Parser): Parser {
    Map(Both(p, q), t => Nth(t, 1))
  }

  /** `p.skip(q)`, also `p << q` */
  function Skip(p: Parser, q: Parser): Parser {
    Map(Both(p, q), t => Nth(t, 0))
  }

  /** `p.result(v)` */
  function ResultOf(p: Parser, v: Value): Parser {
    Then(p, Succeed(v))
  }

  /** `p.times(min, max)`: `max` defaults to `min`. */
  function TimesOf(p: Parser, min: int, max: Option<Bound>): Parser {
    Times(p, min, if max.None? then Finite(min) else max.value)
  }

  /** `p.many()` */
  function Many(p: Parser): Parser {
    Times(p, 0, Unbounded)
  }

  /** `p.at_most(n)` */
  function AtMost(p: Parser, n: int): Parser {
    Times(p, 0, Finite(n))
  }

  /** `p.at_least(n)` in parsy/: `times(n, inf)`. */
  function AtLeast(p: Parser, n: int): Parser {
    Times(p, n, Unbounded)
  }

  /** `p.optional(default)` */
  function Optional(p: Parser, default: Value): Parser {
    Map(Times(p, 0, Finite(1)), v => if Items(v) != [] then Items(v)[0] else default)
  }

  /** `lambda t: [t[0], *t[1]]` */
  function FirstAndRest(t: Value): Value {
    VList([Nth(t, 0)] + Items(Nth(t, 1)))
  }

  /** `p.sep_by(sep, min=, max=)` in parsy/. */
  function SepBy(p: Parser, sep: Parser, min: int, max: Bound): Parser {
    if max == Finite(0) then Succeed(VList([]))
    else
      var res := Map(Both(p, Times(Then(sep, p), min - 1, max.Pred())), FirstAndRest);
      if min == 0 then Alt(res, Succeed(VList([]))) else res
  }

  /** `p.tag(name)` */
  function Tag(p: Parser, name: string): Parser {
    Map(p, v => VTuple([VStr(name), v]))
  }

  /** `lambda t: t[0] + t[1]` */
  function SumPair(t: Value): Value {
    Plus(Nth(t, 0), Nth(t, 1))
  }

  /** `p + q` */
  function Add(p: Parser, q: Parser): Parser {
    Map(Both(p, q), SumPair)
  }

  /** `p * n` */
  function MulCount(p: Parser, n: int): Parser {
    TimesOf(p, n, None)
  }

  /** `p * range(start, stop)` */
  function MulRange(p: Parser, start: int, stop: int): Parser {
    Times(p, start, Finite(stop - 1))
  }

  /** `p.join(q)`, another name for `p & q`. */
  function Join(p: Parser, q: Parser): Parser {
    Both(p, q)
  }

  /** `p.as_tuple()` */
  function AsTuple(p: Parser): Parser {
    Map(p, v => VTuple([v]))
  }

  /** `p.append(q)`: extend the tuple `p` produces with the value of `q`. */
  function Append(p: Parser, q: Parser): Parser {
    Bind(p, sv => Bind(q, ov => Succeed(VTuple(Items(sv) + [ov]))))
  }

  /** `p.combine(fn)`: call `fn(*value)`. */
  function Combine(p: Parser, fn: seq<Value> -> Value): Parser {
    Bind(p, v => Succeed(fn(Items(v))))
  }

  /** The parser `seq(*args)` ends up with: `args[0].as_tuple()` appended
      with each later argument in turn. */
  function SeqChain(args: seq<Parser>): Parser
    requires args != []
  {
    if |args| == 1 then AsTuple(args[0]) else Append(SeqChain(args[..|args| - 1]), args[|args| - 1])
  }

  /** `p.mark()` in parsy/: `seq(line_info, p, line_info)`. */
  function Mark(p: Parser): Parser {
    SeqChain([LineInfo, p, LineInfo])
  }

  // ---- generate ---------------------------------------------------------

  /** A parsy/ generator step: it never hands back a parser to run. */
  type PlainStep = st: Step | !st.ReturnParser? witness Return(VNone)

  /** `generate(fn)` in parsy/. */
  function Generate(step: seq<Value> -> PlainStep): Parser {
    Gen(step)
  }

  // ---- primitives -------------------------------------------------------

  /** `string(s)` with the default transform. */
  function String(s: string): Parser {
    Str(s, Noop)
  }

  /** `match_char(c, description)`: `c` is a str, compared with the one
      character at the current offset. */
  function MatchChar(c: string, description: Option<string>): Parser {
    TestItem(x => c == [x], if description.None? then c else description.value)
  }

  /** `char_from(chars)` */
  function CharFrom(chars: string): Parser {
    TestItem(c => c in chars, "[" + chars + "]")
  }

  /** `decimal_digit` */
  const DecimalDigit: Parser := CharFrom("0123456789")

  /** `any_char` */
  const AnyChar: Parser := TestItem(c => true, "any character")

  const EmptyReduce := "reduce() of empty iterable with no initial value"

  /** `reduce(operator.or_, ps)`: left-nested ordered choice. */
  function AltAll(ps: seq<Parser>): Parser
    requires ps != []
  {
    if |ps| == 1 then ps[0] else Alt(AltAll(ps[..|ps| - 1]), ps[|ps| - 1])
  }

  /** Python's `insert` step of `sorted(..., key=len, reverse=True)`, which
      is stable: `x` goes after every entry at least as long. */
  function InsertByLength<T>(x: (string, T), sorted: seq<(string, T)>): (r: seq<(string, T)>)
    ensures |r| == |sorted| + 1
    ensures multiset(r) == multiset(sorted) + multiset{x}
  {
    if sorted == [] then [x]
    else if |sorted[0].0| >= |x.0| then
      assert sorted == [sorted[0]] + sorted[1..];
      [sorted[0]] + InsertByLength(x, sorted[1..])
    else [x] + sorted
  }

  /** `sorted(xs, key=len, reverse=True)` on the keys of `xs`. */
  function LongestFirst<T>(xs: seq<(string, T)>): (r: seq<(string, T)>)
    ensures |r| == |xs|
    ensures multiset(r) == multiset(xs)
  {
    if xs == [] then []
    else
      var r := InsertByLength(xs[|xs| - 1], LongestFirst(xs[..|xs| - 1]));
      assert xs == xs[..|xs| - 1] + [xs[|xs| - 1]];
      r
  }

  /** Pairs each literal with itself, to sort the literals of `string_from`. */
  function Keyed(strings: seq<string>): (r: seq<(string, Value)>)
    ensures |r| == |strings|
    ensures forall k :: 0 <= k < |r| ==> r[k] == (strings[k], VStr(strings[k]))
  {
    seq(|strings|, k requires 0 <= k < |strings| => (strings[k], VStr(strings[k])))
  }

  /** `string(c, transform)` for each candidate, in order. */
  function Literals(cands: seq<(string, Value)>, transform: string -> string): (r: seq<Parser>)
    ensures |r| == |cands|
    ensures forall k :: 0 <= k < |r| ==> r[k] == Str(cands[k].0, transform)
  {
    seq(|cands|, k requires 0 <= k < |cands| => Str(cands[k].0, transform))
  }

  /** `string(c, transform).result(member)` for each candidate, in order. */
  function Members(cands: seq<(string, Value)>, transform: string -> string): (r: seq<Parser>)
    ensures |r| == |cands|
    ensures forall k :: 0 <= k < |r| ==> r[k] == ResultOf(Str(cands[k].0, transform), cands[k].1)
  {
    seq(|cands|, k requires 0 <= k < |cands| => ResultOf(Str(cands[k].0, transform), cands[k].1))
  }

  /** `string_from(*strings, transform=)` */
  function StringFrom(strings: seq<string>, transform: string -> string): Outcome<Parser> {
    if strings == [] then Raised(TypeError(EmptyReduce))
    else Ok(AltAll(Literals(LongestFirst(Keyed(strings)), transform)))
  }

  /** `from_enum(enum_cls, transform)`, given the members as
      (`str(member.value)`, member) pairs in definition order. */
  function FromEnum(members: seq<(string, Value)>, transform: string -> string): Outcome<Parser> {
    if members == [] then Raised(TypeError(EmptyReduce))
    else Ok(AltAll(Members(LongestFirst(members), transform)))
  }

  // ---- entry points -----------------------------------------------------

  const BecomeFirst := "You must use 'become' before attempting to call `parse` or `parse_partial`"

  /** A forward declaration that has not become anything yet. */
  predicate Unsettled(rules: Rules, p: Parser) {
    p.Ref? && p.id !in rules
  }

  /** `p.parse_partial(stream)` */
  function ParsePartial(rules: Rules, p: Parser, s: string, fuel: nat): Outcome<(Value, string)> {
    if Unsettled(rules, p) then Raised(ValueError(BecomeFirst))
    else
      var r :- Run(rules, p, s, 0, fuel);
      if r.status then Ok((r.value, Drop(s, r.index)))
      else Raised(ParseError(r.expected, s, r.furthest))
  }

  /** `p.parse(stream)`: `(p << eof).parse_partial(stream)`, keeping the value. */
  function Parse(rules: Rules, p: Parser, s: string, fuel: nat): Outcome<Value> {
    if Unsettled(rules, p) then Raised(ValueError(BecomeFirst))
    else
      var pair :- ParsePartial(rules, Skip(p, Eof), s, fuel);
      Ok(pair.0)
  }
}
