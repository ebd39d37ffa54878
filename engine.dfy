/**
 * The parser engine: every parser of the library as one datatype, and the
 * interpreter that runs a parser on a stream at an offset (`Parser.__call__`
 * together with the inner functions each combinator wraps).
 *
 * The interpreter carries `fuel`: each parser call and each loop round uses
 * one unit. Python's `times`, `until` and `generate` loops need not stop
 * (an item that succeeds without consuming input repeats forever); the model
 * reports `OutOfFuel` instead.
 */
module Engine {
  import opened Results
  import Position

  /** Upper bound of a repetition; `float("inf")` is `Unbounded`. */
  datatype Bound = Finite(n: int) | Unbounded {
    /** `count < max`, the loop guard of `times` (and the negation of
        `times >= max` in `until`). */
    predicate Allows(count: int) {
      Unbounded? || count < n
    }

    /** `max - 1` */
    function Pred(): Bound {
      match this
      case Finite(k) => Finite(k - 1)
      case Unbounded => Unbounded
    }

    /** How `f"{max}"` renders the bound. */
    function Text(): string {
      match this
      case Finite(k) => IntToString(k)
      case Unbounded => "inf"
    }
  }

  /** What the regular-expression engine reports for an anchored match:
      how many characters it covers and the selected group(s). */
  datatype RegexMatch = RegexMatch(length: nat, group: Value)

  datatype Parser =
    | Succeed(value: Value)                                      // success(val)
    | Fail(expectation: string)                                  // fail(expected)
    | Str(literal: string, transform: string -> string)          // string(s, transform)
    | Regex(pattern: string, matcher: (string, nat) -> Option<RegexMatch>)  // regex(...)
    | TestItem(test: char -> bool, description: string)          // test_char / test_item
    | Eof                                                        // eof
    | Index                                                      // index
    | LineInfo                                                   // line_info
    | Bind(first: Parser, next: Value -> Parser)                 // p.bind(f)
    | Alt(left: Parser, right: Parser)                           // p | q
    | Both(left: Parser, right: Parser)                          // p & q
    | Times(item: Parser, min: int, max: Bound)                  // p.times(min, max)
    | Until(item: Parser, other: Parser, min: int, max: Bound, consumeOther: bool)  // p.until(...)
    | Desc(inner: Parser, description: string)                   // p.desc(d)
    | Peek(inner: Parser)                                        // peek(p)
    | ShouldFail(inner: Parser, description: string)             // p.should_fail(d)
    | Gen(step: seq<Value> -> Step)                              // generate(fn)
    | Ref(id: nat)                                               // a forward_declaration

  /** What a generator does when resumed with the values of all the parsers it
      yielded so far: yield the next parser, or return a value, or (src/ only)
      return a parser that the driver then runs. */
  datatype Step = Yield(next: Parser) | Return(value: Value) | ReturnParser(tail: Parser)

  /** The parsers forward declarations have become, by declaration id. */
  type Rules = map<nat, Parser>

  const UnsettledCall := "'forward_declaration' object has no attribute 'wrapped_fn'"

  function Digit(d: nat): char
    requires d < 10
  {
    "0123456789"[d]
  }

  function NatToString(n: nat): string
  {
    if n < 10 then [Digit(n)] else NatToString(n / 10) + [Digit(n % 10)]
  }

  /** `str(i)` for an int. */
  function IntToString(i: int): string
  {
    if i < 0 then "-" + NatToString(-i) else NatToString(i)
  }

  /** `s[lo:hi]` for 0 <= lo, hi: Python clamps both ends to the length. */
  function Slice(s: string, lo: nat, hi: nat): (r: string)
    ensures lo <= hi <= |s| ==> r == s[lo..hi]
    ensures |r| <= |s|
  {
    var a := if lo < |s| then lo else |s|;
    var b := if hi < |s| then hi else |s|;
    if a <= b then s[a..b] else []
  }

  /** `s[i:]` */
  function Drop(s: string, i: int): string {
    if i <= 0 then s else if i < |s| then s[i..] else []
  }

  /** A returned result records a failure offset of -1 (none yet) or more,
      and a success never lies before the offset it started at. */
  predicate Advances(o: Outcome<Result>, start: int) {
    o.Ok? ==> o.value.furthest >= -1 && (o.value.status ==> start <= o.value.index)
  }

  /** The merged context a loop carries was produced by a parser. */
  predicate Context(prior: Option<Result>) {
    prior.Some? ==> prior.value.furthest >= -1
  }

  /** Runs `p` on `s` at offset `i`. */
  function Run(rules: Rules, p: Parser, s: string, i: nat, fuel: nat): (o: Outcome<Result>)
    ensures Advances(o, i)
    decreases fuel
  {
    if fuel == 0 then Raised(OutOfFuel)
    else
      var f := fuel - 1;
      match p
      case Succeed(v) => Ok(Success(i, v))
      case Fail(e) => Ok(Failure(i, e))
      case Str(lit, transform) =>
        if transform(Slice(s, i, i + |lit|)) == transform(lit) then Ok(Success(i + |lit|, VStr(lit)))
        else Ok(Failure(i, lit))
      case Regex(pattern, matcher) =>
        (match matcher(s, i)
         case Some(m) => Ok(Success(i + m.length, m.group))
         case None => Ok(Failure(i, pattern)))
      case TestItem(test, description) =>
        if i < |s| && test(s[i]) then Ok(Success(i + 1, VStr([s[i]]))) else Ok(Failure(i, description))
      case Eof =>
        if i >= |s| then Ok(Success(i, VNone)) else Ok(Failure(i, "EOF"))
      case Index => Ok(Success(i, VInt(i)))
      case LineInfo =>
        var pos :- Position.LineInfoAt(s, i);
        Ok(Success(i, VTuple([VInt(pos.0), VInt(pos.1)])))
      case Bind(first, next) =>
        var r :- Run(rules, first, s, i, f);
        if !r.status then Ok(r)
        else
          var r2 :- Run(rules, next(r.value), s, r.index, f);
          Ok(r2.Aggregate(Some(r)))
      case Alt(left, right) =>
        var r1 :- Run(rules, left, s, i, f);
        if r1.status then Ok(r1)
        else
          var r2 :- Run(rules, right, s, i, f);
          Ok(r2.Aggregate(Some(r1)))
      case Both(left, right) =>
        var r1 :- Run(rules, left, s, i, f);
        if !r1.status then Ok(r1)
        else
          var r2' :- Run(rules, right, s, r1.index, f);
          var r2 := r2'.Aggregate(Some(r1));
          if !r2.status then Ok(r2)
          else Ok(Success(r2.index, VTuple([r1.value, r2.value])).Aggregate(Some(r2)))
      case Times(item, min, max) => TimesLoop(rules, item, s, min, max, i, [], None, f)
      case Until(item, other, min, max, consume) => UntilLoop(rules, item, other, s, min, max, consume, i, [], f)
      case Desc(inner, description) =>
        var r :- Run(rules, inner, s, i, f);
        if r.status then Ok(r) else Ok(Failure(i, description))
      case Peek(inner) =>
        var r :- Run(rules, inner, s, i, f);
        if r.status then Ok(Success(i, r.value)) else Ok(r)
      case ShouldFail(inner, description) =>
        var r :- Run(rules, inner, s, i, f);
        if r.status then Ok(Failure(i, description)) else Ok(Success(i, VResult(r)))
      case Gen(step) => GenLoop(rules, step, s, i, [], None, f)
      case Ref(id) =>
        if id in rules then Run(rules, rules[id], s, i, f) else Raised(AttributeError(UnsettledCall))
  }

  /** The `while times < the_max` loop of `times_parser`, entered with
      `values` collected so far (`times` is their number) and the merged
      context `prior`. */
  function TimesLoop(rules: Rules, item: Parser, s: string, min: int, max: Bound,
                     index: nat, values: seq<Value>, prior: Option<Result>, fuel: nat): (o: Outcome<Result>)
    requires Context(prior)
    ensures Advances(o, index)
    decreases fuel
  {
    if !max.Allows(|values|) then Ok(Success(index, VList(values)).Aggregate(prior))
    else if fuel == 0 then Raised(OutOfFuel)
    else
      var r0 :- Run(rules, item, s, index, fuel - 1);
      var r := r0.Aggregate(prior);
      if r.status then TimesLoop(rules, item, s, min, max, r.index, values + [r.value], Some(r), fuel - 1)
      else if |values| >= min then Ok(Success(index, VList(values)).Aggregate(Some(r)))
      else Ok(r)
  }

  /** The `while True` loop of `until_parser`. */
  function UntilLoop(rules: Rules, item: Parser, other: Parser, s: string, min: int, max: Bound,
                     consume: bool, index: nat, values: seq<Value>, fuel: nat): (o: Outcome<Result>)
    ensures Advances(o, index)
    decreases fuel
  {
    if fuel == 0 then Raised(OutOfFuel)
    else
      var res :- Run(rules, other, s, index, fuel - 1);
      if res.status && |values| >= min then
        if consume then Ok(Success(res.index, VList(values + [res.value])))
        else Ok(Success(index, VList(values)))
      else if !max.Allows(|values|) then Ok(Failure(index, TooMany(max)))
      else
        var r :- Run(rules, item, s, index, fuel - 1);
        if r.status then UntilLoop(rules, item, other, s, min, max, consume, r.index, values + [r.value], fuel - 1)
        else if |values| >= min then Ok(Failure(index, "did not find other parser"))
        else Ok(Failure(index, TooFew(min, |values|)))
  }

  /** What `until` expects once it has collected `max` items. */
  function TooMany(max: Bound): string {
    "at most " + max.Text() + " items"
  }

  /** What `until` expects when the item fails before `min` items. */
  function TooFew(min: int, count: int): string {
    "at least " + IntToString(min) + " items; got " + IntToString(count) + " item(s)"
  }

  /** The driver loop of `generate`: `sent` holds the values already sent
      into the generator, `prior` the merged context. */
  function GenLoop(rules: Rules, step: seq<Value> -> Step, s: string, index: nat,
                   sent: seq<Value>, prior: Option<Result>, fuel: nat): (o: Outcome<Result>)
    requires Context(prior)
    ensures Advances(o, index)
    decreases fuel
  {
    if fuel == 0 then Raised(OutOfFuel)
    else
      match step(sent)
      case Return(v) => Ok(Success(index, v).Aggregate(prior))
      case ReturnParser(tail) =>
        var r :- Run(rules, tail, s, index, fuel - 1);
        Ok(r.Aggregate(prior))
      case Yield(next) =>
        var r0 :- Run(rules, next, s, index, fuel - 1);
        var r := r0.Aggregate(prior);
        if !r.status then Ok(r)
        else GenLoop(rules, step, s, r.index, sent + [r.value], Some(r), fuel - 1)
  }
}
