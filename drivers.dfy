/**
 * The loops of the engine written as the source writes them: `while` loops
 * that update the attempt count, the collected values, the offset and the
 * merged context. Each is proved to compute the interpreter's definition.
 */
module Drivers {
  import opened Results
  import opened Engine
  import opened Combinators

  /** `times_parser` */
  method RunTimes(rules: Rules, item: Parser, s: string, min: int, max: Bound, start: nat, fuel: nat)
    returns (o: Outcome<Result>)
    ensures o == TimesLoop(rules, item, s, min, max, start, [], None, fuel)
  {
    var values: seq<Value> := [];
    var index: nat := start;
    var result: Option<Result> := None;
    var budget := fuel;
    while max.Allows(|values|)
      invariant Context(result)
      invariant TimesLoop(rules, item, s, min, max, index, values, result, budget)
             == TimesLoop(rules, item, s, min, max, start, [], None, fuel)
      decreases budget
    {
      if budget == 0 {
        return Raised(OutOfFuel);
      }
      var attempt := Run(rules, item, s, index, budget - 1);
      if attempt.Raised? {
        return Raised(attempt.error);
      }
      var r := attempt.value.Aggregate(result);
      if r.status {
        values, index, result := values + [r.value], r.index, Some(r);
        budget := budget - 1;
      } else if |values| >= min {
        return Ok(Success(index, VList(values)).Aggregate(Some(r)));
      } else {
        return Ok(r);
      }
    }
    return Ok(Success(index, VList(values)).Aggregate(result));
  }

  /** `until_parser` */
  method RunUntil(rules: Rules, item: Parser, other: Parser, s: string, min: int, max: Bound,
                  consume: bool, start: nat, fuel: nat)
    returns (o: Outcome<Result>)
    ensures o == UntilLoop(rules, item, other, s, min, max, consume, start, [], fuel)
  {
    ghost var goal := UntilLoop(rules, item, other, s, min, max, consume, start, [], fuel);
    var values: seq<Value> := [];
    var index: nat := start;
    var budget := fuel;
    while true
      invariant UntilLoop(rules, item, other, s, min, max, consume, index, values, budget) == goal
      decreases budget
    {
      if budget == 0 {
        return Raised(OutOfFuel);
      }
      ghost var here := UntilLoop(rules, item, other, s, min, max, consume, index, values, budget);
      var probe := Run(rules, other, s, index, budget - 1);
      if probe.Raised? {
        assert here == Raised(probe.error);
        return Raised(probe.error);
      }
      var res := probe.value;
      if res.status && |values| >= min {
        if consume {
          values, index := values + [res.value], res.index;
        }
        assert here == Ok(Success(index, VList(values)));
        return Ok(Success(index, VList(values)));
      }
      if !max.Allows(|values|) {
        assert here == Ok(Failure(index, TooMany(max)));
        return Ok(Failure(index, TooMany(max)));
      }
      var attempt := Run(rules, item, s, index, budget - 1);
      if attempt.Raised? {
        assert here == Raised(attempt.error);
        return Raised(attempt.error);
      }
      var r := attempt.value;
      if r.status {
        assert here == UntilLoop(rules, item, other, s, min, max, consume, r.index, values + [r.value], budget - 1);
        values, index := values + [r.value], r.index;
        budget := budget - 1;
      } else if |values| >= min {
        assert here == Ok(Failure(index, "did not find other parser"));
        return Ok(Failure(index, "did not find other parser"));
      } else {
        assert here == Ok(Failure(index, TooFew(min, |values|)));
        return Ok(Failure(index, TooFew(min, |values|)));
      }
    }
  }

  /** `generated`: resume the generator with the last value, run the parser
      it yields, stop at the first failure or when it returns. */
  method RunGenerate(rules: Rules, step: seq<Value> -> Step, s: string, start: nat, fuel: nat)
    returns (o: Outcome<Result>)
    ensures o == GenLoop(rules, step, s, start, [], None, fuel)
  {
    var sent: seq<Value> := [];
    var index: nat := start;
    var result: Option<Result> := None;
    var budget := fuel;
    while true
      invariant Context(result)
      invariant GenLoop(rules, step, s, index, sent, result, budget)
             == GenLoop(rules, step, s, start, [], None, fuel)
      decreases budget
    {
      if budget == 0 {
        return Raised(OutOfFuel);
      }
      match step(sent)
      case Return(v) =>
        return Ok(Success(index, v).Aggregate(result));
      case ReturnParser(tail) =>
        var last := Run(rules, tail, s, index, budget - 1);
        if last.Raised? {
          return Raised(last.error);
        }
        return Ok(last.value.Aggregate(result));
      case Yield(next) =>
        var attempt := Run(rules, next, s, index, budget - 1);
        if attempt.Raised? {
          return Raised(attempt.error);
        }
        var r := attempt.value.Aggregate(result);
        if !r.status {
          return Ok(r);
        }
        sent, index, result := sent + [r.value], r.index, Some(r);
        budget := budget - 1;
    }
  }

  /** `seq(*args)`: start from `args[0].as_tuple()` and append the others. */
  method SeqOf(args: seq<Parser>) returns (o: Outcome<Parser>)
    ensures args == [] ==> o == Raised(ValueError(""))
    ensures args != [] ==> o.Ok? && o.value == SeqChain(args)
  {
    if args == [] {
      return Raised(ValueError(""));
    }
    var parser := AsTuple(args[0]);
    for k := 1 to |args|
      invariant parser == SeqChain(args[..k])
    {
      assert args[..k + 1][..k] == args[..k];
      parser := Append(parser, args[k]);
    }
    assert args[..|args|] == args;
    return Ok(parser);
  }
}
