/**
 * The outcome of one parse attempt (parsy's `Result` record), the values
 * parsers produce, and the exceptions the engine can raise.
 */
module Results {

  datatype Option<+T> = None | Some(value: T)

  /** The values parsers produce: Python's str, int, list, tuple, None, and
      the `Result` that `should_fail` hands back as its value. */
  datatype Value =
    | VNone
    | VInt(i: int)
    | VStr(s: string)
    | VList(items: seq<Value>)
    | VTuple(items: seq<Value>)
    | VResult(result: Result)

  /** Exceptions raised by the engine instead of being returned as data.
      `OutOfFuel` is the model's own bound on the number of parser calls and
      loop rounds; it stands for a run the source would not finish. */
  datatype Error =
    | ParseError(expected: set<string>, stream: string, index: int)
    | ValueError(message: string)
    | AttributeError(message: string)
    | TypeError(message: string)
    | OutOfFuel

  /** Either a normal return or a raised exception; usable with `:-`. */
  datatype Outcome<+T> = Ok(value: T) | Raised(error: Error) {
    predicate IsFailure() { Raised? }
    function PropagateFailure<U>(): Outcome<U> requires Raised? { Raised(error) }
    function Extract(): T requires Ok? { value }
  }

  function Max(a: int, b: int): int { if a < b then b else a }

  /** One parse attempt. On success `index` is where parsing continues; on
      failure it is -1. `furthest` and `expected` describe the deepest failure
      seen so far, whatever the status. */
  datatype Result = Result(status: bool, index: int, value: Value, furthest: int, expected: set<string>)
  {
    /** `aggregate`: keep this attempt's status, index and value, and the
        diagnostics of whichever side failed further, both on a tie. */
    function Aggregate(other: Option<Result>): (r: Result)
      ensures r.status == status && r.index == index && r.value == value
      ensures other.None? ==> r == this
      ensures other.Some? ==> r.furthest == Max(furthest, other.value.furthest)
      ensures other.Some? ==>
        r.expected == (if furthest == r.furthest then expected else {})
                    + (if other.value.furthest == r.furthest then other.value.expected else {})
    {
      match other
      case None => this
      case Some(o) =>
        if furthest > o.furthest then this
        else if furthest == o.furthest then Result(status, index, value, furthest, expected + o.expected)
        else Result(status, index, value, o.furthest, o.expected)
    }
  }

  /** `Result.success`: no failure recorded yet. */
  function Success(index: int, value: Value): Result {
    Result(true, index, value, -1, {})
  }

  /** `Result.failure`: failed at `index`, expecting exactly `expected`. */
  function Failure(index: int, expected: string): Result {
    Result(false, -1, VNone, index, {expected})
  }

  /** Merging a result with itself changes nothing. */
  lemma AggregateIdempotent(r: Result)
    ensures r.Aggregate(Some(r)) == r
  {
  }

  /** Which failure is furthest, and what it expected, does not depend on
      the order in which two results are merged. */
  lemma AggregateSymmetric(a: Result, b: Result)
    ensures a.Aggregate(Some(b)).furthest == b.Aggregate(Some(a)).furthest
    ensures a.Aggregate(Some(b)).expected == b.Aggregate(Some(a)).expected
  {
  }

  /** Nor on how three results are grouped. */
  lemma AggregateAssociative(a: Result, b: Result, c: Result)
    ensures a.Aggregate(Some(b)).Aggregate(Some(c)).furthest == a.Aggregate(Some(b.Aggregate(Some(c)))).furthest
    ensures a.Aggregate(Some(b)).Aggregate(Some(c)).expected == a.Aggregate(Some(b.Aggregate(Some(c)))).expected
  {
  }

  /** A fresh success records no failure, so merging it into a context keeps
      the context's diagnostics while taking the success's outcome. */
  lemma SuccessKeepsContext(index: int, value: Value, context: Result)
    requires context.furthest >= -1
    ensures var r := Success(index, value).Aggregate(Some(context));
            r.status && r.index == index && r.value == value
            && r.furthest == context.furthest && r.expected == context.expected
  {
  }

  /** A fresh failure beyond the context replaces its diagnostics; at the
      same offset it adds its expectation to them. */
  lemma FailureExtendsContext(index: int, expected: string, context: Result)
    ensures var r := Failure(index, expected).Aggregate(Some(context));
            !r.status && r.index == -1
            && (index > context.furthest ==> r.furthest == index && r.expected == {expected})
            && (index == context.furthest ==> r.furthest == index && r.expected == context.expected + {expected})
            && (index < context.furthest ==> r.furthest == context.furthest && r.expected == context.expected)
  {
  }
}
