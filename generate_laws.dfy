/**
 * What `generate` yields, step by step, and the two versions of `mark`
 * (parsy/'s, built from `seq`, and src/'s, built with `generate`), which
 * yield the same results.
 */
module GenerateLaws {
  import opened Results
  import opened Engine
  import opened Combinators
  import opened Legacy
  import opened Stability
  import opened Semantics
  import opened CombinatorLaws
  import opened PrimitiveLaws

  /** Resumed with `sent` at `index` in the context `prior`, the generator
      driver finishes with `r` given enough fuel. */
  ghost predicate GenYields(rules: Rules, step: seq<Value> -> Step, s: string, index: nat,
                            sent: seq<Value>, prior: Option<Result>, r: Result) {
    Context(prior) && exists fuel :: GenLoop(rules, step, s, index, sent, prior, fuel) == Ok(r)
  }

  lemma GenFuelFor(rules: Rules, step: seq<Value> -> Step, s: string, index: nat,
                   sent: seq<Value>, prior: Option<Result>, r: Result) returns (fuel: nat)
    requires GenYields(rules, step, s, index, sent, prior, r)
    ensures Context(prior) && GenLoop(rules, step, s, index, sent, prior, fuel) == Ok(r)
  {
    fuel :| GenLoop(rules, step, s, index, sent, prior, fuel) == Ok(r);
  }

  /** A call of a generated parser starts the steps afresh, with nothing
      sent and no context. */
  lemma GenStarts(rules: Rules, step: seq<Value> -> Step, s: string, i: nat, r: Result)
    ensures Yields(rules, Gen(step), s, i, r) <==> GenYields(rules, step, s, i, [], None, r)
  {
    if Yields(rules, Gen(step), s, i, r) {
      var f := FuelFor(rules, Gen(step), s, i, r, 1);
      assert GenLoop(rules, step, s, i, [], None, f - 1) == Ok(r);
    }
    if GenYields(rules, step, s, i, [], None, r) {
      var f := GenFuelFor(rules, step, s, i, [], None, r);
      assert Run(rules, Gen(step), s, i, f + 1) == Ok(r);
    }
  }

  /** When the steps return a value, the driver succeeds where it stands
      with that value and the context gathered so far. */
  lemma GenReturn(rules: Rules, step: seq<Value> -> Step, s: string, index: nat,
                  sent: seq<Value>, prior: Option<Result>, v: Value)
    requires Context(prior) && step(sent) == Return(v)
    ensures GenYields(rules, step, s, index, sent, prior, Success(index, v).Aggregate(prior))
  {
    assert GenLoop(rules, step, s, index, sent, prior, 1) == Ok(Success(index, v).Aggregate(prior));
  }

  /** src/: when the steps return a parser, it runs where the driver stands
      and its result is merged with the context. */
  lemma GenReturnParser(rules: Rules, step: seq<Value> -> Step, s: string, index: nat,
                        sent: seq<Value>, prior: Option<Result>, tail: Parser, r0: Result)
    requires Context(prior) && step(sent) == ReturnParser(tail)
    requires Yields(rules, tail, s, index, r0)
    ensures GenYields(rules, step, s, index, sent, prior, r0.Aggregate(prior))
  {
    var f := FuelFor(rules, tail, s, index, r0, 0);
    assert GenLoop(rules, step, s, index, sent, prior, f + 1) == Ok(r0.Aggregate(prior));
  }

  /** The first yielded parser to fail ends the run with its failure merged
      into the context: the steps are not resumed after it. */
  lemma GenYieldFails(rules: Rules, step: seq<Value> -> Step, s: string, index: nat,
                      sent: seq<Value>, prior: Option<Result>, q: Parser, r0: Result)
    requires Context(prior) && step(sent) == Yield(q)
    requires Yields(rules, q, s, index, r0) && !r0.status
    ensures GenYields(rules, step, s, index, sent, prior, r0.Aggregate(prior))
    ensures !r0.Aggregate(prior).status
  {
    var f := FuelFor(rules, q, s, index, r0, 0);
    assert GenLoop(rules, step, s, index, sent, prior, f + 1) == Ok(r0.Aggregate(prior));
  }

  /** A yielded parser that succeeds moves the driver to where it stopped,
      sends its value into the steps, and becomes the new context. */
  lemma GenYieldContinues(rules: Rules, step: seq<Value> -> Step, s: string, index: nat,
                          sent: seq<Value>, prior: Option<Result>, q: Parser, r0: Result, r: Result)
    requires Context(prior) && step(sent) == Yield(q)
    requires Yields(rules, q, s, index, r0) && r0.status
    requires var m := r0.Aggregate(prior);
             m.index >= 0 && GenYields(rules, step, s, m.index, sent + [m.value], Some(m), r)
    ensures GenYields(rules, step, s, index, sent, prior, r)
  {
    YieldsSound(rules, q, s, index, r0);
    var m := r0.Aggregate(prior);
    var f1 := GenFuelFor(rules, step, s, m.index, sent + [m.value], Some(m), r);
    var f := FuelFor(rules, q, s, index, r0, f1);
    GenStable(rules, rules, step, s, m.index, sent + [m.value], Some(m), f1, f);
    assert GenLoop(rules, step, s, index, sent, prior, f + 1) == Ok(r);
  }

  /** And nothing else can happen: every result of the driver arises in one
      of those ways. */
  lemma GenInversion(rules: Rules, step: seq<Value> -> Step, s: string, index: nat,
                     sent: seq<Value>, prior: Option<Result>, r: Result)
    returns (r0: Result)
    requires GenYields(rules, step, s, index, sent, prior, r)
    ensures step(sent).Return? ==> r == Success(index, step(sent).value).Aggregate(prior)
    ensures step(sent).ReturnParser? ==> Yields(rules, step(sent).tail, s, index, r0) && r == r0.Aggregate(prior)
    ensures step(sent).Yield? ==> Yields(rules, step(sent).next, s, index, r0)
    ensures step(sent).Yield? && !r0.status ==> r == r0.Aggregate(prior)
    ensures step(sent).Yield? && r0.status ==>
              var m := r0.Aggregate(prior);
              m.index >= 0 && GenYields(rules, step, s, m.index, sent + [m.value], Some(m), r)
  {
    var f := GenFuelFor(rules, step, s, index, sent, prior, r);
    r0 := r;
    match step(sent)
    case Return(v) =>
    case ReturnParser(tail) =>
      r0 := Run(rules, tail, s, index, f - 1).value;
      assert Run(rules, tail, s, index, f - 1) == Ok(r0);
    case Yield(q) =>
      r0 := Run(rules, q, s, index, f - 1).value;
      assert Run(rules, q, s, index, f - 1) == Ok(r0);
      if r0.status {
        var m := r0.Aggregate(prior);
        assert GenLoop(rules, step, s, m.index, sent + [m.value], Some(m), f - 1) == Ok(r);
      }
  }

  // ---- a generator that must not be resumed -------------------------------

  /** Yields `string("a")` and, were it resumed, a forward declaration that
      has not become anything. */
  function Brittle(sent: seq<Value>): PlainStep {
    if sent == [] then Yield(String("a")) else Yield(Ref(0))
  }

  /** On "z", the generated parser fails expecting "a" without resuming the
      steps, so `|` goes on to `string("z")`; had the steps been resumed,
      the call of the unsettled declaration would have raised. */
  lemma BrittleExample(s: string)
    requires s == "z"
    ensures Yields(map[], Alt(Generate(sent => Brittle(sent)), String("z")), s, 0, Result(true, 1, VStr("z"), 0, {"a"}))
  {
    var rules: Rules := map[];
    StringLaw(rules, "a", s, 0);
    assert s[0..1] == "z" && "z" != "a";
    assert !OccursAt("a", s, 0);
    var step := Generate(sent => Brittle(sent)).step;
    assert step([]) == Yield(String("a"));
    GenYieldFails(rules, step, s, 0, [], None, String("a"), Failure(0, "a"));
    GenStarts(rules, step, s, 0, Failure(0, "a"));
    StringLaw(rules, "z", s, 0);
    assert OccursAt("z", s, 0);
    AltSecond(rules, Generate(sent => Brittle(sent)), String("z"), s, 0, Failure(0, "a"), Success(1, VStr("z")));
  }

  // ---- mark -------------------------------------------------------------------

  /** `p.append(q)` extends the tuple `p` produced by q's value, merging the
      diagnostics of both. */
  lemma AppendLaw(rules: Rules, a: Parser, q: Parser, s: string, i: int, ra: Result, rq: Result)
    requires Yields(rules, a, s, i, ra) && ra.status
    requires Yields(rules, q, s, ra.index, rq)
    ensures var m := rq.Aggregate(Some(ra));
            Yields(rules, Append(a, q), s, i, if m.status then m.(value := VTuple(Items(ra.value) + [rq.value])) else m)
  {
    YieldsSound(rules, q, s, ra.index, rq);
    var next := Append(a, q).next;
    var inner := next(ra.value);
    var t := VTuple(Items(ra.value) + [rq.value]);
    if rq.status {
      var f := FuelFor(rules, q, s, ra.index, rq, 0);
      assert Run(rules, inner.next(rq.value), s, rq.index, 1) == Ok(Success(rq.index, t));
      BindContinues(rules, q, inner.next, s, ra.index, rq, Success(rq.index, t));
      SuccessKeepsContext(rq.index, t, rq);
      BindContinues(rules, a, next, s, i, ra, Success(rq.index, t).Aggregate(Some(rq)));
    } else {
      BindFails(rules, q, inner.next, s, ra.index, rq);
      BindContinues(rules, a, next, s, i, ra, rq);
    }
  }

  /** `line_info`, then `p`, then `line_info`, with p's diagnostics: what
      both versions of `p.mark()` yield. */
  function Marked(s: string, i: nat, r1: Result): Result
    requires i <= |s| && (r1.status ==> 0 <= r1.index <= |s|)
  {
    if r1.status then r1.(value := VTuple([PositionOf(s, i), r1.value, PositionOf(s, r1.index)])) else r1
  }

  /** parsy/'s `p.mark()` yields the start position, p's value and the end
      position, and passes a failure of `p` through. */
  lemma MarkLaw(rules: Rules, p: Parser, s: string, i: nat, r1: Result)
    requires i <= |s|
    requires Yields(rules, p, s, i, r1) && (r1.status ==> r1.index <= |s|)
    ensures Yields(rules, Mark(p), s, i, Marked(s, i, r1))
  {
    YieldsSound(rules, p, s, i, r1);
    MarkStart(rules, p, s, i, r1);
    if r1.status {
      MarkEnd(rules, p, s, i, r1);
    } else {
      assert [LineInfo, p, LineInfo][..2] == [LineInfo, p];
      assert Mark(p) == Append(SeqChain([LineInfo, p]), LineInfo);
      BindFails(rules, SeqChain([LineInfo, p]), Append(SeqChain([LineInfo, p]), LineInfo).next, s, i, r1);
    }
  }

  /** The first two steps of `mark`: the start position, then p's value. */
  lemma MarkStart(rules: Rules, p: Parser, s: string, i: nat, r1: Result)
    requires i <= |s|
    requires Yields(rules, p, s, i, r1) && r1.furthest >= -1
    ensures Yields(rules, SeqChain([LineInfo, p]), s, i,
                   if r1.status then r1.(value := VTuple([PositionOf(s, i), r1.value])) else r1)
  {
    var start := Success(i, PositionOf(s, i));
    LineInfoLaw(rules, s, i);
    MapLaw(rules, LineInfo, v => VTuple([v]), s, i, start);
    var a0 := Success(i, VTuple([PositionOf(s, i)]));
    PairChain(p);
    AppendLaw(rules, AsTuple(LineInfo), p, s, i, a0, r1);
    SuccessKeepsContext(r1.index, r1.value, r1);
    PairItems(PositionOf(s, i), r1.value);
    var m1 := r1.Aggregate(Some(a0));
    assert m1 == r1;
  }

  /** Appending to a one-item tuple gives the pair. */
  lemma PairItems(a: Value, b: Value)
    ensures Items(VTuple([a])) + [b] == [a, b]
  {
  }

  /** The first two steps of `mark` are `line_info.as_tuple()` appended with `p`. */
  lemma PairChain(p: Parser)
    ensures SeqChain([LineInfo, p]) == Append(AsTuple(LineInfo), p)
  {
    assert [LineInfo, p][..1] == [LineInfo];
  }

  /** The last step of `mark`: the end position is appended to the pair. */
  lemma MarkEnd(rules: Rules, p: Parser, s: string, i: nat, r1: Result)
    requires i <= |s| && r1.status && 0 <= r1.index <= |s|
    requires Yields(rules, SeqChain([LineInfo, p]), s, i, r1.(value := VTuple([PositionOf(s, i), r1.value])))
    ensures Yields(rules, Mark(p), s, i, Marked(s, i, r1))
  {
    var a1 := r1.(value := VTuple([PositionOf(s, i), r1.value]));
    var end := Success(r1.index, PositionOf(s, r1.index));
    LineInfoLaw(rules, s, r1.index);
    AppendLaw(rules, SeqChain([LineInfo, p]), LineInfo, s, i, a1, end);
    SuccessKeepsContext(r1.index, end.value, a1);
    TripleItems(PositionOf(s, i), r1.value, end.value);
    MarkChain(p);
  }

  /** Appending to a pair gives the triple. */
  lemma TripleItems(a: Value, b: Value, c: Value)
    ensures Items(VTuple([a, b])) + [c] == [a, b, c]
  {
  }

  /** `mark` is the pair chain with the end position appended. */
  lemma MarkChain(p: Parser)
    ensures Mark(p) == Append(SeqChain([LineInfo, p]), LineInfo)
  {
    assert [LineInfo, p, LineInfo][..2] == [LineInfo, p];
  }

  /** src/'s `p.mark()`, written with `generate`, yields the same. */
  lemma MarkLegacyLaw(rules: Rules, p: Parser, s: string, i: nat, r1: Result)
    requires i <= |s|
    requires Yields(rules, p, s, i, r1) && (r1.status ==> r1.index <= |s|)
    ensures Yields(rules, MarkLegacy(p), s, i, Marked(s, i, r1))
  {
    YieldsSound(rules, p, s, i, r1);
    var step := MarkLegacy(p).step;
    var start := Success(i, PositionOf(s, i));
    LineInfoLaw(rules, s, i);
    var m0 := start.Aggregate(None);
    var m1 := r1.Aggregate(Some(m0));
    assert m1 == r1;
    assert step([start.value]) == Yield(p);
    if r1.status {
      MarkLegacyTail(rules, p, s, i, r1);
      assert [start.value] + [m1.value] == [start.value, r1.value];
      GenYieldContinues(rules, step, s, i, [start.value], Some(m0), p, r1, Marked(s, i, r1));
    } else {
      assert r1 == Marked(s, i, r1);
      GenYieldFails(rules, step, s, i, [start.value], Some(m0), p, r1);
    }
    assert [] + [start.value] == [start.value];
    assert step([]) == Yield(LineInfo);
    GenYieldContinues(rules, step, s, i, [], None, LineInfo, start, Marked(s, i, r1));
    GenStarts(rules, step, s, i, Marked(s, i, r1));
  }

  /** The last two steps of src/'s `mark`, once `p` has succeeded: yield
      `line_info`, then return the three values. */
  lemma MarkLegacyTail(rules: Rules, p: Parser, s: string, i: nat, r1: Result)
    requires i <= |s| && r1.status && 0 <= r1.index <= |s| && r1.furthest >= -1
    ensures GenYields(rules, MarkLegacy(p).step, s, r1.index, [PositionOf(s, i), r1.value], Some(r1),
                      Marked(s, i, r1))
  {
    var step := MarkLegacy(p).step;
    var end := Success(r1.index, PositionOf(s, r1.index));
    LineInfoLaw(rules, s, r1.index);
    var m2 := end.Aggregate(Some(r1));
    SuccessKeepsContext(r1.index, end.value, r1);
    var sent := [PositionOf(s, i), r1.value, m2.value];
    assert sent[..3] == sent;
    assert step(sent) == MarkSteps(p, sent) == Return(VTuple(sent));
    GenReturn(rules, step, s, r1.index, sent, Some(m2), VTuple(sent));
    assert Success(r1.index, VTuple(sent)).Aggregate(Some(m2)) == Marked(s, i, r1);
    assert [PositionOf(s, i), r1.value] + [m2.value] == sent;
    assert step([PositionOf(s, i), r1.value]) == Yield(LineInfo);
    GenYieldContinues(rules, step, s, r1.index, [PositionOf(s, i), r1.value], Some(r1), LineInfo, end,
                      Marked(s, i, r1));
  }
}
