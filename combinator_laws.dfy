/**
 * Laws of the combinators that compose two parsers: `bind` and `map`, `|`,
 * `&`, `>>` and `<<`, and the three wrappers `desc`, `peek` and
 * `should_fail`. Each law says what the composite yields in terms of what
 * its parts yield; the inversion lemmas say that nothing else can happen.
 */
module CombinatorLaws {
  import opened Results
  import opened Engine
  import opened Combinators
  import opened Stability
  import opened Semantics

  // ---- bind and map -----------------------------------------------------

  /** `p.bind(f)` hands back p's failure unchanged, without calling `f`. */
  lemma BindFails(rules: Rules, p: Parser, next: Value -> Parser, s: string, i: int, r1: Result)
    requires Yields(rules, p, s, i, r1) && !r1.status
    ensures Yields(rules, Bind(p, next), s, i, r1)
  {
    var f := FuelFor(rules, p, s, i, r1, 0);
    assert Run(rules, Bind(p, next), s, i, f + 1) == Ok(r1);
  }

  /** After a success of `p`, `p.bind(f)` runs `f(value)` where `p` stopped
      and merges p's diagnostics into its result. */
  lemma BindContinues(rules: Rules, p: Parser, next: Value -> Parser, s: string, i: int, r1: Result, r2: Result)
    requires Yields(rules, p, s, i, r1) && r1.status
    requires Yields(rules, next(r1.value), s, r1.index, r2)
    ensures Yields(rules, Bind(p, next), s, i, r2.Aggregate(Some(r1)))
  {
    var f1 := FuelFor(rules, p, s, i, r1, 0);
    var f := FuelFor(rules, next(r1.value), s, r1.index, r2, f1);
    RunMonotone(rules, p, s, i, f1, f);
    assert Run(rules, Bind(p, next), s, i, f + 1) == Ok(r2.Aggregate(Some(r1)));
  }

  /** Every result of `p.bind(f)` arises in one of those two ways. */
  lemma BindInversion(rules: Rules, p: Parser, next: Value -> Parser, s: string, i: int, r: Result)
    returns (r1: Result, r2: Result)
    requires Yields(rules, Bind(p, next), s, i, r)
    ensures Yields(rules, p, s, i, r1)
    ensures !r1.status ==> r == r1
    ensures r1.status ==> Yields(rules, next(r1.value), s, r1.index, r2) && r == r2.Aggregate(Some(r1))
  {
    var f := FuelFor(rules, Bind(p, next), s, i, r, 0);
    r1 := Run(rules, p, s, i, f - 1).value;
    assert Run(rules, p, s, i, f - 1) == Ok(r1);
    if r1.status {
      r2 := Run(rules, next(r1.value), s, r1.index, f - 1).value;
      assert Run(rules, next(r1.value), s, r1.index, f - 1) == Ok(r2);
    } else {
      r2 := r1;
    }
  }

  /** `p.map(g)` replaces the value of a success by `g(value)` and changes
      nothing else; a failure passes through. */
  lemma MapLaw(rules: Rules, p: Parser, g: Value -> Value, s: string, i: int, r1: Result)
    requires Yields(rules, p, s, i, r1)
    ensures Yields(rules, Map(p, g), s, i, if r1.status then r1.(value := g(r1.value)) else r1)
  {
    var next := Map(p, g).next;
    if r1.status {
      YieldsSound(rules, p, s, i, r1);
      var r2 := Success(r1.index, g(r1.value));
      assert Run(rules, next(r1.value), s, r1.index, 1) == Ok(r2);
      BindContinues(rules, p, next, s, i, r1, r2);
      SuccessKeepsContext(r1.index, g(r1.value), r1);
    } else {
      BindFails(rules, p, next, s, i, r1);
    }
  }

  /** Every result of `p.map(g)` comes from a result of `p` that way. */
  lemma MapInversion(rules: Rules, p: Parser, g: Value -> Value, s: string, i: int, r: Result)
    returns (r1: Result)
    requires Yields(rules, Map(p, g), s, i, r)
    ensures Yields(rules, p, s, i, r1)
    ensures r == if r1.status then r1.(value := g(r1.value)) else r1
  {
    var r2;
    r1, r2 := BindInversion(rules, p, Map(p, g).next, s, i, r);
    MapLaw(rules, p, g, s, i, r1);
    YieldsUnique(rules, Map(p, g), s, i, r, if r1.status then r1.(value := g(r1.value)) else r1);
  }

  // ---- alternation ------------------------------------------------------

  /** `p | q` keeps p's success and does not run `q`. */
  lemma AltFirst(rules: Rules, p: Parser, q: Parser, s: string, i: int, r1: Result)
    requires Yields(rules, p, s, i, r1) && r1.status
    ensures Yields(rules, Alt(p, q), s, i, r1)
  {
    var f := FuelFor(rules, p, s, i, r1, 0);
    assert Run(rules, Alt(p, q), s, i, f + 1) == Ok(r1);
  }

  /** When `p` fails, `p | q` runs `q` at the same offset and merges p's
      failure into q's result. */
  lemma AltSecond(rules: Rules, p: Parser, q: Parser, s: string, i: int, r1: Result, r2: Result)
    requires Yields(rules, p, s, i, r1) && !r1.status
    requires Yields(rules, q, s, i, r2)
    ensures Yields(rules, Alt(p, q), s, i, r2.Aggregate(Some(r1)))
  {
    var f1 := FuelFor(rules, p, s, i, r1, 0);
    var f := FuelFor(rules, q, s, i, r2, f1);
    RunMonotone(rules, p, s, i, f1, f);
    assert Run(rules, Alt(p, q), s, i, f + 1) == Ok(r2.Aggregate(Some(r1)));
  }

  /** Every result of `p | q` arises in one of those two ways. */
  lemma AltInversion(rules: Rules, p: Parser, q: Parser, s: string, i: int, r: Result)
    returns (r1: Result, r2: Result)
    requires Yields(rules, Alt(p, q), s, i, r)
    ensures Yields(rules, p, s, i, r1)
    ensures r1.status ==> r == r1
    ensures !r1.status ==> Yields(rules, q, s, i, r2) && r == r2.Aggregate(Some(r1))
  {
    var f := FuelFor(rules, Alt(p, q), s, i, r, 0);
    r1 := Run(rules, p, s, i, f - 1).value;
    assert Run(rules, p, s, i, f - 1) == Ok(r1);
    if !r1.status {
      r2 := Run(rules, q, s, i, f - 1).value;
      assert Run(rules, q, s, i, f - 1) == Ok(r2);
    } else {
      r2 := r1;
    }
  }

  // ---- sequencing -------------------------------------------------------

  /** `p & q` hands back p's failure unchanged. */
  lemma BothFirstFails(rules: Rules, p: Parser, q: Parser, s: string, i: int, r1: Result)
    requires Yields(rules, p, s, i, r1) && !r1.status
    ensures Yields(rules, Both(p, q), s, i, r1)
  {
    var f := FuelFor(rules, p, s, i, r1, 0);
    assert Run(rules, Both(p, q), s, i, f + 1) == Ok(r1);
  }

  /** The result of `p & q` once `p` has succeeded: what `q` yields where
      `p` stopped, merged with p's diagnostics, and on success the pair of
      the two values. */
  function BothResult(r1: Result, r2: Result): Result {
    var m := r2.Aggregate(Some(r1));
    if m.status then Result(true, m.index, VTuple([r1.value, r2.value]), m.furthest, m.expected) else m
  }

  lemma BothSecond(rules: Rules, p: Parser, q: Parser, s: string, i: int, r1: Result, r2: Result)
    requires Yields(rules, p, s, i, r1) && r1.status
    requires Yields(rules, q, s, r1.index, r2)
    ensures Yields(rules, Both(p, q), s, i, BothResult(r1, r2))
  {
    YieldsSound(rules, p, s, i, r1);
    YieldsSound(rules, q, s, r1.index, r2);
    var f1 := FuelFor(rules, p, s, i, r1, 0);
    var f := FuelFor(rules, q, s, r1.index, r2, f1);
    RunMonotone(rules, p, s, i, f1, f);
    var m := r2.Aggregate(Some(r1));
    SuccessKeepsContext(m.index, VTuple([r1.value, r2.value]), m);
    assert Run(rules, Both(p, q), s, i, f + 1) == Ok(BothResult(r1, r2));
  }

  /** Every result of `p & q` arises in one of those two ways. */
  lemma BothInversion(rules: Rules, p: Parser, q: Parser, s: string, i: int, r: Result)
    returns (r1: Result, r2: Result)
    requires Yields(rules, Both(p, q), s, i, r)
    ensures Yields(rules, p, s, i, r1)
    ensures !r1.status ==> r == r1
    ensures r1.status ==> Yields(rules, q, s, r1.index, r2) && r == BothResult(r1, r2)
  {
    var f := FuelFor(rules, Both(p, q), s, i, r, 0);
    r1 := Run(rules, p, s, i, f - 1).value;
    assert Run(rules, p, s, i, f - 1) == Ok(r1);
    if r1.status {
      r2 := Run(rules, q, s, r1.index, f - 1).value;
      assert Run(rules, q, s, r1.index, f - 1) == Ok(r2);
      BothSecond(rules, p, q, s, i, r1, r2);
      YieldsUnique(rules, Both(p, q), s, i, r, BothResult(r1, r2));
    } else {
      r2 := r1;
    }
  }

  /** `p >> q` yields q's result where `p` stopped, with p's diagnostics
      merged in; a failure of `p` is handed back unchanged. */
  lemma ThenLaw(rules: Rules, p: Parser, q: Parser, s: string, i: int, r1: Result, r2: Result)
    requires Yields(rules, p, s, i, r1)
    requires r1.status ==> Yields(rules, q, s, r1.index, r2)
    ensures Yields(rules, Then(p, q), s, i, if r1.status then r2.Aggregate(Some(r1)) else r1)
  {
    if r1.status {
      BothSecond(rules, p, q, s, i, r1, r2);
      MapLaw(rules, Both(p, q), t => Nth(t, 1), s, i, BothResult(r1, r2));
    } else {
      BothFirstFails(rules, p, q, s, i, r1);
      MapLaw(rules, Both(p, q), t => Nth(t, 1), s, i, r1);
    }
  }

  /** Every result of `p >> q` arises in one of those two ways. */
  lemma ThenInversion(rules: Rules, p: Parser, q: Parser, s: string, i: int, r: Result)
    returns (r1: Result, r2: Result)
    requires Yields(rules, Then(p, q), s, i, r)
    ensures Yields(rules, p, s, i, r1)
    ensures !r1.status ==> r == r1
    ensures r1.status ==> Yields(rules, q, s, r1.index, r2) && r == r2.Aggregate(Some(r1))
  {
    var rb := MapInversion(rules, Both(p, q), t => Nth(t, 1), s, i, r);
    r1, r2 := BothInversion(rules, p, q, s, i, rb);
    ThenLaw(rules, p, q, s, i, r1, r2);
    YieldsUnique(rules, Then(p, q), s, i, r, if r1.status then r2.Aggregate(Some(r1)) else r1);
  }

  /** `p << q` runs both in turn but keeps p's value. */
  lemma SkipLaw(rules: Rules, p: Parser, q: Parser, s: string, i: int, r1: Result, r2: Result)
    requires Yields(rules, p, s, i, r1)
    requires r1.status ==> Yields(rules, q, s, r1.index, r2)
    ensures var m := r2.Aggregate(Some(r1));
            Yields(rules, Skip(p, q), s, i, if !r1.status then r1 else if m.status then m.(value := r1.value) else m)
  {
    if r1.status {
      BothSecond(rules, p, q, s, i, r1, r2);
      MapLaw(rules, Both(p, q), t => Nth(t, 0), s, i, BothResult(r1, r2));
    } else {
      BothFirstFails(rules, p, q, s, i, r1);
      MapLaw(rules, Both(p, q), t => Nth(t, 0), s, i, r1);
    }
  }

  /** Every result of `p << q` arises that way. */
  lemma SkipInversion(rules: Rules, p: Parser, q: Parser, s: string, i: int, r: Result)
    returns (r1: Result, r2: Result)
    requires Yields(rules, Skip(p, q), s, i, r)
    ensures Yields(rules, p, s, i, r1)
    ensures !r1.status ==> r == r1
    ensures r1.status ==> Yields(rules, q, s, r1.index, r2)
                          && r == (var m := r2.Aggregate(Some(r1)); if m.status then m.(value := r1.value) else m)
  {
    var rb := MapInversion(rules, Both(p, q), t => Nth(t, 0), s, i, r);
    r1, r2 := BothInversion(rules, p, q, s, i, rb);
    SkipLaw(rules, p, q, s, i, r1, r2);
    var m := r2.Aggregate(Some(r1));
    YieldsUnique(rules, Skip(p, q), s, i, r, if !r1.status then r1 else if m.status then m.(value := r1.value) else m);
  }

  /** `p.result(v)` succeeds where `p` does, with `v` as its value. */
  lemma ResultOfLaw(rules: Rules, p: Parser, v: Value, s: string, i: int, r1: Result)
    requires Yields(rules, p, s, i, r1)
    ensures Yields(rules, ResultOf(p, v), s, i, if r1.status then r1.(value := v) else r1)
  {
    if r1.status {
      YieldsSound(rules, p, s, i, r1);
      assert Run(rules, Succeed(v), s, r1.index, 1) == Ok(Success(r1.index, v));
      ThenLaw(rules, p, Succeed(v), s, i, r1, Success(r1.index, v));
      SuccessKeepsContext(r1.index, v, r1);
    } else {
      ThenLaw(rules, p, Succeed(v), s, i, r1, r1);
    }
  }

  /** Every result of `p.result(v)` comes from a result of `p` that way. */
  lemma ResultOfInversion(rules: Rules, p: Parser, v: Value, s: string, i: int, r: Result)
    returns (r1: Result)
    requires Yields(rules, ResultOf(p, v), s, i, r)
    ensures Yields(rules, p, s, i, r1)
    ensures r == if r1.status then r1.(value := v) else r1
  {
    var r2;
    r1, r2 := ThenInversion(rules, p, Succeed(v), s, i, r);
    ResultOfLaw(rules, p, v, s, i, r1);
    YieldsUnique(rules, ResultOf(p, v), s, i, r, if r1.status then r1.(value := v) else r1);
  }

  /** `p.tag(name)` pairs p's value with `name`. */
  lemma TagLaw(rules: Rules, p: Parser, name: string, s: string, i: int, r1: Result)
    requires Yields(rules, p, s, i, r1)
    ensures Yields(rules, Tag(p, name), s, i, if r1.status then r1.(value := VTuple([VStr(name), r1.value])) else r1)
  {
    MapLaw(rules, p, v => VTuple([VStr(name), v]), s, i, r1);
  }

  /** Every result of `p.tag(name)` comes from a result of `p` that way. */
  lemma TagInversion(rules: Rules, p: Parser, name: string, s: string, i: int, r: Result)
    returns (r1: Result)
    requires Yields(rules, Tag(p, name), s, i, r)
    ensures Yields(rules, p, s, i, r1)
    ensures r == if r1.status then r1.(value := VTuple([VStr(name), r1.value])) else r1
  {
    r1 := MapInversion(rules, p, v => VTuple([VStr(name), v]), s, i, r);
  }

  /** `p + q` runs both in turn and adds their values; a failure of either
      is handed back with the diagnostics merged as `&` merges them. */
  lemma AddLaw(rules: Rules, p: Parser, q: Parser, s: string, i: int, r1: Result, r2: Result)
    requires Yields(rules, p, s, i, r1)
    requires r1.status ==> Yields(rules, q, s, r1.index, r2)
    ensures var m := r2.Aggregate(Some(r1));
            Yields(rules, Add(p, q), s, i,
                   if !r1.status then r1 else if m.status then m.(value := Plus(r1.value, r2.value)) else m)
  {
    if r1.status {
      BothSecond(rules, p, q, s, i, r1, r2);
      MapLaw(rules, Both(p, q), SumPair, s, i, BothResult(r1, r2));
    } else {
      BothFirstFails(rules, p, q, s, i, r1);
      MapLaw(rules, Both(p, q), SumPair, s, i, r1);
    }
  }

  /** `p.join(q)` yields what `p & q` yields: the pair at q's end, or the
      first failure with the diagnostics merged. */
  lemma JoinLaw(rules: Rules, p: Parser, q: Parser, s: string, i: int, r1: Result, r2: Result)
    requires Yields(rules, p, s, i, r1)
    requires r1.status ==> Yields(rules, q, s, r1.index, r2)
    ensures Yields(rules, Join(p, q), s, i, if r1.status then BothResult(r1, r2) else r1)
  {
    if r1.status {
      BothSecond(rules, p, q, s, i, r1, r2);
    } else {
      BothFirstFails(rules, p, q, s, i, r1);
    }
  }

  /** `p.combine(fn)` calls `fn` with the items of p's value; a failure
      passes through. */
  lemma CombineLaw(rules: Rules, p: Parser, fn: seq<Value> -> Value, s: string, i: int, r1: Result)
    requires Yields(rules, p, s, i, r1)
    ensures Yields(rules, Combine(p, fn), s, i, if r1.status then r1.(value := fn(Items(r1.value))) else r1)
  {
    var next := Combine(p, fn).next;
    if r1.status {
      YieldsSound(rules, p, s, i, r1);
      var r2 := Success(r1.index, fn(Items(r1.value)));
      assert Run(rules, next(r1.value), s, r1.index, 1) == Ok(r2);
      BindContinues(rules, p, next, s, i, r1, r2);
      SuccessKeepsContext(r1.index, fn(Items(r1.value)), r1);
    } else {
      BindFails(rules, p, next, s, i, r1);
    }
  }

  // ---- desc, peek, should_fail -----------------------------------------

  /** `p.desc(d)` leaves a success alone and replaces any failure by one at
      the start offset expecting exactly `d`. */
  lemma DescLaw(rules: Rules, p: Parser, d: string, s: string, i: int, r: Result)
    requires Yields(rules, p, s, i, r)
    ensures Yields(rules, Desc(p, d), s, i, if r.status then r else Failure(i, d))
  {
    var f := FuelFor(rules, p, s, i, r, 0);
    assert Run(rules, Desc(p, d), s, i, f + 1) == Ok(if r.status then r else Failure(i, d));
  }

  /** `peek(p)` returns p's value at the start offset; a failure passes
      through unchanged. */
  lemma PeekLaw(rules: Rules, p: Parser, s: string, i: int, r: Result)
    requires Yields(rules, p, s, i, r)
    ensures Yields(rules, Peek(p), s, i, if r.status then Success(i, r.value) else r)
  {
    var f := FuelFor(rules, p, s, i, r, 0);
    assert Run(rules, Peek(p), s, i, f + 1) == Ok(if r.status then Success(i, r.value) else r);
  }

  /** `p.should_fail(d)` fails at the start offset expecting `d` when `p`
      succeeds, and otherwise succeeds there with p's failure as its value. */
  lemma ShouldFailLaw(rules: Rules, p: Parser, d: string, s: string, i: int, r: Result)
    requires Yields(rules, p, s, i, r)
    ensures Yields(rules, ShouldFail(p, d), s, i, if r.status then Failure(i, d) else Success(i, VResult(r)))
  {
    var f := FuelFor(rules, p, s, i, r, 0);
    assert Run(rules, ShouldFail(p, d), s, i, f + 1)
        == Ok(if r.status then Failure(i, d) else Success(i, VResult(r)));
  }

  /** Every result of `p.desc(d)` comes from a result of `p` that way. */
  lemma DescInversion(rules: Rules, p: Parser, d: string, s: string, i: int, r: Result)
    returns (r1: Result)
    requires Yields(rules, Desc(p, d), s, i, r)
    ensures Yields(rules, p, s, i, r1)
    ensures r == if r1.status then r1 else Failure(i, d)
  {
    var f := FuelFor(rules, Desc(p, d), s, i, r, 0);
    r1 := Run(rules, p, s, i, f - 1).value;
    assert Run(rules, p, s, i, f - 1) == Ok(r1);
  }

  /** Every result of `peek(p)` comes from a result of `p` that way. */
  lemma PeekInversion(rules: Rules, p: Parser, s: string, i: int, r: Result)
    returns (r1: Result)
    requires Yields(rules, Peek(p), s, i, r)
    ensures Yields(rules, p, s, i, r1)
    ensures r == if r1.status then Success(i, r1.value) else r1
  {
    var f := FuelFor(rules, Peek(p), s, i, r, 0);
    r1 := Run(rules, p, s, i, f - 1).value;
    assert Run(rules, p, s, i, f - 1) == Ok(r1);
  }

  /** Every result of `p.should_fail(d)` comes from a result of `p` that way. */
  lemma ShouldFailInversion(rules: Rules, p: Parser, d: string, s: string, i: int, r: Result)
    returns (r1: Result)
    requires Yields(rules, ShouldFail(p, d), s, i, r)
    ensures Yields(rules, p, s, i, r1)
    ensures r == if r1.status then Failure(i, d) else Success(i, VResult(r1))
  {
    var f := FuelFor(rules, ShouldFail(p, d), s, i, r, 0);
    r1 := Run(rules, p, s, i, f - 1).value;
    assert Run(rules, p, s, i, f - 1) == Ok(r1);
  }
}
