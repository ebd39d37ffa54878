/**
 * The rounds of the two repetition loops written out as data. A run of
 * `times` is the successes of its item, each attempt starting where the
 * previous one ended, and the attempt that stopped it; a run of `until` adds
 * the probe of the other parser made before each attempt. The loop lemmas
 * here show that a loop returns exactly what its run describes, and that
 * every such run is what the loop does.
 */
module Runs {
  import opened Results
  import opened Engine
  import opened Semantics
  import Stability

  /** `p` succeeds with `rs[0]` at offset `i`, then with `rs[1]` where that
      success ended, and so on. */
  ghost predicate Successive(rules: Rules, p: Parser, s: string, i: int, rs: seq<Result>)
    decreases |rs|
  {
    rs == [] || (rs[0].status && Yields(rules, p, s, i, rs[0]) && Successive(rules, p, s, rs[0].index, rs[1..]))
  }

  /** Where the successes that start at `i` end. */
  function EndOf(i: int, rs: seq<Result>): int
    decreases |rs|
  {
    if rs == [] then i else EndOf(rs[0].index, rs[1..])
  }

  /** The values of the results, in order. */
  function ValuesOf(rs: seq<Result>): (vs: seq<Value>)
    ensures |vs| == |rs|
    ensures forall k :: 0 <= k < |rs| ==> vs[k] == rs[k].value
  {
    seq(|rs|, k requires 0 <= k < |rs| => rs[k].value)
  }

  /** Where the `k`-th of the successes starting at `i` starts: `i` for the
      first, and where the one before it ended for the others. */
  function StartOf(i: int, rs: seq<Result>, k: nat): int
    requires k <= |rs|
  {
    if k == 0 then i else rs[k - 1].index
  }

  /** A run of successes, stated item by item: each is a success of `p`
      from where the one before it ended. */
  lemma {:induction false} SuccessiveSteps(rules: Rules, p: Parser, s: string, i: int, rs: seq<Result>)
    ensures Successive(rules, p, s, i, rs)
        <==> forall k :: 0 <= k < |rs| ==> rs[k].status && Yields(rules, p, s, StartOf(i, rs, k), rs[k])
    decreases |rs|
  {
    if rs != [] {
      var rest := rs[1..];
      SuccessiveSteps(rules, p, s, rs[0].index, rest);
      forall k | 1 <= k < |rs|
        ensures rs[k] == rest[k - 1] && StartOf(i, rs, k) == StartOf(rs[0].index, rest, k - 1)
      {
      }
    }
  }

  /** The successes end where the last of them ended, or at `i` when there
      are none. */
  lemma {:induction false} EndOfLast(i: int, rs: seq<Result>)
    ensures EndOf(i, rs) == StartOf(i, rs, |rs|)
    decreases |rs|
  {
    if rs != [] {
      EndOfLast(rs[0].index, rs[1..]);
    }
  }

  /** The context after merging the results, one after the other, into
      `prior`. */
  function MergeAll(prior: Option<Result>, rs: seq<Result>): Option<Result>
    decreases |rs|
  {
    if rs == [] then prior else MergeAll(Some(rs[0].Aggregate(prior)), rs[1..])
  }

  /** What merging keeps of a result: how far it failed, and what it
      expected there. */
  datatype Diag = Diag(furthest: int, expected: set<string>)

  function DiagOf(r: Result): Diag {
    Diag(r.furthest, r.expected)
  }

  /** The diagnostics of a context; having none is failing nowhere. */
  function ContextDiag(o: Option<Result>): Diag {
    if o.None? then Diag(-1, {}) else DiagOf(o.value)
  }

  /** The diagnostics `aggregate` keeps of two: the further, and both
      expected sets on a tie. */
  function Merge(a: Diag, b: Diag): Diag {
    if a.furthest > b.furthest then a
    else if a.furthest == b.furthest then Diag(a.furthest, a.expected + b.expected)
    else b
  }

  /** `aggregate` merges the diagnostics of a result and its context. */
  lemma AggregateDiag(r: Result, o: Option<Result>)
    requires r.furthest >= -1
    ensures DiagOf(r.Aggregate(o)) == Merge(DiagOf(r), ContextDiag(o))
  {
  }

  /** Merging is commutative and associative, and failing nowhere is its
      unit. */
  lemma MergeLaws(a: Diag, b: Diag, c: Diag)
    ensures Merge(a, b) == Merge(b, a)
    ensures Merge(Merge(a, b), c) == Merge(a, Merge(b, c))
    ensures a.furthest >= -1 ==> Merge(a, Diag(-1, {})) == a
  {
  }

  /** Every result of the run failed, if anywhere, at or after offset -1. */
  predicate Sound(rs: seq<Result>) {
    forall k :: 0 <= k < |rs| ==> rs[k].furthest >= -1
  }

  /** Merging a run into a context merges the context with what the run
      merges on its own. */
  lemma {:induction false} MergeAllDiag(prior: Option<Result>, rs: seq<Result>)
    requires ContextDiag(prior).furthest >= -1 && Sound(rs)
    ensures ContextDiag(MergeAll(prior, rs)) == Merge(ContextDiag(prior), ContextDiag(MergeAll(None, rs)))
    ensures ContextDiag(MergeAll(prior, rs)).furthest >= -1
    decreases |rs|
  {
    if rs == [] {
      MergeLaws(ContextDiag(prior), Diag(-1, {}), Diag(-1, {}));
    } else {
      var r0, rest := rs[0], rs[1..];
      assert Sound(rest) by {
        forall k | 0 <= k < |rest|
          ensures rest[k].furthest >= -1
        {
          assert rest[k] == rs[k + 1];
        }
      }
      AggregateDiag(r0, prior);
      AggregateDiag(r0, None);
      MergeAllDiag(Some(r0.Aggregate(prior)), rest);
      MergeAllDiag(Some(r0), rest);
      var p, d0, x := ContextDiag(prior), DiagOf(r0), ContextDiag(MergeAll(None, rest));
      MergeLaws(d0, p, x);
      MergeLaws(p, d0, x);
    }
  }

  /** Merging two runs one after the other is merging their concatenation. */
  lemma {:induction false} MergeAllAppend(prior: Option<Result>, rs: seq<Result>, ts: seq<Result>)
    ensures MergeAll(prior, rs + ts) == MergeAll(MergeAll(prior, rs), ts)
    decreases |rs|
  {
    if rs == [] {
      assert rs + ts == ts;
    } else {
      AppendFirst(rs, ts);
      MergeAllAppend(Some(rs[0].Aggregate(prior)), rs[1..], ts);
    }
  }

  /** How the definitions above take a run apart at its first result. */
  lemma Cons(i: int, r: Result, rest: seq<Result>, prior: Option<Result>, values: seq<Value>)
    ensures ([r] + rest)[0] == r && ([r] + rest)[1..] == rest
    ensures EndOf(i, [r] + rest) == EndOf(r.index, rest)
    ensures values + [r.value] + ValuesOf(rest) == values + ValuesOf([r] + rest)
    ensures MergeAll(prior, [r] + rest) == MergeAll(Some(r.Aggregate(prior)), rest)
  {
    assert ([r] + rest)[1..] == rest;
    assert ValuesOf([r] + rest) == [r.value] + ValuesOf(rest);
  }

  /** Successes one after the other never move backwards. */
  lemma {:induction false} SuccessiveAdvance(rules: Rules, p: Parser, s: string, i: int, rs: seq<Result>)
    requires Successive(rules, p, s, i, rs) && i >= 0
    ensures i <= EndOf(i, rs)
    decreases |rs|
  {
    if rs != [] {
      YieldsSound(rules, p, s, i, rs[0]);
      SuccessiveAdvance(rules, p, s, rs[0].index, rs[1..]);
    }
  }

  /** Where two runs one after the other end, and what they collect. */
  lemma {:induction false} EndOfAppend(i: int, rs: seq<Result>, ts: seq<Result>)
    ensures EndOf(i, rs + ts) == EndOf(EndOf(i, rs), ts)
    ensures ValuesOf(rs + ts) == ValuesOf(rs) + ValuesOf(ts)
    decreases |rs|
  {
    if rs == [] {
      assert rs + ts == ts;
    } else {
      EndOfAppend(rs[0].index, rs[1..], ts);
      AppendFirst(rs, ts);
    }
    ValuesOfAppend(rs, ts);
  }

  /** The values of two runs one after the other. */
  lemma ValuesOfAppend(rs: seq<Result>, ts: seq<Result>)
    ensures ValuesOf(rs + ts) == ValuesOf(rs) + ValuesOf(ts)
  {
    forall k | 0 <= k < |rs + ts|
      ensures ValuesOf(rs + ts)[k] == (ValuesOf(rs) + ValuesOf(ts))[k]
    {
    }
  }

  /** Two runs one after the other make one run. */
  lemma {:induction false} SuccessiveAppend(rules: Rules, p: Parser, s: string, i: int, rs: seq<Result>, ts: seq<Result>)
    requires Successive(rules, p, s, i, rs) && Successive(rules, p, s, EndOf(i, rs), ts)
    ensures Successive(rules, p, s, i, rs + ts)
    decreases |rs|
  {
    if rs == [] {
      assert rs + ts == ts;
    } else {
      SuccessiveTail(rules, p, s, i, rs);
      SuccessiveAppend(rules, p, s, rs[0].index, rs[1..], ts);
      AppendFirst(rs, ts);
    }
  }

  /** A non-empty sequence with another after it starts as it does. */
  lemma AppendFirst<T>(rs: seq<T>, ts: seq<T>)
    requires rs != []
    ensures (rs + ts)[0] == rs[0] && (rs + ts)[1..] == rs[1..] + ts
  {
  }

  /** The results of a run of successes are sound. */
  lemma {:induction false} SuccessiveSound(rules: Rules, p: Parser, s: string, i: int, rs: seq<Result>)
    requires Successive(rules, p, s, i, rs)
    ensures Sound(rs)
    decreases |rs|
  {
    if rs != [] {
      YieldsSound(rules, p, s, i, rs[0]);
      SuccessiveSound(rules, p, s, rs[0].index, rs[1..]);
      forall k | 1 <= k < |rs|
        ensures rs[k].furthest >= -1
      {
        assert rs[k] == rs[1..][k - 1];
      }
    }
  }

  /** A run of successes cut anywhere is two runs, the second starting
      where the first ends. */
  lemma {:induction false} SuccessiveSplit(rules: Rules, p: Parser, s: string, i: int, rs: seq<Result>, k: nat)
    requires Successive(rules, p, s, i, rs) && k <= |rs|
    ensures Successive(rules, p, s, i, rs[..k]) && Successive(rules, p, s, EndOf(i, rs[..k]), rs[k..])
    ensures rs[..k] + rs[k..] == rs
    decreases k
  {
    if k == 0 {
      SplitAt(rs, 0);
    } else {
      SuccessiveTail(rules, p, s, i, rs);
      var rest := rs[1..];
      SuccessiveSplit(rules, p, s, rs[0].index, rest, k - 1);
      SplitAt(rs, k);
      SuccessiveCons(rules, p, s, i, rs[0], rest[..k - 1]);
    }
  }

  /** How a sequence cut at `k` relates to its tail cut at `k - 1`. */
  lemma SplitAt<T>(rs: seq<T>, k: nat)
    requires k <= |rs|
    ensures rs[..k] + rs[k..] == rs
    ensures k == 0 ==> rs[..k] == [] && rs[k..] == rs
    ensures k > 0 ==> rs[..k] == [rs[0]] + rs[1..][..k - 1] && rs[k..] == rs[1..][k - 1..]
  {
  }

  // ---- times ----------------------------------------------------------------

  /** How `times`, entered with `count` items already collected, stops after
      the successes `rs`: `max` allowed each of them, and then either `max`
      is reached (`stop` is None) or the next attempt, made where the
      successes end, fails with `stop`. */
  ghost predicate TimesStops(rules: Rules, p: Parser, s: string, max: Bound, i: int, count: int,
                             rs: seq<Result>, stop: Option<Result>) {
    (rs == [] || max.Allows(count + |rs| - 1))
    && (stop.None? <==> !max.Allows(count + |rs|))
    && (stop.Some? ==> !stop.value.status && Yields(rules, p, s, EndOf(i, rs), stop.value))
  }

  /** What `times` returns after such a run: a success with the items
      collected and the values of the successes, ending where the successes
      end, unless the run stopped on a failure with fewer than `min` items,
      which is then the result. The diagnostics of every attempt are merged
      in, the stopping one last. */
  function TimesOutcome(min: int, i: int, values: seq<Value>, prior: Option<Result>,
                        rs: seq<Result>, stop: Option<Result>): Result {
    var items := values + ValuesOf(rs);
    var context := MergeAll(prior, rs);
    match stop
    case None => Success(EndOf(i, rs), VList(items)).Aggregate(context)
    case Some(failed) =>
      var last := failed.Aggregate(context);
      if |items| >= min then Success(EndOf(i, rs), VList(items)).Aggregate(Some(last)) else last
  }

  /** One more success in front of a run of `times` makes a run of the loop
      entered one round earlier. */
  lemma TimesRunCons(rules: Rules, item: Parser, s: string, max: Bound, index: int, count: int,
                     r0: Result, rest: seq<Result>, stop: Option<Result>)
    requires r0.status && Yields(rules, item, s, index, r0) && max.Allows(count)
    requires Successive(rules, item, s, r0.index, rest)
    requires TimesStops(rules, item, s, max, r0.index, count + 1, rest, stop)
    ensures Successive(rules, item, s, index, [r0] + rest)
    ensures TimesStops(rules, item, s, max, index, count, [r0] + rest, stop)
  {
    Cons(index, r0, rest, None, []);
  }

  /** ... with the same outcome. */
  lemma TimesOutcomeCons(min: int, index: int, values: seq<Value>, prior: Option<Result>,
                         r0: Result, rest: seq<Result>, stop: Option<Result>)
    ensures TimesOutcome(min, r0.index, values + [r0.value], Some(r0.Aggregate(prior)), rest, stop)
         == TimesOutcome(min, index, values, prior, [r0] + rest, stop)
  {
    Cons(index, r0, rest, prior, values);
  }

  /** The run of `times` entered one round later is the rest of the run. */
  lemma TimesRunTail(rules: Rules, item: Parser, s: string, max: Bound, index: int, count: int,
                     rs: seq<Result>, stop: Option<Result>)
    requires rs != [] && Successive(rules, item, s, index, rs) && TimesStops(rules, item, s, max, index, count, rs, stop)
    ensures rs == [rs[0]] + rs[1..] && max.Allows(count)
    ensures Successive(rules, item, s, rs[0].index, rs[1..])
    ensures TimesStops(rules, item, s, max, rs[0].index, count + 1, rs[1..], stop)
  {
    Cons(index, rs[0], rs[1..], None, []);
  }

  /** The run of `times` that stops at once. */
  lemma TimesRunEmpty(min: int, i: int, values: seq<Value>, prior: Option<Result>, stop: Option<Result>)
    ensures TimesOutcome(min, i, values, prior, [], stop)
         == match stop
            case None => Success(i, VList(values)).Aggregate(prior)
            case Some(failed) =>
              var last := failed.Aggregate(prior);
              if |values| >= min then Success(i, VList(values)).Aggregate(Some(last)) else last
  {
    assert values + ValuesOf([]) == values;
  }

  /** A round of the `times` loop in which the item fails ends the loop. */
  lemma TimesLoopFails(rules: Rules, item: Parser, s: string, min: int, max: Bound,
                       index: nat, values: seq<Value>, prior: Option<Result>, fuel: nat)
    returns (r0: Result)
    requires Context(prior) && max.Allows(|values|)
    requires TimesLoop(rules, item, s, min, max, index, values, prior, fuel).Ok?
    ensures fuel > 0 && Run(rules, item, s, index, fuel - 1) == Ok(r0) && Yields(rules, item, s, index, r0)
    ensures !r0.status ==> TimesLoop(rules, item, s, min, max, index, values, prior, fuel).value
                           == TimesOutcome(min, index, values, prior, [], Some(r0))
  {
    r0 := Run(rules, item, s, index, fuel - 1).value;
    TimesRunEmpty(min, index, values, prior, Some(r0));
  }

  /** A success of the item hands the `times` loop over to the next round,
      given enough fuel. */
  lemma TimesLoopAdvance(rules: Rules, item: Parser, s: string, min: int, max: Bound, index: nat,
                         values: seq<Value>, prior: Option<Result>, r0: Result, f1: nat)
    returns (fuel: nat)
    requires Context(prior) && max.Allows(|values|)
    requires r0.status && Yields(rules, item, s, index, r0) && r0.index >= 0
    requires TimesLoop(rules, item, s, min, max, r0.index, values + [r0.value], Some(r0.Aggregate(prior)), f1).Ok?
    ensures TimesLoop(rules, item, s, min, max, index, values, prior, fuel)
         == TimesLoop(rules, item, s, min, max, r0.index, values + [r0.value], Some(r0.Aggregate(prior)), f1)
  {
    YieldsSound(rules, item, s, index, r0);
    var r := r0.Aggregate(prior);
    var f0 := FuelFor(rules, item, s, index, r0, f1);
    fuel := f0 + 1;
    Stability.TimesStable(rules, rules, item, s, min, max, r0.index, values + [r0.value], Some(r), f1, f0);
    Stability.TimesRound(rules, item, s, min, max, index, values, prior, fuel);
  }

  /** Every result of the `times` loop is the outcome of a run. */
  lemma {:induction false} TimesLoopRun(rules: Rules, item: Parser, s: string, min: int, max: Bound,
                                        index: nat, values: seq<Value>, prior: Option<Result>, fuel: nat)
    returns (rs: seq<Result>, stop: Option<Result>)
    requires Context(prior)
    requires TimesLoop(rules, item, s, min, max, index, values, prior, fuel).Ok?
    ensures Successive(rules, item, s, index, rs) && TimesStops(rules, item, s, max, index, |values|, rs, stop)
    ensures TimesLoop(rules, item, s, min, max, index, values, prior, fuel).value
         == TimesOutcome(min, index, values, prior, rs, stop)
    decreases fuel
  {
    if !max.Allows(|values|) {
      rs, stop := [], None;
      TimesRunEmpty(min, index, values, prior, stop);
    } else {
      var r0 := TimesLoopFails(rules, item, s, min, max, index, values, prior, fuel);
      if r0.status {
        var r := r0.Aggregate(prior);
        Stability.TimesRound(rules, item, s, min, max, index, values, prior, fuel);
        var rest, st := TimesLoopRun(rules, item, s, min, max, r.index, values + [r.value], Some(r), fuel - 1);
        TimesLoopJoin(rules, item, s, min, max, index, values, prior, fuel, r0, rest, st);
        rs, stop := [r0] + rest, st;
      } else {
        rs, stop := [], Some(r0);
      }
    }
  }

  /** A round that succeeds, in front of the run of the rest of the loop. */
  lemma TimesLoopJoin(rules: Rules, item: Parser, s: string, min: int, max: Bound, index: nat,
                      values: seq<Value>, prior: Option<Result>, fuel: nat,
                      r0: Result, rest: seq<Result>, st: Option<Result>)
    requires r0.status && Yields(rules, item, s, index, r0) && max.Allows(|values|)
    requires fuel > 0 && Context(prior) && r0.index >= 0 && r0.furthest >= -1
    requires TimesLoop(rules, item, s, min, max, index, values, prior, fuel)
          == TimesLoop(rules, item, s, min, max, r0.index, values + [r0.value], Some(r0.Aggregate(prior)), fuel - 1)
    requires TimesLoop(rules, item, s, min, max, r0.index, values + [r0.value], Some(r0.Aggregate(prior)), fuel - 1).Ok?
    requires Successive(rules, item, s, r0.index, rest)
    requires TimesStops(rules, item, s, max, r0.index, |values + [r0.value]|, rest, st)
    requires TimesLoop(rules, item, s, min, max, r0.index, values + [r0.value], Some(r0.Aggregate(prior)), fuel - 1).value
          == TimesOutcome(min, r0.index, values + [r0.value], Some(r0.Aggregate(prior)), rest, st)
    ensures Successive(rules, item, s, index, [r0] + rest) && TimesStops(rules, item, s, max, index, |values|, [r0] + rest, st)
    ensures TimesLoop(rules, item, s, min, max, index, values, prior, fuel).value
         == TimesOutcome(min, index, values, prior, [r0] + rest, st)
  {
    assert |values + [r0.value]| == |values| + 1;
    TimesRunCons(rules, item, s, max, index, |values|, r0, rest, st);
    TimesOutcomeCons(min, index, values, prior, r0, rest, st);
  }

  /** `times` enters its loop with no items and no diagnostics. */
  lemma TimesEntry(rules: Rules, item: Parser, s: string, min: int, max: Bound, i: nat, fuel: nat)
    ensures Run(rules, Times(item, min, max), s, i, fuel + 1) == TimesLoop(rules, item, s, min, max, i, [], None, fuel)
  {
  }

  /** The round that ends the `times` loop, given enough fuel. */
  lemma TimesLoopEnds(rules: Rules, item: Parser, s: string, min: int, max: Bound, index: nat,
                      values: seq<Value>, prior: Option<Result>, stop: Option<Result>)
    returns (fuel: nat)
    requires Context(prior) && TimesStops(rules, item, s, max, index, |values|, [], stop)
    ensures TimesLoop(rules, item, s, min, max, index, values, prior, fuel)
         == Ok(TimesOutcome(min, index, values, prior, [], stop))
  {
    TimesRunEmpty(min, index, values, prior, stop);
    if stop.None? {
      fuel := 0;
    } else {
      var f := FuelFor(rules, item, s, index, stop.value, 0);
      fuel := f + 1;
    }
  }

  /** Every run is what the `times` loop does, given enough fuel. */
  lemma {:induction false} TimesLoopFrom(rules: Rules, item: Parser, s: string, min: int, max: Bound,
                                         index: nat, values: seq<Value>, prior: Option<Result>,
                                         rs: seq<Result>, stop: Option<Result>)
    returns (fuel: nat)
    requires Context(prior)
    requires Successive(rules, item, s, index, rs) && TimesStops(rules, item, s, max, index, |values|, rs, stop)
    ensures TimesLoop(rules, item, s, min, max, index, values, prior, fuel)
         == Ok(TimesOutcome(min, index, values, prior, rs, stop))
    decreases |rs|
  {
    if rs == [] {
      fuel := TimesLoopEnds(rules, item, s, min, max, index, values, prior, stop);
    } else {
      TimesRunTail(rules, item, s, max, index, |values|, rs, stop);
      var r0, rest := rs[0], rs[1..];
      YieldsSound(rules, item, s, index, r0);
      var r := r0.Aggregate(prior);
      var f1 := TimesLoopFrom(rules, item, s, min, max, r0.index, values + [r0.value], Some(r), rest, stop);
      fuel := TimesLoopFromJoin(rules, item, s, min, max, index, values, prior, r0, rest, stop, f1);
    }
  }

  /** The step of `TimesLoopFrom` that puts the first success back in front. */
  lemma TimesLoopFromJoin(rules: Rules, item: Parser, s: string, min: int, max: Bound, index: nat,
                          values: seq<Value>, prior: Option<Result>, r0: Result, rest: seq<Result>,
                          stop: Option<Result>, f1: nat)
    returns (fuel: nat)
    requires Context(prior) && max.Allows(|values|)
    requires r0.status && Yields(rules, item, s, index, r0) && r0.index >= 0
    requires TimesLoop(rules, item, s, min, max, r0.index, values + [r0.value], Some(r0.Aggregate(prior)), f1)
             == Ok(TimesOutcome(min, r0.index, values + [r0.value], Some(r0.Aggregate(prior)), rest, stop))
    ensures TimesLoop(rules, item, s, min, max, index, values, prior, fuel)
         == Ok(TimesOutcome(min, index, values, prior, [r0] + rest, stop))
  {
    TimesOutcomeCons(min, index, values, prior, r0, rest, stop);
    fuel := TimesLoopAdvance(rules, item, s, min, max, index, values, prior, r0, f1);
  }

  // ---- until ----------------------------------------------------------------

  /** The probe `last`, made with `count` items collected, does not end the
      `until` loop, and `max` allows one more item: the loop goes on to the
      item. */
  predicate UntilGoesOn(min: int, max: Bound, count: int, last: Result) {
    !(last.status && count >= min) && max.Allows(count)
  }

  /** The probes of `other` in a run of `until` entered with `count` items
      collected, the items themselves being the successes `rs`: at the start
      of each round `other` yields `probes[k]` and the loop goes on; where
      the successes end, `other` yields `last`, and when the loop goes on all
      the same, the item fails there with `stop`. */
  ghost predicate UntilProbes(rules: Rules, item: Parser, other: Parser, s: string, min: int, max: Bound,
                              i: int, count: int, rs: seq<Result>, probes: seq<Result>,
                              last: Result, stop: Option<Result>)
    decreases |rs|
  {
    |probes| == |rs|
    && if rs == [] then
         Yields(rules, other, s, i, last)
         && (stop.Some? <==> UntilGoesOn(min, max, count, last))
         && (stop.Some? ==> !stop.value.status && Yields(rules, item, s, i, stop.value))
       else
         Yields(rules, other, s, i, probes[0]) && UntilGoesOn(min, max, count, probes[0])
         && UntilProbes(rules, item, other, s, min, max, rs[0].index, count + 1, rs[1..], probes[1..], last, stop)
  }

  /** The probes of a run of `until`, stated round by round: `other`
      yields `probes[k]` where the `k`-th item starts and the loop goes on
      past it; `other` yields `last` where the items end, and the item is
      tried there, and fails, exactly when the loop goes on past that too. */
  lemma {:induction false} UntilProbesSteps(rules: Rules, item: Parser, other: Parser, s: string, min: int,
                                            max: Bound, i: int, count: int, rs: seq<Result>,
                                            probes: seq<Result>, last: Result, stop: Option<Result>)
    requires UntilProbes(rules, item, other, s, min, max, i, count, rs, probes, last, stop)
    ensures |probes| == |rs|
    ensures forall k :: 0 <= k < |rs| ==>
              Yields(rules, other, s, StartOf(i, rs, k), probes[k]) && UntilGoesOn(min, max, count + k, probes[k])
    ensures Yields(rules, other, s, EndOf(i, rs), last)
    ensures stop.Some? <==> UntilGoesOn(min, max, count + |rs|, last)
    ensures stop.Some? ==> !stop.value.status && Yields(rules, item, s, EndOf(i, rs), stop.value)
    decreases |rs|
  {
    if rs != [] {
      var rest := rs[1..];
      UntilProbesSteps(rules, item, other, s, min, max, rs[0].index, count + 1, rest, probes[1..], last, stop);
      forall k | 1 <= k < |rs|
        ensures probes[k] == probes[1..][k - 1] && StartOf(i, rs, k) == StartOf(rs[0].index, rest, k - 1)
      {
      }
    }
  }

  /** What `until` returns when it ends at `j` with `items`: a success once
      `other` matches with at least `min` items (ending after other's match,
      and collecting its value, when consuming it); otherwise a failure at
      `j`, for too many items, for the item failing, or for too few items. */
  function UntilOutcome(min: int, max: Bound, consume: bool, j: int, items: seq<Value>, last: Result): Result {
    if last.status && |items| >= min then
      if consume then Success(last.index, VList(items + [last.value])) else Success(j, VList(items))
    else if !max.Allows(|items|) then Failure(j, TooMany(max))
    else if |items| >= min then Failure(j, "did not find other parser")
    else Failure(j, TooFew(min, |items|))
  }

  /** One more success in front of a run of successes. */
  lemma SuccessiveCons(rules: Rules, p: Parser, s: string, i: int, r0: Result, rest: seq<Result>)
    requires r0.status && Yields(rules, p, s, i, r0) && Successive(rules, p, s, r0.index, rest)
    ensures Successive(rules, p, s, i, [r0] + rest) && EndOf(i, [r0] + rest) == EndOf(r0.index, rest)
  {
    Cons(i, r0, rest, None, []);
  }

  /** A run of successes taken apart at its first. */
  lemma SuccessiveTail(rules: Rules, p: Parser, s: string, i: int, rs: seq<Result>)
    requires rs != [] && Successive(rules, p, s, i, rs)
    ensures rs == [rs[0]] + rs[1..] && rs[0].status && Yields(rules, p, s, i, rs[0])
    ensures Successive(rules, p, s, rs[0].index, rs[1..]) && EndOf(i, rs) == EndOf(rs[0].index, rs[1..])
  {
  }

  /** One more round that goes on, in front of the probes of a run of
      `until`. */
  lemma UntilProbesCons(rules: Rules, item: Parser, other: Parser, s: string, min: int, max: Bound,
                        i: int, count: int, r0: Result, probe: Result, rest: seq<Result>, probes: seq<Result>,
                        last: Result, stop: Option<Result>)
    requires Yields(rules, other, s, i, probe) && UntilGoesOn(min, max, count, probe)
    requires UntilProbes(rules, item, other, s, min, max, r0.index, count + 1, rest, probes, last, stop)
    ensures UntilProbes(rules, item, other, s, min, max, i, count, [r0] + rest, [probe] + probes, last, stop)
  {
    Cons(i, r0, rest, None, []);
    assert ([probe] + probes)[1..] == probes;
  }

  /** The probe of a round of the `until` loop, and the item's attempt when
      the loop goes on. */
  lemma UntilLoopStep(rules: Rules, item: Parser, other: Parser, s: string, min: int, max: Bound,
                      consume: bool, index: nat, values: seq<Value>, fuel: nat)
    returns (probe: Result, r0: Result)
    requires UntilLoop(rules, item, other, s, min, max, consume, index, values, fuel).Ok?
    ensures fuel > 0 && Run(rules, other, s, index, fuel - 1) == Ok(probe) && Yields(rules, other, s, index, probe)
    ensures UntilGoesOn(min, max, |values|, probe) ==>
              Run(rules, item, s, index, fuel - 1) == Ok(r0) && Yields(rules, item, s, index, r0)
  {
    probe := Run(rules, other, s, index, fuel - 1).value;
    r0 := probe;
    if UntilGoesOn(min, max, |values|, probe) {
      r0 := Run(rules, item, s, index, fuel - 1).value;
    }
  }

  /** A round of the `until` loop that does not go on to a success of the
      item ends the loop with the outcome of the run that stops there. */
  lemma UntilLoopStops(rules: Rules, item: Parser, other: Parser, s: string, min: int, max: Bound,
                       consume: bool, index: nat, values: seq<Value>, fuel: nat, probe: Result, r0: Result)
    returns (stop: Option<Result>)
    requires fuel > 0 && Run(rules, other, s, index, fuel - 1) == Ok(probe) && Yields(rules, other, s, index, probe)
    requires UntilGoesOn(min, max, |values|, probe) ==>
               Run(rules, item, s, index, fuel - 1) == Ok(r0) && Yields(rules, item, s, index, r0) && !r0.status
    ensures UntilProbes(rules, item, other, s, min, max, index, |values|, [], [], probe, stop)
    ensures UntilLoop(rules, item, other, s, min, max, consume, index, values, fuel)
         == Ok(UntilOutcome(min, max, consume, EndOf(index, []), values + ValuesOf([]), probe))
  {
    stop := if UntilGoesOn(min, max, |values|, probe) then Some(r0) else None;
    assert values + ValuesOf([]) == values;
  }

  /** `until` enters its loop with no items. */
  lemma UntilEntry(rules: Rules, item: Parser, other: Parser, s: string, min: int, max: Bound,
                   consume: bool, i: nat, fuel: nat)
    ensures Run(rules, Until(item, other, min, max, consume), s, i, fuel + 1)
         == UntilLoop(rules, item, other, s, min, max, consume, i, [], fuel)
  {
  }

  /** Every result of the `until` loop is the outcome of a run. */
  lemma {:induction false} UntilLoopRun(rules: Rules, item: Parser, other: Parser, s: string, min: int,
                                        max: Bound, consume: bool, index: nat, values: seq<Value>, fuel: nat)
    returns (rs: seq<Result>, probes: seq<Result>, last: Result, stop: Option<Result>)
    requires UntilLoop(rules, item, other, s, min, max, consume, index, values, fuel).Ok?
    ensures Successive(rules, item, s, index, rs)
    ensures UntilProbes(rules, item, other, s, min, max, index, |values|, rs, probes, last, stop)
    ensures UntilLoop(rules, item, other, s, min, max, consume, index, values, fuel).value
         == UntilOutcome(min, max, consume, EndOf(index, rs), values + ValuesOf(rs), last)
    decreases fuel
  {
    var probe, r0 := UntilLoopStep(rules, item, other, s, min, max, consume, index, values, fuel);
    if UntilGoesOn(min, max, |values|, probe) && r0.status {
      Stability.UntilRound(rules, item, other, s, min, max, consume, index, values, fuel, r0);
      YieldsSound(rules, item, s, index, r0);
      var rest, ps, l, st := UntilLoopRun(rules, item, other, s, min, max, consume, r0.index, values + [r0.value], fuel - 1);
      UntilLoopJoin(rules, item, other, s, min, max, consume, index, values, fuel, probe, r0, rest, ps, l, st);
      rs, probes, last, stop := [r0] + rest, [probe] + ps, l, st;
    } else {
      stop := UntilLoopStops(rules, item, other, s, min, max, consume, index, values, fuel, probe, r0);
      rs, probes, last := [], [], probe;
    }
  }

  /** A round that goes on to a success of the item, in front of the run
      of the rest of the loop. */
  lemma UntilLoopJoin(rules: Rules, item: Parser, other: Parser, s: string, min: int, max: Bound,
                      consume: bool, index: nat, values: seq<Value>, fuel: nat, probe: Result, r0: Result,
                      rest: seq<Result>, ps: seq<Result>, l: Result, st: Option<Result>)
    requires fuel > 0 && Yields(rules, other, s, index, probe) && UntilGoesOn(min, max, |values|, probe)
    requires Yields(rules, item, s, index, r0) && r0.status
    requires UntilLoop(rules, item, other, s, min, max, consume, index, values, fuel)
          == UntilLoop(rules, item, other, s, min, max, consume, r0.index, values + [r0.value], fuel - 1)
    requires UntilLoop(rules, item, other, s, min, max, consume, r0.index, values + [r0.value], fuel - 1).Ok?
    requires Successive(rules, item, s, r0.index, rest)
    requires UntilProbes(rules, item, other, s, min, max, r0.index, |values + [r0.value]|, rest, ps, l, st)
    requires UntilLoop(rules, item, other, s, min, max, consume, r0.index, values + [r0.value], fuel - 1).value
          == UntilOutcome(min, max, consume, EndOf(r0.index, rest), values + [r0.value] + ValuesOf(rest), l)
    ensures Successive(rules, item, s, index, [r0] + rest)
    ensures UntilProbes(rules, item, other, s, min, max, index, |values|, [r0] + rest, [probe] + ps, l, st)
    ensures UntilLoop(rules, item, other, s, min, max, consume, index, values, fuel).value
         == UntilOutcome(min, max, consume, EndOf(index, [r0] + rest), values + ValuesOf([r0] + rest), l)
  {
    assert |values + [r0.value]| == |values| + 1;
    SuccessiveCons(rules, item, s, index, r0, rest);
    UntilProbesCons(rules, item, other, s, min, max, index, |values|, r0, probe, rest, ps, l, st);
    Cons(index, r0, rest, None, values);
  }

  /** The round that ends the `until` loop, given enough fuel. */
  lemma UntilLoopEnds(rules: Rules, item: Parser, other: Parser, s: string, min: int, max: Bound,
                      consume: bool, index: nat, values: seq<Value>, last: Result, stop: Option<Result>)
    returns (fuel: nat)
    requires UntilProbes(rules, item, other, s, min, max, index, |values|, [], [], last, stop)
    ensures UntilLoop(rules, item, other, s, min, max, consume, index, values, fuel)
         == Ok(UntilOutcome(min, max, consume, EndOf(index, []), values + ValuesOf([]), last))
  {
    var f0 := FuelFor(rules, other, s, index, last, 0);
    var r0 := last;
    if stop.Some? {
      r0 := stop.value;
      var f1 := FuelFor(rules, item, s, index, stop.value, f0);
      Stability.RunMonotone(rules, other, s, index, f0, f1);
      fuel := f1 + 1;
    } else {
      fuel := f0 + 1;
    }
    var _ := UntilLoopStops(rules, item, other, s, min, max, consume, index, values, fuel, last, r0);
  }

  /** A round that goes on hands the `until` loop over to the next round,
      given enough fuel. */
  lemma UntilLoopAdvance(rules: Rules, item: Parser, other: Parser, s: string, min: int, max: Bound,
                         consume: bool, index: nat, values: seq<Value>, probe: Result, r0: Result, f1: nat)
    returns (fuel: nat)
    requires Yields(rules, other, s, index, probe) && UntilGoesOn(min, max, |values|, probe)
    requires r0.status && Yields(rules, item, s, index, r0) && r0.index >= 0
    requires UntilLoop(rules, item, other, s, min, max, consume, r0.index, values + [r0.value], f1).Ok?
    ensures UntilLoop(rules, item, other, s, min, max, consume, index, values, fuel)
         == UntilLoop(rules, item, other, s, min, max, consume, r0.index, values + [r0.value], f1)
  {
    var fa := FuelFor(rules, other, s, index, probe, f1);
    var fb := FuelFor(rules, item, s, index, r0, fa);
    Stability.RunMonotone(rules, other, s, index, fa, fb);
    fuel := fb + 1;
    Stability.UntilStable(rules, rules, item, other, s, min, max, consume, r0.index, values + [r0.value], f1, fb);
    Stability.UntilRound(rules, item, other, s, min, max, consume, index, values, fuel, r0);
  }

  /** The run of `until` entered one round later is the rest of the run. */
  lemma UntilProbesTail(rules: Rules, item: Parser, other: Parser, s: string, min: int, max: Bound,
                        i: int, count: int, rs: seq<Result>, probes: seq<Result>, last: Result, stop: Option<Result>)
    requires rs != [] && UntilProbes(rules, item, other, s, min, max, i, count, rs, probes, last, stop)
    ensures Yields(rules, other, s, i, probes[0]) && UntilGoesOn(min, max, count, probes[0])
    ensures UntilProbes(rules, item, other, s, min, max, rs[0].index, count + 1, rs[1..], probes[1..], last, stop)
  {
  }

  /** Every run is what the `until` loop does, given enough fuel. */
  lemma {:induction false} UntilLoopFrom(rules: Rules, item: Parser, other: Parser, s: string, min: int,
                                         max: Bound, consume: bool, index: nat, values: seq<Value>,
                                         rs: seq<Result>, probes: seq<Result>, last: Result, stop: Option<Result>)
    returns (fuel: nat)
    requires Successive(rules, item, s, index, rs)
    requires UntilProbes(rules, item, other, s, min, max, index, |values|, rs, probes, last, stop)
    ensures UntilLoop(rules, item, other, s, min, max, consume, index, values, fuel)
         == Ok(UntilOutcome(min, max, consume, EndOf(index, rs), values + ValuesOf(rs), last))
    decreases |rs|
  {
    if rs == [] {
      fuel := UntilLoopEnds(rules, item, other, s, min, max, consume, index, values, last, stop);
    } else {
      SuccessiveTail(rules, item, s, index, rs);
      UntilProbesTail(rules, item, other, s, min, max, index, |values|, rs, probes, last, stop);
      var r0, rest := rs[0], rs[1..];
      YieldsSound(rules, item, s, index, r0);
      var f1 := UntilLoopFrom(rules, item, other, s, min, max, consume, r0.index, values + [r0.value],
                              rest, probes[1..], last, stop);
      Cons(index, r0, rest, None, values);
      fuel := UntilLoopAdvance(rules, item, other, s, min, max, consume, index, values, probes[0], r0, f1);
    }
  }
}
