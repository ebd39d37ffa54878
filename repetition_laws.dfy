/**
 * What the repetition combinators yield: `times` and the parsers built on it
 * (`many`, `at_most`, `at_least`, `optional`, `sep_by`), and `until`.
 */
module RepetitionLaws {
  import opened Results
  import opened Engine
  import opened Combinators
  import opened Legacy
  import opened Semantics
  import opened CombinatorLaws
  import opened PrimitiveLaws
  import opened Runs
  import Stability

  // ---- times ----------------------------------------------------------------

  /** `p.times(min, max)` yields the outcome of a run of `p` from the start
      offset: the successes of `p` one after the other while `max` allows,
      then the attempt that stopped it. It succeeds with the values of those
      successes, in order, ending where the last of them ended, exactly when
      `max` stopped it or at least `min` of them were collected; otherwise
      it fails with the stopping attempt's own failure. The diagnostics of
      every attempt are merged in. */
  lemma TimesLaw(rules: Rules, p: Parser, min: int, max: Bound, s: string, i: int, r: Result)
    returns (rs: seq<Result>, stop: Option<Result>)
    requires Yields(rules, Times(p, min, max), s, i, r)
    ensures Successive(rules, p, s, i, rs) && TimesStops(rules, p, s, max, i, 0, rs, stop)
    ensures r == TimesOutcome(min, i, [], None, rs, stop)
    ensures r.status <==> stop.None? || min <= |rs|
    ensures r.status ==> r.index == EndOf(i, rs) && r.value == VList(ValuesOf(rs))
    ensures !r.status ==> stop.Some? && |rs| < min && r == stop.value.Aggregate(MergeAll(None, rs))
    ensures min <= 0 ==> r.status
  {
    var f := FuelFor(rules, Times(p, min, max), s, i, r, 1);
    TimesEntry(rules, p, s, min, max, i, f - 1);
    rs, stop := TimesLoopRun(rules, p, s, min, max, i, [], None, f - 1);
    assert [] + ValuesOf(rs) == ValuesOf(rs);
  }

  /** Conversely, every run of `p` is what `p.times(min, max)` does. */
  lemma TimesRuns(rules: Rules, p: Parser, min: int, max: Bound, s: string, i: nat,
                  rs: seq<Result>, stop: Option<Result>)
    requires Successive(rules, p, s, i, rs) && TimesStops(rules, p, s, max, i, 0, rs, stop)
    ensures Yields(rules, Times(p, min, max), s, i, TimesOutcome(min, i, [], None, rs, stop))
  {
    var f := TimesLoopFrom(rules, p, s, min, max, i, [], None, rs, stop);
    TimesEntry(rules, p, s, min, max, i, f);
  }

  /** Together: `p.times(min, max)` yields `r` exactly when `r` is the outcome
      of some run of `p`. */
  lemma TimesYieldsRun(rules: Rules, p: Parser, min: int, max: Bound, s: string, i: nat, r: Result)
    ensures Yields(rules, Times(p, min, max), s, i, r)
        <==> exists rs, stop :: Successive(rules, p, s, i, rs) && TimesStops(rules, p, s, max, i, 0, rs, stop)
                                && r == TimesOutcome(min, i, [], None, rs, stop)
  {
    if Yields(rules, Times(p, min, max), s, i, r) {
      var rs, stop := TimesLaw(rules, p, min, max, s, i, r);
    }
    if exists rs, stop :: Successive(rules, p, s, i, rs) && TimesStops(rules, p, s, max, i, 0, rs, stop)
                          && r == TimesOutcome(min, i, [], None, rs, stop) {
      var rs, stop :| Successive(rules, p, s, i, rs) && TimesStops(rules, p, s, max, i, 0, rs, stop)
                      && r == TimesOutcome(min, i, [], None, rs, stop);
      TimesRuns(rules, p, min, max, s, i, rs, stop);
    }
  }

  /** `p.times(n)` succeeds when `p` matches `n` times in a row, collecting
      their values; it fails with the failure of the first attempt that does
      not match. */
  lemma TimesExactly(rules: Rules, p: Parser, n: int, s: string, i: int, r: Result)
    returns (rs: seq<Result>, stop: Option<Result>)
    requires Yields(rules, TimesOf(p, n, None), s, i, r)
    ensures Successive(rules, p, s, i, rs)
    ensures r.status ==> |rs| == (if n < 0 then 0 else n) && r.index == EndOf(i, rs) && r.value == VList(ValuesOf(rs))
    ensures !r.status ==> |rs| < n && stop.Some? && Yields(rules, p, s, EndOf(i, rs), stop.value)
                          && r == stop.value.Aggregate(MergeAll(None, rs))
  {
    rs, stop := TimesLaw(rules, p, n, Finite(n), s, i, r);
  }

  /** `p * n` is `p.times(n)`: exactly `n` matches in a row, or the failure
      of the first attempt that does not match. */
  lemma MulCountLaw(rules: Rules, p: Parser, n: int, s: string, i: int, r: Result)
    returns (rs: seq<Result>, stop: Option<Result>)
    requires Yields(rules, MulCount(p, n), s, i, r)
    ensures Successive(rules, p, s, i, rs)
    ensures r.status ==> |rs| == (if n < 0 then 0 else n) && r.index == EndOf(i, rs) && r.value == VList(ValuesOf(rs))
    ensures !r.status ==> |rs| < n && stop.Some? && Yields(rules, p, s, EndOf(i, rs), stop.value)
                          && r == stop.value.Aggregate(MergeAll(None, rs))
  {
    rs, stop := TimesExactly(rules, p, n, s, i, r);
  }

  /** `p * range(start, stop)` is `p.times(start, stop - 1)`: fewer than
      `stop` matches in a row, as many as `p` gives up to `stop - 1`; it
      fails, with the stopping attempt's failure, only when that attempt
      came before `start` matches. */
  lemma MulRangeLaw(rules: Rules, p: Parser, start: int, stop: int, s: string, i: int, r: Result)
    returns (rs: seq<Result>)
    requires Yields(rules, MulRange(p, start, stop), s, i, r)
    ensures Successive(rules, p, s, i, rs) && (rs == [] || |rs| < stop)
    ensures |rs| < stop - 1 ==> exists last: Result :: !last.status && Yields(rules, p, s, EndOf(i, rs), last)
    ensures r.status <==> stop - 1 <= |rs| || start <= |rs|
    ensures r.status ==> r.index == EndOf(i, rs) && r.value == VList(ValuesOf(rs))
    ensures !r.status ==> exists last: Result :: Yields(rules, p, s, EndOf(i, rs), last)
                                                  && r == last.Aggregate(MergeAll(None, rs))
  {
    var st;
    rs, st := TimesLaw(rules, p, start, Finite(stop - 1), s, i, r);
    if st.Some? {
      assert Yields(rules, p, s, EndOf(i, rs), st.value);
    }
  }

  /** `p.many()` never fails: it collects the values of `p` matched one
      after the other and stops where `p` fails, that failure being the
      furthest it records. */
  lemma ManyNeverFails(rules: Rules, p: Parser, s: string, i: int, r: Result)
    returns (rs: seq<Result>, stop: Result)
    requires Yields(rules, Many(p), s, i, r)
    ensures r.status && Successive(rules, p, s, i, rs)
    ensures r.index == EndOf(i, rs) && r.value == VList(ValuesOf(rs))
    ensures !stop.status && Yields(rules, p, s, r.index, stop)
    ensures r == Success(r.index, r.value).Aggregate(Some(stop.Aggregate(MergeAll(None, rs))))
  {
    var st;
    rs, st := TimesLaw(rules, p, 0, Unbounded, s, i, r);
    stop := st.value;
  }

  /** `p.at_most(n)` never fails: it collects the values of `p` matched one
      after the other, no more than `n`, and stops early only where `p`
      fails. */
  lemma AtMostLaw(rules: Rules, p: Parser, n: int, s: string, i: int, r: Result)
    returns (rs: seq<Result>)
    requires Yields(rules, AtMost(p, n), s, i, r)
    ensures r.status && Successive(rules, p, s, i, rs)
    ensures r.index == EndOf(i, rs) && r.value == VList(ValuesOf(rs))
    ensures |rs| == 0 || |rs| <= n
    ensures |rs| < n ==> exists stop: Result :: !stop.status && Yields(rules, p, s, r.index, stop)
  {
    var stop;
    rs, stop := TimesLaw(rules, p, 0, Finite(n), s, i, r);
  }

  /** `p.at_least(n)` is greedy: when it succeeds it has collected the
      values of at least `n` matches of `p` in a row and `p` fails where it
      stopped; it fails, with the failure of the attempt that did not
      match, only when fewer than `n` matched. */
  lemma AtLeastLaw(rules: Rules, p: Parser, n: int, s: string, i: int, r: Result)
    returns (rs: seq<Result>, stop: Result)
    requires Yields(rules, AtLeast(p, n), s, i, r)
    ensures Successive(rules, p, s, i, rs) && !stop.status && Yields(rules, p, s, EndOf(i, rs), stop)
    ensures r.status <==> n <= |rs|
    ensures r.status ==> r.index == EndOf(i, rs) && r.value == VList(ValuesOf(rs))
    ensures !r.status ==> r == stop.Aggregate(MergeAll(None, rs))
  {
    var st;
    rs, st := TimesLaw(rules, p, n, Unbounded, s, i, r);
    stop := st.value;
  }

  /** src/'s `p.at_least(n)`, `p.times(n)` followed by `p.many()` with the two
      lists added, is greedy too: a success collects the values of at least
      `n` matches of `p` in a row, and `p` fails where it stopped. */
  lemma AtLeastLegacyLaw(rules: Rules, p: Parser, n: int, s: string, i: int, r: Result)
    returns (rs: seq<Result>, stop: Result)
    requires Yields(rules, AtLeastLegacy(p, n), s, i, r)
    ensures r.status ==> Successive(rules, p, s, i, rs) && n <= |rs|
                         && r.index == EndOf(i, rs) && r.value == VList(ValuesOf(rs))
                         && !stop.status && Yields(rules, p, s, r.index, stop)
    ensures n <= 0 ==> r.status
  {
    var both := Both(TimesOf(p, n, None), Many(p));
    var rb := MapInversion(rules, both, SumPair, s, i, r);
    var r1, r2 := BothInversion(rules, TimesOf(p, n, None), Many(p), s, i, rb);
    var rs1, _ := TimesExactly(rules, p, n, s, i, r1);
    rs, stop := rs1, r1;
    if r1.status {
      var rs2, stop2 := ManyNeverFails(rules, p, s, r1.index, r2);
      assert rb.status && rb == BothResult(r1, r2);
      AtLeastLegacyJoin(rules, p, s, i, rs1, rs2);
      rs, stop := rs1 + rs2, stop2;
      assert r.value == SumPair(VTuple([r1.value, r2.value])) == VList(ValuesOf(rs1) + ValuesOf(rs2));
    }
  }

  /** src's `at_least(n)` yields exactly what parsy/'s does: the same
      greedy run, the same values, the same end and the same diagnostics. */
  lemma AtLeastLegacySame(rules: Rules, p: Parser, n: int, s: string, i: nat, r: Result)
    ensures Yields(rules, AtLeastLegacy(p, n), s, i, r) <==> Yields(rules, AtLeast(p, n), s, i, r)
  {
    if Yields(rules, AtLeastLegacy(p, n), s, i, r) {
      AtLeastLegacyTo(rules, p, n, s, i, r);
    }
    if Yields(rules, AtLeast(p, n), s, i, r) {
      var r' := AtLeastLegacyFrom(rules, p, n, s, i, r);
      AtLeastLegacyTo(rules, p, n, s, i, r');
      YieldsUnique(rules, AtLeast(p, n), s, i, r, r');
    }
  }

  /** Whatever src's `at_least(n)` yields, parsy/'s yields too. */
  lemma AtLeastLegacyTo(rules: Rules, p: Parser, n: int, s: string, i: nat, r: Result)
    requires Yields(rules, AtLeastLegacy(p, n), s, i, r)
    ensures Yields(rules, AtLeast(p, n), s, i, r)
  {
    var rb := MapInversion(rules, Both(TimesOf(p, n, None), Many(p)), SumPair, s, i, r);
    var r1, r2 := BothInversion(rules, TimesOf(p, n, None), Many(p), s, i, rb);
    var rs1, stop1 := TimesLaw(rules, p, n, Finite(n), s, i, r1);
    if !r1.status {
      TimesRuns(rules, p, n, Unbounded, s, i, rs1, stop1);
    } else {
      assert stop1.None?;
      AtLeastLegacyToLong(rules, p, n, s, i, rs1, r2, r);
    }
  }

  /** After `times(n)` took the run `rs1`, `many()` takes the rest of one
      greedy run. */
  lemma AtLeastLegacyToLong(rules: Rules, p: Parser, n: int, s: string, i: nat,
                            rs1: seq<Result>, r2: Result, r: Result)
    requires Successive(rules, p, s, i, rs1) && n <= |rs1|
    requires Yields(rules, Many(p), s, EndOf(i, rs1), r2)
    requires var rb := BothResult(TimesOutcome(n, i, [], None, rs1, None), r2);
             r == if rb.status then rb.(value := SumPair(rb.value)) else rb
    ensures Yields(rules, AtLeast(p, n), s, i, r)
  {
    var j := EndOf(i, rs1);
    var rs2, stop2 := TimesLaw(rules, p, 0, Unbounded, s, j, r2);
    YieldsSound(rules, p, s, EndOf(j, rs2), stop2.value);
    SuccessiveSound(rules, p, s, i, rs1);
    SuccessiveSound(rules, p, s, j, rs2);
    AtLeastLegacyOutcome(n, i, rs1, rs2, stop2.value);
    AtLeastLegacyJoin(rules, p, s, i, rs1, rs2);
    TimesRuns(rules, p, n, Unbounded, s, i, rs1 + rs2, stop2);
  }

  /** Whatever parsy/'s `at_least(n)` yields, src's yields something. */
  lemma AtLeastLegacyFrom(rules: Rules, p: Parser, n: int, s: string, i: nat, r: Result)
    returns (r': Result)
    requires Yields(rules, AtLeast(p, n), s, i, r)
    ensures Yields(rules, AtLeastLegacy(p, n), s, i, r')
  {
    var rs, stop := TimesLaw(rules, p, n, Unbounded, s, i, r);
    if |rs| < n {
      r' := AtLeastLegacyFromShort(rules, p, n, s, i, rs, stop);
    } else {
      r' := AtLeastLegacyFromLong(rules, p, n, s, i, rs, stop);
    }
  }

  /** A run of fewer than `n` matches makes src's `times(n)` fail, and the
      pair fails with it. */
  lemma AtLeastLegacyFromShort(rules: Rules, p: Parser, n: int, s: string, i: nat,
                               rs: seq<Result>, stop: Option<Result>)
    returns (r': Result)
    requires Successive(rules, p, s, i, rs) && TimesStops(rules, p, s, Unbounded, i, 0, rs, stop)
    requires |rs| < n
    ensures Yields(rules, AtLeastLegacy(p, n), s, i, r')
  {
    var both := Both(TimesOf(p, n, None), Many(p));
    TimesRuns(rules, p, n, Finite(n), s, i, rs, stop);
    var t1 := TimesOutcome(n, i, [], None, rs, stop);
    BothFirstFails(rules, TimesOf(p, n, None), Many(p), s, i, t1);
    MapLaw(rules, both, SumPair, s, i, t1);
    r' := t1;
  }

  /** A run of at least `n` matches is `times(n)` taking the first `n` and
      `many()` the rest. */
  lemma AtLeastLegacyFromLong(rules: Rules, p: Parser, n: int, s: string, i: nat,
                              rs: seq<Result>, stop: Option<Result>)
    returns (r': Result)
    requires Successive(rules, p, s, i, rs) && TimesStops(rules, p, s, Unbounded, i, 0, rs, stop)
    requires n <= |rs|
    ensures Yields(rules, AtLeastLegacy(p, n), s, i, r')
  {
    var k: nat := if n < 0 then 0 else n;
    SuccessiveSplit(rules, p, s, i, rs, k);
    var t1 := AtLeastLegacyHead(rules, p, n, s, i, rs[..k]);
    EndOfAppend(i, rs[..k], rs[k..]);
    TimesRuns(rules, p, 0, Unbounded, s, t1.index, rs[k..], stop);
    var t2 := TimesOutcome(0, t1.index, [], None, rs[k..], stop);
    var both := Both(TimesOf(p, n, None), Many(p));
    BothSecond(rules, TimesOf(p, n, None), Many(p), s, i, t1, t2);
    var rb := BothResult(t1, t2);
    MapLaw(rules, both, SumPair, s, i, rb);
    r' := if rb.status then rb.(value := SumPair(rb.value)) else rb;
  }

  /** `times(n)` over a run of exactly `n` matches succeeds where the run
      ends. */
  lemma AtLeastLegacyHead(rules: Rules, p: Parser, n: int, s: string, i: nat, rs: seq<Result>)
    returns (t1: Result)
    requires Successive(rules, p, s, i, rs) && |rs| == (if n < 0 then 0 else n)
    ensures Yields(rules, TimesOf(p, n, None), s, i, t1)
    ensures t1.status && t1.index == EndOf(i, rs) && t1.index >= 0
  {
    SuccessiveSound(rules, p, s, i, rs);
    TimesRuns(rules, p, n, Finite(n), s, i, rs, None);
    t1 := TimesOutcome(n, i, [], None, rs, None);
    OutcomeDiag(n, i, rs, None);
    SuccessiveAdvance(rules, p, s, i, rs);
  }

  /** A successful outcome of `times`: the run's values, ending where the
      run ends, carrying what the run and the stopping attempt merge. */
  lemma OutcomeDiag(min: int, j: int, rs: seq<Result>, stop: Option<Result>)
    requires min <= |rs| && Sound(rs) && (stop.Some? ==> stop.value.furthest >= -1)
    ensures var r := TimesOutcome(min, j, [], None, rs, stop);
            r.status && r.index == EndOf(j, rs) && r.value == VList(ValuesOf(rs))
            && DiagOf(r) == if stop.None? then ContextDiag(MergeAll(None, rs))
                            else Merge(DiagOf(stop.value), ContextDiag(MergeAll(None, rs)))
  {
    var c := MergeAll(None, rs);
    MergeAllDiag(None, rs);
    var none, d := Diag(-1, {}), ContextDiag(c);
    var ok := Success(EndOf(j, rs), VList([] + ValuesOf(rs)));
    assert [] + ValuesOf(rs) == ValuesOf(rs);
    if stop.None? {
      AggregateDiag(ok, c);
      MergeLaws(none, d, none);
      MergeLaws(d, none, none);
    } else {
      var last := stop.value.Aggregate(c);
      AggregateDiag(stop.value, c);
      AggregateDiag(ok, Some(last));
      MergeLaws(none, DiagOf(last), none);
      MergeLaws(DiagOf(last), none, none);
    }
  }

  /** src's `times(n) & many()`, once `times(n)` has taken `rs1` and
      `many()` has taken `rs2` and stopped on `stop2`, with the lists added,
      is what `times(n, inf)` returns after the whole run. The diagnostics
      agree because merging is commutative and associative. */
  lemma AtLeastLegacyOutcome(n: int, i: int, rs1: seq<Result>, rs2: seq<Result>, stop2: Result)
    requires n <= |rs1| && Sound(rs1) && Sound(rs2) && stop2.furthest >= -1
    ensures var rb := BothResult(TimesOutcome(n, i, [], None, rs1, None),
                                 TimesOutcome(0, EndOf(i, rs1), [], None, rs2, Some(stop2)));
            rb.status && rb.(value := SumPair(rb.value)) == TimesOutcome(n, i, [], None, rs1 + rs2, Some(stop2))
  {
    var r1 := TimesOutcome(n, i, [], None, rs1, None);
    var r2 := TimesOutcome(0, EndOf(i, rs1), [], None, rs2, Some(stop2));
    var all := TimesOutcome(n, i, [], None, rs1 + rs2, Some(stop2));
    SoundAppend(rs1, rs2);
    OutcomeDiag(n, i, rs1, None);
    OutcomeDiag(0, EndOf(i, rs1), rs2, Some(stop2));
    OutcomeDiag(n, i, rs1 + rs2, Some(stop2));
    EndOfAppend(i, rs1, rs2);
    SplitDiag(rs1, rs2, stop2);
    BothSum(r1, r2, all, ValuesOf(rs1), ValuesOf(rs2));
  }

  /** Two successes with lists, paired by `&` and added, are the success
      with both lists at the second's end, when the diagnostics agree. */
  lemma BothSum(r1: Result, r2: Result, all: Result, a: seq<Value>, b: seq<Value>)
    requires r1.status && r2.status && all.status && r1.furthest >= -1 && r2.furthest >= -1
    requires r1.value == VList(a) && r2.value == VList(b) && all.value == VList(a + b)
    requires r2.index == all.index && Merge(DiagOf(r2), DiagOf(r1)) == DiagOf(all)
    ensures var rb := BothResult(r1, r2); rb.status && rb.(value := SumPair(rb.value)) == all
  {
    AggregateDiag(r2, Some(r1));
    var rb := BothResult(r1, r2);
    SameResult(rb.(value := SumPair(rb.value)), all);
  }

  /** Merging the stopping failure and the second run, and then the first
      run, keeps what merging the failure and the whole run keeps. */
  lemma SplitDiag(rs1: seq<Result>, rs2: seq<Result>, stop2: Result)
    requires Sound(rs1) && Sound(rs2) && stop2.furthest >= -1
    ensures Merge(Merge(DiagOf(stop2), ContextDiag(MergeAll(None, rs2))), ContextDiag(MergeAll(None, rs1)))
         == Merge(DiagOf(stop2), ContextDiag(MergeAll(None, rs1 + rs2)))
  {
    var c1 := MergeAll(None, rs1);
    MergeAllDiag(None, rs1);
    MergeAllAppend(None, rs1, rs2);
    MergeAllDiag(c1, rs2);
    var d1, d2, ds := ContextDiag(c1), ContextDiag(MergeAll(None, rs2)), DiagOf(stop2);
    MergeLaws(ds, d2, d1);
    MergeLaws(d2, d1, Diag(-1, {}));
    MergeLaws(Diag(-1, {}), d1, Diag(-1, {}));
  }

  /** Results that agree field by field are equal. */
  lemma SameResult(a: Result, b: Result)
    requires a.status == b.status && a.index == b.index && a.value == b.value && DiagOf(a) == DiagOf(b)
    ensures a == b
  {
  }

  /** Two sound runs make a sound run. */
  lemma SoundAppend(rs: seq<Result>, ts: seq<Result>)
    requires Sound(rs) && Sound(ts)
    ensures Sound(rs + ts)
  {
    forall k | 0 <= k < |rs + ts|
      ensures (rs + ts)[k].furthest >= -1
    {
      if k >= |rs| {
        assert (rs + ts)[k] == ts[k - |rs|];
      }
    }
  }

  /** The matches of `p.times(n)` followed by those of `p.many()` are one run. */
  lemma AtLeastLegacyJoin(rules: Rules, p: Parser, s: string, i: int, rs1: seq<Result>, rs2: seq<Result>)
    requires Successive(rules, p, s, i, rs1) && Successive(rules, p, s, EndOf(i, rs1), rs2)
    ensures Successive(rules, p, s, i, rs1 + rs2)
    ensures EndOf(i, rs1 + rs2) == EndOf(EndOf(i, rs1), rs2) && ValuesOf(rs1 + rs2) == ValuesOf(rs1) + ValuesOf(rs2)
  {
    SuccessiveAppend(rules, p, s, i, rs1, rs2);
    EndOfAppend(i, rs1, rs2);
  }

  // ---- many over single characters ----------------------------------------

  /** Where the run of characters satisfying `test` from offset `i` ends. */
  function Span(test: char -> bool, s: string, i: nat): (j: nat)
    ensures i <= j && (i <= |s| ==> j <= |s|)
    decreases |s| - i
  {
    if i < |s| && test(s[i]) then Span(test, s, i + 1) else i
  }

  /** The run ends at the first character from `i` that fails `test`, or at
      the end of the stream. */
  lemma {:induction false} SpanSpec(test: char -> bool, s: string, i: nat)
    ensures var j := Span(test, s, i);
            (forall k :: i <= k < j ==> k < |s| && test(s[k]))
            && (j < |s| ==> !test(s[j]))
            && (i < |s| ==> j <= |s|)
    decreases |s| - i
  {
    if i < |s| && test(s[i]) {
      SpanSpec(test, s, i + 1);
    }
  }

  /** The one-character strings `s[i]`, ..., `s[j - 1]`. */
  function Chars(s: string, i: nat, j: nat): (r: seq<Value>)
    requires i <= j <= |s|
    ensures |r| == j - i
    ensures forall k :: 0 <= k < |r| ==> r[k] == VStr([s[i + k]])
  {
    seq(j - i, k requires 0 <= k < j - i => VStr([s[i + k]]))
  }

  /** A merged context that records no failure. */
  predicate Clean(prior: Option<Result>) {
    prior.None? || (prior.value.furthest == -1 && prior.value.expected == {})
  }

  lemma {:induction false} ManyCharsLoop(rules: Rules, test: char -> bool, d: string, s: string,
                                         index: nat, values: seq<Value>, prior: Option<Result>, fuel: nat)
    requires Clean(prior) && index <= |s|
    requires fuel >= Span(test, s, index) - index + 2
    ensures TimesLoop(rules, TestItem(test, d), s, 0, Unbounded, index, values, prior, fuel)
              == Ok(Result(true, Span(test, s, index), VList(values + Chars(s, index, Span(test, s, index))),
                           Span(test, s, index), {d}))
    decreases fuel
  {
    if index < |s| && test(s[index]) {
      var next := ManyCharsStep(rules, test, d, s, index, values, prior, fuel);
      ManyCharsLoop(rules, test, d, s, index + 1, values + [VStr([s[index]])], next, fuel - 1);
    } else {
      ManyCharsStop(rules, test, d, s, index, values, prior, fuel);
    }
  }

  /** One character of the run: the loop moves past it and collects it. */
  lemma ManyCharsStep(rules: Rules, test: char -> bool, d: string, s: string,
                      index: nat, values: seq<Value>, prior: Option<Result>, fuel: nat)
    returns (next: Option<Result>)
    requires Clean(prior) && index < |s| && test(s[index])
    requires fuel >= Span(test, s, index) - index + 2
    ensures Clean(next) && fuel - 1 >= Span(test, s, index + 1) - (index + 1) + 2
    ensures Span(test, s, index + 1) == Span(test, s, index)
    ensures TimesLoop(rules, TestItem(test, d), s, 0, Unbounded, index, values, prior, fuel)
         == TimesLoop(rules, TestItem(test, d), s, 0, Unbounded, index + 1, values + [VStr([s[index]])], next, fuel - 1)
    ensures values + [VStr([s[index]])] + Chars(s, index + 1, Span(test, s, index))
         == values + Chars(s, index, Span(test, s, index))
  {
    var item := TestItem(test, d);
    var r := Success(index + 1, VStr([s[index]]));
    assert Run(rules, item, s, index, fuel - 1) == Ok(r);
    next := Some(r.Aggregate(prior));
    Stability.TimesRound(rules, item, s, 0, Unbounded, index, values, prior, fuel);
    var j := Span(test, s, index);
    SpanSpec(test, s, index);
    assert Chars(s, index, j) == [r.value] + Chars(s, index + 1, j);
  }

  /** The first character outside the run stops the loop, which records
      its failure. */
  lemma ManyCharsStop(rules: Rules, test: char -> bool, d: string, s: string,
                      index: nat, values: seq<Value>, prior: Option<Result>, fuel: nat)
    requires Clean(prior) && index <= |s| && fuel >= 2
    requires !(index < |s| && test(s[index]))
    ensures Span(test, s, index) == index
    ensures TimesLoop(rules, TestItem(test, d), s, 0, Unbounded, index, values, prior, fuel)
         == Ok(Result(true, index, VList(values + Chars(s, index, index)), index, {d}))
  {
    var item := TestItem(test, d);
    assert Run(rules, item, s, index, fuel - 1) == Ok(Failure(index, d));
    var stop := Failure(index, d).Aggregate(prior);
    assert stop == Result(false, -1, VNone, index, {d});
    assert TimesLoop(rules, item, s, 0, Unbounded, index, values, prior, fuel)
        == Ok(Success(index, VList(values)).Aggregate(Some(stop)));
    assert values + Chars(s, index, index) == values;
  }

  /** `test_char(f, d).many()` consumes the run of characters satisfying `f`,
      yields them one by one, and records the failure that stopped it. */
  lemma ManyCharsLaw(rules: Rules, test: char -> bool, d: string, s: string, i: nat)
    requires i <= |s|
    ensures Yields(rules, Many(TestItem(test, d)), s, i,
                   Result(true, Span(test, s, i), VList(Chars(s, i, Span(test, s, i))), Span(test, s, i), {d}))
  {
    var fuel := Span(test, s, i) - i + 3;
    ManyCharsLoop(rules, TestItem(test, d).test, d, s, i, [], None, fuel - 1);
    assert [] + Chars(s, i, Span(test, s, i)) == Chars(s, i, Span(test, s, i));
    assert Run(rules, Many(TestItem(test, d)), s, i, fuel)
        == TimesLoop(rules, TestItem(test, d), s, 0, Unbounded, i, [], None, fuel - 1);
  }

  /** Joining the one-character strings of `s[i..j]` gives `s[i..j]`. */
  lemma {:induction false} JoinChars(s: string, i: nat, j: nat)
    requires i <= j <= |s|
    ensures JoinAll(Chars(s, i, j)) == VStr(s[i..j])
    decreases j - i
  {
    if i < j {
      JoinChars(s, i + 1, j);
      assert Chars(s, i, j)[1..] == Chars(s, i + 1, j);
      assert s[i..j] == [s[i]] + s[i + 1..j];
    }
  }

  /** `test_char(f, d).many().concat()` yields the run of characters
      satisfying `f` as one string. */
  lemma ManyCharsConcat(rules: Rules, test: char -> bool, d: string, s: string, i: nat)
    requires i <= |s|
    ensures Yields(rules, Concat(Many(TestItem(test, d))), s, i,
                   Result(true, Span(test, s, i), VStr(s[i..Span(test, s, i)]), Span(test, s, i), {d}))
  {
    var j := Span(test, s, i);
    ManyCharsLaw(rules, test, d, s, i);
    JoinChars(s, i, j);
    MapLaw(rules, Many(TestItem(test, d)), JoinStrings, s, i,
           Result(true, j, VList(Chars(s, i, j)), j, {d}));
  }

  // ---- optional -------------------------------------------------------------

  /** `p.optional(default)` never fails: it yields p's value where `p`
      succeeds and `default` at the start offset where it fails, keeping p's
      diagnostics either way. */
  lemma OptionalLaw(rules: Rules, p: Parser, default: Value, s: string, i: int, r1: Result)
    requires Yields(rules, p, s, i, r1)
    ensures Yields(rules, Optional(p, default), s, i,
                   Result(true, if r1.status then r1.index else i, if r1.status then r1.value else default,
                          r1.furthest, r1.expected))
  {
    var j := if r1.status then r1.index else i;
    var items := if r1.status then [r1.value] else [];
    AtMostOnce(rules, p, s, i, r1);
    MapLaw(rules, Times(p, 0, Finite(1)), v => if Items(v) != [] then Items(v)[0] else default, s, i,
           Result(true, j, VList(items), r1.furthest, r1.expected));
  }

  /** `p.times(0, 1)` collects p's value when p matches and nothing when it
      fails, succeeding either way with p's diagnostics. */
  lemma AtMostOnce(rules: Rules, p: Parser, s: string, i: int, r1: Result)
    requires Yields(rules, p, s, i, r1)
    ensures Yields(rules, Times(p, 0, Finite(1)), s, i,
                   Result(true, if r1.status then r1.index else i, VList(if r1.status then [r1.value] else []),
                          r1.furthest, r1.expected))
  {
    YieldsSound(rules, p, s, i, r1);
    var f := FuelFor(rules, p, s, i, r1, 0);
    var j := if r1.status then r1.index else i;
    var items := if r1.status then [r1.value] else [];
    var t := Result(true, j, VList(items), r1.furthest, r1.expected);
    SuccessKeepsContext(j, VList(items), r1);
    assert r1.Aggregate(None) == r1;
    if r1.status {
      assert [] + [r1.value] == [r1.value];
      assert TimesLoop(rules, p, s, 0, Finite(1), r1.index, [r1.value], Some(r1), f) == Ok(t);
    }
    assert TimesLoop(rules, p, s, 0, Finite(1), i, [], None, f + 1) == Ok(t);
    assert Run(rules, Times(p, 0, Finite(1)), s, i, f + 2) == Ok(t);
  }

  // ---- sep_by -----------------------------------------------------------------

  /** The bounds `sep_by` promises on the number of items it collects. */
  predicate SepByCount(min: int, max: Bound, count: nat) {
    if count == 0 then min <= 0 || max == Finite(0)
    else (min <= count || !max.Allows(count)) && (count == 1 || max.Allows(count - 1))
  }

  /** A success of `sep >> p` from offset `j`: `sep` matched there and `p`
      matched where it stopped, giving `r` its value and end. */
  ghost predicate SepThenItem(rules: Rules, sep: Parser, p: Parser, s: string, j: int, a: Result, b: Result, r: Result) {
    Yields(rules, sep, s, j, a) && a.status && Yields(rules, p, s, a.index, b) && b.status
    && r.index == b.index && r.value == b.value
  }

  /** Each success in the run `rs` of `sep >> p` from `j` is a separator
      followed by an item. */
  ghost predicate Separated(rules: Rules, sep: Parser, p: Parser, s: string, j: int, rs: seq<Result>)
    decreases |rs|
  {
    rs == []
    || ((exists a, b :: SepThenItem(rules, sep, p, s, j, a, b, rs[0]))
        && Separated(rules, sep, p, s, rs[0].index, rs[1..]))
  }

  lemma {:induction false} SeparatedRun(rules: Rules, sep: Parser, p: Parser, s: string, j: int, rs: seq<Result>)
    requires Successive(rules, Then(sep, p), s, j, rs)
    ensures Separated(rules, sep, p, s, j, rs)
    decreases |rs|
  {
    if rs != [] {
      var a, b := ThenInversion(rules, sep, p, s, j, rs[0]);
      assert SepThenItem(rules, sep, p, s, j, a, b, rs[0]);
      SeparatedRun(rules, sep, p, s, rs[0].index, rs[1..]);
    }
  }

  /** The `p & (sep >> p).times(min - 1, max - 1)` part: `p` at the start
      offset, then a run of `sep >> p` bounded by `max - 1`. It succeeds
      with p's value followed by the run's values, ending where the run
      ends, exactly when `p` matched and the run was stopped by its bound or
      collected at least `min - 1` items; otherwise it fails with p's
      failure or with the failure that stopped the run. */
  lemma SepByBody(rules: Rules, p: Parser, sep: Parser, min: int, max: Bound, s: string, i: int, r: Result)
    returns (first: Result, rs: seq<Result>, stop: Option<Result>)
    requires Yields(rules, Map(Both(p, Times(Then(sep, p), min - 1, max.Pred())), FirstAndRest), s, i, r)
    ensures Yields(rules, p, s, i, first)
    ensures !first.status ==> r == first
    ensures first.status ==> Successive(rules, Then(sep, p), s, first.index, rs)
                             && TimesStops(rules, Then(sep, p), s, max.Pred(), first.index, 0, rs, stop)
    ensures r.status <==> first.status && (stop.None? || min - 1 <= |rs|)
    ensures r.status ==> r.index == EndOf(first.index, rs) && r.value == VList([first.value] + ValuesOf(rs))
    ensures first.status && !r.status ==> r == stop.value.Aggregate(MergeAll(None, rs)).Aggregate(Some(first))
  {
    var tail := Times(Then(sep, p), min - 1, max.Pred());
    var rm := MapInversion(rules, Both(p, tail), FirstAndRest, s, i, r);
    var r2;
    first, r2 := BothInversion(rules, p, tail, s, i, rm);
    rs, stop := [], None;
    if first.status {
      rs, stop := TimesLaw(rules, Then(sep, p), min - 1, max.Pred(), s, first.index, r2);
      SepByJoin(first, r2, rs, r);
    }
  }

  /** How the pair of p's result and the run's result becomes the list. */
  lemma SepByJoin(first: Result, r2: Result, rs: seq<Result>, r: Result)
    requires r2.status ==> r2.value == VList(ValuesOf(rs))
    requires var m := BothResult(first, r2); r == if m.status then m.(value := FirstAndRest(m.value)) else m
    ensures r.status == r2.status && r.index == r2.index
    ensures r.status ==> r.value == VList([first.value] + ValuesOf(rs))
    ensures !r.status ==> r == r2.Aggregate(Some(first))
  {
  }

  /** `p.sep_by(sep, min=, max=)`: with `max` 0 the empty list at the start
      offset; otherwise a success lists p's first value and then the value
      of each further item, each item preceded by a separator, ending where
      the last item ended; the list is empty only through the `min == 0`
      fallback, taken at the start offset when the first `p` fails and
      keeping its diagnostics. It cannot fail when `min` or `max` is 0, and
      it fails only when the first `p` fails or fewer than `min` items
      matched. */
  lemma SepByLaw(rules: Rules, p: Parser, sep: Parser, min: int, max: Bound, s: string, i: int, r: Result)
    returns (first: Result, rs: seq<Result>)
    requires Yields(rules, SepBy(p, sep, min, max), s, i, r)
    ensures max == Finite(0) ==> r == Success(i, VList([]))
    ensures max != Finite(0) ==> Yields(rules, p, s, i, first)
    ensures r.status ==> r.value.VList? && SepByCount(min, max, |r.value.items|)
    ensures r.status && r.value.items != [] ==>
              first.status && Separated(rules, sep, p, s, first.index, rs)
              && r.value == VList([first.value] + ValuesOf(rs)) && r.index == EndOf(first.index, rs)
    ensures r.status && r.value.items == [] && max != Finite(0) ==>
              !first.status && r == Result(true, i, VList([]), first.furthest, first.expected)
    ensures !r.status ==> min != 0 && (!first.status ==> r == first)
                          && (first.status ==> Separated(rules, sep, p, s, first.index, rs) && 1 + |rs| < min)
    ensures min == 0 || max == Finite(0) ==> r.status
  {
    ConstantLaws(rules, VList([]), "", s, i);
    first, rs := r, [];
    if max == Finite(0) {
      YieldsUnique(rules, Succeed(VList([])), s, i, r, Success(i, VList([])));
    } else {
      var res := Map(Both(p, Times(Then(sep, p), min - 1, max.Pred())), FirstAndRest);
      var rb := r;
      if min == 0 {
        var ra, rc := AltInversion(rules, res, Succeed(VList([])), s, i, r);
        rb := ra;
        if !ra.status {
          YieldsUnique(rules, Succeed(VList([])), s, i, rc, Success(i, VList([])));
          SuccessKeepsContext(i, VList([]), ra);
        }
      }
      var stop;
      first, rs, stop := SepByBody(rules, p, sep, min, max, s, i, rb);
      if first.status {
        SeparatedRun(rules, sep, p, s, first.index, rs);
        SepByCountOf(min, max, |rs|, stop.None?, rb.status);
      }
    }
  }

  /** The count of a body that took `n` items after the first, stopped by
      its bound (`stopped`) or not, and succeeded (`ok`) or not. */
  lemma SepByCountOf(min: int, max: Bound, n: nat, stopped: bool, ok: bool)
    requires max != Finite(0)
    requires n == 0 || max.Pred().Allows(n - 1)
    requires stopped <==> !max.Pred().Allows(n)
    requires ok <==> stopped || min - 1 <= n
    ensures ok ==> SepByCount(min, max, 1 + n)
    ensures !ok ==> 1 + n < min
  {
  }

  /** With `min` 0, `sep_by` falls back to the empty list at the start
      offset when the first item fails, keeping that failure's diagnostics. */
  lemma SepByEmpty(rules: Rules, p: Parser, sep: Parser, max: Bound, s: string, i: int, r0: Result)
    requires max != Finite(0)
    requires Yields(rules, p, s, i, r0) && !r0.status
    ensures Yields(rules, SepBy(p, sep, 0, max), s, i, Result(true, i, VList([]), r0.furthest, r0.expected))
  {
    var both := Both(p, Times(Then(sep, p), -1, max.Pred()));
    YieldsSound(rules, p, s, i, r0);
    BothFirstFails(rules, p, Times(Then(sep, p), -1, max.Pred()), s, i, r0);
    MapLaw(rules, both, FirstAndRest, s, i, r0);
    ConstantLaws(rules, VList([]), "", s, i);
    AltSecond(rules, Map(both, FirstAndRest), Succeed(VList([])), s, i, r0, Success(i, VList([])));
    SuccessKeepsContext(i, VList([]), r0);
  }

  /** What `p.times(1)` makes of p's result: its value wrapped in a list. */
  function Once(r0: Result): (r: Result)
    ensures r.status == r0.status && r.index == r0.index
    ensures r.furthest == r0.furthest && r.expected == r0.expected
  {
    if r0.status then r0.(value := VList([r0.value])) else r0
  }

  /** `p.times(1)` yields p's result with its value wrapped in a list. */
  lemma TimesOnce(rules: Rules, p: Parser, s: string, i: int, r0: Result)
    requires Yields(rules, p, s, i, r0)
    ensures Yields(rules, TimesOf(p, 1, None), s, i, Once(r0))
  {
    YieldsSound(rules, p, s, i, r0);
    assert r0.Aggregate(None) == r0;
    if r0.status {
      assert Successive(rules, p, s, i, [r0]) by {
        assert [r0][1..] == [];
      }
      TimesRuns(rules, p, 1, Finite(1), s, i, [r0], None);
      SuccessKeepsContext(r0.index, VList([r0.value]), r0);
      assert [r0][1..] == [];
      assert EndOf(i, [r0]) == r0.index && MergeAll(None, [r0]) == Some(r0);
      assert [] + ValuesOf([r0]) == [r0.value];
      assert TimesOutcome(1, i, [], None, [r0], None) == Once(r0);
    } else {
      TimesRuns(rules, p, 1, Finite(1), s, i, [], Some(r0));
    }
  }

  /** The first item via `times(1)` added to the rest gives the same result
      as the first item put in front of the rest. */
  lemma SepByLegacyJoin(r0: Result, t2: Result)
    requires r0.status && (t2.status ==> t2.value.VList?)
    ensures var m := BothResult(Once(r0), t2);
            var m' := BothResult(r0, t2);
            (if m.status then m.(value := SumPair(m.value)) else m)
            == (if m'.status then m'.(value := FirstAndRest(m'.value)) else m')
  {
  }

  /** The run after the first item yields a list when it succeeds. */
  lemma SepByTailList(rules: Rules, p: Parser, sep: Parser, min: int, max: Bound, s: string, j: int, t2: Result)
    requires Yields(rules, Times(Then(sep, p), min - 1, max.Pred()), s, j, t2)
    ensures t2.status ==> t2.value.VList?
  {
    var rs, stop := TimesLaw(rules, Then(sep, p), min - 1, max.Pred(), s, j, t2);
  }

  /** src's first-item-then-the-rest branch yields what parsy's does. */
  lemma SepByLegacyBodyTo(rules: Rules, p: Parser, sep: Parser, min: int, max: Bound, s: string, i: int, r: Result)
    requires Yields(rules, Map(Both(TimesOf(p, 1, None), Times(Then(sep, p), min - 1, max.Pred())), SumPair), s, i, r)
    ensures Yields(rules, Map(Both(p, Times(Then(sep, p), min - 1, max.Pred())), FirstAndRest), s, i, r)
  {
    var tail := Times(Then(sep, p), min - 1, max.Pred());
    var rm := MapInversion(rules, Both(TimesOf(p, 1, None), tail), SumPair, s, i, r);
    var t1, t2 := BothInversion(rules, TimesOf(p, 1, None), tail, s, i, rm);
    var rs1, stop1 := TimesExactly(rules, p, 1, s, i, t1);
    var r0 := if t1.status then rs1[0] else stop1.value;
    TimesOnce(rules, p, s, i, r0);
    YieldsUnique(rules, TimesOf(p, 1, None), s, i, t1, Once(r0));
    if r0.status {
      SepByTailList(rules, p, sep, min, max, s, r0.index, t2);
      BothSecond(rules, p, tail, s, i, r0, t2);
      SepByLegacyJoin(r0, t2);
      MapLaw(rules, Both(p, tail), FirstAndRest, s, i, BothResult(r0, t2));
    } else {
      BothFirstFails(rules, p, tail, s, i, r0);
      MapLaw(rules, Both(p, tail), FirstAndRest, s, i, r0);
    }
  }

  /** parsy's first-item-then-the-rest branch yields what src's does. */
  lemma SepByLegacyBodyFrom(rules: Rules, p: Parser, sep: Parser, min: int, max: Bound, s: string, i: int, r: Result)
    requires Yields(rules, Map(Both(p, Times(Then(sep, p), min - 1, max.Pred())), FirstAndRest), s, i, r)
    ensures Yields(rules, Map(Both(TimesOf(p, 1, None), Times(Then(sep, p), min - 1, max.Pred())), SumPair), s, i, r)
  {
    var tail := Times(Then(sep, p), min - 1, max.Pred());
    var rm := MapInversion(rules, Both(p, tail), FirstAndRest, s, i, r);
    var r0, t2 := BothInversion(rules, p, tail, s, i, rm);
    TimesOnce(rules, p, s, i, r0);
    if r0.status {
      SepByTailList(rules, p, sep, min, max, s, r0.index, t2);
      BothSecond(rules, TimesOf(p, 1, None), tail, s, i, Once(r0), t2);
      SepByLegacyJoin(r0, t2);
      MapLaw(rules, Both(TimesOf(p, 1, None), tail), SumPair, s, i, BothResult(Once(r0), t2));
    } else {
      BothFirstFails(rules, TimesOf(p, 1, None), tail, s, i, r0);
      MapLaw(rules, Both(TimesOf(p, 1, None), tail), SumPair, s, i, r0);
    }
  }

  /** `p | q` yields the same results for two parsers `p` that do. */
  lemma AltSameFirst(rules: Rules, p1: Parser, p2: Parser, q: Parser, s: string, i: int, r: Result)
    requires forall t :: Yields(rules, p1, s, i, t) ==> Yields(rules, p2, s, i, t)
    requires Yields(rules, Alt(p1, q), s, i, r)
    ensures Yields(rules, Alt(p2, q), s, i, r)
  {
    var ra, rc := AltInversion(rules, p1, q, s, i, r);
    if ra.status {
      AltFirst(rules, p2, q, s, i, ra);
    } else {
      AltSecond(rules, p2, q, s, i, ra, rc);
    }
  }

  /** src's `sep_by`, which takes its first item with `p.times(1)` and adds
      the lists, yields exactly what parsy's does. */
  lemma SepByLegacyLaw(rules: Rules, p: Parser, sep: Parser, min: int, max: Bound, s: string, i: int, r: Result)
    ensures Yields(rules, SepByLegacy(p, sep, min, max), s, i, r) <==> Yields(rules, SepBy(p, sep, min, max), s, i, r)
  {
    if max != Finite(0) {
      var tail := Times(Then(sep, p), min - 1, max.Pred());
      var old_ := Map(Both(TimesOf(p, 1, None), tail), SumPair);
      var new_ := Map(Both(p, tail), FirstAndRest);
      forall t | Yields(rules, old_, s, i, t) ensures Yields(rules, new_, s, i, t) {
        SepByLegacyBodyTo(rules, p, sep, min, max, s, i, t);
      }
      forall t | Yields(rules, new_, s, i, t) ensures Yields(rules, old_, s, i, t) {
        SepByLegacyBodyFrom(rules, p, sep, min, max, s, i, t);
      }
      if min == 0 {
        if Yields(rules, Alt(old_, Succeed(VList([]))), s, i, r) {
          AltSameFirst(rules, old_, new_, Succeed(VList([])), s, i, r);
        }
        if Yields(rules, Alt(new_, Succeed(VList([]))), s, i, r) {
          AltSameFirst(rules, new_, old_, Succeed(VList([])), s, i, r);
        }
      }
    }
  }

  // ---- until --------------------------------------------------------------------

  /** The three ways `until` fails, with the number of items it had
      collected. */
  predicate UntilFailure(min: int, max: Bound, count: int, expected: set<string>) {
    (expected == {TooMany(max)} && !max.Allows(count))
    || (expected == {"did not find other parser"} && min <= count && max.Allows(count))
    || (expected == {TooFew(min, count)} && count < min && max.Allows(count))
  }

  /** `p.until(other, min, max, consume_other)` yields the outcome of a run
      from the start offset: at each round `other` is tried first and, while
      it does not match with at least `min` items collected and `max` allows
      more, `p` is matched and collected. It succeeds exactly when `other`
      matched with at least `min` items, with those items in order (and
      other's value after them, ending where other ended, when consuming
      it), recording no failure; otherwise it fails where the loop stopped
      with one of its three messages. */
  lemma UntilLaw(rules: Rules, p: Parser, other: Parser, min: int, max: Bound, consume: bool,
                 s: string, i: int, r: Result)
    returns (rs: seq<Result>, probes: seq<Result>, last: Result, stop: Option<Result>)
    requires Yields(rules, Until(p, other, min, max, consume), s, i, r)
    ensures Successive(rules, p, s, i, rs) && UntilProbes(rules, p, other, s, min, max, i, 0, rs, probes, last, stop)
    ensures r == UntilOutcome(min, max, consume, EndOf(i, rs), ValuesOf(rs), last)
    ensures r.status <==> last.status && min <= |rs|
    ensures r.status ==> r.index == (if consume then last.index else EndOf(i, rs))
                         && r.value == VList(ValuesOf(rs) + if consume then [last.value] else [])
                         && r.furthest == -1 && r.expected == {}
    ensures !r.status ==> r.index == -1 && r.furthest == EndOf(i, rs) && UntilFailure(min, max, |rs|, r.expected)
  {
    var f := FuelFor(rules, Until(p, other, min, max, consume), s, i, r, 1);
    UntilEntry(rules, p, other, s, min, max, consume, i, f - 1);
    rs, probes, last, stop := UntilLoopRun(rules, p, other, s, min, max, consume, i, [], f - 1);
    assert [] + ValuesOf(rs) == ValuesOf(rs);
    UntilOutcomeCases(min, max, consume, EndOf(i, rs), ValuesOf(rs), last);
  }

  /** What the outcome of a run of `until` amounts to. */
  lemma UntilOutcomeCases(min: int, max: Bound, consume: bool, j: int, items: seq<Value>, last: Result)
    ensures var r := UntilOutcome(min, max, consume, j, items, last);
            (r.status <==> last.status && min <= |items|)
            && (r.status ==> r.index == (if consume then last.index else j)
                             && r.value == VList(items + if consume then [last.value] else [])
                             && r.furthest == -1 && r.expected == {})
            && (!r.status ==> r.index == -1 && r.furthest == j && UntilFailure(min, max, |items|, r.expected))
  {
  }

  /** Conversely, every run of `p` and `other` is what `until` does. */
  lemma UntilRuns(rules: Rules, p: Parser, other: Parser, min: int, max: Bound, consume: bool, s: string, i: nat,
                  rs: seq<Result>, probes: seq<Result>, last: Result, stop: Option<Result>)
    requires Successive(rules, p, s, i, rs) && UntilProbes(rules, p, other, s, min, max, i, 0, rs, probes, last, stop)
    ensures Yields(rules, Until(p, other, min, max, consume), s, i,
                   UntilOutcome(min, max, consume, EndOf(i, rs), ValuesOf(rs), last))
  {
    var none: seq<Value> := [];
    assert |none| == 0 && none + ValuesOf(rs) == ValuesOf(rs);
    var f := UntilLoopFrom(rules, p, other, s, min, max, consume, i, none, rs, probes, last, stop);
    UntilEntry(rules, p, other, s, min, max, consume, i, f);
  }

  /** Together: `until` yields `r` exactly when `r` is the outcome of some
      run. */
  lemma UntilYieldsRun(rules: Rules, p: Parser, other: Parser, min: int, max: Bound, consume: bool,
                       s: string, i: nat, r: Result)
    ensures Yields(rules, Until(p, other, min, max, consume), s, i, r)
        <==> exists rs, probes, last, stop ::
               Successive(rules, p, s, i, rs) && UntilProbes(rules, p, other, s, min, max, i, 0, rs, probes, last, stop)
               && r == UntilOutcome(min, max, consume, EndOf(i, rs), ValuesOf(rs), last)
  {
    if Yields(rules, Until(p, other, min, max, consume), s, i, r) {
      var rs, probes, last, stop := UntilLaw(rules, p, other, min, max, consume, s, i, r);
      assert exists rs, probes, last, stop ::
         Successive(rules, p, s, i, rs) && UntilProbes(rules, p, other, s, min, max, i, 0, rs, probes, last, stop)
         && r == UntilOutcome(min, max, consume, EndOf(i, rs), ValuesOf(rs), last);
    }
    if exists rs, probes, last, stop ::
         Successive(rules, p, s, i, rs) && UntilProbes(rules, p, other, s, min, max, i, 0, rs, probes, last, stop)
         && r == UntilOutcome(min, max, consume, EndOf(i, rs), ValuesOf(rs), last) {
      var rs, probes, last, stop :|
        Successive(rules, p, s, i, rs) && UntilProbes(rules, p, other, s, min, max, i, 0, rs, probes, last, stop)
        && r == UntilOutcome(min, max, consume, EndOf(i, rs), ValuesOf(rs), last);
      UntilRuns(rules, p, other, min, max, consume, s, i, rs, probes, last, stop);
    }
  }

  /** `string(lit)` with any positive fuel. */
  lemma StringRun(rules: Rules, literal: string, s: string, i: nat, fuel: nat)
    requires fuel > 0
    ensures Run(rules, String(literal), s, i, fuel)
         == Ok(if OccursAt(literal, s, i) then Success(i + |literal|, VStr(literal)) else Failure(i, literal))
  {
    SliceIsLiteral(literal, s, i);
  }

  /** `string("s").until(string("x"), min=3)` on "ssx": the other parser
      matches after two items, too early, and the third item is missing. */
  /** The last two rounds of the example: one more "s", then neither. */
  lemma UntilTooFewRest(rules: Rules, s: string)
    requires s == "ssx"
    ensures UntilLoop(rules, String("s"), String("x"), s, 3, Unbounded, false, 1, [VStr("s")], 4)
            == Ok(Failure(2, TooFew(3, 2)))
  {
    var item, other := String("s"), String("x");
    assert s[1..2] == "s" && s[2..3] == "x";
    StringRun(rules, "x", s, 2, 2);
    StringRun(rules, "s", s, 2, 2);
    var vs := [VStr("s"), VStr("s")];
    assert UntilLoop(rules, item, other, s, 3, Unbounded, false, 2, vs, 3) == Ok(Failure(2, TooFew(3, 2)));
    StringRun(rules, "x", s, 1, 3);
    StringRun(rules, "s", s, 1, 3);
    assert [VStr("s")] + [VStr("s")] == vs;
  }

  lemma UntilTooFewExample(rules: Rules, s: string)
    requires s == "ssx"
    ensures Yields(rules, Until(String("s"), String("x"), 3, Unbounded, false), s, 0, Failure(2, TooFew(3, 2)))
  {
    var item, other := String("s"), String("x");
    assert s[0..1] == "s";
    UntilTooFewRest(rules, s);
    StringRun(rules, "x", s, 0, 4);
    StringRun(rules, "s", s, 0, 4);
    assert [] + [VStr("s")] == [VStr("s")];
    assert UntilLoop(rules, item, other, s, 3, Unbounded, false, 0, [], 5) == Ok(Failure(2, TooFew(3, 2)));
    assert Run(rules, Until(item, other, 3, Unbounded, false), s, 0, 6) == Ok(Failure(2, TooFew(3, 2)));
  }
}
