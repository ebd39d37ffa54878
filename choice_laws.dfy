/**
 * `string_from` and `from_enum`: sort the candidates longest first (a
 * stable sort) and chain them with `|`. The laws here are about the chain
 * (`AltAll`), the sort (`LongestFirst`) and, from those, the two parsers:
 * the longest candidate that occurs wins, and when none occurs the failure
 * expects every candidate at the start offset.
 */
module ChoiceLaws {
  import opened Results
  import opened Engine
  import opened Combinators
  import opened Semantics
  import opened CombinatorLaws
  import opened PrimitiveLaws

  // ---- the chain of alternatives -----------------------------------------

  /** The set of the strings in a sequence. */
  function Names(xs: seq<string>): set<string> {
    set x | x in xs
  }

  /** When every alternative fails at `i` expecting its own name, the chain
      fails there expecting all the names. */
  lemma {:induction false} AltAllFails(rules: Rules, ps: seq<Parser>, names: seq<string>, s: string, i: nat)
    requires ps != [] && |names| == |ps|
    requires forall k :: 0 <= k < |ps| ==> Yields(rules, ps[k], s, i, Failure(i, names[k]))
    ensures Yields(rules, AltAll(ps), s, i, Result(false, -1, VNone, i, Names(names)))
  {
    var n := |ps|;
    if n == 1 {
      assert Names(names) == {names[0]};
    } else {
      var front, last := ps[..n - 1], ps[n - 1];
      AltAllFails(rules, front, names[..n - 1], s, i);
      var r1 := Result(false, -1, VNone, i, Names(names[..n - 1]));
      AltSecond(rules, AltAll(front), last, s, i, r1, Failure(i, names[n - 1]));
      assert names == names[..n - 1] + [names[n - 1]];
      assert Names(names) == Names(names[..n - 1]) + {names[n - 1]};
      assert Failure(i, names[n - 1]).Aggregate(Some(r1)) == Result(false, -1, VNone, i, Names(names));
    }
  }

  /** The chain yields the success of the first alternative that succeeds,
      with the failures of the ones before it merged in. */
  lemma {:induction false} AltAllFirst(rules: Rules, ps: seq<Parser>, names: seq<string>, k: nat,
                                       r: Result, s: string, i: nat)
    requires k < |ps| == |names|
    requires forall j :: 0 <= j < k ==> Yields(rules, ps[j], s, i, Failure(i, names[j]))
    requires Yields(rules, ps[k], s, i, r) && r.status
    ensures Yields(rules, AltAll(ps), s, i,
                   if k == 0 then r else r.Aggregate(Some(Result(false, -1, VNone, i, Names(names[..k])))))
  {
    var n := |ps|;
    if n == 1 {
    } else if k == n - 1 {
      AltAllFails(rules, ps[..n - 1], names[..n - 1], s, i);
      AltSecond(rules, AltAll(ps[..n - 1]), ps[n - 1], s, i,
                Result(false, -1, VNone, i, Names(names[..k])), r);
    } else {
      AltAllFirst(rules, ps[..n - 1], names[..n - 1], k, r, s, i);
      assert names[..n - 1][..k] == names[..k];
      var r' := if k == 0 then r else r.Aggregate(Some(Result(false, -1, VNone, i, Names(names[..k]))));
      AltFirst(rules, AltAll(ps[..n - 1]), ps[n - 1], s, i, r');
    }
  }

  // ---- the sort -----------------------------------------------------------

  /** No candidate is longer than one before it. */
  predicate LongestFirstOrder<T>(xs: seq<(string, T)>) {
    forall a, b :: 0 <= a < b < |xs| ==> |xs[a].0| >= |xs[b].0|
  }

  lemma {:induction false} InsertKeepsOrder<T>(x: (string, T), sorted: seq<(string, T)>)
    requires LongestFirstOrder(sorted)
    ensures LongestFirstOrder(InsertByLength(x, sorted))
  {
    if sorted != [] && |sorted[0].0| >= |x.0| {
      InsertKeepsOrder(x, sorted[1..]);
      var rest := InsertByLength(x, sorted[1..]);
      forall b | 0 <= b < |rest|
        ensures |rest[b].0| <= |sorted[0].0|
      {
        assert rest[b] in multiset(rest);
        if rest[b] != x {
          assert rest[b] in multiset(sorted[1..]);
          var j :| 0 <= j < |sorted[1..]| && sorted[1..][j] == rest[b];
          assert sorted[j + 1] == rest[b];
        }
      }
    }
  }

  /** The sort orders the candidates longest first. */
  lemma {:induction false} LongestFirstOrdered<T>(xs: seq<(string, T)>)
    ensures LongestFirstOrder(LongestFirst(xs))
  {
    if xs != [] {
      LongestFirstOrdered(xs[..|xs| - 1]);
      InsertKeepsOrder(xs[|xs| - 1], LongestFirst(xs[..|xs| - 1]));
    }
  }

  /** The candidates whose key has length `n`, in order. */
  function OfLength<T>(n: nat, xs: seq<(string, T)>): seq<(string, T)> {
    if xs == [] then []
    else (if |xs[0].0| == n then [xs[0]] else []) + OfLength(n, xs[1..])
  }

  lemma {:induction false} OfLengthAppend<T>(n: nat, xs: seq<(string, T)>, ys: seq<(string, T)>)
    ensures OfLength(n, xs + ys) == OfLength(n, xs) + OfLength(n, ys)
  {
    if xs != [] {
      assert (xs + ys)[0] == xs[0];
      assert (xs + ys)[1..] == xs[1..] + ys;
      OfLengthAppend(n, xs[1..], ys);
    } else {
      assert xs + ys == ys;
    }
  }

  lemma {:induction false} OfLengthNone<T>(n: nat, xs: seq<(string, T)>)
    requires forall k :: 0 <= k < |xs| ==> |xs[k].0| < n
    ensures OfLength(n, xs) == []
  {
    if xs != [] {
      OfLengthNone(n, xs[1..]);
    }
  }

  /** Inserting `x` puts it after every candidate of its own length. */
  lemma {:induction false} InsertOfLength<T>(n: nat, x: (string, T), sorted: seq<(string, T)>)
    requires LongestFirstOrder(sorted)
    ensures OfLength(n, InsertByLength(x, sorted)) == OfLength(n, sorted) + (if |x.0| == n then [x] else [])
  {
    if sorted == [] {
      assert OfLength(n, [x]) == (if |x.0| == n then [x] else []) + OfLength(n, [x][1..]);
    } else if |sorted[0].0| >= |x.0| {
      var head, tail := sorted[0], sorted[1..];
      assert sorted == [head] + tail;
      assert LongestFirstOrder(tail) by {
        forall a, b | 0 <= a < b < |tail|
          ensures |tail[a].0| >= |tail[b].0|
        {
          assert tail[a] == sorted[a + 1] && tail[b] == sorted[b + 1];
        }
      }
      InsertOfLength(n, x, tail);
      var rest := InsertByLength(x, tail);
      assert InsertByLength(x, sorted) == [head] + rest;
      OfLengthAppend(n, [head], rest);
      OfLengthAppend(n, [head], tail);
    } else {
      assert InsertByLength(x, sorted) == [x] + sorted;
      OfLengthAppend(n, [x], sorted);
      assert OfLength(n, [x]) == (if |x.0| == n then [x] else []) + OfLength(n, [x][1..]);
      if |x.0| == n {
        forall k | 0 <= k < |sorted|
          ensures |sorted[k].0| < n
        {
          assert k == 0 || |sorted[0].0| >= |sorted[k].0|;
        }
        OfLengthNone(n, sorted);
      }
    }
  }

  /** The sort is stable: candidates of equal length keep their order. */
  lemma {:induction false} LongestFirstStable<T>(n: nat, xs: seq<(string, T)>)
    ensures OfLength(n, LongestFirst(xs)) == OfLength(n, xs)
  {
    if xs != [] {
      var front, x := xs[..|xs| - 1], xs[|xs| - 1];
      var sortedFront := LongestFirst(front);
      var own := if |x.0| == n then [x] else [];
      calc {
        OfLength(n, LongestFirst(xs));
        { assert LongestFirst(xs) == InsertByLength(x, sortedFront); }
        OfLength(n, InsertByLength(x, sortedFront));
        { LongestFirstOrdered(front); InsertOfLength(n, x, sortedFront); }
        OfLength(n, sortedFront) + own;
        { LongestFirstStable(n, front); }
        OfLength(n, front) + own;
        { assert OfLength(n, [x]) == own + OfLength(n, [x][1..]); }
        OfLength(n, front) + OfLength(n, [x]);
        { OfLengthAppend(n, front, [x]); assert front + [x] == xs; }
        OfLength(n, xs);
      }
    }
  }

  // ---- a sorted chain of literals -----------------------------------------

  function Keys<T>(cands: seq<(string, T)>): (r: seq<string>)
    ensures |r| == |cands|
    ensures forall k :: 0 <= k < |r| ==> r[k] == cands[k].0
  {
    seq(|cands|, k requires 0 <= k < |cands| => cands[k].0)
  }

  /** `ps[k]` is the candidate `cands[k]`: it succeeds where the key occurs,
      moving past it and yielding the candidate's value, and otherwise fails
      at the offset expecting the key. */
  ghost predicate Behaves(rules: Rules, ps: seq<Parser>, cands: seq<(string, Value)>, transform: string -> string,
                          s: string, i: nat) {
    |ps| == |cands| &&
    forall k :: 0 <= k < |ps| ==>
      Yields(rules, ps[k], s, i,
             if MatchesAt(cands[k].0, transform, s, i) then Success(i + |cands[k].0|, cands[k].1) else Failure(i, cands[k].0))
  }

  lemma {:induction false} FirstMatching(names: seq<string>, transform: string -> string, s: string, i: nat,
                                         from: nat, m: nat) returns (k: nat)
    requires from <= m < |names| && MatchesAt(names[m], transform, s, i)
    requires forall j :: 0 <= j < from ==> !MatchesAt(names[j], transform, s, i)
    ensures k <= m && MatchesAt(names[k], transform, s, i)
    ensures forall j :: 0 <= j < k ==> !MatchesAt(names[j], transform, s, i)
    decreases m - from
  {
    if MatchesAt(names[from], transform, s, i) {
      k := from;
    } else {
      k := FirstMatching(names, transform, s, i, from + 1, m);
    }
  }

  /** With no key occurring, the chain fails expecting every key. */
  lemma ChoiceFails(rules: Rules, ps: seq<Parser>, cands: seq<(string, Value)>, transform: string -> string,
                    s: string, i: nat)
    requires cands != [] && Behaves(rules, ps, cands, transform, s, i)
    requires forall k :: 0 <= k < |cands| ==> !MatchesAt(cands[k].0, transform, s, i)
    ensures Yields(rules, AltAll(ps), s, i, Result(false, -1, VNone, i, Names(Keys(cands))))
  {
    AltAllFails(rules, ps, Keys(cands), s, i);
  }

  /** With the candidates longest first, the first that matches is as
      long as any that matches. */
  lemma FirstMatchLongest(cands: seq<(string, Value)>, transform: string -> string, s: string, i: nat, m: nat)
    returns (k: nat)
    requires m < |cands| && MatchesAt(cands[m].0, transform, s, i) && LongestFirstOrder(cands)
    ensures k < |cands| && MatchesAt(cands[k].0, transform, s, i)
    ensures forall j :: 0 <= j < k ==> !MatchesAt(cands[j].0, transform, s, i)
    ensures forall j :: 0 <= j < |cands| && MatchesAt(cands[j].0, transform, s, i) ==> |cands[j].0| <= |cands[k].0|
  {
    k := FirstMatching(Keys(cands), transform, s, i, 0, m);
  }

  /** With the candidates longest first, the chain yields the value of the
      first candidate that occurs, and no candidate that occurs is longer. */
  lemma ChoiceLongest(rules: Rules, ps: seq<Parser>, cands: seq<(string, Value)>, transform: string -> string,
                      s: string, i: nat, m: nat)
    returns (k: nat, r: Result)
    requires m < |cands| && MatchesAt(cands[m].0, transform, s, i)
    requires Behaves(rules, ps, cands, transform, s, i) && LongestFirstOrder(cands)
    ensures k < |cands| && MatchesAt(cands[k].0, transform, s, i)
    ensures forall j :: 0 <= j < k ==> !MatchesAt(cands[j].0, transform, s, i)
    ensures forall j :: 0 <= j < |cands| && MatchesAt(cands[j].0, transform, s, i) ==> |cands[j].0| <= |cands[k].0|
    ensures Yields(rules, AltAll(ps), s, i, r)
    ensures r.status && r.index == i + |cands[k].0| && r.value == cands[k].1
  {
    var names := Keys(cands);
    k := FirstMatchLongest(cands, transform, s, i, m);
    var hit := Success(i + |cands[k].0|, cands[k].1);
    AltAllFirst(rules, ps, names, k, hit, s, i);
    r := if k == 0 then hit else hit.Aggregate(Some(Result(false, -1, VNone, i, Names(names[..k]))));
  }

  // ---- string_from and from_enum --------------------------------------------

  /** The sorted candidates of `string_from` pair each string with itself. */
  lemma KeyedValues(strings: seq<string>, cands: seq<(string, Value)>)
    requires cands == LongestFirst(Keyed(strings))
    ensures forall k :: 0 <= k < |cands| ==> cands[k].1 == VStr(cands[k].0) && cands[k].0 in strings
  {
    forall k | 0 <= k < |cands|
      ensures cands[k].1 == VStr(cands[k].0) && cands[k].0 in strings
    {
      assert cands[k] in multiset(Keyed(strings));
      var m :| 0 <= m < |strings| && Keyed(strings)[m] == cands[k];
    }
  }

  /** The keys of the sorted candidates are exactly the strings given. */
  lemma KeyedKeys(strings: seq<string>)
    ensures Names(Keys(LongestFirst(Keyed(strings)))) == Names(strings)
  {
    var cands := LongestFirst(Keyed(strings));
    KeyedValues(strings, LongestFirst(Keyed(strings)));
    forall c | c in strings
      ensures c in Keys(cands)
    {
      var m :| 0 <= m < |strings| && strings[m] == c;
      assert Keyed(strings)[m] in multiset(cands);
      var k :| 0 <= k < |cands| && cands[k] == Keyed(strings)[m];
      assert Keys(cands)[k] == c;
    }
  }

  /** The literals of candidates that yield their own key behave as
      those candidates. */
  lemma LiteralsBehave(rules: Rules, cands: seq<(string, Value)>, transform: string -> string, s: string, i: nat)
    requires forall k :: 0 <= k < |cands| ==> cands[k].1 == VStr(cands[k].0)
    ensures Behaves(rules, Literals(cands, transform), cands, transform, s, i)
  {
    var ps := Literals(cands, transform);
    forall k | 0 <= k < |ps|
      ensures Yields(rules, ps[k], s, i,
                     if MatchesAt(cands[k].0, transform, s, i) then Success(i + |cands[k].0|, cands[k].1)
                     else Failure(i, cands[k].0))
    {
      StringTransformLaw(rules, cands[k].0, transform, s, i);
    }
  }

  lemma KeyedBehaves(rules: Rules, strings: seq<string>, transform: string -> string, s: string, i: nat)
    ensures Behaves(rules, Literals(LongestFirst(Keyed(strings)), transform), LongestFirst(Keyed(strings)), transform, s, i)
  {
    KeyedValues(strings, LongestFirst(Keyed(strings)));
    LiteralsBehave(rules, LongestFirst(Keyed(strings)), transform, s, i);
  }

  /** `string_from(*strings)` with no string occurring fails at the offset
      expecting every one of them; with no strings at all it raises. */
  lemma StringFromFails(rules: Rules, strings: seq<string>, transform: string -> string, s: string, i: nat)
    requires forall c :: c in strings ==> !MatchesAt(c, transform, s, i)
    ensures strings == [] ==> StringFrom(strings, transform) == Raised(TypeError(EmptyReduce))
    ensures strings != [] ==> StringFrom(strings, transform).Ok?
    ensures strings != [] ==>
      Yields(rules, StringFrom(strings, transform).value, s, i, Result(false, -1, VNone, i, Names(strings)))
  {
    if strings != [] {
      var cands := LongestFirst(Keyed(strings));
      KeyedBehaves(rules, strings, transform, s, i);
      KeyedKeys(strings);
      KeyedValues(strings, LongestFirst(Keyed(strings)));
      ChoiceFails(rules, Literals(cands, transform), cands, transform, s, i);
    }
  }

  /** When some string matches, `string_from(*strings, transform=)` yields
      the longest string that matches and moves past it, so a longer
      candidate beats its own prefix; among matching strings of that length
      the one given first wins, the sort being stable. */
  lemma StringFromLongest(rules: Rules, strings: seq<string>, transform: string -> string, s: string, i: nat, c: string)
    returns (b: nat, r: Result)
    requires c in strings && MatchesAt(c, transform, s, i)
    ensures StringFrom(strings, transform).Ok? && Yields(rules, StringFrom(strings, transform).value, s, i, r)
    ensures b < |strings| && MatchesAt(strings[b], transform, s, i)
    ensures forall j :: 0 <= j < |strings| && MatchesAt(strings[j], transform, s, i) ==> |strings[j]| <= |strings[b]|
    ensures forall j :: 0 <= j < b && MatchesAt(strings[j], transform, s, i) ==> |strings[j]| < |strings[b]|
    ensures r.status && r.index == i + |strings[b]| && r.value == VStr(strings[b])
  {
    var cands := LongestFirst(Keyed(strings));
    KeyedBehaves(rules, strings, transform, s, i);
    var m :| 0 <= m < |strings| && strings[m] == c;
    b, r := SortedChoice(rules, Literals(cands, transform), Keyed(strings), transform, s, i, m);
  }

  /** Every candidate the sort hands back was given, and every candidate
      given is handed back. */
  lemma LongestFirstSame<T>(xs: seq<(string, T)>)
    ensures forall k :: 0 <= k < |LongestFirst(xs)| ==> LongestFirst(xs)[k] in xs
    ensures forall x :: x in xs ==> x in LongestFirst(xs)
  {
    var ys := LongestFirst(xs);
    forall k | 0 <= k < |ys|
      ensures ys[k] in xs
    {
      assert ys[k] in multiset(xs);
    }
    forall x | x in xs
      ensures x in ys
    {
      assert x in multiset(ys);
    }
  }

  /** `string(key).result(member)` for each candidate behaves as that
      candidate. */
  lemma MembersBehave(rules: Rules, cands: seq<(string, Value)>, transform: string -> string, s: string, i: nat)
    ensures Behaves(rules, Members(cands, transform), cands, transform, s, i)
  {
    var ps := Members(cands, transform);
    forall k | 0 <= k < |ps|
      ensures Yields(rules, ps[k], s, i,
                     if MatchesAt(cands[k].0, transform, s, i) then Success(i + |cands[k].0|, cands[k].1)
                     else Failure(i, cands[k].0))
    {
      var lit := cands[k].0;
      StringTransformLaw(rules, lit, transform, s, i);
      var r1 := if MatchesAt(lit, transform, s, i) then Success(i + |lit|, VStr(lit)) else Failure(i, lit);
      ConstantLaws(rules, cands[k].1, "", s, i + |lit|);
      ThenLaw(rules, Str(lit, transform), Succeed(cands[k].1), s, i, r1, Success(i + |lit|, cands[k].1));
      assert ps[k] == Then(Str(lit, transform), Succeed(cands[k].1));
      assert Success(i + |lit|, cands[k].1).Aggregate(Some(Success(i + |lit|, VStr(lit))))
          == Success(i + |lit|, cands[k].1);
    }
  }

  /** `from_enum(cls)` with no member's value occurring fails at the offset
      expecting every value; an enumeration without members raises. */
  lemma FromEnumFails(rules: Rules, members: seq<(string, Value)>, transform: string -> string, s: string, i: nat)
    requires forall k :: 0 <= k < |members| ==> !MatchesAt(members[k].0, transform, s, i)
    ensures members == [] ==> FromEnum(members, transform) == Raised(TypeError(EmptyReduce))
    ensures members != [] ==> FromEnum(members, transform).Ok?
    ensures members != [] ==>
      Yields(rules, FromEnum(members, transform).value, s, i, Result(false, -1, VNone, i, Names(Keys(members))))
  {
    if members != [] {
      var cands := LongestFirst(members);
      MembersBehave(rules, cands, transform, s, i);
      LongestFirstSame(members);
      forall k | 0 <= k < |cands|
        ensures !MatchesAt(cands[k].0, transform, s, i)
      {
        var j :| 0 <= j < |members| && members[j] == cands[k];
      }
      LongestFirstNames(members);
      ChoiceFails(rules, Members(cands, transform), cands, transform, s, i);
    }
  }

  /** Sorting the members keeps the set of their values. */
  lemma LongestFirstNames<T>(members: seq<(string, T)>)
    ensures Names(Keys(LongestFirst(members))) == Names(Keys(members))
  {
    var cands := LongestFirst(members);
    LongestFirstSame(members);
    forall c | c in Names(Keys(members))
      ensures c in Names(Keys(cands))
    {
      var j :| 0 <= j < |members| && Keys(members)[j] == c;
      assert members[j] in cands;
      var k :| 0 <= k < |cands| && cands[k] == members[j];
      assert Keys(cands)[k] == c;
    }
    forall c | c in Names(Keys(cands))
      ensures c in Names(Keys(members))
    {
      var k :| 0 <= k < |cands| && Keys(cands)[k] == c;
      var j :| 0 <= j < |members| && members[j] == cands[k];
      assert Keys(members)[j] == c;
    }
  }

  /** When some member's value matches, `from_enum(cls, transform)` yields
      the member whose value is the longest that matches, moving past that
      value; among matching values of that length the member defined first
      wins, the sort being stable. */
  lemma FromEnumLongest(rules: Rules, members: seq<(string, Value)>, transform: string -> string, s: string, i: nat,
                        m: nat)
    returns (b: nat, r: Result)
    requires m < |members| && MatchesAt(members[m].0, transform, s, i)
    ensures FromEnum(members, transform).Ok? && Yields(rules, FromEnum(members, transform).value, s, i, r)
    ensures b < |members| && MatchesAt(members[b].0, transform, s, i)
    ensures forall j :: 0 <= j < |members| && MatchesAt(members[j].0, transform, s, i) ==> |members[j].0| <= |members[b].0|
    ensures forall j :: 0 <= j < b && MatchesAt(members[j].0, transform, s, i) ==> |members[j].0| < |members[b].0|
    ensures r.status && r.index == i + |members[b].0| && r.value == members[b].1
  {
    var cands := LongestFirst(members);
    MembersBehave(rules, cands, transform, s, i);
    b, r := SortedChoice(rules, Members(cands, transform), members, transform, s, i, m);
  }

  // ---- which candidate wins -----------------------------------------------

  /** The chain over the candidates sorted longest first yields the value
      of the longest candidate that matches, the first given among those of
      that length. */
  lemma SortedChoice(rules: Rules, ps: seq<Parser>, given: seq<(string, Value)>, transform: string -> string,
                     s: string, i: nat, m: nat)
    returns (b: nat, r: Result)
    requires m < |given| && MatchesAt(given[m].0, transform, s, i)
    requires Behaves(rules, ps, LongestFirst(given), transform, s, i)
    ensures Yields(rules, AltAll(ps), s, i, r)
    ensures b < |given| && MatchesAt(given[b].0, transform, s, i)
    ensures forall j :: 0 <= j < |given| && MatchesAt(given[j].0, transform, s, i) ==> |given[j].0| <= |given[b].0|
    ensures forall j :: 0 <= j < b && MatchesAt(given[j].0, transform, s, i) ==> |given[j].0| < |given[b].0|
    ensures r.status && r.index == i + |given[b].0| && r.value == given[b].1
  {
    var cands := LongestFirst(given);
    var m' := SortedIndexOf(given, m);
    var k;
    k, r := ChoiceLongest(rules, ps, cands, transform, s, i, m');
    b := SortedFirstMatch(given, transform, s, i, k);
  }

  /** Where a candidate sits once the candidates are sorted longest first. */
  lemma SortedIndexOf<T>(given: seq<(string, T)>, m: nat) returns (m': nat)
    requires m < |given|
    ensures m' < |LongestFirst(given)| && LongestFirst(given)[m'] == given[m]
    ensures LongestFirstOrder(LongestFirst(given))
  {
    LongestFirstSame(given);
    LongestFirstOrdered(given);
    assert given[m] in LongestFirst(given);
    m' :| 0 <= m' < |LongestFirst(given)| && LongestFirst(given)[m'] == given[m];
  }

  /** The first match among the sorted candidates, found among the
      candidates as given: it is a longest match, and every match before it
      there is shorter. */
  lemma SortedFirstMatch(given: seq<(string, Value)>, transform: string -> string, s: string, i: nat, k: nat)
    returns (b: nat)
    requires k < |LongestFirst(given)| && MatchesAt(LongestFirst(given)[k].0, transform, s, i)
    requires forall j :: 0 <= j < k ==> !MatchesAt(LongestFirst(given)[j].0, transform, s, i)
    requires forall j :: 0 <= j < |LongestFirst(given)| && MatchesAt(LongestFirst(given)[j].0, transform, s, i)
                         ==> |LongestFirst(given)[j].0| <= |LongestFirst(given)[k].0|
    ensures b < |given| && given[b] == LongestFirst(given)[k] && MatchesAt(given[b].0, transform, s, i)
    ensures forall j :: 0 <= j < |given| && MatchesAt(given[j].0, transform, s, i) ==> |given[j].0| <= |given[b].0|
    ensures forall j :: 0 <= j < b && MatchesAt(given[j].0, transform, s, i) ==> |given[j].0| < |given[b].0|
  {
    var cands := LongestFirst(given);
    var n := |cands[k].0|;
    LongestFirstSame(given);
    FirstMatchOfLength(cands, transform, s, i, k);
    LongestFirstStable(n, given);
    b := FirstMatchIndex(given, transform, s, i, n, cands[k]);
    forall j | 0 <= j < |given| && MatchesAt(given[j].0, transform, s, i)
      ensures |given[j].0| <= n
    {
      assert given[j] in cands;
      var j' :| 0 <= j' < |cands| && cands[j'] == given[j];
    }
  }

  /** The first candidate whose key matches, if any. */
  function FirstMatch(cands: seq<(string, Value)>, transform: string -> string, s: string, i: nat)
    : (x: Option<(string, Value)>)
    ensures x.Some? ==> x.value in cands && MatchesAt(x.value.0, transform, s, i)
  {
    if cands == [] then None
    else if MatchesAt(cands[0].0, transform, s, i) then Some(cands[0])
    else FirstMatch(cands[1..], transform, s, i)
  }

  /** When `cands[k]` is the first candidate that matches, it is also the
      first that matches among the candidates of its length. */
  lemma {:induction false} FirstMatchOfLength(cands: seq<(string, Value)>, transform: string -> string,
                                              s: string, i: nat, k: nat)
    requires k < |cands| && MatchesAt(cands[k].0, transform, s, i)
    requires forall j :: 0 <= j < k ==> !MatchesAt(cands[j].0, transform, s, i)
    ensures FirstMatch(OfLength(|cands[k].0|, cands), transform, s, i) == Some(cands[k])
  {
    var n, head, rest := |cands[k].0|, cands[0], cands[1..];
    assert cands == [head] + rest;
    OfLengthAppend(n, [head], rest);
    assert OfLength(n, [head]) == (if |head.0| == n then [head] else []) + OfLength(n, [head][1..]);
    if k > 0 {
      FirstMatchOfLength(rest, transform, s, i, k - 1);
      if |head.0| == n {
        assert ([head] + OfLength(n, rest))[1..] == OfLength(n, rest);
      } else {
        assert OfLength(n, cands) == OfLength(n, rest);
      }
    }
  }

  /** Where the first match among the candidates of length `n` sits among
      the candidates: it matches, and no candidate of that length before it
      does. */
  lemma {:induction false} FirstMatchIndex(cands: seq<(string, Value)>, transform: string -> string,
                                           s: string, i: nat, n: nat, x: (string, Value))
    returns (b: nat)
    requires FirstMatch(OfLength(n, cands), transform, s, i) == Some(x)
    ensures b < |cands| && cands[b] == x && |x.0| == n && MatchesAt(x.0, transform, s, i)
    ensures forall j :: 0 <= j < b && |cands[j].0| == n ==> !MatchesAt(cands[j].0, transform, s, i)
  {
    var head, rest := cands[0], cands[1..];
    assert cands == [head] + rest;
    OfLengthAppend(n, [head], rest);
    assert OfLength(n, [head]) == (if |head.0| == n then [head] else []) + OfLength(n, [head][1..]);
    if |head.0| == n && MatchesAt(head.0, transform, s, i) {
      b := 0;
    } else {
      if |head.0| == n {
        assert ([head] + OfLength(n, rest))[1..] == OfLength(n, rest);
      } else {
        assert OfLength(n, cands) == OfLength(n, rest);
      }
      var b' := FirstMatchIndex(rest, transform, s, i, n, x);
      b := b' + 1;
      forall j | 1 <= j < b
        ensures cands[j] == rest[j - 1]
      {
      }
    }
  }
}
