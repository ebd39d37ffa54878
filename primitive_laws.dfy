/**
 * What the primitive parsers yield: `string`, `test_char` and the parsers
 * built on it, `eof`, `index`, `line_info`, `success` and `fail`.
 */
module PrimitiveLaws {
  import opened Results
  import Position
  import opened Engine
  import opened Combinators
  import opened Legacy
  import opened Semantics

  /** `literal` occurs in `s` at offset `i` (an empty literal occurs
      everywhere, even past the end, since Python's slice is then empty). */
  predicate OccursAt(literal: string, s: string, i: nat) {
    literal == [] || (i + |literal| <= |s| && s[i..i + |literal|] == literal)
  }

  /** The clamped slice of the literal's length equals the literal exactly
      when the literal occurs there. */
  lemma SliceIsLiteral(literal: string, s: string, i: nat)
    ensures Slice(s, i, i + |literal|) == literal <==> OccursAt(literal, s, i)
  {
    if i + |literal| > |s| && literal != [] {
      assert |Slice(s, i, i + |literal|)| < |literal|;
    }
  }

  /** `string(lit)` succeeds exactly where `lit` occurs, moving past it and
      yielding it; elsewhere it fails at the offset expecting `lit`. */
  lemma StringLaw(rules: Rules, literal: string, s: string, i: nat)
    ensures Yields(rules, String(literal), s, i,
                   if OccursAt(literal, s, i) then Success(i + |literal|, VStr(literal))
                   else Failure(i, literal))
  {
    SliceIsLiteral(literal, s, i);
    assert Run(rules, String(literal), s, i, 1)
        == Ok(if OccursAt(literal, s, i) then Success(i + |literal|, VStr(literal)) else Failure(i, literal));
  }

  /** Whatever the transform, a success of `string(lit, transform)` yields
      the literal itself rather than the text it matched, and moves past as
      many characters as the literal has. */
  lemma StringTransformYieldsLiteral(rules: Rules, literal: string, transform: string -> string,
                                     s: string, i: nat, r: Result)
    requires Yields(rules, Str(literal, transform), s, i, r)
    ensures r.status ==> r.value == VStr(literal) && r.index == i + |literal|
    ensures !r.status ==> r == Failure(i, literal)
  {
    var f := FuelFor(rules, Str(literal, transform), s, i, r, 0);
  }

  /** `string(lit, transform)` matches at offset `i`: the text of the
      literal's length there, transformed, equals the transformed literal. */
  predicate MatchesAt(literal: string, transform: string -> string, s: string, i: nat) {
    transform(Slice(s, i, i + |literal|)) == transform(literal)
  }

  /** Without a transform, matching is occurring. */
  lemma MatchesAtNoop(literal: string, s: string, i: nat)
    ensures MatchesAt(literal, Noop, s, i) <==> OccursAt(literal, s, i)
  {
    SliceIsLiteral(literal, s, i);
  }

  /** `string(lit, transform)` succeeds exactly where it matches, moving
      past as many characters as the literal has and yielding the literal;
      elsewhere it fails at the offset expecting the literal. */
  lemma StringTransformLaw(rules: Rules, literal: string, transform: string -> string, s: string, i: nat)
    ensures Yields(rules, Str(literal, transform), s, i,
                   if MatchesAt(literal, transform, s, i) then Success(i + |literal|, VStr(literal))
                   else Failure(i, literal))
  {
    assert Run(rules, Str(literal, transform), s, i, 1)
        == Ok(if MatchesAt(literal, transform, s, i) then Success(i + |literal|, VStr(literal)) else Failure(i, literal));
  }

  /** ASCII lower-casing, a transform used in the example below. */
  function Lower(t: string): (r: string)
    ensures |r| == |t|
  {
    seq(|t|, k requires 0 <= k < |t| => if 'A' <= t[k] <= 'Z' then (t[k] as int + 32) as char else t[k])
  }

  /** `string("Mr", transform=lower)` reads "MR" and yields "Mr". */
  lemma LowerExample(rules: Rules, s: string)
    requires s == "MR"
    ensures Yields(rules, Str("Mr", Lower), s, 0, Success(2, VStr("Mr")))
  {
    assert Slice(s, 0, 2) == s;
    assert Lower(s) == "mr" == Lower("Mr");
    assert Run(rules, Str("Mr", Lower), s, 0, 1) == Ok(Success(2, VStr("Mr")));
  }

  /** `test_char(f, d)` / `test_item(f, d)` consumes exactly one item on
      which `f` holds, and otherwise fails at the offset expecting `d`. */
  lemma TestItemLaw(rules: Rules, test: char -> bool, description: string, s: string, i: nat)
    ensures Yields(rules, TestItem(test, description), s, i,
                   if i < |s| && test(s[i]) then Success(i + 1, VStr([s[i]])) else Failure(i, description))
  {
    assert Run(rules, TestItem(test, description), s, i, 1)
        == Ok(if i < |s| && test(s[i]) then Success(i + 1, VStr([s[i]])) else Failure(i, description));
  }

  /** `match_char(c)` accepts exactly the one-character string `c`, and
      by default describes itself as `c`; a `c` of any other length never
      matches. */
  lemma MatchCharLaw(rules: Rules, c: string, s: string, i: nat)
    ensures Yields(rules, MatchChar(c, None), s, i,
                   if i < |s| && |c| == 1 && s[i] == c[0] then Success(i + 1, VStr(c)) else Failure(i, c))
  {
    TestItemLaw(rules, x => c == [x], c, s, i);
    assert i < |s| ==> (c == [s[i]] <==> |c| == 1 && s[i] == c[0]);
  }

  /** `match_item(item)` of src/ does the same, described by `str(item)`,
      which is `item` itself for a str. */
  lemma MatchItemLaw(rules: Rules, item: string, s: string, i: nat)
    ensures Yields(rules, MatchItem(item, None), s, i,
                   if i < |s| && |item| == 1 && s[i] == item[0] then Success(i + 1, VStr(item)) else Failure(i, item))
  {
    TestItemLaw(rules, x => item == [x], item, s, i);
    assert i < |s| ==> (item == [s[i]] <==> |item| == 1 && s[i] == item[0]);
  }

  /** `char_from(chars)` accepts one character of `chars`, described as
      `[chars]`. */
  lemma CharFromLaw(rules: Rules, chars: string, s: string, i: nat)
    ensures Yields(rules, CharFrom(chars), s, i,
                   if i < |s| && s[i] in chars then Success(i + 1, VStr([s[i]])) else Failure(i, "[" + chars + "]"))
  {
    TestItemLaw(rules, c => c in chars, "[" + chars + "]", s, i);
  }

  /** `eof` succeeds, consuming nothing, exactly at or past the end. */
  lemma EofLaw(rules: Rules, s: string, i: nat)
    ensures Yields(rules, Eof, s, i, if i >= |s| then Success(i, VNone) else Failure(i, "EOF"))
  {
    assert Run(rules, Eof, s, i, 1) == Ok(if i >= |s| then Success(i, VNone) else Failure(i, "EOF"));
  }

  /** `success(v)`, `fail(e)` and `index` consume nothing. */
  lemma ConstantLaws(rules: Rules, v: Value, e: string, s: string, i: nat)
    ensures Yields(rules, Succeed(v), s, i, Success(i, v))
    ensures Yields(rules, Fail(e), s, i, Failure(i, e))
    ensures Yields(rules, Index, s, i, Success(i, VInt(i)))
  {
    assert Run(rules, Succeed(v), s, i, 1) == Ok(Success(i, v));
    assert Run(rules, Fail(e), s, i, 1) == Ok(Failure(i, e));
    assert Run(rules, Index, s, i, 1) == Ok(Success(i, VInt(i)));
  }

  /** The (line, column) pair of an offset, as `line_info` yields it. */
  function PositionOf(s: string, i: nat): Value
    requires i <= |s|
  {
    var lc := Position.Walk(s[..i]);
    VTuple([VInt(lc.0), VInt(lc.1)])
  }

  /** `line_info` yields the cursor position of the offset without consuming
      anything; past the end it raises. */
  lemma LineInfoLaw(rules: Rules, s: string, i: nat)
    ensures i <= |s| ==> Yields(rules, LineInfo, s, i, Success(i, PositionOf(s, i)))
    ensures i > |s| ==> forall fuel: nat :: fuel > 0 ==>
              Run(rules, LineInfo, s, i, fuel) == Raised(ValueError("invalid index"))
  {
    if i <= |s| {
      Position.LineInfoIsWalk(s, i);
      assert Run(rules, LineInfo, s, i, 1) == Ok(Success(i, PositionOf(s, i)));
    }
  }
}
