/**
 * What a parser returns, independent of the fuel the interpreter is given:
 * `Yields(rules, p, s, i, r)` holds when some amount of fuel lets the run of
 * `p` on `s` at offset `i` finish with the result `r`. Since a finished run
 * does not depend on the fuel, a parser yields at most one result, and laws
 * can be stated about results alone.
 */
module Semantics {
  import opened Results
  import opened Engine
  import opened Stability

  ghost predicate Yields(rules: Rules, p: Parser, s: string, i: int, r: Result) {
    i >= 0 && exists fuel :: Run(rules, p, s, i, fuel) == Ok(r)
  }

  /** Parsing is deterministic: a parser yields at most one result. */
  lemma YieldsUnique(rules: Rules, p: Parser, s: string, i: int, r: Result, r': Result)
    requires Yields(rules, p, s, i, r) && Yields(rules, p, s, i, r')
    ensures r == r'
  {
    var f: nat :| Run(rules, p, s, i, f) == Ok(r);
    var f': nat :| Run(rules, p, s, i, f') == Ok(r');
    if f <= f' {
      RunMonotone(rules, p, s, i, f, f');
    } else {
      RunMonotone(rules, p, s, i, f', f);
    }
  }

  /** A fuel of at least `floor` with which the run yields `r`. */
  lemma FuelFor(rules: Rules, p: Parser, s: string, i: int, r: Result, floor: nat) returns (fuel: nat)
    requires Yields(rules, p, s, i, r)
    ensures i >= 0 && fuel >= floor && Run(rules, p, s, i, fuel) == Ok(r)
  {
    var f: nat :| Run(rules, p, s, i, f) == Ok(r);
    fuel := if f < floor then floor else f;
    RunMonotone(rules, p, s, i, f, fuel);
  }

  /** Every result a parser yields has a failure offset of at least -1, and
      a success ends no earlier than it started. */
  lemma YieldsSound(rules: Rules, p: Parser, s: string, i: int, r: Result)
    requires Yields(rules, p, s, i, r)
    ensures i >= 0 && r.furthest >= -1 && (r.status ==> i <= r.index)
  {
    var f: nat :| Run(rules, p, s, i, f) == Ok(r);
  }
}
