/**
 * `forward_declaration`: a placeholder parser that a grammar refers to
 * before the parser it stands for exists, settled once by `become`.
 *
 * Python settles the placeholder by overwriting the object's own state, so
 * every parser already holding it sees the change. The model keeps that
 * state in one place: a `Grammar` owns the map from declaration ids to the
 * parsers they became, and a declaration is the parser `Ref(id)`, which the
 * interpreter looks up in that map each time it runs.
 */
module Declarations {
  import opened Results
  import opened Engine
  import opened Combinators
  import opened Stability
  import opened Semantics

  const NoBecome := "'Parser' object has no attribute 'become'"

  class Grammar {
    /** What each settled declaration became. */
    var rules: Rules
    /** How many declarations exist; their ids are 0 .. declared - 1. */
    var declared: nat

    ghost predicate Valid()
      reads this
    {
      forall k :: k in rules ==> k < declared
    }

    constructor()
      ensures Valid()
      ensures rules == map[] && declared == 0
    {
      rules := map[];
      declared := 0;
    }

    /** `forward_declaration()`: a fresh placeholder, not yet settled. */
    method Declare() returns (d: Parser)
      requires Valid()
      modifies this
      ensures Valid()
      ensures d == Ref(old(declared)) && Unsettled(rules, d)
      ensures declared == old(declared) + 1 && rules == old(rules)
    {
      d := Ref(declared);
      declared := declared + 1;
    }

    /** `Ref(d).become(p)`.
        A declaration that has already become a parser is an ordinary parser
        and has no `become`. Becoming a declaration that is itself still
        unsettled shares that one's empty state, so nothing is settled. Any
        other parser settles the declaration for good. */
    method Become(d: nat, p: Parser) returns (o: Outcome<Parser>)
      requires Valid() && d < declared
      modifies this
      ensures Valid() && declared == old(declared)
      ensures d in old(rules) ==> o == Raised(AttributeError(NoBecome)) && rules == old(rules)
      ensures d !in old(rules) ==> o == Ok(Ref(d))
      ensures d !in old(rules) && Unsettled(old(rules), p) ==> rules == old(rules)
      ensures d !in old(rules) && !Unsettled(old(rules), p) ==> rules == old(rules)[d := p]
      ensures Extends(old(rules), rules)
      ensures d !in old(rules) && !Unsettled(old(rules), p) ==>
                forall s: string, i: nat, r: Result ::
                  Yields(rules, Ref(d), s, i, r) <==> Yields(rules, p, s, i, r)
    {
      if d in rules {
        o := Raised(AttributeError(NoBecome));
      } else {
        if !Unsettled(rules, p) {
          rules := rules[d := p];
          forall s: string, i: nat, r: Result
            ensures Yields(rules, Ref(d), s, i, r) <==> Yields(rules, p, s, i, r)
          {
            RefLaw(rules, d, s, i, r);
          }
        }
        o := Ok(Ref(d));
      }
    }
  }

  /** A settled declaration yields exactly what the parser it became
      yields. */
  lemma RefLaw(rules: Rules, d: nat, s: string, i: nat, r: Result)
    requires d in rules
    ensures Yields(rules, Ref(d), s, i, r) <==> Yields(rules, rules[d], s, i, r)
  {
    if Yields(rules, Ref(d), s, i, r) {
      var f := FuelFor(rules, Ref(d), s, i, r, 1);
      assert Run(rules, rules[d], s, i, f - 1) == Ok(r);
    }
    if Yields(rules, rules[d], s, i, r) {
      var f := FuelFor(rules, rules[d], s, i, r, 0);
      assert Run(rules, Ref(d), s, i, f + 1) == Ok(r);
    }
  }

  /** Calling a declaration that has not become anything raises. */
  lemma RefUnsettled(rules: Rules, d: nat, s: string, i: nat, fuel: nat)
    requires d !in rules && fuel > 0
    ensures Run(rules, Ref(d), s, i, fuel) == Raised(AttributeError(UnsettledCall))
  {
  }

  /** Settling more declarations never changes what a parser already
      yields: a grammar keeps its meaning as its placeholders are filled. */
  lemma SettlingKeepsResults(rules: Rules, rules': Rules, p: Parser, s: string, i: nat, r: Result)
    requires Extends(rules, rules') && Yields(rules, p, s, i, r)
    ensures Yields(rules', p, s, i, r)
  {
    var f := FuelFor(rules, p, s, i, r, 0);
    RunStable(rules, rules', p, s, i, f, f);
  }
}
