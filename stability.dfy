/**
 * A parse that finished does not depend on the bound the model puts on it,
 * nor on declarations settled later: giving it more fuel, or settling more
 * forward declarations, leaves its outcome unchanged. This is what lets the
 * other laws speak of "enough fuel", and what `become` relies on.
 */
module Stability {
  import opened Results
  import opened Engine

  /** `rules'` keeps every settled declaration of `rules` as it was. */
  ghost predicate Extends(rules: Rules, rules': Rules) {
    forall k :: k in rules ==> k in rules' && rules'[k] == rules[k]
  }

  /** The outcome is the source's own: the run neither ran out of fuel nor
      called a forward declaration that had not become anything. */
  predicate Conclusive<T>(o: Outcome<T>) {
    o.Ok? || (o.error != OutOfFuel && o.error != AttributeError(UnsettledCall))
  }

  lemma {:induction false} RunStable(rules: Rules, rules': Rules, p: Parser, s: string, i: nat, fuel: nat, fuel': nat)
    requires Extends(rules, rules') && fuel <= fuel'
    requires Conclusive(Run(rules, p, s, i, fuel))
    ensures Run(rules', p, s, i, fuel') == Run(rules, p, s, i, fuel)
    decreases fuel, 2
  {
    match p
    case Bind(first, next) =>
      BindStable(rules, rules', first, next, s, i, fuel, fuel');
    case Alt(left, right) =>
      AltStable(rules, rules', left, right, s, i, fuel, fuel');
    case Both(left, right) =>
      BothStable(rules, rules', left, right, s, i, fuel, fuel');
    case Times(item, min, max) =>
      TimesStable(rules, rules', item, s, min, max, i, [], None, fuel - 1, fuel' - 1);
    case Until(item, other, min, max, consume) =>
      UntilStable(rules, rules', item, other, s, min, max, consume, i, [], fuel - 1, fuel' - 1);
    case Desc(_, _) =>
      InnerStable(rules, rules', p, s, i, fuel, fuel');
    case Peek(_) =>
      InnerStable(rules, rules', p, s, i, fuel, fuel');
    case ShouldFail(_, _) =>
      InnerStable(rules, rules', p, s, i, fuel, fuel');
    case Gen(step) =>
      GenStable(rules, rules', step, s, i, [], None, fuel - 1, fuel' - 1);
    case Ref(id) =>
      RunStable(rules, rules', rules[id], s, i, fuel - 1, fuel' - 1);
    case _ =>
  }

  lemma {:induction false} BindStable(rules: Rules, rules': Rules, first: Parser, next: Value -> Parser,
                                      s: string, i: nat, fuel: nat, fuel': nat)
    requires Extends(rules, rules') && fuel <= fuel'
    requires Conclusive(Run(rules, Bind(first, next), s, i, fuel))
    ensures Run(rules', Bind(first, next), s, i, fuel') == Run(rules, Bind(first, next), s, i, fuel)
    decreases fuel, 1
  {
    assert fuel > 0;
    var o := Run(rules, first, s, i, fuel - 1);
    RunStable(rules, rules', first, s, i, fuel - 1, fuel' - 1);
    if o.Ok? && o.value.status {
      BindSecondStable(rules, rules', first, next, s, i, fuel, fuel');
    }
  }

  /** The second half of `bind`, once the first has succeeded. */
  lemma BindSecondStable(rules: Rules, rules': Rules, first: Parser, next: Value -> Parser,
                         s: string, i: nat, fuel: nat, fuel': nat)
    requires Extends(rules, rules') && 0 < fuel <= fuel'
    requires Conclusive(Run(rules, Bind(first, next), s, i, fuel))
    requires Run(rules', first, s, i, fuel' - 1) == Run(rules, first, s, i, fuel - 1)
    requires Run(rules, first, s, i, fuel - 1).Ok? && Run(rules, first, s, i, fuel - 1).value.status
    ensures Run(rules', Bind(first, next), s, i, fuel') == Run(rules, Bind(first, next), s, i, fuel)
    decreases fuel, 0
  {
    var r1 := Run(rules, first, s, i, fuel - 1).value;
    RunStable(rules, rules', next(r1.value), s, r1.index, fuel - 1, fuel' - 1);
  }

  lemma {:induction false} AltStable(rules: Rules, rules': Rules, left: Parser, right: Parser,
                                     s: string, i: nat, fuel: nat, fuel': nat)
    requires Extends(rules, rules') && fuel <= fuel'
    requires Conclusive(Run(rules, Alt(left, right), s, i, fuel))
    ensures Run(rules', Alt(left, right), s, i, fuel') == Run(rules, Alt(left, right), s, i, fuel)
    decreases fuel, 1
  {
    assert fuel > 0;
    var o := Run(rules, left, s, i, fuel - 1);
    RunStable(rules, rules', left, s, i, fuel - 1, fuel' - 1);
    if o.Ok? && !o.value.status {
      AltSecondStable(rules, rules', left, right, s, i, fuel, fuel');
    }
  }

  /** The second alternative of `|`, once the first has failed. */
  lemma AltSecondStable(rules: Rules, rules': Rules, left: Parser, right: Parser,
                        s: string, i: nat, fuel: nat, fuel': nat)
    requires Extends(rules, rules') && 0 < fuel <= fuel'
    requires Conclusive(Run(rules, Alt(left, right), s, i, fuel))
    requires Run(rules', left, s, i, fuel' - 1) == Run(rules, left, s, i, fuel - 1)
    requires Run(rules, left, s, i, fuel - 1).Ok? && !Run(rules, left, s, i, fuel - 1).value.status
    ensures Run(rules', Alt(left, right), s, i, fuel') == Run(rules, Alt(left, right), s, i, fuel)
    decreases fuel, 0
  {
    var r1 := Run(rules, left, s, i, fuel - 1).value;
    var o2 := Run(rules, right, s, i, fuel - 1);
    RunStable(rules, rules', right, s, i, fuel - 1, fuel' - 1);
    assert Run(rules', Alt(left, right), s, i, fuel') == if o2.Ok? then Ok(o2.value.Aggregate(Some(r1))) else o2;
  }

  lemma {:induction false} BothStable(rules: Rules, rules': Rules, left: Parser, right: Parser,
                                      s: string, i: nat, fuel: nat, fuel': nat)
    requires Extends(rules, rules') && fuel <= fuel'
    requires Conclusive(Run(rules, Both(left, right), s, i, fuel))
    ensures Run(rules', Both(left, right), s, i, fuel') == Run(rules, Both(left, right), s, i, fuel)
    decreases fuel, 1
  {
    assert fuel > 0;
    var o := Run(rules, left, s, i, fuel - 1);
    RunStable(rules, rules', left, s, i, fuel - 1, fuel' - 1);
    if o.Ok? && o.value.status {
      BothSecondStable(rules, rules', left, right, s, i, fuel, fuel');
    }
  }

  /** The second half of `&`, once the first has succeeded. */
  lemma BothSecondStable(rules: Rules, rules': Rules, left: Parser, right: Parser,
                         s: string, i: nat, fuel: nat, fuel': nat)
    requires Extends(rules, rules') && 0 < fuel <= fuel'
    requires Conclusive(Run(rules, Both(left, right), s, i, fuel))
    requires Run(rules', left, s, i, fuel' - 1) == Run(rules, left, s, i, fuel - 1)
    requires Run(rules, left, s, i, fuel - 1).Ok? && Run(rules, left, s, i, fuel - 1).value.status
    ensures Run(rules', Both(left, right), s, i, fuel') == Run(rules, Both(left, right), s, i, fuel)
    decreases fuel, 0
  {
    var r1 := Run(rules, left, s, i, fuel - 1).value;
    RunStable(rules, rules', right, s, r1.index, fuel - 1, fuel' - 1);
  }

  /** `desc`, `peek` and `should_fail` run one inner parser at the same offset. */
  lemma {:induction false} InnerStable(rules: Rules, rules': Rules, p: Parser, s: string, i: nat, fuel: nat, fuel': nat)
    requires p.Desc? || p.Peek? || p.ShouldFail?
    requires Extends(rules, rules') && fuel <= fuel'
    requires Conclusive(Run(rules, p, s, i, fuel))
    ensures Run(rules', p, s, i, fuel') == Run(rules, p, s, i, fuel)
    decreases fuel, 1
  {
    RunStable(rules, rules', p.inner, s, i, fuel - 1, fuel' - 1);
  }

  lemma {:induction false} TimesStable(rules: Rules, rules': Rules, item: Parser, s: string, min: int, max: Bound,
                                       index: nat, values: seq<Value>, prior: Option<Result>, fuel: nat, fuel': nat)
    requires Extends(rules, rules') && fuel <= fuel' && Context(prior)
    requires Conclusive(TimesLoop(rules, item, s, min, max, index, values, prior, fuel))
    ensures TimesLoop(rules', item, s, min, max, index, values, prior, fuel')
         == TimesLoop(rules, item, s, min, max, index, values, prior, fuel)
    decreases fuel, 1
  {
    if max.Allows(|values|) {
      TimesItemConclusive(rules, item, s, min, max, index, values, prior, fuel);
      RunStable(rules, rules', item, s, index, fuel - 1, fuel' - 1);
      var o := Run(rules, item, s, index, fuel - 1);
      if o.Ok? && o.value.Aggregate(prior).status {
        var r := o.value.Aggregate(prior);
        TimesRound(rules, item, s, min, max, index, values, prior, fuel);
        TimesRound(rules', item, s, min, max, index, values, prior, fuel');
        TimesStable(rules, rules', item, s, min, max, r.index, values + [r.value], Some(r), fuel - 1, fuel' - 1);
      } else {
        TimesStop(rules, rules', item, s, min, max, index, values, prior, fuel, fuel');
      }
    }
  }

  lemma TimesItemConclusive(rules: Rules, item: Parser, s: string, min: int, max: Bound,
                            index: nat, values: seq<Value>, prior: Option<Result>, fuel: nat)
    requires Context(prior) && max.Allows(|values|)
    requires Conclusive(TimesLoop(rules, item, s, min, max, index, values, prior, fuel))
    ensures fuel > 0 && Conclusive(Run(rules, item, s, index, fuel - 1))
  {
  }

  /** A round of `times` whose item matched hands over to the next round. */
  lemma TimesRound(rules: Rules, item: Parser, s: string, min: int, max: Bound,
                   index: nat, values: seq<Value>, prior: Option<Result>, fuel: nat)
    requires Context(prior) && max.Allows(|values|) && fuel > 0
    requires Run(rules, item, s, index, fuel - 1).Ok?
    requires Run(rules, item, s, index, fuel - 1).value.Aggregate(prior).status
    ensures var r := Run(rules, item, s, index, fuel - 1).value.Aggregate(prior);
            TimesLoop(rules, item, s, min, max, index, values, prior, fuel)
            == TimesLoop(rules, item, s, min, max, r.index, values + [r.value], Some(r), fuel - 1)
  {
  }

  /** A round of `times` that ends the loop ends it the same way wherever the
      item produces the same outcome. */
  lemma TimesStop(rules: Rules, rules': Rules, item: Parser, s: string, min: int, max: Bound,
                  index: nat, values: seq<Value>, prior: Option<Result>, fuel: nat, fuel': nat)
    requires Context(prior) && max.Allows(|values|) && 0 < fuel <= fuel'
    requires Run(rules', item, s, index, fuel' - 1) == Run(rules, item, s, index, fuel - 1)
    requires var o := Run(rules, item, s, index, fuel - 1);
             !(o.Ok? && o.value.Aggregate(prior).status)
    ensures TimesLoop(rules', item, s, min, max, index, values, prior, fuel')
         == TimesLoop(rules, item, s, min, max, index, values, prior, fuel)
  {
  }

  lemma {:induction false} UntilStable(rules: Rules, rules': Rules, item: Parser, other: Parser, s: string,
                                       min: int, max: Bound, consume: bool,
                                       index: nat, values: seq<Value>, fuel: nat, fuel': nat)
    requires Extends(rules, rules') && fuel <= fuel'
    requires Conclusive(UntilLoop(rules, item, other, s, min, max, consume, index, values, fuel))
    ensures UntilLoop(rules', item, other, s, min, max, consume, index, values, fuel')
         == UntilLoop(rules, item, other, s, min, max, consume, index, values, fuel)
    decreases fuel, 1
  {
    UntilProbeConclusive(rules, item, other, s, min, max, consume, index, values, fuel);
    RunStable(rules, rules', other, s, index, fuel - 1, fuel' - 1);
    var probe := Run(rules, other, s, index, fuel - 1);
    if probe.Ok? && !(probe.value.status && |values| >= min) && max.Allows(|values|) {
      UntilItemConclusive(rules, item, other, s, min, max, consume, index, values, fuel);
      RunStable(rules, rules', item, s, index, fuel - 1, fuel' - 1);
      var o := Run(rules, item, s, index, fuel - 1);
      if o.Ok? && o.value.status {
        UntilRounds(rules, rules', item, other, s, min, max, consume, index, values, fuel, fuel', o.value);
        UntilAdvance(rules, rules', item, other, s, min, max, consume, index, values, fuel, fuel', o.value);
      } else {
        UntilStop(rules, rules', item, other, s, min, max, consume, index, values, fuel, fuel');
      }
    } else {
      UntilStop(rules, rules', item, other, s, min, max, consume, index, values, fuel, fuel');
    }
  }

  lemma UntilProbeConclusive(rules: Rules, item: Parser, other: Parser, s: string, min: int, max: Bound,
                             consume: bool, index: nat, values: seq<Value>, fuel: nat)
    requires Conclusive(UntilLoop(rules, item, other, s, min, max, consume, index, values, fuel))
    ensures fuel > 0 && Conclusive(Run(rules, other, s, index, fuel - 1))
  {
  }

  lemma UntilItemConclusive(rules: Rules, item: Parser, other: Parser, s: string, min: int, max: Bound,
                            consume: bool, index: nat, values: seq<Value>, fuel: nat)
    requires fuel > 0
    requires Conclusive(UntilLoop(rules, item, other, s, min, max, consume, index, values, fuel))
    requires Run(rules, other, s, index, fuel - 1).Ok?
    requires !(Run(rules, other, s, index, fuel - 1).value.status && |values| >= min) && max.Allows(|values|)
    ensures Conclusive(Run(rules, item, s, index, fuel - 1))
  {
  }

  /** A round of `until` whose probe did not stop it and whose item matched
      hands over to the next round. */
  lemma UntilRound(rules: Rules, item: Parser, other: Parser, s: string, min: int, max: Bound,
                   consume: bool, index: nat, values: seq<Value>, fuel: nat, r: Result)
    requires fuel > 0
    requires Run(rules, other, s, index, fuel - 1).Ok?
    requires !(Run(rules, other, s, index, fuel - 1).value.status && |values| >= min) && max.Allows(|values|)
    requires Run(rules, item, s, index, fuel - 1) == Ok(r) && r.status
    ensures UntilLoop(rules, item, other, s, min, max, consume, index, values, fuel)
            == UntilLoop(rules, item, other, s, min, max, consume, r.index, values + [r.value], fuel - 1)
  {
  }

  /** A round that goes on under `rules` goes on the same way under `rules'`. */
  lemma UntilRounds(rules: Rules, rules': Rules, item: Parser, other: Parser, s: string, min: int, max: Bound,
                    consume: bool, index: nat, values: seq<Value>, fuel: nat, fuel': nat, r: Result)
    requires 0 < fuel <= fuel'
    requires Run(rules', other, s, index, fuel' - 1) == Run(rules, other, s, index, fuel - 1)
    requires Run(rules, other, s, index, fuel - 1).Ok?
    requires !(Run(rules, other, s, index, fuel - 1).value.status && |values| >= min) && max.Allows(|values|)
    requires Run(rules', item, s, index, fuel' - 1) == Run(rules, item, s, index, fuel - 1)
    requires Run(rules, item, s, index, fuel - 1) == Ok(r) && r.status
    ensures UntilLoop(rules, item, other, s, min, max, consume, index, values, fuel)
            == UntilLoop(rules, item, other, s, min, max, consume, r.index, values + [r.value], fuel - 1)
    ensures UntilLoop(rules', item, other, s, min, max, consume, index, values, fuel')
            == UntilLoop(rules', item, other, s, min, max, consume, r.index, values + [r.value], fuel' - 1)
  {
    UntilRound(rules, item, other, s, min, max, consume, index, values, fuel, r);
    UntilRound(rules', item, other, s, min, max, consume, index, values, fuel', r);
  }

  lemma {:induction false} UntilAdvance(rules: Rules, rules': Rules, item: Parser, other: Parser, s: string,
                                        min: int, max: Bound, consume: bool,
                                        index: nat, values: seq<Value>, fuel: nat, fuel': nat, r: Result)
    requires Extends(rules, rules') && 0 < fuel <= fuel' && r.index >= 0
    requires Conclusive(UntilLoop(rules, item, other, s, min, max, consume, index, values, fuel))
    requires UntilLoop(rules, item, other, s, min, max, consume, index, values, fuel)
             == UntilLoop(rules, item, other, s, min, max, consume, r.index, values + [r.value], fuel - 1)
    requires UntilLoop(rules', item, other, s, min, max, consume, index, values, fuel')
             == UntilLoop(rules', item, other, s, min, max, consume, r.index, values + [r.value], fuel' - 1)
    ensures UntilLoop(rules', item, other, s, min, max, consume, index, values, fuel')
         == UntilLoop(rules, item, other, s, min, max, consume, index, values, fuel)
    decreases fuel, 0
  {
    UntilStable(rules, rules', item, other, s, min, max, consume, r.index, values + [r.value], fuel - 1, fuel' - 1);
  }

  /** A round of `until` that ends the loop ends it the same way wherever the
      probe and the item produce the same outcomes. */
  lemma UntilStop(rules: Rules, rules': Rules, item: Parser, other: Parser, s: string, min: int, max: Bound,
                  consume: bool, index: nat, values: seq<Value>, fuel: nat, fuel': nat)
    requires 0 < fuel <= fuel'
    requires Run(rules', other, s, index, fuel' - 1) == Run(rules, other, s, index, fuel - 1)
    requires var probe := Run(rules, other, s, index, fuel - 1);
             probe.Ok? && !(probe.value.status && |values| >= min) && max.Allows(|values|)
             ==> Run(rules', item, s, index, fuel' - 1) == Run(rules, item, s, index, fuel - 1)
                 && !(Run(rules, item, s, index, fuel - 1).Ok? && Run(rules, item, s, index, fuel - 1).value.status)
    ensures UntilLoop(rules', item, other, s, min, max, consume, index, values, fuel')
         == UntilLoop(rules, item, other, s, min, max, consume, index, values, fuel)
  {
  }

  lemma {:induction false} GenStable(rules: Rules, rules': Rules, step: seq<Value> -> Step, s: string,
                                     index: nat, sent: seq<Value>, prior: Option<Result>, fuel: nat, fuel': nat)
    requires Extends(rules, rules') && fuel <= fuel' && Context(prior)
    requires Conclusive(GenLoop(rules, step, s, index, sent, prior, fuel))
    ensures GenLoop(rules', step, s, index, sent, prior, fuel') == GenLoop(rules, step, s, index, sent, prior, fuel)
    decreases fuel, 1
  {
    match step(sent)
    case Return(_) =>
    case ReturnParser(tail) =>
      RunStable(rules, rules', tail, s, index, fuel - 1, fuel' - 1);
    case Yield(next) =>
      RunStable(rules, rules', next, s, index, fuel - 1, fuel' - 1);
      var o := Run(rules, next, s, index, fuel - 1);
      if o.Ok? && o.value.Aggregate(prior).status {
        var r := o.value.Aggregate(prior);
        GenStable(rules, rules', step, s, r.index, sent + [r.value], Some(r), fuel - 1, fuel' - 1);
      }
  }

  /** The fuel-only special case. */
  lemma RunMonotone(rules: Rules, p: Parser, s: string, i: nat, fuel: nat, fuel': nat)
    requires fuel <= fuel' && Conclusive(Run(rules, p, s, i, fuel))
    ensures Run(rules, p, s, i, fuel') == Run(rules, p, s, i, fuel)
  {
    RunStable(rules, rules, p, s, i, fuel, fuel');
  }
}
