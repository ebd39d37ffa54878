/**
 * The entry points: `parse_partial` hands back the value and the rest of the
 * stream or raises a `ParseError` describing the furthest failure, and
 * `parse`, which runs `p << eof`, returns exactly the values for which
 * `parse_partial` leaves nothing unread.
 */
module EntryLaws {
  import opened Results
  import opened Engine
  import opened Combinators
  import opened Stability
  import opened Semantics

  /** `p << eof` at offset 0, with two more units of fuel than `p`: it
      passes on what `p` raises or a failure of `p`; after a success of `p`
      it keeps p's value when the whole stream was read, and otherwise fails
      on `eof` with p's diagnostics merged in. */
  lemma SkipEof(rules: Rules, p: Parser, s: string, fuel: nat)
    ensures var o := Run(rules, p, s, 0, fuel);
            var q := Run(rules, Skip(p, Eof), s, 0, fuel + 2);
            && (o.Raised? ==> q == Raised(o.error))
            && (o.Ok? && !o.value.status ==> q == o)
            && (o.Ok? && o.value.status && o.value.index >= |s| ==>
                  q.Ok? && q.value.status && q.value.index >= |s| && q.value.value == o.value.value)
            && (o.Ok? && o.value.status && o.value.index < |s| ==>
                  q == Ok(Failure(o.value.index, "EOF").Aggregate(Some(o.value))))
  {
    var both := Both(p, Eof);
    var o := Run(rules, p, s, 0, fuel);
    if o.Ok? && o.value.status {
      var r := o.value;
      assert fuel > 0;
      var e := if r.index >= |s| then Success(r.index, VNone) else Failure(r.index, "EOF");
      assert Run(rules, Eof, s, r.index, fuel) == Ok(e);
      var m := e.Aggregate(Some(r));
      if r.index >= |s| {
        var b := Success(m.index, VTuple([r.value, e.value])).Aggregate(Some(m));
        assert Run(rules, both, s, 0, fuel + 1) == Ok(b);
        assert Run(rules, Skip(p, Eof), s, 0, fuel + 2) == Ok(b.Aggregate(Some(b)).(value := r.value));
      } else {
        assert Run(rules, both, s, 0, fuel + 1) == Ok(m);
        assert Run(rules, Skip(p, Eof), s, 0, fuel + 2) == Ok(m);
      }
    } else {
      assert Run(rules, both, s, 0, fuel + 1) == o;
    }
  }

  /** `parse(s)` returns `v` exactly when `parse_partial(s)` returns `v`
      with nothing left over (`parse` spends two more units of fuel, on the
      `<<` and on the `&` inside it). */
  lemma ParseIffPartial(rules: Rules, p: Parser, s: string, fuel: nat, v: Value)
    ensures Parse(rules, p, s, fuel + 2) == Ok(v) <==> ParsePartial(rules, p, s, fuel) == Ok((v, []))
  {
    SkipEof(rules, p, s, fuel);
    var o := Run(rules, p, s, 0, fuel);
    if o.Ok? && o.value.status && o.value.index < |s| {
      assert |Drop(s, o.value.index)| == |s| - o.value.index;
    }
  }

  /** What `parse_partial` does with the result of `p` at offset 0, for any
      fuel large enough: a success gives its value and the unread rest of
      the stream, a failure raises `ParseError` with the expected set and
      the furthest offset. */
  lemma ParsePartialLaw(rules: Rules, p: Parser, s: string, r: Result) returns (fuel: nat)
    requires !Unsettled(rules, p) && Yields(rules, p, s, 0, r)
    ensures forall f :: fuel <= f ==>
      ParsePartial(rules, p, s, f)
      == if r.status then Ok((r.value, Drop(s, r.index))) else Raised(ParseError(r.expected, s, r.furthest))
  {
    fuel := FuelFor(rules, p, s, 0, r, 0);
    forall f | fuel <= f
      ensures ParsePartial(rules, p, s, f)
           == if r.status then Ok((r.value, Drop(s, r.index))) else Raised(ParseError(r.expected, s, r.furthest))
    {
      RunMonotone(rules, p, s, 0, fuel, f);
    }
  }

  /** What `parse` does with the result of `p` at offset 0: a success that
      read the whole stream gives its value; one that did not fails on `eof`
      and raises with that failure merged in; a failure raises as it is. */
  lemma ParseLaw(rules: Rules, p: Parser, s: string, r: Result) returns (fuel: nat)
    requires !Unsettled(rules, p) && Yields(rules, p, s, 0, r)
    ensures r.status && r.index >= |s| ==> Parse(rules, p, s, fuel) == Ok(r.value)
    ensures r.status && r.index < |s| ==>
              var m := Failure(r.index, "EOF").Aggregate(Some(r));
              Parse(rules, p, s, fuel) == Raised(ParseError(m.expected, s, m.furthest))
    ensures !r.status ==> Parse(rules, p, s, fuel) == Raised(ParseError(r.expected, s, r.furthest))
  {
    var f := FuelFor(rules, p, s, 0, r, 0);
    fuel := f + 2;
    SkipEof(rules, p, s, f);
  }

  /** A forward declaration that has not become anything refuses to parse,
      whatever the stream. */
  lemma UnsettledRefuses(rules: Rules, d: nat, s: string, fuel: nat)
    requires d !in rules
    ensures Parse(rules, Ref(d), s, fuel) == Raised(ValueError(BecomeFirst))
    ensures ParsePartial(rules, Ref(d), s, fuel) == Raised(ValueError(BecomeFirst))
  {
  }
}
