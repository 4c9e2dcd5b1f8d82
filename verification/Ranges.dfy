/** The numeric range checks of the result records (engine.py, decay.py): with weights,
    confidences and decay factors in [0, 1] every reported number is in its range, so no
    constructor can refuse a result.
 */
module Ranges {
  import opened Ledger
  import opened Ordering
  import opened Engine
  import opened EngineSafety
  import opened Reliability

  predicate Unit(x: real) {
    0.0 <= x <= 1.0
  }

  /** What the numeric fields of a policy, and the exponential, always satisfy. */
  ghost predicate SaneNumbers(n: Numerics, policy: Policy) {
    && Rounding(n.round)
    && (forall age: nat, halfLife :: Unit(n.decay(age, halfLife)))
    && Unit(policy.defaultReliability)
    && (forall s | s in policy.sources :: Unit(policy.sources[s]))
    && (policy.updates.Some? ==> policy.updates.value.priorWeight > 0.0 && policy.updates.value.maxAdjustment >= 0.0)
  }

  predicate SaneEvents(events: seq<Event>) {
    forall e | e in events :: Unit(Value(e.confidence))
  }

  lemma {:induction false} AppliedUnit(adjustments: seq<Adjustment>, source: string)
    requires forall a | a in adjustments :: Unit(a.applied)
    ensures Applied(adjustments, source).Some? ==> Unit(Applied(adjustments, source).value)
  {
    if adjustments != [] {
      AppliedUnit(adjustments[..|adjustments| - 1], source);
    }
  }

  lemma AdjustmentsUnit(n: Numerics, policy: Policy, items: seq<Adjudication>)
    requires SaneNumbers(n, policy)
    ensures forall a | a in Adjustments(n, policy, items) :: Unit(a.declared) && Unit(a.posterior) && Unit(a.applied)
  {
    hide AdjustSource, SortedSet, Rounding;
    if policy.updates.Some? {
      var sources := SortedSet(Map(items, JudgedSourceOf()));
      MapIn(sources, Adjuster(n, policy, items));
      forall a | a in Adjustments(n, policy, items)
        ensures Unit(a.declared) && Unit(a.posterior) && Unit(a.applied)
      {
        var source :| source in sources && Adjuster(n, policy, items)(source) == a;
        AdjustmentStaysBetween(n, policy, policy.updates.value, items, source);
      }
    }
  }

  predicate UnitWeight(w: Weighted) {
    w.age >= 0 && Unit(w.reliability) && Unit(w.factor) && Unit(w.effective)
  }

  lemma UnitProduct(x: real, y: real)
    requires Unit(x) && Unit(y)
    ensures Unit(x * y)
  {
    if x > 0.0 {
      Within(x, y);
    }
  }

  lemma WeightInRange(n: Numerics, policy: Policy, asOf: int, adjustments: seq<Adjustment>, e: Event)
    requires SaneNumbers(n, policy) && Unit(Value(e.confidence))
    requires forall a | a in adjustments :: Unit(a.applied)
    ensures UnitWeight(WeightEvent(n, policy, asOf, adjustments, e))
  {
    hide Applied, Value, Rounding, HalfLifeFor;
    AppliedUnit(adjustments, e.source);
    var w := WeightEvent(n, policy, asOf, adjustments, e);
    var age: nat := w.age;
    assert Unit(n.decay(age, HalfLifeFor(policy, e.modality)));
    UnitProduct(Value(e.confidence), w.reliability);
    UnitProduct(Value(e.confidence) * w.reliability, w.factor);
  }

  lemma RoundUnit(n: Numerics, x: real)
    requires Rounding(n.round)
    ensures Unit(x) ==> Unit(n.round(x))
    ensures -1.0 <= x <= 1.0 ==> -1.0 <= n.round(x) <= 1.0
  {
    assert n.round(-1.0) == -n.round(1.0);
    assert 0.0 <= x ==> n.round(0.0) <= n.round(x);
    assert x <= 1.0 ==> n.round(x) <= n.round(1.0);
    assert -1.0 <= x ==> n.round(-1.0) <= n.round(x);
  }

  lemma {:induction false} ComplementUnit(n: Numerics, heads: seq<Head>)
    requires Rounding(n.round) && forall h | h in heads :: UnitWeight(h.representative)
    ensures Unit(Complement(n, heads))
  {
    hide Rounding;
    if heads != [] {
      var m := |heads| - 1;
      ComplementUnit(n, heads[..m]);
      assert heads[m] in heads;
      RoundUnit(n, heads[m].representative.effective);
      UnitProduct(Complement(n, heads[..m]), 1.0 - n.round(heads[m].representative.effective));
    }
  }

  lemma ScoreUnit(n: Numerics, signal: Signal, heads: seq<Head>, rule: ClaimRule)
    requires Rounding(n.round) && forall h | h in heads :: UnitWeight(h.representative)
    ensures Unit(Summarize(n, signal, heads, rule).score)
  {
    hide Rounding, Filter, SortedSet, Complement;
    var matching := Filter(heads, SignalHead(signal));
    FilterIn(heads, SignalHead(signal));
    ComplementUnit(n, matching);
    RoundUnit(n, 1.0 - Complement(n, matching));
  }

  /** Every number of a decision is in the range its record demands. */
  predicate InRange(d: ClaimDecision) {
    && Unit(d.support.score) && Unit(d.contradict.score) && -1.0 <= d.margin <= 1.0
    && (forall t | t in d.trace :: t.age >= 0 && Unit(t.reliability) && Unit(t.factor) && Unit(t.effective))
    && (forall c | c in d.correlations :: Unit(c.effective))
  }

  lemma DecideInRange(n: Numerics, claim: ClaimPolicy, ws: seq<Weighted>)
    requires Rounding(n.round) && Comparable(ws, WeightedLess) && forall w | w in ws :: UnitWeight(w)
    ensures InRange(Decide(n, claim, ws))
  {
    hide Rounding, Comparable, WeightedLess, Collapse, Summarize, ChooseOutcome, KeyFor, Outranks, Ascends, Map;
    var selections := Collapse(n, ws);
    var heads := Map(selections, HeadOf());
    CollapseExact(n, ws);
    forall h | h in heads
      ensures UnitWeight(h.representative)
    {
      RepresentedKey(n, ws, h);
    }
    ScoreUnit(n, Support, heads, claim.rule);
    ScoreUnit(n, Contradict, heads, claim.rule);
    var d := Decide(n, claim, ws);
    RoundUnit(n, d.support.score - d.contradict.score);
    TracesInRange(n, ws);
    CorrelationsInRange(n, selections);
  }

  lemma TracesInRange(n: Numerics, ws: seq<Weighted>)
    requires Rounding(n.round) && forall w | w in ws :: UnitWeight(w)
    ensures forall t | t in Map(ws, Tracer(n)) ::
        t.age >= 0 && Unit(t.reliability) && Unit(t.factor) && Unit(t.effective)
  {
    hide Rounding, Map;
    MapIn(ws, Tracer(n));
    forall t | t in Map(ws, Tracer(n))
      ensures t.age >= 0 && Unit(t.reliability) && Unit(t.factor) && Unit(t.effective)
    {
      var w :| w in ws && Tracer(n)(w) == t;
      RoundUnit(n, w.reliability);
      RoundUnit(n, w.factor);
      RoundUnit(n, w.effective);
    }
  }

  lemma CorrelationsInRange(n: Numerics, selections: seq<Selection>)
    requires Rounding(n.round)
    requires forall h | h in Map(selections, HeadOf()) :: UnitWeight(h.representative)
    ensures forall c | c in Map(selections, Correlator(n)) :: Unit(c.effective)
  {
    hide Rounding, Map;
    MapIn(selections, Correlator(n));
    MapIn(selections, HeadOf());
    forall c | c in Map(selections, Correlator(n))
      ensures Unit(c.effective)
    {
      var s :| s in selections && Correlator(n)(s) == c;
      assert HeadOf()(s) in Map(selections, HeadOf());
      RoundUnit(n, s.representative.effective);
    }
  }

  lemma ClaimInRange(n: Numerics, policy: Policy, asOf: int, adjustments: seq<Adjustment>, claim: ClaimPolicy,
                     events: seq<Event>)
    requires SaneNumbers(n, policy) && Lawful(policy, asOf, events) && SaneEvents(events)
    requires forall a | a in adjustments :: Unit(a.applied)
    ensures var r := EvaluateClaim(n, policy, asOf, adjustments, claim, events); r.Ok? && InRange(r.value)
  {
    hide SaneNumbers, Filter, Sort, DistinctIds, Comparable, WeightedLess, Decide, WeightEvent, Skewed, InRange, Map;
    NeverInFuture(policy, asOf, events);
    var f := Weigher(n, policy, asOf, adjustments);
    var ws := Sort(Map(events, f), WeightedLess);
    SortedWeighed(n, policy, asOf, adjustments, events);
    SortIn(Map(events, f), WeightedLess);
    MapIn(events, f);
    forall w | w in ws
      ensures UnitWeight(w)
    {
      var e :| e in events && f(e) == w;
      WeightInRange(n, policy, asOf, adjustments, e);
    }
    assert Rounding(n.round) by {
      SaneRounding(n, policy);
    }
    DecideInRange(n, claim, ws);
  }

  lemma SaneRounding(n: Numerics, policy: Policy)
    requires SaneNumbers(n, policy)
    ensures Rounding(n.round) && ValidPolicy(policy)
  {
    hide Rounding;
  }

  lemma {:induction false} DecisionsInRange(n: Numerics, policy: Policy, asOf: int, adjustments: seq<Adjustment>,
                                            claims: seq<ClaimPolicy>, events: seq<Event>)
    requires SaneNumbers(n, policy) && Lawful(policy, asOf, events) && SaneEvents(events)
    requires forall a | a in adjustments :: Unit(a.applied)
    ensures var r := Decisions(n, policy, asOf, adjustments, claims, events);
            r.Ok? && forall d | d in r.value :: InRange(d)
    decreases |claims|
  {
    hide SaneNumbers, Lawful, Filter, EvaluateClaim, InRange, Value;
    if claims != [] {
      var m := |claims| - 1;
      DecisionsInRange(n, policy, asOf, adjustments, claims[..m], events);
      var keep := OfClaim(claims[m].name);
      FilterLawful(policy, asOf, events, keep);
      FilterIn(events, keep);
      ClaimInRange(n, policy, asOf, adjustments, claims[m], Filter(events, keep));
    }
  }

  /** Evaluation succeeds exactly on valid streams, numeric checks of the result records
      included: every score and weight it reports is in [0, 1] and every margin in [-1, 1]. */
  lemma EvaluateInRange(n: Numerics, policy: Policy, asOf: int, events: seq<Event>, items: seq<Adjudication>)
    requires SaneNumbers(n, policy) && SaneEvents(events)
    ensures ValidPolicy(policy)
    ensures var r := Evaluate(n, policy, events, asOf, items);
            && (r.Ok? <==> ValidEvents(policy, events) && ValidItems(policy, events, items))
            && (r.Ok? ==>
                  && (forall d | d in r.value.decisions :: InRange(d))
                  && (r.value.updates.Some? ==>
                        forall a | a in r.value.updates.value ::
                            Unit(a.declared) && Unit(a.posterior) && Unit(a.applied)))
  {
    hide SaneNumbers, ValidEvents, ValidItems, Filter, Sort, Adjustments, Decisions, Lawful, EventFailure,
      AdjudicationFailure, InRange, Value;
    SaneRounding(n, policy);
    EvaluateTotal(n, policy, asOf, events, items);
    if Evaluate(n, policy, events, asOf, items).Ok? {
      var known := Filter(items, JudgedBy(asOf));
      AdjustmentsUnit(n, policy, known);
      ConsideredLawful(policy, events, asOf);
      FilterIn(events, IngestedBy(asOf));
      DecisionsInRange(n, policy, asOf, Adjustments(n, policy, known), Sort(policy.claims, ClaimLess),
                       Filter(events, IngestedBy(asOf)));
    }
  }
}
