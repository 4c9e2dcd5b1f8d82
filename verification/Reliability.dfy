/** Source reliability updates (reliability.py): the applied weight lies between the
    declared and the posterior one, and exactly how far from the declared one it may sit.

    The shared rounding (models.py) is written out over real numbers: to the nearest
    multiple of 10^-12, a tie going to the even multiple.
 */
module Reliability {
  import opened Wrappers
  import opened Ledger
  import opened Ordering
  import opened Engine
  import opened EngineSafety

  // ----- Rounding to twelve digits -----

  const GRID := 1_000_000_000_000.0

  /** The nearest integer; the even one when there are two. */
  function Nearest(y: real): int {
    var below := y.Floor;
    var part := y - below as real;
    if part < 0.5 then below
    else if part > 0.5 then below + 1
    else if below % 2 == 0 then below else below + 1
  }

  function Stable(x: real): real {
    Nearest(x * GRID) as real / GRID
  }

  /** What the ranges need of a rounding. */
  ghost predicate Rounding(round: real -> real) {
    && (forall x, y :: x <= y ==> round(x) <= round(y))
    && (forall x :: round(round(x)) == round(x))
    && (forall x :: round(-x) == -round(x))
    && round(0.0) == 0.0 && round(1.0) == 1.0
  }

  lemma NearestInteger(k: int)
    ensures Nearest(k as real) == k
  {
  }

  lemma NearestMonotone(x: real, y: real)
    requires x <= y
    ensures Nearest(x) <= Nearest(y)
  {
  }

  lemma NearestOdd(y: real)
    ensures Nearest(-y) == -Nearest(y)
  {
    var below := y.Floor;
    if y == below as real {
      assert (-y).Floor == -below;
    } else {
      assert (-y).Floor == -below - 1;
    }
  }

  /** A rounded number is an integer number of grid steps. */
  lemma StableOnGrid(x: real)
    ensures Stable(x) * GRID == Nearest(x * GRID) as real
  {
  }

  lemma StableFixes(x: real)
    ensures Stable(Stable(x)) == Stable(x)
  {
    StableOnGrid(x);
    NearestInteger(Nearest(x * GRID));
  }

  /** The shared rounding meets those demands. */
  lemma StableIsRounding(round: real -> real)
    requires forall x :: round(x) == Stable(x)
    ensures Rounding(round)
  {
    hide Stable;
    forall x, y | x <= y
      ensures round(x) <= round(y)
    {
      StableMonotone(x, y);
    }
    forall x
      ensures round(round(x)) == round(x) && round(-x) == -round(x)
    {
      StableFixes(x);
      StableOdd(x);
    }
    StableUnits();
  }

  lemma StableMonotone(x: real, y: real)
    requires x <= y
    ensures Stable(x) <= Stable(y)
  {
    hide Nearest;
    NearestMonotone(x * GRID, y * GRID);
  }

  lemma StableOdd(x: real)
    ensures Stable(-x) == -Stable(x)
  {
    hide Nearest;
    assert (-x) * GRID == -(x * GRID);
    NearestOdd(x * GRID);
  }

  lemma StableUnits()
    ensures Stable(0.0) == 0.0 && Stable(1.0) == 1.0
  {
    hide Nearest;
    NearestInteger(0);
    NearestInteger(1_000_000_000_000);
  }

  /** Rounding does not commute with moving along the grid: one and a half steps round to
      two, not to one plus nothing. This is why a bound of exactly half a step above the
      grid may or may not be exceeded. */
  lemma TiesFollowParity()
    ensures Stable(1.0 / GRID) == 1.0 / GRID && Stable(0.5 / GRID) == 0.0
    ensures Stable(1.0 / GRID + 0.5 / GRID) == 2.0 / GRID
  {
  }

  // ----- The weight stays between declared and posterior -----

  lemma PosteriorBounded(rule: ReliabilityRule, declared: real, correct: nat, total: nat)
    requires rule.priorWeight > 0.0 && 0.0 <= declared <= 1.0 && correct <= total
    ensures 0.0 <= Posterior(rule, declared, correct, total) <= 1.0
  {
    var top, bottom := rule.priorWeight * declared + correct as real, rule.priorWeight + total as real;
    assert 0.0 <= rule.priorWeight * declared <= rule.priorWeight;
    DivideBounded(top, bottom);
  }

  lemma DivideBounded(top: real, bottom: real)
    requires 0.0 <= top <= bottom && bottom > 0.0
    ensures 0.0 <= top / bottom <= 1.0
  {
  }

  /** A weight moves from the declared value toward the observed rate and never past it. */
  lemma AdjustmentStaysBetween(n: Numerics, policy: Policy, rule: ReliabilityRule, items: seq<Adjudication>,
                               source: string)
    requires Rounding(n.round) && rule.priorWeight > 0.0 && rule.maxAdjustment >= 0.0
    requires 0.0 <= ReliabilityFor(policy, source) <= 1.0
    ensures var a := AdjustSource(n, policy, rule, items, source);
            && 0.0 <= a.declared <= 1.0 && 0.0 <= a.posterior <= 1.0 && 0.0 <= a.applied <= 1.0
            && (a.declared <= a.applied <= a.posterior || a.posterior <= a.applied <= a.declared)
  {
    hide Filter, Sort, Posterior;
    var a := AdjustSource(n, policy, rule, items, source);
    var raw := Posterior(rule, a.declared, |a.correct|, |a.correct| + |a.incorrect|);
    assert n.round(0.0) <= a.declared <= n.round(1.0);
    PosteriorBounded(rule, a.declared, |a.correct|, |a.correct| + |a.incorrect|);
    assert n.round(0.0) <= a.posterior <= n.round(1.0);
    var moved := a.declared + Clamp(a.posterior - a.declared, rule.maxAdjustment);
    assert a.declared <= moved <= a.posterior || a.posterior <= moved <= a.declared;
    assert n.round(a.declared) == a.declared && n.round(a.posterior) == n.round(n.round(raw));
  }

  // ----- How far it may move -----

  function Distance(x: real, y: real): real {
    if x < y then y - x else x - y
  }

  /** The declared bound `m` rounds past itself when added to the declared weight: it
      lies more than half a step above the grid, or half a step with the tie going up. */
  predicate Overshoots(m: real, declared: real) {
    var whole := (m * GRID).Floor;
    var part := m * GRID - whole as real;
    part > 0.5 || (part == 0.5 && (Nearest(declared * GRID) + whole) % 2 != 0)
  }

  /** In grid steps: `d` on the grid moved by `m` and rounded stays within `m`, up and
      down alike, exactly when `m` does not round past itself. */
  lemma MoveBounded(d: int, m: real)
    requires m >= 0.0
    ensures var part, whole := m - m.Floor as real, m.Floor;
            var over := part > 0.5 || (part == 0.5 && (d + whole) % 2 != 0);
            && (Nearest(d as real + m) as real - d as real <= m <==> !over)
            && (d as real - Nearest(d as real - m) as real <= m <==> !over)
  {
    var whole := m.Floor;
    assert (d as real + m).Floor == d + whole;
    NearestOdd(m - d as real);
    assert d as real - m == -(m - d as real);
    assert (m - d as real).Floor == whole - d;
  }

  lemma StableMove(declared: real, m: real)
    requires m >= 0.0 && Stable(declared) == declared
    ensures Distance(Stable(declared + m), declared) <= m <==> !Overshoots(m, declared)
    ensures Distance(Stable(declared - m), declared) <= m <==> !Overshoots(m, declared)
  {
    hide Nearest;
    var d := Nearest(declared * GRID);
    StableOnGrid(declared);
    assert declared * GRID == d as real;
    assert (declared + m) * GRID == d as real + m * GRID && (declared - m) * GRID == d as real - m * GRID;
    MoveBounded(d, m * GRID);
    MoveDirection(d, m * GRID);
  }

  lemma MoveDirection(d: int, m: real)
    requires m >= 0.0
    ensures Nearest(d as real + m) >= d && Nearest(d as real - m) <= d
  {
    hide Nearest;
    NearestInteger(d);
    NearestMonotone(d as real, d as real + m);
    NearestMonotone(d as real - m, d as real);
  }

  /** How far one weight may move, exactly: the applied weight is within the declared
      bound if and only if the posterior already is, so that nothing is clamped, or the
      bound does not round past itself. */
  lemma AdjustmentBoundExact(n: Numerics, policy: Policy, rule: ReliabilityRule, items: seq<Adjudication>,
                             source: string)
    requires (forall x :: n.round(x) == Stable(x)) && rule.priorWeight > 0.0 && rule.maxAdjustment >= 0.0
    ensures var a := AdjustSource(n, policy, rule, items, source);
            var m := rule.maxAdjustment;
            && (Distance(a.applied, a.declared) <= m
                <==> Distance(a.posterior, a.declared) <= m || !Overshoots(m, a.declared))
  {
    hide Filter, Sort, Posterior, Stable, Overshoots;
    var a := AdjustSource(n, policy, rule, items, source);
    StableFixes(ReliabilityFor(policy, source));
    StableFixes(Posterior(rule, a.declared, |a.correct|, |a.correct| + |a.incorrect|));
    StableMove(a.declared, rule.maxAdjustment);
  }

  /** `k` adjudications of one source with one verdict and different event IDs. */
  function Unanimous(source: string, verdict: Verdict, k: nat): (items: seq<Adjudication>)
    ensures |items| == k
  {
    seq(k, i requires 0 <= i < k => Adjudication(seq(i + 1, j => 'e'), source, verdict, 0))
  }

  lemma UnanimousCounts(n: Numerics, policy: Policy, rule: ReliabilityRule, source: string, verdict: Verdict, k: nat)
    requires rule.priorWeight > 0.0
    ensures DistinctJudged(Unanimous(source, verdict, k))
    ensures var a := AdjustSource(n, policy, rule, Unanimous(source, verdict, k), source);
            && |a.correct| == (if verdict.Correct? then k else 0)
            && |a.incorrect| == (if verdict.Correct? then 0 else k)
  {
    hide Posterior, Clamp;
    var items := Unanimous(source, verdict, k);
    forall i, j | 0 <= i < j < k
      ensures items[i].eventId != items[j].eventId
    {
      assert |items[i].eventId| == i + 1 && |items[j].eventId| == j + 1;
    }
    KeepsAll(items, Judged(source, verdict));
    KeepsNone(items, Judged(source, if verdict.Correct? then Incorrect else Correct));
  }

  lemma {:induction false} KeepsAll(items: seq<Adjudication>, p: Adjudication -> bool)
    requires forall i | 0 <= i < |items| :: p(items[i])
    ensures Filter(items, p) == items
  {
    if items != [] {
      KeepsAll(items[..|items| - 1], p);
    }
  }

  lemma {:induction false} KeepsNone(items: seq<Adjudication>, p: Adjudication -> bool)
    requires forall i | 0 <= i < |items| :: !p(items[i])
    ensures Filter(items, p) == []
  {
    if items != [] {
      KeepsNone(items[..|items| - 1], p);
    }
  }

  /** Enough agreeing adjudications drive the posterior to the grid point 1 or 0. */
  lemma PosteriorReaches(rule: ReliabilityRule, declared: real) returns (k: nat)
    requires rule.priorWeight > 0.0 && 0.0 <= declared <= 1.0
    ensures k > 0 && Stable(Posterior(rule, declared, k, k)) == 1.0
    ensures Stable(Posterior(rule, declared, 0, k)) == 0.0
  {
    hide Stable, Posterior;
    var w := rule.priorWeight;
    k := (4.0 * GRID * w).Floor + 1;
    assert k as real >= 4.0 * GRID * w;
    Gap(rule, declared, k);
    PosteriorBounded(rule, declared, k, k);
    PosteriorBounded(rule, declared, 0, k);
    NearOne(Posterior(rule, declared, k, k));
    NearZero(Posterior(rule, declared, 0, k));
  }

  lemma Gap(rule: ReliabilityRule, declared: real, k: nat)
    requires rule.priorWeight > 0.0 && 0.0 <= declared <= 1.0 && k as real >= 4.0 * GRID * rule.priorWeight
    ensures 1.0 - Posterior(rule, declared, k, k) <= 0.25 / GRID
    ensures Posterior(rule, declared, 0, k) <= 0.25 / GRID
  {
    hide Posterior;
    var w, total := rule.priorWeight, rule.priorWeight + k as real;
    var kept := w * declared;
    Within(w, declared);
    Enough(w, k);
    Share(kept, total, 0.25 / GRID);
    Share(w - kept, total, 0.25 / GRID);
    Remainder(w - kept, kept + k as real, total);
    PosteriorIs(rule, declared, k, k, kept + k as real, total);
    PosteriorIs(rule, declared, 0, k, kept, total);
  }

  lemma PosteriorIs(rule: ReliabilityRule, declared: real, correct: nat, all: nat, top: real, total: real)
    requires rule.priorWeight > 0.0
    requires top == rule.priorWeight * declared + correct as real && total == rule.priorWeight + all as real
    ensures Posterior(rule, declared, correct, all) == top / total
  {
  }

  lemma Within(w: real, share: real)
    requires w > 0.0 && 0.0 <= share <= 1.0
    ensures 0.0 <= w * share <= w
  {
  }

  lemma Enough(w: real, k: nat)
    requires w > 0.0 && k as real >= 4.0 * GRID * w
    ensures w <= 0.25 / GRID * (w + k as real)
  {
    assert 0.25 / GRID * (4.0 * GRID * w) == w;
  }

  lemma Remainder(x: real, y: real, total: real)
    requires total > 0.0 && x + y == total
    ensures 1.0 - y / total == x / total
  {
    assert y == total - x;
    var r := x / total;
    assert r * total == x;
    Quotient(1.0 - r, y, total);
  }

  lemma Quotient(q: real, y: real, total: real)
    requires total > 0.0 && q * total == y
    ensures y / total == q
  {
  }

  lemma Share(top: real, total: real, share: real)
    requires total > 0.0 && top <= share * total
    ensures top / total <= share
  {
  }

  lemma NearOne(p: real)
    requires 1.0 - 0.25 / GRID <= p <= 1.0
    ensures Stable(p) == 1.0
  {
  }

  lemma NearZero(p: real)
    requires 0.0 <= p <= 0.25 / GRID
    ensures Stable(p) == 0.0
  {
  }

  /** A source the policy names, an update rule the policy carries, and numbers in range. */
  ghost predicate Updating(n: Numerics, policy: Policy, source: string) {
    && (forall x :: n.round(x) == Stable(x))
    && policy.updates.Some?
    && policy.updates.value.priorWeight > 0.0 && policy.updates.value.maxAdjustment >= 0.0
    && source in policy.sources && 0.0 <= policy.sources[source] <= 1.0
  }

  /** Every evaluation that succeeds reports the source's weight within the bound. */
  ghost predicate AlwaysBounded(n: Numerics, policy: Policy, source: string)
    requires Updating(n, policy, source)
  {
    forall events, asOf, items, a ::
      Reports(n, policy, events, asOf, items, a) && a.source == source
      ==> Distance(a.applied, a.declared) <= policy.updates.value.maxAdjustment
  }

  /** The adjustment is among those a successful evaluation reports. */
  predicate Reports(n: Numerics, policy: Policy, events: seq<Event>, asOf: int, items: seq<Adjudication>, a: Adjustment)
    requires ValidPolicy(policy)
  {
    var r := Evaluate(n, policy, events, asOf, items);
    r.Ok? && r.value.updates.Some? && a in r.value.updates.value
  }

  /** What a successful evaluation reports is the closed form over the known adjudications. */
  lemma ReportedIsAdjusted(n: Numerics, policy: Policy, events: seq<Event>, asOf: int, items: seq<Adjudication>,
                           a: Adjustment)
    requires ValidPolicy(policy) && policy.updates.Some? && Reports(n, policy, events, asOf, items, a)
    ensures a == AdjustSource(n, policy, policy.updates.value, Filter(items, JudgedBy(asOf)), a.source)
  {
    hide Filter, Sort, SortedSet, EventFailure, AdjudicationFailure, Decisions, AdjustSource;
    var known := Filter(items, JudgedBy(asOf));
    var sources := SortedSet(Map(known, JudgedSourceOf()));
    MapIn(sources, Adjuster(n, policy, known));
    assert a in Adjustments(n, policy, known);
    var source :| source in sources && Adjuster(n, policy, known)(source) == a;
    SourceOf(n, policy, policy.updates.value, known, source);
  }

  lemma SourceOf(n: Numerics, policy: Policy, rule: ReliabilityRule, items: seq<Adjudication>, source: string)
    requires rule.priorWeight > 0.0
    ensures AdjustSource(n, policy, rule, items, source).source == source
    ensures AdjustSource(n, policy, rule, items, source).declared == n.round(ReliabilityFor(policy, source))
  {
    hide Filter, Sort, Posterior, Clamp;
  }

  /** Unanimous adjudications of a source the policy names are admitted, and evaluation
      reports their adjustment. */
  lemma UnanimousReported(n: Numerics, policy: Policy, source: string, verdict: Verdict, k: nat)
    requires ValidPolicy(policy) && policy.updates.Some? && source in policy.sources && k > 0
    ensures var items := Unanimous(source, verdict, k);
            && ValidEvents(policy, []) && ValidItems(policy, [], items)
            && Evaluate(n, policy, [], 0, items).Ok?
            && Reports(n, policy, [], 0, items, AdjustSource(n, policy, policy.updates.value, items, source))
  {
    hide Filter, Sort, SortedSet, EventFailure, AdjudicationFailure, Decisions, AdjustSource, EventById;
    var items := Unanimous(source, verdict, k);
    UnanimousCounts(n, policy, policy.updates.value, source, verdict, k);
    NothingMismatched(items);
    EvaluateTotal(n, policy, 0, [], items);
    KeepsAll(items, JudgedBy(0));
    MapIn(items, JudgedSourceOf());
    assert items[0] in items && JudgedSourceOf()(items[0]) == source;
    SortedSetIn(Map(items, JudgedSourceOf()));
    MapIn(SortedSet(Map(items, JudgedSourceOf())), Adjuster(n, policy, items));
    assert Adjuster(n, policy, items)(source) in Adjustments(n, policy, items);
  }

  lemma NothingMismatched(items: seq<Adjudication>)
    ensures forall a | a in items :: !Mismatched([], a) && !Premature([], a)
  {
  }

  /** The policy-level statement, checkable before any adjudication arrives: in every
      evaluation that succeeds, the weight of a source the policy names stays within the
      declared bound, if and only if the bound does not round past itself or is too wide
      ever to bind. */
  lemma AdjustmentBoundForPolicy(n: Numerics, policy: Policy, source: string)
    requires Updating(n, policy, source)
    ensures var declared, m := Stable(policy.sources[source]), policy.updates.value.maxAdjustment;
            && (AlwaysBounded(n, policy, source)
                <==> !Overshoots(m, declared) || (m >= declared && m >= 1.0 - declared))
  {
    hide Stable, Overshoots, AdjustSource, Evaluate, Reports;
    var rule := policy.updates.value;
    var declared, m := Stable(policy.sources[source]), rule.maxAdjustment;
    StableIsRounding(n.round);
    if !Overshoots(m, declared) || (m >= declared && m >= 1.0 - declared) {
      forall events, asOf, items, a |
        Reports(n, policy, events, asOf, items, a) && a.source == source
        ensures Distance(a.applied, a.declared) <= m
      {
        var known := Filter(items, JudgedBy(asOf));
        ReportedIsAdjusted(n, policy, events, asOf, items, a);
        SourceOf(n, policy, rule, known, source);
        AdjustmentBoundExact(n, policy, rule, known, source);
        AdjustmentStaysBetween(n, policy, rule, known, source);
      }
    } else {
      var items, a := OvershootWitness(n, policy, source);
    }
  }

  /** Admitted adjudications that push the weight past the bound, whenever some can. */
  lemma OvershootWitness(n: Numerics, policy: Policy, source: string) returns (items: seq<Adjudication>, a: Adjustment)
    requires Updating(n, policy, source)
    requires var declared, m := Stable(policy.sources[source]), policy.updates.value.maxAdjustment;
             Overshoots(m, declared) && (m < declared || m < 1.0 - declared)
    ensures ValidItems(policy, [], items)
    ensures Evaluate(n, policy, [], 0, items).Ok? && Reports(n, policy, [], 0, items, a) && a.source == source
    ensures Distance(a.applied, a.declared) > policy.updates.value.maxAdjustment
  {
    hide Stable, Overshoots, Filter, Sort, DistinctJudged, Posterior, Clamp, Evaluate, Reports, ValidItems;
    var rule := policy.updates.value;
    var declared, m := Stable(policy.sources[source]), rule.maxAdjustment;
    StableIsRounding(n.round);
    assert n.round(0.0) <= declared <= n.round(1.0);
    var k := PosteriorReaches(rule, declared);
    var verdict := if m < 1.0 - declared then Correct else Incorrect;
    items := Unanimous(source, verdict, k);
    a := AdjustSource(n, policy, rule, items, source);
    UnanimousCounts(n, policy, rule, source, verdict, k);
    UnanimousReported(n, policy, source, verdict, k);
    AdjustmentBoundExact(n, policy, rule, items, source);
  }

  /** A concrete input whose bound is exceeded: a policy with a claim and a named source,
      declared 0.5, prior weight one and bound 6 * 10^-13, and one correct adjudication. It
      is admitted, evaluation succeeds, and the reported weight has moved by 10^-12. */
  lemma BoundExceeded(n: Numerics, source: string, claim: ClaimPolicy)
    requires forall x :: n.round(x) == Stable(x)
    ensures var rule := ReliabilityRule(1.0, 0.0000000000006);
            var policy := Policy("p", 1.0, map[source := 0.5], 1.0, map[], 0, [claim], Some(rule));
            var items := Unanimous(source, Correct, 1);
            var a := AdjustSource(n, policy, rule, items, source);
            && ValidPolicy(policy) && ValidItems(policy, [], items)
            && Evaluate(n, policy, [], 0, items).Ok? && Reports(n, policy, [], 0, items, a)
            && a.declared == 0.5 && a.posterior == 0.75 && Distance(a.applied, a.declared) > rule.maxAdjustment
  {
    hide Filter, Sort, Stable, Overshoots, Unanimous, Posterior, Evaluate, Reports, ValidItems;
    var rule := ReliabilityRule(1.0, 0.0000000000006);
    var policy := Policy("p", 1.0, map[source := 0.5], 1.0, map[], 0, [claim], Some(rule));
    UnanimousCounts(n, policy, rule, source, Correct, 1);
    UnanimousReported(n, policy, source, Correct, 1);
    WitnessNumbers(rule);
    AdjustmentBoundExact(n, policy, rule, Unanimous(source, Correct, 1), source);
  }

  lemma WitnessNumbers(rule: ReliabilityRule)
    requires rule == ReliabilityRule(1.0, 0.0000000000006)
    ensures Stable(0.5) == 0.5 && Stable(Posterior(rule, 0.5, 1, 1)) == 0.75
    ensures Overshoots(rule.maxAdjustment, 0.5)
  {
    hide Nearest;
    NearestInteger(500_000_000_000);
    NearestInteger(750_000_000_000);
    assert rule.maxAdjustment * GRID == 0.6;
    assert Posterior(rule, 0.5, 1, 1) == 0.75;
  }
}
