/** The decision engine (engine.py, grouping.py, decay.py, reliability.py): stream
    validation, weighting, correlation collapse, signal gates and claim decisions.

    Numbers are real; the shared output rounding and the decay factor are arbitrary
    deterministic functions, so nothing below depends on how they behave.
 */
module Engine {
  import opened Wrappers
  import opened Ledger
  import opened Ordering

  // ----- Policies and ground truth -----

  datatype ClaimRule = ClaimRule(
    supportThreshold: real,
    contradictionThreshold: real,
    minMargin: real,
    quorum: nat,
    minSources: nat,
    minModalities: nat,
    minConfidence: real,
    requiredModalities: seq<Modality>)

  /** One item of the claims dictionary, in insertion order. */
  datatype ClaimPolicy = ClaimPolicy(name: string, rule: ClaimRule)

  datatype ReliabilityRule = ReliabilityRule(priorWeight: real, maxAdjustment: real)

  datatype Policy = Policy(
    policyId: string,
    defaultReliability: real,
    sources: map<string, real>,
    defaultHalfLife: real,
    modalityHalfLife: map<Modality, real>,
    maxFutureSkew: int,
    claims: seq<ClaimPolicy>,
    updates: Option<ReliabilityRule>)

  datatype Verdict = Correct | Incorrect

  datatype Adjudication = Adjudication(eventId: string, source: string, verdict: Verdict, adjudicatedAt: int)

  /** The shared rounding, and the decay factor for an age and a half-life. */
  datatype Numerics = Numerics(round: real -> real, decay: (int, real) -> real)

  datatype Failure =
    | DuplicateEvents(ids: seq<string>)
    | UnknownClaims(claims: seq<string>)
    | FutureSkew(id: string)
    | UpdatesNotConfigured
    | DuplicateAdjudications(ids: seq<string>)
    | UnknownSources(sources: seq<string>)
    | MismatchedSources(ids: seq<string>)
    | PrematureAdjudications(ids: seq<string>)
    | WeighedInFuture(id: string)

  // ----- Stream validation -----

  function EventIdOf(): Event -> string {
    (e: Event) => e.eventId
  }

  function ClaimOf(): Event -> string {
    (e: Event) => e.claim
  }

  function Repeated(ids: seq<string>): string -> bool {
    (id: string) => multiset(ids)[id] > 1
  }

  function Duplicates(ids: seq<string>): seq<string> {
    SortedSet(Filter(ids, Repeated(ids)))
  }

  predicate KnownClaim(policy: Policy, claim: string) {
    exists i :: 0 <= i < |policy.claims| && policy.claims[i].name == claim
  }

  function UnknownClaim(policy: Policy): string -> bool {
    (claim: string) => !KnownClaim(policy, claim)
  }

  predicate Skewed(policy: Policy, e: Event) {
    e.observedAt - e.ingestedAt > policy.maxFutureSkew
  }

  function SkewedIn(policy: Policy): Event -> bool {
    (e: Event) => Skewed(policy, e)
  }

  /** The first complaint about an event stream, if any. */
  function EventFailure(policy: Policy, events: seq<Event>): Option<Failure> {
    var ids := Map(events, EventIdOf());
    var unknown := Filter(Map(events, ClaimOf()), UnknownClaim(policy));
    var skewed := Filter(events, SkewedIn(policy));
    if Duplicates(ids) != [] then Some(DuplicateEvents(Duplicates(ids)))
    else if unknown != [] then Some(UnknownClaims(SortedSet(unknown)))
    else if skewed != [] then Some(FutureSkew(skewed[0].eventId))
    else None
  }

  function JudgedIdOf(): Adjudication -> string {
    (a: Adjudication) => a.eventId
  }

  function JudgedSourceOf(): Adjudication -> string {
    (a: Adjudication) => a.source
  }

  function UnknownSource(policy: Policy): string -> bool {
    (source: string) => source !in policy.sources
  }

  /** The dictionary of events by ID: the last event with an ID wins. */
  function EventById(events: seq<Event>, id: string): Option<Event> {
    if events == [] then None
    else if events[|events| - 1].eventId == id then Some(events[|events| - 1])
    else EventById(events[..|events| - 1], id)
  }

  /** An adjudicated event of the stream, from another source. */
  predicate Mismatched(events: seq<Event>, a: Adjudication) {
    var e := EventById(events, a.eventId);
    e.Some? && e.value.source != a.source
  }

  /** An adjudication dated before the event it judges was ingested. */
  predicate Premature(events: seq<Event>, a: Adjudication) {
    var e := EventById(events, a.eventId);
    e.Some? && e.value.source == a.source && a.adjudicatedAt < e.value.ingestedAt
  }

  function MismatchedIn(events: seq<Event>): Adjudication -> bool {
    (a: Adjudication) => Mismatched(events, a)
  }

  function PrematureIn(events: seq<Event>): Adjudication -> bool {
    (a: Adjudication) => Premature(events, a)
  }

  function AdjudicationFailure(policy: Policy, events: seq<Event>, items: seq<Adjudication>): Option<Failure> {
    var ids := Map(items, JudgedIdOf());
    var unknown := Filter(Map(items, JudgedSourceOf()), UnknownSource(policy));
    var mismatched := Map(Filter(items, MismatchedIn(events)), JudgedIdOf());
    var premature := Map(Filter(items, PrematureIn(events)), JudgedIdOf());
    if items != [] && policy.updates.None? then Some(UpdatesNotConfigured)
    else if Duplicates(ids) != [] then Some(DuplicateAdjudications(Duplicates(ids)))
    else if unknown != [] then Some(UnknownSources(SortedSet(unknown)))
    else if mismatched != [] then Some(MismatchedSources(Sort(mismatched, TextLess)))
    else if premature != [] then Some(PrematureAdjudications(Sort(premature, TextLess)))
    else None
  }

  // ----- Source reliability -----

  datatype Adjustment = Adjustment(
    source: string,
    declared: real,
    posterior: real,
    applied: real,
    correct: seq<string>,
    incorrect: seq<string>)

  function Judged(source: string, verdict: Verdict): Adjudication -> bool {
    (a: Adjudication) => a.source == source && a.verdict == verdict
  }

  function ReliabilityFor(policy: Policy, source: string): real {
    if source in policy.sources then policy.sources[source] else policy.defaultReliability
  }

  function Clamp(x: real, bound: real): real {
    var low := if x > -bound then x else -bound;
    if low < bound then low else bound
  }

  function Posterior(rule: ReliabilityRule, declared: real, correct: nat, total: nat): real
    requires rule.priorWeight > 0.0
  {
    (rule.priorWeight * declared + correct as real) / (rule.priorWeight + total as real)
  }

  /** The closed form for one source. */
  function AdjustSource(n: Numerics, policy: Policy, rule: ReliabilityRule, items: seq<Adjudication>,
                        source: string): Adjustment
    requires rule.priorWeight > 0.0
  {
    var correct := Sort(Map(Filter(items, Judged(source, Correct)), JudgedIdOf()), TextLess);
    var incorrect := Sort(Map(Filter(items, Judged(source, Incorrect)), JudgedIdOf()), TextLess);
    var declared := n.round(ReliabilityFor(policy, source));
    var posterior := n.round(Posterior(rule, declared, |correct|, |correct| + |incorrect|));
    Adjustment(source, declared, posterior, n.round(declared + Clamp(posterior - declared, rule.maxAdjustment)),
               correct, incorrect)
  }

  predicate ValidPolicy(policy: Policy) {
    && policy.updates.Some? ==> policy.updates.value.priorWeight > 0.0
  }

  function Adjuster(n: Numerics, policy: Policy, items: seq<Adjudication>): string -> Adjustment
    requires policy.updates.Some? && ValidPolicy(policy)
  {
    (source: string) => AdjustSource(n, policy, policy.updates.value, items, source)
  }

  /** One record per adjudicated source, in source order. */
  function Adjustments(n: Numerics, policy: Policy, items: seq<Adjudication>): seq<Adjustment>
    requires ValidPolicy(policy)
  {
    if policy.updates.None? then []
    else Map(SortedSet(Map(items, JudgedSourceOf())), Adjuster(n, policy, items))
  }

  /** The adjusted reliability of a source, when it was adjudicated. */
  function Applied(adjustments: seq<Adjustment>, source: string): Option<real> {
    if adjustments == [] then None
    else if adjustments[|adjustments| - 1].source == source then Some(adjustments[|adjustments| - 1].applied)
    else Applied(adjustments[..|adjustments| - 1], source)
  }

  // ----- Weighting -----

  function TwoTo(n: nat): (r: real)
    ensures r >= 1.0
  {
    if n == 0 then 1.0 else 2.0 * TwoTo(n - 1)
  }

  function Value(d: Double): real {
    if d.exponent >= 0 then d.mantissa as real * TwoTo(d.exponent) else d.mantissa as real / TwoTo(-d.exponent)
  }

  datatype Weighted = Weighted(event: Event, age: int, reliability: real, factor: real, effective: real)

  predicate InFuture(policy: Policy, asOf: int, e: Event) {
    asOf - e.observedAt < -policy.maxFutureSkew
  }

  function InFutureOf(policy: Policy, asOf: int): Event -> bool {
    (e: Event) => InFuture(policy, asOf, e)
  }

  function HalfLifeFor(policy: Policy, m: Modality): real {
    if m in policy.modalityHalfLife then policy.modalityHalfLife[m] else policy.defaultHalfLife
  }

  function WeightEvent(n: Numerics, policy: Policy, asOf: int, adjustments: seq<Adjustment>, e: Event): Weighted {
    var age := if asOf - e.observedAt > 0 then asOf - e.observedAt else 0;
    var factor := n.decay(age, HalfLifeFor(policy, e.modality));
    var adjusted := Applied(adjustments, e.source);
    var reliability := if adjusted.None? then ReliabilityFor(policy, e.source) else adjusted.value;
    Weighted(e, age, reliability, factor, Value(e.confidence) * reliability * factor)
  }

  function Weigher(n: Numerics, policy: Policy, asOf: int, adjustments: seq<Adjustment>): Event -> Weighted {
    (e: Event) => WeightEvent(n, policy, asOf, adjustments, e)
  }

  predicate WeightedLess(x: Weighted, y: Weighted) {
    TextLess(x.event.eventId, y.event.eventId)
  }

  // ----- Correlation collapse -----

  datatype Key = Key(group: string, signal: Signal)

  /** Explicit groups are shared; ungrouped observations stand alone. */
  function GroupId(e: Event): string {
    match e.correlationGroup
    case Some(g) => "group:" + g
    case None => "event:" + e.eventId
  }

  function KeyFor(w: Weighted): Key {
    Key(GroupId(w.event), w.event.signal)
  }

  function KeyOf(): Weighted -> Key {
    (w: Weighted) => KeyFor(w)
  }

  function HasKey(k: Key): Weighted -> bool {
    (w: Weighted) => KeyFor(w) == k
  }

  /** Higher rounded confidence first, then the smaller event ID. */
  predicate Outranks(n: Numerics, x: Weighted, y: Weighted) {
    n.round(x.effective) > n.round(y.effective)
    || (n.round(x.effective) == n.round(y.effective) && TextLess(x.event.eventId, y.event.eventId))
  }

  function Ranking(n: Numerics): (Weighted, Weighted) -> bool {
    (x: Weighted, y: Weighted) => Outranks(n, x, y)
  }

  datatype Selection = Selection(key: Key, representative: Weighted, suppressed: seq<Weighted>)

  predicate KeyLess(x: Key, y: Key) {
    TextLess(x.group, y.group) || (x.group == y.group && x.signal == Contradict && y.signal == Support)
  }

  predicate SelectionLess(x: Selection, y: Selection) {
    KeyLess(x.key, y.key)
  }

  function SelectFrom(n: Numerics, k: Key, candidates: seq<Weighted>): Selection
    requires candidates != []
  {
    var ranked := Sort(candidates, Ranking(n));
    Selection(k, ranked[0], Sort(ranked[1..], WeightedLess))
  }

  /** One selection per key. */
  function Selections(n: Numerics, ws: seq<Weighted>, keys: seq<Key>): (r: seq<Selection>)
    requires forall i | 0 <= i < |keys| :: Filter(ws, HasKey(keys[i])) != []
    ensures |r| == |keys| && forall i | 0 <= i < |keys| :: r[i] == SelectFrom(n, keys[i], Filter(ws, HasKey(keys[i])))
  {
    if keys == [] then []
    else
      var m := |keys| - 1;
      Selections(n, ws, keys[..m]) + [SelectFrom(n, keys[m], Filter(ws, HasKey(keys[m])))]
  }

  function Keys(ws: seq<Weighted>): (keys: seq<Key>)
    ensures forall i | 0 <= i < |keys| :: Filter(ws, HasKey(keys[i])) != []
  {
    var keys := Dedup(Map(ws, KeyOf()));
    KeysOccur(ws, keys);
    keys
  }

  lemma KeysOccur(ws: seq<Weighted>, keys: seq<Key>)
    requires keys == Dedup(Map(ws, KeyOf()))
    ensures forall i | 0 <= i < |keys| :: Filter(ws, HasKey(keys[i])) != []
  {
    hide Filter, Dedup, Map;
    forall i | 0 <= i < |keys|
      ensures Filter(ws, HasKey(keys[i])) != []
    {
      DedupIn(Map(ws, KeyOf()));
      assert keys[i] in keys;
      MapIn(ws, KeyOf());
      var w :| w in ws && KeyOf()(w) == keys[i];
      FilterIn(ws, HasKey(keys[i]));
      assert w in Filter(ws, HasKey(keys[i]));
    }
  }

  function Collapse(n: Numerics, ws: seq<Weighted>): seq<Selection> {
    Sort(Selections(n, ws, Keys(ws)), SelectionLess)
  }

  method CollapseCorrelated(n: Numerics, ws: seq<Weighted>) returns (r: seq<Selection>)
    ensures r == Collapse(n, ws)
  {
    hide Filter, Sort, HasKey, Selections, SelectFrom;
    var buckets, order := FillBuckets(ws);
    var selections: seq<Selection> := [];
    for i := 0 to |order|
      invariant selections == Selections(n, ws, order[..i])
    {
      assert order[i] in order;
      SelectionsStep(n, ws, order, i);
      selections := selections + [SelectFrom(n, order[i], buckets[order[i]])];
    }
    assert order[..|order|] == order;
    r := Sort(selections, SelectionLess);
  }

  lemma SelectionsStep(n: Numerics, ws: seq<Weighted>, keys: seq<Key>, i: nat)
    requires i < |keys| && forall j | 0 <= j < |keys| :: Filter(ws, HasKey(keys[j])) != []
    ensures Selections(n, ws, keys[..i + 1])
        == Selections(n, ws, keys[..i]) + [SelectFrom(n, keys[i], Filter(ws, HasKey(keys[i])))]
  {
    hide Filter, HasKey, SelectFrom;
    assert keys[..i + 1][..i] == keys[..i];
  }

  /** The buckets: a dictionary, and the order in which its keys were first seen. */
  method FillBuckets(ws: seq<Weighted>) returns (buckets: map<Key, seq<Weighted>>, order: seq<Key>)
    ensures order == Keys(ws)
    ensures forall k :: k in order <==> k in buckets
    ensures forall k | k in buckets :: buckets[k] == Filter(ws, HasKey(k))
  {
    hide Filter, Dedup, KeyFor, HasKey, Map;
    buckets := map[];
    order := [];
    EmptyBuckets();
    for i := 0 to |ws|
      invariant order == Dedup(Map(ws[..i], KeyOf()))
      invariant forall k :: k in order <==> k in buckets
      invariant forall k | k in buckets :: buckets[k] == Filter(ws[..i], HasKey(k))
      invariant forall k: Key :: k !in buckets ==> Filter(ws[..i], HasKey(k)) == []
    {
      var key := KeyFor(ws[i]);
      BucketStep(ws, i);
      if key in buckets {
        buckets := buckets[key := buckets[key] + [ws[i]]];
      } else {
        buckets := buckets[key := [ws[i]]];
        order := order + [key];
      }
    }
    assert ws[..|ws|] == ws;
  }

  lemma EmptyBuckets()
    ensures Dedup(Map([], KeyOf())) == []
    ensures forall k: Key :: Filter([], HasKey(k)) == []
  {
  }

  lemma BucketStep(ws: seq<Weighted>, i: nat)
    requires i < |ws|
    ensures var before, key := Dedup(Map(ws[..i], KeyOf())), KeyFor(ws[i]);
            Dedup(Map(ws[..i + 1], KeyOf())) == if key in before then before else before + [key]
    ensures forall k: Key :: Filter(ws[..i + 1], HasKey(k))
                          == Filter(ws[..i], HasKey(k)) + (if k == KeyFor(ws[i]) then [ws[i]] else [])
  {
    hide KeyFor;
    assert ws[..i + 1][..i] == ws[..i];
    assert Map(ws[..i + 1], KeyOf())[..i] == Map(ws[..i], KeyOf());
  }

  // ----- Signals and outcomes -----

  /** What the gates see of a selection. */
  datatype Head = Head(key: Key, representative: Weighted)

  function HeadOf(): Selection -> Head {
    (s: Selection) => Head(s.key, s.representative)
  }

  function SignalHead(signal: Signal): Head -> bool {
    (h: Head) => h.key.signal == signal
  }

  function Qualifies(n: Numerics, rule: ClaimRule): Head -> bool {
    (h: Head) => n.round(h.representative.effective) >= n.round(rule.minConfidence)
  }

  function SourceText(): Head -> string {
    (h: Head) => h.representative.event.source
  }

  function HeadModality(): Head -> string {
    (h: Head) => ModalityText(h.representative.event.modality)
  }

  function HeadGroup(): Head -> string {
    (h: Head) => h.key.group
  }

  /** The product of complements. */
  function Complement(n: Numerics, heads: seq<Head>): real {
    if heads == [] then 1.0
    else Complement(n, heads[..|heads| - 1]) * (1.0 - n.round(heads[|heads| - 1].representative.effective))
  }

  datatype SignalSummary = SignalSummary(
    signal: Signal,
    score: real,
    qualifying: nat,
    sources: seq<string>,
    modalities: seq<string>,
    gatePassed: bool,
    groups: seq<string>)

  function Summarize(n: Numerics, signal: Signal, heads: seq<Head>, rule: ClaimRule): SignalSummary {
    var matching := Filter(heads, SignalHead(signal));
    var qualifying := Filter(matching, Qualifies(n, rule));
    var sources := SortedSet(Map(qualifying, SourceText()));
    var modalities := SortedSet(Map(qualifying, HeadModality()));
    var gate := && |qualifying| >= rule.quorum
                && |sources| >= rule.minSources
                && |modalities| >= rule.minModalities
                && forall i | 0 <= i < |rule.requiredModalities| ::
                     ModalityText(rule.requiredModalities[i]) in modalities;
    SignalSummary(signal, n.round(1.0 - Complement(n, matching)), |qualifying|, sources, modalities, gate,
                  Map(matching, HeadGroup()))
  }

  datatype Outcome = Escalate | Reject | Review

  datatype Reason =
    | ConflictingThresholds
    | SupportMet
    | ContradictionMet
    | SupportGateFailed
    | ContradictionGateFailed
    | MarginTooSmall
    | ThresholdNotMet

  function ChooseOutcome(n: Numerics, support: SignalSummary, contradict: SignalSummary, rule: ClaimRule)
    : (Outcome, Reason)
  {
    var s, c := n.round(support.score), n.round(contradict.score);
    var ts, tc := n.round(rule.supportThreshold), n.round(rule.contradictionThreshold);
    var need := n.round(rule.minMargin);
    var margin := n.round(s - c);
    var escalates := support.gatePassed && s >= ts && margin >= need;
    var rejects := contradict.gatePassed && c >= tc && -margin >= need;
    if escalates && rejects then (Review, ConflictingThresholds)
    else if escalates then (Escalate, SupportMet)
    else if rejects then (Reject, ContradictionMet)
    else if s >= ts && !support.gatePassed then (Review, SupportGateFailed)
    else if c >= tc && !contradict.gatePassed then (Review, ContradictionGateFailed)
    else if (if margin < 0.0 then -margin else margin) < need then (Review, MarginTooSmall)
    else (Review, ThresholdNotMet)
  }

  // ----- Decisions -----

  datatype EventTrace = EventTrace(event: Event, reliability: real, age: int, factor: real, effective: real)

  datatype CorrelationTrace = CorrelationTrace(key: Key, representativeId: string, effective: real,
                                               suppressedIds: seq<string>)

  datatype ClaimDecision = ClaimDecision(
    claim: string,
    outcome: Outcome,
    reason: Reason,
    support: SignalSummary,
    contradict: SignalSummary,
    margin: real,
    trace: seq<EventTrace>,
    correlations: seq<CorrelationTrace>)

  function Tracer(n: Numerics): Weighted -> EventTrace {
    (w: Weighted) => EventTrace(w.event, n.round(w.reliability), w.age, n.round(w.factor), n.round(w.effective))
  }

  function WeightedIdOf(): Weighted -> string {
    (w: Weighted) => w.event.eventId
  }

  function Correlator(n: Numerics): Selection -> CorrelationTrace {
    (s: Selection) => CorrelationTrace(s.key, s.representative.event.eventId, n.round(s.representative.effective),
                                       Map(s.suppressed, WeightedIdOf()))
  }

  /** The decision on one claim, from its weighted observations in ID order. */
  function Decide(n: Numerics, claim: ClaimPolicy, ws: seq<Weighted>): ClaimDecision {
    var selections := Collapse(n, ws);
    var heads := Map(selections, HeadOf());
    var support := Summarize(n, Support, heads, claim.rule);
    var contradict := Summarize(n, Contradict, heads, claim.rule);
    var chosen := ChooseOutcome(n, support, contradict, claim.rule);
    ClaimDecision(claim.name, chosen.0, chosen.1, support, contradict, n.round(support.score - contradict.score),
                  Map(ws, Tracer(n)), Map(selections, Correlator(n)))
  }

  function EvaluateClaim(n: Numerics, policy: Policy, asOf: int, adjustments: seq<Adjustment>, claim: ClaimPolicy,
                         events: seq<Event>): Result<ClaimDecision, Failure>
  {
    var skewed := Filter(events, InFutureOf(policy, asOf));
    if skewed != [] then Err(WeighedInFuture(skewed[0].eventId))
    else Ok(Decide(n, claim, Sort(Map(events, Weigher(n, policy, asOf, adjustments)), WeightedLess)))
  }

  function OfClaim(claim: string): Event -> bool {
    (e: Event) => e.claim == claim
  }

  /** Decisions in claim order; the first failure stops. */
  function Decisions(n: Numerics, policy: Policy, asOf: int, adjustments: seq<Adjustment>, claims: seq<ClaimPolicy>,
                     events: seq<Event>): Result<seq<ClaimDecision>, Failure>
  {
    if claims == [] then Ok([])
    else
      var m := |claims| - 1;
      match Decisions(n, policy, asOf, adjustments, claims[..m], events)
      case Err(f) => Err(f)
      case Ok(ds) =>
        match EvaluateClaim(n, policy, asOf, adjustments, claims[m], Filter(events, OfClaim(claims[m].name)))
        case Err(f) => Err(f)
        case Ok(d) => Ok(ds + [d])
  }

  datatype EvaluationResult = EvaluationResult(
    policyId: string,
    evaluatedAt: int,
    inputCount: nat,
    consideredCount: nat,
    pending: seq<string>,
    decisions: seq<ClaimDecision>,
    updates: Option<seq<Adjustment>>)

  function IngestedBy(asOf: int): Event -> bool {
    (e: Event) => e.ingestedAt <= asOf
  }

  function IngestedAfter(asOf: int): Event -> bool {
    (e: Event) => e.ingestedAt > asOf
  }

  function JudgedBy(asOf: int): Adjudication -> bool {
    (a: Adjudication) => a.adjudicatedAt <= asOf
  }

  predicate ClaimLess(x: ClaimPolicy, y: ClaimPolicy) {
    TextLess(x.name, y.name)
  }

  function Evaluate(n: Numerics, policy: Policy, events: seq<Event>, asOf: int,
                    items: seq<Adjudication>): Result<EvaluationResult, Failure>
    requires ValidPolicy(policy)
  {
    var eventFailure := EventFailure(policy, events);
    var itemFailure := AdjudicationFailure(policy, events, items);
    if eventFailure.Some? then Err(eventFailure.value)
    else if itemFailure.Some? then Err(itemFailure.value)
    else
      var adjustments := Adjustments(n, policy, Filter(items, JudgedBy(asOf)));
      var considered := Filter(events, IngestedBy(asOf));
      match Decisions(n, policy, asOf, adjustments, Sort(policy.claims, ClaimLess), considered)
      case Err(f) => Err(f)
      case Ok(decisions) =>
        Ok(EvaluationResult(policy.policyId, asOf, |events|, |considered|,
                            Sort(Map(Filter(events, IngestedAfter(asOf)), EventIdOf()), TextLess), decisions,
                            if policy.updates.None? then None else Some(adjustments)))
  }

  // ----- The loops -----

  /** The validation loop over adjudications, with its dictionary and two lists. */
  method CheckAdjudications(policy: Policy, events: seq<Event>, items: seq<Adjudication>) returns (r: Option<Failure>)
    ensures r == AdjudicationFailure(policy, events, items)
  {
    hide Filter, Sort, SortedSet, Duplicates, Map, UnknownSource, Mismatched, Premature;
    if items != [] && policy.updates.None? {
      return Some(UpdatesNotConfigured);
    }
    var duplicates := Duplicates(Map(items, JudgedIdOf()));
    if duplicates != [] {
      return Some(DuplicateAdjudications(duplicates));
    }
    var unknown := Filter(Map(items, JudgedSourceOf()), UnknownSource(policy));
    if unknown != [] {
      return Some(UnknownSources(SortedSet(unknown)));
    }
    var mismatched, premature := CrossCheck(events, items);
    if mismatched != [] {
      return Some(MismatchedSources(Sort(mismatched, TextLess)));
    }
    if premature != [] {
      return Some(PrematureAdjudications(Sort(premature, TextLess)));
    }
    r := None;
  }

  method CrossCheck(events: seq<Event>, items: seq<Adjudication>)
    returns (mismatched: seq<string>, premature: seq<string>)
    ensures mismatched == Map(Filter(items, MismatchedIn(events)), JudgedIdOf())
    ensures premature == Map(Filter(items, PrematureIn(events)), JudgedIdOf())
  {
    hide Filter, Map, EventById;
    var byId := IndexEvents(events);
    mismatched := [];
    premature := [];
    NothingKept();
    for i := 0 to |items|
      invariant mismatched == Map(Filter(items[..i], MismatchedIn(events)), JudgedIdOf())
      invariant premature == Map(Filter(items[..i], PrematureIn(events)), JudgedIdOf())
    {
      var item := items[i];
      KeepStep(items, i, MismatchedIn(events));
      KeepStep(items, i, PrematureIn(events));
      if item.eventId in byId {
        var event := byId[item.eventId];
        if event.source != item.source {
          mismatched := mismatched + [item.eventId];
        } else if item.adjudicatedAt < event.ingestedAt {
          premature := premature + [item.eventId];
        }
      }
    }
    assert items[..|items|] == items;
  }

  lemma NothingKept()
    ensures forall p :: Map(Filter([], p), JudgedIdOf()) == []
  {
  }

  lemma KeepStep(items: seq<Adjudication>, i: nat, p: Adjudication -> bool)
    requires i < |items|
    ensures Map(Filter(items[..i + 1], p), JudgedIdOf())
         == Map(Filter(items[..i], p), JudgedIdOf()) + (if p(items[i]) then [items[i].eventId] else [])
  {
    assert items[..i + 1][..i] == items[..i];
  }

  method IndexEvents(events: seq<Event>) returns (byId: map<string, Event>)
    ensures forall id :: id in byId <==> EventById(events, id).Some?
    ensures forall id | id in byId :: EventById(events, id) == Some(byId[id])
  {
    byId := map[];
    for i := 0 to |events|
      invariant forall id :: id in byId <==> EventById(events[..i], id).Some?
      invariant forall id | id in byId :: EventById(events[..i], id) == Some(byId[id])
    {
      assert events[..i + 1][..i] == events[..i];
      byId := byId[events[i].eventId := events[i]];
    }
    assert events[..|events|] == events;
  }

  /** The verdict lists of one source. */
  datatype Tally = Tally(correct: seq<string>, incorrect: seq<string>)

  function TallyOf(items: seq<Adjudication>, source: string): Tally {
    Tally(Map(Filter(items, Judged(source, Correct)), JudgedIdOf()),
          Map(Filter(items, Judged(source, Incorrect)), JudgedIdOf()))
  }

  function AddCorrect(tally: Tally, id: string): Tally {
    tally.(correct := tally.correct + [id])
  }

  function AddIncorrect(tally: Tally, id: string): Tally {
    tally.(incorrect := tally.incorrect + [id])
  }

  /** The loop that files each adjudication under its source and verdict. */
  method TallyVerdicts(items: seq<Adjudication>) returns (verdicts: map<string, Tally>, order: seq<string>)
    ensures order == Dedup(Map(items, JudgedSourceOf()))
    ensures forall source | source in order :: source in verdicts
    ensures forall source | source in verdicts :: verdicts[source] == TallyOf(items, source)
  {
    hide Dedup, Map, TallyOf;
    verdicts := map[];
    order := [];
    NoTally();
    for i := 0 to |items|
      invariant order == Dedup(Map(items[..i], JudgedSourceOf()))
      invariant forall source | source in order :: source in verdicts
      invariant forall source | source in verdicts :: source in order && verdicts[source] == TallyOf(items[..i], source)
      invariant forall source: string :: source !in verdicts ==> TallyOf(items[..i], source) == Tally([], [])
    {
      var item := items[i];
      TallyStep(items, i);
      var tally := if item.source in verdicts then verdicts[item.source] else Tally([], []);
      if item.source !in verdicts {
        order := order + [item.source];
      }
      verdicts := verdicts[item.source := match item.verdict
                                          case Correct => AddCorrect(tally, item.eventId)
                                          case Incorrect => AddIncorrect(tally, item.eventId)];
    }
    assert items[..|items|] == items;
  }

  lemma NoTally()
    ensures Dedup(Map([], JudgedSourceOf())) == []
    ensures forall source: string :: TallyOf([], source) == Tally([], [])
  {
  }

  lemma TallyStep(items: seq<Adjudication>, i: nat)
    requires i < |items|
    ensures var before, source := Dedup(Map(items[..i], JudgedSourceOf())), items[i].source;
            Dedup(Map(items[..i + 1], JudgedSourceOf())) == if source in before then before else before + [source]
    ensures forall source: string :: TallyOf(items[..i + 1], source)
              == if source != items[i].source then TallyOf(items[..i], source)
                 else match items[i].verdict
                      case Correct => AddCorrect(TallyOf(items[..i], source), items[i].eventId)
                      case Incorrect => AddIncorrect(TallyOf(items[..i], source), items[i].eventId)
  {
    hide Filter, Map;
    assert Dedup(Map(items[..i + 1], JudgedSourceOf())) == (
      var before, source := Dedup(Map(items[..i], JudgedSourceOf())), items[i].source;
      if source in before then before else before + [source]) by {
      assert Map(items[..i + 1], JudgedSourceOf())[..i] == Map(items[..i], JudgedSourceOf());
    }
    forall source: string, verdict: Verdict
      ensures Map(Filter(items[..i + 1], Judged(source, verdict)), JudgedIdOf())
           == Map(Filter(items[..i], Judged(source, verdict)), JudgedIdOf())
              + (if items[i].source == source && items[i].verdict == verdict then [items[i].eventId] else [])
    {
      KeepStep(items, i, Judged(source, verdict));
    }
  }

  /** The closed form applied to every adjudicated source, in source order. */
  method AdjustReliabilities(n: Numerics, policy: Policy, items: seq<Adjudication>) returns (r: seq<Adjustment>)
    requires ValidPolicy(policy)
    ensures r == Adjustments(n, policy, items)
  {
    hide Filter, Map, Sort, Dedup, Posterior;
    if policy.updates.None? {
      return [];
    }
    var rule := policy.updates.value;
    var verdicts, order := TallyVerdicts(items);
    var sources := Sort(order, TextLess);
    SortIn(order, TextLess);
    r := [];
    for i := 0 to |sources|
      invariant r == Map(sources[..i], Adjuster(n, policy, items))
    {
      var source := sources[i];
      assert source in sources;
      var correct, incorrect := Sort(verdicts[source].correct, TextLess), Sort(verdicts[source].incorrect, TextLess);
      var declared := n.round(ReliabilityFor(policy, source));
      var posterior := n.round(Posterior(rule, declared, |correct|, |correct| + |incorrect|));
      var delta := Clamp(posterior - declared, rule.maxAdjustment);
      assert Map(sources[..i + 1], Adjuster(n, policy, items))
          == Map(sources[..i], Adjuster(n, policy, items)) + [Adjuster(n, policy, items)(source)];
      r := r + [Adjustment(source, declared, posterior, n.round(declared + delta), correct, incorrect)];
    }
    assert sources[..|sources|] == sources;
  }

  /** The loop that files considered events under their claims. */
  method GroupByClaim(claims: seq<ClaimPolicy>, considered: seq<Event>) returns (byClaim: map<string, seq<Event>>)
    ensures forall k | 0 <= k < |claims| :: claims[k].name in byClaim
    ensures forall claim | claim in byClaim :: byClaim[claim] == Filter(considered, OfClaim(claim))
  {
    hide Filter;
    byClaim := map[];
    NoneKept();
    for k := 0 to |claims|
      invariant forall j | 0 <= j < k :: claims[j].name in byClaim
      invariant forall claim | claim in byClaim :: byClaim[claim] == []
    {
      byClaim := byClaim[claims[k].name := []];
    }
    for i := 0 to |considered|
      invariant forall j | 0 <= j < |claims| :: claims[j].name in byClaim
      invariant forall claim | claim in byClaim :: byClaim[claim] == Filter(considered[..i], OfClaim(claim))
    {
      var event := considered[i];
      assert considered[..i + 1] == considered[..i] + [event];
      forall claim: string
        ensures Filter(considered[..i + 1], OfClaim(claim))
            == Filter(considered[..i], OfClaim(claim)) + (if event.claim == claim then [event] else [])
      {
        FilterSnoc(considered[..i], event, OfClaim(claim));
      }
      if event.claim in byClaim {
        byClaim := byClaim[event.claim := byClaim[event.claim] + [event]];
      }
    }
    assert considered[..|considered|] == considered;
  }

  lemma NoneKept()
    ensures forall p: Event -> bool :: Filter([], p) == []
  {
  }

  method EvaluateStream(n: Numerics, policy: Policy, events: seq<Event>, asOf: int, items: seq<Adjudication>)
    returns (r: Result<EvaluationResult, Failure>)
    requires ValidPolicy(policy)
    ensures r == Evaluate(n, policy, events, asOf, items)
  {
    hide Filter, Map, Sort, EventFailure, AdjudicationFailure, Adjustments, EvaluateClaim;
    var failure := EventFailure(policy, events);
    if failure.Some? {
      return Err(failure.value);
    }
    failure := CheckAdjudications(policy, events, items);
    if failure.Some? {
      return Err(failure.value);
    }
    var adjustments := AdjustReliabilities(n, policy, Filter(items, JudgedBy(asOf)));
    var considered := Filter(events, IngestedBy(asOf));
    var pending := Sort(Map(Filter(events, IngestedAfter(asOf)), EventIdOf()), TextLess);
    var claims := Sort(policy.claims, ClaimLess);
    var byClaim := GroupByClaim(claims, considered);
    var decisions: seq<ClaimDecision> := [];
    for k := 0 to |claims|
      invariant Decisions(n, policy, asOf, adjustments, claims[..k], considered) == Ok(decisions)
    {
      assert claims[..k + 1][..k] == claims[..k];
      var decision := EvaluateClaim(n, policy, asOf, adjustments, claims[k], byClaim[claims[k].name]);
      if decision.Err? {
        FailureStays(n, policy, asOf, adjustments, claims, considered, k + 1);
        return Err(decision.error);
      }
      decisions := decisions + [decision.value];
    }
    assert claims[..|claims|] == claims;
    r := Ok(EvaluationResult(policy.policyId, asOf, |events|, |considered|, pending, decisions,
                             if policy.updates.None? then None else Some(adjustments)));
  }

  lemma {:induction false} FailureStays(n: Numerics, policy: Policy, asOf: int, adjustments: seq<Adjustment>,
                                        claims: seq<ClaimPolicy>, events: seq<Event>, k: nat)
    requires k <= |claims| && Decisions(n, policy, asOf, adjustments, claims[..k], events).Err?
    ensures Decisions(n, policy, asOf, adjustments, claims, events)
        == Decisions(n, policy, asOf, adjustments, claims[..k], events)
    decreases |claims|
  {
    hide EvaluateClaim, Filter;
    if k < |claims| {
      assert claims[..|claims| - 1][..k] == claims[..k];
      FailureStays(n, policy, asOf, adjustments, claims[..|claims| - 1], events, k);
    } else {
      assert claims[..k] == claims;
    }
  }
}
