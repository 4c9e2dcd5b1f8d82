/** Historical replay (replay.py): one evaluation per ingestion or adjudication time. */
module Replay {
  import opened Wrappers
  import opened Ledger
  import opened Ordering
  import opened Engine
  import opened EngineSafety

  predicate IngestLess(x: Event, y: Event) {
    x.ingestedAt < y.ingestedAt || (x.ingestedAt == y.ingestedAt && TextLess(x.eventId, y.eventId))
  }

  predicate JudgeLess(x: Adjudication, y: Adjudication) {
    x.adjudicatedAt < y.adjudicatedAt || (x.adjudicatedAt == y.adjudicatedAt && TextLess(x.eventId, y.eventId))
  }

  function IngestTime(): Event -> int {
    (e: Event) => e.ingestedAt
  }

  function JudgeTime(): Adjudication -> int {
    (a: Adjudication) => a.adjudicatedAt
  }

  /** Every ingestion and adjudication time, once, in order. */
  function Boundaries(ordered: seq<Event>, adjudged: seq<Adjudication>): seq<int> {
    Sort(Dedup(Map(ordered, IngestTime()) + Map(adjudged, JudgeTime())), IntLess)
  }

  /** What is evaluated at a boundary: nothing later is visible. */
  function SnapshotAt(n: Numerics, policy: Policy, ordered: seq<Event>, adjudged: seq<Adjudication>,
                      asOf: int): Result<EvaluationResult, Failure>
    requires ValidPolicy(policy)
  {
    Evaluate(n, policy, Filter(ordered, IngestedBy(asOf)), asOf, Filter(adjudged, JudgedBy(asOf)))
  }

  function Snapshots(n: Numerics, policy: Policy, ordered: seq<Event>, adjudged: seq<Adjudication>,
                     times: seq<int>): Result<seq<EvaluationResult>, Failure>
    requires ValidPolicy(policy)
  {
    if times == [] then Ok([])
    else
      match Snapshots(n, policy, ordered, adjudged, times[..|times| - 1])
      case Err(f) => Err(f)
      case Ok(rs) =>
        match SnapshotAt(n, policy, ordered, adjudged, times[|times| - 1])
        case Err(f) => Err(f)
        case Ok(r) => Ok(rs + [r])
  }

  function Run(n: Numerics, policy: Policy, events: seq<Event>,
               items: seq<Adjudication>): Result<seq<EvaluationResult>, Failure>
    requires ValidPolicy(policy)
  {
    var eventFailure := EventFailure(policy, events);
    var ordered := Sort(events, IngestLess);
    var itemFailure := AdjudicationFailure(policy, ordered, items);
    if eventFailure.Some? then Err(eventFailure.value)
    else if itemFailure.Some? then Err(itemFailure.value)
    else
      var adjudged := Sort(items, JudgeLess);
      Snapshots(n, policy, ordered, adjudged, Boundaries(ordered, adjudged))
  }

  // ----- Sorting keeps a stream valid -----

  lemma IngestStrict()
    ensures Strict(IngestLess) && Strict(JudgeLess)
  {
    hide TextLess;
    TextStrict();
  }

  lemma SortedEvents(events: seq<Event>)
    requires DistinctIds(events)
    ensures var s := Sort(events, IngestLess); DistinctIds(s) && SameMembers(s, events)
  {
    hide Sort, TextLess;
    IngestStrict();
    forall i, j | 0 <= i < j < |events|
      ensures IngestLess(events[i], events[j]) || IngestLess(events[j], events[i])
    {
      TextTotal(events[i].eventId, events[j].eventId);
    }
    SortAscends(events, IngestLess);
    SortIn(events, IngestLess);
    var s := Sort(events, IngestLess);
    forall i, j | 0 <= i < j < |s|
      ensures s[i].eventId != s[j].eventId
    {
      assert IngestLess(s[i], s[j]) && !IngestLess(s[i], s[i]);
      assert s[i] in s && s[j] in s;
      var p :| 0 <= p < |events| && events[p] == s[i];
      var q :| 0 <= q < |events| && events[q] == s[j];
      assert p != q;
    }
  }

  lemma SortedItems(items: seq<Adjudication>)
    requires DistinctJudged(items)
    ensures var s := Sort(items, JudgeLess); DistinctJudged(s) && SameMembers(s, items)
  {
    hide Sort, TextLess;
    IngestStrict();
    forall i, j | 0 <= i < j < |items|
      ensures JudgeLess(items[i], items[j]) || JudgeLess(items[j], items[i])
    {
      TextTotal(items[i].eventId, items[j].eventId);
    }
    SortAscends(items, JudgeLess);
    SortIn(items, JudgeLess);
    var s := Sort(items, JudgeLess);
    forall i, j | 0 <= i < j < |s|
      ensures s[i].eventId != s[j].eventId
    {
      assert JudgeLess(s[i], s[j]) && !JudgeLess(s[i], s[i]);
      assert s[i] in s && s[j] in s;
      var p :| 0 <= p < |items| && items[p] == s[i];
      var q :| 0 <= q < |items| && items[q] == s[j];
      assert p != q;
    }
  }

  /** A stream with the same members is as valid. */
  lemma SameValidity(policy: Policy, a: seq<Event>, b: seq<Event>, i: seq<Adjudication>, j: seq<Adjudication>)
    requires SameMembers(a, b) && SameMembers(i, j) && DistinctIds(b) && DistinctJudged(j)
    requires ValidEvents(policy, a) && ValidItems(policy, a, i)
    ensures ValidEvents(policy, b) && ValidItems(policy, b, j)
  {
    hide KnownClaim, Skewed, Mismatched, Premature, DistinctIds, DistinctJudged;
    SameEmpty(i, j);
    forall x
      ensures Mismatched(a, x) == Mismatched(b, x) && Premature(a, x) == Premature(b, x)
    {
      SameJudgements(a, b, x);
    }
  }

  // ----- A snapshot's inputs are valid -----

  lemma RestrictedValid(policy: Policy, events: seq<Event>, items: seq<Adjudication>, asOf: int)
    requires ValidEvents(policy, events) && ValidItems(policy, events, items)
    ensures ValidEvents(policy, Filter(events, IngestedBy(asOf)))
    ensures ValidItems(policy, Filter(events, IngestedBy(asOf)), Filter(items, JudgedBy(asOf)))
  {
    hide KnownClaim, Skewed, DistinctIds, DistinctJudged, Filter, EventById;
    FilterDistinctIds(events, IngestedBy(asOf));
    FilterDistinctJudged(items, JudgedBy(asOf));
    FilterIn(events, IngestedBy(asOf));
    FilterIn(items, JudgedBy(asOf));
    var fewer, kept := Filter(events, IngestedBy(asOf)), Filter(items, JudgedBy(asOf));
    assert kept != [] ==> kept[0] in kept;
    forall a | a in kept
      ensures !Mismatched(fewer, a) && !Premature(fewer, a)
    {
      var found := EventById(fewer, a.eventId);
      if found.Some? {
        EventByIdExact(fewer, found.value, a.eventId);
        EventByIdExact(events, found.value, a.eventId);
      }
    }
  }

  lemma SnapshotOk(n: Numerics, policy: Policy, events: seq<Event>, items: seq<Adjudication>, asOf: int)
    requires ValidPolicy(policy) && ValidEvents(policy, events) && ValidItems(policy, events, items)
    ensures var r := SnapshotAt(n, policy, events, items, asOf); r.Ok? && r.value.evaluatedAt == asOf
  {
    hide ValidEvents, ValidItems, Filter, EventFailure, AdjudicationFailure, Adjustments, Decisions;
    RestrictedValid(policy, events, items, asOf);
    EvaluateTotal(n, policy, asOf, Filter(events, IngestedBy(asOf)), Filter(items, JudgedBy(asOf)));
  }

  function Snapshot(n: Numerics, policy: Policy, ordered: seq<Event>, adjudged: seq<Adjudication>,
                    asOf: int): EvaluationResult
    requires ValidPolicy(policy) && ValidEvents(policy, ordered) && ValidItems(policy, ordered, adjudged)
  {
    SnapshotOk(n, policy, ordered, adjudged, asOf);
    SnapshotAt(n, policy, ordered, adjudged, asOf).value
  }

  lemma {:induction false} SnapshotsExact(n: Numerics, policy: Policy, ordered: seq<Event>,
                                          adjudged: seq<Adjudication>, times: seq<int>)
    requires ValidPolicy(policy) && ValidEvents(policy, ordered) && ValidItems(policy, ordered, adjudged)
    ensures var r := Snapshots(n, policy, ordered, adjudged, times);
            && r.Ok? && |r.value| == |times|
            && forall k | 0 <= k < |times| :: r.value[k] == Snapshot(n, policy, ordered, adjudged, times[k])
  {
    hide ValidEvents, ValidItems, SnapshotAt;
    if times != [] {
      SnapshotsExact(n, policy, ordered, adjudged, times[..|times| - 1]);
      SnapshotOk(n, policy, ordered, adjudged, times[|times| - 1]);
    }
  }

  // ----- Results -----

  /** Replay succeeds exactly on valid streams: once stream validation passes, no
      snapshot can fail. Its snapshots are dated by the boundaries. */
  lemma ReplayTotal(n: Numerics, policy: Policy, events: seq<Event>, items: seq<Adjudication>)
    requires ValidPolicy(policy)
    ensures Run(n, policy, events, items).Ok? <==> ValidEvents(policy, events) && ValidItems(policy, events, items)
    ensures Run(n, policy, events, items).Ok? ==>
              var ordered, adjudged := Sort(events, IngestLess), Sort(items, JudgeLess);
              && ValidEvents(policy, ordered) && ValidItems(policy, ordered, adjudged)
              && var times, rs := Boundaries(ordered, adjudged), Run(n, policy, events, items).value;
                 |rs| == |times| && forall k | 0 <= k < |times| ::
                     rs[k] == Snapshot(n, policy, ordered, adjudged, times[k])
  {
    hide ValidItems, EventFailure, AdjudicationFailure, Sort, Snapshots, Boundaries, Snapshot, SameMembers, Skewed,
      KnownClaim;
    var ordered := Sort(events, IngestLess);
    EventFailureExact(policy, events);
    ItemFailureExact(policy, ordered, items);
    if ValidEvents(policy, events) {
      SortedEvents(events);
      SameItems(policy, ordered, events, items);
      if ValidItems(policy, ordered, items) {
        var adjudged := Sort(items, JudgeLess);
        SortedValid(policy, events, items);
        SnapshotsExact(n, policy, ordered, adjudged, Boundaries(ordered, adjudged));
      }
    }
  }

  lemma SameItems(policy: Policy, a: seq<Event>, b: seq<Event>, items: seq<Adjudication>)
    requires SameMembers(a, b) && DistinctIds(a) && DistinctIds(b)
    ensures ValidItems(policy, a, items) <==> ValidItems(policy, b, items)
  {
    hide Mismatched, Premature, DistinctIds, DistinctJudged;
    forall x
      ensures Mismatched(a, x) == Mismatched(b, x) && Premature(a, x) == Premature(b, x)
    {
      SameJudgements(a, b, x);
    }
  }

  lemma SortedValid(policy: Policy, events: seq<Event>, items: seq<Adjudication>)
    requires ValidEvents(policy, events) && ValidItems(policy, events, items)
    ensures ValidEvents(policy, Sort(events, IngestLess))
        && ValidItems(policy, Sort(events, IngestLess), Sort(items, JudgeLess))
  {
    hide Sort, Mismatched, Premature, KnownClaim, Skewed, DistinctIds, DistinctJudged;
    SortedEvents(events);
    SortedItems(items);
    SameValidity(policy, events, Sort(events, IngestLess), items, Sort(items, JudgeLess));
  }

  /** Every snapshot is the evaluation, at its own boundary, of exactly the events ingested
      and the adjudications made by then, listed in any order. */
  lemma SnapshotIsEvaluation(n: Numerics, policy: Policy, events: seq<Event>, items: seq<Adjudication>, k: nat,
                             visible: seq<Event>, known: seq<Adjudication>)
    requires ValidPolicy(policy) && Run(n, policy, events, items).Ok? && k < |Run(n, policy, events, items).value|
    requires DistinctIds(visible) && DistinctJudged(known)
    requires var t := Run(n, policy, events, items).value[k].evaluatedAt;
             && (forall e :: e in visible <==> e in events && e.ingestedAt <= t)
             && (forall a :: a in known <==> a in items && a.adjudicatedAt <= t)
    ensures var r := Run(n, policy, events, items).value;
            && Evaluate(n, policy, visible, r[k].evaluatedAt, known) == Ok(r[k])
            && |r| == |Boundaries(events, items)| && r[k].evaluatedAt == Boundaries(events, items)[k]
  {
    hide Filter, Sort, Run, ValidEvents, ValidItems, Evaluate, Boundaries, DistinctIds, DistinctJudged;
    ReplayTotal(n, policy, events, items);
    var ordered, adjudged := Sort(events, IngestLess), Sort(items, JudgeLess);
    SortIn(events, IngestLess);
    SortIn(items, JudgeLess);
    SameTimes(events, items, ordered, adjudged);
    var t := Boundaries(ordered, adjudged)[k];
    SnapshotDate(n, policy, ordered, adjudged, t);
    RestrictedValid(policy, ordered, adjudged, t);
    FilterIn(ordered, IngestedBy(t));
    FilterIn(adjudged, JudgedBy(t));
    var fewer, kept := Filter(ordered, IngestedBy(t)), Filter(adjudged, JudgedBy(t));
    SameValidity(policy, fewer, visible, kept, known);
    SameKnowledge(n, policy, t, fewer, visible, kept, known);
  }

  lemma SameTimes(a: seq<Event>, i: seq<Adjudication>, b: seq<Event>, j: seq<Adjudication>)
    requires SameMembers(a, b) && SameMembers(i, j)
    ensures Boundaries(a, i) == Boundaries(b, j)
  {
    hide Boundaries;
    BoundariesExact(a, i);
    BoundariesExact(b, j);
    forall t
      ensures t in Boundaries(a, i) <==> t in Boundaries(b, j)
    {
      if e :| e in a && e.ingestedAt == t {
        assert e in b;
      }
      if e :| e in b && e.ingestedAt == t {
        assert e in a;
      }
      if x :| x in i && x.adjudicatedAt == t {
        assert x in j;
      }
      if x :| x in j && x.adjudicatedAt == t {
        assert x in i;
      }
    }
    AscendsUnique(Boundaries(a, i), Boundaries(b, j), IntLess);
  }

  function Until(t: int): int -> bool {
    (x: int) => x <= t
  }

  function DatedUntil(t: int): EvaluationResult -> bool {
    (r: EvaluationResult) => r.evaluatedAt <= t
  }

  lemma BoundariesExact(ordered: seq<Event>, adjudged: seq<Adjudication>)
    ensures Ascends(Boundaries(ordered, adjudged), IntLess)
    ensures forall t :: t in Boundaries(ordered, adjudged) <==>
              (exists e :: e in ordered && e.ingestedAt == t) || (exists a :: a in adjudged && a.adjudicatedAt == t)
  {
    hide Sort, Dedup;
    var times := Map(ordered, IngestTime()) + Map(adjudged, JudgeTime());
    DedupDistinct(times);
    DedupIn(times);
    SortAscends(Dedup(times), IntLess);
    SortIn(Dedup(times), IntLess);
    MapIn(ordered, IngestTime());
    MapIn(adjudged, JudgeTime());
    forall t
      ensures t in times <==> (exists e :: e in ordered && e.ingestedAt == t)
                              || (exists a :: a in adjudged && a.adjudicatedAt == t)
    {
      TimesIn(ordered, adjudged, t);
    }
  }

  lemma TimesIn(ordered: seq<Event>, adjudged: seq<Adjudication>, t: int)
    ensures t in Map(ordered, IngestTime()) + Map(adjudged, JudgeTime()) <==>
              (exists e :: e in ordered && e.ingestedAt == t) || (exists a :: a in adjudged && a.adjudicatedAt == t)
  {
    hide Map;
    MapIn(ordered, IngestTime());
    MapIn(adjudged, JudgeTime());
    var x, y := Map(ordered, IngestTime()), Map(adjudged, JudgeTime());
    assert t in x + y <==> t in x || t in y;
    if e :| e in ordered && e.ingestedAt == t {
      assert IngestTime()(e) in x;
    }
    if a :| a in adjudged && a.adjudicatedAt == t {
      assert JudgeTime()(a) in y;
    }
  }

  /** Two streams that agree on everything dated up to `t`. */
  ghost predicate AgreeUntil(t: int, a: seq<Event>, b: seq<Event>, i: seq<Adjudication>, j: seq<Adjudication>) {
    && (forall e: Event | e.ingestedAt <= t :: e in a <==> e in b)
    && (forall x: Adjudication | x.adjudicatedAt <= t :: x in i <==> x in j)
  }

  /** Replay is a function of its own prefix: two valid streams that agree on every event
      and adjudication dated up to `t`, whatever they add later and in whatever order,
      give the same snapshots at every boundary up to `t`. */
  lemma ReplayPrefixStable(n: Numerics, policy: Policy, t: int, a: seq<Event>, b: seq<Event>,
                           i: seq<Adjudication>, j: seq<Adjudication>)
    requires ValidPolicy(policy) && AgreeUntil(t, a, b, i, j)
    requires Run(n, policy, a, i).Ok? && Run(n, policy, b, j).Ok?
    ensures Filter(Run(n, policy, a, i).value, DatedUntil(t)) == Filter(Run(n, policy, b, j).value, DatedUntil(t))
  {
    hide Filter, Sort, Run, ValidEvents, ValidItems, Boundaries, Snapshot;
    ReplayTotal(n, policy, a, i);
    ReplayTotal(n, policy, b, j);
    var oa, ob, ai, aj := Sort(a, IngestLess), Sort(b, IngestLess), Sort(i, JudgeLess), Sort(j, JudgeLess);
    SortIn(a, IngestLess);
    SortIn(b, IngestLess);
    SortIn(i, JudgeLess);
    SortIn(j, JudgeLess);
    assert AgreeUntil(t, oa, ob, ai, aj);
    SameBoundaries(t, oa, ob, ai, aj);
    var ta, tb := Boundaries(oa, ai), Boundaries(ob, aj);
    forall x | x <= t
      ensures Snapshot(n, policy, oa, ai, x) == Snapshot(n, policy, ob, aj, x)
    {
      SameSnapshot(n, policy, t, oa, ob, ai, aj, x);
    }
    DatedSnapshots(n, policy, oa, ai, ta, Run(n, policy, a, i).value, t);
    DatedSnapshots(n, policy, ob, aj, tb, Run(n, policy, b, j).value, t);
  }

  lemma SameBoundaries(t: int, a: seq<Event>, b: seq<Event>, i: seq<Adjudication>, j: seq<Adjudication>)
    requires AgreeUntil(t, a, b, i, j)
    ensures Filter(Boundaries(a, i), Until(t)) == Filter(Boundaries(b, j), Until(t))
  {
    hide Filter, Boundaries;
    BoundariesExact(a, i);
    BoundariesExact(b, j);
    FilterIn(Boundaries(a, i), Until(t));
    FilterIn(Boundaries(b, j), Until(t));
    FilterAscends(Boundaries(a, i), Until(t), IntLess);
    FilterAscends(Boundaries(b, j), Until(t), IntLess);
    AscendsUnique(Filter(Boundaries(a, i), Until(t)), Filter(Boundaries(b, j), Until(t)), IntLess);
  }

  lemma SameSnapshot(n: Numerics, policy: Policy, t: int, a: seq<Event>, b: seq<Event>,
                     i: seq<Adjudication>, j: seq<Adjudication>, asOf: int)
    requires ValidPolicy(policy) && AgreeUntil(t, a, b, i, j) && asOf <= t
    requires ValidEvents(policy, a) && ValidItems(policy, a, i) && ValidEvents(policy, b) && ValidItems(policy, b, j)
    ensures Snapshot(n, policy, a, i, asOf) == Snapshot(n, policy, b, j, asOf)
  {
    hide Filter, ValidEvents, ValidItems, Evaluate;
    RestrictedValid(policy, a, i, asOf);
    RestrictedValid(policy, b, j, asOf);
    FilterIn(a, IngestedBy(asOf));
    FilterIn(b, IngestedBy(asOf));
    FilterIn(i, JudgedBy(asOf));
    FilterIn(j, JudgedBy(asOf));
    SameKnowledge(n, policy, asOf, Filter(a, IngestedBy(asOf)), Filter(b, IngestedBy(asOf)),
                  Filter(i, JudgedBy(asOf)), Filter(j, JudgedBy(asOf)));
  }

  /** The snapshots dated up to `t` are those of the boundaries up to `t`. */
  lemma {:induction false} DatedSnapshots(n: Numerics, policy: Policy, ordered: seq<Event>, adjudged: seq<Adjudication>,
                                          times: seq<int>, rs: seq<EvaluationResult>, t: int)
    requires ValidPolicy(policy) && ValidEvents(policy, ordered) && ValidItems(policy, ordered, adjudged)
    requires |rs| == |times| && forall k | 0 <= k < |times| :: rs[k] == Snapshot(n, policy, ordered, adjudged, times[k])
    ensures var kept := Filter(times, Until(t));
            && |Filter(rs, DatedUntil(t))| == |kept|
            && forall k | 0 <= k < |kept| ::
                 kept[k] <= t && Filter(rs, DatedUntil(t))[k] == Snapshot(n, policy, ordered, adjudged, kept[k])
    decreases |times|
  {
    hide ValidEvents, ValidItems, SnapshotAt, Snapshot;
    if times != [] {
      var m := |times| - 1;
      DatedSnapshots(n, policy, ordered, adjudged, times[..m], rs[..m], t);
      SnapshotDate(n, policy, ordered, adjudged, times[m]);
    }
  }

  lemma SnapshotDate(n: Numerics, policy: Policy, ordered: seq<Event>, adjudged: seq<Adjudication>, asOf: int)
    requires ValidPolicy(policy) && ValidEvents(policy, ordered) && ValidItems(policy, ordered, adjudged)
    ensures Snapshot(n, policy, ordered, adjudged, asOf).evaluatedAt == asOf
  {
    hide ValidEvents, ValidItems, SnapshotAt;
    SnapshotOk(n, policy, ordered, adjudged, asOf);
  }

  /** Adding valid events and adjudications dated strictly after `t` leaves every
      snapshot at a boundary up to `t` exactly as it was. */
  lemma LaterEvidenceChangesNothing(n: Numerics, policy: Policy, t: int, events: seq<Event>, later: seq<Event>,
                                    items: seq<Adjudication>, laterItems: seq<Adjudication>)
    requires ValidPolicy(policy)
    requires forall e | e in later :: e.ingestedAt > t
    requires forall a | a in laterItems :: a.adjudicatedAt > t
    requires Run(n, policy, events, items).Ok? && Run(n, policy, events + later, items + laterItems).Ok?
    ensures Filter(Run(n, policy, events + later, items + laterItems).value, DatedUntil(t))
         == Filter(Run(n, policy, events, items).value, DatedUntil(t))
  {
    hide Run, Filter;
    assert AgreeUntil(t, events + later, events, items + laterItems, items);
    ReplayPrefixStable(n, policy, t, events + later, events, items + laterItems, items);
  }
}
