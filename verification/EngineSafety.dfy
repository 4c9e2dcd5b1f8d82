/** What evaluation promises: order independence, one representative per correlation
    group and signal, no effect from outranked evidence, and no late skew failure.
 */
module EngineSafety {
  import opened Wrappers
  import opened Ledger
  import opened Ordering
  import opened Engine

  // ----- Orders -----

  lemma WeightedStrict()
    ensures Strict(WeightedLess)
  {
    hide TextLess;
    TextStrict();
  }

  lemma RankingStrict(n: Numerics)
    ensures Strict(Ranking(n))
  {
    hide TextLess;
    TextStrict();
  }

  lemma KeyStrict()
    ensures Strict(KeyLess) && Strict(SelectionLess)
  {
    hide TextLess;
    TextStrict();
  }

  lemma KeyTotal(x: Key, y: Key)
    ensures x == y || KeyLess(x, y) || KeyLess(y, x)
  {
    hide TextLess;
    TextTotal(x.group, y.group);
  }

  // ----- Distinct identifiers -----

  predicate DistinctIds(events: seq<Event>) {
    forall i, j | 0 <= i < j < |events| :: events[i].eventId != events[j].eventId
  }

  predicate DistinctJudged(items: seq<Adjudication>) {
    forall i, j | 0 <= i < j < |items| :: items[i].eventId != items[j].eventId
  }

  lemma TwiceCounted(ids: seq<string>, i: nat, j: nat)
    requires i < j < |ids| && ids[i] == ids[j]
    ensures multiset(ids)[ids[i]] > 1
  {
    assert ids == ids[..i] + [ids[i]] + ids[i + 1..];
    assert ids[i + 1..][j - i - 1] == ids[j];
    assert ids[j] in multiset(ids[i + 1..]);
  }

  lemma RepeatShows(ids: seq<string>, i: nat, j: nat)
    requires i < j < |ids| && ids[i] == ids[j]
    ensures Duplicates(ids) != []
  {
    hide SortedSet, Filter;
    TwiceCounted(ids, i, j);
    FilterIn(ids, Repeated(ids));
    SortedSetIn(Filter(ids, Repeated(ids)));
    assert ids[i] in Duplicates(ids);
  }

  lemma NoDuplicates(ids: seq<string>)
    requires Duplicates(ids) == []
    ensures Distinct(ids)
  {
    hide Duplicates;
    forall i, j | 0 <= i < j < |ids|
      ensures ids[i] != ids[j]
    {
      if ids[i] == ids[j] {
        RepeatShows(ids, i, j);
      }
    }
  }

  /** Distinct identifiers stay distinct, and texts read from them sort uniquely. */
  lemma IdsSort(s: seq<string>, t: seq<string>)
    requires Distinct(s) && Distinct(t) && SameMembers(s, t)
    ensures Sort(s, TextLess) == Sort(t, TextLess)
  {
    hide Sort, TextLess, Distinct;
    TextStrict();
    DistinctTextsComparable(s);
    DistinctTextsComparable(t);
    SameSort(s, t, TextLess);
  }

  lemma {:induction false} FilterDistinctIds(events: seq<Event>, keep: Event -> bool)
    requires DistinctIds(events)
    ensures DistinctIds(Filter(events, keep))
  {
    if events != [] {
      var m := |events| - 1;
      FilterDistinctIds(events[..m], keep);
      FilterIn(events[..m], keep);
      var r := Filter(events[..m], keep);
      forall i | 0 <= i < |r|
        ensures r[i].eventId != events[m].eventId
      {
        assert r[i] in r;
        assert r[i] in events[..m];
      }
    }
  }

  lemma {:induction false} FilterDistinctJudged(items: seq<Adjudication>, keep: Adjudication -> bool)
    requires DistinctJudged(items)
    ensures DistinctJudged(Filter(items, keep))
  {
    if items != [] {
      var m := |items| - 1;
      FilterDistinctJudged(items[..m], keep);
      FilterIn(items[..m], keep);
      var r := Filter(items[..m], keep);
      forall i | 0 <= i < |r|
        ensures r[i].eventId != items[m].eventId
      {
        assert r[i] in r;
        assert r[i] in items[..m];
      }
    }
  }

  // ----- What validation establishes -----

  predicate ValidEvents(policy: Policy, events: seq<Event>) {
    && DistinctIds(events)
    && (forall e | e in events :: KnownClaim(policy, e.claim) && !Skewed(policy, e))
  }

  predicate ValidItems(policy: Policy, events: seq<Event>, items: seq<Adjudication>) {
    && (items != [] ==> policy.updates.Some?)
    && DistinctJudged(items)
    && (forall a | a in items :: a.source in policy.sources && !Mismatched(events, a) && !Premature(events, a))
  }

  lemma FilterEmpty<T(!new)>(s: seq<T>, keep: T -> bool)
    ensures Filter(s, keep) == [] <==> forall x | x in s :: !keep(x)
  {
    hide Filter;
    FilterIn(s, keep);
    var r := Filter(s, keep);
    assert r != [] ==> r[0] in r;
  }

  /** No complaint means exactly that identifiers are distinct, claims are configured
      and no observation runs too far ahead of its ingestion. */
  lemma EventFailureExact(policy: Policy, events: seq<Event>)
    ensures EventFailure(policy, events).None? <==> ValidEvents(policy, events)
  {
    hide Filter, SortedSet, KnownClaim, Skewed;
    var ids := Map(events, EventIdOf());
    DuplicatesExact(ids);
    MapIn(events, ClaimOf());
    FilterEmpty(Map(events, ClaimOf()), UnknownClaim(policy));
    FilterEmpty(events, SkewedIn(policy));
    assert DistinctIds(events) <==> Distinct(ids);
  }

  lemma DuplicatesExact(ids: seq<string>)
    ensures Duplicates(ids) == [] <==> Distinct(ids)
  {
    hide SortedSet, Filter;
    if Duplicates(ids) == [] {
      NoDuplicates(ids);
    } else {
      var d := Duplicates(ids);
      assert d[0] in d;
      SortedSetIn(Filter(ids, Repeated(ids)));
      FilterIn(ids, Repeated(ids));
      RepeatedIsTwice(ids, d[0]);
    }
  }

  lemma RepeatedIsTwice(ids: seq<string>, id: string)
    requires multiset(ids)[id] > 1
    ensures !Distinct(ids)
  {
    assert id in multiset(ids);
    var i :| 0 <= i < |ids| && ids[i] == id;
    assert ids == ids[..i] + [id] + ids[i + 1..];
    assert id in ids[..i] || id in ids[i + 1..];
    if id in ids[..i] {
      var j :| 0 <= j < i && ids[..i][j] == id;
      assert ids[j] == ids[i];
    } else {
      var j :| 0 <= j < |ids[i + 1..]| && ids[i + 1..][j] == id;
      assert ids[i + 1 + j] == ids[i];
    }
  }

  lemma ItemFailureExact(policy: Policy, events: seq<Event>, items: seq<Adjudication>)
    ensures AdjudicationFailure(policy, events, items).None? <==> ValidItems(policy, events, items)
  {
    hide Filter, SortedSet, Sort, Mismatched, Premature;
    var ids := Map(items, JudgedIdOf());
    DuplicatesExact(ids);
    MapIn(items, JudgedSourceOf());
    FilterEmpty(Map(items, JudgedSourceOf()), UnknownSource(policy));
    FilterEmpty(items, MismatchedIn(events));
    FilterEmpty(items, PrematureIn(events));
    assert DistinctJudged(items) <==> Distinct(ids);
  }

  // ----- Order independence -----

  /** When the complaint about an event stream cannot depend on arrival order: an
      earlier rule already fails, or at most one event is skewed. */
  predicate OneReport(policy: Policy, events: seq<Event>) {
    || Duplicates(Map(events, EventIdOf())) != []
    || Filter(Map(events, ClaimOf()), UnknownClaim(policy)) != []
    || |Filter(events, SkewedIn(policy))| <= 1
  }

  /** Under that condition every permutation gets the same complaint; without it every
      permutation gets a skew complaint. */
  lemma EventFailureOrderFree(policy: Policy, a: seq<Event>, b: seq<Event>)
    requires multiset(a) == multiset(b)
    ensures OneReport(policy, a) ==> EventFailure(policy, a) == EventFailure(policy, b)
    ensures !OneReport(policy, a) ==> SkewReported(policy, a) && SkewReported(policy, b)
  {
    hide Filter, SortedSet, KnownClaim, Skewed;
    PermutedMembers(a, b);
    PermutedMap(a, b, EventIdOf());
    SameDuplicates(Map(a, EventIdOf()), Map(b, EventIdOf()));
    SameMap(a, b, ClaimOf());
    SameFilter(Map(a, ClaimOf()), Map(b, ClaimOf()), UnknownClaim(policy));
    SameEmpty(Filter(Map(a, ClaimOf()), UnknownClaim(policy)), Filter(Map(b, ClaimOf()), UnknownClaim(policy)));
    SameSortedSet(Filter(Map(a, ClaimOf()), UnknownClaim(policy)), Filter(Map(b, ClaimOf()), UnknownClaim(policy)));
    SameFilter(a, b, SkewedIn(policy));
    SameHead(Filter(a, SkewedIn(policy)), Filter(b, SkewedIn(policy)));
  }

  /** The complaint is the skew one, naming the first skewed event. */
  predicate SkewReported(policy: Policy, events: seq<Event>) {
    var skewed := Filter(events, SkewedIn(policy));
    skewed != [] && EventFailure(policy, events) == Some(FutureSkew(skewed[0].eventId))
  }

  lemma SameHead(f: seq<Event>, g: seq<Event>)
    requires SameMembers(f, g)
    ensures f == [] <==> g == []
    ensures |f| == 1 ==> g != [] && g[0] == f[0]
  {
    SameEmpty(f, g);
    assert g != [] ==> g[0] in g;
  }

  lemma {:induction false} FilterLeads(x: Event, s: seq<Event>, keep: Event -> bool)
    requires keep(x)
    ensures var r := Filter([x] + s, keep); r != [] && r[0] == x
  {
    if s == [] {
      assert [x] + s == [x] && [x][..0] == [];
    } else {
      FilterLeads(x, s[..|s| - 1], keep);
      assert ([x] + s)[..|s|] == [x] + s[..|s| - 1];
    }
  }

  /** With two skewed events and nothing worse, moving the second to the front changes
      which one is named. */
  lemma SkewReportMoves(policy: Policy, a: seq<Event>) returns (b: seq<Event>)
    requires !OneReport(policy, a)
    ensures multiset(b) == multiset(a) && EventFailure(policy, b) != EventFailure(policy, a)
  {
    hide Filter, SortedSet, KnownClaim, Skewed, EventFailure;
    var p := SkewedIn(policy);
    var skewed := Filter(a, p);
    FilterIn(a, p);
    assert skewed[1] in skewed;
    var k :| 0 <= k < |a| && a[k] == skewed[1];
    var others := a[..k] + a[k + 1..];
    b := [a[k]] + others;
    RemoveAt(a, k);
    FilterLeads(a[k], others, p);
    EventFailureOrderFree(policy, a, b);
    NoDuplicates(Map(a, EventIdOf()));
    FilterDistinctIds(a, p);
  }

  /** Order independence of the report, exactly: every permutation gets the same
      complaint if and only if an earlier rule fails or at most one event is skewed. */
  lemma ReportOrderFreeExact(policy: Policy, a: seq<Event>)
    ensures (forall b | multiset(b) == multiset(a) :: EventFailure(policy, b) == EventFailure(policy, a))
       <==> OneReport(policy, a)
  {
    hide OneReport, EventFailure;
    if OneReport(policy, a) {
      forall b | multiset(b) == multiset(a)
        ensures EventFailure(policy, b) == EventFailure(policy, a)
      {
        EventFailureOrderFree(policy, a, b);
      }
    } else {
      var b := SkewReportMoves(policy, a);
    }
  }

  lemma SameDuplicates(s: seq<string>, t: seq<string>)
    requires multiset(s) == multiset(t)
    ensures Duplicates(s) == Duplicates(t)
  {
    hide SortedSet, Filter;
    PermutedMembers(s, t);
    FilterIn(s, Repeated(s));
    FilterIn(t, Repeated(t));
    SameSortedSet(Filter(s, Repeated(s)), Filter(t, Repeated(t)));
  }

  /** With distinct IDs the dictionary holds exactly the stream. */
  lemma {:induction false} EventByIdExact(events: seq<Event>, e: Event, id: string)
    requires DistinctIds(events)
    ensures EventById(events, id) == Some(e) <==> e in events && e.eventId == id
  {
    if events != [] {
      var m := |events| - 1;
      SplitLast(events);
      EventByIdExact(events[..m], e, id);
      forall x | x in events[..m]
        ensures x.eventId != events[m].eventId
      {
        var i :| 0 <= i < m && events[..m][i] == x;
        assert events[i] == x;
      }
    }
  }

  lemma SameJudgements(a: seq<Event>, b: seq<Event>, x: Adjudication)
    requires SameMembers(a, b) && DistinctIds(a) && DistinctIds(b)
    ensures Mismatched(a, x) == Mismatched(b, x) && Premature(a, x) == Premature(b, x)
  {
    hide EventById, DistinctIds;
    forall e
      ensures EventById(a, x.eventId) == Some(e) <==> EventById(b, x.eventId) == Some(e)
    {
      EventByIdExact(a, e, x.eventId);
      EventByIdExact(b, e, x.eventId);
    }
  }

  lemma JudgedIdsSort(i: seq<Adjudication>, j: seq<Adjudication>)
    requires DistinctJudged(i) && DistinctJudged(j) && SameMembers(i, j)
    ensures Sort(Map(i, JudgedIdOf()), TextLess) == Sort(Map(j, JudgedIdOf()), TextLess)
  {
    hide Sort, SameMembers;
    SameMap(i, j, JudgedIdOf());
    IdsSort(Map(i, JudgedIdOf()), Map(j, JudgedIdOf()));
  }

  /** Complaints about adjudications never depend on arrival order. */
  lemma AdjudicationFailureOrderFree(policy: Policy, a: seq<Event>, b: seq<Event>, i: seq<Adjudication>,
                                     j: seq<Adjudication>)
    requires SameMembers(a, b) && DistinctIds(a) && DistinctIds(b) && multiset(i) == multiset(j)
    ensures AdjudicationFailure(policy, a, i) == AdjudicationFailure(policy, b, j)
  {
    hide Filter, SortedSet, Sort, Mismatched, Premature, Duplicates, DistinctJudged, DistinctIds;
    PermutedMembers(i, j);
    PermutedMap(i, j, JudgedIdOf());
    SameEmpty(i, j);
    SameDuplicates(Map(i, JudgedIdOf()), Map(j, JudgedIdOf()));
    SameMap(i, j, JudgedSourceOf());
    var si, sj := Map(i, JudgedSourceOf()), Map(j, JudgedSourceOf());
    SameFilter(si, sj, UnknownSource(policy));
    SameEmpty(Filter(si, UnknownSource(policy)), Filter(sj, UnknownSource(policy)));
    SameSortedSet(Filter(si, UnknownSource(policy)), Filter(sj, UnknownSource(policy)));
    if Duplicates(Map(i, JudgedIdOf())) == [] {
      DistinctFromIds(i);
      DistinctFromIds(j);
      SameJudgedLists(a, b, i, j);
    }
  }

  lemma DistinctFromIds(i: seq<Adjudication>)
    requires Duplicates(Map(i, JudgedIdOf())) == []
    ensures DistinctJudged(i)
  {
    hide Duplicates;
    NoDuplicates(Map(i, JudgedIdOf()));
  }

  lemma SameJudgedLists(a: seq<Event>, b: seq<Event>, i: seq<Adjudication>, j: seq<Adjudication>)
    requires SameMembers(a, b) && DistinctIds(a) && DistinctIds(b)
    requires SameMembers(i, j) && DistinctJudged(i) && DistinctJudged(j)
    ensures var f, g := Filter(i, MismatchedIn(a)), Filter(j, MismatchedIn(b));
            (f == [] <==> g == []) && Sort(Map(f, JudgedIdOf()), TextLess) == Sort(Map(g, JudgedIdOf()), TextLess)
    ensures var f, g := Filter(i, PrematureIn(a)), Filter(j, PrematureIn(b));
            (f == [] <==> g == []) && Sort(Map(f, JudgedIdOf()), TextLess) == Sort(Map(g, JudgedIdOf()), TextLess)
  {
    hide Filter, Sort, Mismatched, Premature, DistinctJudged;
    forall x
      ensures Mismatched(a, x) == Mismatched(b, x) && Premature(a, x) == Premature(b, x)
    {
      SameJudgements(a, b, x);
    }
    SameKept(i, j, MismatchedIn(a), MismatchedIn(b));
    SameKept(i, j, PrematureIn(a), PrematureIn(b));
  }

  lemma SameKept(i: seq<Adjudication>, j: seq<Adjudication>, p: Adjudication -> bool, q: Adjudication -> bool)
    requires SameMembers(i, j) && DistinctJudged(i) && DistinctJudged(j) && forall x :: p(x) == q(x)
    ensures var f, g := Filter(i, p), Filter(j, q);
            && SameMembers(f, g) && DistinctJudged(f) && DistinctJudged(g)
            && (f == [] <==> g == []) && Sort(Map(f, JudgedIdOf()), TextLess) == Sort(Map(g, JudgedIdOf()), TextLess)
  {
    hide Filter, Sort, DistinctJudged;
    FilterIn(i, p);
    FilterIn(j, q);
    FilterDistinctJudged(i, p);
    FilterDistinctJudged(j, q);
    SameEmpty(Filter(i, p), Filter(j, q));
    JudgedIdsSort(Filter(i, p), Filter(j, q));
  }

  /** Only which adjudications are known enters a reliability, not their order. */
  lemma AdjustmentsOrderFree(n: Numerics, policy: Policy, i: seq<Adjudication>, j: seq<Adjudication>)
    requires ValidPolicy(policy) && SameMembers(i, j) && DistinctJudged(i) && DistinctJudged(j)
    ensures Adjustments(n, policy, i) == Adjustments(n, policy, j)
  {
    hide Filter, Sort, DistinctJudged, SortedSet;
    if policy.updates.Some? {
      SameMap(i, j, JudgedSourceOf());
      SameSortedSet(Map(i, JudgedSourceOf()), Map(j, JudgedSourceOf()));
      forall source: string
        ensures AdjustSource(n, policy, policy.updates.value, i, source)
            == AdjustSource(n, policy, policy.updates.value, j, source)
      {
        SameKept(i, j, Judged(source, Correct), Judged(source, Correct));
        SameKept(i, j, Judged(source, Incorrect), Judged(source, Incorrect));
      }
      assert Adjustments(n, policy, i) == Adjustments(n, policy, j);
    }
  }

  // ----- Decisions on known, lawful events -----

  /** Events that evaluation at `asOf` considers after validation. */
  predicate Lawful(policy: Policy, asOf: int, events: seq<Event>) {
    && DistinctIds(events)
    && (forall e | e in events :: !Skewed(policy, e) && e.ingestedAt <= asOf)
  }

  /** Weighting never meets an observation from beyond the allowed skew. */
  lemma NeverInFuture(policy: Policy, asOf: int, events: seq<Event>)
    requires Lawful(policy, asOf, events)
    ensures Filter(events, InFutureOf(policy, asOf)) == []
  {
    hide DistinctIds;
    FilterEmpty(events, InFutureOf(policy, asOf));
  }

  lemma WeighedComparable(n: Numerics, policy: Policy, asOf: int, adjustments: seq<Adjustment>, events: seq<Event>)
    requires DistinctIds(events)
    ensures Comparable(Map(events, Weigher(n, policy, asOf, adjustments)), WeightedLess)
  {
    hide TextLess, Applied, ReliabilityFor, HalfLifeFor;
    var ws := Map(events, Weigher(n, policy, asOf, adjustments));
    forall i, j | 0 <= i < j < |ws|
      ensures WeightedLess(ws[i], ws[j]) || WeightedLess(ws[j], ws[i])
    {
      TextTotal(events[i].eventId, events[j].eventId);
    }
  }

  lemma SameClaimDecision(n: Numerics, policy: Policy, asOf: int, adjustments: seq<Adjustment>, claim: ClaimPolicy,
                          a: seq<Event>, b: seq<Event>)
    requires Lawful(policy, asOf, a) && Lawful(policy, asOf, b) && SameMembers(a, b)
    ensures EvaluateClaim(n, policy, asOf, adjustments, claim, a)
        == EvaluateClaim(n, policy, asOf, adjustments, claim, b)
    ensures EvaluateClaim(n, policy, asOf, adjustments, claim, a).Ok?
  {
    hide Filter, Sort, DistinctIds, Comparable, WeightedLess, Decide, Weigher;
    NeverInFuture(policy, asOf, a);
    NeverInFuture(policy, asOf, b);
    WeightedStrict();
    WeighedComparable(n, policy, asOf, adjustments, a);
    WeighedComparable(n, policy, asOf, adjustments, b);
    var f := Weigher(n, policy, asOf, adjustments);
    SameMap(a, b, f);
    SameSort(Map(a, f), Map(b, f), WeightedLess);
  }

  lemma FilterLawful(policy: Policy, asOf: int, events: seq<Event>, keep: Event -> bool)
    requires Lawful(policy, asOf, events)
    ensures Lawful(policy, asOf, Filter(events, keep))
  {
    hide DistinctIds, Filter, Skewed;
    FilterDistinctIds(events, keep);
    FilterIn(events, keep);
  }

  lemma {:induction false} SameDecisions(n: Numerics, policy: Policy, asOf: int, adjustments: seq<Adjustment>,
                                         claims: seq<ClaimPolicy>, a: seq<Event>, b: seq<Event>)
    requires Lawful(policy, asOf, a) && Lawful(policy, asOf, b) && SameMembers(a, b)
    ensures Decisions(n, policy, asOf, adjustments, claims, a) == Decisions(n, policy, asOf, adjustments, claims, b)
    ensures Decisions(n, policy, asOf, adjustments, claims, a).Ok?
    decreases |claims|
  {
    hide Lawful, Filter, EvaluateClaim;
    if claims != [] {
      var m := |claims| - 1;
      SameDecisions(n, policy, asOf, adjustments, claims[..m], a, b);
      var keep := OfClaim(claims[m].name);
      FilterLawful(policy, asOf, a, keep);
      FilterLawful(policy, asOf, b, keep);
      SameFilter(a, b, keep);
      SameClaimDecision(n, policy, asOf, adjustments, claims[m], Filter(a, keep), Filter(b, keep));
    }
  }

  lemma SameCount(a: seq<Event>, b: seq<Event>)
    requires DistinctIds(a) && DistinctIds(b) && SameMembers(a, b)
    ensures |a| == |b|
    ensures Sort(Map(a, EventIdOf()), TextLess) == Sort(Map(b, EventIdOf()), TextLess)
  {
    hide Sort;
    SameMap(a, b, EventIdOf());
    IdsSort(Map(a, EventIdOf()), Map(b, EventIdOf()));
    assert |a| == |Sort(Map(a, EventIdOf()), TextLess)|;
  }

  lemma SameEventsKept(a: seq<Event>, b: seq<Event>, keep: Event -> bool)
    requires DistinctIds(a) && DistinctIds(b) && SameMembers(a, b)
    ensures var f, g := Filter(a, keep), Filter(b, keep);
            && DistinctIds(f) && DistinctIds(g) && SameMembers(f, g) && |f| == |g|
            && Sort(Map(f, EventIdOf()), TextLess) == Sort(Map(g, EventIdOf()), TextLess)
  {
    hide Filter, Sort, DistinctIds;
    FilterDistinctIds(a, keep);
    FilterDistinctIds(b, keep);
    SameFilter(a, b, keep);
    SameCount(Filter(a, keep), Filter(b, keep));
  }

  lemma ConsideredLawful(policy: Policy, events: seq<Event>, asOf: int)
    requires ValidEvents(policy, events)
    ensures Lawful(policy, asOf, Filter(events, IngestedBy(asOf)))
  {
    hide DistinctIds, Filter, Skewed, KnownClaim;
    FilterDistinctIds(events, IngestedBy(asOf));
    FilterIn(events, IngestedBy(asOf));
  }

  /** Evaluation of valid streams succeeds and depends only on which events and
      adjudications are present. */
  lemma SameKnowledge(n: Numerics, policy: Policy, asOf: int, a: seq<Event>, b: seq<Event>,
                      i: seq<Adjudication>, j: seq<Adjudication>)
    requires ValidPolicy(policy) && SameMembers(a, b) && SameMembers(i, j)
    requires ValidEvents(policy, a) && ValidEvents(policy, b) && ValidItems(policy, a, i) && ValidItems(policy, b, j)
    ensures Evaluate(n, policy, a, asOf, i).Ok?
    ensures Evaluate(n, policy, a, asOf, i) == Evaluate(n, policy, b, asOf, j)
  {
    hide ValidEvents, ValidItems, EventFailure, AdjudicationFailure, Filter, Sort, Adjustments, Decisions, Lawful;
    EventFailureExact(policy, a);
    EventFailureExact(policy, b);
    ItemFailureExact(policy, a, i);
    ItemFailureExact(policy, b, j);
    ValidIds(policy, a, i);
    ValidIds(policy, b, j);
    SameKept(i, j, JudgedBy(asOf), JudgedBy(asOf));
    AdjustmentsOrderFree(n, policy, Filter(i, JudgedBy(asOf)), Filter(j, JudgedBy(asOf)));
    SameEventsKept(a, b, IngestedBy(asOf));
    SameEventsKept(a, b, IngestedAfter(asOf));
    SameCount(a, b);
    ConsideredLawful(policy, a, asOf);
    ConsideredLawful(policy, b, asOf);
    SameDecisions(n, policy, asOf, Adjustments(n, policy, Filter(i, JudgedBy(asOf))), Sort(policy.claims, ClaimLess),
                  Filter(a, IngestedBy(asOf)), Filter(b, IngestedBy(asOf)));
  }

  lemma ValidDistinct(policy: Policy, events: seq<Event>)
    requires ValidEvents(policy, events)
    ensures DistinctIds(events)
  {
  }

  lemma ValidIds(policy: Policy, events: seq<Event>, items: seq<Adjudication>)
    requires ValidEvents(policy, events) && ValidItems(policy, events, items)
    ensures DistinctIds(events) && DistinctJudged(items)
  {
  }

  /** Evaluation does not depend on the order of its inputs: where the stream admits one
      report, permuting events and adjudications gives the same result or complaint, and
      otherwise each order gets the skew complaint about its own first offender. */
  lemma EvaluateOrderFree(n: Numerics, policy: Policy, asOf: int, a: seq<Event>, b: seq<Event>,
                          i: seq<Adjudication>, j: seq<Adjudication>)
    requires ValidPolicy(policy) && multiset(a) == multiset(b) && multiset(i) == multiset(j)
    ensures OneReport(policy, a) ==> Evaluate(n, policy, a, asOf, i) == Evaluate(n, policy, b, asOf, j)
    ensures !OneReport(policy, a) ==>
              && SkewReported(policy, a) && Evaluate(n, policy, a, asOf, i) == Err(EventFailure(policy, a).value)
              && SkewReported(policy, b) && Evaluate(n, policy, b, asOf, j) == Err(EventFailure(policy, b).value)
  {
    hide ValidEvents, ValidItems, EventFailure, AdjudicationFailure, OneReport;
    PermutedMembers(a, b);
    PermutedMembers(i, j);
    EventFailureOrderFree(policy, a, b);
    if EventFailure(policy, a).Some? {
      SkewStops(n, policy, asOf, a, i);
      if EventFailure(policy, b).Some? {
        SkewStops(n, policy, asOf, b, j);
      }
    } else {
      EventFailureExact(policy, a);
      EventFailureExact(policy, b);
      ValidDistinct(policy, a);
      ValidDistinct(policy, b);
      AdjudicationFailureOrderFree(policy, a, b, i, j);
      if AdjudicationFailure(policy, a, i).None? {
        ItemFailureExact(policy, a, i);
        ItemFailureExact(policy, b, j);
        SameKnowledge(n, policy, asOf, a, b, i, j);
      }
    }
  }

  /** Exactly: the result is the same for every order of the inputs if and only if the
      stream admits one report. */
  lemma EvaluateOrderFreeExact(n: Numerics, policy: Policy, asOf: int, a: seq<Event>, i: seq<Adjudication>)
    requires ValidPolicy(policy)
    ensures (forall b, j | multiset(b) == multiset(a) && multiset(j) == multiset(i) ::
               Evaluate(n, policy, b, asOf, j) == Evaluate(n, policy, a, asOf, i))
       <==> OneReport(policy, a)
  {
    hide OneReport, Evaluate;
    if OneReport(policy, a) {
      forall b, j | multiset(b) == multiset(a) && multiset(j) == multiset(i)
        ensures Evaluate(n, policy, b, asOf, j) == Evaluate(n, policy, a, asOf, i)
      {
        EvaluateOrderFree(n, policy, asOf, a, b, i, j);
      }
    } else {
      var b := SkewReportMoves(policy, a);
      EventFailureOrderFree(policy, a, b);
      SkewStops(n, policy, asOf, a, i);
      SkewStops(n, policy, asOf, b, i);
    }
  }

  lemma SkewStops(n: Numerics, policy: Policy, asOf: int, a: seq<Event>, i: seq<Adjudication>)
    requires ValidPolicy(policy) && EventFailure(policy, a).Some?
    ensures Evaluate(n, policy, a, asOf, i) == Err(EventFailure(policy, a).value)
  {
    hide EventFailure;
  }

  /** Evaluation succeeds exactly on valid streams; no valid stream can fail later. */
  lemma EvaluateTotal(n: Numerics, policy: Policy, asOf: int, events: seq<Event>, items: seq<Adjudication>)
    requires ValidPolicy(policy)
    ensures Evaluate(n, policy, events, asOf, items).Ok?
        <==> ValidEvents(policy, events) && ValidItems(policy, events, items)
    ensures var r := Evaluate(n, policy, events, asOf, items); r.Err? ==> !r.error.WeighedInFuture?
  {
    hide ValidEvents, ValidItems;
    EventFailureExact(policy, events);
    ItemFailureExact(policy, events, items);
    if EventFailure(policy, events).None? && AdjudicationFailure(policy, events, items).None? {
      SameKnowledge(n, policy, asOf, events, events, items, items);
    }
  }

  /** The one order-dependent report: which skewed event is named. */
  lemma SkewReportDependsOnOrder(policy: Policy, x: Event, y: Event)
    requires x.eventId != y.eventId && KnownClaim(policy, x.claim) && KnownClaim(policy, y.claim)
    requires Skewed(policy, x) && Skewed(policy, y)
    ensures EventFailure(policy, [x, y]) == Some(FutureSkew(x.eventId))
    ensures EventFailure(policy, [y, x]) == Some(FutureSkew(y.eventId))
  {
    hide KnownClaim, Skewed;
    SkewReport(policy, x, y);
    SkewReport(policy, y, x);
  }

  lemma SkewReport(policy: Policy, x: Event, y: Event)
    requires x.eventId != y.eventId && KnownClaim(policy, x.claim) && KnownClaim(policy, y.claim)
    requires Skewed(policy, x) && Skewed(policy, y)
    ensures EventFailure(policy, [x, y]) == Some(FutureSkew(x.eventId))
  {
    hide KnownClaim, Skewed, SortedSet;
    var events := [x, y];
    assert Map(events, EventIdOf()) == [x.eventId, y.eventId];
    DuplicatesExact([x.eventId, y.eventId]);
    assert Map(events, ClaimOf()) == [x.claim, y.claim];
    FilterEmpty([x.claim, y.claim], UnknownClaim(policy));
    var p := SkewedIn(policy);
    assert events[..1] == [x] && [x][..0] == [];
    assert Filter([x], p) == Filter([], p) + [x];
    assert Filter(events, p) == Filter([x], p) + [y];
  }

  // ----- Representatives -----

  predicate HeadLess(x: Head, y: Head) {
    KeyLess(x.key, y.key)
  }

  /** The strongest observation of its group and signal. */
  ghost predicate Represents(n: Numerics, ws: seq<Weighted>, h: Head) {
    && h.representative in ws && KeyFor(h.representative) == h.key
    && forall w | w in ws && KeyFor(w) == h.key :: w == h.representative || Outranks(n, h.representative, w)
  }

  lemma RankComparable(n: Numerics, ws: seq<Weighted>)
    requires Comparable(ws, WeightedLess)
    ensures Comparable(ws, Ranking(n))
  {
    hide TextLess;
  }

  lemma {:induction false} SelectFromExact(n: Numerics, k: Key, candidates: seq<Weighted>)
    requires candidates != [] && Comparable(candidates, WeightedLess)
    ensures var s := SelectFrom(n, k, candidates);
            && s.representative in candidates
            && (forall w | w in candidates :: w == s.representative || Outranks(n, s.representative, w))
            && Ascends(s.suppressed, WeightedLess)
            && forall w :: w in s.suppressed <==> w in candidates && w != s.representative
  {
    hide Outranks, WeightedLess, Sort;
    var ranked := Sort(candidates, Ranking(n));
    RankingStrict(n);
    RankComparable(n, candidates);
    SortAscends(candidates, Ranking(n));
    SortIn(candidates, Ranking(n));
    assert ranked[0] in ranked;
    HeadSplit(ranked, Ranking(n));
    RankedComparable(n, candidates, ranked);
    WeightedStrict();
    SortAscends(ranked[1..], WeightedLess);
    SortIn(ranked[1..], WeightedLess);
  }

  lemma HeadSplit(ranked: seq<Weighted>, less: (Weighted, Weighted) -> bool)
    requires ranked != [] && Strict(less) && Ascends(ranked, less)
    ensures forall w :: w in ranked[1..] <==> w in ranked && w != ranked[0]
    ensures forall w | w in ranked :: w == ranked[0] || less(ranked[0], w)
  {
    assert ranked == [ranked[0]] + ranked[1..];
    forall w
      ensures w in ranked[1..] <==> w in ranked && w != ranked[0]
    {
      if w in ranked[1..] {
        var i :| 0 <= i < |ranked[1..]| && ranked[1..][i] == w;
        assert less(ranked[0], ranked[i + 1]);
      }
    }
  }

  lemma RankedComparable(n: Numerics, candidates: seq<Weighted>, ranked: seq<Weighted>)
    requires Comparable(candidates, WeightedLess) && Strict(Ranking(n)) && Ascends(ranked, Ranking(n)) && ranked != []
    requires forall w | w in ranked :: w in candidates
    ensures Comparable(ranked[1..], WeightedLess)
  {
    hide WeightedLess, Outranks;
    forall i, j | 0 <= i < j < |ranked[1..]|
      ensures WeightedLess(ranked[1..][i], ranked[1..][j]) || WeightedLess(ranked[1..][j], ranked[1..][i])
    {
      var x, y := ranked[i + 1], ranked[j + 1];
      assert Ranking(n)(x, y) && x != y;
      assert x in ranked && y in ranked;
      var p :| 0 <= p < |candidates| && candidates[p] == x;
      var q :| 0 <= q < |candidates| && candidates[q] == y;
      assert p != q;
    }
  }

  /** Every selection of a list of keys, described by its members. */
  lemma SelectionExact(n: Numerics, ws: seq<Weighted>, k: Key)
    requires Comparable(ws, WeightedLess) && Filter(ws, HasKey(k)) != []
    ensures var s := SelectFrom(n, k, Filter(ws, HasKey(k)));
            && s.key == k && Represents(n, ws, HeadOf()(s))
            && Ascends(s.suppressed, WeightedLess)
            && forall w :: w in s.suppressed <==> w in ws && KeyFor(w) == k && w != s.representative
  {
    hide Filter, Comparable, KeyFor, Outranks, WeightedLess, Ascends;
    FilterIn(ws, HasKey(k));
    FilterComparable(ws, HasKey(k), WeightedLess);
    SelectFromExact(n, k, Filter(ws, HasKey(k)));
  }

  lemma KeysExact(ws: seq<Weighted>)
    ensures Distinct(Keys(ws)) && forall w | w in ws :: KeyFor(w) in Keys(ws)
  {
    hide Dedup, KeyFor;
    DedupDistinct(Map(ws, KeyOf()));
    DedupIn(Map(ws, KeyOf()));
    MapIn(ws, KeyOf());
    forall w | w in ws
      ensures KeyFor(w) in Keys(ws)
    {
      assert KeyOf()(w) in Map(ws, KeyOf());
    }
  }

  lemma SelectionsComparable(n: Numerics, ws: seq<Weighted>, keys: seq<Key>)
    requires Distinct(keys) && forall i | 0 <= i < |keys| :: Filter(ws, HasKey(keys[i])) != []
    ensures Comparable(Selections(n, ws, keys), SelectionLess)
  {
    hide Filter, KeyLess, Sort;
    var r := Selections(n, ws, keys);
    forall i, j | 0 <= i < j < |r|
      ensures SelectionLess(r[i], r[j]) || SelectionLess(r[j], r[i])
    {
      KeyTotal(keys[i], keys[j]);
    }
  }

  lemma OneRepresentative(n: Numerics, ws: seq<Weighted>, x: Head, y: Head)
    requires Represents(n, ws, x) && Represents(n, ws, y) && x.key == y.key
    ensures x == y
  {
    hide Outranks, KeyFor;
    RankingStrict(n);
    assert forall a, b, c :: Ranking(n)(a, b) && Ranking(n)(b, c) ==> Ranking(n)(a, c);
    assert !Ranking(n)(x.representative, x.representative);
    assert Ranking(n)(x.representative, y.representative) == Outranks(n, x.representative, y.representative);
    assert Ranking(n)(y.representative, x.representative) == Outranks(n, y.representative, x.representative);
  }

  /** The collapse in one statement: group and signal pairs in order, each exactly once,
      each with its strongest observation; the others are listed as suppressed by ID. */
  lemma CollapseExact(n: Numerics, ws: seq<Weighted>)
    requires Comparable(ws, WeightedLess)
    ensures var heads := Map(Collapse(n, ws), HeadOf());
            Ascends(heads, HeadLess) && forall h :: h in heads <==> Represents(n, ws, h)
    ensures forall s | s in Collapse(n, ws) ::
              && Ascends(s.suppressed, WeightedLess)
              && forall w :: w in s.suppressed <==> w in ws && KeyFor(w) == s.key && w != s.representative
  {
    hide Filter, Comparable, KeyFor, WeightedLess, Represents, Sort, KeyLess, Distinct, SelectFrom, Outranks, Dedup;
    var keys := Keys(ws);
    var all := Selections(n, ws, keys);
    KeysExact(ws);
    SelectionsComparable(n, ws, keys);
    KeyStrict();
    SortAscends(all, SelectionLess);
    SortIn(all, SelectionLess);
    forall i | 0 <= i < |all|
      ensures all[i].key == keys[i] && Represents(n, ws, HeadOf()(all[i]))
      ensures Ascends(all[i].suppressed, WeightedLess)
      ensures forall w :: w in all[i].suppressed <==> w in ws && KeyFor(w) == all[i].key && w != all[i].representative
    {
      SelectionExact(n, ws, keys[i]);
    }
    HeadsExact(n, ws, keys, all, Collapse(n, ws));
  }

  lemma HeadsExact(n: Numerics, ws: seq<Weighted>, keys: seq<Key>, all: seq<Selection>, sorted: seq<Selection>)
    requires |all| == |keys| && forall i | 0 <= i < |all| ::
        all[i].key == keys[i] && Represents(n, ws, HeadOf()(all[i]))
    requires forall w | w in ws :: KeyFor(w) in keys
    requires Ascends(sorted, SelectionLess) && forall s :: s in sorted <==> s in all
    ensures Ascends(Map(sorted, HeadOf()), HeadLess)
    ensures forall h :: h in Map(sorted, HeadOf()) <==> Represents(n, ws, h)
  {
    hide KeyLess, Outranks, KeyFor, Represents;
    var heads := Map(sorted, HeadOf());
    MapIn(sorted, HeadOf());
    forall h
      ensures h in heads <==> Represents(n, ws, h)
    {
      if h in heads {
        var s :| s in sorted && HeadOf()(s) == h;
        var i :| 0 <= i < |all| && all[i] == s;
      }
      if Represents(n, ws, h) {
        RepresentedKey(n, ws, h);
        assert h.key in keys;
        var i :| 0 <= i < |keys| && keys[i] == h.key;
        OneRepresentative(n, ws, h, HeadOf()(all[i]));
        assert all[i] in all;
      }
    }
  }

  lemma RepresentedKey(n: Numerics, ws: seq<Weighted>, h: Head)
    requires Represents(n, ws, h)
    ensures h.representative in ws && KeyFor(h.representative) == h.key
  {
  }

  // ----- Outranked evidence -----

  /** Everything a decision concludes, leaving out its listings. */
  predicate SameVerdict(x: ClaimDecision, y: ClaimDecision) {
    && x.claim == y.claim && x.outcome == y.outcome && x.reason == y.reason
    && x.support == y.support && x.contradict == y.contradict && x.margin == y.margin
  }

  lemma SameRepresentatives(n: Numerics, ws: seq<Weighted>, more: seq<Weighted>, e: Weighted, w0: Weighted, h: Head)
    requires forall w :: w in more <==> w in ws || w == e
    requires w0 in ws && KeyFor(w0) == KeyFor(e) && Outranks(n, w0, e)
    ensures Represents(n, ws, h) <==> Represents(n, more, h)
  {
    hide Outranks, KeyFor;
    RankingStrict(n);
    var less := Ranking(n);
    assert forall x, y :: less(x, y) == Outranks(n, x, y);
    if Represents(n, ws, h) && KeyFor(e) == h.key {
      assert w0 == h.representative || less(h.representative, w0);
      assert less(w0, e);
      assert Outranks(n, h.representative, e);
    }
    if Represents(n, more, h) {
      assert KeyFor(e) == h.key ==> w0 == h.representative || less(h.representative, w0);
      assert less(w0, e) && !less(w0, w0);
      assert h.representative != e;
    }
  }

  /** Adding an observation outranked inside its own group and signal changes neither
      signal summary, nor the margin, nor the outcome. */
  lemma OutrankedChangesNothing(n: Numerics, claim: ClaimPolicy, ws: seq<Weighted>, more: seq<Weighted>, e: Weighted,
                                w0: Weighted)
    requires Comparable(ws, WeightedLess) && Comparable(more, WeightedLess)
    requires forall w :: w in more <==> w in ws || w == e
    requires w0 in ws && KeyFor(w0) == KeyFor(e) && Outranks(n, w0, e)
    ensures SameVerdict(Decide(n, claim, ws), Decide(n, claim, more))
  {
    hide Comparable, KeyFor, Outranks, Represents, Collapse, KeyLess, Ascends, Summarize, ChooseOutcome, WeightedLess;
    CollapseExact(n, ws);
    CollapseExact(n, more);
    forall h
      ensures Represents(n, ws, h) <==> Represents(n, more, h)
    {
      SameRepresentatives(n, ws, more, e, w0, h);
    }
    HeadStrict();
    AscendsUnique(Map(Collapse(n, ws), HeadOf()), Map(Collapse(n, more), HeadOf()), HeadLess);
  }

  lemma HeadStrict()
    ensures Strict(HeadLess)
  {
    hide KeyLess;
    KeyStrict();
  }

  /** The verdict of one claim with and without an outranked event of that claim. */
  lemma OutrankedInClaim(n: Numerics, policy: Policy, asOf: int, adjustments: seq<Adjustment>, claim: ClaimPolicy,
                         a: seq<Event>, e: Event, e0: Event)
    requires Lawful(policy, asOf, a) && Lawful(policy, asOf, a + [e]) && e0 in a
    requires GroupId(e0) == GroupId(e) && e0.signal == e.signal
    requires Outranks(n, WeightEvent(n, policy, asOf, adjustments, e0), WeightEvent(n, policy, asOf, adjustments, e))
    ensures var x, y := EvaluateClaim(n, policy, asOf, adjustments, claim, a),
                        EvaluateClaim(n, policy, asOf, adjustments, claim, a + [e]);
            x.Ok? && y.Ok? && SameVerdict(x.value, y.value)
  {
    hide Filter, Sort, DistinctIds, Comparable, WeightedLess, Decide, Skewed, GroupId, Applied, ReliabilityFor,
      HalfLifeFor, Outranks;
    NeverInFuture(policy, asOf, a);
    NeverInFuture(policy, asOf, a + [e]);
    var f := Weigher(n, policy, asOf, adjustments);
    var m, m2 := Map(a, f), Map(a + [e], f);
    var ws, more := Sort(m, WeightedLess), Sort(m2, WeightedLess);
    assert m2 == m + [f(e)];
    InSnoc(m, f(e));
    SortIn(m, WeightedLess);
    SortIn(m2, WeightedLess);
    MapIn(a, f);
    assert f(e0) in m;
    SortedWeighed(n, policy, asOf, adjustments, a);
    SortedWeighed(n, policy, asOf, adjustments, a + [e]);
    OutrankedChangesNothing(n, claim, ws, more, f(e), f(e0));
  }

  lemma SortedWeighed(n: Numerics, policy: Policy, asOf: int, adjustments: seq<Adjustment>, a: seq<Event>)
    requires DistinctIds(a)
    ensures Comparable(Sort(Map(a, Weigher(n, policy, asOf, adjustments)), WeightedLess), WeightedLess)
  {
    hide DistinctIds, WeightedLess, Sort, Weigher;
    WeighedComparable(n, policy, asOf, adjustments, a);
    WeightedStrict();
    SortAscends(Map(a, Weigher(n, policy, asOf, adjustments)), WeightedLess);
  }

  lemma {:induction false} OutrankedInDecisions(n: Numerics, policy: Policy, asOf: int, adjustments: seq<Adjustment>,
                                                claims: seq<ClaimPolicy>, a: seq<Event>, e: Event, e0: Event)
    requires Lawful(policy, asOf, a) && Lawful(policy, asOf, a + [e]) && e0 in a
    requires e0.claim == e.claim && GroupId(e0) == GroupId(e) && e0.signal == e.signal
    requires Outranks(n, WeightEvent(n, policy, asOf, adjustments, e0), WeightEvent(n, policy, asOf, adjustments, e))
    ensures var x, y := Decisions(n, policy, asOf, adjustments, claims, a),
                        Decisions(n, policy, asOf, adjustments, claims, a + [e]);
            && x.Ok? && y.Ok? && |x.value| == |y.value| == |claims|
            && forall k | 0 <= k < |claims| :: SameVerdict(x.value[k], y.value[k])
    decreases |claims|
  {
    hide Lawful, Filter, EvaluateClaim, Outranks, GroupId, WeightEvent, SameVerdict;
    if claims != [] {
      var m := |claims| - 1;
      OutrankedInDecisions(n, policy, asOf, adjustments, claims[..m], a, e, e0);
      var keep := OfClaim(claims[m].name);
      FilterLawful(policy, asOf, a, keep);
      FilterLawful(policy, asOf, a + [e], keep);
      FilterSnoc(a, e, keep);
      FilterIn(a, keep);
      if keep(e) {
        OutrankedInClaim(n, policy, asOf, adjustments, claims[m], Filter(a, keep), e, e0);
      } else {
        assert Filter(a, keep) + [] == Filter(a, keep);
        SameClaimDecision(n, policy, asOf, adjustments, claims[m], Filter(a, keep), Filter(a, keep));
        SameVerdictReflexive();
      }
    }
  }

  lemma SameVerdictReflexive()
    ensures forall d :: SameVerdict(d, d)
  {
  }

  /** Adding an event that does not outrank its group's standing evidence leaves every
      claim's summaries, margin, outcome and reason as they were. */
  lemma OutrankedEvent(n: Numerics, policy: Policy, asOf: int, events: seq<Event>, e: Event, e0: Event,
                       items: seq<Adjudication>)
    requires ValidPolicy(policy) && ValidEvents(policy, events + [e]) && ValidItems(policy, events + [e], items)
    requires e0 in events && e0.ingestedAt <= asOf && e.ingestedAt <= asOf
    requires e0.claim == e.claim && GroupId(e0) == GroupId(e) && e0.signal == e.signal
    requires var adjustments := Adjustments(n, policy, Filter(items, JudgedBy(asOf)));
             Outranks(n, WeightEvent(n, policy, asOf, adjustments, e0), WeightEvent(n, policy, asOf, adjustments, e))
    ensures var x, y := Evaluate(n, policy, events, asOf, items), Evaluate(n, policy, events + [e], asOf, items);
            && x.Ok? && y.Ok? && |x.value.decisions| == |y.value.decisions|
            && forall k | 0 <= k < |x.value.decisions| :: SameVerdict(x.value.decisions[k], y.value.decisions[k])
  {
    hide Filter, Sort, Adjustments, Decisions, Outranks, GroupId, WeightEvent, SameVerdict, Lawful, EventFailure,
      AdjudicationFailure, ValidEvents, ValidItems;
    PrefixValid(policy, events, e, items);
    EventFailureExact(policy, events);
    EventFailureExact(policy, events + [e]);
    ItemFailureExact(policy, events, items);
    ItemFailureExact(policy, events + [e], items);
    var adjustments := Adjustments(n, policy, Filter(items, JudgedBy(asOf)));
    var keep := IngestedBy(asOf);
    FilterSnoc(events, e, keep);
    FilterIn(events, keep);
    ConsideredLawful(policy, events, asOf);
    ConsideredLawful(policy, events + [e], asOf);
    OutrankedInDecisions(n, policy, asOf, adjustments, Sort(policy.claims, ClaimLess), Filter(events, keep), e, e0);
  }

  lemma PrefixValid(policy: Policy, events: seq<Event>, e: Event, items: seq<Adjudication>)
    requires ValidEvents(policy, events + [e]) && ValidItems(policy, events + [e], items)
    ensures ValidEvents(policy, events) && ValidItems(policy, events, items)
  {
    hide KnownClaim, Skewed;
    var all := events + [e];
    assert forall i | 0 <= i < |events| :: all[i] == events[i];
    InSnoc(events, e);
    forall a | a in items
      ensures !Mismatched(events, a) && !Premature(events, a)
    {
      assert !Mismatched(all, a) && !Premature(all, a);
      var found := EventById(events, a.eventId);
      if found.Some? {
        EventByIdExact(events, found.value, a.eventId);
        EventByIdExact(all, found.value, a.eventId);
      }
    }
  }

  // ----- Accounting -----

  lemma {:induction false} FilterSplits(events: seq<Event>, p: Event -> bool, q: Event -> bool, r: Event -> bool)
    requires forall e | e in events :: (r(e) <==> p(e) || q(e)) && !(p(e) && q(e))
    ensures |Filter(events, p)| + |Filter(events, q)| == |Filter(events, r)|
  {
    if events != [] {
      SplitLast(events);
      FilterSplits(events[..|events| - 1], p, q, r);
    }
  }

  lemma {:induction false} FilterAll(events: seq<Event>, p: Event -> bool)
    requires forall e | e in events :: p(e)
    ensures Filter(events, p) == events
  {
    if events != [] {
      SplitLast(events);
      FilterAll(events[..|events| - 1], p);
    }
  }

  function TraceTotal(decisions: seq<ClaimDecision>): nat {
    if decisions == [] then 0
    else TraceTotal(decisions[..|decisions| - 1]) + |decisions[|decisions| - 1].trace|
  }

  predicate Names(claims: seq<ClaimPolicy>, name: string) {
    exists i :: 0 <= i < |claims| && claims[i].name == name
  }

  function NamedIn(claims: seq<ClaimPolicy>): Event -> bool {
    (e: Event) => Names(claims, e.claim)
  }

  lemma {:induction false} TracesCover(n: Numerics, policy: Policy, asOf: int, adjustments: seq<Adjustment>,
                                       claims: seq<ClaimPolicy>, a: seq<Event>)
    requires Lawful(policy, asOf, a) && Ascends(claims, ClaimLess)
    ensures var r := Decisions(n, policy, asOf, adjustments, claims, a);
            r.Ok? && TraceTotal(r.value) == |Filter(a, NamedIn(claims))|
    decreases |claims|
  {
    hide Lawful, Filter, Decide, TextLess, Sort;
    if claims == [] {
      FilterEmpty(a, NamedIn(claims));
    } else {
      var m := |claims| - 1;
      var init, last := claims[..m], claims[m];
      SplitLast(claims);
      BelowLastClaim(claims);
      TracesCover(n, policy, asOf, adjustments, init, a);
      FilterLawful(policy, asOf, a, OfClaim(last.name));
      NeverInFuture(policy, asOf, Filter(a, OfClaim(last.name)));
      forall e | e in a
        ensures (Names(claims, e.claim) <==> Names(init, e.claim) || e.claim == last.name)
            && !(Names(init, e.claim) && e.claim == last.name)
      {
        NamesSnoc(claims, e.claim);
      }
      FilterSplits(a, NamedIn(init), OfClaim(last.name), NamedIn(claims));
      TraceOf(n, policy, asOf, adjustments, last, Filter(a, OfClaim(last.name)));
      var r := Decisions(n, policy, asOf, adjustments, init, a).value;
      var d := EvaluateClaim(n, policy, asOf, adjustments, last, Filter(a, OfClaim(last.name))).value;
      assert (r + [d])[..|r|] == r;
    }
  }

  lemma TraceOf(n: Numerics, policy: Policy, asOf: int, adjustments: seq<Adjustment>, claim: ClaimPolicy, a: seq<Event>)
    requires Lawful(policy, asOf, a)
    ensures var r := EvaluateClaim(n, policy, asOf, adjustments, claim, a); r.Ok? && |r.value.trace| == |a|
  {
    hide Lawful, Filter, Sort, Collapse, Summarize, ChooseOutcome, Weigher;
    NeverInFuture(policy, asOf, a);
  }

  lemma BelowLastClaim(claims: seq<ClaimPolicy>)
    requires claims != [] && Ascends(claims, ClaimLess)
    ensures Ascends(claims[..|claims| - 1], ClaimLess)
    ensures !Names(claims[..|claims| - 1], claims[|claims| - 1].name)
  {
    hide TextLess;
    TextStrict();
    var m := |claims| - 1;
    forall i | 0 <= i < m
      ensures claims[i].name != claims[m].name
    {
      assert ClaimLess(claims[i], claims[m]);
    }
  }

  lemma NamesSnoc(claims: seq<ClaimPolicy>, name: string)
    requires claims != []
    ensures Names(claims, name) <==> Names(claims[..|claims| - 1], name) || name == claims[|claims| - 1].name
  {
    var m := |claims| - 1;
    if Names(claims[..m], name) {
      var i :| 0 <= i < m && claims[..m][i].name == name;
      assert claims[i].name == name;
    }
    if Names(claims, name) && name != claims[m].name {
      var i :| 0 <= i < |claims| && claims[i].name == name;
      assert claims[..m][i].name == name;
    }
  }

  predicate DistinctClaims(claims: seq<ClaimPolicy>) {
    forall i, j | 0 <= i < j < |claims| :: claims[i].name != claims[j].name
  }

  /** The counts an evaluation result must carry always agree: every event is considered
      or pending, and every considered event is traced under exactly one claim. */
  lemma EvaluateCounts(n: Numerics, policy: Policy, asOf: int, events: seq<Event>, items: seq<Adjudication>)
    requires ValidPolicy(policy) && DistinctClaims(policy.claims)
    requires Evaluate(n, policy, events, asOf, items).Ok?
    ensures var r := Evaluate(n, policy, events, asOf, items).value;
            && r.consideredCount + |r.pending| == r.inputCount == |events|
            && TraceTotal(r.decisions) == r.consideredCount
  {
    hide Filter, Sort, Adjustments, Decisions, Lawful, ValidEvents, EventFailure, AdjudicationFailure, TextLess,
      DistinctClaims;
    EventFailureExact(policy, events);
    FilterSplits(events, IngestedBy(asOf), IngestedAfter(asOf), e => true);
    FilterAll(events, e => true);
    var claims := Sort(policy.claims, ClaimLess);
    ClaimsAscend(policy);
    ConsideredLawful(policy, events, asOf);
    var adjustments := Adjustments(n, policy, Filter(items, JudgedBy(asOf)));
    var considered := Filter(events, IngestedBy(asOf));
    TracesCover(n, policy, asOf, adjustments, claims, considered);
    ConsideredNamed(policy, events, asOf);
    FilterAll(considered, NamedIn(claims));
  }

  lemma ClaimsAscend(policy: Policy)
    requires DistinctClaims(policy.claims)
    ensures Ascends(Sort(policy.claims, ClaimLess), ClaimLess)
  {
    hide TextLess;
    TextStrict();
    forall i, j | 0 <= i < j < |policy.claims|
      ensures ClaimLess(policy.claims[i], policy.claims[j]) || ClaimLess(policy.claims[j], policy.claims[i])
    {
      TextTotal(policy.claims[i].name, policy.claims[j].name);
    }
    SortAscends(policy.claims, ClaimLess);
  }

  lemma ConsideredNamed(policy: Policy, events: seq<Event>, asOf: int)
    requires ValidEvents(policy, events)
    ensures forall e | e in Filter(events, IngestedBy(asOf)) :: Names(Sort(policy.claims, ClaimLess), e.claim)
  {
    hide Filter, Sort, DistinctIds, Skewed;
    FilterIn(events, IngestedBy(asOf));
    SortIn(policy.claims, ClaimLess);
    var sorted := Sort(policy.claims, ClaimLess);
    forall e | e in Filter(events, IngestedBy(asOf))
      ensures Names(sorted, e.claim)
    {
      assert KnownClaim(policy, e.claim);
      var i :| 0 <= i < |policy.claims| && policy.claims[i].name == e.claim;
      assert policy.claims[i] in policy.claims;
      assert policy.claims[i] in sorted;
      var k :| 0 <= k < |sorted| && sorted[k] == policy.claims[i];
    }
  }
}
