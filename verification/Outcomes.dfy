/** What a decision says (engine.py, grouping.py, reliability.py): scores, gates, outcomes
    and reasons in terms of the considered events of a claim, and the weight of each event
    in terms of the adjudications of its source.
 */
module Outcomes {
  import opened Wrappers
  import opened Ledger
  import opened Ordering
  import opened Engine
  import opened EngineSafety

  // ----- Counting -----

  /** The positions of a list that a property holds at. */
  function Where<T>(s: seq<T>, keep: T -> bool): set<nat> {
    set i: nat | i < |s| && keep(s[i])
  }

  lemma {:induction false} FilterCount<T(!new)>(s: seq<T>, keep: T -> bool)
    ensures |Filter(s, keep)| == |Where(s, keep)|
    decreases |s|
  {
    if s == [] {
      assert Where(s, keep) == {};
    } else {
      var n := |s| - 1;
      FilterCount(s[..n], keep);
      WhereSnoc(s[..n], s[n], keep);
      assert s[..n] + [s[n]] == s;
    }
  }

  lemma WhereSnoc<T(!new)>(s: seq<T>, x: T, keep: T -> bool)
    ensures |Where(s + [x], keep)| == |Where(s, keep)| + (if keep(x) then 1 else 0)
  {
    assert Where(s + [x], keep) == Where(s, keep) + (if keep(x) then {|s|} else {});
  }

  lemma {:induction false} DistinctSize<T(!new)>(s: seq<T>)
    requires Distinct(s)
    ensures |set x | x in s| == |s|
    decreases |s|
  {
    if s != [] {
      var n := |s| - 1;
      DistinctSize(s[..n]);
      SplitLast(s);
      assert s[n] !in s[..n];
      assert (set x | x in s) == (set x | x in s[..n]) + {s[n]};
    }
  }

  lemma SortedSetSize(s: seq<string>, all: set<string>)
    requires forall x :: x in all <==> x in s
    ensures |SortedSet(s)| == |all|
  {
    DedupIn(s);
    DedupDistinct(s);
    DistinctSize(Dedup(s));
    assert (set x | x in Dedup(s)) == all;
  }

  // ----- Groups and voices -----

  /** One explicit group, or the same ungrouped event. */
  predicate SameGroup(x: Event, y: Event) {
    x.correlationGroup == y.correlationGroup && (x.correlationGroup.None? ==> x.eventId == y.eventId)
  }

  lemma GroupIdExact(x: Event, y: Event)
    ensures GroupId(x) == GroupId(y) <==> SameGroup(x, y)
  {
    assert "group:"[0] == 'g' && "event:"[0] == 'e';
    if x.correlationGroup.Some? && y.correlationGroup.Some? {
      assert GroupId(x)[6..] == x.correlationGroup.value && GroupId(y)[6..] == y.correlationGroup.value;
    } else if x.correlationGroup.None? && y.correlationGroup.None? {
      assert GroupId(x)[6..] == x.eventId && GroupId(y)[6..] == y.eventId;
    } else {
      assert GroupId(x)[0] != GroupId(y)[0];
    }
  }

  /** The confidence an event counts with. */
  function Strength(n: Numerics, f: Event -> Weighted, e: Event): real {
    n.round(f(e).effective)
  }

  /** Nothing in its group and signal is stronger, or as strong with a smaller identifier. */
  ghost predicate Speaks(n: Numerics, f: Event -> Weighted, es: seq<Event>, e: Event) {
    forall x | x in es && x.signal == e.signal && SameGroup(x, e) ::
      || Strength(n, f, x) < Strength(n, f, e)
      || (Strength(n, f, x) == Strength(n, f, e) && (x.eventId == e.eventId || TextLess(e.eventId, x.eventId)))
  }

  /** The voices of a signal: the one event that speaks for each of its groups. */
  ghost predicate Voices(n: Numerics, f: Event -> Weighted, es: seq<Event>, signal: Signal, vs: seq<Event>) {
    && (forall e :: e in vs <==> e in es && e.signal == signal && Speaks(n, f, es, e))
    && (forall i, j | 0 <= i < j < |vs| :: !SameGroup(vs[i], vs[j]))
    && (forall e | e in es && e.signal == signal :: exists i :: 0 <= i < |vs| && SameGroup(vs[i], e))
  }

  // ----- Scores, gates, outcomes -----

  /** The product of the voices' complements. */
  function Doubt(n: Numerics, f: Event -> Weighted, vs: seq<Event>): real {
    if vs == [] then 1.0
    else Doubt(n, f, vs[..|vs| - 1]) * (1.0 - Strength(n, f, vs[|vs| - 1]))
  }

  function Score(n: Numerics, f: Event -> Weighted, vs: seq<Event>): real {
    n.round(1.0 - Doubt(n, f, vs))
  }

  /** The voices confident enough to count. */
  function Counted(n: Numerics, f: Event -> Weighted, rule: ClaimRule, vs: seq<Event>): set<nat> {
    set i: nat | i < |vs| && Strength(n, f, vs[i]) >= n.round(rule.minConfidence)
  }

  /** Enough counted groups, sources and modalities, and every required modality. */
  predicate Gate(n: Numerics, f: Event -> Weighted, rule: ClaimRule, vs: seq<Event>) {
    var counted := Counted(n, f, rule, vs);
    && |counted| >= rule.quorum
    && |set i | i in counted :: vs[i].source| >= rule.minSources
    && |set i | i in counted :: vs[i].modality| >= rule.minModalities
    && forall k | 0 <= k < |rule.requiredModalities| ::
         exists i | i in counted :: vs[i].modality == rule.requiredModalities[k]
  }

  function Margin(n: Numerics, f: Event -> Weighted, vs: seq<Event>, us: seq<Event>): real {
    n.round(n.round(Score(n, f, vs)) - n.round(Score(n, f, us)))
  }

  predicate Reaches(n: Numerics, f: Event -> Weighted, vs: seq<Event>, threshold: real) {
    n.round(Score(n, f, vs)) >= n.round(threshold)
  }

  /** Support carries the claim: gate, threshold and margin. */
  predicate Carries(n: Numerics, f: Event -> Weighted, rule: ClaimRule, vs: seq<Event>, us: seq<Event>) {
    && Gate(n, f, rule, vs) && Reaches(n, f, vs, rule.supportThreshold)
    && Margin(n, f, vs, us) >= n.round(rule.minMargin)
  }

  /** Contradiction sinks it: gate, threshold and margin the other way. */
  predicate Sinks(n: Numerics, f: Event -> Weighted, rule: ClaimRule, vs: seq<Event>, us: seq<Event>) {
    && Gate(n, f, rule, us) && Reaches(n, f, us, rule.contradictionThreshold)
    && -Margin(n, f, vs, us) >= n.round(rule.minMargin)
  }

  /** What a decision concludes from the voices for (`vs`) and against (`us`). */
  predicate Concluded(n: Numerics, f: Event -> Weighted, rule: ClaimRule, vs: seq<Event>, us: seq<Event>,
                      d: ClaimDecision)
  {
    var carries, sinks := Carries(n, f, rule, vs, us), Sinks(n, f, rule, vs, us);
    var supportBarred := Reaches(n, f, vs, rule.supportThreshold) && !Gate(n, f, rule, vs);
    var contradictBarred := Reaches(n, f, us, rule.contradictionThreshold) && !Gate(n, f, rule, us);
    var small := -n.round(rule.minMargin) < Margin(n, f, vs, us) < n.round(rule.minMargin);
    && d.support.score == Score(n, f, vs) && d.contradict.score == Score(n, f, us)
    && d.margin == n.round(Score(n, f, vs) - Score(n, f, us))
    && (d.support.gatePassed <==> Gate(n, f, rule, vs))
    && (d.contradict.gatePassed <==> Gate(n, f, rule, us))
    && d.support.qualifying == |Counted(n, f, rule, vs)| && d.contradict.qualifying == |Counted(n, f, rule, us)|
    && (d.outcome.Escalate? <==> carries && !sinks)
    && (d.outcome.Reject? <==> sinks && !carries)
    && (d.outcome.Review? <==> (carries <==> sinks))
    && (d.reason.SupportMet? <==> d.outcome.Escalate?)
    && (d.reason.ContradictionMet? <==> d.outcome.Reject?)
    && (d.reason.ConflictingThresholds? <==> carries && sinks)
    && (d.reason.SupportGateFailed? <==> !carries && !sinks && supportBarred)
    && (d.reason.ContradictionGateFailed? <==> !carries && !sinks && !supportBarred && contradictBarred)
    && (d.reason.MarginTooSmall? <==> !carries && !sinks && !supportBarred && !contradictBarred && small)
  }

  // ----- From heads to voices -----

  function EventOfHead(): Head -> Event {
    (h: Head) => h.representative.event
  }

  /** The selected heads of a signal, as events. */
  function VoicesOf(signal: Signal, heads: seq<Head>): seq<Event> {
    Map(Filter(heads, SignalHead(signal)), EventOfHead())
  }

  predicate WeighedBy(f: Event -> Weighted, heads: seq<Head>) {
    forall h | h in heads :: h.representative == f(h.representative.event)
  }

  function Times(x: real, y: real): real {
    x * y
  }

  lemma ComplementStep(n: Numerics, heads: seq<Head>)
    requires heads != []
    ensures var m := |heads| - 1;
            Complement(n, heads) == Times(Complement(n, heads[..m]), 1.0 - n.round(heads[m].representative.effective))
  {
  }

  lemma DoubtStep(n: Numerics, f: Event -> Weighted, vs: seq<Event>)
    requires vs != []
    ensures var m := |vs| - 1;
            Doubt(n, f, vs) == Times(Doubt(n, f, vs[..m]), 1.0 - n.round(f(vs[m]).effective))
  {
  }

  lemma {:induction false} ComplementIsDoubt(n: Numerics, f: Event -> Weighted, heads: seq<Head>)
    requires WeighedBy(f, heads)
    ensures Complement(n, heads) == Doubt(n, f, Map(heads, EventOfHead()))
    decreases |heads|
  {
    var vs := Map(heads, EventOfHead());
    if heads == [] {
      assert vs == [];
    } else {
      hide Complement, Doubt, Times, Map;
      var m := |heads| - 1;
      SplitLast(heads);
      ComplementIsDoubt(n, f, heads[..m]);
      assert vs[..m] == Map(heads[..m], EventOfHead());
      assert heads[m] in heads;
      ComplementStep(n, heads);
      DoubtStep(n, f, vs);
    }
  }

  lemma TextsDiffer(x: Modality, y: Modality)
    requires ModalityText(x) == ModalityText(y)
    ensures x == y
  {
    assert "vision"[0] == 'v' && "audio"[0] == 'a' && "text"[0] == 't' && "sensor"[0] == 's';
  }

  lemma {:induction false} TextCount(ms: set<Modality>)
    ensures |set m | m in ms :: ModalityText(m)| == |ms|
    decreases |ms|
  {
    hide ModalityText;
    var texts := set m | m in ms :: ModalityText(m);
    if ms == {} {
      assert texts == {};
    } else {
      var x :| x in ms;
      var rest := ms - {x};
      var fewer := set m | m in rest :: ModalityText(m);
      TextCount(rest);
      forall m | m in rest
        ensures ModalityText(m) != ModalityText(x)
      {
        if ModalityText(m) == ModalityText(x) {
          TextsDiffer(m, x);
        }
      }
      assert texts == fewer + {ModalityText(x)};
    }
  }

  /** The counted heads are the counted voices. */
  lemma CountedExact(n: Numerics, f: Event -> Weighted, matching: seq<Head>, rule: ClaimRule)
    requires WeighedBy(f, matching)
    ensures var counted := Counted(n, f, rule, Map(matching, EventOfHead()));
            && |Filter(matching, Qualifies(n, rule))| == |counted|
            && (forall i | 0 <= i < |matching| :: i in counted <==> Qualifies(n, rule)(matching[i]))
  {
    var counted := Counted(n, f, rule, Map(matching, EventOfHead()));
    forall i | 0 <= i < |matching|
      ensures i in counted <==> Qualifies(n, rule)(matching[i])
    {
      assert matching[i] in matching;
    }
    FilterCount(matching, Qualifies(n, rule));
    assert Where(matching, Qualifies(n, rule)) == counted;
  }

  /** Some counted head shows this value. */
  predicate Shows(counted: set<nat>, matching: seq<Head>, g: Head -> string, x: string) {
    exists i | i in counted :: i < |matching| && g(matching[i]) == x
  }

  lemma ShownExact(n: Numerics, f: Event -> Weighted, matching: seq<Head>, rule: ClaimRule, g: Head -> string,
                   x: string)
    requires WeighedBy(f, matching)
    ensures var counted := Counted(n, f, rule, Map(matching, EventOfHead()));
            x in Map(Filter(matching, Qualifies(n, rule)), g) <==> Shows(counted, matching, g, x)
  {
    hide Filter, Map, Counted, WeighedBy, Qualifies;
    var counted, qualifying := Counted(n, f, rule, Map(matching, EventOfHead())), Filter(matching, Qualifies(n, rule));
    CountedExact(n, f, matching, rule);
    FilterIn(matching, Qualifies(n, rule));
    MapIn(qualifying, g);
    if x in Map(qualifying, g) {
      var h :| h in qualifying && g(h) == x;
      var i :| 0 <= i < |matching| && matching[i] == h;
      assert i in counted;
    }
    if Shows(counted, matching, g, x) {
      var i :| i in counted && i < |matching| && g(matching[i]) == x;
      assert matching[i] in qualifying;
    }
  }

  lemma SourcesExact(n: Numerics, f: Event -> Weighted, matching: seq<Head>, rule: ClaimRule)
    requires WeighedBy(f, matching)
    ensures var vs := Map(matching, EventOfHead());
            var counted := Counted(n, f, rule, vs);
            |SortedSet(Map(Filter(matching, Qualifies(n, rule)), SourceText()))| == |set i | i in counted ::
                vs[i].source|
  {
    hide Filter, SortedSet, WeighedBy, Strength;
    var vs := Map(matching, EventOfHead());
    var counted := Counted(n, f, rule, vs);
    var all := set i | i in counted :: vs[i].source;
    forall x
      ensures x in all <==> x in Map(Filter(matching, Qualifies(n, rule)), SourceText())
    {
      ShownExact(n, f, matching, rule, SourceText(), x);
      if x in all {
        var i :| i in counted && vs[i].source == x;
        assert SourceText()(matching[i]) == x;
      }
    }
    SortedSetSize(Map(Filter(matching, Qualifies(n, rule)), SourceText()), all);
  }

  lemma ModalityShown(n: Numerics, f: Event -> Weighted, matching: seq<Head>, rule: ClaimRule, m: Modality)
    requires WeighedBy(f, matching)
    ensures var vs := Map(matching, EventOfHead());
            var counted := Counted(n, f, rule, vs);
            ModalityText(m) in Map(Filter(matching, Qualifies(n, rule)), HeadModality())
            <==> exists i | i in counted :: vs[i].modality == m
  {
    hide Filter, WeighedBy, Strength, ModalityText;
    var vs := Map(matching, EventOfHead());
    var counted := Counted(n, f, rule, vs);
    ShownExact(n, f, matching, rule, HeadModality(), ModalityText(m));
    if Shows(counted, matching, HeadModality(), ModalityText(m)) {
      var i :| i in counted && i < |matching| && HeadModality()(matching[i]) == ModalityText(m);
      TextsDiffer(vs[i].modality, m);
    }
    if i :| i in counted && vs[i].modality == m {
      assert HeadModality()(matching[i]) == ModalityText(m);
    }
  }

  lemma ModalitiesExact(n: Numerics, f: Event -> Weighted, matching: seq<Head>, rule: ClaimRule)
    requires WeighedBy(f, matching)
    ensures var vs := Map(matching, EventOfHead());
            var counted := Counted(n, f, rule, vs);
            |SortedSet(Map(Filter(matching, Qualifies(n, rule)), HeadModality()))|
            == |set i | i in counted :: vs[i].modality|
  {
    hide Filter, SortedSet, WeighedBy, Strength, ModalityText;
    var vs := Map(matching, EventOfHead());
    var counted := Counted(n, f, rule, vs);
    var list := Map(Filter(matching, Qualifies(n, rule)), HeadModality());
    var ms := set i | i in counted :: vs[i].modality;
    var all := set m | m in ms :: ModalityText(m);
    forall x
      ensures x in all <==> x in list
    {
      ShownExact(n, f, matching, rule, HeadModality(), x);
      if x in all {
        var m :| m in ms && ModalityText(m) == x;
        var i :| i in counted && vs[i].modality == m;
        assert HeadModality()(matching[i]) == x;
      }
      if Shows(counted, matching, HeadModality(), x) {
        var i :| i in counted && i < |matching| && HeadModality()(matching[i]) == x;
        assert vs[i].modality in ms;
      }
    }
    SortedSetSize(list, all);
    TextCount(ms);
  }

  /** The gate of a summary, by the counted voices. */
  lemma GateExact(n: Numerics, f: Event -> Weighted, matching: seq<Head>, rule: ClaimRule)
    requires WeighedBy(f, matching)
    ensures var qualifying := Filter(matching, Qualifies(n, rule));
            var sources, modalities := SortedSet(Map(qualifying, SourceText())),
                SortedSet(Map(qualifying, HeadModality()));
            Gate(n, f, rule, Map(matching, EventOfHead())) <==>
              && |qualifying| >= rule.quorum && |sources| >= rule.minSources && |modalities| >= rule.minModalities
              && forall i | 0 <= i < |rule.requiredModalities| ::
                   ModalityText(rule.requiredModalities[i]) in modalities
  {
    hide Filter, Map, SortedSet, ModalityText, WeighedBy, Qualifies, Strength;
    CountedExact(n, f, matching, rule);
    SourcesExact(n, f, matching, rule);
    ModalitiesExact(n, f, matching, rule);
    SortedSetIn(Map(Filter(matching, Qualifies(n, rule)), HeadModality()));
    forall k | 0 <= k < |rule.requiredModalities|
      ensures ModalityText(rule.requiredModalities[k]) in Map(Filter(matching, Qualifies(n, rule)), HeadModality())
         <==> exists i | i in Counted(n, f, rule, Map(matching, EventOfHead())) ::
                Map(matching, EventOfHead())[i].modality == rule.requiredModalities[k]
    {
      ModalityShown(n, f, matching, rule, rule.requiredModalities[k]);
    }
  }

  /** A summary, by the voices of its signal. */
  lemma SummaryExact(n: Numerics, f: Event -> Weighted, signal: Signal, heads: seq<Head>, rule: ClaimRule)
    requires WeighedBy(f, heads)
    ensures var s, vs := Summarize(n, signal, heads, rule), VoicesOf(signal, heads);
            && s.score == Score(n, f, vs)
            && s.qualifying == |Counted(n, f, rule, vs)|
            && (s.gatePassed <==> Gate(n, f, rule, vs))
  {
    hide Filter, Map, SortedSet, Counted, ModalityText, Complement, Doubt, Gate, Qualifies;
    var matching := Filter(heads, SignalHead(signal));
    FilterIn(heads, SignalHead(signal));
    ComplementIsDoubt(n, f, matching);
    CountedExact(n, f, matching, rule);
    GateExact(n, f, matching, rule);
  }

  /** The outcome table, whatever the summaries. */
  lemma OutcomeExact(n: Numerics, f: Event -> Weighted, claim: ClaimPolicy, ws: seq<Weighted>, heads: seq<Head>)
    requires heads == Map(Collapse(n, ws), HeadOf()) && WeighedBy(f, heads)
    ensures Concluded(n, f, claim.rule, VoicesOf(Support, heads), VoicesOf(Contradict, heads), Decide(n, claim, ws))
  {
    hide Summarize, Collapse, VoicesOf, Gate, Score, Counted, WeighedBy, Map;
    SummaryExact(n, f, Support, heads, claim.rule);
    SummaryExact(n, f, Contradict, heads, claim.rule);
  }

  // ----- Voices of a collapse -----

  /** The weighed observations of a claim, as `f` weighs them. */
  ghost predicate Weighs(f: Event -> Weighted, es: seq<Event>, ws: seq<Weighted>) {
    && (forall e :: f(e).event == e)
    && (forall w :: w in ws <==> w.event in es && w == f(w.event))
  }

  lemma SpeakerExact(n: Numerics, f: Event -> Weighted, es: seq<Event>, ws: seq<Weighted>, h: Head)
    requires DistinctIds(es) && Weighs(f, es, ws)
    ensures Represents(n, ws, h) <==>
      && h.representative == f(h.representative.event) && h.representative.event in es
      && h.key == KeyFor(h.representative)
      && Speaks(n, f, es, h.representative.event)
  {
    hide GroupId, TextLess;
    var e := h.representative.event;
    if h.representative == f(e) && e in es && h.key == KeyFor(h.representative) {
      if Speaks(n, f, es, e) {
        forall w | w in ws && KeyFor(w) == h.key
          ensures w == h.representative || Outranks(n, h.representative, w)
        {
          GroupIdExact(w.event, e);
          if w.event.eventId == e.eventId {
            SameId(es, w.event, e);
          }
        }
      }
      if Represents(n, ws, h) {
        forall x | x in es && x.signal == e.signal && SameGroup(x, e)
          ensures || Strength(n, f, x) < Strength(n, f, e)
            || (Strength(n, f, x) == Strength(n, f, e) && (x.eventId == e.eventId || TextLess(e.eventId, x.eventId)))
        {
          GroupIdExact(x, e);
          assert f(x).event == x;
          assert f(x) in ws && KeyFor(f(x)) == h.key;
        }
      }
    }
  }

  lemma SameId(es: seq<Event>, x: Event, y: Event)
    requires DistinctIds(es) && x in es && y in es && x.eventId == y.eventId
    ensures x == y
  {
    var i :| 0 <= i < |es| && es[i] == x;
    var j :| 0 <= j < |es| && es[j] == y;
    assert i == j;
  }

  /** Every observation has a head for its group and signal. */
  lemma EveryKeyHeads(n: Numerics, ws: seq<Weighted>, w: Weighted)
    requires w in ws
    ensures exists h :: h in Map(Collapse(n, ws), HeadOf()) && h.key == KeyFor(w)
  {
    hide Filter, KeyFor, Sort, Dedup, SelectionLess, Map, Distinct;
    KeysExact(ws);
    var keys := Keys(ws);
    var all := Selections(n, ws, keys);
    var i :| 0 <= i < |keys| && keys[i] == KeyFor(w);
    SortIn(all, SelectionLess);
    assert all[i] in all;
    MapIn(Collapse(n, ws), HeadOf());
    assert HeadOf()(all[i]) in Map(Collapse(n, ws), HeadOf());
    assert HeadOf()(all[i]).key == KeyFor(w);
  }

  lemma VoicesApart(signal: Signal, heads: seq<Head>)
    requires Ascends(heads, HeadLess) && forall h | h in heads :: h.key == KeyFor(h.representative)
    ensures var vs := VoicesOf(signal, heads);
            forall i, j | 0 <= i < j < |vs| :: !SameGroup(vs[i], vs[j])
  {
    hide Filter, TextLess, GroupId;
    var matching := Filter(heads, SignalHead(signal));
    FilterAscends(heads, SignalHead(signal), HeadLess);
    FilterIn(heads, SignalHead(signal));
    var vs := VoicesOf(signal, heads);
    forall i, j | 0 <= i < j < |vs|
      ensures !SameGroup(vs[i], vs[j])
    {
      assert matching[i] in matching && matching[j] in matching;
      assert HeadLess(matching[i], matching[j]);
      GroupIdExact(vs[i], vs[j]);
      TextIrreflexive(GroupId(vs[i]));
    }
  }

  /** The heads are the speakers of their groups and signals, as `f` weighs them. */
  ghost predicate HeadsSpeak(n: Numerics, f: Event -> Weighted, es: seq<Event>, heads: seq<Head>) {
    forall h :: h in heads <==>
      && h.representative == f(h.representative.event) && h.representative.event in es
      && h.key == KeyFor(h.representative)
      && Speaks(n, f, es, h.representative.event)
  }

  lemma VoiceIn(n: Numerics, f: Event -> Weighted, es: seq<Event>, signal: Signal, heads: seq<Head>, e: Event)
    requires HeadsSpeak(n, f, es, heads) && f(e).event == e
    ensures e in VoicesOf(signal, heads) <==> e in es && e.signal == signal && Speaks(n, f, es, e)
  {
    hide Speaks, Filter, Map, GroupId;
    var matching := Filter(heads, SignalHead(signal));
    FilterIn(heads, SignalHead(signal));
    MapIn(matching, EventOfHead());
    if e in es && e.signal == signal && Speaks(n, f, es, e) {
      var h := Head(KeyFor(f(e)), f(e));
      assert h in heads;
      assert EventOfHead()(h) == e;
    }
  }

  lemma EveryVoice(n: Numerics, f: Event -> Weighted, es: seq<Event>, ws: seq<Weighted>, signal: Signal, e: Event)
    requires Weighs(f, es, ws) && e in es && e.signal == signal
    requires HeadsSpeak(n, f, es, Map(Collapse(n, ws), HeadOf()))
    ensures var vs := VoicesOf(signal, Map(Collapse(n, ws), HeadOf()));
            exists i :: 0 <= i < |vs| && SameGroup(vs[i], e)
  {
    hide Speaks, Filter, Map, GroupId, Collapse, SameGroup;
    var heads := Map(Collapse(n, ws), HeadOf());
    var matching, vs := Filter(heads, SignalHead(signal)), VoicesOf(signal, heads);
    EveryKeyHeads(n, ws, f(e));
    var h :| h in heads && h.key == KeyFor(f(e));
    GroupIdExact(h.representative.event, e);
    FilterIn(heads, SignalHead(signal));
    MapIn(matching, EventOfHead());
    assert EventOfHead()(h) in vs;
  }

  /** The heads of a collapse, read as voices. */
  lemma VoicesExact(n: Numerics, f: Event -> Weighted, es: seq<Event>, ws: seq<Weighted>, signal: Signal)
    requires DistinctIds(es) && Comparable(ws, WeightedLess) && Weighs(f, es, ws)
    ensures var heads := Map(Collapse(n, ws), HeadOf());
            WeighedBy(f, heads) && Voices(n, f, es, signal, VoicesOf(signal, heads))
  {
    hide Collapse, Comparable, DistinctIds, GroupId, TextLess, Map, Filter, Ascends, Represents, Speaks, SameGroup,
      VoicesOf;
    var heads := Map(Collapse(n, ws), HeadOf());
    CollapseExact(n, ws);
    forall h
      ensures h in heads <==>
        && h.representative == f(h.representative.event) && h.representative.event in es
        && h.key == KeyFor(h.representative)
        && Speaks(n, f, es, h.representative.event)
    {
      SpeakerExact(n, f, es, ws, h);
      if Represents(n, ws, h) {
        RepresentedKey(n, ws, h);
      }
    }
    VoicesApart(signal, heads);
    var vs := VoicesOf(signal, heads);
    forall e
      ensures e in vs <==> e in es && e.signal == signal && Speaks(n, f, es, e)
    {
      VoiceIn(n, f, es, signal, heads, e);
    }
    forall e | e in es && e.signal == signal
      ensures exists i :: 0 <= i < |vs| && SameGroup(vs[i], e)
    {
      EveryVoice(n, f, es, ws, signal, e);
    }
  }

  // ----- What a decision lists -----

  /** One line per event, in identifier order, with its rounded weight. */
  predicate Traced(n: Numerics, f: Event -> Weighted, es: seq<Event>, trace: seq<EventTrace>) {
    && |trace| == |es|
    && (forall i, j | 0 <= i < j < |trace| :: TextLess(trace[i].event.eventId, trace[j].event.eventId))
    && (forall i | 0 <= i < |trace| ::
          && trace[i].event in es
          && var w := f(trace[i].event);
             trace[i] == EventTrace(w.event, n.round(w.reliability), w.age, n.round(w.factor), n.round(w.effective)))
  }

  /** Another event of the group and signal that `v` speaks for has this identifier. */
  predicate Silenced(es: seq<Event>, v: Event, id: string) {
    exists x | x in es && x != v && x.signal == v.signal && SameGroup(x, v) :: x.eventId == id
  }

  /** A line of the correlation list: its speaker, and everyone it speaks for. */
  ghost predicate SpeaksFor(n: Numerics, f: Event -> Weighted, es: seq<Event>, c: CorrelationTrace, v: Event) {
    && v in es && Speaks(n, f, es, v)
    && c.key == Key(GroupId(v), v.signal) && c.representativeId == v.eventId
    && c.effective == Strength(n, f, v)
    && forall id :: id in c.suppressedIds <==> Silenced(es, v, id)
  }

  /** One line per speaker and no other. */
  ghost predicate Correlated(n: Numerics, f: Event -> Weighted, es: seq<Event>, cs: seq<CorrelationTrace>) {
    && (forall c | c in cs :: exists v :: SpeaksFor(n, f, es, c, v))
    && (forall v | v in es && Speaks(n, f, es, v) :: exists c :: c in cs && SpeaksFor(n, f, es, c, v))
  }

  lemma TraceExact(n: Numerics, f: Event -> Weighted, es: seq<Event>, ws: seq<Weighted>)
    requires Weighs(f, es, ws) && |ws| == |es| && Ascends(ws, WeightedLess)
    ensures Traced(n, f, es, Map(ws, Tracer(n)))
  {
    hide TextLess;
    forall i | 0 <= i < |ws|
      ensures ws[i].event in es && ws[i] == f(ws[i].event)
    {
      assert ws[i] in ws;
    }
  }

  lemma SuppressedExact(n: Numerics, f: Event -> Weighted, es: seq<Event>, ws: seq<Weighted>, s: Selection, id: string)
    requires Weighs(f, es, ws) && s.representative in ws && KeyFor(s.representative) == s.key
    requires forall w :: w in s.suppressed <==> w in ws && KeyFor(w) == s.key && w != s.representative
    ensures id in Map(s.suppressed, WeightedIdOf()) <==> Silenced(es, s.representative.event, id)
  {
    hide Map, GroupId, SameGroup;
    var v := s.representative.event;
    MapIn(s.suppressed, WeightedIdOf());
    if id in Map(s.suppressed, WeightedIdOf()) {
      var w :| w in s.suppressed && WeightedIdOf()(w) == id;
      GroupIdExact(w.event, v);
      assert w.event in es && w.event != v;
    }
    if Silenced(es, v, id) {
      var x :| x in es && x != v && x.signal == v.signal && SameGroup(x, v) && x.eventId == id;
      GroupIdExact(x, v);
      assert f(x).event == x;
      assert f(x) in s.suppressed;
      assert WeightedIdOf()(f(x)) == id;
    }
  }

  lemma CorrelationExact(n: Numerics, f: Event -> Weighted, es: seq<Event>, ws: seq<Weighted>, s: Selection)
    requires DistinctIds(es) && Weighs(f, es, ws) && Represents(n, ws, HeadOf()(s))
    requires forall w :: w in s.suppressed <==> w in ws && KeyFor(w) == s.key && w != s.representative
    ensures SpeaksFor(n, f, es, Correlator(n)(s), s.representative.event)
  {
    hide DistinctIds, Map, Silenced, Speaks;
    SpeakerExact(n, f, es, ws, HeadOf()(s));
    RepresentedKey(n, ws, HeadOf()(s));
    forall id
      ensures id in Map(s.suppressed, WeightedIdOf()) <==> Silenced(es, s.representative.event, id)
    {
      SuppressedExact(n, f, es, ws, s, id);
    }
  }

  lemma CorrelationsExact(n: Numerics, f: Event -> Weighted, es: seq<Event>, ws: seq<Weighted>)
    requires DistinctIds(es) && Comparable(ws, WeightedLess) && Weighs(f, es, ws)
    ensures Correlated(n, f, es, Map(Collapse(n, ws), Correlator(n)))
  {
    hide DistinctIds, Comparable, Weighs, Collapse, Map, Represents, Speaks, SpeaksFor, Correlator, GroupId,
      WeightedLess, Ascends;
    var selections := Collapse(n, ws);
    CollapseExact(n, ws);
    MapIn(selections, HeadOf());
    MapIn(selections, Correlator(n));
    var cs := Map(selections, Correlator(n));
    forall c | c in cs
      ensures exists v :: SpeaksFor(n, f, es, c, v)
    {
      var s :| s in selections && Correlator(n)(s) == c;
      assert HeadOf()(s) in Map(selections, HeadOf());
      CorrelationExact(n, f, es, ws, s);
    }
    forall v | v in es && Speaks(n, f, es, v)
      ensures exists c :: c in cs && SpeaksFor(n, f, es, c, v)
    {
      SpeakerListed(n, f, es, ws, v);
    }
  }

  lemma SpeakerListed(n: Numerics, f: Event -> Weighted, es: seq<Event>, ws: seq<Weighted>, v: Event)
    requires DistinctIds(es) && Comparable(ws, WeightedLess) && Weighs(f, es, ws) && v in es && Speaks(n, f, es, v)
    ensures exists c :: c in Map(Collapse(n, ws), Correlator(n)) && SpeaksFor(n, f, es, c, v)
  {
    hide DistinctIds, Comparable, Collapse, Map, Represents, Speaks, SpeaksFor, Correlator, GroupId, WeightedLess,
      Ascends;
    var selections := Collapse(n, ws);
    CollapseExact(n, ws);
    MapIn(selections, HeadOf());
    MapIn(selections, Correlator(n));
    var h := Head(KeyFor(f(v)), f(v));
    SpeakerExact(n, f, es, ws, h);
    var s :| s in selections && HeadOf()(s) == h;
    CorrelationExact(n, f, es, ws, s);
    assert Correlator(n)(s) in Map(selections, Correlator(n));
  }

  // ----- Whole evaluations -----

  /** One claim's decision, on its lawful events. */
  lemma ClaimConcludes(n: Numerics, policy: Policy, asOf: int, adjustments: seq<Adjustment>, claim: ClaimPolicy,
                       es: seq<Event>)
    returns (vs: seq<Event>, us: seq<Event>)
    requires Lawful(policy, asOf, es)
    ensures var f, r := Weigher(n, policy, asOf, adjustments), EvaluateClaim(n, policy, asOf, adjustments, claim, es);
            && r.Ok? && r.value.claim == claim.name
            && Voices(n, f, es, Support, vs) && Voices(n, f, es, Contradict, us)
            && Concluded(n, f, claim.rule, vs, us, r.value)
            && Traced(n, f, es, r.value.trace) && Correlated(n, f, es, r.value.correlations)
  {
    hide Filter, Sort, DistinctIds, Comparable, WeightedLess, Skewed, Map, Collapse, Voices, VoicesOf, Concluded,
      Applied, ReliabilityFor, HalfLifeFor, Value, Summarize, ChooseOutcome, Traced, Correlated, Ascends;
    NeverInFuture(policy, asOf, es);
    var f := Weigher(n, policy, asOf, adjustments);
    var ws := Sort(Map(es, f), WeightedLess);
    SortedWeighed(n, policy, asOf, adjustments, es);
    SortIn(Map(es, f), WeightedLess);
    MapIn(es, f);
    assert Weighs(f, es, ws);
    VoicesExact(n, f, es, ws, Support);
    VoicesExact(n, f, es, ws, Contradict);
    var heads := Map(Collapse(n, ws), HeadOf());
    vs, us := VoicesOf(Support, heads), VoicesOf(Contradict, heads);
    OutcomeExact(n, f, claim, ws, heads);
    WeightedStrict();
    WeighedComparable(n, policy, asOf, adjustments, es);
    SortAscends(Map(es, f), WeightedLess);
    TraceExact(n, f, es, ws);
    CorrelationsExact(n, f, es, ws);
  }

  /** The considered events of one claim. */
  function Considered(events: seq<Event>, asOf: int, claim: string): seq<Event> {
    Filter(Filter(events, IngestedBy(asOf)), OfClaim(claim))
  }

  lemma ConsideredIn(events: seq<Event>, asOf: int, claim: string)
    ensures forall e :: e in Considered(events, asOf, claim) <==>
              e in events && e.ingestedAt <= asOf && e.claim == claim
  {
    FilterIn(events, IngestedBy(asOf));
    FilterIn(Filter(events, IngestedBy(asOf)), OfClaim(claim));
  }

  lemma {:induction false} DecisionAt(n: Numerics, policy: Policy, asOf: int, adjustments: seq<Adjustment>,
                                      claims: seq<ClaimPolicy>, events: seq<Event>, k: nat)
    requires Decisions(n, policy, asOf, adjustments, claims, events).Ok? && k < |claims|
    ensures var ds := Decisions(n, policy, asOf, adjustments, claims, events).value;
            && |ds| == |claims|
            && EvaluateClaim(n, policy, asOf, adjustments, claims[k], Filter(events, OfClaim(claims[k].name)))
                 == Ok(ds[k])
    decreases |claims|
  {
    hide EvaluateClaim, Filter;
    var m := |claims| - 1;
    if m > 0 {
      DecisionAt(n, policy, asOf, adjustments, claims[..m], events, if k < m then k else 0);
    } else {
      assert claims[..m] == [];
    }
  }

  /** Every decision of a successful evaluation, from the considered events of its claim:
      escalated exactly when support alone passes gate, threshold and margin, rejected
      exactly when contradiction alone does, for review otherwise and for which reason. */
  lemma EvaluateConcludes(n: Numerics, policy: Policy, asOf: int, events: seq<Event>, items: seq<Adjudication>, k: nat)
    returns (es: seq<Event>, vs: seq<Event>, us: seq<Event>)
    requires ValidPolicy(policy) && Evaluate(n, policy, events, asOf, items).Ok? && k < |policy.claims|
    ensures var d := Evaluate(n, policy, events, asOf, items).value.decisions;
            var claim := Sort(policy.claims, ClaimLess)[k];
            var f := Weigher(n, policy, asOf, Adjustments(n, policy, Filter(items, JudgedBy(asOf))));
            && |d| == |policy.claims| && d[k].claim == claim.name && claim in policy.claims
            && (forall e :: e in es <==> e in events && e.ingestedAt <= asOf && e.claim == claim.name)
            && Voices(n, f, es, Support, vs) && Voices(n, f, es, Contradict, us)
            && Concluded(n, f, claim.rule, vs, us, d[k])
            && Traced(n, f, es, d[k].trace) && Correlated(n, f, es, d[k].correlations)
  {
    hide Filter, Sort, Adjustments, Decisions, Lawful, EventFailure, AdjudicationFailure, EvaluateClaim, Voices,
      Concluded, Weigher, ValidEvents, ValidItems, Traced, Correlated;
    EvaluateTotal(n, policy, asOf, events, items);
    var claims := Sort(policy.claims, ClaimLess);
    SortIn(policy.claims, ClaimLess);
    assert claims[k] in claims;
    var adjustments := Adjustments(n, policy, Filter(items, JudgedBy(asOf)));
    var considered := Filter(events, IngestedBy(asOf));
    ConsideredLawful(policy, events, asOf);
    FilterLawful(policy, asOf, considered, OfClaim(claims[k].name));
    ConsideredIn(events, asOf, claims[k].name);
    es := Considered(events, asOf, claims[k].name);
    vs, us := ClaimConcludes(n, policy, asOf, adjustments, claims[k], es);
    DecisionAt(n, policy, asOf, adjustments, claims, considered, k);
  }

  /** The rest of a result: what it evaluates, what it leaves pending, and one adjustment per
      judged source, in order. */
  lemma EvaluateReports(n: Numerics, policy: Policy, asOf: int, events: seq<Event>, items: seq<Adjudication>)
    requires ValidPolicy(policy) && Evaluate(n, policy, events, asOf, items).Ok?
    ensures var r := Evaluate(n, policy, events, asOf, items).value;
            && r.policyId == policy.policyId && r.evaluatedAt == asOf
            && (forall id :: id in r.pending <==> exists e :: e in events && e.ingestedAt > asOf && e.eventId == id)
            && Ascends(r.pending, TextLess)
            && (r.updates.Some? <==> policy.updates.Some?)
            && (r.updates.Some? ==>
                  var known := Filter(items, JudgedBy(asOf));
                  && (forall i, j | 0 <= i < j < |r.updates.value| ::
                        TextLess(r.updates.value[i].source, r.updates.value[j].source))
                  && (forall source :: IsJudged(known, source) <==>
                        exists i :: 0 <= i < |r.updates.value| && r.updates.value[i].source == source)
                  && (forall i | 0 <= i < |r.updates.value| ::
                        r.updates.value[i] ==
                          AdjustSource(n, policy, policy.updates.value, known, r.updates.value[i].source)))
  {
    hide Filter, Sort, Adjustments, Decisions, EventFailure, AdjudicationFailure, ValidEvents, ValidItems, AdjustSource,
      Ascends, Map, IsJudged;
    EvaluateTotal(n, policy, asOf, events, items);
    PendingExact(policy, asOf, events);
    if policy.updates.Some? {
      UpdatesExact(n, policy, Filter(items, JudgedBy(asOf)));
    }
  }

  lemma PendingExact(policy: Policy, asOf: int, events: seq<Event>)
    requires ValidEvents(policy, events)
    ensures var pending := Sort(Map(Filter(events, IngestedAfter(asOf)), EventIdOf()), TextLess);
            && (forall id :: id in pending <==> exists e :: e in events && e.ingestedAt > asOf && e.eventId == id)
            && Ascends(pending, TextLess)
  {
    hide Filter, Sort, Ascends, Map, TextLess, Comparable, Skewed;
    var later := Filter(events, IngestedAfter(asOf));
    var ids := Map(later, EventIdOf());
    FilterIn(events, IngestedAfter(asOf));
    FilterDistinctIds(events, IngestedAfter(asOf));
    MapIn(later, EventIdOf());
    SortIn(ids, TextLess);
    TextStrict();
    assert Distinct(ids);
    DistinctTextsComparable(ids);
    SortAscends(ids, TextLess);
    forall id
      ensures id in ids <==> exists e :: e in events && e.ingestedAt > asOf && e.eventId == id
    {
      if e :| e in events && e.ingestedAt > asOf && e.eventId == id {
        assert EventIdOf()(e) == id;
      }
    }
  }

  lemma UpdatesExact(n: Numerics, policy: Policy, known: seq<Adjudication>)
    requires ValidPolicy(policy) && policy.updates.Some?
    ensures var r := Adjustments(n, policy, known);
            && (forall i, j | 0 <= i < j < |r| :: TextLess(r[i].source, r[j].source))
            && (forall source :: IsJudged(known, source) <==> exists i :: 0 <= i < |r| && r[i].source == source)
            && (forall i | 0 <= i < |r| ::
                  r[i] == AdjustSource(n, policy, policy.updates.value, known, r[i].source))
  {
    hide SortedSet, Sort, Filter, TextLess, IsJudged, Clamp, Posterior, ReliabilityFor;
    var sources := SortedSet(Map(known, JudgedSourceOf()));
    SortedSetIn(Map(known, JudgedSourceOf()));
    SortedSetAscends(Map(known, JudgedSourceOf()));
    var r := Adjustments(n, policy, known);
    assert |r| == |sources| && forall i | 0 <= i < |r| :: r[i].source == sources[i];
    forall source
      ensures IsJudged(known, source) <==> exists i :: 0 <= i < |r| && r[i].source == source
    {
      SourcesIn(known, source);
      if source in sources {
        var i :| 0 <= i < |sources| && sources[i] == source;
        assert r[i].source == source;
      }
    }
  }

  lemma SortedSetAscends(s: seq<string>)
    ensures Ascends(SortedSet(s), TextLess)
  {
    hide TextLess, Sort, Dedup, Comparable, Ascends;
    TextStrict();
    DedupDistinct(s);
    DistinctTextsComparable(Dedup(s));
    SortAscends(Dedup(s), TextLess);
  }

  /** Which streams are evaluated, rule by rule: distinct events of configured claims, none
      observed too far ahead of its ingestion; and distinct judgements of known sources, only
      under a policy that updates, each by its event's source and not before that event. */
  predicate Admissible(policy: Policy, events: seq<Event>, items: seq<Adjudication>) {
    && (forall i, j | 0 <= i < j < |events| :: events[i].eventId != events[j].eventId)
    && (forall e | e in events ::
          && (exists i | 0 <= i < |policy.claims| :: policy.claims[i].name == e.claim)
          && e.observedAt <= e.ingestedAt + policy.maxFutureSkew)
    && (items != [] ==> policy.updates.Some?)
    && (forall i, j | 0 <= i < j < |items| :: items[i].eventId != items[j].eventId)
    && (forall a | a in items :: a.source in policy.sources)
    && (forall a, e | a in items && e in events && e.eventId == a.eventId ::
          e.source == a.source && e.ingestedAt <= a.adjudicatedAt)
  }

  /** Evaluation succeeds exactly on those streams. */
  lemma EvaluateAccepts(n: Numerics, policy: Policy, asOf: int, events: seq<Event>, items: seq<Adjudication>)
    requires ValidPolicy(policy)
    ensures Evaluate(n, policy, events, asOf, items).Ok? <==> Admissible(policy, events, items)
  {
    hide Evaluate, Mismatched, Premature;
    EvaluateTotal(n, policy, asOf, events, items);
    if DistinctIds(events) {
      forall a
        ensures !Mismatched(events, a) && !Premature(events, a) <==>
          forall e | e in events && e.eventId == a.eventId :: e.source == a.source && e.ingestedAt <= a.adjudicatedAt
      {
        JudgementFits(events, a);
      }
    }
  }

  lemma JudgementFits(events: seq<Event>, a: Adjudication)
    requires DistinctIds(events)
    ensures !Mismatched(events, a) && !Premature(events, a) <==>
      forall e | e in events && e.eventId == a.eventId :: e.source == a.source && e.ingestedAt <= a.adjudicatedAt
  {
    hide DistinctIds;
    forall e
      ensures EventById(events, a.eventId) == Some(e) <==> e in events && e.eventId == a.eventId
    {
      EventByIdExact(events, e, a.eventId);
    }
  }

  // ----- Complaints -----

  predicate Twice(ids: seq<string>, id: string) {
    exists i, j | 0 <= i < j < |ids| :: ids[i] == id && ids[j] == id
  }

  lemma {:induction false} TwiceExact(ids: seq<string>, id: string)
    ensures multiset(ids)[id] > 1 <==> Twice(ids, id)
    decreases |ids|
  {
    if ids != [] {
      var n := |ids| - 1;
      var init := ids[..n];
      assert ids == init + [ids[n]];
      TwiceExact(init, id);
      if Twice(init, id) {
        var i, j :| 0 <= i < j < n && init[i] == id && init[j] == id;
        assert ids[i] == id && ids[j] == id;
      }
      if ids[n] == id && id in init {
        var i :| 0 <= i < n && init[i] == id;
        assert ids[i] == id && ids[n] == id;
      }
      if Twice(ids, id) {
        var i, j :| 0 <= i < j < |ids| && ids[i] == id && ids[j] == id;
        assert init[i] == id;
        assert j < n ==> init[j] == id;
      }
    }
  }

  /** The sorted list of everything kept, once. */
  lemma ListedExact(ids: seq<string>, keep: string -> bool)
    ensures var r := SortedSet(Filter(ids, keep));
            Ascends(r, TextLess) && forall id :: id in r <==> id in ids && keep(id)
  {
    hide SortedSet, Filter, TextLess, Ascends;
    FilterIn(ids, keep);
    SortedSetIn(Filter(ids, keep));
    SortedSetAscends(Filter(ids, keep));
  }

  /** What a refusal of an event stream names: every repeated identifier, else every claim
      that is not configured, else the first event observed too far ahead. */
  lemma EventReportExact(policy: Policy, events: seq<Event>)
    ensures match EventFailure(policy, events)
            case Some(DuplicateEvents(ids)) =>
              Ascends(ids, TextLess) && forall id :: id in ids <==> Twice(Map(events, EventIdOf()), id)
            case Some(UnknownClaims(claims)) =>
              && DistinctIds(events) && Ascends(claims, TextLess)
              && forall c :: c in claims <==> !KnownClaim(policy, c) && exists e :: e in events && e.claim == c
            case Some(FutureSkew(id)) =>
              && DistinctIds(events) && (forall e | e in events :: KnownClaim(policy, e.claim))
              && exists i | 0 <= i < |events| ::
                   && events[i].eventId == id && Skewed(policy, events[i])
                   && forall j | 0 <= j < i :: !Skewed(policy, events[j])
            case _ => true
  {
    hide Filter, SortedSet, KnownClaim, Skewed, TextLess, Ascends, Map, Twice;
    var ids, claims := Map(events, EventIdOf()), Map(events, ClaimOf());
    DuplicatesExact(ids);
    ListedExact(ids, Repeated(ids));
    forall id
      ensures id in ids && Repeated(ids)(id) <==> Twice(ids, id)
    {
      TwiceExact(ids, id);
    }
    MapIn(events, ClaimOf());
    ListedExact(claims, UnknownClaim(policy));
    FilterEmpty(claims, UnknownClaim(policy));
    forall c
      ensures c in claims <==> exists e :: e in events && e.claim == c
    {
      if e :| e in events && e.claim == c {
        assert ClaimOf()(e) in claims;
      }
    }
    FirstKept(events, SkewedIn(policy));
    assert DistinctIds(events) <==> Distinct(ids);
  }

  lemma {:induction false} FirstKept<T(!new)>(s: seq<T>, keep: T -> bool)
    ensures Filter(s, keep) != [] ==>
      exists i | 0 <= i < |s| :: s[i] == Filter(s, keep)[0] && keep(s[i]) && forall j | 0 <= j < i :: !keep(s[j])
    decreases |s|
  {
    if s != [] {
      var n := |s| - 1;
      FirstKept(s[..n], keep);
      FilterEmpty(s[..n], keep);
      if Filter(s[..n], keep) != [] {
        var i :| 0 <= i < n && s[..n][i] == Filter(s[..n], keep)[0] && keep(s[..n][i])
                 && forall j | 0 <= j < i :: !keep(s[..n][j]);
        assert forall j | 0 <= j < i :: s[..n][j] == s[j];
        assert s[i] == Filter(s, keep)[0];
      } else if keep(s[n]) {
        assert forall j | 0 <= j < n :: s[j] in s[..n];
        assert Filter(s, keep) == [s[n]];
      }
    }
  }

  // ----- Weights -----

  /** Some known adjudication judges this source. */
  predicate IsJudged(known: seq<Adjudication>, source: string) {
    exists i | 0 <= i < |known| :: known[i].source == source
  }

  /** The reliability a source is weighed with: its adjustment when updates are configured
      and it was judged, else its declared weight, else the default. */
  function ReliabilityOf(n: Numerics, policy: Policy, known: seq<Adjudication>, source: string): real
    requires ValidPolicy(policy)
  {
    if policy.updates.Some? && IsJudged(known, source)
    then AdjustSource(n, policy, policy.updates.value, known, source).applied
    else if source in policy.sources then policy.sources[source] else policy.defaultReliability
  }

  lemma {:induction false} AppliedExact(n: Numerics, policy: Policy, known: seq<Adjudication>, sources: seq<string>,
                                        source: string)
    requires policy.updates.Some? && ValidPolicy(policy)
    ensures Applied(Map(sources, Adjuster(n, policy, known)), source) ==
              if source in sources then Some(AdjustSource(n, policy, policy.updates.value, known, source).applied)
              else None
    decreases |sources|
  {
    hide Filter, Sort, Posterior, ReliabilityFor, Clamp;
    if sources != [] {
      var m := |sources| - 1;
      SplitLast(sources);
      AppliedExact(n, policy, known, sources[..m], source);
      assert Map(sources, Adjuster(n, policy, known))[..m] == Map(sources[..m], Adjuster(n, policy, known));
    }
  }

  /** The weight of an event: confidence times reliability times decay over its age, which
      never counts below zero. */
  lemma WeightExact(n: Numerics, policy: Policy, asOf: int, known: seq<Adjudication>, e: Event)
    requires ValidPolicy(policy)
    ensures var w := Weigher(n, policy, asOf, Adjustments(n, policy, known))(e);
            && w.event == e
            && (w.age == if e.observedAt < asOf then asOf - e.observedAt else 0)
            && w.reliability == ReliabilityOf(n, policy, known, e.source)
            && w.factor == n.decay(w.age, if e.modality in policy.modalityHalfLife
                                          then policy.modalityHalfLife[e.modality] else policy.defaultHalfLife)
            && w.effective == Value(e.confidence) * w.reliability * w.factor
  {
    hide Adjustments, Value, Applied, ReliabilityOf;
    WeighedReliability(n, policy, known, e.source);
  }

  lemma WeighedReliability(n: Numerics, policy: Policy, known: seq<Adjudication>, source: string)
    requires ValidPolicy(policy)
    ensures var adjusted := Applied(Adjustments(n, policy, known), source);
            ReliabilityOf(n, policy, known, source) ==
              if adjusted.None? then ReliabilityFor(policy, source) else adjusted.value
  {
    hide SortedSet, AdjustSource, Map;
    if policy.updates.Some? {
      var sources := Map(known, JudgedSourceOf());
      SortedSetIn(sources);
      SourcesIn(known, source);
      AppliedExact(n, policy, known, SortedSet(sources), source);
    }
  }

  lemma SourcesIn(known: seq<Adjudication>, source: string)
    ensures source in Map(known, JudgedSourceOf()) <==> IsJudged(known, source)
  {
    MapIn(known, JudgedSourceOf());
    if IsJudged(known, source) {
      var i :| 0 <= i < |known| && known[i].source == source;
      assert JudgedSourceOf()(known[i]) == source;
    }
  }

  /** One adjustment, by counting: the posterior weighs the declared reliability as
      `priorWeight` judgements beside the correct share of the real ones, and the applied
      weight moves from the declared one towards it by no more than the bound. */
  lemma AdjustmentExact(n: Numerics, policy: Policy, rule: ReliabilityRule, known: seq<Adjudication>, source: string)
    returns (share: real)
    requires rule.priorWeight > 0.0 && rule.maxAdjustment >= 0.0
    ensures var a := AdjustSource(n, policy, rule, known, source);
            var right, wrong := |Where(known, Judged(source, Correct))|, |Where(known, Judged(source, Incorrect))|;
            var total: nat := right + wrong;
            && a.source == source
            && (a.declared == n.round(if source in policy.sources then policy.sources[source]
                                      else policy.defaultReliability))
            && share * (rule.priorWeight + total as real) == rule.priorWeight * a.declared + right as real
            && a.posterior == n.round(share)
            && a.applied == n.round(if a.posterior > a.declared + rule.maxAdjustment
                                    then a.declared + rule.maxAdjustment
                                    else if a.posterior < a.declared - rule.maxAdjustment
                                    then a.declared - rule.maxAdjustment else a.posterior)
            && |a.correct| == right && |a.incorrect| == wrong
  {
    hide Filter, Sort, Map, Where, Clamp, Judged, Posterior;
    FilterCount(known, Judged(source, Correct));
    FilterCount(known, Judged(source, Incorrect));
    var a := AdjustSource(n, policy, rule, known, source);
    var right, wrong := |Where(known, Judged(source, Correct))|, |Where(known, Judged(source, Incorrect))|;
    var total: nat := right + wrong;
    assert |a.correct| == right && |a.correct| + |a.incorrect| == total;
    assert a.posterior == n.round(Posterior(rule, a.declared, right, total));
    share := Posterior(rule, a.declared, right, total);
    PosteriorShare(rule, a.declared, right, total);
    ClampExact(a.declared, a.posterior, rule.maxAdjustment);
  }

  /** The judgements an adjustment lists: exactly the known ones of its source, by verdict. */
  lemma AdjustmentLists(n: Numerics, policy: Policy, rule: ReliabilityRule, known: seq<Adjudication>, source: string,
                        id: string)
    requires rule.priorWeight > 0.0
    ensures var a := AdjustSource(n, policy, rule, known, source);
            && (id in a.correct <==> IsJudgedAs(known, id, source, Correct))
            && (id in a.incorrect <==> IsJudgedAs(known, id, source, Incorrect))
  {
    hide Filter, Sort, Map, Clamp, Posterior, Judged, ReliabilityFor, IsJudgedAs;
    JudgedIds(known, source, Correct, id);
    JudgedIds(known, source, Incorrect, id);
  }

  predicate IsJudgedAs(known: seq<Adjudication>, id: string, source: string, verdict: Verdict) {
    exists i | 0 <= i < |known| ::
      known[i].eventId == id && known[i].source == source && known[i].verdict == verdict
  }

  lemma PosteriorShare(rule: ReliabilityRule, declared: real, right: nat, total: nat)
    requires rule.priorWeight > 0.0
    ensures Posterior(rule, declared, right, total) * (rule.priorWeight + total as real)
         == rule.priorWeight * declared + right as real
  {
  }

  lemma ClampExact(declared: real, posterior: real, bound: real)
    requires bound >= 0.0
    ensures declared + Clamp(posterior - declared, bound) ==
              if posterior > declared + bound then declared + bound
              else if posterior < declared - bound then declared - bound else posterior
  {
  }

  lemma JudgedIds(known: seq<Adjudication>, source: string, verdict: Verdict, id: string)
    ensures id in Sort(Map(Filter(known, Judged(source, verdict)), JudgedIdOf()), TextLess) <==>
              IsJudgedAs(known, id, source, verdict)
  {
    hide Filter, Sort, Map;
    var kept := Filter(known, Judged(source, verdict));
    FilterIn(known, Judged(source, verdict));
    MapIn(kept, JudgedIdOf());
    SortIn(Map(kept, JudgedIdOf()), TextLess);
    if id in Map(kept, JudgedIdOf()) {
      var a :| a in kept && JudgedIdOf()(a) == id;
      var i :| 0 <= i < |known| && known[i] == a;
    }
    if IsJudgedAs(known, id, source, verdict) {
      var i :| 0 <= i < |known| && known[i].eventId == id && known[i].source == source && known[i].verdict == verdict;
      assert known[i] in kept;
      assert JudgedIdOf()(known[i]) == id;
    }
  }
}
