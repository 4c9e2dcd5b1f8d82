/** Ledger indexes, selections and pages (query.py): posting lists against a naive
    filter, byte-budgeted pages, and continuation tokens bound to head and query.
 */
module Query {
  import opened Wrappers
  import opened Hashing
  import opened Ledger
  import opened Ordering
  import TreeShape

  const MAX_INDEX_BYTES := 64 * 1024 * 1024
  const MAX_PAGE_BYTES := 16 * 1024 * 1024
  const MAX_PAGE_ENTRIES := 1000
  const MAX_TOKEN := 2048

  // ----- Queries -----

  datatype Field = EventIdField | ClaimField | SourceField | ModalityField | SignalField | GroupField

  function AllFields(): seq<Field> {
    [EventIdField, ClaimField, SourceField, ModalityField, SignalField, GroupField]
  }

  datatype LedgerQuery = LedgerQuery(
    eventIds: seq<string>,
    claims: seq<string>,
    sources: seq<string>,
    modalities: seq<Modality>,
    signals: seq<Signal>,
    groups: seq<string>,
    observedStart: Option<int>,
    observedEnd: Option<int>,
    ingestedStart: Option<int>,
    ingestedEnd: Option<int>)

  function SignalText(s: Signal): string {
    match s
    case Support => "support"
    case Contradict => "contradict"
  }

  /** The indexed value of a field, when the event has one. */
  function ValueOf(e: Event, f: Field): Option<string> {
    match f
    case EventIdField => Some(e.eventId)
    case ClaimField => Some(e.claim)
    case SourceField => Some(e.source)
    case ModalityField => Some(ModalityText(e.modality))
    case SignalField => Some(SignalText(e.signal))
    case GroupField => e.correlationGroup
  }

  /** The wanted values of a field; an empty list means no restriction. */
  function Wanted(q: LedgerQuery, f: Field): seq<string> {
    match f
    case EventIdField => q.eventIds
    case ClaimField => q.claims
    case SourceField => q.sources
    case ModalityField => seq(|q.modalities|, i requires 0 <= i < |q.modalities| => ModalityText(q.modalities[i]))
    case SignalField => seq(|q.signals|, i requires 0 <= i < |q.signals| => SignalText(q.signals[i]))
    case GroupField => q.groups
  }

  predicate InRange(instant: int, start: Option<int>, end: Option<int>) {
    (start.None? || instant >= start.value) && (end.None? || instant < end.value)
  }

  predicate TimesFit(q: LedgerQuery, e: Event) {
    InRange(e.observedAt, q.observedStart, q.observedEnd) && InRange(e.ingestedAt, q.ingestedStart, q.ingestedEnd)
  }

  predicate FieldFits(q: LedgerQuery, e: Event, f: Field) {
    Wanted(q, f) != [] ==> ValueOf(e, f).Some? && ValueOf(e, f).value in Wanted(q, f)
  }

  predicate FieldsFit(q: LedgerQuery, e: Event) {
    forall f | f in AllFields() :: FieldFits(q, e, f)
  }

  /** The meaning of a query: AND over fields of OR over values, and half-open times. */
  predicate Matches(q: LedgerQuery, e: Event) {
    FieldsFit(q, e) && TimesFit(q, e)
  }

  /** The naive reference: scan every event in sequence order. */
  function NaiveFilter(q: LedgerQuery, events: seq<Event>): seq<nat> {
    if events == [] then []
    else
      var n := |events| - 1;
      NaiveFilter(q, events[..n]) + (if Matches(q, events[n]) then [n] else [])
  }

  // ----- Postings -----

  type Postings = map<(Field, string), seq<nat>>

  predicate Ascending(s: seq<nat>) {
    forall i, j | 0 <= i < j < |s| :: s[i] < s[j]
  }

  predicate Bounded(s: seq<nat>, n: nat) {
    forall k | 0 <= k < |s| :: s[k] < n
  }

  lemma NothingAscends(s: seq<nat>)
    requires s == []
    ensures Ascending(s) && Bounded(s, 0)
  {
  }

  lemma SnocAscends(s: seq<nat>, n: nat)
    requires Ascending(s) && Bounded(s, n)
    ensures Ascending(s + [n]) && Bounded(s + [n], n + 1) && Bounded(s, n + 1)
    ensures forall i: nat :: i in s + [n] <==> i in s || i == n
    ensures forall i: nat :: i in s ==> i < n
  {
  }

  /** The rows listed under one value; nothing when the value is absent. */
  function Rows(p: Postings, f: Field, v: string): seq<nat> {
    if (f, v) in p then p[(f, v)] else []
  }

  /** The positions whose event has value `v` in field `f`, by scanning. */
  function PositionsWith(events: seq<Event>, f: Field, v: string): seq<nat> {
    if events == [] then []
    else
      var n := |events| - 1;
      PositionsWith(events[..n], f, v) + (if ValueOf(events[n], f) == Some(v) then [n] else [])
  }

  lemma {:induction false} PositionsExact(events: seq<Event>, f: Field, v: string)
    ensures Ascending(PositionsWith(events, f, v)) && Bounded(PositionsWith(events, f, v), |events|)
    ensures forall i: nat :: i in PositionsWith(events, f, v) <==> i < |events| && ValueOf(events[i], f) == Some(v)
    decreases |events|
  {
    hide ValueOf, Ascending, Bounded;
    if events == [] {
      NothingAscends(PositionsWith(events, f, v));
    } else {
      var n := |events| - 1;
      PositionsExact(events[..n], f, v);
      SnocAscends(PositionsWith(events[..n], f, v), n);
      assert PositionsWith(events[..n], f, v) + [] == PositionsWith(events[..n], f, v);
      forall i: nat
        ensures i in PositionsWith(events, f, v) <==> i < |events| && ValueOf(events[i], f) == Some(v)
      {
        if i < n {
          assert events[..n][i] == events[i];
        }
      }
    }
  }

  /** Every posting list is exactly the scan for its value. */
  ghost predicate PostingsOf(p: Postings, events: seq<Event>) {
    forall f: Field, v: string :: Rows(p, f, v) == PositionsWith(events, f, v)
  }

  function Add(p: Postings, f: Field, v: string, i: nat): Postings {
    p[(f, v) := Rows(p, f, v) + [i]]
  }

  /** Add one event under each of its fields. */
  function AddEvent(p: Postings, e: Event, i: nat, fields: seq<Field>): Postings {
    if fields == [] then p
    else
      var f := fields[|fields| - 1];
      var before := AddEvent(p, e, i, fields[..|fields| - 1]);
      if ValueOf(e, f).Some? then Add(before, f, ValueOf(e, f).value, i) else before
  }

  lemma {:induction false} AddEventExact(p: Postings, e: Event, i: nat, fields: seq<Field>, f: Field, v: string)
    requires Distinct(fields)
    ensures Rows(AddEvent(p, e, i, fields), f, v)
         == Rows(p, f, v) + (if f in fields && ValueOf(e, f) == Some(v) then [i] else [])
    decreases |fields|
  {
    hide ValueOf;
    if fields != [] {
      var n := |fields| - 1;
      AddEventExact(p, e, i, fields[..n], f, v);
      assert f in fields <==> f in fields[..n] || f == fields[n];
      assert fields[n] !in fields[..n];
    }
  }

  lemma AddEventKeepsPostings(p: Postings, events: seq<Event>, e: Event)
    requires PostingsOf(p, events)
    ensures PostingsOf(AddEvent(p, e, |events|, AllFields()), events + [e])
  {
    hide ValueOf, AddEvent, AllFields, Rows;
    EveryFieldListed();
    assert (events + [e])[..|events|] == events;
    forall f: Field, v: string
      ensures Rows(AddEvent(p, e, |events|, AllFields()), f, v) == PositionsWith(events + [e], f, v)
    {
      AddEventExact(p, e, |events|, AllFields(), f, v);
    }
  }

  lemma EveryFieldListed()
    ensures forall f: Field :: f in AllFields()
    ensures Distinct(AllFields())
  {
    forall f: Field
      ensures f in AllFields()
    {
      var s := AllFields();
      match f {
        case EventIdField => assert s[0] == f;
        case ClaimField => assert s[1] == f;
        case SourceField => assert s[2] == f;
        case ModalityField => assert s[3] == f;
        case SignalField => assert s[4] == f;
        case GroupField => assert s[5] == f;
      }
    }
  }

  // ----- Index -----

  datatype LedgerIndex = LedgerIndex(ledger: EvidenceLedger, sizes: seq<nat>, postings: Postings)

  function Events(ledger: EvidenceLedger): (r: seq<Event>)
    ensures |r| == |ledger.entries|
  {
    seq(|ledger.entries|, i requires 0 <= i < |ledger.entries| => ledger.entries[i].event)
  }

  /** Encoded receipt sizes, the token encoding, and the query encoding. */
  datatype QueryCodec = QueryCodec(
    chain: ChainCodec,
    entryBytes: Entry -> nat,
    query: LedgerQuery -> Bytes,
    token: TokenBody -> Bytes,
    nextSequence: Bytes -> Option<nat>)

  datatype TokenBody = TokenBody(version: Version, head: Digest, entries: nat, query: Digest, next: nat)

  /** The token bodies a selection over an admitted ledger can mint. */
  predicate Mintable(b: TokenBody) {
    b.next <= b.entries <= TreeShape.MAX_LEDGER_ENTRIES
  }

  /** Tokens are bounded, decode to what they encode, and queries encode losslessly. */
  ghost predicate Sound(c: QueryCodec) {
    && (forall b | Mintable(b) :: c.nextSequence(c.token(b)) == Some(b.next))
    && (forall b | Mintable(b) :: 1 <= |c.token(b)| <= MAX_TOKEN)
    && (forall x, y | Mintable(x) && Mintable(y) :: c.token(x) == c.token(y) ==> x == y)
    && (forall p, q :: c.query(p) == c.query(q) ==> p == q)
    && Canonical(c.chain)
  }

  function Sizes(c: QueryCodec, entries: seq<Entry>): (r: seq<nat>)
    ensures |r| == |entries|
  {
    seq<nat>(|entries|, i requires 0 <= i < |entries| => c.entryBytes(entries[i]))
  }

  function Total(sizes: seq<nat>): nat {
    if sizes == [] then 0 else Total(sizes[..|sizes| - 1]) + sizes[|sizes| - 1]
  }

  predicate ValidIndex(c: QueryCodec, index: LedgerIndex) {
    index.sizes == Sizes(c, index.ledger.entries)
  }

  /** When a prefix of a chain may be opened. */
  predicate Openable(h: HashFunction, c: QueryCodec, ledger: EvidenceLedger, expectedHead: Digest, count: nat) {
    && |ledger.entries| <= TreeShape.MAX_LEDGER_ENTRIES
    && Total(Sizes(c, ledger.entries)) <= MAX_INDEX_BYTES
    && Verified(h, c.chain, ledger)
    && count <= |ledger.entries|
    && Head(ledger.entries[..count], ledger.genesis) == expectedHead
  }

  /** Verify the complete chain, then detach and index the requested prefix. */
  method OpenIndex(h: HashFunction, c: QueryCodec, ledger: EvidenceLedger, expectedHead: Digest,
                   prefixCount: Option<nat>)
    returns (r: Option<LedgerIndex>)
    ensures var count := if prefixCount.None? then |ledger.entries| else prefixCount.value;
            && (r.Some? <==> Openable(h, c, ledger, expectedHead, count))
            && (r.Some? ==>
                  && r.value.ledger == Prefix(ledger, count)
                  && r.value.sizes == Sizes(c, ledger.entries[..count])
                  && PostingsOf(r.value.postings, Events(r.value.ledger)))
  {
    hide Verified, PostingsOf, AddEvent, Head;
    if |ledger.entries| > TreeShape.MAX_LEDGER_ENTRIES {
      return None;
    }
    var sizes: seq<nat> := [];
    var total := 0;
    for i := 0 to |ledger.entries|
      invariant sizes == Sizes(c, ledger.entries)[..i] && total == Total(sizes) <= MAX_INDEX_BYTES
    {
      var size := c.entryBytes(ledger.entries[i]);
      assert Sizes(c, ledger.entries)[..i + 1] == sizes + [size];
      assert (sizes + [size])[..i] == sizes;
      total := total + size;
      if total > MAX_INDEX_BYTES {
        TotalPrefix(Sizes(c, ledger.entries), i + 1);
        return None;
      }
      sizes := sizes + [size];
    }
    assert Sizes(c, ledger.entries)[..|ledger.entries|] == Sizes(c, ledger.entries);
    var ok := Verify(h, c.chain, ledger, None);
    var count := if prefixCount.None? then |ledger.entries| else prefixCount.value;
    if !ok || count > |ledger.entries| {
      return None;
    }
    var snapshot := Prefix(ledger, count);
    if Head(snapshot.entries, snapshot.genesis) != expectedHead {
      return None;
    }
    var postings: Postings := map[];
    var events := Events(snapshot);
    NoPostings();
    for i := 0 to count
      invariant PostingsOf(postings, events[..i])
    {
      AddEventKeepsPostings(postings, events[..i], events[i]);
      assert events[..i + 1] == events[..i] + [events[i]];
      postings := AddEvent(postings, events[i], i, AllFields());
    }
    assert events[..count] == events;
    assert Sizes(c, ledger.entries)[..count] == Sizes(c, ledger.entries[..count]);
    r := Some(LedgerIndex(snapshot, sizes[..count], postings));
  }

  lemma NoPostings()
    ensures PostingsOf(map[], [])
  {
  }

  lemma {:induction false} TotalPrefix(sizes: seq<nat>, n: nat)
    requires n <= |sizes|
    ensures Total(sizes[..n]) <= Total(sizes)
    decreases |sizes|
  {
    if n < |sizes| {
      TotalPrefix(sizes[..|sizes| - 1], n);
      assert sizes[..|sizes| - 1][..n] == sizes[..n];
    } else {
      assert sizes[..n] == sizes;
    }
  }

  // ----- Selection -----

  datatype Selection = Selection(index: LedgerIndex, query: LedgerQuery, positions: seq<nat>)

  /** The rows listed under any wanted value of one field. */
  function UnionRows(p: Postings, f: Field, values: seq<string>): set<nat> {
    set v, i | v in values && i in Rows(p, f, v) :: i
  }

  lemma UnionExact(p: Postings, events: seq<Event>, f: Field, values: seq<string>)
    requires PostingsOf(p, events)
    ensures forall i: nat :: i in UnionRows(p, f, values) <==>
              i < |events| && ValueOf(events[i], f).Some? && ValueOf(events[i], f).value in values
  {
    hide ValueOf, Rows, PositionsWith;
    forall v | v in values
      ensures forall i: nat :: i in Rows(p, f, v) <==> i < |events| && ValueOf(events[i], f) == Some(v)
    {
      PositionsExact(events, f, v);
    }
  }

  /** The elements of `s` below `n` in increasing order: `sorted` on a set of positions. */
  function Sorted(s: set<nat>, n: nat): seq<nat> {
    if n == 0 then [] else Sorted(s, n - 1) + (if n - 1 in s then [n - 1] else [])
  }

  function Range(n: nat): seq<nat> {
    if n == 0 then [] else Range(n - 1) + [n - 1]
  }

  ghost function Below(n: nat): (s: set<nat>)
    ensures forall i: nat :: i in s <==> i < n
  {
    if n == 0 then {} else Below(n - 1) + {n - 1}
  }

  /** Keep the rows whose event times fit. */
  function KeepTimes(q: LedgerQuery, events: seq<Event>, rows: seq<nat>): seq<nat>
    requires Bounded(rows, |events|)
  {
    if rows == [] then []
    else
      var n := |rows| - 1;
      KeepTimes(q, events, rows[..n]) + (if TimesFit(q, events[rows[n]]) then [rows[n]] else [])
  }

  lemma BoundedGrows(s: seq<nat>, n: nat)
    requires Bounded(s, n)
    ensures Bounded(s, n + 1) && Bounded(s + [n], n + 1)
  {
  }

  lemma KeepSnoc(q: LedgerQuery, events: seq<Event>, rows: seq<nat>, n: nat)
    requires Bounded(rows, |events|) && n < |events|
    ensures Bounded(rows + [n], |events|)
    ensures KeepTimes(q, events, rows + [n])
        == KeepTimes(q, events, rows) + (if TimesFit(q, events[n]) then [n] else [])
  {
    hide TimesFit;
    assert (rows + [n])[..|rows|] == rows;
  }

  lemma {:induction false} SortedKeep(q: LedgerQuery, events: seq<Event>, s: set<nat>, n: nat)
    requires n <= |events|
    requires forall i: nat :: i in s ==> i < |events|
    requires forall i: nat :: i < |events| ==> (i in s <==> FieldsFit(q, events[i]))
    ensures Bounded(Sorted(s, n), n)
    ensures KeepTimes(q, events, Sorted(s, n)) == NaiveFilter(q, events[..n])
  {
    hide FieldsFit, TimesFit;
    if n > 0 {
      SortedKeep(q, events, s, n - 1);
      assert events[..n][..n - 1] == events[..n - 1];
      var init := Sorted(s, n - 1);
      BoundedGrows(init, n - 1);
      if n - 1 in s {
        KeepSnoc(q, events, init, n - 1);
      } else {
        assert init + [] == init;
        assert NaiveFilter(q, events[..n - 1]) + [] == NaiveFilter(q, events[..n - 1]);
      }
    }
  }

  lemma {:induction false} RangeIsSorted(s: set<nat>, n: nat)
    requires forall i: nat :: i < n ==> i in s
    ensures Range(n) == Sorted(s, n)
  {
    if n > 0 {
      RangeIsSorted(s, n - 1);
    }
  }

  /** The selection loops: narrow by posting lists, sort, then filter by time. The
      result is exactly the naive scan. */
  method Select(index: LedgerIndex, q: LedgerQuery) returns (r: Selection)
    requires PostingsOf(index.postings, Events(index.ledger))
    ensures r.index == index && r.query == q
    ensures r.positions == NaiveFilter(q, Events(index.ledger))
  {
    hide PostingsOf, FieldFits, UnionRows, TimesFit, Wanted;
    var events := Events(index.ledger);
    var candidates: Option<set<nat>> := None;
    var fields := AllFields();
    for k := 0 to |fields|
      invariant candidates.None? ==> forall j | 0 <= j < k :: Wanted(q, fields[j]) == []
      invariant candidates.Some? ==> forall i: nat :: i in candidates.value <==>
                  i < |events| && forall j | 0 <= j < k :: FieldFits(q, events[i], fields[j])
    {
      var values := Wanted(q, fields[k]);
      if values != [] {
        UnionFits(index.postings, events, q, fields[k]);
        var union := UnionRows(index.postings, fields[k], values);
        if candidates.None? {
          EmptyFieldsFit(q, events, fields, k);
          candidates := Some(union);
        } else {
          candidates := Some(candidates.value * union);
        }
      } else {
        EmptyFieldFits(q, events, fields[k]);
      }
    }
    ghost var s := if candidates.Some? then candidates.value else Below(|events|);
    if candidates.None? {
      EmptyFieldsFit(q, events, fields, |fields|);
      RangeIsSorted(s, |events|);
    }
    var rows := if candidates.None? then Range(|events|) else Sorted(candidates.value, |events|);
    assert forall i: nat :: i < |events| ==> (i in s <==> FieldsFit(q, events[i]));
    SortedKeep(q, events, s, |events|);
    assert events[..|events|] == events;
    var positions := FilterTimes(q, events, rows);
    r := Selection(index, q, positions);
  }

  lemma UnionFits(p: Postings, events: seq<Event>, q: LedgerQuery, f: Field)
    requires PostingsOf(p, events) && Wanted(q, f) != []
    ensures forall i: nat :: i in UnionRows(p, f, Wanted(q, f)) <==> i < |events| && FieldFits(q, events[i], f)
  {
    hide PostingsOf, ValueOf, Wanted, UnionRows;
    UnionExact(p, events, f, Wanted(q, f));
  }

  lemma EmptyFieldFits(q: LedgerQuery, events: seq<Event>, f: Field)
    requires Wanted(q, f) == []
    ensures forall i: nat :: i < |events| ==> FieldFits(q, events[i], f)
  {
    hide Wanted, ValueOf;
  }

  lemma EmptyFieldsFit(q: LedgerQuery, events: seq<Event>, fields: seq<Field>, k: nat)
    requires k <= |fields| && forall j | 0 <= j < k :: Wanted(q, fields[j]) == []
    ensures forall i: nat, j | i < |events| && 0 <= j < k :: FieldFits(q, events[i], fields[j])
  {
    hide Wanted, ValueOf, FieldFits;
    forall i: nat, j | i < |events| && 0 <= j < k
      ensures FieldFits(q, events[i], fields[j])
    {
      EmptyFieldFits(q, events, fields[j]);
    }
  }

  method FilterTimes(q: LedgerQuery, events: seq<Event>, rows: seq<nat>) returns (positions: seq<nat>)
    requires Bounded(rows, |events|)
    ensures positions == KeepTimes(q, events, rows)
  {
    hide TimesFit;
    positions := [];
    for k := 0 to |rows|
      invariant positions == KeepTimes(q, events, rows[..k])
    {
      assert rows[..k + 1][..k] == rows[..k];
      if TimesFit(q, events[rows[k]]) {
        positions := positions + [rows[k]];
      }
    }
    assert rows[..|rows|] == rows;
  }

  lemma {:induction false} NaiveAscending(q: LedgerQuery, events: seq<Event>)
    ensures Ascending(NaiveFilter(q, events))
    ensures Bounded(NaiveFilter(q, events), |events|)
    decreases |events|
  {
    hide Matches;
    if events != [] {
      NaiveAscending(q, events[..|events| - 1]);
    }
  }

  // ----- Tokens -----

  function QueryIdentity(h: HashFunction, c: QueryCodec, q: LedgerQuery): Digest {
    h(c.query(q))
  }

  function BodyFor(h: HashFunction, c: QueryCodec, s: Selection, next: nat): TokenBody {
    TokenBody(s.index.ledger.version, Head(s.index.ledger.entries, s.index.ledger.genesis),
              |s.index.ledger.entries|, QueryIdentity(h, c, s.query), next)
  }

  function Token(h: HashFunction, c: QueryCodec, s: Selection, next: nat): Bytes {
    c.token(BodyFor(h, c, s, next))
  }

  /** Accept a token only when it is, byte for byte, the token this selection would mint. */
  function Resume(h: HashFunction, c: QueryCodec, s: Selection, token: Bytes): Option<nat> {
    if !(1 <= |token| <= MAX_TOKEN) then None
    else
      match c.nextSequence(token)
      case None => None
      case Some(next) =>
        if next <= |s.index.ledger.entries| && Token(h, c, s, next) == token then Some(next) else None
  }

  // ----- Pages -----

  datatype Page = Page(offset: nat, end: nat, entries: seq<Entry>, bytes: nat, next: Option<Bytes>)

  /** `bisect_left` on the ascending positions. */
  function LowerBound(positions: seq<nat>, start: nat): (k: nat)
    ensures k <= |positions|
  {
    if positions == [] || positions[0] >= start then 0 else 1 + LowerBound(positions[1..], start)
  }

  /** Where a page that starts at `offset` with `count` entries and `size` bytes ends. */
  function PageEnd(s: Selection, offset: nat, count: nat, size: nat, limit: nat, budget: nat): (e: nat)
    requires offset <= |s.positions| && Bounded(s.positions, |s.index.sizes|)
    ensures offset <= e <= |s.positions|
    decreases |s.positions| - offset
  {
    if offset < |s.positions| && count < limit && size + s.index.sizes[s.positions[offset]] <= budget
    then PageEnd(s, offset + 1, count + 1, size + s.index.sizes[s.positions[offset]], limit, budget)
    else offset
  }

  predicate ValidSelection(s: Selection) {
    && |s.index.sizes| == |s.index.ledger.entries| <= TreeShape.MAX_LEDGER_ENTRIES
    && Ascending(s.positions)
    && Bounded(s.positions, |s.index.ledger.entries|)
  }

  /** The selection a query means over an opened index. */
  function Selected(index: LedgerIndex, q: LedgerQuery): Selection {
    Selection(index, q, NaiveFilter(q, Events(index.ledger)))
  }

  lemma SelectedIsValid(c: QueryCodec, index: LedgerIndex, q: LedgerQuery)
    requires ValidIndex(c, index) && |index.ledger.entries| <= TreeShape.MAX_LEDGER_ENTRIES
    ensures ValidSelection(Selected(index, q))
  {
    NaiveAscending(q, Events(index.ledger));
  }

  function EntriesAt(s: Selection, from: nat, end: nat): seq<Entry>
    requires ValidSelection(s) && from <= end <= |s.positions|
    decreases end
  {
    if from == end then []
    else EntriesAt(s, from, end - 1) + [s.index.ledger.entries[s.positions[end - 1]]]
  }

  function BytesAt(s: Selection, from: nat, end: nat): nat
    requires ValidSelection(s) && from <= end <= |s.positions|
    decreases end
  {
    if from == end then 0 else BytesAt(s, from, end - 1) + s.index.sizes[s.positions[end - 1]]
  }

  /** These are the selected receipts from `from` to `end`, in order. */
  predicate Holds(s: Selection, entries: seq<Entry>, from: nat, end: nat) {
    && from <= end <= |s.positions| && |entries| == end - from
    && forall k | 0 <= k < |entries| ::
         s.positions[from + k] < |s.index.ledger.entries|
         && entries[k] == s.index.ledger.entries[s.positions[from + k]]
  }

  lemma SelectedInLedger(s: Selection)
    requires ValidSelection(s)
    ensures forall k | 0 <= k < |s.positions| :: s.positions[k] < |s.index.ledger.entries|
  {
  }

  lemma {:induction false} EntriesAtExact(s: Selection, from: nat, end: nat)
    requires ValidSelection(s) && from <= end <= |s.positions|
    ensures Holds(s, EntriesAt(s, from, end), from, end)
    decreases end
  {
    hide Ascending;
    if from < end {
      EntriesAtExact(s, from, end - 1);
    }
  }

  lemma SizesSnoc(c: QueryCodec, entries: seq<Entry>, e: Entry)
    ensures Total(Sizes(c, entries + [e])) == Total(Sizes(c, entries)) + c.entryBytes(e)
  {
    assert Sizes(c, entries + [e])[..|entries|] == Sizes(c, entries);
  }

  lemma {:induction false} BytesAtExact(c: QueryCodec, s: Selection, from: nat, end: nat)
    requires ValidSelection(s) && ValidIndex(c, s.index) && from <= end <= |s.positions|
    ensures BytesAt(s, from, end) == Total(Sizes(c, EntriesAt(s, from, end)))
    decreases end
  {
    hide Ascending, Total;
    if from == end {
      NoSizes(c);
    } else {
      BytesAtExact(c, s, from, end - 1);
      SizesSnoc(c, EntriesAt(s, from, end - 1), s.index.ledger.entries[s.positions[end - 1]]);
    }
  }

  lemma NoSizes(c: QueryCodec)
    ensures Total(Sizes(c, [])) == 0
  {
  }

  /** The page a token leads to; nothing when the token or the budget is refused. */
  function PageAt(h: HashFunction, c: QueryCodec, s: Selection, limit: nat, budget: nat,
                  token: Option<Bytes>): Option<Page>
    requires ValidSelection(s)
  {
    if !(1 <= limit <= MAX_PAGE_ENTRIES) || !(1 <= budget <= MAX_PAGE_BYTES) then None
    else
      match (if token.None? then Some(0) else Resume(h, c, s, token.value))
      case None => None
      case Some(start) =>
        var offset := LowerBound(s.positions, start);
        var end := PageEnd(s, offset, 0, 0, limit, budget);
        if offset < |s.positions| && end == offset then None
        else
          Some(Page(offset, end, EntriesAt(s, offset, end), BytesAt(s, offset, end),
                    if end < |s.positions| then Some(Token(h, c, s, s.positions[end])) else None))
  }

  /** The page loop with its offset, size and entry list. */
  method ReadPage(h: HashFunction, c: QueryCodec, s: Selection, limit: nat, budget: nat, token: Option<Bytes>)
    returns (r: Option<Page>)
    requires ValidSelection(s)
    ensures r == PageAt(h, c, s, limit, budget, token)
    ensures r.Some? ==> Holds(s, r.value.entries, r.value.offset, r.value.end)
  {
    hide Resume, Token, ValidSelection, EntriesAt, BytesAt, PageEnd, LowerBound;
    if !(1 <= limit <= MAX_PAGE_ENTRIES) || !(1 <= budget <= MAX_PAGE_BYTES) {
      return None;
    }
    var start := 0;
    if token.Some? {
      var resumed := Resume(h, c, s, token.value);
      if resumed.None? {
        return None;
      }
      start := resumed.value;
    }
    var first := LowerBound(s.positions, start);
    var offset, entries, size := FillPage(s, first, limit, budget);
    SelectedInLedger(s);
    if first < |s.positions| && offset == first {
      return None;
    }
    r := Some(Page(first, offset, entries, size,
                   if offset < |s.positions| then Some(Token(h, c, s, s.positions[offset])) else None));
  }

  /** The page loop: an empty page over budget is reported by `offset == first`. */
  method FillPage(s: Selection, first: nat, limit: nat, budget: nat)
    returns (offset: nat, entries: seq<Entry>, size: nat)
    requires ValidSelection(s) && first <= |s.positions|
    ensures first <= offset <= |s.positions|
    ensures offset == PageEnd(s, first, 0, 0, limit, budget)
    ensures entries == EntriesAt(s, first, offset) && size == BytesAt(s, first, offset)
    ensures |entries| == offset - first
    ensures forall k | 0 <= k < |entries| :: entries[k] == s.index.ledger.entries[s.positions[first + k]]
  {
    hide Ascending;
    offset := first;
    entries := [];
    size := 0;
    while offset < |s.positions| && |entries| < limit
      invariant first <= offset <= |s.positions| && |entries| == offset - first
      invariant entries == EntriesAt(s, first, offset) && size == BytesAt(s, first, offset)
      invariant forall k | 0 <= k < |entries| :: entries[k] == s.index.ledger.entries[s.positions[first + k]]
      invariant PageEnd(s, first, 0, 0, limit, budget) == PageEnd(s, offset, |entries|, size, limit, budget)
    {
      var position := s.positions[offset];
      var proposed := size + s.index.sizes[position];
      if proposed > budget {
        break;
      }
      entries := entries + [s.index.ledger.entries[position]];
      size := proposed;
      offset := offset + 1;
    }
  }

  lemma {:induction false} LowerBoundFinds(positions: seq<nat>, k: nat)
    requires Ascending(positions) && k < |positions|
    ensures LowerBound(positions, positions[k]) == k
    decreases |positions|
  {
    if k > 0 {
      assert positions[1..][k - 1] == positions[k];
      LowerBoundFinds(positions[1..], k - 1);
    }
  }

  /** A page's own token leads exactly to where the page ended. */
  lemma TokenResumes(h: HashFunction, c: QueryCodec, s: Selection, k: nat)
    requires Sound(c) && ValidSelection(s) && k < |s.positions|
    ensures Resume(h, c, s, Token(h, c, s, s.positions[k])) == Some(s.positions[k])
    ensures LowerBound(s.positions, s.positions[k]) == k
  {
    hide Head, QueryIdentity;
    LowerBoundFinds(s.positions, k);
  }

  /** Follow continuation tokens with arbitrary limits and budgets for each page. */
  datatype Walk = Walk(entries: seq<Entry>, next: Option<Bytes>, finished: bool)

  function Follow(h: HashFunction, c: QueryCodec, s: Selection, pages: seq<(nat, nat)>): Option<Walk>
    requires ValidSelection(s)
  {
    if pages == [] then Some(Walk([], None, false))
    else
      match Follow(h, c, s, pages[..|pages| - 1])
      case None => None
      case Some(w) =>
        if w.finished then Some(w)
        else
          var (limit, budget) := pages[|pages| - 1];
          match PageAt(h, c, s, limit, budget, w.next)
          case None => None
          case Some(p) => Some(Walk(w.entries + p.entries, p.next, p.next.None?))
  }

  lemma {:induction false} EntriesJoin(s: Selection, from: nat, mid: nat, end: nat)
    requires ValidSelection(s) && from <= mid <= end <= |s.positions|
    ensures EntriesAt(s, from, mid) + EntriesAt(s, mid, end) == EntriesAt(s, from, end)
    decreases end
  {
    if mid == end {
      assert EntriesAt(s, from, mid) + [] == EntriesAt(s, from, mid);
    } else {
      EntriesJoin(s, from, mid, end - 1);
      var last := s.index.ledger.entries[s.positions[end - 1]];
      assert EntriesAt(s, from, mid) + (EntriesAt(s, mid, end - 1) + [last])
          == (EntriesAt(s, from, mid) + EntriesAt(s, mid, end - 1)) + [last];
    }
  }

  /** Where a walk stands: a prefix of the selection, and the token of the next position. */
  predicate Stands(h: HashFunction, c: QueryCodec, s: Selection, w: Walk, at: nat, steps: nat)
    requires ValidSelection(s)
  {
    && at <= |s.positions|
    && w.entries == EntriesAt(s, 0, at)
    && (w.finished ==> at == |s.positions|)
    && (!w.finished ==> at >= steps)
    && (!w.finished && steps > 0 ==> at < |s.positions| && w.next == Some(Token(h, c, s, s.positions[at])))
    && (steps == 0 ==> at == 0 && w.next.None? && !w.finished)
  }

  lemma {:induction false} WalkStands(h: HashFunction, c: QueryCodec, s: Selection, pages: seq<(nat, nat)>)
    returns (at: nat)
    requires Sound(c) && ValidSelection(s) && Follow(h, c, s, pages).Some?
    ensures Stands(h, c, s, Follow(h, c, s, pages).value, at, |pages|)
    decreases |pages|
  {
    hide Sound, Token, Resume, PageAt;
    if pages == [] {
      at := 0;
    } else {
      var n := |pages| - 1;
      at := WalkStands(h, c, s, pages[..n]);
      var w := Follow(h, c, s, pages[..n]).value;
      if !w.finished {
        at := StepStands(h, c, s, w, at, n, pages[n].0, pages[n].1);
      }
    }
  }

  lemma StepStands(h: HashFunction, c: QueryCodec, s: Selection, w: Walk, at: nat, steps: nat, limit: nat, budget: nat)
    returns (end: nat)
    requires Sound(c) && ValidSelection(s) && Stands(h, c, s, w, at, steps) && !w.finished
    requires PageAt(h, c, s, limit, budget, w.next).Some?
    ensures var p := PageAt(h, c, s, limit, budget, w.next).value;
            Stands(h, c, s, Walk(w.entries + p.entries, p.next, p.next.None?), end, steps + 1)
  {
    hide Sound, Token, Resume, PageEnd;
    if steps > 0 {
      TokenResumes(h, c, s, at);
    }
    end := PageEnd(s, at, 0, 0, limit, budget);
    EntriesJoin(s, 0, at, end);
  }

  /** Pages reassemble: whatever limits and budgets the pages ask for, as long as none
      is refused the walk stands on a prefix of the selection, and after at most one
      page per selected receipt it has finished and holds the whole selection. */
  lemma PagesReassemble(h: HashFunction, c: QueryCodec, s: Selection, pages: seq<(nat, nat)>)
    requires Sound(c) && ValidSelection(s) && Follow(h, c, s, pages).Some?
    ensures var w := Follow(h, c, s, pages).value;
            && Holds(s, w.entries, 0, |w.entries|)
            && (w.finished ==> |w.entries| == |s.positions|)
            && (|pages| >= |s.positions| && pages != [] ==> w.finished)
  {
    hide Sound, Token, EntriesAt, Follow;
    var at := WalkStands(h, c, s, pages);
    EntriesAtExact(s, 0, at);
  }

  /** A page is refused exactly when its limits are unlawful or the next receipt alone
      exceeds its budget. */
  lemma PageRefused(h: HashFunction, c: QueryCodec, s: Selection, k: nat, limit: nat, budget: nat)
    requires Sound(c) && ValidSelection(s) && k < |s.positions|
    ensures PageAt(h, c, s, limit, budget, Some(Token(h, c, s, s.positions[k]))).None? <==>
              || !(1 <= limit <= MAX_PAGE_ENTRIES) || !(1 <= budget <= MAX_PAGE_BYTES)
              || s.index.sizes[s.positions[k]] > budget
    ensures PageAt(h, c, s, limit, budget, None).None? <==>
              || !(1 <= limit <= MAX_PAGE_ENTRIES) || !(1 <= budget <= MAX_PAGE_BYTES)
              || s.index.sizes[s.positions[0]] > budget
  {
    hide Sound, Token, Resume, EntriesAt, BytesAt;
    TokenResumes(h, c, s, k);
    LowerBoundFinds(s.positions, 0);
  }

  /** The budget and limit are respected, and a page stops only for a reason. */
  lemma {:induction false} PageEndMaximal(s: Selection, from: nat, offset: nat, limit: nat, budget: nat)
    requires ValidSelection(s) && from <= offset <= |s.positions|
    requires offset - from <= limit && BytesAt(s, from, offset) <= budget
    ensures var e := PageEnd(s, offset, offset - from, BytesAt(s, from, offset), limit, budget);
            && e - from <= limit && BytesAt(s, from, e) <= budget
            && (e < |s.positions| ==> e - from == limit || BytesAt(s, from, e + 1) > budget)
    decreases |s.positions| - offset
  {
    if offset < |s.positions| && offset - from < limit
        && BytesAt(s, from, offset) + s.index.sizes[s.positions[offset]] <= budget {
      assert BytesAt(s, from, offset + 1) == BytesAt(s, from, offset) + s.index.sizes[s.positions[offset]];
      PageEndMaximal(s, from, offset + 1, limit, budget);
    }
  }

  lemma {:induction false} LowerBoundExact(positions: seq<nat>, start: nat)
    requires Ascending(positions)
    ensures forall j | 0 <= j < |positions| :: positions[j] < start <==> j < LowerBound(positions, start)
  {
    if positions != [] && positions[0] < start {
      LowerBoundExact(positions[1..], start);
      assert forall j | 1 <= j < |positions| :: positions[j] == positions[1..][j - 1];
    }
  }

  /** A page, said without the loop: it starts at the first selected receipt not before the
      token's position, holds the selected receipts from there on in order, counts exactly
      their encoded bytes, keeps both bounds, stops only at the end or at a bound, and
      carries the token of the next receipt unless it reached the end. */
  lemma PageExact(h: HashFunction, c: QueryCodec, s: Selection, limit: nat, budget: nat, token: Option<Bytes>)
    returns (start: nat)
    requires ValidSelection(s) && ValidIndex(c, s.index) && PageAt(h, c, s, limit, budget, token).Some?
    ensures var p := PageAt(h, c, s, limit, budget, token).value;
            && (if token.None? then start == 0 else token.value == Token(h, c, s, start))
            && (forall j | 0 <= j < |s.positions| :: s.positions[j] < start <==> j < p.offset)
            && Holds(s, p.entries, p.offset, p.end)
            && p.bytes == Total(Sizes(c, p.entries)) <= budget
            && |p.entries| <= limit
            && (p.offset < |s.positions| ==> p.entries != [])
            && (p.end < |s.positions| ==>
                  || |p.entries| == limit
                  || p.bytes + c.entryBytes(s.index.ledger.entries[s.positions[p.end]]) > budget)
            && p.next == if p.end < |s.positions| then Some(Token(h, c, s, s.positions[p.end])) else None
  {
    hide Ascending, Token, EntriesAt, Total, PageEnd, LowerBound;
    var p := PageAt(h, c, s, limit, budget, token).value;
    start := if token.None? then 0 else Resume(h, c, s, token.value).value;
    LowerBoundExact(s.positions, start);
    EntriesAtExact(s, p.offset, p.end);
    BytesAtExact(c, s, p.offset, p.end);
    PageEndMaximal(s, p.offset, p.offset, limit, budget);
    if p.end < |s.positions| {
      assert BytesAt(s, p.offset, p.end + 1) == p.bytes + s.index.sizes[s.positions[p.end]];
    }
  }

  /** What a query selects, field by field, without postings or scanning. */
  predicate Meets(q: LedgerQuery, e: Event) {
    && (q.eventIds == [] || e.eventId in q.eventIds)
    && (q.claims == [] || e.claim in q.claims)
    && (q.sources == [] || e.source in q.sources)
    && (q.modalities == [] || e.modality in q.modalities)
    && (q.signals == [] || e.signal in q.signals)
    && (q.groups == [] || (e.correlationGroup.Some? && e.correlationGroup.value in q.groups))
    && (q.observedStart.Some? ==> q.observedStart.value <= e.observedAt)
    && (q.observedEnd.Some? ==> e.observedAt < q.observedEnd.value)
    && (q.ingestedStart.Some? ==> q.ingestedStart.value <= e.ingestedAt)
    && (q.ingestedEnd.Some? ==> e.ingestedAt < q.ingestedEnd.value)
  }

  lemma MatchesExact(q: LedgerQuery, e: Event)
    ensures Matches(q, e) <==> Meets(q, e)
  {
    hide FieldsFit, FieldFits;
    TextFieldsFit(q, e);
    ModalityFits(q, e);
    SignalFits(q, e);
    EachField(q, e);
  }

  lemma EachField(q: LedgerQuery, e: Event)
    ensures FieldsFit(q, e) <==>
      && FieldFits(q, e, EventIdField) && FieldFits(q, e, ClaimField) && FieldFits(q, e, SourceField)
      && FieldFits(q, e, ModalityField) && FieldFits(q, e, SignalField) && FieldFits(q, e, GroupField)
  {
    hide AllFields, FieldFits;
    EveryFieldListed();
    if FieldFits(q, e, EventIdField) && FieldFits(q, e, ClaimField) && FieldFits(q, e, SourceField)
      && FieldFits(q, e, ModalityField) && FieldFits(q, e, SignalField) && FieldFits(q, e, GroupField)
    {
      forall f | f in AllFields()
        ensures FieldFits(q, e, f)
      {
        match f {
          case EventIdField =>
          case ClaimField =>
          case SourceField =>
          case ModalityField =>
          case SignalField =>
          case GroupField =>
        }
      }
    }
  }

  lemma TextFieldsFit(q: LedgerQuery, e: Event)
    ensures FieldFits(q, e, EventIdField) <==> q.eventIds == [] || e.eventId in q.eventIds
    ensures FieldFits(q, e, ClaimField) <==> q.claims == [] || e.claim in q.claims
    ensures FieldFits(q, e, SourceField) <==> q.sources == [] || e.source in q.sources
    ensures FieldFits(q, e, GroupField) <==>
              q.groups == [] || (e.correlationGroup.Some? && e.correlationGroup.value in q.groups)
  {
  }

  lemma ModalityFits(q: LedgerQuery, e: Event)
    ensures FieldFits(q, e, ModalityField) <==> q.modalities == [] || e.modality in q.modalities
  {
    var texts := Wanted(q, ModalityField);
    assert forall m, n :: ModalityText(m) == ModalityText(n) ==> m == n by { ModalityTexts(); }
    if e.modality in q.modalities {
      var i :| 0 <= i < |q.modalities| && q.modalities[i] == e.modality;
      assert texts[i] == ModalityText(e.modality);
    }
  }

  lemma ModalityTexts()
    ensures forall m, n :: ModalityText(m) == ModalityText(n) ==> m == n
  {
    assert "vision"[0] == 'v' && "audio"[0] == 'a' && "text"[0] == 't' && "sensor"[0] == 's';
  }

  lemma SignalFits(q: LedgerQuery, e: Event)
    ensures FieldFits(q, e, SignalField) <==> q.signals == [] || e.signal in q.signals
  {
    var texts := Wanted(q, SignalField);
    assert "support"[0] == 's' && "contradict"[0] == 'c';
    if e.signal in q.signals {
      var i :| 0 <= i < |q.signals| && q.signals[i] == e.signal;
      assert texts[i] == SignalText(e.signal);
    }
  }

  /** The selected positions are exactly those of the events that meet the query, ascending. */
  lemma {:induction false} SelectionExact(q: LedgerQuery, events: seq<Event>)
    ensures Ascending(NaiveFilter(q, events)) && Bounded(NaiveFilter(q, events), |events|)
    ensures forall i: nat :: i in NaiveFilter(q, events) <==> i < |events| && Meets(q, events[i])
    decreases |events|
  {
    hide Matches, Meets, Ascending, Bounded;
    NaiveAscending(q, events);
    if events != [] {
      var n := |events| - 1;
      SelectionExact(q, events[..n]);
      MatchesExact(q, events[n]);
      SnocAscends(NaiveFilter(q, events[..n]), n);
      assert NaiveFilter(q, events[..n]) + [] == NaiveFilter(q, events[..n]);
      forall i: nat
        ensures i in NaiveFilter(q, events) <==> i < |events| && Meets(q, events[i])
      {
        if i < n {
          assert events[..n][i] == events[i];
        }
      }
    }
  }

  // ----- Tokens across snapshots -----

  /** Where to look when one token fits two selections. */
  function TokenClash(h: HashFunction, c: QueryCodec, a: Selection, b: Selection): Finding {
    var p, q := c.query(a.query), c.query(b.query);
    if p != q && h(p) == h(q) then Found(Clash(p, q)) else HeadClash(h, c.chain, a.index.ledger, b.index.ledger)
  }

  /** A token minted by one selection is accepted by another only over the same
      receipts and the same query, hence with the same selected positions, or a
      collision is found. */
  lemma TokenBindsSelection(h: HashFunction, c: QueryCodec, a: Selection, b: Selection, next: nat)
    requires Sound(c) && Verified(h, c.chain, a.index.ledger) && Verified(h, c.chain, b.index.ledger)
    requires next <= |a.index.ledger.entries| <= TreeShape.MAX_LEDGER_ENTRIES
    requires |b.index.ledger.entries| <= TreeShape.MAX_LEDGER_ENTRIES
    requires a.positions == NaiveFilter(a.query, Events(a.index.ledger))
    requires b.positions == NaiveFilter(b.query, Events(b.index.ledger))
    requires Resume(h, c, b, Token(h, c, a, next)).Some?
    ensures Genuine(h, TokenClash(h, c, a, b))
    ensures TokenClash(h, c, a, b).NoClash? ==>
              a.index.ledger == b.index.ledger && a.query == b.query && a.positions == b.positions
  {
    hide Verified, NaiveFilter, Head, HeadClash, Events;
    var n := Resume(h, c, b, Token(h, c, a, next)).value;
    assert BodyFor(h, c, a, next) == BodyFor(h, c, b, n);
    HeadsDetermineHistories(h, c.chain, a.index.ledger, b.index.ledger);
  }

  /** Selections that differ at most in how their posting lists are stored. */
  predicate SameView(s: Selection, t: Selection) {
    && s.index.ledger == t.index.ledger && s.index.sizes == t.index.sizes
    && s.query == t.query && s.positions == t.positions
  }

  lemma {:induction false} SameSlices(s: Selection, t: Selection, from: nat, end: nat)
    requires ValidSelection(s) && SameView(s, t) && from <= end <= |s.positions|
    ensures EntriesAt(s, from, end) == EntriesAt(t, from, end)
    ensures BytesAt(s, from, end) == BytesAt(t, from, end)
    decreases end
  {
    hide Ascending;
    if from < end {
      SameSlices(s, t, from, end - 1);
    }
  }

  lemma {:induction false} SameEnd(s: Selection, t: Selection, offset: nat, count: nat, size: nat, limit: nat,
                                   budget: nat)
    requires ValidSelection(s) && SameView(s, t) && offset <= |s.positions|
    ensures PageEnd(s, offset, count, size, limit, budget) == PageEnd(t, offset, count, size, limit, budget)
    decreases |s.positions| - offset
  {
    hide Ascending;
    if offset < |s.positions| {
      SameEnd(s, t, offset + 1, count + 1, size + s.index.sizes[s.positions[offset]], limit, budget);
    }
  }

  lemma SamePages(h: HashFunction, c: QueryCodec, s: Selection, t: Selection, limit: nat, budget: nat,
                  token: Option<Bytes>)
    requires ValidSelection(s) && SameView(s, t)
    ensures PageAt(h, c, s, limit, budget, token) == PageAt(h, c, t, limit, budget, token)
  {
    hide Ascending, Bounded, EntriesAt, BytesAt, PageEnd, LowerBound, Head;
    var start := if token.None? then Some(0) else Resume(h, c, s, token.value);
    if start.Some? {
      var offset := LowerBound(s.positions, start.value);
      SameEnd(s, t, offset, 0, 0, limit, budget);
      SameSlices(s, t, offset, PageEnd(s, offset, 0, 0, limit, budget));
    }
  }

  /** Reopening a retained prefix from any longer verified chain is possible and gives
      the same snapshot as the prefix opened on its own. */
  lemma ReopenedPrefix(h: HashFunction, c: QueryCodec, ledger: EvidenceLedger, head: Digest, n: nat)
    requires n <= |ledger.entries| && Openable(h, c, ledger, head, n)
    ensures Openable(h, c, Prefix(ledger, n), head, n)
    ensures Prefix(Prefix(ledger, n), n) == Prefix(ledger, n)
  {
    hide Verified, Head;
    PrefixVerified(h, c.chain, ledger, n);
    assert Sizes(c, ledger.entries)[..n] == Sizes(c, ledger.entries[..n]);
    TotalPrefix(Sizes(c, ledger.entries), n);
    assert ledger.entries[..n][..n] == ledger.entries[..n];
  }

  /** Two indexes opened at one head, from whatever chains, accept the same tokens and
      give the same pages for every query, limit and budget, or a collision is found. */
  lemma ReopenedPages(h: HashFunction, c: QueryCodec, a: LedgerIndex, b: LedgerIndex, q: LedgerQuery,
                      limit: nat, budget: nat, token: Option<Bytes>)
    requires Sound(c) && Verified(h, c.chain, a.ledger) && Verified(h, c.chain, b.ledger)
    requires ValidIndex(c, a) && ValidIndex(c, b)
    requires |a.ledger.entries| <= TreeShape.MAX_LEDGER_ENTRIES && |b.ledger.entries| <= TreeShape.MAX_LEDGER_ENTRIES
    requires Head(a.ledger.entries, a.ledger.genesis) == Head(b.ledger.entries, b.ledger.genesis)
    ensures Genuine(h, HeadClash(h, c.chain, a.ledger, b.ledger))
    ensures ValidSelection(Selected(a, q)) && ValidSelection(Selected(b, q))
    ensures HeadClash(h, c.chain, a.ledger, b.ledger).NoClash? ==>
              PageAt(h, c, Selected(a, q), limit, budget, token) == PageAt(h, c, Selected(b, q), limit, budget, token)
  {
    hide Verified, NaiveFilter, Head, HeadClash, Events, PageAt, ValidSelection;
    SelectedIsValid(c, a, q);
    SelectedIsValid(c, b, q);
    HeadsDetermineHistories(h, c.chain, a.ledger, b.ledger);
    if a.ledger == b.ledger {
      SamePages(h, c, Selected(a, q), Selected(b, q), limit, budget, token);
    }
  }
}
