/** The durable case store (case_storage.py): one case, at most three operations
    (claim, finish, verdict), the retained bytes, and full verification on read.
 */
module CaseStore {
  import opened Wrappers
  import opened Hashing
  import opened EpistemicCase
  import Ledger
  import WorkflowStore

  const MAX_RECEIPT := 20 * 1024
  const MAX_STORED_RECEIPTS := 3
  const MAX_OPERATIONS := 3
  const MAX_OPERATION_BYTES := 8192
  const MAX_ASSERTION := 64 * 1024
  const MAX_INPUT := 256 * 1024
  const MAX_OUTPUT := 4096
  const MAX_TOTAL_PAYLOAD := 512 * 1024
  const MAX_CONTEXT := 8192
  const MAX_META := 8192

  datatype Checkpoint = Checkpoint(
    context: Digest,
    recordCount: nat,
    caseHead: Digest,
    operationCount: nat,
    operationHead: Digest,
    generation: nat)

  datatype Kind = Claim | Finish | GiveVerdict

  datatype AdapterKey = AdapterKey(testId: string, adapterId: string, adapterVersion: string, observerId: string)

  /** The canonical identity of one write request. */
  datatype RequestContent = RequestContent(
    kind: Kind,
    operationId: string,
    requestId: string,
    expected: Checkpoint,
    adapterKey: Option<AdapterKey>,
    payloadDigest: Option<Digest>,
    status: Option<Status>,
    recordDigest: Option<Digest>,
    evaluatorId: Option<string>)

  datatype OperationDocument = OperationDocument(
    sequence: nat,
    content: RequestContent,
    requestDigest: Digest,
    resultCount: nat,
    resultHead: Digest,
    previousDigest: Digest)

  datatype ContextDocument = ContextDocument(
    authorityDigest: Digest,
    caseId: string,
    planHead: Digest,
    planDigest: Digest,
    assertionId: string,
    inputId: string)

  /** Canonical JSON of the store's documents. */
  datatype StoreCodec = StoreCodec(
    records: CaseCodec,
    context: ContextDocument -> Bytes,
    request: RequestContent -> Bytes,
    operation: OperationDocument -> Bytes,
    operationRow: (OperationDocument, Digest) -> Bytes,
    checkpoint: Checkpoint -> Bytes)

  /** `printable` is the strict text profile of adapter output. */
  datatype Config = Config(
    h: HashFunction, codec: StoreCodec, authority: Authority, planHead: Digest, printable: Bytes -> bool)

  // ----- Tables -----

  datatype PayloadRole = AssertionRole | InputRole | OutputRole

  datatype Payload = Payload(artifactId: string, digest: Digest, content: Bytes)

  datatype Row = Row(operationId: string, document: OperationDocument, digest: Digest)

  datatype Database = Database(
    context: ContextDocument,
    receipts: seq<Receipt>,
    payloads: map<PayloadRole, Payload>,
    operations: seq<Row>,
    meta: Checkpoint)

  // ----- Derived documents -----

  function ContextOf(cfg: Config, authorityDigest: Digest, first: Receipt): ContextDocument
    requires first.record.PlanRecord?
  {
    var plan := first.record.plan;
    ContextDocument(authorityDigest, plan.caseId, first.digest,
                    RecordDigest(cfg.h, cfg.codec.records, first.record), plan.assertionId, plan.inputId)
  }

  function GenesisCheckpoint(cfg: Config, context: ContextDocument): Checkpoint {
    var d := cfg.h(cfg.codec.context(context));
    Checkpoint(d, 1, context.planHead, 0, cfg.h(d), 0)
  }

  function RequestDigest(cfg: Config, content: RequestContent): Digest {
    cfg.h(cfg.codec.request(content))
  }

  /** The journal row of a request and the checkpoint after it. */
  function Operation(cfg: Config, content: RequestContent, before: Checkpoint, journal: Journal): (Row, Checkpoint) {
    var head := JournalHead(cfg.h, journal);
    var document := OperationDocument(
      before.operationCount, content, RequestDigest(cfg, content), |journal.receipts|, head, before.operationHead);
    var d := cfg.h(cfg.codec.operation(document));
    (Row(content.operationId, document, d),
     Checkpoint(before.context, |journal.receipts|, head, before.operationCount + 1, d, before.generation + 1))
  }

  function RowBytes(cfg: Config, row: Row): nat {
    |cfg.codec.operationRow(row.document, row.digest)|
  }

  function HexText(d: Bytes): string {
    seq(2 * |d|, i requires 0 <= i < 2 * |d| => Ledger.Hex(d)[i] as int as char)
  }

  /** The identity under which observed output is retained. */
  function ObservedId(cfg: Config, plan: Plan, requestId: string, output: Bytes): string {
    "observed-" + HexText(cfg.h(Ledger.Hex(RecordDigest(cfg.h, cfg.codec.records, PlanRecord(plan)))
                                + Ascii(requestId) + output))
  }

  // ----- Read -----

  datatype StoredCase = StoredCase(
    journal: Journal,
    checkpoint: Checkpoint,
    assertion: Bytes,
    input: Bytes,
    observed: Option<Bytes>,
    pending: Option<string>)

  datatype Commit = Commit(operationId: string, requestDigest: Digest, previous: Checkpoint, result: StoredCase)

  datatype View = View(snapshot: StoredCase, commits: seq<Commit>, claimed: Option<AdapterKey>)

  predicate Admitted(cfg: Config, db: Database) {
    && |cfg.codec.context(db.context)| <= MAX_CONTEXT
    && |cfg.codec.checkpoint(db.meta)| <= MAX_META
    && 1 <= |db.receipts| <= MAX_STORED_RECEIPTS
    && (forall i | 0 <= i < |db.receipts| :: ReceiptBytes(cfg.codec.records, db.receipts[i]) <= MAX_RECEIPT)
    && |db.operations| <= MAX_OPERATIONS
    && (forall i | 0 <= i < |db.operations| :: RowBytes(cfg, db.operations[i]) <= MAX_OPERATION_BYTES)
  }

  function JournalOf(cfg: Config, db: Database): Journal {
    Journal(AuthorityDigest(cfg.h, cfg.codec.records, cfg.authority), db.receipts)
  }

  /** The stored receipts replay, start with the expected plan, and derive the context. */
  predicate JournalOk(cfg: Config, db: Database) {
    var j := JournalOf(cfg, db);
    && db.context.authorityDigest == j.authorityDigest
    && db.context.planHead == cfg.planHead
    && Intact(cfg.h, cfg.codec.records, j)
    && Replay(cfg.h, cfg.codec.records, cfg.authority, j).Some?
    && |db.receipts| > 0 && db.receipts[0].record.PlanRecord?
    && ContextOf(cfg, j.authorityDigest, db.receipts[0]) == db.context
  }

  predicate Commits(cfg: Config, p: Payload, artifactId: string, digest: Digest, maximum: nat) {
    p.artifactId == artifactId && p.digest == digest && cfg.h(p.content) == digest && |p.content| <= maximum
  }

  /** The output profile: bounded, within the total, and printable text. */
  predicate OutputOk(cfg: Config, output: Bytes, inputTotal: nat) {
    |output| <= MAX_OUTPUT && inputTotal + |output| <= MAX_TOTAL_PAYLOAD && cfg.printable(output)
  }

  /** Retained bytes match the commitments of plan and observation, and output is
      retained exactly when something was observed. */
  predicate PayloadsOk(cfg: Config, db: Database)
    requires |db.receipts| > 0 && db.receipts[0].record.PlanRecord?
  {
    var plan := db.receipts[0].record.plan;
    && AssertionRole in db.payloads && InputRole in db.payloads
    && Commits(cfg, db.payloads[AssertionRole], plan.assertionId, plan.assertionSha, MAX_ASSERTION)
    && Commits(cfg, db.payloads[InputRole], plan.inputId, plan.inputSha, MAX_INPUT)
    && var total := |db.payloads[AssertionRole].content| + |db.payloads[InputRole].content|;
    && total <= MAX_TOTAL_PAYLOAD
    && (OutputRole in db.payloads ==>
          && |db.receipts| >= 2 && db.receipts[1].record.ObservationRecord?
          && var o := db.receipts[1].record.observation;
          && o.status.ObservedStatus? && o.observedSha.Some? && o.artifactId.Some?
          && Commits(cfg, db.payloads[OutputRole], o.artifactId.value, o.observedSha.value, MAX_OUTPUT)
          && OutputOk(cfg, db.payloads[OutputRole].content, total))
    && (|db.receipts| >= 2 && db.receipts[1].record.ObservationRecord? ==>
          (db.receipts[1].record.observation.status.ObservedStatus? <==> OutputRole in db.payloads))
  }

  /** The loop state of the journal scan. */
  datatype Scan = Scan(at: Checkpoint, pending: Option<string>, claimed: Option<AdapterKey>, commits: seq<Commit>)

  predicate ClaimRowOk(cfg: Config, plan: Plan, s: Scan, row: Row, sequence: nat) {
    var c, d := row.document.content, row.document;
    && sequence == 0 && c.requestId == row.operationId && s.pending.None?
    && d.resultCount == 1 && d.resultHead == cfg.planHead
    && c.payloadDigest.None? && c.status.None? && c.recordDigest.None? && c.evaluatorId.None?
    && c.adapterKey.Some?
    && ObserverFits(cfg, plan, c.adapterKey.value)
  }

  predicate ObserverFits(cfg: Config, plan: Plan, key: AdapterKey) {
    && key.testId == plan.testId && key.adapterId == plan.adapterId && key.adapterVersion == plan.adapterVersion
    && Holds(cfg.authority, key.observerId, plan.scope, Observe)
    && cfg.authority.actors[key.observerId].kind.ToolActor?
    && key.observerId != plan.proposerId
  }

  predicate FinishRowOk(cfg: Config, plan: Plan, db: Database, s: Scan, row: Row, sequence: nat) {
    var c, d := row.document.content, row.document;
    && |db.receipts| >= 2
    && sequence == 1 && s.pending == Some(c.requestId)
    && c.adapterKey.None? && c.evaluatorId.None? && d.resultCount == 2
    && db.receipts[1].record.ObservationRecord?
    && var o := db.receipts[1].record.observation;
    && o.requestId == c.requestId
    && c.recordDigest == Some(RecordDigest(cfg.h, cfg.codec.records, ObservationRecord(o)))
    && d.resultHead == db.receipts[1].digest
    && c.status == Some(o.status)
    && c.payloadDigest == o.observedSha
    && (o.status.ObservedStatus? ==>
          OutputRole in db.payloads
          && o.artifactId == Some(ObservedId(cfg, plan, o.requestId, db.payloads[OutputRole].content)))
  }

  predicate VerdictRowOk(cfg: Config, db: Database, s: Scan, row: Row, sequence: nat) {
    var c, d := row.document.content, row.document;
    && |db.receipts| >= 3
    && sequence == 2 && s.pending.None?
    && db.receipts[1].record.ObservationRecord? && db.receipts[2].record.VerdictRecord?
    && c.requestId == db.receipts[1].record.observation.requestId
    && c.adapterKey.None? && c.payloadDigest.None? && c.status.None? && d.resultCount == 3
    && c.recordDigest == Some(RecordDigest(cfg.h, cfg.codec.records, db.receipts[2].record))
    && c.evaluatorId == Some(db.receipts[2].record.verdict.evaluatorId)
    && d.resultHead == db.receipts[2].digest
  }

  function Retained(db: Database, role: PayloadRole): Bytes {
    if role in db.payloads then db.payloads[role].content else []
  }

  function RetainedOutput(db: Database): Option<Bytes> {
    if OutputRole in db.payloads then Some(db.payloads[OutputRole].content) else None
  }

  /** Check one journal row and rebuild the commit its writer returned. */
  function ScanRow(cfg: Config, plan: Plan, db: Database, s: Scan, row: Row, sequence: nat): Option<Scan>
    requires s.at.operationCount == sequence
  {
    var c, d := row.document.content, row.document;
    if d.sequence != sequence || c.operationId != row.operationId
      || !WorkflowStore.IsIdentifier(row.operationId) || !WorkflowStore.IsIdentifier(c.requestId)
      || c.expected != s.at || d.previousDigest != s.at.operationHead || d.requestDigest != RequestDigest(cfg, c)
    then None
    else
      var ok := match c.kind
                case Claim => ClaimRowOk(cfg, plan, s, row, sequence)
                case Finish => FinishRowOk(cfg, plan, db, s, row, sequence)
                case GiveVerdict => VerdictRowOk(cfg, db, s, row, sequence);
      if !ok || d.resultCount > |db.receipts| then None
      else
        var journal := Journal(AuthorityDigest(cfg.h, cfg.codec.records, cfg.authority), db.receipts[..d.resultCount]);
        var (expected, after) := Operation(cfg, c, s.at, journal);
        if expected != row || RowBytes(cfg, row) > MAX_OPERATION_BYTES then None
        else
          var pending := if c.kind.Claim? then Some(c.requestId) else None;
          var stored := StoredCase(
            journal, after, Retained(db, AssertionRole), Retained(db, InputRole),
            if c.kind.Claim? then None else RetainedOutput(db), pending);
          Some(Scan(
            after, pending, if c.kind.Claim? then c.adapterKey else s.claimed,
            s.commits + [Commit(row.operationId, d.requestDigest, s.at, stored)]))
  }

  function ScanRows(cfg: Config, plan: Plan, db: Database, genesis: Checkpoint, rows: seq<Row>): (r: Option<Scan>)
    requires genesis.operationCount == 0
    ensures r.Some? ==> r.value.at.operationCount == |rows| == |r.value.commits|
  {
    if rows == [] then Some(Scan(genesis, None, None, []))
    else
      match ScanRows(cfg, plan, db, genesis, rows[..|rows| - 1])
      case None => None
      case Some(s) => ScanRow(cfg, plan, db, s, rows[|rows| - 1], |rows| - 1)
  }

  /** Full verification of a case database. */
  function Read(cfg: Config, db: Database): Option<View> {
    if !Admitted(cfg, db) || !JournalOk(cfg, db) || !PayloadsOk(cfg, db) then None
    else
      match ScanRows(cfg, db.receipts[0].record.plan, db, GenesisCheckpoint(cfg, db.context), db.operations)
      case None => None
      case Some(s) =>
        if s.at != db.meta || s.at.recordCount != |db.receipts| then None
        else
          Some(View(
            StoredCase(JournalOf(cfg, db), s.at, Retained(db, AssertionRole), Retained(db, InputRole),
                       RetainedOutput(db), s.pending),
            s.commits, s.claimed))
  }

  /** The scan loop over the operations. */
  method ReadDatabase(cfg: Config, db: Database) returns (r: Option<View>)
    ensures r == Read(cfg, db)
  {
    hide Admitted, JournalOk, PayloadsOk, ScanRow;
    if !Admitted(cfg, db) || !JournalOk(cfg, db) {
      return None;
    }
    PlanFirst(cfg, db);
    if !PayloadsOk(cfg, db) {
      return None;
    }
    var plan := db.receipts[0].record.plan;
    var genesis := GenesisCheckpoint(cfg, db.context);
    var s := Scan(genesis, None, None, []);
    for i := 0 to |db.operations|
      invariant s.at.operationCount == i
      invariant ScanRows(cfg, plan, db, genesis, db.operations[..i]) == Some(s)
    {
      assert db.operations[..i + 1][..i] == db.operations[..i];
      var next := ScanRow(cfg, plan, db, s, db.operations[i], i);
      if next.None? {
        RowsRefused(cfg, plan, db, genesis, db.operations, i + 1);
        return None;
      }
      s := next.value;
      assert ScanRows(cfg, plan, db, genesis, db.operations[..i + 1]) == Some(s);
    }
    assert db.operations[..|db.operations|] == db.operations;
    if s.at != db.meta || s.at.recordCount != |db.receipts| {
      return None;
    }
    r := Some(View(
      StoredCase(JournalOf(cfg, db), s.at, Retained(db, AssertionRole), Retained(db, InputRole),
                 RetainedOutput(db), s.pending),
      s.commits, s.claimed));
  }

  lemma PlanFirst(cfg: Config, db: Database)
    requires JournalOk(cfg, db)
    ensures |db.receipts| > 0 && db.receipts[0].record.PlanRecord?
  {
  }

  lemma {:induction false} RowsRefused(
    cfg: Config, plan: Plan, db: Database, genesis: Checkpoint, rows: seq<Row>, n: nat)
    requires genesis.operationCount == 0 && n <= |rows|
    requires ScanRows(cfg, plan, db, genesis, rows[..n]).None?
    ensures ScanRows(cfg, plan, db, genesis, rows).None?
    decreases |rows|
  {
    hide ScanRow;
    if n < |rows| {
      assert rows[..|rows| - 1][..n] == rows[..n];
      RowsRefused(cfg, plan, db, genesis, rows[..|rows| - 1], n);
    } else {
      assert rows[..n] == rows;
    }
  }

  // ----- Registry -----

  /** The adapter's identity is exactly the one the plan names. */
  predicate Named(plan: Plan, k: AdapterKey) {
    k.testId == plan.testId && k.adapterId == plan.adapterId && k.adapterVersion == plan.adapterVersion
  }

  /** The registered adapters with the plan's exact test and adapter identity. */
  function Matches(registry: seq<AdapterKey>, plan: Plan): (r: seq<AdapterKey>)
    ensures forall k | k in r :: k in registry && Named(plan, k)
  {
    if registry == [] then []
    else (if Named(plan, registry[0]) then [registry[0]] else []) + Matches(registry[1..], plan)
  }

  /** Entry `i` and no other has the plan's identity. */
  predicate OnlyAt(registry: seq<AdapterKey>, plan: Plan, i: nat) {
    i < |registry| && forall j | 0 <= j < |registry| :: Named(plan, registry[j]) <==> j == i
  }

  lemma {:induction false} NoMatch(registry: seq<AdapterKey>, plan: Plan)
    ensures Matches(registry, plan) == [] <==> forall j | 0 <= j < |registry| :: !Named(plan, registry[j])
  {
    hide Named;
    if registry != [] {
      NoMatch(registry[1..], plan);
      assert forall j | 1 <= j < |registry| :: registry[1..][j - 1] == registry[j];
    }
  }

  lemma {:induction false} OneMatch(registry: seq<AdapterKey>, plan: Plan, i: nat)
    requires OnlyAt(registry, plan, i)
    ensures Matches(registry, plan) == [registry[i]]
    decreases |registry|
  {
    hide Named;
    var rest := registry[1..];
    assert forall j | 1 <= j < |registry| :: rest[j - 1] == registry[j];
    if i == 0 {
      NoMatch(rest, plan);
    } else {
      assert OnlyAt(rest, plan, i - 1);
      OneMatch(rest, plan, i - 1);
    }
  }

  lemma {:induction false} FindMatch(registry: seq<AdapterKey>, plan: Plan) returns (i: nat)
    requires |Matches(registry, plan)| == 1
    ensures OnlyAt(registry, plan, i)
    decreases |registry|
  {
    hide Named;
    var rest := registry[1..];
    assert forall j | 1 <= j < |registry| :: rest[j - 1] == registry[j];
    if Named(plan, registry[0]) {
      i := 0;
      NoMatch(rest, plan);
    } else {
      var k := FindMatch(rest, plan);
      i := k + 1;
    }
  }

  /** Selection returns an adapter exactly when one registered entry, and no other, has the
      plan's identity and its observer holds the scoped authority; it is that entry. */
  lemma SelectExact(cfg: Config, registry: seq<AdapterKey>, plan: Plan, k: AdapterKey)
    ensures Select(cfg, registry, plan) == Some(k)
       <==> ObserverFits(cfg, plan, k) && exists i: nat :: OnlyAt(registry, plan, i) && registry[i] == k
  {
    hide ObserverFits, Matches, Named;
    if Select(cfg, registry, plan) == Some(k) {
      var i := FindMatch(registry, plan);
      OneMatch(registry, plan, i);
    }
    if i: nat :| OnlyAt(registry, plan, i) && registry[i] == k {
      OneMatch(registry, plan, i);
    }
  }

  function Select(cfg: Config, registry: seq<AdapterKey>, plan: Plan): (r: Option<AdapterKey>)
    ensures r.Some? ==> r.value in registry && ObserverFits(cfg, plan, r.value)
  {
    var matches := Matches(registry, plan);
    if |matches| != 1 || !ObserverFits(cfg, plan, matches[0]) then None
    else Some(matches[0])
  }

  // ----- Writers -----

  /** A prepared write: its identity, and the record and bytes it adds. */
  datatype WriteRequest = WriteRequest(content: RequestContent, record: Option<Record>, output: Option<Bytes>)

  /** Prepare a claim from a snapshot. */
  function PrepareClaim(cfg: Config, v: View, registry: seq<AdapterKey>, requestId: string, expected: Checkpoint)
    : Answer<WriteRequest>
  {
    var j := v.snapshot.journal;
    if !WorkflowStore.IsIdentifier(requestId) then Invalid
    else if v.snapshot.checkpoint != expected then Conflict
    else if |j.receipts| != 1 || !j.receipts[0].record.PlanRecord? || JournalHead(cfg.h, j) != cfg.planHead then Invalid
    else
      match Select(cfg, registry, j.receipts[0].record.plan)
      case None => Invalid
      case Some(key) =>
        Done(WriteRequest(
          RequestContent(Claim, requestId, requestId, expected, Some(key),
                         None, None, None, None),
          None, None))
  }

  /** What the callback produced, already normalized. */
  datatype Measurement = Measurement(status: Status, output: Option<Bytes>, errorCode: Option<string>)

  /** Prepare the completion of a claim from a snapshot. */
  function PrepareFinish(
    cfg: Config, v: View, requestId: string, operationId: string, expected: Checkpoint, m: Measurement)
    : Answer<WriteRequest>
  {
    var s := v.snapshot;
    if !WorkflowStore.IsIdentifier(requestId) || !WorkflowStore.IsIdentifier(operationId) then Invalid
    else if s.checkpoint != expected then Conflict
    else if s.pending != Some(requestId) then Conflict
    else if s.journal.receipts == [] || !s.journal.receipts[0].record.PlanRecord? || v.claimed.None? then Invalid
    else if m.status.ObservedStatus? && (m.errorCode.Some? || m.output.None?
                                         || !OutputOk(cfg, m.output.value, |s.assertion| + |s.input|)) then Invalid
    else if !m.status.ObservedStatus? && (m.output.Some? || m.errorCode.None?
                                          || !WorkflowStore.IsIdentifier(m.errorCode.value)) then Invalid
    else
      var plan := s.journal.receipts[0].record.plan;
      var sha := if m.output.Some? then Some(cfg.h(m.output.value)) else None;
      var artifact := if m.output.Some? then Some(ObservedId(cfg, plan, requestId, m.output.value)) else None;
      var o := Observation(RecordDigest(cfg.h, cfg.codec.records, PlanRecord(plan)), requestId,
                           v.claimed.value.observerId, m.status, plan.inputSha, sha, artifact, m.errorCode);
      Done(WriteRequest(
        RequestContent(Finish, operationId, requestId, expected, None, sha, Some(m.status),
                       Some(RecordDigest(cfg.h, cfg.codec.records, ObservationRecord(o))), None),
        Some(ObservationRecord(o)), m.output))
  }

  /** Prepare the verdict that the retained bytes force. */
  function PrepareVerdict(cfg: Config, v: View, operationId: string, evaluatorId: string, expected: Checkpoint)
    : Answer<WriteRequest>
  {
    var s := v.snapshot;
    if !WorkflowStore.IsIdentifier(operationId) || !WorkflowStore.IsIdentifier(evaluatorId) then Invalid
    else if s.checkpoint != expected then Conflict
    else if |s.journal.receipts| != 2 then Invalid
    else if !s.journal.receipts[0].record.PlanRecord? || !s.journal.receipts[1].record.ObservationRecord? then Invalid
    else
      var plan := s.journal.receipts[0].record.plan;
      var o := s.journal.receipts[1].record.observation;
      var outcome := if s.observed.None? then Inconclusive
                     else if cfg.h(s.observed.value) == plan.predictionSha then Supported else Refuted;
      var verdict := Verdict(RecordDigest(cfg.h, cfg.codec.records, PlanRecord(plan)),
                             RecordDigest(cfg.h, cfg.codec.records, ObservationRecord(o)), evaluatorId, outcome);
      Done(WriteRequest(
        RequestContent(GiveVerdict, operationId, o.requestId, expected, None, None, None,
                       Some(RecordDigest(cfg.h, cfg.codec.records, VerdictRecord(verdict))),
                       Some(evaluatorId)),
        Some(VerdictRecord(verdict)), None))
  }

  /** The writer's own admission, by operation count and pending claim. */
  predicate MayWrite(v: View, w: WriteRequest) {
    match w.content.kind
    case Claim => v.snapshot.checkpoint.operationCount == 0 && v.snapshot.pending.None?
    case Finish =>
      v.snapshot.checkpoint.operationCount == 1 && v.snapshot.pending == Some(w.content.requestId)
      && w.record.Some? && w.record.value.ObservationRecord?
    case GiveVerdict =>
      v.snapshot.checkpoint.operationCount == 2 && w.record.Some? && w.record.value.VerdictRecord?
  }

  /** The action inside one write transaction. */
  function WriteAction(cfg: Config, db: Database, w: WriteRequest): (Answer<Commit>, Database) {
    match Read(cfg, db)
    case None => (Invalid, db)
    case Some(v) =>
      var c, s := w.content, v.snapshot;
      if exists i | 0 <= i < |v.commits| :: v.commits[i].operationId == c.operationId then (Conflict, db)
      else if s.checkpoint != c.expected then (Conflict, db)
      else if s.checkpoint.operationCount >= MAX_OPERATIONS then (Invalid, db)
      else if !MayWrite(v, w) then (Conflict, db)
      else
        var next := if c.kind.Claim? then Some(s.journal)
                    else AppendRecord(cfg.h, cfg.codec.records, cfg.authority, s.journal, w.record.value);
        if next.None? || next.value.receipts == [] then (Invalid, db)
        else
          var (row, after) := Operation(cfg, c, s.checkpoint, next.value);
          if RowBytes(cfg, row) > MAX_OPERATION_BYTES then (Invalid, db)
          else if w.output.Some? && !(w.record.Some? && w.record.value.ObservationRecord?
                                      && w.record.value.observation.artifactId.Some?) then (Invalid, db)
          else
            var observed := if w.output.Some? then w.output else s.observed;
            var pending := if c.kind.Claim? then Some(c.requestId) else None;
            var result := StoredCase(next.value, after, s.assertion, s.input, observed, pending);
            var payloads :=
              if w.output.Some?
              then db.payloads[OutputRole := Payload(w.record.value.observation.artifactId.value,
                                                     cfg.h(w.output.value), w.output.value)]
              else db.payloads;
            (Done(Commit(c.operationId, RequestDigest(cfg, c), s.checkpoint, result)),
             Database(db.context,
                      if c.kind.Claim? then db.receipts
                      else db.receipts + [next.value.receipts[|next.value.receipts| - 1]],
                      payloads, db.operations + [row], after))
  }

  function LookupAction(cfg: Config, db: Database, operationId: string, digest: Digest): Answer<Option<Commit>> {
    match Read(cfg, db)
    case None => Invalid
    case Some(v) =>
      match FindCommit(v.commits, operationId)
      case None => Done(None)
      case Some(c) => if c.requestDigest != digest then Conflict else Done(Some(c))
  }

  function FindCommit(commits: seq<Commit>, operationId: string): (r: Option<Commit>)
    ensures r.Some? ==> r.value in commits && r.value.operationId == operationId
    ensures r.None? <==> forall i | 0 <= i < |commits| :: commits[i].operationId != operationId
  {
    if commits == [] then None
    else if commits[0].operationId == operationId then Some(commits[0])
    else FindCommit(commits[1..], operationId)
  }

  /** Exclusive creation from a one-plan journal and its committed inputs. */
  function CreateStore(cfg: Config, journal: Journal, assertion: Bytes, input: Bytes): Option<Database> {
    if Replay(cfg.h, cfg.codec.records, cfg.authority, journal).None?
      || !Intact(cfg.h, cfg.codec.records, journal)
      || JournalHead(cfg.h, journal) != cfg.planHead
      || |journal.receipts| != 1 || !journal.receipts[0].record.PlanRecord?
    then None
    else
      var plan := journal.receipts[0].record.plan;
      if |assertion| > MAX_ASSERTION || |input| > MAX_INPUT || |assertion| + |input| > MAX_TOTAL_PAYLOAD
        || cfg.h(assertion) != plan.assertionSha || cfg.h(input) != plan.inputSha
      then None
      else
        var context := ContextOf(cfg, journal.authorityDigest, journal.receipts[0]);
        Some(Database(
          context, journal.receipts,
          map[AssertionRole := Payload(plan.assertionId, plan.assertionSha, assertion),
              InputRole := Payload(plan.inputId, plan.inputSha, input)],
          [], GenesisCheckpoint(cfg, context)))
  }
}
