/** The durable workflow store (workflow_storage.py) as an abstract database with
    atomic transactions: full re-verification on every read, compare-and-append
    under an exact checkpoint, and an idempotency journal keyed by request ID.
 */
module WorkflowStore {
  import opened Wrappers
  import opened Hashing
  import opened Workflow
  import Ledger

  const MAX_META_BYTES := 8192

  datatype Limits = Limits(
    maxBundleBytes: nat,
    maxRecords: nat,
    maxReceiptBytes: nat,
    maxAppendRecords: nat,
    maxRequestBytes: nat,
    maxOperations: nat,
    maxOperationBytes: nat,
    maxOperationsBytes: nat)

  predicate ValidLimits(l: Limits) {
    && 1 <= l.maxBundleBytes <= 64 * 1024 * 1024
    && 1 <= l.maxRecords <= 10_000
    && 1 <= l.maxReceiptBytes <= 256 * 1024
    && 1 <= l.maxAppendRecords <= 1_000
    && 1 <= l.maxRequestBytes <= 8 * 1024 * 1024
    && 1 <= l.maxOperations <= 10_000
    && 1 <= l.maxOperationBytes <= 8 * 1024
    && 1 <= l.maxOperationsBytes <= 16 * 1024 * 1024
  }

  /** An exact position of the store: workflow chain and operation chain. */
  datatype Checkpoint = Checkpoint(
    context: Digest,
    recordCount: nat,
    workflowHead: Digest,
    operationCount: nat,
    operationHead: Digest)

  datatype OperationContent = OperationContent(
    sequence: nat,
    requestId: string,
    requestDigest: Digest,
    expected: Checkpoint,
    resultCount: nat,
    resultHead: Digest,
    previousDigest: Digest)

  datatype ContextDocument = ContextDocument(
    workflowId: string,
    authorityDigest: Digest,
    evidence: Ledger.EvidenceLedger,
    artifacts: seq<Artifact>,
    context: Digest,
    initialCount: nat,
    initialHead: Digest)

  /** Canonical JSON of the store's own documents. */
  datatype StoreCodec = StoreCodec(
    workflow: WorkflowCodec,
    genesis: (Digest, nat, Digest) -> Bytes,
    request: (string, Checkpoint, seq<Transition>) -> Bytes,
    operation: OperationContent -> Bytes,
    operationDocument: (OperationContent, Digest) -> Bytes,
    context: ContextDocument -> Bytes,
    checkpoint: Checkpoint -> Bytes)

  ghost predicate Lossless(c: StoreCodec) {
    forall id, p, ts, id', p', ts' ::
      c.request(id, p, ts) == c.request(id', p', ts') ==> id == id' && p == p' && ts == ts'
  }

  /** What a store object is configured with; the database never supplies these. */
  datatype Config = Config(
    h: HashFunction, codec: StoreCodec, policy: Policy, context: Digest, limits: Limits)

  // ----- Tables -----

  datatype OperationRow = OperationRow(requestId: string, content: OperationContent, digest: Digest)

  datatype Database = Database(
    context: ContextDocument,
    receipts: seq<Receipt>,
    operations: seq<OperationRow>,
    meta: Checkpoint)

  // ----- Identities and digests -----

  predicate IdentifierStart(c: char) {
    'A' <= c <= 'Z' || 'a' <= c <= 'z' || '0' <= c <= '9'
  }

  predicate IdentifierTail(c: char) {
    IdentifierStart(c) || c == '.' || c == '_' || c == ':' || c == '/' || c == '-'
  }

  predicate IsIdentifier(s: string) {
    1 <= |s| <= 128 && IdentifierStart(s[0]) && forall i | 1 <= i < |s| :: IdentifierTail(s[i])
  }

  function HeadAt(cfg: Config, b: Bundle, n: nat): Digest
    requires n <= |b.records|
  {
    if n == 0 then ContextDigest(cfg.h, cfg.codec.workflow, b) else b.records[n - 1].digest
  }

  function GenesisCheckpoint(cfg: Config, b: Bundle, initialCount: nat): Checkpoint
    requires initialCount <= |b.records|
  {
    var context := ContextDigest(cfg.h, cfg.codec.workflow, b);
    var head := HeadAt(cfg, b, initialCount);
    Checkpoint(context, initialCount, head, 0, cfg.h(cfg.codec.genesis(context, initialCount, head)))
  }

  function DerivedContext(cfg: Config, b: Bundle, initialCount: nat): ContextDocument
    requires initialCount <= |b.records|
  {
    ContextDocument(b.workflowId, b.authorityDigest, b.evidence, b.artifacts,
                    ContextDigest(cfg.h, cfg.codec.workflow, b), initialCount, HeadAt(cfg, b, initialCount))
  }

  function RequestDigest(cfg: Config, id: string, expected: Checkpoint, ts: seq<Transition>): Digest {
    cfg.h(cfg.codec.request(id, expected, ts))
  }

  /** The journal entry and the checkpoint after appending up to record `end`. */
  function Operation(cfg: Config, id: string, digest: Digest, before: Checkpoint, b: Bundle, end: nat)
    : (OperationRow, Checkpoint)
    requires end <= |b.records|
  {
    var content := OperationContent(
      before.operationCount, id, digest, before, end, HeadAt(cfg, b, end), before.operationHead);
    var d := cfg.h(cfg.codec.operation(content));
    (OperationRow(id, content, d),
     Checkpoint(before.context, end, HeadAt(cfg, b, end), before.operationCount + 1, d))
  }

  function RowBytes(cfg: Config, row: OperationRow): nat {
    |cfg.codec.operationDocument(row.content, row.digest)|
  }

  function RowsBytes(cfg: Config, rows: seq<OperationRow>): nat {
    if rows == [] then 0 else RowsBytes(cfg, rows[..|rows| - 1]) + RowBytes(cfg, rows[|rows| - 1])
  }

  // ----- Read -----

  /** A verified journal entry. */
  datatype Entry = Entry(requestId: string, requestDigest: Digest, previous: Checkpoint, result: Checkpoint)

  datatype View = View(bundle: Bundle, checkpoint: Checkpoint, entries: seq<Entry>)

  /** Count and byte admission, made before any document is parsed. */
  predicate Admitted(cfg: Config, db: Database) {
    var l, w := cfg.limits, cfg.codec.workflow;
    && |cfg.codec.checkpoint(db.meta)| <= MAX_META_BYTES
    && |db.receipts| <= l.maxRecords
    && (forall i | 0 <= i < |db.receipts| :: w.receiptBytes(db.receipts[i]) <= l.maxReceiptBytes)
    && |db.operations| <= l.maxOperations
    && (forall i | 0 <= i < |db.operations| :: RowBytes(cfg, db.operations[i]) <= l.maxOperationBytes)
    && RowsBytes(cfg, db.operations) <= l.maxOperationsBytes
    && |cfg.codec.context(db.context)| + ReceiptsBytes(w, db.receipts) <= l.maxBundleBytes
  }

  function BundleOf(db: Database): Bundle {
    Bundle(db.context.workflowId, db.context.authorityDigest, db.context.evidence, db.context.artifacts, db.receipts)
  }

  /** The stored documents describe an authorized workflow of this context. */
  predicate ContextOk(cfg: Config, db: Database) {
    var b := BundleOf(db);
    && db.context.context == cfg.context
    && db.context.authorityDigest == PolicyDigest(cfg.h, cfg.codec.workflow, cfg.policy)
    && db.context.initialCount <= |db.receipts|
    && Intact(cfg.h, cfg.codec.workflow, b)
    && BundleBytes(cfg.codec.workflow, b) <= cfg.limits.maxBundleBytes
    && Authorize(cfg.h, cfg.codec.workflow, cfg.policy, b, None).Ok?
    && DerivedContext(cfg, b, db.context.initialCount) == db.context
  }

  /** Check one journal row against the receipts it claims. */
  function ReadRow(cfg: Config, b: Bundle, at: Checkpoint, row: OperationRow, sequence: nat): Option<Entry>
    requires at.recordCount <= |b.records| && at.operationCount == sequence
  {
    var end := row.content.resultCount;
    if !IsIdentifier(row.requestId)
      || row.content.sequence != sequence
      || !(at.recordCount + 1 <= end <= |b.records|)
      || end - at.recordCount > cfg.limits.maxAppendRecords
    then None
    else
      var ts := Transitions(b.records[at.recordCount..end]);
      var digest := RequestDigest(cfg, row.requestId, at, ts);
      var (expected, after) := Operation(cfg, row.requestId, digest, at, b, end);
      if |cfg.codec.request(row.requestId, at, ts)| > cfg.limits.maxRequestBytes
        || expected != row
      then None
      else Some(Entry(row.requestId, digest, at, after))
  }

  datatype Fold = Fold(at: Checkpoint, entries: seq<Entry>)

  /** Fold the journal from the genesis checkpoint. */
  function ReadRows(cfg: Config, b: Bundle, genesis: Checkpoint, rows: seq<OperationRow>): (r: Option<Fold>)
    requires genesis.recordCount <= |b.records| && genesis.operationCount == 0
    ensures r.Some? ==>
      && r.value.at.recordCount <= |b.records| && r.value.at.operationCount == |rows| == |r.value.entries|
      && forall e | e in r.value.entries :: e.result.recordCount <= |b.records|
  {
    if rows == [] then Some(Fold(genesis, []))
    else
      var n := |rows| - 1;
      match ReadRows(cfg, b, genesis, rows[..n])
      case None => None
      case Some(f) =>
        match ReadRow(cfg, b, f.at, rows[n], n)
        case None => None
        case Some(e) => Some(Fold(e.result, f.entries + [e]))
  }

  /** Full verification of the database; nothing is returned from an invalid one. */
  function Read(cfg: Config, db: Database): (r: Option<View>)
    ensures r.Some? ==> forall e | e in r.value.entries :: e.result.recordCount <= |r.value.bundle.records|
  {
    if !Admitted(cfg, db) || !ContextOk(cfg, db) then None
    else
      var b := BundleOf(db);
      match ReadRows(cfg, b, GenesisCheckpoint(cfg, b, db.context.initialCount), db.operations)
      case None => None
      case Some(f) =>
        if f.at != db.meta || f.at.recordCount != |db.receipts| || f.at.operationCount != |db.operations|
        then None
        else Some(View(b, f.at, f.entries))
  }

  /** The read loop over the journal. */
  method ReadDatabase(cfg: Config, db: Database) returns (r: Option<View>)
    ensures r == Read(cfg, db)
  {
    hide Intact, Authorize, Admitted, ReadRow, Operation;
    if !Admitted(cfg, db) || !ContextOk(cfg, db) {
      return None;
    }
    var b := BundleOf(db);
    var genesis := GenesisCheckpoint(cfg, b, db.context.initialCount);
    var checkpoint := genesis;
    var entries: seq<Entry> := [];
    for i := 0 to |db.operations|
      invariant checkpoint.recordCount <= |b.records| && checkpoint.operationCount == i
      invariant ReadRows(cfg, b, genesis, db.operations[..i]) == Some(Fold(checkpoint, entries))
    {
      assert db.operations[..i + 1][..i] == db.operations[..i];
      var entry := ReadRow(cfg, b, checkpoint, db.operations[i], i);
      if entry.None? {
        RowsRefused(cfg, b, genesis, db.operations, i + 1);
        return None;
      }
      ReadRowRange(cfg, b, checkpoint, db.operations[i], i);
      entries := entries + [entry.value];
      checkpoint := entry.value.result;
    }
    assert db.operations[..|db.operations|] == db.operations;
    if checkpoint != db.meta || checkpoint.recordCount != |db.receipts|
      || checkpoint.operationCount != |db.operations| {
      return None;
    }
    r := Some(View(b, checkpoint, entries));
  }

  lemma {:induction false} RowsRefused(cfg: Config, b: Bundle, genesis: Checkpoint, rows: seq<OperationRow>, n: nat)
    requires genesis.recordCount <= |b.records| && genesis.operationCount == 0 && n <= |rows|
    requires ReadRows(cfg, b, genesis, rows[..n]).None?
    ensures ReadRows(cfg, b, genesis, rows).None?
    decreases |rows|
  {
    hide ReadRow;
    if n < |rows| {
      assert rows[..|rows| - 1][..n] == rows[..n];
      RowsRefused(cfg, b, genesis, rows[..|rows| - 1], n);
    } else {
      assert rows[..n] == rows;
    }
  }

  lemma ReadRowRange(cfg: Config, b: Bundle, at: Checkpoint, row: OperationRow, sequence: nat)
    requires at.recordCount <= |b.records| && at.operationCount == sequence
    requires ReadRow(cfg, b, at, row, sequence).Some?
    ensures var e := ReadRow(cfg, b, at, row, sequence).value;
            && e.previous == at && e.requestId == row.requestId
            && at.recordCount < e.result.recordCount <= |b.records|
            && e.result.recordCount == row.content.resultCount
            && e.result.operationCount == sequence + 1
            && e.result.workflowHead == HeadAt(cfg, b, e.result.recordCount)
            && e.result.context == at.context
            && e.requestDigest ==
                 RequestDigest(cfg, e.requestId, at, Transitions(b.records[at.recordCount..e.result.recordCount]))
  {
    hide IsIdentifier, RequestDigest, HeadAt;
  }

  // ----- Commits -----

  datatype Commit = Commit(
    requestId: string, requestDigest: Digest, previous: Checkpoint, bundle: Bundle, checkpoint: Checkpoint)

  /** Rebuild the original result of a journal entry from a later bundle. */
  function Historical(current: Bundle, e: Entry): Commit
    requires e.result.recordCount <= |current.records|
  {
    Commit(e.requestId, e.requestDigest, e.previous, Take(current, e.result.recordCount), e.result)
  }

  function Find(entries: seq<Entry>, id: string): (r: Option<Entry>)
    ensures r.Some? ==> r.value in entries && r.value.requestId == id
    ensures r.None? <==> forall e | e in entries :: e.requestId != id
  {
    if entries == [] then None
    else if entries[0].requestId == id then Some(entries[0])
    else Find(entries[1..], id)
  }

  // ----- Append and lookup as atomic actions -----

  /** Admission that needs no storage access. */
  function Prepare(cfg: Config, id: string, expected: Checkpoint, ts: seq<Transition>): Answer<Digest> {
    if !IsIdentifier(id) then Invalid
    else if expected.context != cfg.context then Conflict
    else if !(1 <= |ts| <= cfg.limits.maxAppendRecords) then Invalid
    else if exists i | 0 <= i < |ts| :: !ValidTransition(ts[i]) then Invalid
    else if |cfg.codec.request(id, expected, ts)| > cfg.limits.maxRequestBytes then Invalid
    else Done(RequestDigest(cfg, id, expected, ts))
  }

  /** `isNew` says this call wrote the entry rather than finding it. */
  datatype Appended = Appended(commit: Commit, isNew: bool)

  /** The database after adding an operation, or nothing when a limit would break. */
  function Store(cfg: Config, db: Database, v: View, id: string, digest: Digest, candidate: Bundle): Option<Database>
    requires |v.bundle.records| <= |candidate.records|
  {
    var l, w := cfg.limits, cfg.codec.workflow;
    var rows := candidate.records[|v.bundle.records|..];
    var (row, after) := Operation(cfg, id, digest, v.checkpoint, candidate, |candidate.records|);
    if BundleBytes(w, candidate) > l.maxBundleBytes
      || (exists i | 0 <= i < |rows| :: w.receiptBytes(rows[i]) > l.maxReceiptBytes)
      || |cfg.codec.context(db.context)| + ReceiptsBytes(w, db.receipts) + ReceiptsBytes(w, rows) > l.maxBundleBytes
      || RowBytes(cfg, row) > l.maxOperationBytes
      || RowsBytes(cfg, db.operations) + RowBytes(cfg, row) > l.maxOperationsBytes
      || |cfg.codec.checkpoint(after)| > MAX_META_BYTES
    then None
    else Some(Database(db.context, db.receipts + rows, db.operations + [row], after))
  }

  /** The action inside one append transaction. */
  function AppendAction(cfg: Config, db: Database, id: string, expected: Checkpoint, ts: seq<Transition>,
                        digest: Digest)
    : (Answer<Appended>, Database)
  {
    match Read(cfg, db)
    case None => (Invalid, db)
    case Some(v) =>
      match Find(v.entries, id)
      case Some(e) =>
        if e.requestDigest != digest then (Conflict, db)
        else (Done(Appended(Historical(v.bundle, e), false)), db)
      case None =>
        if v.checkpoint != expected then (Conflict, db)
        else if |v.bundle.records| + |ts| > cfg.limits.maxRecords || |v.entries| >= cfg.limits.maxOperations
        then (Invalid, db)
        else
          match Append(cfg.h, cfg.codec.workflow, cfg.policy, v.bundle, ts)
          case None => (Invalid, db)
          case Some(candidate) =>
            AppendAdmits(cfg.h, cfg.codec.workflow, cfg.policy, v.bundle, ts);
            ExtendShape(cfg.h, cfg.codec.workflow, v.bundle, ts);
            match Store(cfg, db, v, id, digest, candidate)
            case None => (Invalid, db)
            case Some(db') => (Done(Appended(Commit(id, digest, expected, candidate, db'.meta), true)), db')
  }

  /** One undisturbed append call. */
  function AppendCall(cfg: Config, db: Database, id: string, expected: Checkpoint, ts: seq<Transition>)
    : (Answer<Appended>, Database)
  {
    match Prepare(cfg, id, expected, ts)
    case Conflict => (Conflict, db)
    case Invalid => (Invalid, db)
    case Done(digest) => AppendAction(cfg, db, id, expected, ts, digest)
  }

  function LookupAction(cfg: Config, db: Database, id: string, digest: Digest): Answer<Option<Commit>> {
    match Read(cfg, db)
    case None => Invalid
    case Some(v) =>
      match Find(v.entries, id)
      case None => Done(None)
      case Some(e) =>
        if e.requestDigest != digest then Conflict
        else Done(Some(Historical(v.bundle, e)))
  }

  /** Exclusive creation from an authorized initial bundle. */
  function CreateStore(cfg: Config, initial: Bundle, expectedHead: Digest): Option<Database> {
    var w := cfg.codec.workflow;
    var n := |initial.records|;
    var context := DerivedContext(cfg, initial, n);
    var genesis := GenesisCheckpoint(cfg, initial, n);
    if !Intact(cfg.h, w, initial)
      || BundleBytes(w, initial) > cfg.limits.maxBundleBytes
      || Authorize(cfg.h, w, cfg.policy, initial, Some(expectedHead)).Err?
      || ContextDigest(cfg.h, w, initial) != cfg.context
      || n > cfg.limits.maxRecords
      || (exists i | 0 <= i < n :: w.receiptBytes(initial.records[i]) > cfg.limits.maxReceiptBytes)
      || |cfg.codec.context(context)| + ReceiptsBytes(w, initial.records) > cfg.limits.maxBundleBytes
      || |cfg.codec.checkpoint(genesis)| > MAX_META_BYTES
    then None
    else Some(Database(context, initial.records, [], genesis))
  }
}
