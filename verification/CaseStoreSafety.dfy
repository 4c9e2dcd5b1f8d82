/** What every reachable case store guarantees: it reads back, every commit is
    looked up unchanged for ever, and the stored verdict is the one its bytes force.
 */
module CaseStoreSafety {
  import opened Wrappers
  import opened Hashing
  import opened EpistemicCase
  import opened CaseStore
  import WorkflowStore

  /** Canonical encodings of the two small documents fit their columns. */
  ghost predicate Compact(c: StoreCodec) {
    && (forall p: Checkpoint ::
          p.recordCount <= 3 && p.operationCount <= 3 && p.generation <= 3 ==> |c.checkpoint(p)| <= MAX_META)
    && (forall d: ContextDocument ::
          |d.caseId| <= 128 && |d.assertionId| <= 128 && |d.inputId| <= 128 ==> |c.context(d)| <= MAX_CONTEXT)
  }

  // ----- Shape of a verified journal -----

  predicate ScanShape(cfg: Config, plan: Plan, db: Database, s: Scan, n: nat) {
    && n <= 3
    && s.at.operationCount == n == s.at.generation == |s.commits|
    && s.at.recordCount == (if n == 0 then 1 else n)
    && s.at.recordCount <= |db.receipts|
    && (s.pending.Some? <==> n == 1)
    && (n >= 1 ==> s.claimed.Some? && ObserverFits(cfg, plan, s.claimed.value))
    && s.at.context == GenesisCheckpoint(cfg, db.context).context
  }

  lemma {:induction false} ScanRowsShape(cfg: Config, plan: Plan, db: Database, rows: seq<Row>)
    requires |db.receipts| >= 1
    requires ScanRows(cfg, plan, db, GenesisCheckpoint(cfg, db.context), rows).Some?
    ensures ScanShape(cfg, plan, db, ScanRows(cfg, plan, db, GenesisCheckpoint(cfg, db.context), rows).value, |rows|)
    decreases |rows|
  {
    hide ScanRow, ObserverFits;
    if rows != [] {
      var n := |rows| - 1;
      ScanRowsShape(cfg, plan, db, rows[..n]);
      var s := ScanRows(cfg, plan, db, GenesisCheckpoint(cfg, db.context), rows[..n]).value;
      ScanRowShape(cfg, plan, db, s, rows[n], n);
    }
  }

  lemma ScanRowShape(cfg: Config, plan: Plan, db: Database, s: Scan, row: Row, n: nat)
    requires ScanShape(cfg, plan, db, s, n) && ScanRow(cfg, plan, db, s, row, n).Some?
    ensures ScanShape(cfg, plan, db, ScanRow(cfg, plan, db, s, row, n).value, n + 1)
    ensures row.document.content.kind == (if n == 0 then Claim else if n == 1 then Finish else GiveVerdict)
  {
    hide ObserverFits, RecordDigest, ObservedId, RequestDigest, WorkflowStore.IsIdentifier, Retained, RetainedOutput,
      JournalHead;
  }

  /** A readable store: how many operations, records and what is pending. */
  lemma ReadShape(cfg: Config, db: Database)
    requires Read(cfg, db).Some?
    ensures var v := Read(cfg, db).value;
            var n := |db.operations|;
            && n <= 3 && |db.receipts| == (if n == 0 then 1 else n)
            && db.receipts[0].record.PlanRecord?
            && v.snapshot.journal == JournalOf(cfg, db)
            && v.snapshot.checkpoint == db.meta
            && db.meta.operationCount == n == db.meta.generation == |v.commits|
            && db.meta.recordCount == |db.receipts|
            && (v.snapshot.pending.Some? <==> n == 1)
            && (n >= 1 ==> v.claimed.Some? && ObserverFits(cfg, db.receipts[0].record.plan, v.claimed.value))
            && v.snapshot.assertion == Retained(db, AssertionRole) && v.snapshot.input == Retained(db, InputRole)
            && v.snapshot.observed == RetainedOutput(db)
            && (n <= 1 ==> OutputRole !in db.payloads)
            && Admitted(cfg, db) && JournalOk(cfg, db) && PayloadsOk(cfg, db)
  {
    hide Admitted, JournalOk, ScanRows, ObserverFits;
    PlanFirst(cfg, db);
    ScanRowsShape(cfg, db.receipts[0].record.plan, db, db.operations);
  }

  // ----- Rows stay verified when the store grows -----

  predicate Extends(small: Database, big: Database) {
    && small.receipts <= big.receipts
    && Retained(small, AssertionRole) == Retained(big, AssertionRole)
    && Retained(small, InputRole) == Retained(big, InputRole)
    && small.context == big.context
  }

  lemma ScanRowFrame(cfg: Config, plan: Plan, small: Database, big: Database, s: Scan, row: Row, n: nat)
    requires Extends(small, big) && s.at.operationCount == n
    requires row.document.content.kind.Claim? || small.payloads == big.payloads
    requires ScanRow(cfg, plan, small, s, row, n).Some?
    ensures ScanRow(cfg, plan, big, s, row, n) == ScanRow(cfg, plan, small, s, row, n)
  {
    hide ObserverFits, RecordDigest, ObservedId, RequestDigest, WorkflowStore.IsIdentifier, Retained, Operation,
      RowBytes;
    assert big.receipts[..row.document.resultCount] == small.receipts[..row.document.resultCount];
  }

  lemma {:induction false} ScanRowsFrame(
    cfg: Config, plan: Plan, small: Database, big: Database, rows: seq<Row>)
    requires Extends(small, big) && |small.receipts| >= 1
    requires |rows| <= 1 || small.payloads == big.payloads
    requires ScanRows(cfg, plan, small, GenesisCheckpoint(cfg, small.context), rows).Some?
    ensures ScanRows(cfg, plan, big, GenesisCheckpoint(cfg, big.context), rows)
         == ScanRows(cfg, plan, small, GenesisCheckpoint(cfg, small.context), rows)
    decreases |rows|
  {
    hide ScanRow, Retained;
    if rows != [] {
      var n := |rows| - 1;
      ScanRowsFrame(cfg, plan, small, big, rows[..n]);
      var s := ScanRows(cfg, plan, small, GenesisCheckpoint(cfg, small.context), rows[..n]).value;
      ScanRowsShape(cfg, plan, small, rows[..n]);
      ScanRowShape(cfg, plan, small, s, rows[n], n);
      ScanRowFrame(cfg, plan, small, big, s, rows[n], n);
    }
  }

  lemma ScanSnoc(cfg: Config, plan: Plan, db: Database, rows: seq<Row>, row: Row)
    requires ScanRows(cfg, plan, db, GenesisCheckpoint(cfg, db.context), rows).Some?
    ensures ScanRows(cfg, plan, db, GenesisCheckpoint(cfg, db.context), rows + [row])
         == ScanRow(cfg, plan, db, ScanRows(cfg, plan, db, GenesisCheckpoint(cfg, db.context), rows).value, row, |rows|)
  {
    hide ScanRow;
    assert (rows + [row])[..|rows|] == rows;
  }

  // ----- Closure of each write -----

  /** The scan behind a readable database. */
  function ScanOf(cfg: Config, db: Database): (s: Scan)
    requires Read(cfg, db).Some?
    ensures s.at == db.meta && s.at.operationCount == |db.operations|
    ensures s.pending == Read(cfg, db).value.snapshot.pending && s.claimed == Read(cfg, db).value.claimed
    ensures s.commits == Read(cfg, db).value.commits
    ensures ScanRows(cfg, db.receipts[0].record.plan, db, GenesisCheckpoint(cfg, db.context), db.operations) == Some(s)
  {
    ScanRows(cfg, db.receipts[0].record.plan, db, GenesisCheckpoint(cfg, db.context), db.operations).value
  }

  /** A database that passes admission and whose last row scans is readable. */
  lemma ReadGrown(cfg: Config, db: Database, next: Database, row: Row)
    requires Read(cfg, db).Some? && Extends(db, next)
    requires |db.operations| <= 1 || next.payloads == db.payloads
    requires next.operations == db.operations + [row]
    requires Admitted(cfg, next) && JournalOk(cfg, next) && PayloadsOk(cfg, next)
    requires var r := ScanRow(cfg, next.receipts[0].record.plan, next, ScanOf(cfg, db), row, |db.operations|);
             r.Some? && r.value.at == next.meta && next.meta.recordCount == |next.receipts|
    ensures var s := ScanRow(cfg, next.receipts[0].record.plan, next, ScanOf(cfg, db), row, |db.operations|).value;
            Read(cfg, next) ==
              Some(View(
                StoredCase(JournalOf(cfg, next), next.meta, Retained(next, AssertionRole), Retained(next, InputRole),
                           RetainedOutput(next), s.pending),
                s.commits, s.claimed))
  {
    hide Admitted, JournalOk, PayloadsOk, ScanRow, Retained, RetainedOutput;
    PlanFirst(cfg, next);
    var plan := next.receipts[0].record.plan;
    assert db.receipts[0] == next.receipts[0] by { ReadShape(cfg, db); }
    ReadShape(cfg, db);
    ScanRowsFrame(cfg, plan, db, next, db.operations);
    ScanSnoc(cfg, plan, next, db.operations, row);
  }

  /** What a successful write adds. */
  predicate WroteAs(cfg: Config, db: Database, w: WriteRequest, c: Commit, next: Database) {
    && Read(cfg, db).Some?
    && WriteAction(cfg, db, w) == (Done(c), next)
  }

  /** Closure of a claim. */
  lemma ClaimReads(cfg: Config, db: Database, registry: seq<AdapterKey>, requestId: string, w: WriteRequest, c: Commit,
                   next: Database)
    requires Compact(cfg.codec) && WroteAs(cfg, db, w, c, next)
    requires PrepareClaim(cfg, Read(cfg, db).value, registry, requestId, w.content.expected) == Done(w)
    ensures Read(cfg, next) == Some(View(c.result, Read(cfg, db).value.commits + [c], w.content.adapterKey))
    ensures next.context == db.context && next.receipts == db.receipts && next.payloads == db.payloads
    ensures |next.operations| == |db.operations| + 1 && next.operations[..|db.operations|] == db.operations
  {
    hide Read, Admitted, JournalOk, PayloadsOk, RequestDigest, WorkflowStore.IsIdentifier, ScanRow, Operation, Select,
      ScanRows;
    ReadShape(cfg, db);
    var row := next.operations[|db.operations|];
    OperationShape(cfg, w.content, db.meta, JournalOf(cfg, db));
    WrittenAdmitted(cfg, db, next, row);
    SameReceiptsOk(cfg, db, next);
    ClaimRowScans(cfg, db, w, next, row);
    ReadGrown(cfg, db, next, row);
  }

  lemma OperationShape(cfg: Config, content: RequestContent, before: Checkpoint, j: Journal)
    ensures var (row, after) := Operation(cfg, content, before, j);
            && row.operationId == content.operationId
            && row.document == OperationDocument(before.operationCount, content, RequestDigest(cfg, content),
                                                 |j.receipts|, JournalHead(cfg.h, j), before.operationHead)
            && after.context == before.context && after.recordCount == |j.receipts|
            && after.operationCount == before.operationCount + 1 && after.generation == before.generation + 1
  {
  }

  lemma WrittenAdmitted(cfg: Config, db: Database, next: Database, row: Row)
    requires Compact(cfg.codec) && Admitted(cfg, db)
    requires next.operations == db.operations + [row] && |next.operations| <= 3
    requires RowBytes(cfg, row) <= MAX_OPERATION_BYTES
    requires next.context == db.context && db.receipts <= next.receipts && |next.receipts| <= 3
    requires forall i | |db.receipts| <= i < |next.receipts| ::
        ReceiptBytes(cfg.codec.records, next.receipts[i]) <= MAX_RECEIPT
    requires next.meta.recordCount <= 3 && next.meta.operationCount <= 3 && next.meta.generation <= 3
    ensures Admitted(cfg, next)
  {
    hide ReceiptBytes, RowBytes;
  }

  lemma SameReceiptsOk(cfg: Config, db: Database, next: Database)
    requires next.receipts == db.receipts && next.context == db.context && next.payloads == db.payloads
    requires JournalOk(cfg, db) && PayloadsOk(cfg, db)
    ensures JournalOk(cfg, next) && PayloadsOk(cfg, next)
  {
    hide Intact, Replay, Commits, OutputOk, ContextOf;
  }

  lemma ClaimRowScans(cfg: Config, db: Database, w: WriteRequest, next: Database, row: Row)
    requires Read(cfg, db).Some? && |db.operations| == 0 && |db.receipts| == 1 && db.receipts[0].record.PlanRecord?
    requires next.receipts == db.receipts && next.payloads == db.payloads
    requires w.content.kind.Claim? && w.content.operationId == w.content.requestId && w.content.expected == db.meta
    requires WorkflowStore.IsIdentifier(w.content.requestId)
    requires w.content.adapterKey.Some? && ObserverFits(cfg, db.receipts[0].record.plan, w.content.adapterKey.value)
    requires w.content.payloadDigest.None? && w.content.status.None? && w.content.recordDigest.None?
        && w.content.evaluatorId.None?
    requires JournalHead(cfg.h, JournalOf(cfg, db)) == cfg.planHead
    requires (row, next.meta) == Operation(cfg, w.content, db.meta, JournalOf(cfg, db))
    requires RowBytes(cfg, row) <= MAX_OPERATION_BYTES
    ensures var s := ScanOf(cfg, db);
            ScanRow(cfg, next.receipts[0].record.plan, next, s, row, 0) ==
              Some(Scan(next.meta, Some(w.content.requestId), w.content.adapterKey,
                s.commits + [Commit(w.content.operationId, RequestDigest(cfg, w.content), db.meta,
                  StoredCase(JournalOf(cfg, db), next.meta, Retained(db, AssertionRole), Retained(db, InputRole),
                             None, Some(w.content.requestId)))]))
  {
    hide ObserverFits, RequestDigest, WorkflowStore.IsIdentifier, RowBytes, JournalHead, AuthorityDigest, Read,
      ScanRows;
    ReadShape(cfg, db);
    assert db.receipts[..1] == db.receipts;
  }

  /** Facts about the journal a writer produced by appending one record. */
  lemma AppendedJournal(cfg: Config, db: Database, record: Record)
    requires Read(cfg, db).Some? && |db.receipts| <= 2
    requires AppendRecord(cfg.h, cfg.codec.records, cfg.authority, JournalOf(cfg, db), record).Some?
    ensures var j := AppendRecord(cfg.h, cfg.codec.records, cfg.authority, JournalOf(cfg, db), record).value;
            var n := |db.receipts|;
            && |j.receipts| == n + 1 && j.receipts[..n] == db.receipts && j.receipts[n].record == record
            && j.authorityDigest == JournalOf(cfg, db).authorityDigest
            && JournalHead(cfg.h, j) == j.receipts[n].digest
            && Intact(cfg.h, cfg.codec.records, j)
            && Replay(cfg.h, cfg.codec.records, cfg.authority, j).Some?
            && ReceiptBytes(cfg.codec.records, j.receipts[n]) <= MAX_RECEIPT
  {
    hide Read, Intact, Replay, ReceiptPreimage, AuthorityDigest;
    assert ValidRecord(cfg.codec.records, record);
  }

  lemma GrownJournalOk(cfg: Config, db: Database, j: Journal, next: Database)
    requires JournalOk(cfg, db) && next.context == db.context && next.receipts == j.receipts
    requires j.authorityDigest == JournalOf(cfg, db).authorityDigest
    requires db.receipts <= j.receipts
    requires Intact(cfg.h, cfg.codec.records, j) && Replay(cfg.h, cfg.codec.records, cfg.authority, j).Some?
    ensures JournalOk(cfg, next) && JournalOf(cfg, next) == j
  {
    hide Intact, Replay, AuthorityDigest, RecordDigest;
  }

  /** Closure of a finish. */
  lemma FinishReads(
    cfg: Config, db: Database, requestId: string, operationId: string, m: Measurement, w: WriteRequest, c: Commit,
    next: Database)
    requires Compact(cfg.codec) && WroteAs(cfg, db, w, c, next)
    requires PrepareFinish(cfg, Read(cfg, db).value, requestId, operationId, w.content.expected, m) == Done(w)
    ensures Read(cfg, next) == Some(View(c.result, Read(cfg, db).value.commits + [c], Read(cfg, db).value.claimed))
    ensures next.context == db.context && db.receipts <= next.receipts
    ensures |next.operations| == |db.operations| + 1 && next.operations[..|db.operations|] == db.operations
  {
    hide Read, Admitted, JournalOk, PayloadsOk, RequestDigest, WorkflowStore.IsIdentifier, ScanRow, Operation,
      ScanRows, AppendRecord, ObservedId, RecordDigest, OutputOk, ObserverFits, JournalHead;
    ReadShape(cfg, db);
    var record := w.record.value;
    AppendedJournal(cfg, db, record);
    var j := AppendRecord(cfg.h, cfg.codec.records, cfg.authority, JournalOf(cfg, db), record).value;
    SnocReceipts(db.receipts, j.receipts);
    var row := next.operations[|db.operations|];
    OperationShape(cfg, w.content, db.meta, j);
    WrittenAdmitted(cfg, db, next, row);
    GrownJournalOk(cfg, db, j, next);
    FinishPayloadsOk(cfg, db, next, w);
    FinishRowScans(cfg, db, w, j, next, row);
    ReadGrown(cfg, db, next, row);
  }

  lemma SnocReceipts<T>(s: seq<T>, t: seq<T>)
    requires |t| == |s| + 1 && t[..|s|] == s
    ensures t == s + [t[|s|]] && s <= t
  {
  }

  lemma FinishPayloadsOk(cfg: Config, db: Database, next: Database, w: WriteRequest)
    requires |db.receipts| == 1 && db.receipts[0].record.PlanRecord? && PayloadsOk(cfg, db)
        && OutputRole !in db.payloads
    requires |next.receipts| == 2 && next.receipts[0] == db.receipts[0]
    requires w.record.Some? && w.record.value.ObservationRecord? && next.receipts[1].record == w.record.value
    requires var o := w.record.value.observation;
             if o.status.ObservedStatus?
             then w.output.Some? && o.artifactId.Some? && o.observedSha == Some(cfg.h(w.output.value))
               && OutputOk(cfg, w.output.value, |Retained(db, AssertionRole)| + |Retained(db, InputRole)|)
               && next.payloads == db.payloads[OutputRole := Payload(o.artifactId.value, cfg.h(w.output.value),
                                                                     w.output.value)]
             else next.payloads == db.payloads
    ensures PayloadsOk(cfg, next)
  {
  }

  lemma FinishRowScans(cfg: Config, db: Database, w: WriteRequest, j: Journal, next: Database, row: Row)
    requires Read(cfg, db).Some? && |db.operations| == 1 && |db.receipts| == 1 && db.receipts[0].record.PlanRecord?
    requires next.receipts == j.receipts && |j.receipts| == 2 && j.receipts[0] == db.receipts[0]
    requires j.authorityDigest == AuthorityDigest(cfg.h, cfg.codec.records, cfg.authority)
    requires Retained(next, AssertionRole) == Retained(db, AssertionRole)
    requires Retained(next, InputRole) == Retained(db, InputRole)
    requires w.record.Some? && w.record.value.ObservationRecord? && j.receipts[1].record == w.record.value
    requires JournalHead(cfg.h, j) == j.receipts[1].digest
    requires var o, c := w.record.value.observation, w.content;
             && c.kind.Finish? && c.expected == db.meta
             && WorkflowStore.IsIdentifier(c.operationId) && WorkflowStore.IsIdentifier(c.requestId)
             && ScanOf(cfg, db).pending == Some(c.requestId)
             && o.requestId == c.requestId && c.adapterKey.None? && c.evaluatorId.None?
             && c.recordDigest == Some(RecordDigest(cfg.h, cfg.codec.records, ObservationRecord(o)))
             && c.status == Some(o.status) && c.payloadDigest == o.observedSha
             && (o.status.ObservedStatus? ==>
                   OutputRole in next.payloads
                   && o.artifactId == Some(ObservedId(cfg, db.receipts[0].record.plan, o.requestId,
                                                             next.payloads[OutputRole].content)))
    requires (row, next.meta) == Operation(cfg, w.content, db.meta, j)
    requires RowBytes(cfg, row) <= MAX_OPERATION_BYTES
    ensures var s := ScanOf(cfg, db);
            ScanRow(cfg, next.receipts[0].record.plan, next, s, row, 1) ==
              Some(Scan(next.meta, None, s.claimed,
                s.commits + [Commit(w.content.operationId, RequestDigest(cfg, w.content), db.meta,
                  StoredCase(j, next.meta, Retained(db, AssertionRole), Retained(db, InputRole),
                             RetainedOutput(next), None))]))
  {
    hide RequestDigest, WorkflowStore.IsIdentifier, RowBytes, JournalHead, AuthorityDigest, Read, ScanRows,
      ObservedId, RecordDigest, Retained, RetainedOutput;
    assert next.receipts[..2] == j.receipts;
  }

  /** Closure of a verdict. */
  lemma VerdictReads(
    cfg: Config, db: Database, operationId: string, evaluatorId: string, w: WriteRequest, c: Commit, next: Database)
    requires Compact(cfg.codec) && WroteAs(cfg, db, w, c, next)
    requires PrepareVerdict(cfg, Read(cfg, db).value, operationId, evaluatorId, w.content.expected) == Done(w)
    ensures Read(cfg, next) == Some(View(c.result, Read(cfg, db).value.commits + [c], Read(cfg, db).value.claimed))
    ensures next.context == db.context && db.receipts <= next.receipts && next.payloads == db.payloads
    ensures |next.operations| == |db.operations| + 1 && next.operations[..|db.operations|] == db.operations
  {
    hide Read, Admitted, JournalOk, PayloadsOk, RequestDigest, WorkflowStore.IsIdentifier, ScanRow, Operation,
      ScanRows, AppendRecord, RecordDigest, ObserverFits, JournalHead;
    ReadShape(cfg, db);
    var record := w.record.value;
    AppendedJournal(cfg, db, record);
    var j := AppendRecord(cfg.h, cfg.codec.records, cfg.authority, JournalOf(cfg, db), record).value;
    SnocReceipts(db.receipts, j.receipts);
    var row := next.operations[|db.operations|];
    OperationShape(cfg, w.content, db.meta, j);
    WrittenAdmitted(cfg, db, next, row);
    GrownJournalOk(cfg, db, j, next);
    VerdictPayloadsOk(cfg, db, next);
    StoredRequestId(cfg, db);
    VerdictRowScans(cfg, db, w, j, next, row);
    ReadGrown(cfg, db, next, row);
  }

  lemma VerdictPayloadsOk(cfg: Config, db: Database, next: Database)
    requires |db.receipts| == 2 && db.receipts[0].record.PlanRecord? && PayloadsOk(cfg, db)
    requires |next.receipts| == 3 && db.receipts <= next.receipts && next.payloads == db.payloads
    ensures PayloadsOk(cfg, next)
  {
    hide Commits, OutputOk;
  }

  /** The stored observation answers a request with a valid identifier. */
  lemma StoredRequestId(cfg: Config, db: Database)
    requires Read(cfg, db).Some? && |db.operations| == 2
    ensures db.receipts[1].record.ObservationRecord?
    ensures WorkflowStore.IsIdentifier(db.receipts[1].record.observation.requestId)
  {
    hide WorkflowStore.IsIdentifier, Admitted, JournalOk, PayloadsOk, RecordDigest, ObservedId, Operation,
      RequestDigest, ClaimRowOk, VerdictRowOk, Retained, RetainedOutput;
    ReadShape(cfg, db);
    var plan := db.receipts[0].record.plan;
    var genesis := GenesisCheckpoint(cfg, db.context);
    ScanRowsShape(cfg, plan, db, db.operations[..1]);
    ScanRowShape(cfg, plan, db, ScanRows(cfg, plan, db, genesis, db.operations[..1]).value, db.operations[1], 1);
  }

  lemma VerdictRowScans(cfg: Config, db: Database, w: WriteRequest, j: Journal, next: Database, row: Row)
    requires Read(cfg, db).Some? && |db.operations| == 2 && |db.receipts| == 2 && db.receipts[0].record.PlanRecord?
    requires db.receipts[1].record.ObservationRecord?
    requires next.receipts == j.receipts && |j.receipts| == 3 && j.receipts[..2] == db.receipts
        && next.payloads == db.payloads
    requires j.authorityDigest == AuthorityDigest(cfg.h, cfg.codec.records, cfg.authority)
    requires w.record.Some? && w.record.value.VerdictRecord? && j.receipts[2].record == w.record.value
    requires JournalHead(cfg.h, j) == j.receipts[2].digest
    requires var v, c := w.record.value.verdict, w.content;
             && c.kind.GiveVerdict? && c.expected == db.meta
             && WorkflowStore.IsIdentifier(c.operationId) && WorkflowStore.IsIdentifier(c.requestId)
             && c.requestId == db.receipts[1].record.observation.requestId
             && c.adapterKey.None? && c.payloadDigest.None? && c.status.None?
             && c.recordDigest == Some(RecordDigest(cfg.h, cfg.codec.records, VerdictRecord(v)))
             && c.evaluatorId == Some(v.evaluatorId)
    requires ScanOf(cfg, db).pending.None?
    requires (row, next.meta) == Operation(cfg, w.content, db.meta, j)
    requires RowBytes(cfg, row) <= MAX_OPERATION_BYTES
    ensures var s := ScanOf(cfg, db);
            ScanRow(cfg, next.receipts[0].record.plan, next, s, row, 2) ==
              Some(Scan(next.meta, None, s.claimed,
                s.commits + [Commit(w.content.operationId, RequestDigest(cfg, w.content), db.meta,
                  StoredCase(j, next.meta, Retained(db, AssertionRole), Retained(db, InputRole),
                             RetainedOutput(db), None))]))
  {
    hide RequestDigest, WorkflowStore.IsIdentifier, RowBytes, JournalHead, AuthorityDigest, Read, ScanRows,
      RecordDigest, ClaimRowOk, FinishRowOk;
    assert next.receipts[..3] == j.receipts;
    assert next.receipts[1] == j.receipts[..2][1] == db.receipts[1];
  }

  // ----- Runs -----

  datatype Call =
    | ClaimCall(registry: seq<AdapterKey>, requestId: string, expected: Checkpoint)
    | FinishCall(requestId: string, operationId: string, expected: Checkpoint, m: Measurement)
    | VerdictCall(operationId: string, evaluatorId: string, expected: Checkpoint)

  function Prepare(cfg: Config, v: View, call: Call): Answer<WriteRequest> {
    match call
    case ClaimCall(registry, id, expected) => PrepareClaim(cfg, v, registry, id, expected)
    case FinishCall(id, op, expected, m) => PrepareFinish(cfg, v, id, op, expected, m)
    case VerdictCall(op, evaluator, expected) => PrepareVerdict(cfg, v, op, evaluator, expected)
  }

  /** Snapshot, prepare, write. */
  function Perform(cfg: Config, db: Database, call: Call): (Answer<Commit>, Database) {
    match Read(cfg, db)
    case None => (Invalid, db)
    case Some(v) =>
      match Prepare(cfg, v, call)
      case Conflict => (Conflict, db)
      case Invalid => (Invalid, db)
      case Done(w) => WriteAction(cfg, db, w)
  }

  /** Every call either changes nothing or adds exactly its commit. */
  lemma PerformEffect(cfg: Config, db: Database, call: Call)
    requires Compact(cfg.codec) && Read(cfg, db).Some?
    ensures var (a, next) := Perform(cfg, db, call);
            && Read(cfg, next).Some?
            && (if a.Done?
                then && Read(cfg, next).value.commits == Read(cfg, db).value.commits + [a.value]
                     && Read(cfg, next).value.snapshot == a.value.result
                     && db.operations < next.operations && db.receipts <= next.receipts && next.context == db.context
                     && FindCommit(Read(cfg, db).value.commits, a.value.operationId).None?
                else next == db)
  {
    hide Read, PrepareClaim, PrepareFinish, PrepareVerdict, WriteAction;
    var v := Read(cfg, db).value;
    var p := Prepare(cfg, v, call);
    if p.Done? {
      var w := p.value;
      PreparedExpected(cfg, v, call);
      var (a, next) := WriteAction(cfg, db, w);
      WriteOrNothing(cfg, db, w);
      if a.Done? {
        match call {
          case ClaimCall(registry, id, _) => ClaimReads(cfg, db, registry, id, w, a.value, next);
          case FinishCall(id, op, _, m) => FinishReads(cfg, db, id, op, m, w, a.value, next);
          case VerdictCall(op, evaluator, _) => VerdictReads(cfg, db, op, evaluator, w, a.value, next);
        }
        assert next.operations[..|db.operations|] == db.operations;
      }
    }
  }

  lemma PreparedExpected(cfg: Config, v: View, call: Call)
    requires Prepare(cfg, v, call).Done?
    ensures Prepare(cfg, v, call).value.content.expected == call.expected == v.snapshot.checkpoint
  {
    hide RecordDigest, ObservedId, OutputOk, Select, WorkflowStore.IsIdentifier, JournalHead;
  }

  lemma WriteOrNothing(cfg: Config, db: Database, w: WriteRequest)
    requires Read(cfg, db).Some?
    ensures var (a, next) := WriteAction(cfg, db, w);
            if a.Done? then FindCommit(Read(cfg, db).value.commits, a.value.operationId).None? else next == db
  {
    hide Read, Operation, RequestDigest, AppendRecord, MayWrite, FindCommit;
  }

  function Run(cfg: Config, db: Database, calls: seq<Call>): Database {
    if calls == [] then db
    else Perform(cfg, Run(cfg, db, calls[..|calls| - 1]), calls[|calls| - 1]).1
  }

  lemma {:induction false} RunGrows(cfg: Config, db: Database, calls: seq<Call>)
    requires Compact(cfg.codec) && Read(cfg, db).Some?
    ensures Read(cfg, Run(cfg, db, calls)).Some?
    ensures Read(cfg, db).value.commits <= Read(cfg, Run(cfg, db, calls)).value.commits
    ensures Run(cfg, db, calls) == db || db.operations < Run(cfg, db, calls).operations
    decreases |calls|
  {
    hide Read, Perform;
    if calls != [] {
      var init := calls[..|calls| - 1];
      RunGrows(cfg, db, init);
      PerformEffect(cfg, Run(cfg, db, init), calls[|calls| - 1]);
    }
  }

  lemma CreateReads(cfg: Config, journal: Journal, assertion: Bytes, input: Bytes)
    requires Compact(cfg.codec) && CreateStore(cfg, journal, assertion, input).Some?
    ensures Read(cfg, CreateStore(cfg, journal, assertion, input).value).Some?
    ensures Read(cfg, CreateStore(cfg, journal, assertion, input).value).value.commits == []
  {
    hide RecordDigest, AuthorityDigest, ReplayReceipts, ReceiptPreimage, JournalBytes;
    var db := CreateStore(cfg, journal, assertion, input).value;
    assert ReceiptAt(cfg.h, cfg.codec.records, journal, 0);
    assert JournalOf(cfg, db) == journal;
  }

  /** Every database reached from creation by any calls reads back. */
  lemma CaseClosure(cfg: Config, journal: Journal, assertion: Bytes, input: Bytes, calls: seq<Call>)
    requires Compact(cfg.codec) && CreateStore(cfg, journal, assertion, input).Some?
    ensures Read(cfg, Run(cfg, CreateStore(cfg, journal, assertion, input).value, calls)).Some?
  {
    hide Read, Run, CreateStore;
    CreateReads(cfg, journal, assertion, input);
    RunGrows(cfg, CreateStore(cfg, journal, assertion, input).value, calls);
  }

  lemma {:induction false} FindCommitStable(commits: seq<Commit>, later: seq<Commit>, id: string)
    requires commits <= later && FindCommit(commits, id).Some?
    ensures FindCommit(later, id) == FindCommit(commits, id)
  {
    if commits[0].operationId != id {
      assert commits[1..] <= later[1..];
      FindCommitStable(commits[1..], later[1..], id);
    }
  }

  lemma {:induction false} FindCommitLast(commits: seq<Commit>, c: Commit)
    requires FindCommit(commits, c.operationId).None?
    ensures FindCommit(commits + [c], c.operationId) == Some(c)
  {
    if commits != [] {
      assert (commits + [c])[1..] == commits[1..] + [c];
      FindCommitLast(commits[1..], c);
    }
  }

  /** Read-back: a returned commit is looked up, equal to what the writer returned,
      in every later state. */
  lemma CommitReadBack(cfg: Config, db: Database, call: Call, later: seq<Call>)
    requires Compact(cfg.codec) && Read(cfg, db).Some? && Perform(cfg, db, call).0.Done?
    ensures var (a, next) := Perform(cfg, db, call);
            LookupAction(cfg, Run(cfg, next, later), a.value.operationId, a.value.requestDigest) == Done(Some(a.value))
  {
    hide Read, Perform, Run, FindCommit;
    var (a, next) := Perform(cfg, db, call);
    PerformEffect(cfg, db, call);
    FindCommitLast(Read(cfg, db).value.commits, a.value);
    RunGrows(cfg, next, later);
    FindCommitStable(Read(cfg, next).value.commits, Read(cfg, Run(cfg, next, later)).value.commits,
                     a.value.operationId);
  }

  /** A write prepared from a snapshot that has since moved on writes nothing, so
      snapshot, prepare and write compose as if they were one step. */
  lemma StalePreparationWritesNothing(cfg: Config, db: Database, calls: seq<Call>, w: WriteRequest)
    requires Compact(cfg.codec) && Read(cfg, db).Some? && w.content.expected == db.meta
    requires Run(cfg, db, calls) != db
    ensures var later := Run(cfg, db, calls);
            WriteAction(cfg, later, w).1 == later && !WriteAction(cfg, later, w).0.Done?
  {
    hide Read, Run, Operation, RequestDigest, AppendRecord, MayWrite;
    RunGrows(cfg, db, calls);
    ReadShape(cfg, db);
    ReadShape(cfg, Run(cfg, db, calls));
  }

  /** The stored verdict is the one the retained bytes force. */
  lemma VerdictMatchesBytes(cfg: Config, db: Database)
    requires Read(cfg, db).Some? && |db.receipts| == 3
    ensures db.receipts[0].record.PlanRecord? && db.receipts[2].record.VerdictRecord?
    ensures var outcome := db.receipts[2].record.verdict.outcome;
            var plan := db.receipts[0].record.plan;
            && (outcome.Inconclusive? <==> OutputRole !in db.payloads)
            && (outcome.Supported?
                <==> OutputRole in db.payloads && cfg.h(db.payloads[OutputRole].content) == plan.predictionSha)
  {
    hide Admitted, ScanRows, RecordDigest, Holds, OutputOk, Intact, ReplayReceipts;
    ReadShape(cfg, db);
    var j := JournalOf(cfg, db);
    ReplayBacked(cfg.h, cfg.codec.records, cfg.authority, j.authorityDigest, j.receipts);
  }
}
