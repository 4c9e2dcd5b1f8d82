/** Exactly what the workflow store reads and writes (workflow_storage.py): which
    databases a verified read accepts, row by row, what it returns from them, when a
    fresh request is written, and when a store can be created.
 */
module WorkflowStoreExact {
  import opened Wrappers
  import opened Hashing
  import opened Workflow
  import opened WorkflowStore
  import opened WorkflowStoreSafety

  // ----- Read -----

  /** The one row that can stand at place `i` for a journal entry over these receipts. */
  predicate RowBound(cfg: Config, b: Bundle, e: Entry, row: OperationRow, i: nat) {
    && e.result.recordCount <= |b.records|
    && row.requestId == row.content.requestId == e.requestId
    && row.content.sequence == i
    && row.content.requestDigest == e.requestDigest
    && row.content.expected == e.previous
    && row.content.resultCount == e.result.recordCount
    && row.content.resultHead == HeadAt(cfg, b, e.result.recordCount)
    && row.content.previousDigest == e.previous.operationHead
    && row.digest == cfg.h(cfg.codec.operation(row.content))
  }

  /** The entry is a lawful request over exactly its own receipts, and its result is the
      position after them. */
  predicate EntryLawful(cfg: Config, b: Bundle, e: Entry, row: OperationRow, i: nat) {
    && IsIdentifier(e.requestId)
    && e.previous.recordCount < e.result.recordCount <= |b.records|
    && e.result.recordCount - e.previous.recordCount <= cfg.limits.maxAppendRecords
    && var ts := Transitions(b.records[e.previous.recordCount..e.result.recordCount]);
    && e.requestDigest == cfg.h(cfg.codec.request(e.requestId, e.previous, ts))
    && |cfg.codec.request(e.requestId, e.previous, ts)| <= cfg.limits.maxRequestBytes
    && e.previous.operationCount == i
    && e.result.context == e.previous.context
    && e.result.workflowHead == HeadAt(cfg, b, e.result.recordCount)
    && e.result.operationCount == i + 1
    && e.result.operationHead == row.digest
  }

  predicate RowHolds(cfg: Config, b: Bundle, e: Entry, row: OperationRow, i: nat) {
    RowBound(cfg, b, e, row, i) && EntryLawful(cfg, b, e, row, i)
  }

  /** A journal of rows tells these entries, from the genesis checkpoint to `final`. */
  predicate JournalHolds(
    cfg: Config, b: Bundle, genesis: Checkpoint, entries: seq<Entry>, rows: seq<OperationRow>, final: Checkpoint)
  {
    && |entries| == |rows|
    && (forall i | 0 <= i < |rows| :: RowHolds(cfg, b, entries[i], rows[i], i))
    && Chained(genesis, entries, final)
  }

  lemma ReadRowExact(cfg: Config, b: Bundle, at: Checkpoint, row: OperationRow, i: nat, e: Entry)
    requires at.recordCount <= |b.records| && at.operationCount == i
    ensures ReadRow(cfg, b, at, row, i) == Some(e) <==> e.previous == at && RowHolds(cfg, b, e, row, i)
  {
    hide IsIdentifier, HeadAt;
  }

  lemma ChainedSnoc(genesis: Checkpoint, entries: seq<Entry>, final: Checkpoint)
    requires entries != []
    ensures var n := |entries| - 1;
            Chained(genesis, entries, final) <==>
              Chained(genesis, entries[..n], entries[n].previous) && entries[n].result == final
  {
    var n := |entries| - 1;
    var init := entries[..n];
    if Chained(genesis, init, entries[n].previous) && entries[n].result == final {
      forall i | 0 <= i < n
        ensures entries[i].result == entries[i + 1].previous
      {
        if i < n - 1 {
          assert init[i].result == init[i + 1].previous;
        }
      }
    }
  }

  lemma JournalSnoc(cfg: Config, b: Bundle, genesis: Checkpoint, entries: seq<Entry>, rows: seq<OperationRow>,
                    final: Checkpoint)
    requires rows != [] && |entries| == |rows|
    ensures var n := |rows| - 1;
            JournalHolds(cfg, b, genesis, entries, rows, final) <==>
              && JournalHolds(cfg, b, genesis, entries[..n], rows[..n], entries[n].previous)
              && RowHolds(cfg, b, entries[n], rows[n], n) && entries[n].result == final
  {
    hide RowHolds, Chained;
    ChainedSnoc(genesis, entries, final);
  }

  lemma JournalEmpty(cfg: Config, b: Bundle, genesis: Checkpoint, entries: seq<Entry>, final: Checkpoint)
    ensures JournalHolds(cfg, b, genesis, entries, [], final) <==> entries == [] && final == genesis
  {
    hide RowHolds;
  }

  /** The fold over the rows gives exactly the entries the rows tell. */
  lemma {:induction false} ReadRowsExact(cfg: Config, b: Bundle, genesis: Checkpoint, rows: seq<OperationRow>,
                                         entries: seq<Entry>, final: Checkpoint)
    requires genesis.recordCount <= |b.records| && genesis.operationCount == 0
    ensures ReadRows(cfg, b, genesis, rows) == Some(Fold(final, entries)) <==>
              JournalHolds(cfg, b, genesis, entries, rows, final)
    decreases |rows|
  {
    hide ReadRow, RowHolds, JournalHolds;
    if rows == [] {
      JournalEmpty(cfg, b, genesis, entries, final);
    } else if |entries| == |rows| {
      var n := |rows| - 1;
      JournalSnoc(cfg, b, genesis, entries, rows, final);
      ReadRowsExact(cfg, b, genesis, rows[..n], entries[..n], entries[n].previous);
      var r := ReadRows(cfg, b, genesis, rows[..n]);
      if r.Some? {
        ReadRowExact(cfg, b, r.value.at, rows[n], n, entries[n]);
      }
      assert entries == entries[..n] + [entries[n]];
    } else {
      JournalLength(cfg, b, genesis, entries, rows, final);
    }
  }

  lemma JournalLength(cfg: Config, b: Bundle, genesis: Checkpoint, entries: seq<Entry>, rows: seq<OperationRow>,
                      final: Checkpoint)
    ensures JournalHolds(cfg, b, genesis, entries, rows, final) ==> |entries| == |rows|
  {
    hide RowHolds, Chained;
  }

  /** Every limit of the store. */
  predicate LimitsHold(cfg: Config, db: Database) {
    && |db.receipts| <= cfg.limits.maxRecords
    && |db.operations| <= cfg.limits.maxOperations
    && (forall i | 0 <= i < |db.receipts| ::
          cfg.codec.workflow.receiptBytes(db.receipts[i]) <= cfg.limits.maxReceiptBytes)
    && (forall i | 0 <= i < |db.operations| ::
          |cfg.codec.operationDocument(db.operations[i].content, db.operations[i].digest)| <=
            cfg.limits.maxOperationBytes)
    && RowsBytes(cfg, db.operations) <= cfg.limits.maxOperationsBytes
    && |cfg.codec.context(db.context)| + ReceiptsBytes(cfg.codec.workflow, db.receipts) <= cfg.limits.maxBundleBytes
    && BundleBytes(cfg.codec.workflow, BundleOf(db)) <= cfg.limits.maxBundleBytes
    && |cfg.codec.checkpoint(db.meta)| <= 8192
  }

  /** The workflow is intact and authorized. */
  predicate BundleStands(cfg: Config, b: Bundle) {
    && Intact(cfg.h, cfg.codec.workflow, b)
    && Authorize(cfg.h, cfg.codec.workflow, cfg.policy, b, None).Ok?
  }

  /** The stored context is that of an intact, authorized workflow under the trusted policy,
      with the head its initial receipts ended at. */
  predicate Grounded(cfg: Config, db: Database) {
    var b, w := BundleOf(db), cfg.codec.workflow;
    && BundleStands(cfg, b)
    && db.context.context == cfg.context == ContextDigest(cfg.h, w, b)
    && db.context.authorityDigest == PolicyDigest(cfg.h, w, cfg.policy)
    && db.context.initialCount <= |db.receipts|
    && db.context.initialHead == HeadAt(cfg, b, db.context.initialCount)
  }

  /** The position before the first journal row. */
  function Opening(cfg: Config, db: Database): Checkpoint {
    var c := db.context;
    Checkpoint(c.context, c.initialCount, c.initialHead, 0,
               cfg.h(cfg.codec.genesis(c.context, c.initialCount, c.initialHead)))
  }

  lemma AdmissionExact(cfg: Config, db: Database)
    ensures Admitted(cfg, db) && ContextOk(cfg, db) <==> LimitsHold(cfg, db) && Grounded(cfg, db)
  {
    hide Intact, Authorize, HeadAt, ContextDigest, PolicyDigest, BundleBytes, ReceiptsBytes, RowsBytes;
    assert forall i | 0 <= i < |db.operations| ::
      RowBytes(cfg, db.operations[i]) ==
        |cfg.codec.operationDocument(db.operations[i].content, db.operations[i].digest)|;
  }

  /** A verified read accepts exactly the databases within the limits, over an authorized
      workflow, whose every journal row is the row its receipts and its predecessor force;
      and it returns exactly what they tell. */
  lemma ReadExact(cfg: Config, db: Database, v: View)
    ensures Read(cfg, db) == Some(v) <==>
      && LimitsHold(cfg, db) && Grounded(cfg, db)
      && v.bundle == BundleOf(db)
      && v.checkpoint == db.meta
      && db.meta.recordCount == |db.receipts| && db.meta.operationCount == |db.operations|
      && JournalHolds(cfg, v.bundle, Opening(cfg, db), v.entries, db.operations, v.checkpoint)
  {
    hide Admitted, LimitsHold, Intact, Authorize, ReadRows, JournalHolds, HeadAt, ContextDigest, PolicyDigest,
      BundleBytes;
    AdmissionExact(cfg, db);
    if Admitted(cfg, db) && ContextOk(cfg, db) {
      var b := BundleOf(db);
      ReadRowsExact(cfg, b, GenesisCheckpoint(cfg, b, db.context.initialCount), db.operations, v.entries, v.checkpoint);
    }
  }

  /** Nothing stored escapes verification: databases that read the same are the same. */
  lemma ReadInjective(cfg: Config, x: Database, y: Database)
    requires Read(cfg, x).Some? && Read(cfg, x) == Read(cfg, y)
    ensures x == y
  {
    hide LimitsHold, Read, RowHolds, BundleStands, HeadAt, ContextDigest, PolicyDigest, BundleBytes;
    var v := Read(cfg, x).value;
    ReadExact(cfg, x, v);
    ReadExact(cfg, y, v);
    forall i | 0 <= i < |x.operations|
      ensures x.operations[i] == y.operations[i]
    {
      RowForced(cfg, v.bundle, v.entries[i], x.operations[i], y.operations[i], i);
    }
    assert x.context.initialCount ==
      (if v.entries == [] then v.checkpoint else v.entries[0].previous).recordCount == y.context.initialCount;
  }

  lemma RowForced(cfg: Config, b: Bundle, e: Entry, row: OperationRow, row': OperationRow, i: nat)
    requires RowHolds(cfg, b, e, row, i) && RowHolds(cfg, b, e, row', i)
    ensures row == row'
  {
    hide EntryLawful, HeadAt;
  }

  /** One changed row is never accepted under the same entries: what identifies a row is
      fixed by the entry before it and the receipts of its own range. */
  lemma RowsExact(cfg: Config, db: Database, i: nat)
    requires Read(cfg, db).Some? && i < |db.operations|
    ensures var v := Read(cfg, db).value;
            && |v.entries| == |db.operations|
            && RowHolds(cfg, v.bundle, v.entries[i], db.operations[i], i)
            && (i > 0 ==> db.operations[i].content.previousDigest == db.operations[i - 1].digest)
  {
    hide LimitsHold, Grounded, Read, HeadAt, IsIdentifier;
    var v := Read(cfg, db).value;
    ReadExact(cfg, db, v);
    assert RowHolds(cfg, v.bundle, v.entries[i], db.operations[i], i);
    if i > 0 {
      assert RowHolds(cfg, v.bundle, v.entries[i - 1], db.operations[i - 1], i - 1);
      assert v.entries[i - 1].result == v.entries[i].previous;
    }
  }

  // ----- Append -----

  /** What a request must satisfy whatever the database holds. */
  predicate RequestFits(cfg: Config, id: string, expected: Checkpoint, ts: seq<Transition>) {
    && IsIdentifier(id)
    && 1 <= |ts| <= cfg.limits.maxAppendRecords
    && (forall i | 0 <= i < |ts| :: ValidTransition(ts[i]))
    && |cfg.codec.request(id, expected, ts)| <= cfg.limits.maxRequestBytes
  }

  /** The database with one operation added: its receipts, its journal row, and the
      position after both. */
  function Added(cfg: Config, db: Database, id: string, ts: seq<Transition>): Database {
    var e := Extend(cfg.h, cfg.codec.workflow, BundleOf(db), ts);
    var n := |e.records|;
    var content := OperationContent(
      |db.operations|, id, cfg.h(cfg.codec.request(id, db.meta, ts)), db.meta, n, HeadAt(cfg, e, n),
      db.meta.operationHead);
    var digest := cfg.h(cfg.codec.operation(content));
    Database(db.context, e.records, db.operations + [OperationRow(id, content, digest)],
             Checkpoint(db.meta.context, n, HeadAt(cfg, e, n), |db.operations| + 1, digest))
  }

  /** What of the limits is left to check once the database before the write meets them. */
  predicate NewWithin(cfg: Config, db: Database, rows: seq<Receipt>, row: OperationRow, after: Checkpoint, e: Bundle) {
    var w := cfg.codec.workflow;
    && BundleBytes(w, e) <= cfg.limits.maxBundleBytes
    && (forall i | 0 <= i < |rows| :: w.receiptBytes(rows[i]) <= cfg.limits.maxReceiptBytes)
    && |cfg.codec.context(db.context)| + ReceiptsBytes(w, db.receipts) + ReceiptsBytes(w, rows)
       <= cfg.limits.maxBundleBytes
    && RowBytes(cfg, row) <= cfg.limits.maxOperationBytes
    && RowsBytes(cfg, db.operations) + RowBytes(cfg, row) <= cfg.limits.maxOperationsBytes
    && |cfg.codec.checkpoint(after)| <= MAX_META_BYTES
  }

  lemma LimitsSplit(cfg: Config, db: Database, rows: seq<Receipt>, row: OperationRow, after: Checkpoint, e: Bundle)
    requires Admitted(cfg, db)
    requires |db.receipts| + |rows| <= cfg.limits.maxRecords && |db.operations| < cfg.limits.maxOperations
    ensures var db' := Database(db.context, db.receipts + rows, db.operations + [row], after);
            BundleOf(db') == e ==> (LimitsHold(cfg, db') <==> NewWithin(cfg, db, rows, row, after, e))
  {
    hide BundleBytes;
    ReceiptsBytesConcat(cfg.codec.workflow, db.receipts, rows);
    RowsBytesSnoc(cfg, db.operations, row);
    AppendedReceipts(cfg, db.receipts, rows);
    AppendedRows(cfg, db.operations, row);
    hide RowsBytes, ReceiptsBytes;
  }

  lemma AddedShape(cfg: Config, db: Database, id: string, ts: seq<Transition>)
    requires |db.operations| == db.meta.operationCount
    ensures var e := Extend(cfg.h, cfg.codec.workflow, BundleOf(db), ts);
            && |db.receipts| <= |e.records|
            && var (row, after) :=
                 Operation(cfg, id, RequestDigest(cfg, id, db.meta, ts), db.meta, e, |e.records|);
               Added(cfg, db, id, ts) ==
                 Database(db.context, db.receipts + e.records[|db.receipts|..], db.operations + [row], after)
    ensures BundleOf(Added(cfg, db, id, ts)) == Extend(cfg.h, cfg.codec.workflow, BundleOf(db), ts)
  {
    hide Extend, HeadAt;
    ExtendShape(cfg.h, cfg.codec.workflow, BundleOf(db), ts);
    var e := Extend(cfg.h, cfg.codec.workflow, BundleOf(db), ts);
    assert e.records == db.receipts + e.records[|db.receipts|..];
  }

  /** Storing under the limits is exactly adding the operation. */
  lemma StoreExact(cfg: Config, db: Database, v: View, id: string, ts: seq<Transition>, e: Bundle)
    requires Admitted(cfg, db) && v.bundle == BundleOf(db) && v.checkpoint == db.meta
    requires |db.operations| == db.meta.operationCount
    requires e == Extend(cfg.h, cfg.codec.workflow, BundleOf(db), ts)
    requires |db.receipts| + |ts| <= cfg.limits.maxRecords && |db.operations| < cfg.limits.maxOperations
    ensures |v.bundle.records| <= |e.records|
    ensures Store(cfg, db, v, id, RequestDigest(cfg, id, db.meta, ts), e) ==
            if LimitsHold(cfg, Added(cfg, db, id, ts)) then Some(Added(cfg, db, id, ts)) else None
  {
    hide Admitted, Extend, BundleBytes, Added, LimitsHold, Operation, RequestDigest, RowBytes, RowsBytes,
      ReceiptsBytes, Transitions, ContextDigest;
    ExtendShape(cfg.h, cfg.codec.workflow, BundleOf(db), ts);
    AddedShape(cfg, db, id, ts);
    var rows := e.records[|db.receipts|..];
    var (row, after) := Operation(cfg, id, RequestDigest(cfg, id, db.meta, ts), db.meta, e, |e.records|);
    LimitsSplit(cfg, db, rows, row, after, e);
  }

  lemma AppendedReceipts(cfg: Config, x: seq<Receipt>, y: seq<Receipt>)
    ensures (forall i | 0 <= i < |x + y| :: cfg.codec.workflow.receiptBytes((x + y)[i]) <= cfg.limits.maxReceiptBytes)
       <==> && (forall i | 0 <= i < |x| :: cfg.codec.workflow.receiptBytes(x[i]) <= cfg.limits.maxReceiptBytes)
            && (forall i | 0 <= i < |y| :: cfg.codec.workflow.receiptBytes(y[i]) <= cfg.limits.maxReceiptBytes)
  {
    assert forall i | 0 <= i < |x| :: (x + y)[i] == x[i];
    assert forall i | 0 <= i < |y| :: (x + y)[|x| + i] == y[i];
  }

  lemma AppendedRows(cfg: Config, rows: seq<OperationRow>, row: OperationRow)
    ensures (forall i | 0 <= i < |rows + [row]| :: RowBytes(cfg, (rows + [row])[i]) <= cfg.limits.maxOperationBytes)
       <==> && (forall i | 0 <= i < |rows| :: RowBytes(cfg, rows[i]) <= cfg.limits.maxOperationBytes)
            && RowBytes(cfg, row) <= cfg.limits.maxOperationBytes
  {
    hide RowBytes;
    assert (rows + [row])[|rows|] == row;
    assert forall i | 0 <= i < |rows| :: (rows + [row])[i] == rows[i];
  }

  /** A fresh request is written exactly when it is well formed, names the current
      checkpoint, extends the workflow to an intact and authorized one, and the database
      after it is within every limit; and then the database is that one. */
  lemma FreshWriteExact(cfg: Config, db: Database, id: string, expected: Checkpoint, ts: seq<Transition>)
    requires Read(cfg, db).Some? && Find(Read(cfg, db).value.entries, id).None?
    ensures var (a, db') := AppendCall(cfg, db, id, expected, ts);
            && (a.Done? <==>
                 && RequestFits(cfg, id, expected, ts)
                 && expected == db.meta
                 && BundleStands(cfg, Extend(cfg.h, cfg.codec.workflow, BundleOf(db), ts))
                 && LimitsHold(cfg, Added(cfg, db, id, ts)))
            && (a.Done? ==> a.value.isNew && db' == Added(cfg, db, id, ts))
            && (a.Conflict? <==> (IsIdentifier(id) && (expected.context != cfg.context ||
                 (RequestFits(cfg, id, expected, ts) && expected != db.meta))))
            && (!a.Done? ==> db' == db)
  {
    hide Read, IsIdentifier, AppendAction, Prepare, Extend, LimitsHold, Added, BundleStands, Find, ValidTransition;
    PreparedExact(cfg, id, expected, ts);
    FreshAction(cfg, db, id, expected, ts);
    ReadableFacts(cfg, db);
  }

  lemma ReadableFacts(cfg: Config, db: Database)
    requires Read(cfg, db).Some?
    ensures var v := Read(cfg, db).value;
            && v.bundle == BundleOf(db) && v.checkpoint == db.meta && |v.entries| == |db.operations|
            && |db.operations| == db.meta.operationCount && db.meta.context == cfg.context
            && Admitted(cfg, db)
  {
    hide Admitted, ContextOk, Intact, Authorize, ReadRows, HeadAt, ContextDigest;
    JournalPartitions(cfg, db);
  }

  /** The transaction on a fresh, prepared request. */
  lemma FreshAction(cfg: Config, db: Database, id: string, expected: Checkpoint, ts: seq<Transition>)
    requires Read(cfg, db).Some? && Find(Read(cfg, db).value.entries, id).None?
    ensures var (a, db') := AppendAction(cfg, db, id, expected, ts, RequestDigest(cfg, id, expected, ts));
            && (a.Done? <==>
                 && expected == db.meta
                 && BundleStands(cfg, Extend(cfg.h, cfg.codec.workflow, BundleOf(db), ts))
                 && LimitsHold(cfg, Added(cfg, db, id, ts)))
            && (a.Done? ==> a.value.isNew && db' == Added(cfg, db, id, ts))
            && (a.Conflict? <==> expected != db.meta)
            && (!a.Done? ==> db' == db)
  {
    hide Read, Store, Append, Extend, LimitsHold, Added, Admitted, RequestDigest, Intact, Authorize, Find, Historical;
    ReadableFacts(cfg, db);
    AppendAdmits(cfg.h, cfg.codec.workflow, cfg.policy, BundleOf(db), ts);
    ExtendShape(cfg.h, cfg.codec.workflow, BundleOf(db), ts);
    if |db.receipts| + |ts| <= cfg.limits.maxRecords && |db.operations| < cfg.limits.maxOperations {
      StoreExact(cfg, db, Read(cfg, db).value, id, ts, Extend(cfg.h, cfg.codec.workflow, BundleOf(db), ts));
    } else {
      LimitsCount(cfg, db, id, ts);
    }
  }

  lemma LimitsCount(cfg: Config, db: Database, id: string, ts: seq<Transition>)
    ensures LimitsHold(cfg, Added(cfg, db, id, ts)) ==>
      |db.receipts| + |ts| <= cfg.limits.maxRecords && |db.operations| < cfg.limits.maxOperations
  {
    hide Extend, HeadAt, BundleBytes, ReceiptsBytes, RowsBytes;
    ExtendShape(cfg.h, cfg.codec.workflow, BundleOf(db), ts);
  }

  /** Admission before any storage access. */
  lemma PreparedExact(cfg: Config, id: string, expected: Checkpoint, ts: seq<Transition>)
    ensures var p := Prepare(cfg, id, expected, ts);
            && (p.Done? <==> expected.context == cfg.context && RequestFits(cfg, id, expected, ts))
            && (p.Done? ==> p.value == RequestDigest(cfg, id, expected, ts))
            && (p.Conflict? <==> IsIdentifier(id) && expected.context != cfg.context)
  {
    hide IsIdentifier, ValidTransition, RequestDigest;
  }

  // ----- Create -----

  /** A store is created exactly when the database of the initial bundle with an empty
      journal would be readable, and the bundle ends at the head the caller expects. */
  lemma CreateExact(cfg: Config, initial: Bundle, expectedHead: Digest)
    ensures var db := Database(DerivedContext(cfg, initial, |initial.records|), initial.records, [],
                               GenesisCheckpoint(cfg, initial, |initial.records|));
            CreateStore(cfg, initial, expectedHead) ==
              if Read(cfg, db).Some? && BundleHead(cfg.h, cfg.codec.workflow, initial) == expectedHead
              then Some(db) else None
  {
    hide Intact, BundleBytes, HeadAt, ReceiptsBytes, ContextDigest, Replay, PolicyDigest, BundleHead;
    var db := Database(DerivedContext(cfg, initial, |initial.records|), initial.records, [],
                       GenesisCheckpoint(cfg, initial, |initial.records|));
    assert BundleOf(db) == initial;
  }
}
