/** What every reachable workflow store guarantees: it can be read back under the
    same limits, its journal partitions the receipts, request IDs execute exactly
    once, and one checkpoint admits at most one successor.
 */
module WorkflowStoreSafety {
  import opened Wrappers
  import opened Hashing
  import opened Workflow
  import opened WorkflowStore

  // ----- Journal structure -----

  /** One entry is bound to exactly the receipts of its range. */
  predicate EntryBinds(cfg: Config, b: Bundle, e: Entry) {
    && e.previous.recordCount < e.result.recordCount <= |b.records|
    && e.result.recordCount - e.previous.recordCount <= cfg.limits.maxAppendRecords
    && e.requestDigest ==
         RequestDigest(cfg, e.requestId, e.previous,
                       Transitions(b.records[e.previous.recordCount..e.result.recordCount]))
    && e.previous.workflowHead == HeadAt(cfg, b, e.previous.recordCount)
    && e.previous.context == ContextDigest(cfg.h, cfg.codec.workflow, b)
    && e.result == Operation(cfg, e.requestId, e.requestDigest, e.previous, b, e.result.recordCount).1
  }

  /** Consecutive entries meet, from the genesis checkpoint to the final one. */
  predicate Chained(genesis: Checkpoint, entries: seq<Entry>, final: Checkpoint) {
    && (if entries == [] then final == genesis
        else entries[0].previous == genesis && entries[|entries| - 1].result == final)
    && forall i | 0 <= i < |entries| - 1 :: entries[i].result == entries[i + 1].previous
  }

  lemma {:induction false} RowsChain(cfg: Config, b: Bundle, initial: nat, rows: seq<OperationRow>)
    requires initial <= |b.records|
    requires ReadRows(cfg, b, GenesisCheckpoint(cfg, b, initial), rows).Some?
    ensures var genesis := GenesisCheckpoint(cfg, b, initial);
            var f := ReadRows(cfg, b, genesis, rows).value;
            && Chained(genesis, f.entries, f.at)
            && (forall e | e in f.entries :: EntryBinds(cfg, b, e))
            && f.at.workflowHead == HeadAt(cfg, b, f.at.recordCount)
            && f.at.context == ContextDigest(cfg.h, cfg.codec.workflow, b)
    decreases |rows|
  {
    hide ReadRow, Operation, HeadAt, ContextDigest, RequestDigest, EntryBinds;
    if rows != [] {
      var n := |rows| - 1;
      RowsChain(cfg, b, initial, rows[..n]);
      var f := ReadRows(cfg, b, GenesisCheckpoint(cfg, b, initial), rows[..n]).value;
      RowBinds(cfg, b, f.at, rows[n], n);
    }
  }

  lemma RowBinds(cfg: Config, b: Bundle, at: Checkpoint, row: OperationRow, sequence: nat)
    requires at.recordCount <= |b.records| && at.operationCount == sequence
    requires at.workflowHead == HeadAt(cfg, b, at.recordCount)
    requires at.context == ContextDigest(cfg.h, cfg.codec.workflow, b)
    requires ReadRow(cfg, b, at, row, sequence).Some?
    ensures var e := ReadRow(cfg, b, at, row, sequence).value;
            && EntryBinds(cfg, b, e) && e.previous == at
            && e.result.workflowHead == HeadAt(cfg, b, e.result.recordCount)
            && e.result.context == at.context
  {
    hide IsIdentifier, HeadAt, ContextDigest, RequestDigest;
  }

  /** A readable database holds a journal that partitions the receipts after the
      initial ones into contiguous nonempty ranges ending at the checkpoint. */
  lemma JournalPartitions(cfg: Config, db: Database)
    requires Read(cfg, db).Some?
    ensures var v := Read(cfg, db).value;
            && db.context.initialCount <= |v.bundle.records|
            && Chained(GenesisCheckpoint(cfg, v.bundle, db.context.initialCount), v.entries, v.checkpoint)
            && (forall e | e in v.entries :: EntryBinds(cfg, v.bundle, e))
            && v.checkpoint == db.meta && v.bundle == BundleOf(db)
            && v.checkpoint.recordCount == |v.bundle.records|
            && v.checkpoint.operationCount == |v.entries| == |db.operations|
            && v.checkpoint.workflowHead == HeadAt(cfg, v.bundle, |v.bundle.records|)
            && v.checkpoint.context == cfg.context == ContextDigest(cfg.h, cfg.codec.workflow, v.bundle)
  {
    hide Admitted, Intact, Authorize, ReadRows, EntryBinds, Chained, HeadAt, ContextDigest;
    RowsChain(cfg, BundleOf(db), db.context.initialCount, db.operations);
  }

  /** Record counts strictly increase along the journal, so no checkpoint is used twice. */
  lemma {:induction false} CountsIncrease(genesis: Checkpoint, entries: seq<Entry>, final: Checkpoint, i: nat, j: nat)
    requires Chained(genesis, entries, final) && i < j < |entries|
    requires forall e | e in entries :: e.previous.recordCount < e.result.recordCount
    ensures entries[i].result.recordCount <= entries[j].previous.recordCount
    decreases j
  {
    if i + 1 < j {
      CountsIncrease(genesis, entries, final, i, j - 1);
      assert entries[j - 1] in entries;
    }
  }

  // ----- Closure -----

  lemma {:induction false} ReceiptsBytesConcat(c: WorkflowCodec, x: seq<Receipt>, y: seq<Receipt>)
    ensures ReceiptsBytes(c, x + y) == ReceiptsBytes(c, x) + ReceiptsBytes(c, y)
    decreases |y|
  {
    if y == [] {
      assert x + y == x;
    } else {
      assert (x + y)[..|x + y| - 1] == x + y[..|y| - 1];
      ReceiptsBytesConcat(c, x, y[..|y| - 1]);
    }
  }

  /** Verified rows stay verified when the bundle grows behind them. */
  lemma {:induction false} ReadRowsFrame(
    cfg: Config, small: Bundle, big: Bundle, genesis: Checkpoint, rows: seq<OperationRow>)
    requires |small.records| <= |big.records| && Take(big, |small.records|) == small
    requires genesis.recordCount <= |small.records| && genesis.operationCount == 0
    requires ReadRows(cfg, small, genesis, rows).Some?
    ensures ReadRows(cfg, big, genesis, rows) == ReadRows(cfg, small, genesis, rows)
    decreases |rows|
  {
    hide ReadRow;
    if rows != [] {
      var n := |rows| - 1;
      ReadRowsFrame(cfg, small, big, genesis, rows[..n]);
      ReadRowFrame(cfg, small, big, ReadRows(cfg, small, genesis, rows[..n]).value.at, rows[n], n);
    }
  }

  lemma ReadRowFrame(cfg: Config, small: Bundle, big: Bundle, at: Checkpoint, row: OperationRow, sequence: nat)
    requires |small.records| <= |big.records| && Take(big, |small.records|) == small
    requires at.recordCount <= |small.records| && at.operationCount == sequence
    requires ReadRow(cfg, small, at, row, sequence).Some?
    ensures ReadRow(cfg, big, at, row, sequence) == ReadRow(cfg, small, at, row, sequence)
  {
    hide IsIdentifier, HeadAt, RequestDigest;
    var end := row.content.resultCount;
    assert big.records[at.recordCount..end] == small.records[at.recordCount..end];
    HeadFrame(cfg, small, big, end);
  }

  lemma HeadFrame(cfg: Config, small: Bundle, big: Bundle, n: nat)
    requires |small.records| <= |big.records| && Take(big, |small.records|) == small && n <= |small.records|
    ensures HeadAt(cfg, big, n) == HeadAt(cfg, small, n)
    ensures ContextDigest(cfg.h, cfg.codec.workflow, big) == ContextDigest(cfg.h, cfg.codec.workflow, small)
  {
    hide ContextDigest;
    SameContext(cfg.h, cfg.codec.workflow, big, small);
  }

  /** A new row written under the current checkpoint is accepted by the reader. */
  lemma NewRowReads(cfg: Config, b: Bundle, at: Checkpoint, id: string, ts: seq<Transition>, e: Bundle)
    requires IsIdentifier(id) && 1 <= |ts| <= cfg.limits.maxAppendRecords
    requires |cfg.codec.request(id, at, ts)| <= cfg.limits.maxRequestBytes
    requires at.recordCount == |b.records| && e == Extend(cfg.h, cfg.codec.workflow, b, ts)
    ensures |e.records| == |b.records| + |ts|
    ensures var digest := RequestDigest(cfg, id, at, ts);
            var (row, after) := Operation(cfg, id, digest, at, e, |e.records|);
            ReadRow(cfg, e, at, row, at.operationCount) == Some(WorkflowStore.Entry(id, digest, at, after))
  {
    hide IsIdentifier, HeadAt, RequestDigest, Extend;
    ExtendShape(cfg.h, cfg.codec.workflow, b, ts);
    assert Transitions(e.records[|b.records|..|e.records|]) == ts by {
      assert Transitions(e.records)[|b.records|..] == ts;
    }
  }

  /** The inputs under which one append transaction writes. */
  predicate Writes(cfg: Config, db: Database, id: string, ts: seq<Transition>, db': Database) {
    var r := Read(cfg, db);
    && r.Some?
    && IsIdentifier(id) && 1 <= |ts| <= cfg.limits.maxAppendRecords
    && |cfg.codec.request(id, r.value.checkpoint, ts)| <= cfg.limits.maxRequestBytes
    && |r.value.bundle.records| + |ts| <= cfg.limits.maxRecords
    && |r.value.entries| < cfg.limits.maxOperations
    && var e := Extend(cfg.h, cfg.codec.workflow, r.value.bundle, ts);
    && Append(cfg.h, cfg.codec.workflow, cfg.policy, r.value.bundle, ts) == Some(e)
    && |r.value.bundle.records| <= |e.records|
    && Store(cfg, db, r.value, id, RequestDigest(cfg, id, r.value.checkpoint, ts), e) == Some(db')
  }

  /** Closure of one step: what append writes, read accepts under the same limits,
      with the extended bundle and exactly one more journal entry. */
  lemma WriteReads(cfg: Config, db: Database, id: string, ts: seq<Transition>, db': Database)
    requires Writes(cfg, db, id, ts, db')
    ensures var v := Read(cfg, db).value;
            var digest := RequestDigest(cfg, id, v.checkpoint, ts);
            Read(cfg, db') ==
              Some(View(Extend(cfg.h, cfg.codec.workflow, v.bundle, ts), db'.meta,
                               v.entries + [WorkflowStore.Entry(id, digest, v.checkpoint, db'.meta)]))
  {
    hide Admitted, ContextOk, ReadRows, ReadRow, Extend, Append, RequestDigest, HeadAt, IsIdentifier;
    var v := Read(cfg, db).value;
    var w := cfg.codec.workflow;
    var e := Extend(cfg.h, w, v.bundle, ts);
    ExtendShape(cfg.h, w, v.bundle, ts);
    JournalPartitions(cfg, db);
    WrittenBundle(cfg, db, id, ts, db');
    WriteAdmitted(cfg, db, id, ts, db');
    WriteContextOk(cfg, db, id, ts, db');
    var genesis := GenesisCheckpoint(cfg, v.bundle, db.context.initialCount);
    HeadFrame(cfg, v.bundle, e, db.context.initialCount);
    ReadRowsFrame(cfg, v.bundle, e, genesis, db.operations);
    NewRowReads(cfg, v.bundle, v.checkpoint, id, ts, e);
    WriteFolds(cfg, e, genesis, db.operations, db'.operations[|db.operations|]);
  }

  lemma WriteFolds(cfg: Config, b: Bundle, genesis: Checkpoint, rows: seq<OperationRow>, row: OperationRow)
    requires genesis.recordCount <= |b.records| && genesis.operationCount == 0
    requires ReadRows(cfg, b, genesis, rows).Some?
    requires ReadRow(cfg, b, ReadRows(cfg, b, genesis, rows).value.at, row, |rows|).Some?
    ensures var f := ReadRows(cfg, b, genesis, rows).value;
            var entry := ReadRow(cfg, b, f.at, row, |rows|).value;
            ReadRows(cfg, b, genesis, rows + [row]) == Some(Fold(entry.result, f.entries + [entry]))
  {
    hide ReadRow;
    assert (rows + [row])[..|rows|] == rows;
  }

  lemma WrittenBundle(cfg: Config, db: Database, id: string, ts: seq<Transition>, db': Database)
    requires Writes(cfg, db, id, ts, db')
    ensures var v := Read(cfg, db).value;
            && v.bundle == BundleOf(db)
            && BundleOf(db') == Extend(cfg.h, cfg.codec.workflow, v.bundle, ts)
            && db'.context == db.context
            && |db'.operations| == |db.operations| + 1 && db'.operations[..|db.operations|] == db.operations
  {
    hide Admitted, ContextOk, ReadRows, Append, Extend, Operation, IsIdentifier;
    var v := Read(cfg, db).value;
    var e := Extend(cfg.h, cfg.codec.workflow, v.bundle, ts);
    ExtendShape(cfg.h, cfg.codec.workflow, v.bundle, ts);
    assert e.records == v.bundle.records + e.records[|v.bundle.records|..];
  }

  lemma WriteAdmitted(cfg: Config, db: Database, id: string, ts: seq<Transition>, db': Database)
    requires Writes(cfg, db, id, ts, db')
    ensures Admitted(cfg, db')
  {
    hide ContextOk, ReadRows, Append, Extend, Operation, IsIdentifier, RowBytes, BundleBytes;
    var v := Read(cfg, db).value;
    var e := Extend(cfg.h, cfg.codec.workflow, v.bundle, ts);
    var rows := e.records[|v.bundle.records|..];
    ExtendShape(cfg.h, cfg.codec.workflow, v.bundle, ts);
    ReceiptsBytesConcat(cfg.codec.workflow, db.receipts, rows);
    RowsBytesSnoc(cfg, db.operations, db'.operations[|db.operations|]);
  }

  lemma RowsBytesSnoc(cfg: Config, rows: seq<OperationRow>, row: OperationRow)
    ensures RowsBytes(cfg, rows + [row]) == RowsBytes(cfg, rows) + RowBytes(cfg, row)
  {
    assert (rows + [row])[..|rows|] == rows;
  }

  lemma WriteContextOk(cfg: Config, db: Database, id: string, ts: seq<Transition>, db': Database)
    requires Writes(cfg, db, id, ts, db')
    ensures ContextOk(cfg, db')
  {
    hide Admitted, ReadRows, Extend, Operation, IsIdentifier, Intact, Authorize, HeadAt, ContextDigest, BundleBytes,
      PolicyDigest;
    var v := Read(cfg, db).value;
    var e := Extend(cfg.h, cfg.codec.workflow, v.bundle, ts);
    WrittenBundle(cfg, db, id, ts, db');
    ExtendShape(cfg.h, cfg.codec.workflow, v.bundle, ts);
    HeadFrame(cfg, v.bundle, e, db.context.initialCount);
  }

  /** What one call does to a readable database: nothing, or one write that took
      the current checkpoint. */
  lemma AppendCallEffect(cfg: Config, db: Database, id: string, expected: Checkpoint, ts: seq<Transition>)
    requires Read(cfg, db).Some?
    ensures var (a, db') := AppendCall(cfg, db, id, expected, ts);
            var v := Read(cfg, db).value;
            if a.Done? && a.value.isNew
            then && expected == v.checkpoint && Writes(cfg, db, id, ts, db')
                 && Find(v.entries, id).None?
                 && a.value.commit == Commit(id, RequestDigest(cfg, id, expected, ts), expected,
                                             Extend(cfg.h, cfg.codec.workflow, v.bundle, ts), db'.meta)
            else db' == db
  {
    hide Read, RequestDigest, IsIdentifier, Store, Historical, Append, Extend;
    var v := Read(cfg, db).value;
    AppendAdmits(cfg.h, cfg.codec.workflow, cfg.policy, v.bundle, ts);
    ExtendShape(cfg.h, cfg.codec.workflow, v.bundle, ts);
    EntriesCount(cfg, db);
  }

  lemma EntriesCount(cfg: Config, db: Database)
    requires Read(cfg, db).Some?
    ensures Read(cfg, db).value.checkpoint.operationCount == |Read(cfg, db).value.entries|
  {
    JournalPartitions(cfg, db);
  }

  // ----- Runs -----

  datatype Request = Request(id: string, expected: Checkpoint, ts: seq<Transition>)

  /** The database after a sequence of append calls, accepted or not. */
  function Run(cfg: Config, db: Database, calls: seq<Request>): Database {
    if calls == [] then db
    else
      var last := calls[|calls| - 1];
      AppendCall(cfg, Run(cfg, db, calls[..|calls| - 1]), last.id, last.expected, last.ts).1
  }

  /** `later` holds everything `earlier` held, in place. */
  predicate Grows(earlier: View, later: View) {
    && earlier.entries <= later.entries
    && |earlier.bundle.records| <= |later.bundle.records|
    && Take(later.bundle, |earlier.bundle.records|) == earlier.bundle
  }

  lemma CreateReads(cfg: Config, initial: Bundle, expectedHead: Digest)
    requires CreateStore(cfg, initial, expectedHead).Some?
    ensures Read(cfg, CreateStore(cfg, initial, expectedHead).value)
         == Some(View(initial, GenesisCheckpoint(cfg, initial, |initial.records|), []))
  {
    hide Intact, BundleBytes, HeadAt, ReceiptsBytes, ContextDigest, Replay;
    var db := CreateStore(cfg, initial, expectedHead).value;
    assert BundleOf(db) == initial;
  }

  lemma {:induction false} RunGrows(cfg: Config, db: Database, calls: seq<Request>)
    requires Read(cfg, db).Some?
    ensures Read(cfg, Run(cfg, db, calls)).Some?
    ensures Grows(Read(cfg, db).value, Read(cfg, Run(cfg, db, calls)).value)
    ensures Run(cfg, db, calls).context == db.context
    decreases |calls|
  {
    hide Read, AppendCall, Extend;
    if calls == [] {
      assert Take(Read(cfg, db).value.bundle, |Read(cfg, db).value.bundle.records|) == Read(cfg, db).value.bundle;
    } else {
      var init := calls[..|calls| - 1];
      var last := calls[|calls| - 1];
      RunGrows(cfg, db, init);
      var mid := Run(cfg, db, init);
      CallGrows(cfg, mid, last.id, last.expected, last.ts);
      GrowsTransitive(Read(cfg, db).value, Read(cfg, mid).value, Read(cfg, Run(cfg, db, calls)).value);
    }
  }

  lemma CallGrows(cfg: Config, db: Database, id: string, expected: Checkpoint, ts: seq<Transition>)
    requires Read(cfg, db).Some?
    ensures var db' := AppendCall(cfg, db, id, expected, ts).1;
            Read(cfg, db').Some? && Grows(Read(cfg, db).value, Read(cfg, db').value) && db'.context == db.context
  {
    hide Read, AppendCall, Extend, Writes;
    var (a, db') := AppendCall(cfg, db, id, expected, ts);
    var v := Read(cfg, db).value;
    AppendCallEffect(cfg, db, id, expected, ts);
    if a.Done? && a.value.isNew {
      WriteReads(cfg, db, id, ts, db');
      WrittenBundle(cfg, db, id, ts, db');
      ExtendShape(cfg.h, cfg.codec.workflow, v.bundle, ts);
    } else {
      assert Take(v.bundle, |v.bundle.records|) == v.bundle;
    }
  }

  lemma GrowsTransitive(x: View, y: View, z: View)
    requires Grows(x, y) && Grows(y, z)
    ensures Grows(x, z)
  {
    assert z.bundle.records[..|y.bundle.records|][..|x.bundle.records|] == z.bundle.records[..|x.bundle.records|];
  }

  /** Store closure: every database reached from creation by any calls is read back
      under the same limits. */
  lemma StoreClosure(cfg: Config, initial: Bundle, expectedHead: Digest, calls: seq<Request>)
    requires CreateStore(cfg, initial, expectedHead).Some?
    ensures var db := Run(cfg, CreateStore(cfg, initial, expectedHead).value, calls);
            && Read(cfg, db).Some?
            && db.context.initialCount == |initial.records|
            && Take(Read(cfg, db).value.bundle, |initial.records|) == initial
  {
    hide Read, Run, CreateStore;
    CreateReads(cfg, initial, expectedHead);
    var db := CreateStore(cfg, initial, expectedHead).value;
    RunGrows(cfg, db, calls);
    assert db.context.initialCount == |initial.records| by { CreatedContext(cfg, initial, expectedHead); }
  }

  lemma CreatedContext(cfg: Config, initial: Bundle, expectedHead: Digest)
    requires CreateStore(cfg, initial, expectedHead).Some?
    ensures CreateStore(cfg, initial, expectedHead).value.context.initialCount == |initial.records|
  {
  }

  // ----- Commits are well formed -----

  /** What the commit constructor admits. */
  predicate ValidCommit(cfg: Config, c: Commit) {
    && c.checkpoint.context == ContextDigest(cfg.h, cfg.codec.workflow, c.bundle) == c.previous.context
    && c.checkpoint.recordCount == |c.bundle.records|
    && c.checkpoint.workflowHead == HeadAt(cfg, c.bundle, |c.bundle.records|)
    && c.checkpoint.operationCount == c.previous.operationCount + 1
    && c.previous.recordCount < c.checkpoint.recordCount <= c.previous.recordCount + 1_000
    && c.previous.workflowHead == HeadAt(cfg, c.bundle, c.previous.recordCount)
    && c.requestDigest ==
         RequestDigest(cfg, c.requestId, c.previous, Transitions(c.bundle.records[c.previous.recordCount..]))
    && c.checkpoint == Operation(cfg, c.requestId, c.requestDigest, c.previous, c.bundle, |c.bundle.records|).1
  }

  /** Rebuilding a past commit never fails: the prefix bundle is intact and
      authorized, and the commit constructor's own checks all hold. */
  lemma HistoricalNeverFails(cfg: Config, db: Database, e: Entry)
    requires ValidLimits(cfg.limits) && Read(cfg, db).Some? && e in Read(cfg, db).value.entries
    ensures e.result.recordCount <= |Read(cfg, db).value.bundle.records|
    ensures var c := Historical(Read(cfg, db).value.bundle, e);
            && ValidCommit(cfg, c)
            && Intact(cfg.h, cfg.codec.workflow, c.bundle)
            && Authorize(cfg.h, cfg.codec.workflow, cfg.policy, c.bundle, None).Ok?
  {
    hide Read, Intact, Authorize, HeadAt, ContextDigest, RequestDigest;
    var b := Read(cfg, db).value.bundle;
    JournalPartitions(cfg, db);
    assert EntryBinds(cfg, b, e);
    var n := e.result.recordCount;
    ReadableBundle(cfg, db);
    IntactPrefix(cfg.h, cfg.codec.workflow, b, n);
    AuthorizedPrefix(cfg.h, cfg.codec.workflow, cfg.policy, b, n);
    HeadFrame(cfg, Take(b, n), b, n);
    HeadFrame(cfg, Take(b, n), b, e.previous.recordCount);
    assert b.records[e.previous.recordCount..n] == Take(b, n).records[e.previous.recordCount..];
  }

  lemma ReadableBundle(cfg: Config, db: Database)
    requires Read(cfg, db).Some?
    ensures Intact(cfg.h, cfg.codec.workflow, Read(cfg, db).value.bundle)
    ensures Authorize(cfg.h, cfg.codec.workflow, cfg.policy, Read(cfg, db).value.bundle, None).Ok?
  {
    hide Admitted, Intact, Authorize, ReadRows;
  }

  /** A commit returned for a fresh write satisfies the constructor as well. */
  lemma NewCommitValid(cfg: Config, db: Database, id: string, expected: Checkpoint, ts: seq<Transition>)
    requires ValidLimits(cfg.limits) && Read(cfg, db).Some?
    requires AppendCall(cfg, db, id, expected, ts).0.Done?
    ensures ValidCommit(cfg, AppendCall(cfg, db, id, expected, ts).0.value.commit)
  {
    hide Read, AppendCall, Writes, ValidCommit, Extend;
    var (a, db') := AppendCall(cfg, db, id, expected, ts);
    AppendCallEffect(cfg, db, id, expected, ts);
    if a.value.isNew {
      WriteReads(cfg, db, id, ts, db');
      var v' := Read(cfg, db').value;
      var e := v'.entries[|v'.entries| - 1];
      HistoricalNeverFails(cfg, db', e);
      JournalPartitions(cfg, db');
      assert Take(v'.bundle, |v'.bundle.records|) == v'.bundle;
    } else {
      var e := FoundEntry(cfg, db, id, expected, ts);
      HistoricalNeverFails(cfg, db, e);
    }
  }

  lemma FoundEntry(cfg: Config, db: Database, id: string, expected: Checkpoint, ts: seq<Transition>) returns (e: Entry)
    requires Read(cfg, db).Some?
    requires var a := AppendCall(cfg, db, id, expected, ts).0; a.Done? && !a.value.isNew
    ensures var v := Read(cfg, db).value;
            && e in v.entries && e.requestId == id && e.requestDigest == RequestDigest(cfg, id, expected, ts)
            && Find(v.entries, id) == Some(e)
            && AppendCall(cfg, db, id, expected, ts).0.value.commit == Historical(v.bundle, e)
  {
    hide Read, RequestDigest, IsIdentifier, Store, Historical, Append, Find;
    e := Find(Read(cfg, db).value.entries, id).value;
  }

  // ----- Exactly once -----

  lemma {:induction false} FindStable(entries: seq<Entry>, later: seq<Entry>, id: string)
    requires entries <= later && Find(entries, id).Some?
    ensures Find(later, id) == Find(entries, id)
  {
    if entries[0].requestId != id {
      assert entries[1..] <= later[1..];
      FindStable(entries[1..], later[1..], id);
    }
  }

  lemma {:induction false} FindLast(entries: seq<Entry>, e: Entry)
    requires Find(entries, e.requestId).None?
    ensures Find(entries + [e], e.requestId) == Some(e)
  {
    if entries != [] {
      assert (entries + [e])[1..] == entries[1..] + [e];
      FindLast(entries[1..], e);
    }
  }

  /** A committed request's entry is found in every later database, and its commit
      is rebuilt unchanged. */
  lemma CommittedStays(cfg: Config, db: Database, call: Request, later: seq<Request>)
    requires Read(cfg, db).Some?
    requires var a := AppendCall(cfg, db, call.id, call.expected, call.ts).0; a.Done? && a.value.isNew
    ensures var (a, db1) := AppendCall(cfg, db, call.id, call.expected, call.ts);
            var v2 := Read(cfg, Run(cfg, db1, later));
            && v2.Some?
            && Find(v2.value.entries, call.id).Some?
            && var e := Find(v2.value.entries, call.id).value;
            && e.requestDigest == RequestDigest(cfg, call.id, call.expected, call.ts)
            && e.previous == call.expected
            && e.result.recordCount <= |v2.value.bundle.records|
            && Historical(v2.value.bundle, e) == a.value.commit
  {
    hide Read, AppendCall, Writes, Extend, RequestDigest, Find;
    var (a, db1) := AppendCall(cfg, db, call.id, call.expected, call.ts);
    var v := Read(cfg, db).value;
    AppendCallEffect(cfg, db, call.id, call.expected, call.ts);
    WriteReads(cfg, db, call.id, call.ts, db1);
    JournalPartitions(cfg, db1);
    var v1 := Read(cfg, db1).value;
    var e := WorkflowStore.Entry(call.id, RequestDigest(cfg, call.id, call.expected, call.ts), call.expected, db1.meta);
    FindLast(v.entries, e);
    RunGrows(cfg, db1, later);
    FindStable(v1.entries, Read(cfg, Run(cfg, db1, later)).value.entries, call.id);
  }

  /** Exactly once: after any later calls by anyone, re-issuing a committed request
      returns the original commit and changes nothing, and lookup agrees. */
  lemma ExactlyOnce(cfg: Config, db: Database, call: Request, later: seq<Request>)
    requires Read(cfg, db).Some?
    requires var a := AppendCall(cfg, db, call.id, call.expected, call.ts).0; a.Done? && a.value.isNew
    ensures var (a, db1) := AppendCall(cfg, db, call.id, call.expected, call.ts);
            var db2 := Run(cfg, db1, later);
            && AppendCall(cfg, db2, call.id, call.expected, call.ts) == (Done(Appended(a.value.commit, false)), db2)
            && LookupAction(cfg, db2, call.id, RequestDigest(cfg, call.id, call.expected, call.ts))
               == Done(Some(a.value.commit))
  {
    hide Read, Run, RequestDigest, IsIdentifier, Find, Historical, Store, Append;
    CommittedStays(cfg, db, call, later);
  }

  /** Where to look when a request ID seems to have been reused successfully. */
  function ReuseClash(cfg: Config, x: Request, y: Request): Finding {
    var p, q := cfg.codec.request(x.id, x.expected, x.ts), cfg.codec.request(y.id, y.expected, y.ts);
    if p != q && cfg.h(p) == cfg.h(q) then Found(Clash(p, q)) else NoClash
  }

  /** A request ID is bound to one input forever: any other checkpoint or batch under
      it is refused in every later database, or a collision is found. */
  lemma ReuseConflicts(cfg: Config, db: Database, call: Request, later: seq<Request>, other: Request)
    requires Lossless(cfg.codec) && Read(cfg, db).Some?
    requires var a := AppendCall(cfg, db, call.id, call.expected, call.ts).0; a.Done? && a.value.isNew
    requires other.id == call.id && other != call
    ensures var db2 := Run(cfg, AppendCall(cfg, db, call.id, call.expected, call.ts).1, later);
            var (b, db3) := AppendCall(cfg, db2, other.id, other.expected, other.ts);
            && db3 == db2
            && Genuine(cfg.h, ReuseClash(cfg, call, other))
            && (b.Done? ==> ReuseClash(cfg, call, other).Found?)
            && (Prepare(cfg, other.id, other.expected, other.ts).Done? && ReuseClash(cfg, call, other).NoClash? ==>
                b.Conflict?)
  {
    hide Read, Run, IsIdentifier, Find, Historical, Store, Append;
    CommittedStays(cfg, db, call, later);
  }

  /** Racing on one checkpoint: after one request committed from it, no other request
      ID ever writes from it again. */
  lemma RaceHasOneWinner(cfg: Config, db: Database, winner: Request, later: seq<Request>, loser: Request)
    requires Read(cfg, db).Some?
    requires var a := AppendCall(cfg, db, winner.id, winner.expected, winner.ts).0; a.Done? && a.value.isNew
    requires loser.expected == winner.expected
    ensures var db2 := Run(cfg, AppendCall(cfg, db, winner.id, winner.expected, winner.ts).1, later);
            var (b, db3) := AppendCall(cfg, db2, loser.id, loser.expected, loser.ts);
            db3 == db2 && !(b.Done? && b.value.isNew)
  {
    hide Read, AppendCall, Writes, Extend, Run;
    var db1 := AppendCall(cfg, db, winner.id, winner.expected, winner.ts).1;
    AppendCallEffect(cfg, db, winner.id, winner.expected, winner.ts);
    WriteReads(cfg, db, winner.id, winner.ts, db1);
    WrittenBundle(cfg, db, winner.id, winner.ts, db1);
    JournalPartitions(cfg, db);
    ExtendShape(cfg.h, cfg.codec.workflow, Read(cfg, db).value.bundle, winner.ts);
    RunGrows(cfg, db1, later);
    var db2 := Run(cfg, db1, later);
    JournalPartitions(cfg, db2);
    AppendCallEffect(cfg, db2, loser.id, loser.expected, loser.ts);
    assert |winner.ts| >= 1 by { WritesNonempty(cfg, db, winner.id, winner.ts, db1); }
  }

  lemma WritesNonempty(cfg: Config, db: Database, id: string, ts: seq<Transition>, db': Database)
    requires Writes(cfg, db, id, ts, db')
    ensures |ts| >= 1
  {
    hide Read, Extend, Append, Store;
  }

  /** No two journal entries of one readable database were written from one checkpoint. */
  lemma CheckpointsUsedOnce(cfg: Config, db: Database, i: nat, j: nat)
    requires Read(cfg, db).Some? && i < j < |Read(cfg, db).value.entries|
    ensures var entries := Read(cfg, db).value.entries;
            entries[i].previous != entries[j].previous
                && entries[i].previous.recordCount < entries[j].previous.recordCount
  {
    hide Read, RequestDigest, HeadAt;
    var v := Read(cfg, db).value;
    JournalPartitions(cfg, db);
    forall e | e in v.entries
      ensures e.previous.recordCount < e.result.recordCount
    {
      assert EntryBinds(cfg, v.bundle, e);
    }
    CountsIncrease(GenesisCheckpoint(cfg, v.bundle, db.context.initialCount), v.entries, v.checkpoint, i, j);
    assert v.entries[i] in v.entries;
  }
}
