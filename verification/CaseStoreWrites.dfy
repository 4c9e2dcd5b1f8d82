/** Exactly what a claim, a finish and a verdict store (case_storage.py), when each is
    accepted, and what a case therefore says from claim to verdict.
 */
module CaseStoreWrites {
  import opened Wrappers
  import opened Hashing
  import opened EpistemicCase
  import opened CaseStore
  import opened CaseStoreSafety
  import E = CaseStoreExact
  import WorkflowStore

  // ----- The database after a write -----

  /** The database with one operation added over the receipts it leaves. */
  function Added(cfg: Config, db: Database, content: RequestContent, receipts: seq<Receipt>,
                 payloads: map<PayloadRole, Payload>): Database
    requires receipts != []
  {
    var n, head := |db.operations|, receipts[|receipts| - 1].digest;
    var document := OperationDocument(
      n, content, cfg.h(cfg.codec.request(content)), |receipts|, head, db.meta.operationHead);
    var digest := cfg.h(cfg.codec.operation(document));
    Database(db.context, receipts, payloads, db.operations + [Row(content.operationId, document, digest)],
             Checkpoint(db.meta.context, |receipts|, head, n + 1, digest, n + 1))
  }

  /** The next receipt of a chain, for a record. */
  function Chained(cfg: Config, receipts: seq<Receipt>, record: Record): seq<Receipt>
    requires 0 < |receipts| < MAX_RECORDS
  {
    var n, previous := |receipts|, receipts[|receipts| - 1].digest;
    receipts + [Receipt(n, previous, record, cfg.h(ReceiptPreimage(cfg.codec.records, n, previous, record)))]
  }

  function AfterClaim(cfg: Config, db: Database, key: AdapterKey, requestId: string): Database
    requires db.receipts != []
  {
    Added(cfg, db, RequestContent(Claim, requestId, requestId, db.meta, Some(key), None, None, None, None),
          db.receipts, db.payloads)
  }

  /** The observation that records a measurement: its status, its error, and the hash and
      identity of exactly its output, for the claimed observer. */
  function ObservationOf(cfg: Config, plan: Plan, observerId: string, requestId: string, m: Measurement): Observation {
    Observation(RecordDigest(cfg.h, cfg.codec.records, PlanRecord(plan)), requestId, observerId, m.status,
                plan.inputSha,
                if m.output.Some? then Some(cfg.h(m.output.value)) else None,
                if m.output.Some? then Some(ObservedId(cfg, plan, requestId, m.output.value)) else None,
                m.errorCode)
  }

  function AfterFinish(cfg: Config, db: Database, observerId: string, requestId: string, operationId: string,
                       m: Measurement): Database
    requires 0 < |db.receipts| < MAX_RECORDS && db.receipts[0].record.PlanRecord?
  {
    var o := ObservationOf(cfg, db.receipts[0].record.plan, observerId, requestId, m);
    Added(cfg, db,
          RequestContent(Finish, operationId, requestId, db.meta, None, o.observedSha, Some(m.status),
                         Some(RecordDigest(cfg.h, cfg.codec.records, ObservationRecord(o))), None),
          Chained(cfg, db.receipts, ObservationRecord(o)),
          if m.output.None? then db.payloads
          else db.payloads[OutputRole := Payload(o.artifactId.value, cfg.h(m.output.value), m.output.value)])
  }

  /** The verdict on the retained output. */
  function VerdictOf(cfg: Config, db: Database, evaluatorId: string): Verdict
    requires |db.receipts| >= 2
    requires db.receipts[0].record.PlanRecord? && db.receipts[1].record.ObservationRecord?
  {
    var plan := db.receipts[0].record.plan;
    Verdict(RecordDigest(cfg.h, cfg.codec.records, db.receipts[0].record),
            RecordDigest(cfg.h, cfg.codec.records, db.receipts[1].record),
            evaluatorId,
            match RetainedOutput(db)
            case None => Inconclusive
            case Some(output) => if cfg.h(output) == plan.predictionSha then Supported else Refuted)
  }

  function AfterVerdict(cfg: Config, db: Database, operationId: string, evaluatorId: string): Database
    requires 2 <= |db.receipts| < MAX_RECORDS
    requires db.receipts[0].record.PlanRecord? && db.receipts[1].record.ObservationRecord?
  {
    var v := VerdictOf(cfg, db, evaluatorId);
    Added(cfg, db,
          RequestContent(GiveVerdict, operationId, db.receipts[1].record.observation.requestId, db.meta, None, None,
                         None, Some(RecordDigest(cfg.h, cfg.codec.records, VerdictRecord(v))), Some(evaluatorId)),
          Chained(cfg, db.receipts, VerdictRecord(v)), db.payloads)
  }

  // ----- Facts about a readable database -----

  predicate Used(db: Database, operationId: string) {
    exists i | 0 <= i < |db.operations| :: db.operations[i].operationId == operationId
  }

  /** What a readable database and its view share. */
  predicate Seen(cfg: Config, db: Database, v: View) {
    var n := |db.operations|;
    && n <= 3 && |db.receipts| == E.RecordsAfter(n)
    && db.receipts[0].record.PlanRecord?
    && (n >= 2 ==> db.receipts[1].record.ObservationRecord?)
    && v.snapshot.journal == JournalOf(cfg, db)
    && v.snapshot.checkpoint == db.meta
    && db.meta.operationCount == db.meta.generation == n == |v.commits|
    && db.receipts[0].digest == cfg.planHead
    && (forall i | 0 <= i < n :: v.commits[i].operationId == db.operations[i].operationId)
    && v.snapshot.pending == (if n == 1 then Some(db.operations[0].operationId) else None)
    && v.claimed == (if n == 0 then None else db.operations[0].document.content.adapterKey)
    && (n >= 1 ==> v.claimed.Some? && ObserverFits(cfg, db.receipts[0].record.plan, v.claimed.value))
    && v.snapshot.observed == RetainedOutput(db)
    && (n <= 1 ==> OutputRole !in db.payloads)
    && |v.snapshot.assertion| + |v.snapshot.input| <= 65536 + 262144
    && Intact(cfg.h, cfg.codec.records, JournalOf(cfg, db))
    && Replay(cfg.h, cfg.codec.records, cfg.authority, JournalOf(cfg, db)).Some?
  }

  lemma ReadableSeen(cfg: Config, db: Database)
    requires Read(cfg, db).Some?
    ensures Seen(cfg, db, Read(cfg, db).value)
  {
    hide Read, E.LimitsHold, Intact, Replay, ObserverFits, ObservedId, RecordDigest, WorkflowStore.IsIdentifier, E.At,
      AuthorityDigest, E.IsVerdict;
    E.ReadExact(cfg, db);
    ReadShape(cfg, db);
    var n := |db.operations|;
    if n >= 2 {
      assert E.RowHolds(cfg, db, 1);
    }
  }

  /** A chained journal is one the store's append accepts. */
  predicate ChainAccepted(cfg: Config, db: Database, record: Record)
    requires 0 < |db.receipts| < MAX_RECORDS
  {
    var j := Journal(AuthorityDigest(cfg.h, cfg.codec.records, cfg.authority), Chained(cfg, db.receipts, record));
    && ValidRecord(cfg.codec.records, record)
    && Intact(cfg.h, cfg.codec.records, j)
    && Replay(cfg.h, cfg.codec.records, cfg.authority, j).Some?
  }

  lemma AppendExact(cfg: Config, db: Database, v: View, record: Record)
    requires Seen(cfg, db, v)
    ensures var r := AppendRecord(cfg.h, cfg.codec.records, cfg.authority, v.snapshot.journal, record);
            r == if ChainAccepted(cfg, db, record)
                 then Some(v.snapshot.journal.(receipts := Chained(cfg, db.receipts, record))) else None
  {
    hide Intact, Replay, AuthorityDigest, ReceiptPreimage, ValidRecord, ObserverFits;
  }

  /** A readable database after an append means the append was accepted. */
  lemma ReadableAccepts(cfg: Config, db: Database, record: Record, next: Database)
    requires 0 < |db.receipts| <= 2 && next.receipts == Chained(cfg, db.receipts, record) && Read(cfg, next).Some?
    ensures ChainAccepted(cfg, db, record)
  {
    hide Replay, AuthorityDigest, ReceiptPreimage, ValidRecord, E.LimitsHold, E.BytesKept, E.RowsHold, Read,
      JournalBytes;
    E.ReadExact(cfg, next);
    var j := Journal(AuthorityDigest(cfg.h, cfg.codec.records, cfg.authority), next.receipts);
    assert ReceiptAt(cfg.h, cfg.codec.records, j, |db.receipts|);
  }

  lemma ReadableRow(cfg: Config, next: Database)
    requires Read(cfg, next).Some? && next.operations != []
    ensures RowBytes(cfg, next.operations[|next.operations| - 1]) <= MAX_OPERATION_BYTES
  {
    hide Read, E.Grounded, E.BytesKept, E.RowsHold;
    E.ReadExact(cfg, next);
  }

  lemma UsedExact(cfg: Config, db: Database, v: View, id: string)
    requires Seen(cfg, db, v)
    ensures Used(db, id) <==> exists i | 0 <= i < |v.commits| :: v.commits[i].operationId == id
  {
    hide Intact, Replay, ObserverFits, AuthorityDigest;
  }

  // ----- Claim -----

  /** A claim is stored exactly when nothing has been stored, the snapshot is current, the
      registry selects an adapter for the plan and the row fits; and then it names that
      adapter and adds nothing else. */
  lemma ClaimExact(cfg: Config, db: Database, registry: seq<AdapterKey>, requestId: string, expected: Checkpoint)
    requires Compact(cfg.codec) && Read(cfg, db).Some?
    ensures db.receipts != [] && db.receipts[0].record.PlanRecord?
    ensures var (a, next) := Perform(cfg, db, ClaimCall(registry, requestId, expected));
            var key := Select(cfg, registry, db.receipts[0].record.plan);
            && (a.Done? <==>
                 && WorkflowStore.IsIdentifier(requestId) && expected == db.meta
                 && db.operations == []
                 && key.Some?
                 && Read(cfg, AfterClaim(cfg, db, key.value, requestId)).Some?)
            && (a.Done? ==> next == AfterClaim(cfg, db, key.value, requestId))
            && (a.Conflict? <==>
                 (WorkflowStore.IsIdentifier(requestId) && (expected != db.meta ||
                   (|db.operations| == 1 && key.Some?))))
            && (!a.Done? ==> next == db)
  {
    hide Read, Intact, Replay, ObserverFits, AuthorityDigest, Select, WorkflowStore.IsIdentifier, RetainedOutput;
    ReadableSeen(cfg, db);
    UsedExact(cfg, db, Read(cfg, db).value, requestId);
    PerformEffect(cfg, db, ClaimCall(registry, requestId, expected));
    var key := Select(cfg, registry, db.receipts[0].record.plan);
    if key.Some? {
      var after := AfterClaim(cfg, db, key.value, requestId);
      if Read(cfg, after).Some? {
        ReadableRow(cfg, after);
      }
    }
  }

  // ----- Finish -----

  /** What a callback may report: printable output and no error, or an error and no output. */
  predicate Reportable(cfg: Config, m: Measurement) {
    if m.status.ObservedStatus?
    then m.output.Some? && |m.output.value| <= 4096 && cfg.printable(m.output.value) && m.errorCode.None?
    else m.output.None? && m.errorCode.Some? && WorkflowStore.IsIdentifier(m.errorCode.value)
  }

  /** The request waits in the store as its only operation. */
  predicate Waiting(db: Database, requestId: string) {
    |db.operations| == 1 && db.operations[0].operationId == requestId
  }

  /** The request that `AfterFinish` stores. */
  function FinishRequest(cfg: Config, db: Database, observerId: string, requestId: string, operationId: string,
                         m: Measurement): WriteRequest
    requires 0 < |db.receipts| < MAX_RECORDS && db.receipts[0].record.PlanRecord?
  {
    var after := AfterFinish(cfg, db, observerId, requestId, operationId, m);
    WriteRequest(after.operations[|db.operations|].document.content, Some(after.receipts[|db.receipts|].record),
                 m.output)
  }

  lemma FinishPrepared(cfg: Config, db: Database, v: View, requestId: string, operationId: string,
                       expected: Checkpoint, m: Measurement)
    requires Seen(cfg, db, v)
    ensures var p := PrepareFinish(cfg, v, requestId, operationId, expected, m);
            && (p.Done? <==>
                 && WorkflowStore.IsIdentifier(requestId) && WorkflowStore.IsIdentifier(operationId)
                 && expected == db.meta && Waiting(db, requestId) && Reportable(cfg, m))
            && (p.Done? ==>
                 v.claimed.Some?
                 && p.value == FinishRequest(cfg, db, v.claimed.value.observerId, requestId, operationId, m))
            && (p.Conflict? <==>
                 (WorkflowStore.IsIdentifier(requestId) && WorkflowStore.IsIdentifier(operationId) &&
                   (expected != db.meta || !Waiting(db, requestId))))
  {
    hide Intact, Replay, ObserverFits, AuthorityDigest, WorkflowStore.IsIdentifier, RetainedOutput, ObservedId,
      RecordDigest, ReceiptPreimage;
  }

  /** Writing a record request over a readable database. */
  lemma RecordWritten(cfg: Config, db: Database, w: WriteRequest, after: Database)
    requires Read(cfg, db).Some? && Seen(cfg, db, Read(cfg, db).value)
    requires !w.content.kind.Claim? && w.content.expected == db.meta && MayWrite(Read(cfg, db).value, w)
    requires w.record.Some? && |db.receipts| <= 2
    requires w.output.Some? ==> w.record.value.ObservationRecord? && w.record.value.observation.artifactId.Some?
    requires after == Added(cfg, db, w.content, Chained(cfg, db.receipts, w.record.value),
                            if w.output.None? then db.payloads
                            else db.payloads[OutputRole := Payload(w.record.value.observation.artifactId.value,
                                                                   cfg.h(w.output.value), w.output.value)])
    ensures var (a, next) := WriteAction(cfg, db, w);
            && (a.Done? <==>
                 && !Used(db, w.content.operationId)
                 && ChainAccepted(cfg, db, w.record.value)
                 && RowBytes(cfg, after.operations[|db.operations|]) <= MAX_OPERATION_BYTES)
            && (a.Done? ==> next == after)
            && (a.Conflict? <==> Used(db, w.content.operationId))
  {
    hide Read, Intact, Replay, ObserverFits, AuthorityDigest, RetainedOutput, ObservedId, RecordDigest, RowBytes,
      ReceiptPreimage, ChainAccepted, AppendRecord, ValidRecord;
    var v := Read(cfg, db).value;
    AppendExact(cfg, db, v, w.record.value);
    UsedExact(cfg, db, v, w.content.operationId);
  }

  /** A finish is stored exactly when its claim waits, the snapshot is current, the report is
      admissible and the result is readable; and then the observation is the claimed
      observer's, with the reported status, error and hash, over exactly the output kept. */
  lemma FinishExact(cfg: Config, db: Database, requestId: string, operationId: string, expected: Checkpoint,
                    m: Measurement)
    requires Compact(cfg.codec) && Read(cfg, db).Some?
    ensures 0 < |db.receipts| <= 3 && db.receipts[0].record.PlanRecord?
    ensures var (a, next) := Perform(cfg, db, FinishCall(requestId, operationId, expected, m));
            var key := Read(cfg, db).value.claimed;
            && (a.Done? <==>
                 && WorkflowStore.IsIdentifier(requestId) && WorkflowStore.IsIdentifier(operationId)
                 && expected == db.meta && Waiting(db, requestId) && Reportable(cfg, m)
                 && operationId != requestId
                 && key.Some?
                 && Read(cfg, AfterFinish(cfg, db, key.value.observerId, requestId, operationId, m)).Some?)
            && (a.Done? ==> next == AfterFinish(cfg, db, key.value.observerId, requestId, operationId, m))
            && (a.Conflict? <==>
                 (WorkflowStore.IsIdentifier(requestId) && WorkflowStore.IsIdentifier(operationId) &&
                   (expected != db.meta || !Waiting(db, requestId) ||
                     (Reportable(cfg, m) && operationId == requestId))))
            && (!a.Done? ==> next == db)
  {
    hide Read, Intact, Replay, ObserverFits, AuthorityDigest, WorkflowStore.IsIdentifier, RetainedOutput, ObservedId,
      RecordDigest, ReceiptPreimage, PrepareFinish, WriteAction, ChainAccepted, Reportable, RowBytes;
    ReadableSeen(cfg, db);
    var v := Read(cfg, db).value;
    PerformEffect(cfg, db, FinishCall(requestId, operationId, expected, m));
    FinishPrepared(cfg, db, v, requestId, operationId, expected, m);
    if PrepareFinish(cfg, v, requestId, operationId, expected, m).Done? {
      var w := FinishRequest(cfg, db, v.claimed.value.observerId, requestId, operationId, m);
      var after := AfterFinish(cfg, db, v.claimed.value.observerId, requestId, operationId, m);
      RecordWritten(cfg, db, w, after);
      if Read(cfg, after).Some? {
        ReadableRow(cfg, after);
        ReadableAccepts(cfg, db, w.record.value, after);
      }
    }
  }

  // ----- Verdict -----

  function VerdictRequest(cfg: Config, db: Database, operationId: string, evaluatorId: string): WriteRequest
    requires 2 <= |db.receipts| < MAX_RECORDS
    requires db.receipts[0].record.PlanRecord? && db.receipts[1].record.ObservationRecord?
  {
    var after := AfterVerdict(cfg, db, operationId, evaluatorId);
    WriteRequest(after.operations[|db.operations|].document.content, Some(after.receipts[|db.receipts|].record), None)
  }

  lemma VerdictPrepared(cfg: Config, db: Database, v: View, operationId: string, evaluatorId: string,
                        expected: Checkpoint)
    requires Seen(cfg, db, v)
    ensures var p := PrepareVerdict(cfg, v, operationId, evaluatorId, expected);
            && (p.Done? <==>
                 && WorkflowStore.IsIdentifier(operationId) && WorkflowStore.IsIdentifier(evaluatorId)
                 && expected == db.meta && |db.operations| == 2)
            && (p.Done? ==> p.value == VerdictRequest(cfg, db, operationId, evaluatorId))
            && (p.Conflict? <==>
                 (WorkflowStore.IsIdentifier(operationId) && WorkflowStore.IsIdentifier(evaluatorId) &&
                   expected != db.meta))
  {
    hide Intact, Replay, ObserverFits, AuthorityDigest, WorkflowStore.IsIdentifier, RetainedOutput, RecordDigest,
      ReceiptPreimage;
  }

  /** A verdict is stored exactly when the observation is, the snapshot is current and the
      result is readable; and then it is the evaluator's, on the retained output. */
  lemma VerdictExact(cfg: Config, db: Database, operationId: string, evaluatorId: string, expected: Checkpoint)
    requires Compact(cfg.codec) && Read(cfg, db).Some?
    ensures var (a, next) := Perform(cfg, db, VerdictCall(operationId, evaluatorId, expected));
            && (a.Done? <==>
                 && WorkflowStore.IsIdentifier(operationId) && WorkflowStore.IsIdentifier(evaluatorId)
                 && expected == db.meta && |db.operations| == 2 && !Used(db, operationId)
                 && |db.receipts| == 2
                 && db.receipts[0].record.PlanRecord? && db.receipts[1].record.ObservationRecord?
                 && Read(cfg, AfterVerdict(cfg, db, operationId, evaluatorId)).Some?)
            && (a.Done? ==> next == AfterVerdict(cfg, db, operationId, evaluatorId))
            && (a.Conflict? <==>
                 (WorkflowStore.IsIdentifier(operationId) && WorkflowStore.IsIdentifier(evaluatorId) &&
                   (expected != db.meta || (|db.operations| == 2 && Used(db, operationId)))))
            && (!a.Done? ==> next == db)
  {
    hide Read, Intact, Replay, ObserverFits, AuthorityDigest, WorkflowStore.IsIdentifier, RetainedOutput,
      RecordDigest, ReceiptPreimage, PrepareVerdict, WriteAction, ChainAccepted, RowBytes, Used;
    ReadableSeen(cfg, db);
    var v := Read(cfg, db).value;
    PerformEffect(cfg, db, VerdictCall(operationId, evaluatorId, expected));
    VerdictPrepared(cfg, db, v, operationId, evaluatorId, expected);
    if PrepareVerdict(cfg, v, operationId, evaluatorId, expected).Done? {
      var w := VerdictRequest(cfg, db, operationId, evaluatorId);
      var after := AfterVerdict(cfg, db, operationId, evaluatorId);
      RecordWritten(cfg, db, w, after);
      if Read(cfg, after).Some? {
        ReadableRow(cfg, after);
        ReadableAccepts(cfg, db, w.record.value, after);
      }
    }
  }

  // ----- A whole case -----

  /** What a finish makes of a measurement: the commit returned keeps the output itself, and
      its second receipt is the claimed observer's observation of it. */
  lemma FinishRecords(cfg: Config, db: Database, requestId: string, operationId: string, expected: Checkpoint,
                      m: Measurement)
    requires Compact(cfg.codec) && Read(cfg, db).Some?
    requires Perform(cfg, db, FinishCall(requestId, operationId, expected, m)).0.Done?
    ensures var s := Perform(cfg, db, FinishCall(requestId, operationId, expected, m)).0.value.result;
            && s.observed == m.output && s.pending.None?
            && |s.journal.receipts| == 2
            && s.journal.receipts[0].record.PlanRecord? && s.journal.receipts[1].record.ObservationRecord?
            && var plan, o := s.journal.receipts[0].record.plan, s.journal.receipts[1].record.observation;
            && o.requestId == requestId
            && Read(cfg, db).value.claimed.Some? && o.observerId == Read(cfg, db).value.claimed.value.observerId
            && o.status == m.status && o.errorCode == m.errorCode
            && o.inputSha == plan.inputSha
            && (o.observedSha == if m.output.Some? then Some(cfg.h(m.output.value)) else None)
            && (o.artifactId.Some? <==> m.output.Some?)
            && (m.output.Some? <==> m.status.ObservedStatus?)
  {
    hide Read, Intact, Replay, ObserverFits, AuthorityDigest, WorkflowStore.IsIdentifier, ObservedId,
      RecordDigest, ReceiptPreimage, RowBytes, Perform;
    ReadableSeen(cfg, db);
    FinishExact(cfg, db, requestId, operationId, expected, m);
    PerformEffect(cfg, db, FinishCall(requestId, operationId, expected, m));
    ReadableSeen(cfg, Perform(cfg, db, FinishCall(requestId, operationId, expected, m)).1);
  }

  /** From claim to verdict: the tool the registry selected observes, what is recorded is what
      was measured, and the verdict is Supported exactly when the measured output hashes to the
      plan's prediction and Inconclusive exactly when there was none. */
  lemma CaseEndToEnd(cfg: Config, db: Database, registry: seq<AdapterKey>, requestId: string, finishId: string,
                     m: Measurement, verdictId: string, evaluatorId: string)
    requires Compact(cfg.codec) && Read(cfg, db).Some?
    requires var (a, claimed) := Perform(cfg, db, ClaimCall(registry, requestId, db.meta));
             var (b, finished) := Perform(cfg, claimed, FinishCall(requestId, finishId, claimed.meta, m));
             var (c, judged) := Perform(cfg, finished, VerdictCall(verdictId, evaluatorId, finished.meta));
             a.Done? && b.Done? && c.Done?
    ensures var claimed := Perform(cfg, db, ClaimCall(registry, requestId, db.meta)).1;
            var finished := Perform(cfg, claimed, FinishCall(requestId, finishId, claimed.meta, m)).1;
            var s := Perform(cfg, finished, VerdictCall(verdictId, evaluatorId, finished.meta)).0.value.result;
            && db.receipts != [] && db.receipts[0].record.PlanRecord?
            && var plan := db.receipts[0].record.plan;
            && |s.journal.receipts| == 3 && s.journal.receipts[0] == db.receipts[0]
            && s.journal.receipts[1].record.ObservationRecord? && s.journal.receipts[2].record.VerdictRecord?
            && var o, v := s.journal.receipts[1].record.observation, s.journal.receipts[2].record.verdict;
            && s.observed == m.output
            && o.status == m.status && o.errorCode == m.errorCode && o.requestId == requestId
            && Select(cfg, registry, plan).Some? && o.observerId == Select(cfg, registry, plan).value.observerId
            && v.evaluatorId == evaluatorId
            && (v.outcome.Supported? <==> m.output.Some? && cfg.h(m.output.value) == plan.predictionSha)
            && (v.outcome.Inconclusive? <==> m.output.None?)
  {
    hide Read, Intact, Replay, ObserverFits, AuthorityDigest, WorkflowStore.IsIdentifier, ObservedId,
      RecordDigest, ReceiptPreimage, RowBytes, Perform, Select, Used, Reportable;
    ReadableSeen(cfg, db);
    ClaimExact(cfg, db, registry, requestId, db.meta);
    PerformEffect(cfg, db, ClaimCall(registry, requestId, db.meta));
    var claimed := Perform(cfg, db, ClaimCall(registry, requestId, db.meta)).1;
    ReadableSeen(cfg, claimed);
    FinishExact(cfg, claimed, requestId, finishId, claimed.meta, m);
    PerformEffect(cfg, claimed, FinishCall(requestId, finishId, claimed.meta, m));
    var finished := Perform(cfg, claimed, FinishCall(requestId, finishId, claimed.meta, m)).1;
    FinishRecords(cfg, claimed, requestId, finishId, claimed.meta, m);
    ReadableSeen(cfg, finished);
    VerdictExact(cfg, finished, verdictId, evaluatorId, finished.meta);
    PerformEffect(cfg, finished, VerdictCall(verdictId, evaluatorId, finished.meta));
    var judged := Perform(cfg, finished, VerdictCall(verdictId, evaluatorId, finished.meta)).1;
    ReadableSeen(cfg, judged);
  }

  // ----- The observer of every reachable case -----

  /** The stored observation names the observer of the stored claim. */
  predicate ObserverKept(cfg: Config, db: Database) {
    |db.receipts| >= 2 && db.receipts[1].record.ObservationRecord? ==>
      && db.operations != [] && db.operations[0].document.content.adapterKey.Some?
      && db.receipts[1].record.observation.observerId ==
           db.operations[0].document.content.adapterKey.value.observerId
  }

  lemma CallKeepsObserver(cfg: Config, db: Database, call: Call)
    requires Compact(cfg.codec) && Read(cfg, db).Some? && ObserverKept(cfg, db)
    ensures ObserverKept(cfg, Perform(cfg, db, call).1)
  {
    hide Read, Intact, Replay, ObserverFits, AuthorityDigest, WorkflowStore.IsIdentifier, RetainedOutput, ObservedId,
      RecordDigest, ReceiptPreimage, RowBytes, Perform, Select, Used, Reportable;
    ReadableSeen(cfg, db);
    match call {
      case ClaimCall(registry, id, expected) => ClaimExact(cfg, db, registry, id, expected);
      case FinishCall(id, op, expected, m) => FinishExact(cfg, db, id, op, expected, m);
      case VerdictCall(op, evaluator, expected) => VerdictExact(cfg, db, op, evaluator, expected);
    }
  }

  /** Reading does not compare the two, but in every database reached from creation the
      observation is the one the claim's own adapter was to make. */
  lemma {:induction false} ObserverIsClaimed(cfg: Config, journal: Journal, assertion: Bytes, input: Bytes,
                                             calls: seq<Call>)
    requires Compact(cfg.codec) && CreateStore(cfg, journal, assertion, input).Some?
    ensures ObserverKept(cfg, Run(cfg, CreateStore(cfg, journal, assertion, input).value, calls))
    decreases |calls|
  {
    hide Read, Perform, CreateStore, ObserverKept;
    var db := CreateStore(cfg, journal, assertion, input).value;
    if calls == [] {
      CreatedObserver(cfg, journal, assertion, input);
    } else {
      var init := calls[..|calls| - 1];
      ObserverIsClaimed(cfg, journal, assertion, input, init);
      CaseClosure(cfg, journal, assertion, input, init);
      CallKeepsObserver(cfg, Run(cfg, db, init), calls[|calls| - 1]);
    }
  }

  lemma CreatedObserver(cfg: Config, journal: Journal, assertion: Bytes, input: Bytes)
    requires CreateStore(cfg, journal, assertion, input).Some?
    ensures ObserverKept(cfg, CreateStore(cfg, journal, assertion, input).value)
  {
    hide Replay, Intact;
  }

  // ----- Create -----

  /** The database of one plan and its two inputs, with an empty journal. */
  function Fresh(cfg: Config, journal: Journal, assertion: Bytes, input: Bytes): Database
    requires |journal.receipts| > 0 && journal.receipts[0].record.PlanRecord?
  {
    var plan, head := journal.receipts[0].record.plan, journal.receipts[0].digest;
    var context := ContextDocument(
      journal.authorityDigest, plan.caseId, head, RecordDigest(cfg.h, cfg.codec.records, PlanRecord(plan)),
      plan.assertionId, plan.inputId);
    var digest := cfg.h(cfg.codec.context(context));
    Database(context, journal.receipts,
             map[AssertionRole := Payload(plan.assertionId, plan.assertionSha, assertion),
                 InputRole := Payload(plan.inputId, plan.inputSha, input)],
             [], Checkpoint(digest, 1, head, 0, cfg.h(digest), 0))
  }

  /** A store is created exactly when that database would be readable. */
  lemma CreateExact(cfg: Config, journal: Journal, assertion: Bytes, input: Bytes)
    requires Compact(cfg.codec)
    ensures CreateStore(cfg, journal, assertion, input).Some? <==>
      && |journal.receipts| == 1 && journal.receipts[0].record.PlanRecord?
      && journal.authorityDigest == AuthorityDigest(cfg.h, cfg.codec.records, cfg.authority)
      && Read(cfg, Fresh(cfg, journal, assertion, input)).Some?
    ensures CreateStore(cfg, journal, assertion, input).Some? ==>
      CreateStore(cfg, journal, assertion, input).value == Fresh(cfg, journal, assertion, input)
  {
    hide Read, RecordDigest, AuthorityDigest, ReplayReceipts, Intact;
    if CreateStore(cfg, journal, assertion, input).Some? {
      CreateReads(cfg, journal, assertion, input);
    }
    if |journal.receipts| == 1 && journal.receipts[0].record.PlanRecord?
      && journal.authorityDigest == AuthorityDigest(cfg.h, cfg.codec.records, cfg.authority)
    {
      var db := Fresh(cfg, journal, assertion, input);
      assert Retained(db, AssertionRole) == assertion && Retained(db, InputRole) == input;
      E.ReadExact(cfg, db);
    }
  }
}
