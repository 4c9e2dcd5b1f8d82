/** Exactly what the case store reads and writes (case_storage.py): which databases a
    verified read accepts and what it makes of them, what each call stores, and what a
    case therefore says from claim to verdict.
 */
module CaseStoreExact {
  import opened Wrappers
  import opened Hashing
  import opened EpistemicCase
  import opened CaseStore
  import opened CaseStoreSafety
  import WorkflowStore

  // ----- Positions and rows -----

  /** The receipts that stand after `k` operations: the claim adds none. */
  function RecordsAfter(k: nat): nat {
    if k == 0 then 1 else k
  }

  /** The position of the store after `k` operations. */
  function At(cfg: Config, db: Database, k: nat): Checkpoint
    requires k <= |db.operations| && RecordsAfter(k) <= |db.receipts|
  {
    var context := cfg.h(cfg.codec.context(db.context));
    if k == 0 then Checkpoint(context, 1, db.context.planHead, 0, cfg.h(context), 0)
    else Checkpoint(context, k, db.receipts[k - 1].digest, k, db.operations[k - 1].digest, k)
  }

  /** What a row of any kind must be, at place `k`. */
  predicate RowBound(cfg: Config, db: Database, k: nat)
    requires k < |db.operations| && RecordsAfter(k) <= |db.receipts|
  {
    var row := db.operations[k];
    var d, c := row.document, row.document.content;
    && c.operationId == row.operationId
    && WorkflowStore.IsIdentifier(row.operationId) && WorkflowStore.IsIdentifier(c.requestId)
    && c.expected == At(cfg, db, k)
    && d.sequence == k
    && d.requestDigest == cfg.h(cfg.codec.request(c))
    && d.resultCount == k + 1 <= |db.receipts|
    && d.resultHead == db.receipts[k].digest
    && d.previousDigest == At(cfg, db, k).operationHead
    && row.digest == cfg.h(cfg.codec.operation(d))
    && |cfg.codec.operationRow(d, row.digest)| <= 8192
  }

  /** The adapter is the one the plan names, and its observer a tool of the authority that
      holds the scoped role and did not propose the plan. */
  predicate MayObserve(cfg: Config, plan: Plan, key: AdapterKey) {
    && key == AdapterKey(plan.testId, plan.adapterId, plan.adapterVersion, key.observerId)
    && key.observerId in cfg.authority.actors && key.observerId != plan.proposerId
    && cfg.authority.actors[key.observerId].kind == ToolActor
    && Grant(plan.scope, Observe) in cfg.authority.actors[key.observerId].grants
  }

  lemma ObserverExact(cfg: Config, plan: Plan, key: AdapterKey)
    ensures ObserverFits(cfg, plan, key) <==> MayObserve(cfg, plan, key)
  {
  }

  /** The first operation claims, for an adapter the plan names and an authorized tool. */
  predicate IsClaim(cfg: Config, db: Database, c: RequestContent)
    requires |db.receipts| > 0 && db.receipts[0].record.PlanRecord?
  {
    && c.adapterKey.Some?
    && MayObserve(cfg, db.receipts[0].record.plan, c.adapterKey.value)
    && c == RequestContent(Claim, c.operationId, c.operationId, c.expected, c.adapterKey, None, None, None, None)
  }

  /** The second finishes that claim with the stored observation. */
  predicate IsFinish(cfg: Config, db: Database, c: RequestContent)
    requires |db.receipts| > 0 && db.receipts[0].record.PlanRecord? && |db.operations| > 0
  {
    && |db.receipts| >= 2 && db.receipts[1].record.ObservationRecord?
    && var o := db.receipts[1].record.observation;
    && o.requestId == db.operations[0].operationId
    && c == RequestContent(Finish, c.operationId, o.requestId, c.expected, None, o.observedSha, Some(o.status),
                           Some(RecordDigest(cfg.h, cfg.codec.records, ObservationRecord(o))), None)
    && (o.status.ObservedStatus? ==>
          && OutputRole in db.payloads
          && o.artifactId == Some(ObservedId(cfg, db.receipts[0].record.plan, o.requestId,
                                             db.payloads[OutputRole].content)))
  }

  /** The third gives the stored verdict on it. */
  predicate IsVerdict(cfg: Config, db: Database, c: RequestContent) {
    && |db.receipts| >= 3 && db.receipts[1].record.ObservationRecord? && db.receipts[2].record.VerdictRecord?
    && var v := db.receipts[2].record.verdict;
    && c == RequestContent(GiveVerdict, c.operationId, db.receipts[1].record.observation.requestId, c.expected, None,
                           None, None, Some(RecordDigest(cfg.h, cfg.codec.records, VerdictRecord(v))),
                           Some(v.evaluatorId))
  }

  predicate RowHolds(cfg: Config, db: Database, k: nat)
    requires |db.receipts| > 0 && db.receipts[0].record.PlanRecord?
    requires k < |db.operations| && RecordsAfter(k) <= |db.receipts|
  {
    var c := db.operations[k].document.content;
    && k < 3
    && RowBound(cfg, db, k)
    && (k == 0 ==> IsClaim(cfg, db, c))
    && (k == 1 ==> IsFinish(cfg, db, c))
    && (k == 2 ==> IsVerdict(cfg, db, c))
  }

  predicate RowsHold(cfg: Config, db: Database, n: nat)
    requires |db.receipts| > 0 && db.receipts[0].record.PlanRecord? && n <= |db.operations|
  {
    forall k: nat | k < n :: RecordsAfter(k) <= |db.receipts| && RowHolds(cfg, db, k)
  }

  /** The claim still waiting after `k` operations. */
  function PendingAfter(db: Database, k: nat): Option<string>
    requires k <= |db.operations|
  {
    if k == 1 then Some(db.operations[0].operationId) else None
  }

  /** The case as it stood after `k + 1` operations: the receipts of that time, and the
      output unless only the claim had been made. */
  function CommitAt(cfg: Config, db: Database, k: nat): Commit
    requires k < |db.operations| && k + 1 <= |db.receipts|
  {
    var authority := AuthorityDigest(cfg.h, cfg.codec.records, cfg.authority);
    Commit(db.operations[k].operationId,
           cfg.h(cfg.codec.request(db.operations[k].document.content)),
           At(cfg, db, k),
           StoredCase(Journal(authority, db.receipts[..k + 1]), At(cfg, db, k + 1),
                      Retained(db, AssertionRole), Retained(db, InputRole),
                      if k == 0 then None else RetainedOutput(db), PendingAfter(db, k + 1)))
  }

  function CommitsTo(cfg: Config, db: Database, n: nat): (r: seq<Commit>)
    requires n <= |db.operations| && n <= |db.receipts|
    ensures |r| == n && forall k: nat | k < n :: r[k] == CommitAt(cfg, db, k)
  {
    seq(n, k requires 0 <= k < n => CommitAt(cfg, db, k))
  }

  function ClaimedBy(db: Database, n: nat): Option<AdapterKey>
    requires n <= |db.operations|
  {
    if n == 0 then None else db.operations[0].document.content.adapterKey
  }

  function ScanAt(cfg: Config, db: Database, n: nat): Scan
    requires n <= |db.operations| && RecordsAfter(n) <= |db.receipts|
  {
    Scan(At(cfg, db, n), PendingAfter(db, n), ClaimedBy(db, n), CommitsTo(cfg, db, n))
  }

  /** What every kind of row must be, and its own kind's rule. */
  lemma ScanRowShared(cfg: Config, db: Database, k: nat, ok: bool)
    requires JournalOk(cfg, db) && k < |db.operations| && k < 3 && RecordsAfter(k) <= |db.receipts|
    requires var s, row, plan := ScanAt(cfg, db, k), db.operations[k], db.receipts[0].record.plan;
             ok == match row.document.content.kind
                   case Claim => ClaimRowOk(cfg, plan, s, row, k)
                   case Finish => FinishRowOk(cfg, plan, db, s, row, k)
                   case GiveVerdict => VerdictRowOk(cfg, db, s, row, k)
    requires ok ==> var row := db.operations[k];
                    && row.document.resultCount == k + 1 <= |db.receipts|
                    && (row.document.content.kind.Claim? <==> k == 0)
                    && row.document.resultHead == db.receipts[k].digest
                    && (k == 0 ==> row.document.content.requestId == row.operationId)
    ensures var r := ScanRow(cfg, db.receipts[0].record.plan, db, ScanAt(cfg, db, k), db.operations[k], k);
            && (r.Some? <==> ok && RowBound(cfg, db, k))
            && (r.Some? ==> r.value == ScanAt(cfg, db, k + 1))
  {
    hide ClaimRowOk, FinishRowOk, VerdictRowOk, WorkflowStore.IsIdentifier, Intact, Replay, AuthorityDigest,
      RecordDigest, Retained, RetainedOutput, ContextOf;
  }

  /** One more row of the scan. */
  lemma ScanRowExact(cfg: Config, db: Database, k: nat)
    requires JournalOk(cfg, db) && k < |db.operations| && RecordsAfter(k) <= |db.receipts|
    requires RowsHold(cfg, db, k)
    ensures var r := ScanRow(cfg, db.receipts[0].record.plan, db, ScanAt(cfg, db, k), db.operations[k], k);
            && (r.Some? <==> RowHolds(cfg, db, k))
            && (r.Some? ==> RecordsAfter(k + 1) <= |db.receipts| && r.value == ScanAt(cfg, db, k + 1))
  {
    hide ObserverFits, WorkflowStore.IsIdentifier, RecordDigest, ObservedId, Intact, Replay, AuthorityDigest, At,
      Operation, RowBytes;
    var s, row, plan := ScanAt(cfg, db, k), db.operations[k], db.receipts[0].record.plan;
    if k < 3 {
      var ok := match row.document.content.kind
                case Claim => ClaimRowOk(cfg, plan, s, row, k)
                case Finish => FinishRowOk(cfg, plan, db, s, row, k)
                case GiveVerdict => VerdictRowOk(cfg, db, s, row, k);
      if k == 1 {
        assert RowHolds(cfg, db, 0);
      }
      if k == 0 && row.document.content.adapterKey.Some? {
        ObserverExact(cfg, plan, row.document.content.adapterKey.value);
      }
      hide ScanRow, MayObserve;
      ScanRowShared(cfg, db, k, ok);
    }
  }

  /** The scan gets as far as rows hold, and is then at the position after them. */
  lemma {:induction false} ScanRowsExact(cfg: Config, db: Database, n: nat)
    requires JournalOk(cfg, db) && n <= |db.operations|
    ensures var r := ScanRows(cfg, db.receipts[0].record.plan, db, GenesisCheckpoint(cfg, db.context),
                              db.operations[..n]);
            && (r.Some? <==> RowsHold(cfg, db, n))
            && (r.Some? ==> RecordsAfter(n) <= |db.receipts| && r.value == ScanAt(cfg, db, n))
  {
    hide JournalOk, ScanRow, RowHolds, At;
    PlanFirst(cfg, db);
    if n == 0 {
      ScanStart(cfg, db);
    } else {
      ScanRowsExact(cfg, db, n - 1);
      assert db.operations[..n][..n - 1] == db.operations[..n - 1];
      if RowsHold(cfg, db, n - 1) {
        ScanRowExact(cfg, db, n - 1);
      }
    }
  }

  lemma ScanStart(cfg: Config, db: Database)
    requires |db.receipts| > 0
    ensures ScanAt(cfg, db, 0) == Scan(GenesisCheckpoint(cfg, db.context), None, None, [])
  {
  }

  // ----- Read -----

  /** Every size limit of the store. */
  predicate LimitsHold(cfg: Config, db: Database) {
    && |cfg.codec.context(db.context)| <= 8192
    && |cfg.codec.checkpoint(db.meta)| <= 8192
    && 1 <= |db.receipts| <= 3
    && (forall i | 0 <= i < |db.receipts| :: ReceiptBytes(cfg.codec.records, db.receipts[i]) <= 20 * 1024)
    && |db.operations| <= 3
    && (forall i | 0 <= i < |db.operations| ::
          |cfg.codec.operationRow(db.operations[i].document, db.operations[i].digest)| <= 8192)
  }

  /** The receipts are an accepted run of the trusted authority that starts with the
      expected plan, and the context document is that plan's. */
  predicate Grounded(cfg: Config, db: Database) {
    var authority := AuthorityDigest(cfg.h, cfg.codec.records, cfg.authority);
    var j := Journal(authority, db.receipts);
    && Intact(cfg.h, cfg.codec.records, j)
    && Replay(cfg.h, cfg.codec.records, cfg.authority, j).Some?
    && |db.receipts| > 0 && db.receipts[0].record.PlanRecord?
    && var plan := db.receipts[0].record.plan;
    && db.receipts[0].digest == cfg.planHead
    && db.context == ContextDocument(authority, plan.caseId, cfg.planHead,
                                     RecordDigest(cfg.h, cfg.codec.records, PlanRecord(plan)), plan.assertionId,
                                     plan.inputId)
  }

  /** A blob is stored under its name and hash, and hashes to it. */
  predicate Keeps(cfg: Config, db: Database, role: PayloadRole, id: string, sha: Digest) {
    && role in db.payloads
    && db.payloads[role] == Payload(id, sha, db.payloads[role].content)
    && cfg.h(db.payloads[role].content) == sha
  }

  /** The retained bytes: the plan's assertion and input, and an output exactly when one was
      observed, each what its record commits to and within its bound. */
  predicate BytesKept(cfg: Config, db: Database)
    requires |db.receipts| > 0 && db.receipts[0].record.PlanRecord?
  {
    var plan := db.receipts[0].record.plan;
    && Keeps(cfg, db, AssertionRole, plan.assertionId, plan.assertionSha)
    && Keeps(cfg, db, InputRole, plan.inputId, plan.inputSha)
    && var m, n := |db.payloads[AssertionRole].content|, |db.payloads[InputRole].content|;
    && m <= 65536 && n <= 262144
    && (OutputRole in db.payloads <==>
          |db.receipts| >= 2 && db.receipts[1].record.ObservationRecord?
          && db.receipts[1].record.observation.status.ObservedStatus?)
    && (OutputRole in db.payloads ==>
          && var o, output := db.receipts[1].record.observation, db.payloads[OutputRole].content;
          && o.artifactId.Some? && o.observedSha.Some?
          && Keeps(cfg, db, OutputRole, o.artifactId.value, o.observedSha.value)
          && |output| <= 4096 && cfg.printable(output))
  }

  lemma KeepsExact(cfg: Config, db: Database, role: PayloadRole, id: string, sha: Digest, maximum: nat)
    requires role in db.payloads
    ensures Commits(cfg, db.payloads[role], id, sha, maximum) <==>
      Keeps(cfg, db, role, id, sha) && |db.payloads[role].content| <= maximum
  {
  }

  lemma BytesExact(cfg: Config, db: Database)
    requires JournalOk(cfg, db)
    ensures |db.receipts| > 0 && db.receipts[0].record.PlanRecord?
    ensures PayloadsOk(cfg, db) <==> BytesKept(cfg, db)
  {
    hide JournalOk, Commits;
    PlanFirst(cfg, db);
    var plan := db.receipts[0].record.plan;
    if AssertionRole in db.payloads {
      KeepsExact(cfg, db, AssertionRole, plan.assertionId, plan.assertionSha, MAX_ASSERTION);
    }
    if InputRole in db.payloads {
      KeepsExact(cfg, db, InputRole, plan.inputId, plan.inputSha, MAX_INPUT);
    }
    if OutputRole in db.payloads && |db.receipts| >= 2 && db.receipts[1].record.ObservationRecord? {
      var o := db.receipts[1].record.observation;
      if o.artifactId.Some? && o.observedSha.Some? {
        KeepsExact(cfg, db, OutputRole, o.artifactId.value, o.observedSha.value, MAX_OUTPUT);
      }
    }
  }

  /** A readable database, without the reader: limits, receipts, bytes, every row forced, and
      the stored position that of the last row. */
  predicate CaseHolds(cfg: Config, db: Database) {
    && LimitsHold(cfg, db)
    && Grounded(cfg, db)
    && BytesKept(cfg, db)
    && |db.receipts| == RecordsAfter(|db.operations|)
    && RowsHold(cfg, db, |db.operations|)
    && db.meta == At(cfg, db, |db.operations|)
  }

  /** What such a database says. */
  function ViewOf(cfg: Config, db: Database): View
    requires |db.receipts| == RecordsAfter(|db.operations|)
  {
    var n := |db.operations|;
    View(StoredCase(Journal(AuthorityDigest(cfg.h, cfg.codec.records, cfg.authority), db.receipts), db.meta,
                    Retained(db, AssertionRole), Retained(db, InputRole), RetainedOutput(db), PendingAfter(db, n)),
         CommitsTo(cfg, db, n), ClaimedBy(db, n))
  }

  lemma GroundedExact(cfg: Config, db: Database)
    ensures JournalOk(cfg, db) <==> Grounded(cfg, db)
  {
    hide Intact, Replay, AuthorityDigest, RecordDigest;
  }

  lemma LimitsExact(cfg: Config, db: Database)
    ensures Admitted(cfg, db) <==> LimitsHold(cfg, db)
  {
    hide ReceiptBytes;
  }

  /** A verified read accepts exactly the databases whose limits, receipts, retained bytes
      and rows hold, and returns exactly what they say. */
  lemma ReadExact(cfg: Config, db: Database)
    ensures Read(cfg, db).Some? <==> CaseHolds(cfg, db)
    ensures Read(cfg, db).Some? ==> Read(cfg, db) == Some(ViewOf(cfg, db))
  {
    hide Admitted, LimitsHold, JournalOk, Grounded, PayloadsOk, BytesKept, ScanRows, RowsHold, Retained, RetainedOutput;
    GroundedExact(cfg, db);
    LimitsExact(cfg, db);
    if JournalOk(cfg, db) {
      BytesExact(cfg, db);
      ScanRowsExact(cfg, db, |db.operations|);
      assert db.operations[..|db.operations|] == db.operations;
      if Read(cfg, db).Some? {
        ReadShape(cfg, db);
      }
    }
  }

  /** Nothing stored escapes verification: databases that read the same are the same. */
  lemma ReadInjective(cfg: Config, x: Database, y: Database)
    requires Read(cfg, x).Some? && Read(cfg, x) == Read(cfg, y)
    ensures x == y
  {
    hide Read, LimitsHold, Grounded, At, ObserverFits, ObservedId, RecordDigest, WorkflowStore.IsIdentifier;
    ReadExact(cfg, x);
    ReadExact(cfg, y);
    SameGround(cfg, x, y);
    SameBytes(cfg, x, y);
    var u, v := ViewOf(cfg, x), ViewOf(cfg, y);
    assert |x.operations| == |u.commits| == |v.commits| == |y.operations|;
    forall k | 0 <= k < |x.operations|
      ensures x.operations[k] == y.operations[k]
    {
      assert RowHolds(cfg, x, k) && RowHolds(cfg, y, k);
      assert CommitAt(cfg, x, k) == u.commits[k] == v.commits[k] == CommitAt(cfg, y, k);
    }
  }

  lemma SameGround(cfg: Config, x: Database, y: Database)
    requires Grounded(cfg, x) && Grounded(cfg, y) && x.receipts == y.receipts
    ensures x.context == y.context && |x.receipts| > 0 && x.receipts[0].record.PlanRecord?
  {
    hide Intact, Replay, AuthorityDigest, RecordDigest;
  }

  lemma SameBytes(cfg: Config, x: Database, y: Database)
    requires x.receipts == y.receipts && |x.receipts| > 0 && x.receipts[0].record.PlanRecord?
    requires BytesKept(cfg, x) && BytesKept(cfg, y)
    requires Retained(x, AssertionRole) == Retained(y, AssertionRole)
    requires Retained(x, InputRole) == Retained(y, InputRole) && RetainedOutput(x) == RetainedOutput(y)
    ensures x.payloads == y.payloads
  {
    forall role
      ensures role in x.payloads <==> role in y.payloads
      ensures role in x.payloads ==> x.payloads[role] == y.payloads[role]
    {
      match role {
        case AssertionRole =>
        case InputRole =>
        case OutputRole =>
      }
    }
  }
}
