/** At-most-once execution (case_storage.py, `execute_observation`): any number of
    workers, in any interleaving, with crashes, restarts, uncertain commits and
    other clients of the same case store. The in-process bridge lock is left out:
    the result does not need it.
 */
module CaseExecution {
  import opened Wrappers
  import opened EpistemicCase
  import opened CaseStore
  import opened Hashing
  import S = CaseStoreSafety
  import E = CaseStoreExact
  import W = CaseStoreWrites
  import WorkflowStore

  /** How one write transaction ends. Only `Acknowledged` returns to the caller. */
  datatype Ending = Acknowledged | LostBefore | LostAfter

  /** Where a worker is inside `execute_observation`. */
  datatype Place =
    | Outside
    | Prepared(claim: WriteRequest, finishId: string, registry: seq<AdapterKey>)
    | Claimed(commit: Commit, finishId: string, registry: seq<AdapterKey>)
    | Entered(commit: Commit, finishId: string)
    | Measured(commit: Commit, finishId: string, m: Measurement)
    | Crashed

  /** One entry into the callback of the adapter with this key. */
  datatype CallbackEntry = CallbackEntry(worker: nat, requestId: string, key: AdapterKey)

  /** How a callback comes back: with bytes, unavailable, or with any other failure. */
  datatype Result = Returned(output: Bytes) | NotAvailable | Broke

  /** The world: the store, the workers, the callback entries made and the results they
      came back with. */
  datatype World = World(db: Database, workers: map<nat, Place>, log: seq<CallbackEntry>, results: seq<Result>)

  datatype Step =
    | Prepare(worker: nat, registry: seq<AdapterKey>, requestId: string, finishId: string, expected: Checkpoint)
    | WriteClaim(worker: nat, ending: Ending)
    | Enter(worker: nat)
    | Leave(worker: nat)
    | Measure(worker: nat, result: Result)
    | WriteFinish(worker: nat, ending: Ending)
    | Crash(worker: nat)
    | Restart(worker: nat)
    | OtherClient(call: S.Call, ending: Ending)

  function PlaceOf(w: World, worker: nat): Place {
    if worker in w.workers then w.workers[worker] else Outside
  }

  function Move(w: World, worker: nat, place: Place): World {
    w.(workers := w.workers[worker := place])
  }

  /** What is durable after a transaction that computed `next`. */
  function Durable(db: Database, next: Database, ending: Ending): Database {
    if ending.LostBefore? then db else next
  }

  /** After its claim a worker selects again, from its own registry and the plan of the
      journal its claim returned; the callback it enters is the one selected here. */
  function Reselect(cfg: Config, registry: seq<AdapterKey>, commit: Commit): Option<AdapterKey> {
    var receipts := commit.result.journal.receipts;
    if receipts == [] || !receipts[0].record.PlanRecord? then None
    else Select(cfg, registry, receipts[0].record.plan)
  }

  /** What is recorded of a result: the bytes when they fit the output profile, else the
      kind of failure. */
  function Normalized(cfg: Config, commit: Commit, result: Result): Measurement {
    match result
    case Returned(output) =>
      if OutputOk(cfg, output, |commit.result.assertion| + |commit.result.input|)
      then Measurement(ObservedStatus, Some(output), None)
      else Measurement(ErrorStatus, None, Some("invalid_adapter_output"))
    case NotAvailable => Measurement(Unavailable, None, Some("adapter_unavailable"))
    case Broke => Measurement(ErrorStatus, None, Some("adapter_error"))
  }

  /** One step of one worker, or of another client. A step that does not apply in
      the worker's place does nothing. */
  function Next(cfg: Config, w: World, step: Step): World {
    match step
    case Prepare(p, registry, requestId, finishId, expected) =>
      if !PlaceOf(w, p).Outside? || !WorkflowStore.IsIdentifier(finishId) || finishId == requestId then w
      else
        (match Read(cfg, w.db)
         case None => w
         case Some(v) =>
           match PrepareClaim(cfg, v, registry, requestId, expected)
           case Done(claim) => Move(w, p, Prepared(claim, finishId, registry))
           case _ => w)
    case WriteClaim(p, ending) =>
      (match PlaceOf(w, p)
       case Prepared(claim, finishId, registry) =>
         var (a, next) := WriteAction(cfg, w.db, claim);
         if !a.Done? then Move(w, p, Outside)
         else
           var committed := w.(db := Durable(w.db, next, ending));
           Move(committed, p, if ending.Acknowledged? then Claimed(a.value, finishId, registry) else Outside)
       case _ => w)
    case Enter(p) =>
      (match PlaceOf(w, p)
       case Claimed(commit, finishId, registry) =>
         (match Reselect(cfg, registry, commit)
          case None => Move(w, p, Outside)
          case Some(key) =>
            Move(w.(log := w.log + [CallbackEntry(p, commit.operationId, key)]), p, Entered(commit, finishId)))
       case _ => w)
    case Leave(p) => if PlaceOf(w, p).Crashed? then w else Move(w, p, Outside)
    case Measure(p, result) =>
      (match PlaceOf(w, p)
       case Entered(commit, finishId) =>
         Move(w.(results := w.results + [result]), p, Measured(commit, finishId, Normalized(cfg, commit, result)))
       case _ => w)
    case WriteFinish(p, ending) =>
      (match PlaceOf(w, p)
       case Measured(commit, finishId, m) =>
         var call := S.FinishCall(commit.operationId, finishId, commit.result.checkpoint, m);
         var (a, next) := S.Perform(cfg, w.db, call);
         Move(w.(db := Durable(w.db, next, ending)), p, Outside)
       case _ => w)
    case Crash(p) => Move(w, p, Crashed)
    case Restart(p) => if PlaceOf(w, p).Crashed? then Move(w, p, Outside) else w
    case OtherClient(call, ending) => w.(db := Durable(w.db, S.Perform(cfg, w.db, call).1, ending))
  }

  function Run(cfg: Config, w: World, steps: seq<Step>): World {
    if steps == [] then w else Next(cfg, Run(cfg, w, steps[..|steps| - 1]), steps[|steps| - 1])
  }

  /** The durable claim of a request. */
  predicate ClaimDurable(db: Database, requestId: string) {
    && |db.operations| > 0
    && db.operations[0].document.content.kind.Claim?
    && db.operations[0].document.content.requestId == requestId
  }

  /** The adapter key of the durable claim. */
  function ClaimedKey(db: Database): Option<AdapterKey> {
    if db.operations == [] then None else db.operations[0].document.content.adapterKey
  }

  predicate Active(p: Place) {
    p.Claimed? || p.Entered? || p.Measured?
  }

  /** The stored plan is the one from which this registry selects this key. */
  predicate Selects(cfg: Config, db: Database, registry: seq<AdapterKey>, key: Option<AdapterKey>) {
    && db.receipts != [] && db.receipts[0].record.PlanRecord?
    && key.Some? && Select(cfg, registry, db.receipts[0].record.plan) == key
  }

  /** A prepared claim names the key its own worker selected. */
  predicate PreparedOk(cfg: Config, db: Database, place: Place)
    requires place.Prepared?
  {
    && place.claim.content.kind.Claim? && place.claim.content.requestId == place.claim.content.operationId
    && Selects(cfg, db, place.registry, place.claim.content.adapterKey)
  }

  /** A claimed worker would select the durable claim's key from the stored plan, and
      its commit holds that plan. */
  predicate ClaimedOk(cfg: Config, db: Database, place: Place)
    requires place.Claimed?
  {
    && Selects(cfg, db, place.registry, ClaimedKey(db))
    && place.commit.result.journal.receipts != [] && place.commit.result.journal.receipts[0] == db.receipts[0]
  }

  /** Between an acknowledged claim and its end, one worker at most is active; it
      holds the durable claim, and an unentered claim means an empty log. Keys logged,
      claimed and prepared all come from the workers' own selections. */
  predicate Inv(cfg: Config, w: World) {
    && |w.log| <= 1
    && (forall e | e in w.log :: ClaimDurable(w.db, e.requestId) && ClaimedKey(w.db) == Some(e.key))
    && (forall p | p in w.workers :: Active(w.workers[p]) ==> ClaimDurable(w.db, w.workers[p].commit.operationId))
    && (forall p | p in w.workers :: w.workers[p].Claimed? ==> w.log == [] && ClaimedOk(cfg, w.db, w.workers[p]))
    && (forall p, q | p in w.workers && q in w.workers && p != q :: !(Active(w.workers[p]) && Active(w.workers[q])))
    && (forall p | p in w.workers :: w.workers[p].Prepared? ==> PreparedOk(cfg, w.db, w.workers[p]))
  }

  /** Writes append journal rows and never rewrite them; a claim is only written
      into an empty journal. */
  lemma WritesAppend(cfg: Config, db: Database, w: WriteRequest)
    ensures var (a, next) := WriteAction(cfg, db, w);
            && db.operations <= next.operations && db.receipts <= next.receipts
            && (a.Done? ==>
                  && |next.operations| == |db.operations| + 1
                  && next.operations[|db.operations|].document.content == w.content
                  && a.value.operationId == w.content.operationId
                  && (w.content.kind.Claim? ==> db.operations == [] && a.value.result.journal.receipts == db.receipts))
  {
    hide Read, RequestDigest, AppendRecord, JournalHead;
    if Read(cfg, db).Some? {
      S.ReadShape(cfg, db);
    }
  }

  lemma PerformAppends(cfg: Config, db: Database, call: S.Call)
    ensures var next := S.Perform(cfg, db, call).1; db.operations <= next.operations && db.receipts <= next.receipts
  {
    hide Read, WriteAction, S.Prepare;
    if Read(cfg, db).Some? && S.Prepare(cfg, Read(cfg, db).value, call).Done? {
      WritesAppend(cfg, db, S.Prepare(cfg, Read(cfg, db).value, call).value);
    }
  }

  lemma ClaimPreparesClaim(cfg: Config, db: Database, registry: seq<AdapterKey>, requestId: string,
                           expected: Checkpoint)
    requires Read(cfg, db).Some? && PrepareClaim(cfg, Read(cfg, db).value, registry, requestId, expected).Done?
    ensures var c := PrepareClaim(cfg, Read(cfg, db).value, registry, requestId, expected).value.content;
            && c.kind.Claim? && c.requestId == requestId == c.operationId
            && Selects(cfg, db, registry, c.adapterKey)
  {
    hide Select, JournalHead, Read;
    S.ReadShape(cfg, db);
  }

  lemma NextKeepsInv(cfg: Config, w: World, step: Step)
    requires Inv(cfg, w)
    ensures Inv(cfg, Next(cfg, w, step))
  {
    hide Read, WriteAction, PrepareClaim, S.Perform, ClaimDurable, ClaimedKey, Selects, Normalized;
    match step {
      case Enter(p) =>
        if PlaceOf(w, p).Claimed? {
          EnterKeepsInv(cfg, w, p);
        }
      case WriteClaim(p, ending) =>
        if PlaceOf(w, p).Prepared? {
          WriteClaimKeepsInv(cfg, w, p, ending);
        }
      case WriteFinish(p, ending) =>
        if PlaceOf(w, p).Measured? {
          var commit := PlaceOf(w, p).commit;
          var call := S.FinishCall(commit.operationId, PlaceOf(w, p).finishId, commit.result.checkpoint,
                                   PlaceOf(w, p).m);
          PerformAppends(cfg, w.db, call);
          GrowKeepsInv(cfg, w, Durable(w.db, S.Perform(cfg, w.db, call).1, ending));
        }
      case OtherClient(call, ending) =>
        PerformAppends(cfg, w.db, call);
        GrowKeepsInv(cfg, w, Durable(w.db, S.Perform(cfg, w.db, call).1, ending));
      case Prepare(p, registry, requestId, finishId, expected) =>
        if Read(cfg, w.db).Some? && PrepareClaim(cfg, Read(cfg, w.db).value, registry, requestId, expected).Done? {
          ClaimPreparesClaim(cfg, w.db, registry, requestId, expected);
        }
      case _ =>
    }
  }

  /** A claimed worker's own selection succeeds and is the durable claim's key. */
  lemma ReselectsClaimed(cfg: Config, db: Database, place: Place)
    requires place.Claimed? && ClaimedOk(cfg, db, place)
    ensures Reselect(cfg, place.registry, place.commit) == ClaimedKey(db) && ClaimedKey(db).Some?
  {
    hide Select;
  }

  lemma EnterKeepsInv(cfg: Config, w: World, p: nat)
    requires Inv(cfg, w) && PlaceOf(w, p).Claimed?
    ensures Inv(cfg, Next(cfg, w, Enter(p)))
  {
    hide Reselect, ClaimDurable, Selects, ClaimedKey;
    ReselectsClaimed(cfg, w.db, PlaceOf(w, p));
  }

  lemma GrowKeepsInv(cfg: Config, w: World, db: Database)
    requires Inv(cfg, w) && w.db.operations <= db.operations && w.db.receipts <= db.receipts
    ensures Inv(cfg, w.(db := db))
  {
    hide Active, Select;
  }

  lemma LogMeansClaim(cfg: Config, w: World)
    requires Inv(cfg, w)
    ensures w.log != [] ==> w.db.operations != []
  {
    hide Active, Select;
    assert w.log != [] ==> w.log[0] in w.log;
  }

  lemma WriteClaimKeepsInv(cfg: Config, w: World, p: nat, ending: Ending)
    requires Inv(cfg, w) && PlaceOf(w, p).Prepared?
    ensures Inv(cfg, Next(cfg, w, WriteClaim(p, ending)))
  {
    hide WriteAction, Select;
    var claim := PlaceOf(w, p).claim;
    WritesAppend(cfg, w.db, claim);
    var (a, next) := WriteAction(cfg, w.db, claim);
    if a.Done? {
      LogMeansClaim(cfg, w);
      assert forall q | q in w.workers :: !Active(w.workers[q]);
    }
  }

  /** At most once: over every interleaving from a fresh start, the callback is
      entered at most once, and only under a claim that is durable. */
  lemma {:induction false} AtMostOnce(cfg: Config, db: Database, steps: seq<Step>)
    ensures var w := Run(cfg, World(db, map[], [], []), steps);
            && Inv(cfg, w)
            && |w.log| <= 1
            && (forall e | e in w.log :: ClaimDurable(w.db, e.requestId) && ClaimedKey(w.db) == Some(e.key))
    decreases |steps|
  {
    hide Next;
    if steps != [] {
      var init := steps[..|steps| - 1];
      AtMostOnce(cfg, db, init);
      NextKeepsInv(cfg, Run(cfg, World(db, map[], [], []), init), steps[|steps| - 1]);
    }
  }

  /** Entry follows the durable claim: at the very step that enters a callback the claim
      of that request is already in the journal, and the adapter the worker selected from
      its own registry is the one the claim names. */
  lemma EntryAfterDurableClaim(cfg: Config, w: World, step: Step)
    requires Inv(cfg, w) && Next(cfg, w, step).log != w.log
    ensures step.Enter? && w.log == [] && PlaceOf(w, step.worker).Claimed?
    ensures var place := PlaceOf(w, step.worker);
            var e := Next(cfg, w, step).log[0];
            && Next(cfg, w, step).log == [e] && e.worker == step.worker
            && e.requestId == place.commit.operationId && Reselect(cfg, place.registry, place.commit) == Some(e.key)
            && ClaimDurable(w.db, e.requestId)
            && w.db.operations[0].document.content.adapterKey == Some(e.key)
  {
    hide Read, WriteAction, PrepareClaim, S.Perform, Select, Reselect;
    if step.Enter? && PlaceOf(w, step.worker).Claimed? {
      ReselectsClaimed(cfg, w.db, PlaceOf(w, step.worker));
    }
  }

  /** A worker whose claim was acknowledged can always enter: its selection never fails. */
  lemma ClaimedCanEnter(cfg: Config, w: World, p: nat)
    requires Inv(cfg, w) && PlaceOf(w, p).Claimed?
    ensures |Next(cfg, w, Enter(p)).log| == 1 && PlaceOf(Next(cfg, w, Enter(p)), p).Entered?
  {
    hide Select, Reselect;
    ReselectsClaimed(cfg, w.db, PlaceOf(w, p));
  }

  /** A stranded claim is final: once a claim is durable and no worker holds its
      acknowledgement, nothing that can ever happen enters the callback again. */
  lemma {:induction false} StrandedClaimIsFinal(cfg: Config, w: World, steps: seq<Step>)
    requires |w.db.operations| > 0
    requires forall p | p in w.workers :: !w.workers[p].Claimed?
    requires forall p | p in w.workers :: w.workers[p].Prepared? ==> w.workers[p].claim.content.kind.Claim?
    ensures Run(cfg, w, steps).log == w.log
    ensures |Run(cfg, w, steps).db.operations| > 0
    ensures forall p | p in Run(cfg, w, steps).workers :: !Run(cfg, w, steps).workers[p].Claimed?
    ensures forall p | p in Run(cfg, w, steps).workers ::
              Run(cfg, w, steps).workers[p].Prepared? ==> Run(cfg, w, steps).workers[p].claim.content.kind.Claim?
    decreases |steps|
  {
    hide Next;
    if steps != [] {
      var init := steps[..|steps| - 1];
      StrandedClaimIsFinal(cfg, w, init);
      StrandedStep(cfg, Run(cfg, w, init), steps[|steps| - 1]);
    }
  }

  lemma StrandedStep(cfg: Config, w: World, step: Step)
    requires |w.db.operations| > 0
    requires forall p | p in w.workers :: !w.workers[p].Claimed?
    requires forall p | p in w.workers :: w.workers[p].Prepared? ==> w.workers[p].claim.content.kind.Claim?
    ensures var next := Next(cfg, w, step);
            && next.log == w.log && |next.db.operations| > 0
            && (forall p | p in next.workers :: !next.workers[p].Claimed?)
            && (forall p | p in next.workers :: next.workers[p].Prepared? ==> next.workers[p].claim.content.kind.Claim?)
  {
    hide Read, WriteAction, PrepareClaim, S.Perform;
    match step {
      case WriteClaim(p, ending) =>
        if PlaceOf(w, p).Prepared? {
          WritesAppend(cfg, w.db, PlaceOf(w, p).claim);
        }
      case WriteFinish(p, ending) =>
        if PlaceOf(w, p).Measured? {
          var commit := PlaceOf(w, p).commit;
          PerformAppends(cfg, w.db,
                         S.FinishCall(commit.operationId, PlaceOf(w, p).finishId, commit.result.checkpoint,
                                      PlaceOf(w, p).m));
        }
      case OtherClient(call, ending) =>
        PerformAppends(cfg, w.db, call);
      case Prepare(p, registry, requestId, finishId, expected) =>
        if Read(cfg, w.db).Some? && PrepareClaim(cfg, Read(cfg, w.db).value, registry, requestId, expected).Done? {
          ClaimPreparesClaim(cfg, w.db, registry, requestId, expected);
        }
      case _ =>
    }
  }

  // ----- What is stored is what came back -----

  /** The record of a result, without the store: bytes of at most 4096 that are printable
      are observed, anything else is the failure it is. */
  function Recorded(cfg: Config, result: Result): Measurement {
    match result
    case Returned(output) =>
      if |output| <= 4096 && cfg.printable(output) then Measurement(ObservedStatus, Some(output), None)
      else Measurement(ErrorStatus, None, Some("invalid_adapter_output"))
    case NotAvailable => Measurement(Unavailable, None, Some("adapter_unavailable"))
    case Broke => Measurement(ErrorStatus, None, Some("adapter_error"))
  }

  /** The stored observation is that of `m`, by the claimed tool, for the claimed request. */
  predicate Stores(cfg: Config, db: Database, m: Measurement) {
    && |db.receipts| >= 2 && db.receipts[1].record.ObservationRecord?
    && var o := db.receipts[1].record.observation;
    && o.status == m.status && o.errorCode == m.errorCode
    && o.observedSha == (if m.output.Some? then Some(cfg.h(m.output.value)) else None)
    && RetainedOutput(db) == m.output
    && ClaimDurable(db, o.requestId)
    && ClaimedKey(db).Some? && o.observerId == ClaimedKey(db).value.observerId
  }

  predicate SmallInputs(commit: Commit) {
    |commit.result.assertion| + |commit.result.input| <= 65536 + 262144
  }

  /** Results are those of the entered callback, and nothing but the recorded result is
      stored as an observation. */
  predicate Told(cfg: Config, w: World) {
    && Read(cfg, w.db).Some?
    && |w.results| <= |w.log|
    && (forall p | p in w.workers && Active(w.workers[p]) :: SmallInputs(w.workers[p].commit))
    && (forall p | p in w.workers && w.workers[p].Entered? :: w.log != [] && w.results == [])
    && (forall p | p in w.workers && w.workers[p].Measured? ::
          |w.results| == 1 && w.workers[p].m == Recorded(cfg, w.results[0]))
    && (forall p | p in w.workers && w.workers[p].Prepared? :: IsClaimRequest(w.workers[p].claim))
    && (|w.db.receipts| >= 2 ==> |w.results| == 1 && Stores(cfg, w.db, Recorded(cfg, w.results[0])))
  }

  /** A prepared claim carries nothing but its request and key. */
  predicate IsClaimRequest(r: WriteRequest) {
    var c := r.content;
    && WorkflowStore.IsIdentifier(c.requestId)
    && r == WriteRequest(
         RequestContent(Claim, c.requestId, c.requestId, c.expected, c.adapterKey, None, None, None, None), None, None)
  }

  lemma NormalizedIsRecorded(cfg: Config, commit: Commit, result: Result)
    requires SmallInputs(commit)
    ensures Normalized(cfg, commit, result) == Recorded(cfg, result)
  {
  }

  /** Every result can be recorded. */
  lemma RecordedReportable(cfg: Config, result: Result)
    ensures W.Reportable(cfg, Recorded(cfg, result))
  {
    var unavailable, broke, invalid := "adapter_unavailable", "adapter_error", "invalid_adapter_output";
    assert WorkflowStore.IsIdentifier(unavailable) && WorkflowStore.IsIdentifier(broke)
        && WorkflowStore.IsIdentifier(invalid);
  }

  lemma StoresGrow(cfg: Config, db: Database, next: Database, m: Measurement)
    requires Stores(cfg, db, m)
    requires db.receipts <= next.receipts && db.operations <= next.operations && db.payloads == next.payloads
    ensures Stores(cfg, next, m)
  {
  }

  /** A prepared claim that is written is the claim one would prepare now. */
  lemma WrittenClaim(cfg: Config, db: Database, claim: WriteRequest, registry: seq<AdapterKey>)
    requires S.Compact(cfg.codec) && Read(cfg, db).Some? && IsClaimRequest(claim)
    requires Selects(cfg, db, registry, claim.content.adapterKey) && WriteAction(cfg, db, claim).0.Done?
    ensures var (a, next) := WriteAction(cfg, db, claim);
            && Read(cfg, next).Some? && SmallInputs(a.value)
            && next.receipts == db.receipts && next.payloads == db.payloads
  {
    hide Read, WriteAction, Intact, Replay, ObserverFits, AuthorityDigest, WorkflowStore.IsIdentifier, RetainedOutput,
      Select, W.Seen;
    var call := S.ClaimCall(registry, claim.content.requestId, claim.content.expected);
    ClaimPreparable(cfg, db, claim, registry);
    assert S.Perform(cfg, db, call) == WriteAction(cfg, db, claim);
    S.PerformEffect(cfg, db, call);
    W.ClaimExact(cfg, db, registry, claim.content.requestId, claim.content.expected);
    var (a, next) := WriteAction(cfg, db, claim);
    ReadableInputs(cfg, next, a.value);
  }

  lemma ClaimPreparable(cfg: Config, db: Database, claim: WriteRequest, registry: seq<AdapterKey>)
    requires Read(cfg, db).Some? && IsClaimRequest(claim)
    requires Selects(cfg, db, registry, claim.content.adapterKey) && WriteAction(cfg, db, claim).0.Done?
    ensures var c := claim.content;
            PrepareClaim(cfg, Read(cfg, db).value, registry, c.requestId, c.expected) == Done(claim)
  {
    hide Read, Intact, Replay, ObserverFits, AuthorityDigest, WorkflowStore.IsIdentifier, Select, Operation,
      AppendRecord;
    W.ReadableSeen(cfg, db);
  }

  lemma ReadableInputs(cfg: Config, db: Database, c: Commit)
    requires Read(cfg, db).Some? && Read(cfg, db).value.snapshot == c.result
    ensures SmallInputs(c)
  {
    hide Read, Intact, Replay, ObserverFits, AuthorityDigest;
    W.ReadableSeen(cfg, db);
  }

  /** A finish stores exactly the measurement it is given. */
  lemma FinishStores(cfg: Config, db: Database, requestId: string, finishId: string, expected: Checkpoint,
                     m: Measurement)
    requires S.Compact(cfg.codec) && Read(cfg, db).Some? && ClaimDurable(db, requestId)
    ensures var (a, next) := S.Perform(cfg, db, S.FinishCall(requestId, finishId, expected, m));
            Read(cfg, next).Some? && (if a.Done? then Stores(cfg, next, m) else next == db)
  {
    hide Read, Intact, Replay, ObserverFits, AuthorityDigest, WorkflowStore.IsIdentifier, ObservedId, RecordDigest,
      ReceiptPreimage, S.Perform, W.Reportable;
    var call := S.FinishCall(requestId, finishId, expected, m);
    W.ReadableSeen(cfg, db);
    S.PerformEffect(cfg, db, call);
    W.FinishExact(cfg, db, requestId, finishId, expected, m);
    if S.Perform(cfg, db, call).0.Done? {
      W.FinishRecords(cfg, db, requestId, finishId, expected, m);
      var next := S.Perform(cfg, db, call).1;
      W.ReadableSeen(cfg, next);
      assert next.operations[0] == db.operations[0];
      assert ClaimedKey(next) == Read(cfg, db).value.claimed;
    }
  }

  /** Claims and verdicts leave the stored observation alone. */
  lemma OtherCallLeaves(cfg: Config, db: Database, call: S.Call)
    requires S.Compact(cfg.codec) && Read(cfg, db).Some? && !call.FinishCall?
    ensures var next := S.Perform(cfg, db, call).1;
            && Read(cfg, next).Some? && next.payloads == db.payloads
            && db.receipts <= next.receipts && db.operations <= next.operations
            && (|db.receipts| < 2 ==> next.receipts == db.receipts)
  {
    hide Read, Intact, Replay, ObserverFits, AuthorityDigest, WorkflowStore.IsIdentifier, RetainedOutput,
      RecordDigest, ReceiptPreimage, S.Perform, Select, W.Used;
    W.ReadableSeen(cfg, db);
    S.PerformEffect(cfg, db, call);
    match call {
      case ClaimCall(registry, id, expected) => W.ClaimExact(cfg, db, registry, id, expected);
      case VerdictCall(op, evaluator, expected) => W.VerdictExact(cfg, db, op, evaluator, expected);
    }
  }

  lemma WriteClaimKeepsTold(cfg: Config, w: World, p: nat, ending: Ending)
    requires S.Compact(cfg.codec) && Inv(cfg, w) && Told(cfg, w) && PlaceOf(w, p).Prepared?
    ensures Told(cfg, Next(cfg, w, WriteClaim(p, ending)))
  {
    hide Read, WriteAction, ClaimDurable, ClaimedKey, Stores, Recorded, SmallInputs, IsClaimRequest, Selects,
      ClaimedOk;
    var claim := PlaceOf(w, p).claim;
    if WriteAction(cfg, w.db, claim).0.Done? {
      var next := WriteAction(cfg, w.db, claim).1;
      WrittenClaim(cfg, w.db, claim, PlaceOf(w, p).registry);
      WritesAppend(cfg, w.db, claim);
      if |w.db.receipts| >= 2 {
        StoresGrow(cfg, w.db, next, Recorded(cfg, w.results[0]));
      }
    }
  }

  lemma WriteFinishKeepsTold(cfg: Config, w: World, p: nat, ending: Ending)
    requires S.Compact(cfg.codec) && Inv(cfg, w) && Told(cfg, w) && PlaceOf(w, p).Measured?
    ensures Told(cfg, Next(cfg, w, WriteFinish(p, ending)))
  {
    hide Read, S.Perform, ClaimDurable, ClaimedKey, Stores, Recorded, SmallInputs, IsClaimRequest, PreparedOk,
      ClaimedOk;
    var place := PlaceOf(w, p);
    FinishStores(cfg, w.db, place.commit.operationId, place.finishId, place.commit.result.checkpoint, place.m);
  }

  lemma OtherKeepsTold(cfg: Config, w: World, call: S.Call, ending: Ending)
    requires S.Compact(cfg.codec) && Inv(cfg, w) && Told(cfg, w) && !call.FinishCall?
    ensures Told(cfg, Next(cfg, w, OtherClient(call, ending)))
  {
    hide Read, S.Perform, Stores, Recorded, SmallInputs, IsClaimRequest, Inv, Active;
    OtherCallLeaves(cfg, w.db, call);
    if |w.db.receipts| >= 2 {
      StoresGrow(cfg, w.db, S.Perform(cfg, w.db, call).1, Recorded(cfg, w.results[0]));
    }
  }

  lemma NextKeepsTold(cfg: Config, w: World, step: Step)
    requires S.Compact(cfg.codec) && Inv(cfg, w) && Told(cfg, w)
    requires step.OtherClient? ==> !step.call.FinishCall?
    ensures Told(cfg, Next(cfg, w, step))
  {
    hide Read, WriteAction, S.Perform, ClaimDurable, ClaimedKey, Stores, Normalized, Recorded, SmallInputs,
      IsClaimRequest, Reselect, PrepareClaim, PreparedOk, ClaimedOk;
    match step {
      case Prepare(p, registry, requestId, finishId, expected) =>
        if Read(cfg, w.db).Some? && PrepareClaim(cfg, Read(cfg, w.db).value, registry, requestId, expected).Done? {
          PreparedIsClaim(cfg, Read(cfg, w.db).value, registry, requestId, expected);
        }
      case WriteClaim(p, ending) =>
        if PlaceOf(w, p).Prepared? {
          WriteClaimKeepsTold(cfg, w, p, ending);
        }
      case Measure(p, result) =>
        if PlaceOf(w, p).Entered? {
          NormalizedIsRecorded(cfg, PlaceOf(w, p).commit, result);
        }
      case WriteFinish(p, ending) =>
        if PlaceOf(w, p).Measured? {
          WriteFinishKeepsTold(cfg, w, p, ending);
        }
      case OtherClient(call, ending) => OtherKeepsTold(cfg, w, call, ending);
      case _ =>
    }
  }

  lemma PreparedIsClaim(cfg: Config, v: View, registry: seq<AdapterKey>, requestId: string, expected: Checkpoint)
    requires PrepareClaim(cfg, v, registry, requestId, expected).Done?
    ensures IsClaimRequest(PrepareClaim(cfg, v, registry, requestId, expected).value)
  {
    hide Select, JournalHead, WorkflowStore.IsIdentifier;
  }

  predicate NoForeignFinish(steps: seq<Step>) {
    forall i | 0 <= i < |steps| && steps[i].OtherClient? :: !steps[i].call.FinishCall?
  }

  /** What is stored is what came back: over every interleaving from a fresh store, as long
      as no other client finishes the claim by hand, an observation is stored only after
      the one callback entry returned, by the tool that was claimed, and it records
      exactly that result: the very bytes, or the kind of failure. */
  lemma {:induction false} StoredIsReturned(cfg: Config, db: Database, steps: seq<Step>)
    requires S.Compact(cfg.codec) && Read(cfg, db).Some? && |db.receipts| == 1 && NoForeignFinish(steps)
    ensures var w := Run(cfg, World(db, map[], [], []), steps);
            && Told(cfg, w)
            && |w.results| <= |w.log| <= 1
            && (|w.db.receipts| >= 2 ==> |w.results| == 1 && Stores(cfg, w.db, Recorded(cfg, w.results[0])))
    decreases |steps|
  {
    hide Next, Read, Stores, Recorded, Inv;
    AtMostOnce(cfg, db, steps);
    if steps != [] {
      var n := |steps| - 1;
      StoredIsReturned(cfg, db, steps[..n]);
      AtMostOnce(cfg, db, steps[..n]);
      NextKeepsTold(cfg, Run(cfg, World(db, map[], [], []), steps[..n]), steps[n]);
    }
  }
}
