/** Fault outcomes of the case store (case_storage.py, `_run`): connecting, beginning,
    the action, commit, rollback and close may each fail, a commit may fail before or
    after it became durable, and the reported outcome stays truthful.

    Unlike the workflow store's runner this one is told beforehand whether it writes, and
    a later failure never replaces an earlier one.
 */
module CaseFaults {
  import opened Wrappers
  import opened EpistemicCase
  import Hashing
  import opened CaseStore
  import opened StoreFaults
  import S = CaseStoreSafety
  import E = CaseExecution

  /** What an action does to a private working copy. */
  datatype Action<+T, +D> = Acts(value: T, work: D) | Raises(kind: StoreFaults.Kind)

  /** The first failure of two, in order. */
  function First(primary: Option<StoreFaults.Kind>, next: Option<StoreFaults.Kind>): Option<StoreFaults.Kind> {
    if primary.None? then next else primary
  }

  /** The first failure of a transaction, cleanup last. */
  function FirstRaised<T, D>(faults: Faults, a: Action<T, D>, writable: bool): Option<StoreFaults.Kind> {
    if faults.connect.Some? then faults.connect
    else if faults.begin.Some? then faults.begin
    else if faults.body.Some? then faults.body
    else if a.Raises? then Some(a.kind)
    else if writable && !faults.commit.CommitOk? then Some(faults.commit.kind)
    else if !writable && faults.idleRollback.Some? then faults.idleRollback
    else if faults.rollback.Some? then faults.rollback
    else faults.close
  }

  /** The transaction runner: the working copy becomes durable only in the commit of a
      writing transaction. */
  method RunCase<T, D>(store: StoreFaults.Durable<D>, action: D -> Action<T, D>, writable: bool, faults: Faults)
    returns (r: Report<T>, outcome: StoreFaults.Outcome)
    modifies store
    ensures var a := action(old(store.state));
            var acted := Acted(faults) && a.Acts?;
            && store.state == (if acted && writable && !faults.commit.LostBefore? then a.work else old(store.state))
            && (outcome == Nothing <==> !(acted && writable))
            && (outcome == Unknown <==> acted && writable && !faults.commit.CommitOk?)
            && (outcome == Complete <==> acted && writable && faults.commit.CommitOk?)
            && (r.Returned? <==> acted && faults.rollback.None? && faults.close.None?
                                 && (if writable then faults.commit.CommitOk? else faults.idleRollback.None?))
            && (r.Returned? ==> r.value == a.value)
    ensures r.RaisedStorage? ==> r.outcome == outcome
    ensures r.RaisedValidation? ==> outcome == Nothing
    ensures var first := FirstRaised(faults, action(old(store.state)), writable);
            && (r.Returned? <==> first.None?)
            && (r.RaisedControl? <==> first == Some(ControlKind))
            && (r.RaisedValidation? <==> first == Some(ValidationKind) && outcome == Nothing)
  {
    outcome := Nothing;
    var primary: Option<StoreFaults.Kind> := None;
    var connected := false;
    var a := action(store.state);
    if faults.connect.Some? {
      primary := faults.connect;
    } else {
      connected := true;
      if faults.begin.Some? {
        primary := faults.begin;
      } else if faults.body.Some? || a.Raises? {
        primary := if faults.body.Some? then faults.body else Some(a.kind);
      } else if writable {
        outcome := Unknown;
        match faults.commit {
          case CommitOk =>
            store.state := a.work;
            outcome := Complete;
          case LostBefore(kind) =>
            primary := Some(kind);
          case LostAfter(kind) =>
            store.state := a.work;
            primary := Some(kind);
        }
      } else {
        primary := faults.idleRollback;
      }
    }
    if connected {
      primary := First(primary, faults.rollback);
      primary := First(primary, faults.close);
    }
    if primary.Some? {
      if primary.value.ControlKind? {
        return RaisedControl, outcome;
      }
      if primary.value.ValidationKind? && outcome == Nothing {
        return RaisedValidation, outcome;
      }
      return RaisedStorage(outcome), outcome;
    }
    r := Returned(a.value);
  }

  // ----- Snapshot, write and lookup -----

  function SnapshotAttempt(cfg: Config, db: Database): Action<View, Database> {
    match Read(cfg, db)
    case None => Raises(ValidationKind)
    case Some(v) => Acts(v, db)
  }

  function WriteAttempt(cfg: Config, db: Database, w: WriteRequest): Action<Commit, Database> {
    match WriteAction(cfg, db, w)
    case (Done(commit), next) => Acts(commit, next)
    case _ => Raises(ValidationKind)
  }

  function LookupAttempt(cfg: Config, db: Database, operationId: string, digest: Hashing.Digest)
    : Action<Option<Commit>, Database>
  {
    match LookupAction(cfg, db, operationId, digest)
    case Done(found) => Acts(found, db)
    case _ => Raises(ValidationKind)
  }

  /** The operation is durably recorded with this request. */
  predicate Recorded(cfg: Config, db: Database, operationId: string, digest: Hashing.Digest) {
    var r := Read(cfg, db);
    && r.Some? && FindCommit(r.value.commits, operationId).Some?
    && FindCommit(r.value.commits, operationId).value.requestDigest == digest
  }

  /** What other clients leave of a call's write: the call itself when they changed
      nothing between its snapshot and its write, and otherwise a conflict. */
  function Overtaken(cfg: Config, db: Database, between: seq<S.Call>, call: S.Call): (Answer<Commit>, Database) {
    var now := S.Run(cfg, db, between);
    if now == db then S.Perform(cfg, db, call) else (Conflict, now)
  }

  /** One claim, finish or verdict against a disturbed and shared store: a reading
      transaction, the preparation, whatever other clients do meanwhile, a writing
      transaction. `ending` is what the execution model sees of it. */
  method PerformUnderFaults(cfg: Config, store: StoreFaults.Durable<Database>, call: S.Call, between: seq<S.Call>,
                            reading: Faults, writing: Faults)
    returns (r: Report<Commit>, outcome: StoreFaults.Outcome, ghost ending: E.Ending)
    requires S.Compact(cfg.codec)
    modifies store
    ensures old(Read(cfg, store.state).Some?) ==> Read(cfg, store.state).Some?
    ensures var now := S.Run(cfg, old(store.state), between);
            var (a, next) := Overtaken(cfg, old(store.state), between, call);
            && store.state == E.Durable(now, next, ending)
            && (ending.Acknowledged? <==> r.Returned?)
            && (outcome == Nothing ==> store.state == now)
            && (outcome != Nothing ==> a.Done?)
            && (outcome == Complete ==>
                  store.state == next && Recorded(cfg, next, a.value.operationId, a.value.requestDigest))
            && (outcome == Unknown ==>
                  LookupAction(cfg, store.state, a.value.operationId, a.value.requestDigest)
                    == Done(if store.state == next then Some(a.value) else None))
            && (r.Returned? ==>
                  && outcome == Complete && r.value == a.value
                  && LookupAction(cfg, store.state, r.value.operationId, r.value.requestDigest) == Done(Some(r.value)))
    ensures r.RaisedStorage? ==> r.outcome == outcome
    ensures r.RaisedValidation? ==> outcome == Nothing
    ensures var now := S.Run(cfg, old(store.state), between);
            var (a, next) := Overtaken(cfg, old(store.state), between, call);
            var ready := a.Done? && Undisturbed(reading, false);
            && store.state == (if ready && Survives(writing) then next else now)
            && (r.Returned? <==> ready && Undisturbed(writing, true))
  {
    hide Read, WriteAction, LookupAction, Recorded, S.Prepare, S.Run, S.Perform, FirstRaised;
    ghost var before := store.state;
    var snapshot, readOutcome := RunCase(store, db => SnapshotAttempt(cfg, db), false, reading);
    ending := E.LostBefore;
    store.state := S.Run(cfg, store.state, between);
    if Read(cfg, before).Some? {
      S.RunGrows(cfg, before, between);
    } else {
      UnreadableStays(cfg, before, between);
    }
    UnreadableCall(cfg, before, call);
    match snapshot {
      case Returned(v) =>
        var prepared := S.Prepare(cfg, v, call);
        if !prepared.Done? {
          Unprepared(cfg, before, call);
          return RaisedValidation, Nothing, E.LostBefore;
        }
        ghost var now := store.state;
        assert S.Perform(cfg, before, call) == WriteAction(cfg, before, prepared.value) by {
          PreparedWrite(cfg, before, call);
        }
        r, outcome := RunCase(store, db => WriteAttempt(cfg, db, prepared.value), true, writing);
        ending := if r.Returned? then E.Acknowledged else if store.state == now then E.LostBefore else E.LostAfter;
        if now == before {
          WriteOutcomes(cfg, before, call);
        } else {
          S.PreparedExpected(cfg, v, call);
          S.ReadShape(cfg, before);
          S.StalePreparationWritesNothing(cfg, before, between, prepared.value);
        }
      case RaisedValidation =>
        return RaisedValidation, Nothing, E.LostBefore;
      case RaisedControl =>
        return RaisedControl, Nothing, E.LostBefore;
      case RaisedStorage(o) =>
        return RaisedStorage(o), Nothing, E.LostBefore;
    }
  }

  lemma PreparedWrite(cfg: Config, db: Database, call: S.Call)
    requires Read(cfg, db).Some? && S.Prepare(cfg, Read(cfg, db).value, call).Done?
    ensures S.Perform(cfg, db, call) == WriteAction(cfg, db, S.Prepare(cfg, Read(cfg, db).value, call).value)
  {
    hide Read, WriteAction, S.Prepare;
  }

  lemma Unprepared(cfg: Config, db: Database, call: S.Call)
    requires Read(cfg, db).Some? && !S.Prepare(cfg, Read(cfg, db).value, call).Done?
    ensures !S.Perform(cfg, db, call).0.Done? && S.Perform(cfg, db, call).1 == db
  {
    hide Read, WriteAction, S.Prepare;
  }

  lemma UnreadableCall(cfg: Config, db: Database, call: S.Call)
    ensures Read(cfg, db).None? ==> S.Perform(cfg, db, call) == (Invalid, db)
  {
    hide Read, WriteAction, S.Prepare;
  }

  lemma {:induction false} UnreadableStays(cfg: Config, db: Database, calls: seq<S.Call>)
    requires Read(cfg, db).None?
    ensures S.Run(cfg, db, calls) == db
    decreases |calls|
  {
    hide Read;
    if calls != [] {
      UnreadableStays(cfg, db, calls[..|calls| - 1]);
    }
  }

  /** What the journal holds before and after a call that writes. */
  lemma WriteOutcomes(cfg: Config, db: Database, call: S.Call)
    requires S.Compact(cfg.codec) && Read(cfg, db).Some?
    ensures var (a, next) := S.Perform(cfg, db, call);
            && Read(cfg, next).Some?
            && (a.Done? ==>
                  && next != db
                  && Recorded(cfg, next, a.value.operationId, a.value.requestDigest)
                  && LookupAction(cfg, next, a.value.operationId, a.value.requestDigest) == Done(Some(a.value))
                  && LookupAction(cfg, db, a.value.operationId, a.value.requestDigest) == Done(None))
  {
    hide Read, WriteAction, S.Prepare, S.Perform;
    S.PerformEffect(cfg, db, call);
    if S.Perform(cfg, db, call).0.Done? {
      S.CommitReadBack(cfg, db, call, []);
    }
  }

  /** A lookup never changes the store, makes no durable claim of its own, and when it
      returns it answers the durability question exactly. */
  method LookupUnderFaults(
    cfg: Config, store: StoreFaults.Durable<Database>, operationId: string, digest: Hashing.Digest, faults: Faults)
    returns (r: Report<Option<Commit>>, outcome: StoreFaults.Outcome)
    modifies store
    ensures store.state == old(store.state) && outcome == Nothing
    ensures r.Returned? ==> (r.value.Some? <==> Recorded(cfg, store.state, operationId, digest))
    ensures r.RaisedStorage? ==> r.outcome == Nothing
    ensures r.Returned? <==> LookupAction(cfg, store.state, operationId, digest).Done? && Undisturbed(faults, false)
  {
    hide Read;
    r, outcome := RunCase(store, db => LookupAttempt(cfg, db, operationId, digest), false, faults);
  }
}
