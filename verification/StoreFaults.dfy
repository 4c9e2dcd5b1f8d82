/** Fault outcomes of the workflow store (workflow_storage.py, `_run`): connecting,
    beginning, the action, commit, rollback and close may each fail, a commit may
    fail before or after it became durable, and the reported outcome stays truthful.
 */
module StoreFaults {
  import opened Wrappers
  import opened Hashing
  import opened Workflow
  import opened WorkflowStore
  import S = WorkflowStoreSafety

  datatype Outcome = Nothing | Unknown | Complete

  /** The exception classes the code tells apart. */
  datatype Kind = ValidationKind | OrdinaryKind | ControlKind

  datatype CommitFault = CommitOk | LostBefore(kind: Kind) | LostAfter(kind: Kind)

  /** Where a transaction is disturbed; `body` strikes inside the action, before or
      after the action has set its flags. */
  datatype Faults = Faults(
    connect: Option<Kind>,
    begin: Option<Kind>,
    body: Option<Kind>,
    bodyFlagged: bool,
    commit: CommitFault,
    idleRollback: Option<Kind>,
    rollback: Option<Kind>,
    close: Option<Kind>)

  /** What the action does to a private working copy. */
  datatype Attempt<+T, +D> =
    | Finished(value: T, work: D, dirty: bool, found: bool)
    | Threw(kind: Kind)

  datatype Report<+T> =
    | Returned(value: T)
    | RaisedValidation
    | RaisedControl
    | RaisedStorage(outcome: Outcome)

  class Transaction {
    var outcome: Outcome
    var dirty: bool
    var closed: bool

    constructor ()
      ensures outcome == Nothing && !dirty && !closed
    {
      outcome, dirty, closed := Nothing, false, false;
    }
  }

  /** The durable content behind a connection. */
  class Durable<D> {
    var state: D

    constructor (initial: D)
      ensures state == initial
    {
      state := initial;
    }
  }

  /** A later failure replaces an earlier one only when it is a control exception
      and the earlier one is not. */
  function Merge(primary: Option<Kind>, next: Option<Kind>): Option<Kind> {
    if next.None? then primary
    else if primary.None? || (!primary.value.ControlKind? && next.value.ControlKind?) then next
    else primary
  }

  /** Nothing before the commit went wrong. */
  predicate Acted(faults: Faults) {
    faults.connect.None? && faults.begin.None? && faults.body.None?
  }

  /** The first failure of a transaction whose action would give `a`. */
  function FirstFailure<T, D>(faults: Faults, a: Attempt<T, D>): Option<Kind> {
    if faults.connect.Some? then faults.connect
    else if faults.begin.Some? then faults.begin
    else if faults.body.Some? then faults.body
    else if a.Threw? then Some(a.kind)
    else if !a.dirty then faults.idleRollback
    else if faults.commit.CommitOk? then None else Some(faults.commit.kind)
  }

  /** Some failure of the transaction, cleanup included, is a control exception. */
  predicate Controlled<T, D>(faults: Faults, a: Attempt<T, D>) {
    || FirstFailure(faults, a) == Some(ControlKind)
    || (faults.connect.None? && (faults.rollback == Some(ControlKind) || faults.close == Some(ControlKind)))
  }

  /** The transaction runner. The working copy reaches the durable state only in a
      commit; everything else discards it. */
  method Run<T, D>(store: Durable<D>, action: D -> Attempt<T, D>, faults: Faults, tx: Transaction)
    returns (r: Report<T>)
    requires tx.outcome == Nothing && !tx.dirty
    modifies store, tx
    ensures var a := action(old(store.state));
            && (tx.outcome == Nothing ==> store.state == old(store.state))
            && (store.state == old(store.state) || (a.Finished? && a.dirty && store.state == a.work))
            && (tx.outcome == Complete ==> a.Finished? && (if a.dirty then store.state == a.work else a.found))
            && (tx.outcome == Unknown ==> a.Finished? && a.dirty && faults.commit != CommitOk)
            && (r.Returned? ==> a.Finished? && r.value == a.value
                                && store.state == (if a.dirty then a.work else old(store.state)))
            && (r.Returned? && a.Finished? && (a.dirty || a.found) ==> tx.outcome == Complete)
            && (r.RaisedStorage? ==> r.outcome == tx.outcome)
            && (r.RaisedValidation? ==> tx.outcome == Nothing)
    ensures var a := action(old(store.state));
            var acted := Acted(faults) && a.Finished?;
            && store.state == (if acted && a.dirty && !faults.commit.LostBefore? then a.work else old(store.state))
            && (r.Returned? <==> acted && faults.rollback.None? && faults.close.None?
                                 && (if a.dirty then faults.commit.CommitOk? else faults.idleRollback.None?))
    ensures tx.closed <==> faults.connect.None? && faults.close.None?
    ensures var a := action(old(store.state));
            var reached := faults.connect.None? && faults.begin.None? && a.Finished?;
            && (tx.outcome == Unknown <==> reached && faults.body.None? && a.dirty && !faults.commit.CommitOk?)
            && (tx.outcome == Complete <==>
                 reached && (if a.dirty then faults.body.None? && faults.commit.CommitOk?
                             else a.found && (faults.body.None? || faults.bodyFlagged)))
            && (r.RaisedControl? <==> Controlled(faults, a))
            && (r.RaisedValidation? <==>
                 && !r.RaisedControl? && tx.outcome == Nothing
                 && (FirstFailure(faults, a) == Some(ValidationKind)
                     || (FirstFailure(faults, a).None? && faults.rollback == Some(ValidationKind))
                     || (FirstFailure(faults, a).None? && faults.rollback.None?
                         && faults.close == Some(ValidationKind))))
  {
    var primary: Option<Kind> := None;
    var connected := false;
    var a := action(store.state);
    tx.closed := false;
    if faults.connect.Some? {
      primary := faults.connect;
    } else {
      connected := true;
      if faults.begin.Some? {
        primary := faults.begin;
      } else if faults.body.Some? || a.Threw? {
        if a.Finished? && faults.bodyFlagged {
          tx.dirty := a.dirty;
          tx.outcome := if a.found && !a.dirty then Complete else Nothing;
        }
        primary := if faults.body.Some? then faults.body else Some(a.kind);
      } else {
        tx.dirty := a.dirty;
        if a.found && !a.dirty {
          tx.outcome := Complete;
        }
        if tx.dirty {
          tx.outcome := Unknown;
          match faults.commit {
            case CommitOk =>
              store.state := a.work;
              tx.outcome := Complete;
            case LostBefore(kind) =>
              primary := Some(kind);
            case LostAfter(kind) =>
              store.state := a.work;
              primary := Some(kind);
          }
        } else {
          primary := faults.idleRollback;
        }
      }
    }
    if connected {
      primary := Merge(primary, faults.rollback);
      if faults.close.None? {
        tx.closed := true;
      }
      primary := Merge(primary, faults.close);
    }
    if primary.Some? {
      if primary.value.ControlKind? {
        return RaisedControl;
      }
      if primary.value.ValidationKind? && tx.outcome == Nothing {
        return RaisedValidation;
      }
      return RaisedStorage(tx.outcome);
    }
    r := Returned(a.value);
  }

  // ----- Append and lookup under faults -----

  function AppendAttempt(cfg: Config, db: Database, id: string, expected: Checkpoint, ts: seq<Transition>,
                         digest: Digest)
    : Attempt<Commit, Database>
  {
    match AppendAction(cfg, db, id, expected, ts, digest)
    case (Done(x), db') => Finished(x.commit, db', x.isNew, !x.isNew)
    case _ => Threw(ValidationKind)
  }

  function LookupAttempt(cfg: Config, db: Database, id: string, digest: Digest): Attempt<Option<Commit>, Database> {
    match LookupAction(cfg, db, id, digest)
    case Done(x) => Finished(x, db, false, x.Some?)
    case _ => Threw(ValidationKind)
  }

  /** The request is durably recorded. */
  predicate InJournal(cfg: Config, db: Database, id: string, digest: Digest) {
    var r := Read(cfg, db);
    r.Some? && Find(r.value.entries, id).Some? && Find(r.value.entries, id).value.requestDigest == digest
  }

  /** A lookup that completes answers the durability question exactly. */
  lemma LookupIsTruthful(cfg: Config, db: Database, id: string, digest: Digest)
    requires LookupAction(cfg, db, id, digest).Done?
    ensures LookupAction(cfg, db, id, digest).value.Some? <==> InJournal(cfg, db, id, digest)
  {
    hide Read, Find, Historical;
  }

  /** After an append that may or may not have become durable, lookup under the
      request's own digest completes and finds it exactly when it is durable. */
  lemma LookupAfterUncertainAppend(cfg: Config, db: Database, call: S.Request, db': Database)
    requires Read(cfg, db).Some? && Prepare(cfg, call.id, call.expected, call.ts).Done?
    requires var (a, next) := AppendCall(cfg, db, call.id, call.expected, call.ts);
             a.Done? && a.value.isNew && (db' == db || db' == next)
    ensures var (a, next) := AppendCall(cfg, db, call.id, call.expected, call.ts);
            var digest := RequestDigest(cfg, call.id, call.expected, call.ts);
            LookupAction(cfg, db', call.id, digest) == Done(if db' == next then Some(a.value.commit) else None)
  {
    hide Read, AppendCall, RequestDigest, IsIdentifier, Find, Historical;
    var next := AppendCall(cfg, db, call.id, call.expected, call.ts).1;
    S.AppendCallEffect(cfg, db, call.id, call.expected, call.ts);
    S.ExactlyOnce(cfg, db, call, []);
  }

  /** Retrying is idempotent: from either possible state the retried call returns the
      same commit and leaves the same database. */
  lemma RetryIsIdempotent(cfg: Config, db: Database, call: S.Request, db': Database)
    requires Read(cfg, db).Some?
    requires var (a, next) := AppendCall(cfg, db, call.id, call.expected, call.ts);
             a.Done? && a.value.isNew && (db' == db || db' == next)
    ensures var (a, next) := AppendCall(cfg, db, call.id, call.expected, call.ts);
            var (b, final) := AppendCall(cfg, db', call.id, call.expected, call.ts);
            b.Done? && b.value.commit == a.value.commit && final == next
  {
    hide Read, AppendCall;
    S.ExactlyOnce(cfg, db, call, []);
  }

  /** The transaction got as far as a commit that took effect. */
  predicate Survives(faults: Faults) {
    Acted(faults) && !faults.commit.LostBefore?
  }

  /** Nothing at all went wrong in a transaction that writes, or in one that only finds. */
  predicate Undisturbed(faults: Faults, writes: bool) {
    && Acted(faults) && faults.rollback.None? && faults.close.None?
    && (if writes then faults.commit.CommitOk? else faults.idleRollback.None?)
  }

  /** One append call against a disturbed store. */
  method AppendUnderFaults(
    cfg: Config, store: Durable<Database>, id: string, expected: Checkpoint, ts: seq<Transition>, faults: Faults)
    returns (r: Report<Commit>, outcome: Outcome)
    modifies store
    ensures old(Read(cfg, store.state).Some?) ==> Read(cfg, store.state).Some?
    ensures old(Read(cfg, store.state).None?) ==> !r.Returned? && store.state == old(store.state)
    ensures store.state == old(store.state) || store.state == AppendCall(cfg, old(store.state), id, expected, ts).1
    ensures outcome == Nothing ==> store.state == old(store.state)
    ensures outcome == Complete ==> InJournal(cfg, store.state, id, RequestDigest(cfg, id, expected, ts))
    ensures r.Returned? ==>
      && outcome == Complete
      && LookupAction(cfg, store.state, id, RequestDigest(cfg, id, expected, ts)) == Done(Some(r.value))
    ensures r.RaisedStorage? ==> r.outcome == outcome
    ensures r.RaisedValidation? ==> outcome == Nothing
    ensures store.state == (if Survives(faults) then AppendCall(cfg, old(store.state), id, expected, ts).1
                            else old(store.state))
    ensures var a := AppendCall(cfg, old(store.state), id, expected, ts).0;
            && (r.Returned? <==> a.Done? && Undisturbed(faults, a.value.isNew))
            && (r.Returned? ==> r.value == a.value.commit)
            && (outcome == Unknown <==> a.Done? && a.value.isNew && Acted(faults) && !faults.commit.CommitOk?)
  {
    hide Read, Prepare, AppendAction, LookupAction, RequestDigest, InJournal;
    var prepared := Prepare(cfg, id, expected, ts);
    if !prepared.Done? {
      return RaisedValidation, Nothing;
    }
    PreparedDigest(cfg, id, expected, ts);
    AttemptExact(cfg, store.state, id, expected, ts);
    hide AppendCall;
    var tx := new Transaction();
    ghost var before := store.state;
    r := Run(store, db => AppendAttempt(cfg, db, id, expected, ts, prepared.value), faults, tx);
    outcome := tx.outcome;
    if Read(cfg, before).Some? {
      AppendOutcomes(cfg, before, id, expected, ts);
    } else {
      UnreadableRefused(cfg, before, id, expected, ts, prepared.value);
    }
  }

  /** What the action of an append transaction does is what the undisturbed call does. */
  lemma AttemptExact(cfg: Config, db: Database, id: string, expected: Checkpoint, ts: seq<Transition>)
    requires Prepare(cfg, id, expected, ts).Done?
    ensures var x := AppendAttempt(cfg, db, id, expected, ts, Prepare(cfg, id, expected, ts).value);
            var (a, next) := AppendCall(cfg, db, id, expected, ts);
            && (x.Finished? <==> a.Done?)
            && (a.Done? ==> x == Finished(a.value.commit, next, a.value.isNew, !a.value.isNew))
            && (!a.Done? ==> x == Threw(ValidationKind))
            && ((a.Done? && a.value.isNew) || next == db)
  {
    hide Read, Prepare, Append, WorkflowStore.Store, Find, Historical;
  }

  lemma UnreadableRefused(cfg: Config, db: Database, id: string, expected: Checkpoint, ts: seq<Transition>,
                          digest: Digest)
    requires Read(cfg, db).None?
    ensures !AppendAttempt(cfg, db, id, expected, ts, digest).Finished?
  {
    hide Read;
  }

  lemma PreparedDigest(cfg: Config, id: string, expected: Checkpoint, ts: seq<Transition>)
    requires Prepare(cfg, id, expected, ts).Done?
    ensures Prepare(cfg, id, expected, ts).value == RequestDigest(cfg, id, expected, ts)
  {
  }

  /** The states an append transaction can leave, and what the journal holds in them. */
  lemma AppendOutcomes(cfg: Config, db: Database, id: string, expected: Checkpoint, ts: seq<Transition>)
    requires Read(cfg, db).Some? && Prepare(cfg, id, expected, ts).Done?
    ensures var digest := RequestDigest(cfg, id, expected, ts);
            var a := AppendAttempt(cfg, db, id, expected, ts, digest);
            a.Finished? ==>
              && a.work == AppendCall(cfg, db, id, expected, ts).1
              && (a.dirty != a.found) && (a.found ==> a.work == db)
              && Read(cfg, a.work).Some?
              && InJournal(cfg, a.work, id, digest)
              && LookupAction(cfg, a.work, id, digest) == Done(Some(a.value))
  {
    hide Read, Append, RequestDigest, IsIdentifier, Find, Historical, WorkflowStore.Store;
    S.CallGrows(cfg, db, id, expected, ts);
    var (a, next) := AppendCall(cfg, db, id, expected, ts);
    if a.Done? {
      if a.value.isNew {
        S.ExactlyOnce(cfg, db, S.Request(id, expected, ts), []);
        LookupIsTruthful(cfg, next, id, RequestDigest(cfg, id, expected, ts));
      } else {
        S.AppendCallEffect(cfg, db, id, expected, ts);
        var e := S.FoundEntry(cfg, db, id, expected, ts);
      }
    }
  }

  method LookupUnderFaults(cfg: Config, store: Durable<Database>, id: string, digest: Digest, faults: Faults)
    returns (r: Report<Option<Commit>>, outcome: Outcome)
    modifies store
    ensures store.state == old(store.state)
    ensures outcome == Complete ==> InJournal(cfg, store.state, id, digest)
    ensures r.Returned? ==> (r.value.Some? <==> InJournal(cfg, store.state, id, digest))
    ensures r.RaisedStorage? ==> r.outcome == outcome
    ensures r.Returned? <==> LookupAction(cfg, store.state, id, digest).Done? && Undisturbed(faults, false)
  {
    hide Read, LookupAction, InJournal;
    var tx := new Transaction();
    r := Run(store, db => LookupAttempt(cfg, db, id, digest), faults, tx);
    outcome := tx.outcome;
    if LookupAction(cfg, store.state, id, digest).Done? {
      LookupIsTruthful(cfg, store.state, id, digest);
    }
  }

  // ----- Histories of disturbed calls -----

  /** `s` is what remains of `t` after leaving some elements out. */
  predicate Subsequence<T(==)>(s: seq<T>, t: seq<T>) {
    if t == [] then s == []
    else
      var n := |t| - 1;
      Subsequence(s, t[..n]) || (s != [] && s[|s| - 1] == t[n] && Subsequence(s[..|s| - 1], t[..n]))
  }

  datatype Disturbed = Disturbed(request: S.Request, faults: Faults)

  function Requests(calls: seq<Disturbed>): (r: seq<S.Request>)
    ensures |r| == |calls| && forall i | 0 <= i < |calls| :: r[i] == calls[i].request
  {
    seq<S.Request>(|calls|, i requires 0 <= i < |calls| => calls[i].request)
  }

  /** What lookup answers for a durable request survives every later call. */
  lemma LookupStays(cfg: Config, db: Database, id: string, digest: Digest, call: S.Request)
    requires LookupAction(cfg, db, id, digest).Done? && LookupAction(cfg, db, id, digest).value.Some?
    ensures LookupAction(cfg, AppendCall(cfg, db, call.id, call.expected, call.ts).1, id, digest)
         == LookupAction(cfg, db, id, digest)
  {
    hide Read, AppendCall, Find;
    var v := Read(cfg, db).value;
    var later := AppendCall(cfg, db, call.id, call.expected, call.ts).1;
    S.CallGrows(cfg, db, call.id, call.expected, call.ts);
    var v2 := Read(cfg, later).value;
    S.FindStable(v.entries, v2.entries, id);
    var e := Find(v.entries, id).value;
    S.JournalPartitions(cfg, db);
    assert S.EntryBinds(cfg, v.bundle, e);
    SamePast(v.bundle, v2.bundle, e);
  }

  /** A commit is rebuilt alike from any bundle that starts with the same receipts. */
  lemma SamePast(b: Bundle, later: Bundle, e: WorkflowStore.Entry)
    requires e.result.recordCount <= |b.records| <= |later.records| && Take(later, |b.records|) == b
    ensures Historical(later, e) == Historical(b, e)
  {
    assert later.records[..|b.records|][..e.result.recordCount] == later.records[..e.result.recordCount];
  }

  lemma StepReturned(cfg: Config, before: Database, after: Database, call: S.Request, id: string, digest: Digest,
                     commit: Commit)
    requires after == before || after == AppendCall(cfg, before, call.id, call.expected, call.ts).1
    requires LookupAction(cfg, before, id, digest) == Done(Some(commit))
    ensures LookupAction(cfg, after, id, digest) == Done(Some(commit))
  {
    hide LookupAction, AppendCall;
    LookupStays(cfg, before, id, digest, call);
  }

  lemma RunSnoc(cfg: Config, db: Database, calls: seq<S.Request>, call: S.Request)
    ensures S.Run(cfg, db, calls + [call]) == AppendCall(cfg, S.Run(cfg, db, calls), call.id, call.expected, call.ts).1
  {
    hide AppendCall;
    assert (calls + [call])[..|calls|] == calls;
  }

  lemma SubsequenceSteps<T>(s: seq<T>, t: seq<T>, x: T)
    requires Subsequence(s, t)
    ensures Subsequence(s, t + [x]) && Subsequence(s + [x], t + [x])
  {
    assert (t + [x])[..|t|] == t && (s + [x])[..|s|] == s;
  }

  /** The calls whose transaction survived, in order. */
  function Surviving(calls: seq<Disturbed>): seq<S.Request> {
    if calls == [] then []
    else
      var n := |calls| - 1;
      Surviving(calls[..n]) + (if Survives(calls[n].faults) then [calls[n].request] else [])
  }

  lemma {:induction false} SurvivingSubsequence(calls: seq<Disturbed>)
    ensures Subsequence(Surviving(calls), Requests(calls))
    decreases |calls|
  {
    hide Survives;
    if calls == [] {
      StartsEmpty();
    } else {
      var n := |calls| - 1;
      SurvivingSubsequence(calls[..n]);
      assert Requests(calls) == Requests(calls[..n]) + [calls[n].request];
      SubsequenceSteps(Surviving(calls[..n]), Requests(calls[..n]), calls[n].request);
      assert Surviving(calls[..n]) + [] == Surviving(calls[..n]);
    }
  }

  lemma SurvivingSnoc(calls: seq<Disturbed>, k: nat)
    requires k < |calls|
    ensures Surviving(calls[..k + 1]) ==
            Surviving(calls[..k]) + (if Survives(calls[k].faults) then [calls[k].request] else [])
  {
    hide Survives;
    assert calls[..k + 1][..k] == calls[..k];
  }

  /** Call `i` of a history on a store, as it would go undisturbed after the calls that
      survived before it. */
  function Answered(cfg: Config, db: Database, calls: seq<Disturbed>, i: nat): Answer<Appended>
    requires i < |calls|
  {
    var q := calls[i].request;
    AppendCall(cfg, S.Run(cfg, db, Surviving(calls[..i])), q.id, q.expected, q.ts).0
  }

  lemma HistoryStep(cfg: Config, db: Database, calls: seq<Disturbed>, k: nat)
    requires k < |calls|
    ensures var q, before := calls[k].request, S.Run(cfg, db, Surviving(calls[..k]));
            S.Run(cfg, db, Surviving(calls[..k + 1])) ==
              if Survives(calls[k].faults) then AppendCall(cfg, before, q.id, q.expected, q.ts).1 else before
  {
    hide AppendCall, Survives, Surviving, S.Run;
    SurvivingSnoc(calls, k);
    RunSnoc(cfg, db, Surviving(calls[..k]), calls[k].request);
    assert Surviving(calls[..k]) + [] == Surviving(calls[..k]);
  }

  /** A history of calls, each disturbed in its own way, leaves the database that exactly
      those calls whose transaction survived, undisturbed and in the same order, would have
      left; a call returns exactly when it would have succeeded there and nothing went
      wrong; and every commit it returned is still found at the end. Whatever holds of all
      undisturbed runs therefore holds of every disturbed history. */
  method FaultyHistory(cfg: Config, store: Durable<Database>, calls: seq<Disturbed>)
    returns (reports: seq<Report<Commit>>)
    modifies store
    ensures |reports| == |calls|
    ensures Subsequence(Surviving(calls), Requests(calls))
    ensures store.state == S.Run(cfg, old(store.state), Surviving(calls))
    ensures old(Read(cfg, store.state).Some?) ==> Read(cfg, store.state).Some?
    ensures forall i | 0 <= i < |calls| ::
              var a := Answered(cfg, old(store.state), calls, i);
              && (reports[i].Returned? <==> a.Done? && Undisturbed(calls[i].faults, a.value.isNew))
              && (reports[i].Returned? ==> reports[i].value == a.value.commit)
    ensures forall i | 0 <= i < |calls| && reports[i].Returned? ::
              var q := calls[i].request;
              LookupAction(cfg, store.state, q.id, RequestDigest(cfg, q.id, q.expected, q.ts))
                  == Done(Some(reports[i].value))
  {
    hide Read, AppendCall, LookupAction, RequestDigest, InJournal, Subsequence, Survives, Undisturbed, Surviving,
      S.Run;
    reports := [];
    NothingRuns(cfg, store.state);
    for k := 0 to |calls|
      invariant |reports| == k
      invariant store.state == S.Run(cfg, old(store.state), Surviving(calls[..k]))
      invariant old(Read(cfg, store.state).Some?) ==> Read(cfg, store.state).Some?
      invariant forall i | 0 <= i < k ::
                  var a := Answered(cfg, old(store.state), calls, i);
                  && (reports[i].Returned? <==> a.Done? && Undisturbed(calls[i].faults, a.value.isNew))
                  && (reports[i].Returned? ==> reports[i].value == a.value.commit)
      invariant forall i | 0 <= i < k && reports[i].Returned? ::
                  var q := calls[i].request;
                  LookupAction(cfg, store.state, q.id, RequestDigest(cfg, q.id, q.expected, q.ts))
                      == Done(Some(reports[i].value))
    {
      var q := calls[k].request;
      ghost var before := store.state;
      var report, outcome := AppendUnderFaults(cfg, store, q.id, q.expected, q.ts, calls[k].faults);
      HistoryStep(cfg, old(store.state), calls, k);
      forall i | 0 <= i < k && reports[i].Returned?
        ensures var p := calls[i].request;
                LookupAction(cfg, store.state, p.id, RequestDigest(cfg, p.id, p.expected, p.ts))
                    == Done(Some(reports[i].value))
      {
        var p := calls[i].request;
        StepReturned(cfg, before, store.state, q, p.id, RequestDigest(cfg, p.id, p.expected, p.ts), reports[i].value);
      }
      reports := reports + [report];
    }
    assert calls[..|calls|] == calls;
    SurvivingSubsequence(calls);
  }

  lemma NothingRuns(cfg: Config, db: Database)
    ensures S.Run(cfg, db, Surviving([])) == db
  {
  }

  lemma StartsEmpty()
    ensures Subsequence<S.Request>([], Requests([]))
  {
  }

  // ----- Exclusive creation -----

  datatype FileState = Absent | Foreign | Reserved | Populated(db: Database)

  datatype CreateFaults = CreateFaults(
    identity: Option<Kind>,
    handleClose: Option<Kind>,
    run: Faults,
    cleanup: bool)

  /** Creation reserves the path, fills it in one transaction, and removes its own
      reservation only after an acknowledged close with no possible commit. */
  method CreateFile(file: Durable<FileState>, db: Database, faults: CreateFaults) returns (created: bool)
    requires file.state.Absent? || file.state.Foreign?
    modifies file
    ensures old(file.state).Foreign? ==> file.state.Foreign? && !created
    ensures created ==> file.state == Populated(db)
    ensures old(file.state).Absent? ==> file.state.Absent? || file.state.Reserved? || file.state == Populated(db)
    ensures var filled := old(file.state).Absent? && faults.identity.None? && faults.handleClose.None?
                          && Survives(faults.run);
            var removed := faults.identity.None? && faults.handleClose.None? && !Acted(faults.run)
                           && faults.run.connect.None? && faults.run.close.None? && !faults.cleanup;
            && file.state == (if old(file.state).Foreign? then Foreign
                              else if filled then Populated(db) else if removed then Absent else Reserved)
            && (created <==> filled && Undisturbed(faults.run, true))
    ensures (old(file.state).Absent? && faults.identity.None? && faults.handleClose.None? && Acted(faults.run)
             && !faults.run.commit.LostBefore?) ==> file.state == Populated(db)
  {
    if !file.state.Absent? {
      return false;
    }
    file.state := Reserved;
    var tx := new Transaction();
    var known := false;
    if faults.identity.Some? {
      tx.closed := faults.handleClose.None?;
      return false;
    }
    known := true;
    if faults.handleClose.None? {
      tx.closed := true;
      var r := Run(file, (s: FileState) => Finished((), Populated(db), true, false), faults.run, tx);
      if r.Returned? {
        return true;
      }
    }
    if known && tx.outcome == Nothing && tx.closed && !faults.cleanup {
      assert file.state == Reserved;
      file.state := Absent;
    }
    created := false;
  }
}
