/** The workflow read off its records (workflow.py): which transitions replay accepts,
    and the state of every claim, said about the claim's own earlier records and not
    about the running state that replay keeps.
 */
module WorkflowRecords {
  import opened Wrappers
  import opened Hashing
  import opened Workflow
  import opened Ordering
  import opened WorkflowSafety
  import Ledger

  // ----- The records of a claim -----

  function OfClaim(id: string): Transition -> bool {
    (t: Transition) => t.claimId == id
  }

  function ByAction(a: Action): Transition -> bool {
    (t: Transition) => t.action == a
  }

  /** The records about one claim, in order. */
  function Of(history: seq<Transition>, id: string): seq<Transition> {
    Filter(history, OfClaim(id))
  }

  predicate Has(rs: seq<Transition>, a: Action) {
    exists i | 0 <= i < |rs| :: rs[i].action == a
  }

  function Count(rs: seq<Transition>, a: Action): nat {
    |Filter(rs, ByAction(a))|
  }

  function Reference(t: Transition): string {
    if t.referenceId.Some? then t.referenceId.value else ""
  }

  function ActorOf(t: Transition): string {
    t.actorId
  }

  /** What the records bind: references by kind, in order. */
  function References(rs: seq<Transition>, a: Action): seq<string> {
    Map(Filter(rs, ByAction(a)), Reference)
  }

  function Approvers(rs: seq<Transition>): seq<string> {
    Map(Filter(rs, ByAction(Approve)), ActorOf)
  }

  function AuthorsOf(rs: seq<Transition>): set<string> {
    set i | 0 <= i < |rs| && RoleOf(rs[i].action).Author? :: rs[i].actorId
  }

  function StatusOf(quorum: nat, rs: seq<Transition>): Status {
    if Has(rs, Revoke) then Revoked
    else if Has(rs, Reject) then Rejected
    else if Count(rs, Approve) >= quorum then Approved
    else if Has(rs, Submit) then Submitted
    else Draft
  }

  /** The claim that a list of records describes. */
  function StateOf(quorum: nat, rs: seq<Transition>): Claim
    requires rs != []
  {
    Claim(
      rs[0].claimId,
      rs[0].scope,
      if rs[0].statement.Some? then rs[0].statement.value else "None",
      StatusOf(quorum, rs),
      |rs|,
      AuthorsOf(rs),
      References(rs, BindEvidence),
      References(rs, BindArtifact),
      Approvers(rs))
  }

  // ----- Admission of one record -----

  /** The actor holds the scoped role, and only humans review or revoke. */
  predicate Entitled(p: Policy, t: Transition) {
    && t.actorId in p.actors
    && Grant(t.scope, RoleOf(t.action)) in p.actors[t.actorId].grants
    && (t.action.Approve? || t.action.Reject? || t.action.Revoke? ==> p.actors[t.actorId].kind.Human?)
  }

  /** Nobody judges a claim they authored or already approved. */
  predicate IsIndependent(rs: seq<Transition>, actor: string) {
    forall i | 0 <= i < |rs| && rs[i].actorId == actor :: rs[i].action.Reject? || rs[i].action.Revoke?
  }

  /** A reference is bound once. */
  predicate Unbound(rs: seq<Transition>, t: Transition) {
    forall i | 0 <= i < |rs| && rs[i].action == t.action :: rs[i].referenceId != t.referenceId
  }

  predicate NamesEvidence(w: World, t: Transition) {
    exists e | e in w.evidence ::
      && Some(e.eventId) == t.referenceId && Some(e.digest) == t.referenceDigest
      && e.event.claim == t.claimId
      && "workflow_scope" in e.event.attributes && e.event.attributes["workflow_scope"] == Ledger.JText(t.scope)
  }

  predicate NamesArtifact(w: World, t: Transition) {
    exists a | a in w.artifacts ::
      && Some(a.artifactId) == t.referenceId && Some(a.sha256) == t.referenceDigest
      && a.claimId == t.claimId && a.scope == t.scope
  }

  /** The stage a transition needs, read off the claim's earlier records. */
  predicate InStage(w: World, rs: seq<Transition>, t: Transition) {
    match t.action
    case Create => true
    case BindEvidence => !Has(rs, Submit) && NamesEvidence(w, t) && Unbound(rs, t)
    case BindArtifact => !Has(rs, Submit) && NamesArtifact(w, t) && Unbound(rs, t)
    case Submit => !Has(rs, Submit) && Has(rs, BindEvidence) && Has(rs, BindArtifact)
    case Approve =>
      Has(rs, Submit) && !Has(rs, Reject) && Count(rs, Approve) < w.policy.quorum && IsIndependent(rs, t.actorId)
    case Reject =>
      Has(rs, Submit) && !Has(rs, Reject) && Count(rs, Approve) < w.policy.quorum && IsIndependent(rs, t.actorId)
    case Revoke =>
      Count(rs, Approve) == w.policy.quorum && !Has(rs, Revoke) && IsIndependent(rs, t.actorId)
  }

  /** A transition is admissible after the claim's records `rs`: it opens the claim or
      stays in its scope, and it names the exact number of records before it. */
  predicate Admissible(w: World, rs: seq<Transition>, t: Transition) {
    && Entitled(w.policy, t)
    && (t.action.Create? <==> rs == [])
    && (rs != [] ==> t.scope == rs[0].scope)
    && t.expectedRevision == |rs|
    && InStage(w, rs, t)
  }

  predicate AdmissibleAt(w: World, history: seq<Transition>, i: nat)
    requires i < |history|
  {
    Admissible(w, Of(history[..i], history[i].claimId), history[i])
  }

  predicate AllAdmissible(w: World, history: seq<Transition>) {
    forall i | 0 <= i < |history| :: AdmissibleAt(w, history, i)
  }

  /** Identities resolve uniquely, as the bundle constructor guarantees. */
  predicate Resolvable(w: World) {
    && (forall i, j | 0 <= i < j < |w.evidence| :: w.evidence[i].eventId != w.evidence[j].eventId)
    && DistinctArtifacts(w.artifacts)
  }

  lemma IntactResolves(h: HashFunction, c: WorkflowCodec, p: Policy, b: Bundle)
    requires Intact(h, c, b)
    ensures Resolvable(WorldOf(p, b))
  {
    hide Ledger.LinkAt, ChainIntact, BundleBytes, ContextDigest;
  }

  // ----- Lookup -----

  lemma {:induction false} FindsEvidence(entries: seq<Ledger.Entry>, id: string, e: Ledger.Entry)
    requires forall i, j | 0 <= i < j < |entries| :: entries[i].eventId != entries[j].eventId
    ensures FindEvidence(entries, id) == Some(e) <==> e in entries && e.eventId == id
  {
    if entries != [] {
      var n := |entries| - 1;
      FindsEvidence(entries[..n], id, e);
      assert entries == entries[..n] + [entries[n]];
    }
  }

  lemma {:induction false} FindsArtifact(artifacts: seq<Artifact>, id: string, a: Artifact)
    requires DistinctArtifacts(artifacts)
    ensures FindArtifact(artifacts, id) == Some(a) <==> a in artifacts && a.artifactId == id
  {
    if artifacts != [] {
      var n := |artifacts| - 1;
      FindsArtifact(artifacts[..n], id, a);
      assert artifacts == artifacts[..n] + [artifacts[n]];
    }
  }

  lemma EvidenceNamed(w: World, t: Transition)
    requires Resolvable(w)
    ensures NamesEvidence(w, t) <==>
      && t.referenceId.Some?
      && FindEvidence(w.evidence, t.referenceId.value).Some?
      && var e := FindEvidence(w.evidence, t.referenceId.value).value;
         Some(e.digest) == t.referenceDigest && EvidenceFits(e, t.claimId, t.scope)
  {
    hide FindEvidence, DistinctArtifacts;
    if t.referenceId.Some? {
      forall e | e in w.evidence
        ensures FindEvidence(w.evidence, t.referenceId.value) == Some(e) <==> e.eventId == t.referenceId.value
      {
        FindsEvidence(w.evidence, t.referenceId.value, e);
      }
    }
  }

  lemma ArtifactNamed(w: World, t: Transition)
    requires Resolvable(w)
    ensures NamesArtifact(w, t) <==>
      && t.referenceId.Some?
      && FindArtifact(w.artifacts, t.referenceId.value).Some?
      && var a := FindArtifact(w.artifacts, t.referenceId.value).value;
         Some(a.sha256) == t.referenceDigest && ArtifactFits(a, t.claimId, t.scope)
  {
    hide FindArtifact;
    if t.referenceId.Some? {
      forall a | a in w.artifacts
        ensures FindArtifact(w.artifacts, t.referenceId.value) == Some(a) <==> a.artifactId == t.referenceId.value
      {
        FindsArtifact(w.artifacts, t.referenceId.value, a);
      }
    }
  }

  // ----- One more record -----

  lemma HasSnoc(rs: seq<Transition>, t: Transition, a: Action)
    ensures Has(rs + [t], a) <==> Has(rs, a) || t.action == a
  {
    var all := rs + [t];
    assert all[|rs|] == t;
    assert forall i | 0 <= i < |rs| :: all[i] == rs[i];
  }

  lemma CountSnoc(rs: seq<Transition>, t: Transition, a: Action)
    ensures Count(rs + [t], a) == Count(rs, a) + (if t.action == a then 1 else 0)
  {
    FilterSnoc(rs, t, ByAction(a));
  }

  lemma ReferencesSnoc(rs: seq<Transition>, t: Transition, a: Action)
    ensures References(rs + [t], a) == References(rs, a) + (if t.action == a then [Reference(t)] else [])
  {
    FilterSnoc(rs, t, ByAction(a));
  }

  lemma ApproversSnoc(rs: seq<Transition>, t: Transition)
    ensures Approvers(rs + [t]) == Approvers(rs) + (if t.action.Approve? then [t.actorId] else [])
  {
    FilterSnoc(rs, t, ByAction(Approve));
  }

  lemma AuthorsSnoc(rs: seq<Transition>, t: Transition)
    ensures AuthorsOf(rs + [t]) == AuthorsOf(rs) + (if RoleOf(t.action).Author? then {t.actorId} else {})
  {
    var all := rs + [t];
    assert all[|rs|] == t;
    assert forall i | 0 <= i < |rs| :: all[i] == rs[i];
    forall x
      ensures x in AuthorsOf(all) <==> x in AuthorsOf(rs) || (RoleOf(t.action).Author? && x == t.actorId)
    {
      if x in AuthorsOf(rs) {
        var i :| 0 <= i < |rs| && RoleOf(rs[i].action).Author? && rs[i].actorId == x;
        assert all[i] == rs[i];
      }
    }
  }

  lemma OfSnoc(history: seq<Transition>, t: Transition, id: string)
    ensures Of(history + [t], id) == Of(history, id) + (if t.claimId == id then [t] else [])
  {
    FilterSnoc(history, t, OfClaim(id));
  }

  /** Whether some record has an action, by its count. */
  lemma HasCounts(rs: seq<Transition>, a: Action)
    ensures Has(rs, a) <==> Count(rs, a) > 0
  {
    FilterIn(rs, ByAction(a));
    var f := Filter(rs, ByAction(a));
    if Has(rs, a) {
      var i :| 0 <= i < |rs| && rs[i].action == a;
      assert rs[i] in f;
    }
    if Count(rs, a) > 0 {
      assert f[0] in f;
      assert f[0] in rs;
    }
  }

  lemma ReferencesIn(rs: seq<Transition>, a: Action, id: string)
    ensures id in References(rs, a) <==> exists i | 0 <= i < |rs| :: rs[i].action == a && Reference(rs[i]) == id
  {
    var f := Filter(rs, ByAction(a));
    FilterIn(rs, ByAction(a));
    MapIn(f, Reference);
    if exists i | 0 <= i < |rs| :: rs[i].action == a && Reference(rs[i]) == id {
      var i :| 0 <= i < |rs| && rs[i].action == a && Reference(rs[i]) == id;
      assert rs[i] in f;
    }
  }

  lemma ApproversIn(rs: seq<Transition>, id: string)
    ensures id in Approvers(rs) <==> exists i | 0 <= i < |rs| :: rs[i].action.Approve? && rs[i].actorId == id
  {
    var f := Filter(rs, ByAction(Approve));
    FilterIn(rs, ByAction(Approve));
    MapIn(f, ActorOf);
    if exists i | 0 <= i < |rs| :: rs[i].action.Approve? && rs[i].actorId == id {
      var i :| 0 <= i < |rs| && rs[i].action.Approve? && rs[i].actorId == id;
      assert rs[i] in f;
    }
  }

  lemma IndependentExact(rs: seq<Transition>, actor: string)
    ensures IsIndependent(rs, actor) <==> actor !in AuthorsOf(rs) && actor !in Approvers(rs)
  {
    ApproversIn(rs, actor);
  }

  /** The order in which the records of one claim can come. */
  predicate Orderly(quorum: nat, rs: seq<Transition>) {
    && (forall i | 0 <= i < |rs| && (rs[i].action.BindEvidence? || rs[i].action.BindArtifact?) ::
        rs[i].referenceId.Some?)
    && Count(rs, Approve) <= quorum
    && (Has(rs, Reject) || Has(rs, Approve) ==> Has(rs, Submit))
    && (Has(rs, Revoke) ==> Count(rs, Approve) == quorum)
    && (Has(rs, Reject) ==> Count(rs, Approve) < quorum)
  }

  lemma UnboundExact(quorum: nat, rs: seq<Transition>, t: Transition)
    requires Orderly(quorum, rs) && t.referenceId.Some? && (t.action.BindEvidence? || t.action.BindArtifact?)
    ensures Unbound(rs, t) <==> t.referenceId.value !in References(rs, t.action)
  {
    hide Has, Count;
    ReferencesIn(rs, t.action, t.referenceId.value);
  }

  lemma OrderlySnoc(w: World, rs: seq<Transition>, t: Transition)
    requires 1 <= w.policy.quorum && (rs == [] || Orderly(w.policy.quorum, rs)) && Admissible(w, rs, t)
    ensures Orderly(w.policy.quorum, rs + [t])
  {
    hide Count, Has, References, Approvers, AuthorsOf, Entitled, IsIndependent, Unbound;
    ClaimFacts(rs, t);
    if rs == [] {
      NothingYet();
    }
  }

  lemma NothingYet()
    ensures forall a: Action :: !Has([], a) && Count([], a) == 0 && References([], a) == []
    ensures Approvers([]) == [] && AuthorsOf([]) == {}
  {
    forall a: Action
      ensures Count([], a) == 0
    {
      assert Filter([], ByAction(a)) == [];
    }
  }

  // ----- One step of replay, by the records -----

  /** The step on an existing claim leaves the claim the records then describe. */
  lemma ClaimStepState(w: World, claims: Claims, t: Transition, rs: seq<Transition>)
    requires ValidPolicy(w.policy)
    requires rs != [] && Orderly(w.policy.quorum, rs) && rs[0].claimId == t.claimId
    requires t.claimId in claims && claims[t.claimId] == StateOf(w.policy.quorum, rs)
    requires Step(w, claims, t).Ok?
    ensures Step(w, claims, t).value == claims[t.claimId := StateOf(w.policy.quorum, rs + [t])]
  {
    hide FindEvidence, FindArtifact, EvidenceFits, ArtifactFits, Has, Count, References, Approvers, AuthorsOf;
    ClaimFacts(rs, t);
    StateSnoc(w.policy.quorum, rs, t);
    var x, y := StateOf(w.policy.quorum, rs), StateOf(w.policy.quorum, rs + [t]);
    var z := Step(w, claims, t).value[t.claimId];
    assert z.evidenceIds == y.evidenceIds && z.artifactIds == y.artifactIds && z.approvals == y.approvals;
    assert z.authors == y.authors;
    assert z.status == y.status;
  }

  /** The step on an existing claim succeeds exactly when the record is admissible. */
  lemma ClaimStepExact(w: World, claims: Claims, t: Transition, rs: seq<Transition>)
    requires Resolvable(w) && ValidPolicy(w.policy)
    requires rs != [] && Orderly(w.policy.quorum, rs) && rs[0].claimId == t.claimId
    requires t.claimId in claims && claims[t.claimId] == StateOf(w.policy.quorum, rs)
    ensures Step(w, claims, t).Ok? <==> Admissible(w, rs, t)
  {
    hide FindEvidence, FindArtifact, EvidenceFits, ArtifactFits, Has, Count, References, Approvers, AuthorsOf,
      IsIndependent, Unbound, NamesEvidence, NamesArtifact;
    ClaimFacts(rs, t);
    IndependentExact(rs, t.actorId);
    EvidenceNamed(w, t);
    ArtifactNamed(w, t);
    if t.referenceId.Some? && (t.action.BindEvidence? || t.action.BindArtifact?) {
      UnboundExact(w.policy.quorum, rs, t);
    }
  }

  /** What one more record changes in the description of a claim, field by field. */
  lemma StateSnoc(quorum: nat, rs: seq<Transition>, t: Transition)
    requires rs != []
    ensures var x, y := StateOf(quorum, rs), StateOf(quorum, rs + [t]);
            && y.claimId == x.claimId && y.scope == x.scope && y.statement == x.statement
            && y.revision == x.revision + 1
            && y.authors == x.authors + (if RoleOf(t.action).Author? then {t.actorId} else {})
            && y.evidenceIds == x.evidenceIds + (if t.action.BindEvidence? then [Reference(t)] else [])
            && y.artifactIds == x.artifactIds + (if t.action.BindArtifact? then [Reference(t)] else [])
            && y.approvals == x.approvals + (if t.action.Approve? then [t.actorId] else [])
  {
    hide StatusOf, References, Approvers, AuthorsOf, Has, Count;
    ClaimFacts(rs, t);
    assert (rs + [t])[0] == rs[0];
  }

  /** Everything a claim's description changes by with one more record. */
  lemma ClaimFacts(rs: seq<Transition>, t: Transition)
    ensures forall a: Action :: Has(rs + [t], a) <==> Has(rs, a) || t.action == a
    ensures forall a: Action :: Count(rs + [t], a) == Count(rs, a) + (if t.action == a then 1 else 0)
    ensures forall a: Action :: Has(rs, a) <==> Count(rs, a) > 0
    ensures forall a: Action ::
      References(rs + [t], a) == References(rs, a) + (if t.action == a then [Reference(t)] else [])
    ensures forall a: Action :: |References(rs, a)| == Count(rs, a)
    ensures Approvers(rs + [t]) == Approvers(rs) + (if t.action.Approve? then [t.actorId] else [])
    ensures |Approvers(rs)| == Count(rs, Approve)
    ensures AuthorsOf(rs + [t]) == AuthorsOf(rs) + (if RoleOf(t.action).Author? then {t.actorId} else {})
  {
    forall a: Action
      ensures Has(rs + [t], a) <==> Has(rs, a) || t.action == a
      ensures Count(rs + [t], a) == Count(rs, a) + (if t.action == a then 1 else 0)
      ensures Has(rs, a) <==> Count(rs, a) > 0
      ensures References(rs + [t], a) == References(rs, a) + (if t.action == a then [Reference(t)] else [])
      ensures |References(rs, a)| == Count(rs, a)
    {
      HasSnoc(rs, t, a);
      CountSnoc(rs, t, a);
      HasCounts(rs, a);
      ReferencesSnoc(rs, t, a);
    }
    ApproversSnoc(rs, t);
    AuthorsSnoc(rs, t);
  }

  lemma CreateStepExact(w: World, claims: Claims, t: Transition)
    requires ValidPolicy(w.policy) && t.claimId !in claims
    ensures Step(w, claims, t).Ok? <==> Admissible(w, [], t)
    ensures Step(w, claims, t).Ok? ==> Step(w, claims, t).value == claims[t.claimId := StateOf(w.policy.quorum, [t])]
  {
    hide EvidenceFits, ArtifactFits, AuthorStep, ReviewStep, RevokeStep;
    hide Has, Count, References, Approvers, AuthorsOf;
    NothingYet();
    ClaimFacts([], t);
    assert [] + [t] == [t];
    if Admissible(w, [], t) {
      var claim := StateOf(w.policy.quorum, [t]);
      assert claim.status.Draft?;
      assert claim.authors == {t.actorId};
      assert claim.evidenceIds == [] && claim.artifactIds == [] && claim.approvals == [];
    }
  }

  /** The claims are exactly what the records describe. */
  ghost predicate Described(quorum: nat, history: seq<Transition>, claims: Claims) {
    forall id ::
      && (id in claims <==> Of(history, id) != [])
      && (id in claims ==> claims[id] == StateOf(quorum, Of(history, id)))
      && (id in claims ==> Orderly(quorum, Of(history, id)))
  }

  lemma OfIn(history: seq<Transition>, id: string)
    ensures forall i | 0 <= i < |Of(history, id)| :: Of(history, id)[i].claimId == id
  {
    var f := Of(history, id);
    FilterIn(history, OfClaim(id));
    forall i | 0 <= i < |f|
      ensures f[i].claimId == id
    {
      assert f[i] in f;
    }
  }

  lemma StepExact(w: World, history: seq<Transition>, claims: Claims, t: Transition)
    requires Resolvable(w) && ValidPolicy(w.policy) && Described(w.policy.quorum, history, claims)
    ensures Step(w, claims, t).Ok? <==> Admissible(w, Of(history, t.claimId), t)
    ensures Step(w, claims, t).Ok? ==> Described(w.policy.quorum, history + [t], Step(w, claims, t).value)
  {
    hide Step, Admissible, StateOf, Of, Orderly, Resolvable;
    var rs := Of(history, t.claimId);
    OfIn(history, t.claimId);
    if rs == [] {
      CreateStepExact(w, claims, t);
      assert rs + [t] == [t];
    } else {
      ClaimStepExact(w, claims, t, rs);
    }
    if Step(w, claims, t).Ok? {
      if rs != [] {
        ClaimStepState(w, claims, t, rs);
      }
      OrderlySnoc(w, rs, t);
      forall id
        ensures Of(history + [t], id) == if t.claimId == id then rs + [t] else Of(history, id)
      {
        OfSnoc(history, t, id);
      }
    }
  }

  // ----- Whole runs -----

  /** Replay accepts a history exactly when every record is admissible after the earlier
      records of its claim, and then each claim is what its records describe. */
  lemma {:induction false} ReplayExact(w: World, history: seq<Transition>)
    requires Resolvable(w) && ValidPolicy(w.policy)
    ensures Replay(w, history).Ok? <==> AllAdmissible(w, history)
    ensures Replay(w, history).Ok? ==> Described(w.policy.quorum, history, Replay(w, history).value)
    decreases |history|
  {
    hide Step, Admissible, StateOf, Orderly, Resolvable;
    if history != [] {
      var n := |history| - 1;
      var init := history[..n];
      ReplayExact(w, init);
      assert history == init + [history[n]];
      AllAdmissibleSnoc(w, history);
      if Replay(w, init).Ok? {
        StepExact(w, init, Replay(w, init).value, history[n]);
      }
    }
  }

  lemma AllAdmissibleSnoc(w: World, history: seq<Transition>)
    requires history != []
    ensures var n := |history| - 1;
            AllAdmissible(w, history) <==> AllAdmissible(w, history[..n]) && AdmissibleAt(w, history, n)
  {
    hide Admissible, Of;
    var n := |history| - 1;
    var init := history[..n];
    forall i | 0 <= i < n
      ensures AdmissibleAt(w, init, i) <==> AdmissibleAt(w, history, i)
    {
      assert init[..i] == history[..i];
    }
  }

  /** Authorization of a whole bundle, decided on its records alone. */
  lemma AuthorizeExact(h: HashFunction, c: WorkflowCodec, p: Policy, b: Bundle, expectedHead: Option<Digest>)
    requires ValidPolicy(p) && Intact(h, c, b)
    ensures Authorize(h, c, p, b, expectedHead).Ok? <==>
      && PolicyDigest(h, c, p) == b.authorityDigest
      && (expectedHead.Some? ==> BundleHead(h, c, b) == expectedHead.value)
      && AllAdmissible(WorldOf(p, b), Transitions(b.records))
  {
    hide Intact, Replay, PolicyDigest, BundleHead, AllAdmissible, Resolvable;
    IntactResolves(h, c, p, b);
    ReplayExact(WorldOf(p, b), Transitions(b.records));
  }

  /** Some record of the history does this to the claim. */
  predicate Records(history: seq<Transition>, id: string, a: Action) {
    exists i | 0 <= i < |history| :: history[i].claimId == id && history[i].action == a
  }

  lemma RecordsExact(history: seq<Transition>, id: string, a: Action)
    ensures Records(history, id, a) <==> Has(Of(history, id), a)
  {
    var f := Of(history, id);
    FilterIn(history, OfClaim(id));
    if Records(history, id, a) {
      var i :| 0 <= i < |history| && history[i].claimId == id && history[i].action == a;
      assert history[i] in f;
    }
    if Has(f, a) {
      var i :| 0 <= i < |f| && f[i].action == a;
      assert f[i] in f;
    }
  }

  predicate ApprovesAt(history: seq<Transition>, id: string, i: nat)
    requires i < |history|
  {
    history[i].claimId == id && history[i].action.Approve?
  }

  /** The positions of the approving records of a claim. */
  function Approving(history: seq<Transition>, id: string): set<nat> {
    set i: nat | i < |history| && ApprovesAt(history, id, i)
  }

  lemma ApprovesAtSnoc(history: seq<Transition>, t: Transition, id: string)
    ensures forall i: nat | i < |history| :: ApprovesAt(history + [t], id, i) <==> ApprovesAt(history, id, i)
    ensures ApprovesAt(history + [t], id, |history|) <==> t.claimId == id && t.action.Approve?
  {
  }

  lemma ApprovingSnoc(history: seq<Transition>, t: Transition, id: string)
    ensures |Approving(history + [t], id)| ==
            |Approving(history, id)| + (if t.claimId == id && t.action.Approve? then 1 else 0)
  {
    hide ApprovesAt;
    ApprovesAtSnoc(history, t, id);
    assert Approving(history + [t], id) ==
      Approving(history, id) + (if t.claimId == id && t.action.Approve? then {|history|} else {});
  }

  lemma NoRecords(id: string)
    ensures Of([], id) == [] && Approving([], id) == {}
  {
  }

  lemma {:induction false} ApprovingCount(history: seq<Transition>, id: string)
    ensures |Approving(history, id)| == Count(Of(history, id), Approve)
    decreases |history|
  {
    hide Count, Approving, Of, Has;
    if history == [] {
      NothingYet();
      NoRecords(id);
    } else {
      var n := |history| - 1;
      ApprovingCount(history[..n], id);
      OfSnoc(history[..n], history[n], id);
      ApprovingSnoc(history[..n], history[n], id);
      CountSnoc(Of(history[..n], id), history[n], Approve);
      assert history == history[..n] + [history[n]];
      assert Of(history[..n], id) + [] == Of(history[..n], id);
    }
  }

  /** The status of a claim of an accepted run, from its records: a rejection rejects,
      a revocation revokes, and only a full quorum of approvals approves. */
  lemma StatusFromRecords(w: World, history: seq<Transition>, id: string)
    requires Resolvable(w) && ValidPolicy(w.policy)
    requires Replay(w, history).Ok? && id in Replay(w, history).value
    ensures var status := Replay(w, history).value[id].status;
            && (status.Rejected? <==> Records(history, id, Reject))
            && (status.Revoked? <==> Records(history, id, Revoke))
            && (status.Draft? <==> !Records(history, id, Submit))
            && (status.Approved? <==>
                 |Approving(history, id)| == w.policy.quorum && !Records(history, id, Revoke))
  {
    hide Records, Has, Count, Approving, Resolvable, AllAdmissible, Of;
    ReplayExact(w, history);
    var rs := Of(history, id);
    forall a: Action
      ensures Records(history, id, a) <==> Has(rs, a)
      ensures Has(rs, a) <==> Count(rs, a) > 0
    {
      RecordsExact(history, id, a);
      HasCounts(rs, a);
    }
    ApprovingCount(history, id);
  }

  /** The positions of a claim's records. */
  function Positions(history: seq<Transition>, id: string): set<nat> {
    set i: nat | i < |history| && history[i].claimId == id
  }

  lemma PositionsSnoc(history: seq<Transition>, t: Transition, id: string)
    ensures |Positions(history + [t], id)| == |Positions(history, id)| + (if t.claimId == id then 1 else 0)
  {
    var all := history + [t];
    assert all[|history|] == t && forall i | 0 <= i < |history| :: all[i] == history[i];
    assert Positions(all, id) == Positions(history, id) + (if t.claimId == id then {|history|} else {});
  }

  lemma {:induction false} OfSize(history: seq<Transition>, id: string)
    ensures |Positions(history, id)| == |Of(history, id)|
    decreases |history|
  {
    if history == [] {
      assert Positions(history, id) == {};
    } else {
      hide Positions, Of;
      var n := |history| - 1;
      OfSize(history[..n], id);
      OfSnoc(history[..n], history[n], id);
      PositionsSnoc(history[..n], history[n], id);
      assert history == history[..n] + [history[n]];
    }
  }

  /** Every accepted record names the number of earlier records of its claim, and a
      claim's revision is the number of its records. */
  lemma RevisionsExact(w: World, history: seq<Transition>)
    requires Resolvable(w) && ValidPolicy(w.policy) && Replay(w, history).Ok?
    ensures forall i | 0 <= i < |history| ::
      history[i].expectedRevision == |Positions(history[..i], history[i].claimId)|
    ensures var claims := Replay(w, history).value;
            forall id | id in claims :: claims[id].revision == |Positions(history, id)|
  {
    hide Resolvable, Of, InStage, Entitled, Positions;
    ReplayExact(w, history);
    forall i | 0 <= i < |history|
      ensures history[i].expectedRevision == |Positions(history[..i], history[i].claimId)|
    {
      assert AdmissibleAt(w, history, i);
      OfSize(history[..i], history[i].claimId);
    }
    var claims := Replay(w, history).value;
    forall id | id in claims
      ensures claims[id].revision == |Positions(history, id)|
    {
      OfSize(history, id);
    }
  }
}
