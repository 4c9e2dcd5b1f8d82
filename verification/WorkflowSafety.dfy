/** Safety of every accepted workflow run: quorum, independence, bound references,
    revision accounting, and the constructor checks that therefore never fire.
 */
module WorkflowSafety {
  import opened Workflow
  import opened Ordering

  /** An approver is a declared human with the reviewer grant of the claim's scope. */
  predicate MayReview(p: Policy, scope: string, id: string) {
    id in p.actors && p.actors[id].kind.Human? && p.actors[id].Permits(scope, Reviewer)
  }

  predicate MayAuthor(p: Policy, scope: string, id: string) {
    id in p.actors && p.actors[id].Permits(scope, Author)
  }

  /** The reference resolves to a receipt of this claim and scope. */
  predicate EvidenceBound(w: World, claim: Claim, id: string) {
    exists e :: e in w.evidence && e.eventId == id && EvidenceFits(e, claim.claimId, claim.scope)
  }

  predicate ArtifactBound(w: World, claim: Claim, id: string) {
    exists a :: a in w.artifacts && a.artifactId == id && ArtifactFits(a, claim.claimId, claim.scope)
  }

  /** Approval is the quorum and nothing but the quorum. */
  predicate QuorumExact(p: Policy, claim: Claim) {
    && (claim.status.Approved? || claim.status.Revoked? <==> |claim.approvals| == p.quorum)
    && |claim.approvals| <= p.quorum
    && (claim.status.Draft? ==> claim.approvals == [])
  }

  predicate Independent(p: Policy, claim: Claim) {
    && Distinct(claim.approvals)
    && (forall id | id in claim.approvals :: MayReview(p, claim.scope, id) && id !in claim.authors)
    && (forall id | id in claim.authors :: MayAuthor(p, claim.scope, id))
    && claim.authors != {}
  }

  predicate ReferencesBound(w: World, claim: Claim) {
    && Distinct(claim.evidenceIds) && Distinct(claim.artifactIds)
    && (forall id | id in claim.evidenceIds :: EvidenceBound(w, claim, id))
    && (forall id | id in claim.artifactIds :: ArtifactBound(w, claim, id))
    && (!claim.status.Draft? ==> claim.evidenceIds != [] && claim.artifactIds != [])
    && |claim.evidenceIds| < claim.revision
  }

  predicate SafeClaim(w: World, claim: Claim) {
    QuorumExact(w.policy, claim) && Independent(w.policy, claim) && ReferencesBound(w, claim)
  }

  predicate SafeClaims(w: World, claims: Claims) {
    forall id | id in claims :: claims[id].claimId == id && SafeClaim(w, claims[id])
  }

  lemma DistinctSnoc<T>(s: seq<T>, x: T)
    requires Distinct(s) && x !in s
    ensures Distinct(s + [x])
  {
  }

  lemma AuthorStepSafe(w: World, claim: Claim, t: Transition)
    requires ValidPolicy(w.policy) && SafeClaim(w, claim) && MayAuthor(w.policy, claim.scope, t.actorId)
    requires AuthorStep(w, claim, t).Ok?
    ensures SafeClaim(w, AuthorStep(w, claim, t).value.(revision := claim.revision + 1))
  {
    hide EvidenceFits, ArtifactFits, MayReview, MayAuthor, FindEvidence, FindArtifact;
    var after := AuthorStep(w, claim, t).value.(revision := claim.revision + 1);
    SameReferences(w, claim, after);
    if t.action.BindEvidence? {
      var e := FindEvidence(w.evidence, t.referenceId.value).value;
      DistinctSnoc(claim.evidenceIds, e.eventId);
      assert EvidenceBound(w, after, e.eventId);
    } else if t.action.BindArtifact? {
      var a := FindArtifact(w.artifacts, t.referenceId.value).value;
      DistinctSnoc(claim.artifactIds, a.artifactId);
      assert ArtifactBound(w, after, a.artifactId);
    }
  }

  /** Bound references depend only on the claim's identity and scope. */
  lemma SameReferences(w: World, x: Claim, y: Claim)
    requires x.claimId == y.claimId && x.scope == y.scope
    ensures forall id :: EvidenceBound(w, x, id) <==> EvidenceBound(w, y, id)
    ensures forall id :: ArtifactBound(w, x, id) <==> ArtifactBound(w, y, id)
  {
    hide EvidenceFits, ArtifactFits;
  }

  lemma ReviewStepSafe(w: World, claim: Claim, t: Transition)
    requires ValidPolicy(w.policy) && SafeClaim(w, claim) && MayReview(w.policy, claim.scope, t.actorId)
    requires ReviewStep(w, claim, t).Ok?
    ensures SafeClaim(w, ReviewStep(w, claim, t).value.(revision := claim.revision + 1))
  {
    hide EvidenceBound, ArtifactBound, MayReview, MayAuthor;
    SameReferences(w, claim, ReviewStep(w, claim, t).value.(revision := claim.revision + 1));
    DistinctSnoc(claim.approvals, t.actorId);
  }

  lemma RevokeStepSafe(w: World, claim: Claim, t: Transition)
    requires SafeClaim(w, claim) && RevokeStep(claim, t).Ok?
    ensures SafeClaim(w, RevokeStep(claim, t).value.(revision := claim.revision + 1))
  {
    hide EvidenceBound, ArtifactBound, MayReview, MayAuthor;
    SameReferences(w, claim, RevokeStep(claim, t).value.(revision := claim.revision + 1));
  }

  lemma StepSafe(w: World, claims: Claims, t: Transition)
    requires ValidPolicy(w.policy) && SafeClaims(w, claims) && Step(w, claims, t).Ok?
    ensures SafeClaims(w, Step(w, claims, t).value)
  {
    hide AuthorStep, ReviewStep, RevokeStep, SafeClaim;
    if t.action.Create? {
      NewClaimSafe(w, Step(w, claims, t).value[t.claimId], t.actorId);
    } else {
      match RoleOf(t.action) {
        case Author => AuthorStepSafe(w, claims[t.claimId], t);
        case Reviewer => ReviewStepSafe(w, claims[t.claimId], t);
        case Revoker => RevokeStepSafe(w, claims[t.claimId], t);
      }
      StepKeepsIdentity(w, claims[t.claimId], t);
    }
  }

  lemma NewClaimSafe(w: World, claim: Claim, author: string)
    requires ValidPolicy(w.policy) && MayAuthor(w.policy, claim.scope, author)
    requires claim == Claim(claim.claimId, claim.scope, claim.statement, Draft, 1, {author}, [], [], [])
    ensures SafeClaim(w, claim)
  {
    hide MayAuthor;
  }

  lemma StepKeepsIdentity(w: World, claim: Claim, t: Transition)
    ensures AuthorStep(w, claim, t).Ok? ==> AuthorStep(w, claim, t).value.claimId == claim.claimId
    ensures ReviewStep(w, claim, t).Ok? ==> ReviewStep(w, claim, t).value.claimId == claim.claimId
    ensures RevokeStep(claim, t).Ok? ==> RevokeStep(claim, t).value.claimId == claim.claimId
  {
  }

  /** Approval safety over every accepted run. */
  lemma {:induction false} ApprovalSafety(w: World, history: seq<Transition>)
    requires ValidPolicy(w.policy) && Replay(w, history).Ok?
    ensures SafeClaims(w, Replay(w, history).value)
    decreases |history|
  {
    hide Step, SafeClaim;
    if history != [] {
      var init := history[..|history| - 1];
      ApprovalSafety(w, init);
      StepSafe(w, Replay(w, init).value, history[|history| - 1]);
    }
  }

  // ----- Provenance -----

  predicate Approves(t: Transition, claimId: string, actor: string) {
    t.action.Approve? && t.claimId == claimId && t.actorId == actor
  }

  predicate Authors(t: Transition, claimId: string, actor: string) {
    RoleOf(t.action).Author? && t.claimId == claimId && t.actorId == actor
  }

  /** A claim's approvers and authors are exactly the actors of its approving and
      authoring records: replay invents nobody and forgets nobody. */
  lemma {:induction false} ProvenanceExact(w: World, history: seq<Transition>, claimId: string, actor: string)
    requires ValidPolicy(w.policy) && Replay(w, history).Ok?
    ensures var claims := Replay(w, history).value;
            && ((claimId in claims && actor in claims[claimId].approvals)
                <==> exists i | 0 <= i < |history| :: Approves(history[i], claimId, actor))
            && ((claimId in claims && actor in claims[claimId].authors)
                <==> exists i | 0 <= i < |history| :: Authors(history[i], claimId, actor))
    decreases |history|
  {
    hide Step, Approves, Authors;
    if history != [] {
      var n := |history| - 1;
      var init := history[..n];
      var t := history[n];
      ProvenanceExact(w, init, claimId, actor);
      ApprovalSafety(w, init);
      StepProvenance(w, Replay(w, init).value, t, claimId, actor);
      assert forall i | 0 <= i < n :: init[i] == history[i];
      assert (exists i | 0 <= i < |history| :: Approves(history[i], claimId, actor)) <==>
        Approves(t, claimId, actor) || exists i | 0 <= i < n :: Approves(init[i], claimId, actor);
      assert (exists i | 0 <= i < |history| :: Authors(history[i], claimId, actor)) <==>
        Authors(t, claimId, actor) || exists i | 0 <= i < n :: Authors(init[i], claimId, actor);
    }
  }

  lemma StepProvenance(w: World, claims: Claims, t: Transition, claimId: string, actor: string)
    requires SafeClaims(w, claims) && Step(w, claims, t).Ok?
    ensures var after := Step(w, claims, t).value;
            && ((claimId in after && actor in after[claimId].approvals)
                <==> (claimId in claims && actor in claims[claimId].approvals) || Approves(t, claimId, actor))
            && ((claimId in after && actor in after[claimId].authors)
                <==> (claimId in claims && actor in claims[claimId].authors) || Authors(t, claimId, actor))
  {
    hide SafeClaim, FindEvidence, FindArtifact, EvidenceFits, ArtifactFits;
  }

  // ----- Revision accounting -----

  ghost function SumRevisions(claims: Claims): nat {
    if claims == map[] then 0
    else
      var id :| id in claims;
      claims[id].revision + SumRevisions(claims - {id})
  }

  lemma {:induction false} SumRemove(claims: Claims, id: string)
    requires id in claims
    ensures SumRevisions(claims) == claims[id].revision + SumRevisions(claims - {id})
    decreases |claims|
  {
    var pick :| pick in claims && SumRevisions(claims) == claims[pick].revision + SumRevisions(claims - {pick});
    if pick != id {
      SumRemove(claims - {pick}, id);
      SumRemove(claims - {id}, pick);
      assert claims - {pick} - {id} == claims - {id} - {pick};
    }
  }

  lemma SumSet(claims: Claims, id: string, claim: Claim)
    ensures SumRevisions(claims[id := claim]) + (if id in claims then claims[id].revision else 0)
         == SumRevisions(claims) + claim.revision
  {
    SumRemove(claims[id := claim], id);
    assert claims[id := claim] - {id} == claims - {id};
    if id in claims {
      SumRemove(claims, id);
    } else {
      assert claims - {id} == claims;
    }
  }

  /** The claims' revisions account for every record of the run. */
  lemma {:induction false} RevisionsAccountForRecords(w: World, history: seq<Transition>)
    requires ValidPolicy(w.policy) && Replay(w, history).Ok?
    ensures SumRevisions(Replay(w, history).value) == |history|
    decreases |history|
  {
    hide Step, AuthorStep, ReviewStep, RevokeStep, SumRevisions, SafeClaim;
    if history == [] {
      NoClaims();
    } else {
      var init := history[..|history| - 1];
      RevisionsAccountForRecords(w, init);
      ApprovalSafety(w, init);
      StepAddsOne(w, Replay(w, init).value, history[|history| - 1]);
    }
  }

  lemma NoClaims()
    ensures SumRevisions(map[]) == 0
  {
  }

  lemma StepAddsOne(w: World, claims: Claims, t: Transition)
    requires SafeClaims(w, claims) && Step(w, claims, t).Ok?
    ensures SumRevisions(Step(w, claims, t).value) == SumRevisions(claims) + 1
  {
    hide AuthorStep, ReviewStep, RevokeStep, SumRevisions, SafeClaim;
    var after := Step(w, claims, t).value;
    assert after == claims[t.claimId := after[t.claimId]];
    SumSet(claims, t.claimId, after[t.claimId]);
  }

  lemma {:induction false} RevisionWithinSum(claims: Claims, id: string)
    requires id in claims
    ensures claims[id].revision <= SumRevisions(claims)
  {
    SumRemove(claims, id);
  }

  // ----- Constructor checks that never fire -----

  /** The bounds checked by the claim constructor. */
  predicate ConstructorAdmits(claim: Claim) {
    && 1 <= claim.revision <= MAX_WORKFLOW_RECORDS
    && 1 <= |claim.authors| <= 256
    && |claim.evidenceIds| <= MAX_WORKFLOW_RECORDS && Distinct(claim.evidenceIds)
    && |claim.artifactIds| <= MAX_WORKFLOW_ARTIFACTS && Distinct(claim.artifactIds)
    && |claim.approvals| <= 16 && Distinct(claim.approvals)
    && (forall id | id in claim.approvals :: id !in claim.authors)
  }

  /** Replay of any admissible history never fails in a claim or state constructor:
      the only errors are the thirteen transition refusals. */
  lemma ConstructorsNeverFail(w: World, history: seq<Transition>, id: string)
    requires ValidPolicy(w.policy) && |history| <= MAX_WORKFLOW_RECORDS
    requires |w.artifacts| <= MAX_WORKFLOW_ARTIFACTS
    requires Replay(w, history).Ok? && id in Replay(w, history).value
    ensures ConstructorAdmits(Replay(w, history).value[id])
  {
    hide Replay, EvidenceBound, EvidenceFits, ArtifactFits, QuorumExact;
    var claims := Replay(w, history).value;
    var claim := claims[id];
    ApprovalSafety(w, history);
    RevisionsAccountForRecords(w, history);
    RevisionWithinSum(claims, id);
    assert QuorumExact(w.policy, claim);
    QuorumBound(w.policy, claim);
    assert claim.authors <= w.policy.actors.Keys;
    SubsetSmaller(claim.authors, w.policy.actors.Keys);
    ArtifactsBounded(w, claim);
  }

  lemma QuorumBound(p: Policy, claim: Claim)
    requires ValidPolicy(p) && QuorumExact(p, claim)
    ensures |claim.approvals| <= 16
  {
  }

  lemma {:induction false} SubsetSmaller<T>(a: set<T>, b: set<T>)
    requires a <= b
    ensures |a| <= |b|
    decreases |a|
  {
    if a != {} {
      var x :| x in a;
      SubsetSmaller(a - {x}, b - {x});
    }
  }

  lemma ArtifactsBounded(w: World, claim: Claim)
    requires ReferencesBound(w, claim)
    ensures |claim.artifactIds| <= |w.artifacts|
  {
    hide EvidenceBound, ArtifactFits;
    var ids := set id | id in claim.artifactIds;
    var all := set i | 0 <= i < |w.artifacts| :: w.artifacts[i].artifactId;
    forall id | id in ids
      ensures id in all
    {
      assert ArtifactBound(w, claim, id);
      var a :| a in w.artifacts && a.artifactId == id;
      var i :| 0 <= i < |w.artifacts| && w.artifacts[i] == a;
      assert w.artifacts[i].artifactId == id;
    }
    SubsetSmaller(ids, all);
    DistinctSize(claim.artifactIds);
    ImageBound(w.artifacts);
  }

  lemma {:induction false} DistinctSize<T>(s: seq<T>)
    requires Distinct(s)
    ensures |set x | x in s| == |s|
    decreases |s|
  {
    if s != [] {
      var n := |s| - 1;
      DistinctSize(s[..n]);
      assert (set x | x in s) == (set x | x in s[..n]) + {s[n]};
    }
  }

  lemma {:induction false} ImageBound(artifacts: seq<Artifact>)
    ensures |set i | 0 <= i < |artifacts| :: artifacts[i].artifactId| <= |artifacts|
    decreases |artifacts|
  {
    if artifacts != [] {
      var n := |artifacts| - 1;
      var init := artifacts[..n];
      ImageBound(init);
      var small := set i | 0 <= i < |init| :: init[i].artifactId;
      var big := set i | 0 <= i < |artifacts| :: artifacts[i].artifactId;
      forall id | id in big
        ensures id in small + {artifacts[n].artifactId}
      {
        var i :| 0 <= i < |artifacts| && artifacts[i].artifactId == id;
        if i < n { assert init[i].artifactId == id; }
      }
      SubsetSmaller(big, small + {artifacts[n].artifactId});
    }
  }

  // ----- Terminal states -----

  function Rank(s: Status): nat {
    match s
    case Draft => 0
    case Submitted => 1
    case Approved => 2
    case Rejected => 3
    case Revoked => 3
  }

  /** No accepted transition moves a claim backwards, and rejected and revoked
      claims are never touched again. */
  lemma StatusOnlyAdvances(w: World, claims: Claims, t: Transition, id: string)
    requires SafeClaims(w, claims) && Step(w, claims, t).Ok? && id in claims
    ensures var after := Step(w, claims, t).value;
            && id in after
            && Rank(claims[id].status) <= Rank(after[id].status)
            && (Rank(claims[id].status) == 3 ==> after[id] == claims[id])
            && claims[id].scope == after[id].scope
            && claims[id].statement == after[id].statement
            && claims[id].evidenceIds <= after[id].evidenceIds
            && claims[id].artifactIds <= after[id].artifactIds
            && claims[id].approvals <= after[id].approvals
            && claims[id].authors <= after[id].authors
  {
    hide SafeClaim, FindEvidence, FindArtifact, EvidenceFits, ArtifactFits;
    if !t.action.Create? && t.claimId == id {
      assert claims[id].claimId == id;
    }
  }

  /** The same over whole runs: what a prefix of an accepted history settled stays settled. */
  lemma {:induction false} SettledStaysSettled(w: World, history: seq<Transition>, n: nat, id: string)
    requires ValidPolicy(w.policy) && n <= |history| && Replay(w, history).Ok?
    requires Replay(w, history[..n]).Ok? && id in Replay(w, history[..n]).value
    ensures id in Replay(w, history).value
    ensures var before, after := Replay(w, history[..n]).value[id], Replay(w, history).value[id];
            && Rank(before.status) <= Rank(after.status)
            && (Rank(before.status) == 3 ==> after == before)
            && before.approvals <= after.approvals
    decreases |history|
  {
    hide Step, SafeClaim, Rank;
    if n == |history| {
      assert history[..n] == history;
    } else {
      var init := history[..|history| - 1];
      assert init[..n] == history[..n];
      SettledStaysSettled(w, init, n, id);
      ApprovalSafety(w, init);
      StatusOnlyAdvances(w, Replay(w, init).value, history[|history| - 1], id);
    }
  }
}
