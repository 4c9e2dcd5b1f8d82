/** The authority workflow (workflow.py, authority.py): hash-chained receipts of
    transitions, replayed from the start against an independently trusted policy.
 */
module Workflow {
  import opened Wrappers
  import opened Hashing
  import Ledger

  const MAX_WORKFLOW_RECORDS := 10_000
  const MAX_WORKFLOW_ARTIFACTS := 1_024
  const MAX_WORKFLOW_BYTES := 64 * 1024 * 1024

  // ----- Authority -----

  datatype ActorKind = Human | Automation

  datatype Role = Author | Reviewer | Revoker

  datatype Grant = Grant(scope: string, role: Role)

  datatype Actor = Actor(kind: ActorKind, grants: set<Grant>)
  {
    predicate Permits(scope: string, role: Role) {
      Grant(scope, role) in grants
    }
  }

  /** A registry of actors by identity, as the replay loop indexes it. */
  datatype Policy = Policy(policyId: string, actors: map<string, Actor>, quorum: nat)

  predicate ValidPolicy(p: Policy) {
    1 <= p.quorum <= 16 && 1 <= |p.actors| <= 256
  }

  datatype Action = Create | BindEvidence | BindArtifact | Submit | Approve | Reject | Revoke

  datatype Status = Draft | Submitted | Approved | Rejected | Revoked

  datatype Transition = Transition(
    transitionId: string,
    action: Action,
    actorId: string,
    scope: string,
    claimId: string,
    expectedRevision: nat,
    statement: Option<string>,
    referenceId: Option<string>,
    referenceDigest: Option<Digest>,
    reason: Option<string>)

  /** The shape rules of the transition constructor. */
  predicate ValidTransition(t: Transition) {
    && (t.action.Create? <==> t.statement.Some?)
    && (t.action.BindEvidence? || t.action.BindArtifact? <==> t.referenceId.Some?)
    && (t.referenceId.Some? <==> t.referenceDigest.Some?)
    && (t.action.Reject? || t.action.Revoke? <==> t.reason.Some?)
    && t.expectedRevision <= MAX_WORKFLOW_RECORDS
  }

  datatype Artifact = Artifact(
    artifactId: string, scope: string, claimId: string, sha256: Digest, sizeBytes: nat, mediaType: string)

  // ----- Claims -----

  datatype Claim = Claim(
    claimId: string,
    scope: string,
    statement: string,
    status: Status,
    revision: nat,
    authors: set<string>,
    evidenceIds: seq<string>,
    artifactIds: seq<string>,
    approvals: seq<string>)

  type Claims = map<string, Claim>

  /** Why replay refuses a transition, in the order the checks are made. */
  datatype Refusal =
    | LacksScopedRole
    | NotHuman
    | CreateNotNew
    | MissingOrOtherScope
    | StaleRevision
    | NotDraft
    | EvidenceMismatch
    | ArtifactMismatch
    | NothingBound
    | NotSubmitted
    | ReviewerNotIndependent
    | NotApproved
    | RevokerNotIndependent

  /** The fixed inputs of a replay besides the receipts. */
  datatype World = World(policy: Policy, evidence: seq<Ledger.Entry>, artifacts: seq<Artifact>)

  function RoleOf(action: Action): Role {
    match action
    case Approve => Reviewer
    case Reject => Reviewer
    case Revoke => Revoker
    case _ => Author
  }

  function FindEvidence(entries: seq<Ledger.Entry>, id: string): (r: Option<Ledger.Entry>)
    ensures r.Some? ==> r.value in entries && r.value.eventId == id
  {
    if entries == [] then None
    else
      var last := entries[|entries| - 1];
      if last.eventId == id then Some(last) else FindEvidence(entries[..|entries| - 1], id)
  }

  function FindArtifact(artifacts: seq<Artifact>, id: string): (r: Option<Artifact>)
    ensures r.Some? ==> r.value in artifacts && r.value.artifactId == id
  {
    if artifacts == [] then None
    else
      var last := artifacts[|artifacts| - 1];
      if last.artifactId == id then Some(last) else FindArtifact(artifacts[..|artifacts| - 1], id)
  }

  /** The receipt is about this claim and marked for its scope. */
  predicate EvidenceFits(e: Ledger.Entry, claimId: string, scope: string) {
    && e.event.claim == claimId
    && "workflow_scope" in e.event.attributes
    && e.event.attributes["workflow_scope"] == Ledger.JText(scope)
  }

  predicate ArtifactFits(a: Artifact, claimId: string, scope: string) {
    a.claimId == claimId && a.scope == scope
  }

  /** Authoring a draft: bind a reference or submit. */
  function AuthorStep(w: World, claim: Claim, t: Transition): Result<Claim, Refusal> {
    if !claim.status.Draft? then Err(NotDraft)
    else
      var authored := claim.(authors := claim.authors + {t.actorId});
      match t.action
      case BindEvidence =>
        var e := if t.referenceId.Some? then FindEvidence(w.evidence, t.referenceId.value) else None;
        if e.None? || Some(e.value.digest) != t.referenceDigest
          || !EvidenceFits(e.value, claim.claimId, claim.scope) || e.value.eventId in claim.evidenceIds
        then Err(EvidenceMismatch)
        else Ok(authored.(evidenceIds := claim.evidenceIds + [e.value.eventId]))
      case BindArtifact =>
        var a := if t.referenceId.Some? then FindArtifact(w.artifacts, t.referenceId.value) else None;
        if a.None? || Some(a.value.sha256) != t.referenceDigest
          || !ArtifactFits(a.value, claim.claimId, claim.scope) || a.value.artifactId in claim.artifactIds
        then Err(ArtifactMismatch)
        else Ok(authored.(artifactIds := claim.artifactIds + [a.value.artifactId]))
      case _ =>
        if claim.evidenceIds == [] || claim.artifactIds == [] then Err(NothingBound)
        else Ok(authored.(status := Submitted))
  }

  /** Voting on a submitted claim. */
  function ReviewStep(w: World, claim: Claim, t: Transition): Result<Claim, Refusal> {
    if !claim.status.Submitted? then Err(NotSubmitted)
    else if t.actorId in claim.authors || t.actorId in claim.approvals then Err(ReviewerNotIndependent)
    else if t.action.Reject? then Ok(claim.(status := Rejected))
    else
      var approvals := claim.approvals + [t.actorId];
      Ok(claim.(approvals := approvals, status := if |approvals| >= w.policy.quorum then Approved else Submitted))
  }

  function RevokeStep(claim: Claim, t: Transition): Result<Claim, Refusal> {
    if !claim.status.Approved? then Err(NotApproved)
    else if t.actorId in claim.authors || t.actorId in claim.approvals then Err(RevokerNotIndependent)
    else Ok(claim.(status := Revoked))
  }

  /** One transition against the claims so far. */
  function Step(w: World, claims: Claims, t: Transition): Result<Claims, Refusal> {
    var role := RoleOf(t.action);
    if t.actorId !in w.policy.actors || !w.policy.actors[t.actorId].Permits(t.scope, role) then Err(LacksScopedRole)
    else if !role.Author? && !w.policy.actors[t.actorId].kind.Human? then Err(NotHuman)
    else if t.action.Create? then
      if t.claimId in claims || t.expectedRevision != 0 then Err(CreateNotNew)
      else
        var statement := if t.statement.Some? then t.statement.value else "None";
        Ok(claims[t.claimId := Claim(t.claimId, t.scope, statement, Draft, 1, {t.actorId}, [], [], [])])
    else if t.claimId !in claims || claims[t.claimId].scope != t.scope then Err(MissingOrOtherScope)
    else if t.expectedRevision != claims[t.claimId].revision then Err(StaleRevision)
    else
      var claim := claims[t.claimId];
      var r := match role
               case Author => AuthorStep(w, claim, t)
               case Reviewer => ReviewStep(w, claim, t)
               case Revoker => RevokeStep(claim, t);
      if r.Err? then Err(r.error)
      else Ok(claims[claim.claimId := r.value.(revision := claim.revision + 1)])
  }

  /** Replay from the empty state, stopping at the first refusal. */
  function Replay(w: World, history: seq<Transition>): Result<Claims, Refusal> {
    if history == [] then Ok(map[])
    else
      var before := Replay(w, history[..|history| - 1]);
      if before.Err? then before else Step(w, before.value, history[|history| - 1])
  }

  /** Every prefix of an authorized history is authorized. */
  lemma {:induction false} ReplayPrefix(w: World, history: seq<Transition>, n: nat)
    requires n <= |history| && Replay(w, history).Ok?
    ensures Replay(w, history[..n]).Ok?
    decreases |history|
  {
    hide Step;
    if n < |history| {
      var init := history[..|history| - 1];
      ReplayPrefix(w, init, n);
      assert init[..n] == history[..n];
    } else {
      assert history[..n] == history;
    }
  }

  // ----- Bundles -----

  datatype Receipt = Receipt(
    sequence: nat, context: Digest, previous: Digest, transition: Transition, digest: Digest)

  datatype Bundle = Bundle(
    workflowId: string,
    authorityDigest: Digest,
    evidence: Ledger.EvidenceLedger,
    artifacts: seq<Artifact>,
    records: seq<Receipt>)

  /** Canonical JSON: the hashed byte strings, and the encoded sizes that limits count. */
  datatype WorkflowCodec = WorkflowCodec(
    chain: Ledger.ChainCodec,
    policy: Policy -> Bytes,
    context: (string, Digest, Digest, seq<Artifact>) -> Bytes,
    receipt: (nat, Digest, Digest, Transition) -> Bytes,
    frameBytes: (string, Digest, Ledger.EvidenceLedger, seq<Artifact>) -> nat,
    receiptBytes: Receipt -> nat)

  function PolicyDigest(h: HashFunction, c: WorkflowCodec, p: Policy): Digest {
    h(c.policy(p))
  }

  function ContextDigest(h: HashFunction, c: WorkflowCodec, b: Bundle): Digest {
    h(c.context(b.workflowId, b.authorityDigest, Ledger.Head(b.evidence.entries, b.evidence.genesis), b.artifacts))
  }

  function ReceiptDigest(h: HashFunction, c: WorkflowCodec, r: Receipt): Digest {
    h(c.receipt(r.sequence, r.context, r.previous, r.transition))
  }

  function HeadOf(context: Digest, records: seq<Receipt>): Digest {
    if records == [] then context else records[|records| - 1].digest
  }

  function BundleHead(h: HashFunction, c: WorkflowCodec, b: Bundle): Digest {
    HeadOf(ContextDigest(h, c, b), b.records)
  }

  function DecimalDigits(n: nat): nat {
    if n < 10 then 1 else 1 + DecimalDigits(n / 10)
  }

  function ReceiptsBytes(c: WorkflowCodec, records: seq<Receipt>): nat {
    if records == [] then 0
    else ReceiptsBytes(c, records[..|records| - 1]) + c.receiptBytes(records[|records| - 1])
  }

  /** The canonical size of a whole bundle: fixed frame, record count, receipts and commas. */
  function BundleBytes(c: WorkflowCodec, b: Bundle): nat {
    c.frameBytes(b.workflowId, b.authorityDigest, b.evidence, b.artifacts)
    + DecimalDigits(|b.records|)
    + ReceiptsBytes(c, b.records)
    + (if b.records == [] then 0 else |b.records| - 1)
  }

  predicate ReceiptAt(h: HashFunction, c: WorkflowCodec, context: Digest, records: seq<Receipt>, i: nat)
    requires i < |records|
  {
    var r := records[i];
    && r.sequence == i
    && r.context == context
    && r.previous == HeadOf(context, records[..i])
    && r.digest == ReceiptDigest(h, c, r)
    && ValidTransition(r.transition)
  }

  /** The receipt chain is intact and transition identities are unique. */
  predicate ChainIntact(h: HashFunction, c: WorkflowCodec, context: Digest, records: seq<Receipt>) {
    && (forall i | 0 <= i < |records| :: ReceiptAt(h, c, context, records, i))
    && (forall i, j | 0 <= i < j < |records| ::
          records[i].transition.transitionId != records[j].transition.transitionId)
  }

  predicate DistinctArtifacts(artifacts: seq<Artifact>) {
    forall i, j | 0 <= i < j < |artifacts| :: artifacts[i].artifactId != artifacts[j].artifactId
  }

  /** What the bundle constructor admits. */
  predicate Intact(h: HashFunction, c: WorkflowCodec, b: Bundle) {
    && Ledger.Verified(h, c.chain, b.evidence)
    && |b.artifacts| <= MAX_WORKFLOW_ARTIFACTS
    && DistinctArtifacts(b.artifacts)
    && |b.records| <= MAX_WORKFLOW_RECORDS
    && ChainIntact(h, c, ContextDigest(h, c, b), b.records)
    && BundleBytes(c, b) <= MAX_WORKFLOW_BYTES
  }

  function Transitions(records: seq<Receipt>): (r: seq<Transition>)
    ensures |r| == |records|
    ensures forall i | 0 <= i < |r| :: r[i] == records[i].transition
  {
    seq(|records|, i requires 0 <= i < |records| => records[i].transition)
  }

  function WorldOf(p: Policy, b: Bundle): World {
    World(p, b.evidence.entries, b.artifacts)
  }

  /** The outcome of replaying a bundle under a trusted policy. */
  datatype Denial = WrongPolicy | WrongHead | Refused(refusal: Refusal)

  function Authorize(h: HashFunction, c: WorkflowCodec, p: Policy, b: Bundle, expectedHead: Option<Digest>)
    : Result<Claims, Denial>
  {
    if PolicyDigest(h, c, p) != b.authorityDigest then Err(WrongPolicy)
    else if expectedHead.Some? && BundleHead(h, c, b) != expectedHead.value then Err(WrongHead)
    else
      match Replay(WorldOf(p, b), Transitions(b.records))
      case Ok(claims) => Ok(claims)
      case Err(e) => Err(Refused(e))
  }

  /** The replay loop with its dictionary of claims. */
  method ReplayWorkflow(h: HashFunction, c: WorkflowCodec, p: Policy, b: Bundle, expectedHead: Option<Digest>)
    returns (r: Result<Claims, Denial>)
    ensures r == Authorize(h, c, p, b, expectedHead)
  {
    hide Step, PolicyDigest, BundleHead, WorldOf;
    if PolicyDigest(h, c, p) != b.authorityDigest {
      return Err(WrongPolicy);
    }
    if expectedHead.Some? && BundleHead(h, c, b) != expectedHead.value {
      return Err(WrongHead);
    }
    var w := WorldOf(p, b);
    var claims: Claims := map[];
    ghost var history := Transitions(b.records);
    for i := 0 to |b.records|
      invariant Replay(w, history[..i]) == Ok(claims)
    {
      assert history[..i + 1][..i] == history[..i];
      var next := Step(w, claims, b.records[i].transition);
      if next.Err? {
        FirstRefusal(w, history, i + 1);
        return Err(Refused(next.error));
      }
      claims := next.value;
    }
    assert history[..|b.records|] == history;
    r := Ok(claims);
  }

  /** A refusal is final: nothing after it changes the answer. */
  lemma {:induction false} FirstRefusal(w: World, history: seq<Transition>, n: nat)
    requires n <= |history| && Replay(w, history[..n]).Err?
    ensures Replay(w, history) == Replay(w, history[..n])
    decreases |history|
  {
    hide Step;
    if n < |history| {
      var init := history[..|history| - 1];
      assert init[..n] == history[..n];
      FirstRefusal(w, init, n);
    } else {
      assert history[..n] == history;
    }
  }

  // ----- Append -----

  /** Chain one more receipt for `t`. */
  function Extend1(h: HashFunction, c: WorkflowCodec, b: Bundle, t: Transition): Bundle {
    var context := ContextDigest(h, c, b);
    var pending := Receipt(|b.records|, context, HeadOf(context, b.records), t, context);
    b.(records := b.records + [pending.(digest := ReceiptDigest(h, c, pending))])
  }

  function Extend(h: HashFunction, c: WorkflowCodec, b: Bundle, ts: seq<Transition>): Bundle {
    if ts == [] then b
    else Extend1(h, c, Extend(h, c, b, ts[..|ts| - 1]), ts[|ts| - 1])
  }

  /** Append is all or nothing: chain everything, then re-check and replay the whole. */
  function Append(h: HashFunction, c: WorkflowCodec, p: Policy, b: Bundle, ts: seq<Transition>): Option<Bundle> {
    if Authorize(h, c, p, b, None).Err? || |b.records| + |ts| > MAX_WORKFLOW_RECORDS then None
    else
      var result := Extend(h, c, b, ts);
      if Intact(h, c, result) && Authorize(h, c, p, result, None).Ok? then Some(result)
      else None
  }

  method AppendTransitions(h: HashFunction, c: WorkflowCodec, p: Policy, b: Bundle, ts: seq<Transition>)
    returns (r: Option<Bundle>)
    requires Intact(h, c, b)
    ensures r == Append(h, c, p, b, ts)
  {
    hide Step, Intact, Replay, ReceiptDigest;
    var authorized := ReplayWorkflow(h, c, p, b, None);
    if authorized.Err? {
      return None;
    }
    var records := b.records;
    var previous := BundleHead(h, c, b);
    var context := ContextDigest(h, c, b);
    for i := 0 to |ts|
      invariant b.(records := records) == Extend(h, c, b, ts[..i])
      invariant |records| == |b.records| + i
      invariant |b.records| <= MAX_WORKFLOW_RECORDS ==> |records| <= MAX_WORKFLOW_RECORDS
      invariant previous == HeadOf(context, records)
    {
      if |records| >= MAX_WORKFLOW_RECORDS {
        return None;
      }
      assert ts[..i + 1][..i] == ts[..i];
      var pending := Receipt(|records|, context, previous, ts[i], context);
      var receipt := pending.(digest := ReceiptDigest(h, c, pending));
      records := records + [receipt];
      previous := receipt.digest;
    }
    assert ts[..|ts|] == ts;
    var result := b.(records := records);
    if |records| > MAX_WORKFLOW_RECORDS || !Intact(h, c, result) {
      return None;
    }
    var replayed := ReplayWorkflow(h, c, p, result, None);
    r := if replayed.Ok? then Some(result) else None;
  }

  // ----- Batch invariance -----

  function Take(b: Bundle, n: nat): Bundle
    requires n <= |b.records|
  {
    b.(records := b.records[..n])
  }

  lemma {:induction false} ExtendConcat(h: HashFunction, c: WorkflowCodec, b: Bundle, x: seq<Transition>,
                                        y: seq<Transition>)
    ensures Extend(h, c, b, x + y) == Extend(h, c, Extend(h, c, b, x), y)
    decreases |y|
  {
    hide Extend1;
    if y == [] {
      assert x + y == x;
    } else {
      assert (x + y)[..|x + y| - 1] == x + y[..|y| - 1];
      ExtendConcat(h, c, b, x, y[..|y| - 1]);
    }
  }

  lemma {:induction false} ExtendShape(h: HashFunction, c: WorkflowCodec, b: Bundle, ts: seq<Transition>)
    ensures var e := Extend(h, c, b, ts);
            && |e.records| == |b.records| + |ts|
            && Take(e, |b.records|) == b
            && Transitions(e.records) == Transitions(b.records) + ts
            && ContextDigest(h, c, e) == ContextDigest(h, c, b)
  {
    hide ContextDigest, ReceiptDigest;
    if ts != [] {
      var init := ts[..|ts| - 1];
      ExtendShape(h, c, b, init);
      var d := Extend(h, c, b, init);
      var e := Extend(h, c, b, ts);
      assert e.records[..|d.records|] == d.records;
      assert e.records[..|b.records|] == d.records[..|b.records|];
      assert Transitions(e.records) == Transitions(d.records) + [ts[|ts| - 1]];
      assert ts == init + [ts[|ts| - 1]];
      SameContext(h, c, e, b);
    }
  }

  lemma SameContext(h: HashFunction, c: WorkflowCodec, x: Bundle, y: Bundle)
    requires x.(records := y.records) == y
    ensures ContextDigest(h, c, x) == ContextDigest(h, c, y)
  {
  }

  lemma {:induction false} DigitsMonotone(m: nat, n: nat)
    requires m <= n
    ensures DecimalDigits(m) <= DecimalDigits(n)
  {
    if m >= 10 {
      DigitsMonotone(m / 10, n / 10);
    }
  }

  lemma {:induction false} BytesMonotone(c: WorkflowCodec, records: seq<Receipt>, n: nat)
    requires n <= |records|
    ensures ReceiptsBytes(c, records[..n]) <= ReceiptsBytes(c, records)
    decreases |records|
  {
    if n < |records| {
      BytesMonotone(c, records[..|records| - 1], n);
      assert records[..|records| - 1][..n] == records[..n];
    } else {
      assert records[..n] == records;
    }
  }

  /** Integrity is prefix-closed, including the byte limit of the encoded bundle. */
  lemma IntactPrefix(h: HashFunction, c: WorkflowCodec, b: Bundle, n: nat)
    requires Intact(h, c, b) && n <= |b.records|
    ensures Intact(h, c, Take(b, n))
  {
    hide Ledger.Verified, ReceiptDigest, ContextDigest, ReceiptsBytes, DecimalDigits;
    SameContext(h, c, Take(b, n), b);
    var context := ContextDigest(h, c, b);
    forall i | 0 <= i < n
      ensures ReceiptAt(h, c, context, b.records[..n], i)
    {
      assert ReceiptAt(h, c, context, b.records, i);
      assert b.records[..n][..i] == b.records[..i];
    }
    DigitsMonotone(n, |b.records|);
    BytesMonotone(c, b.records, n);
  }

  /** Authorization is prefix-closed. */
  lemma AuthorizedPrefix(h: HashFunction, c: WorkflowCodec, p: Policy, b: Bundle, n: nat)
    requires n <= |b.records| && Authorize(h, c, p, b, None).Ok?
    ensures Authorize(h, c, p, Take(b, n), None).Ok?
  {
    hide Replay;
    ReplayPrefix(WorldOf(p, b), Transitions(b.records), n);
    assert Transitions(b.records)[..n] == Transitions(b.records[..n]);
  }

  /** An appended bundle is exactly the extension, when the extension is admissible. */
  lemma AppendAdmits(h: HashFunction, c: WorkflowCodec, p: Policy, b: Bundle, ts: seq<Transition>)
    ensures var e := Extend(h, c, b, ts);
            Append(h, c, p, b, ts) ==
              if Intact(h, c, e) && Authorize(h, c, p, e, None).Ok? then Some(e) else None
  {
    hide Authorize, ContextDigest, Extend, ChainIntact, BundleBytes;
    ExtendShape(h, c, b, ts);
    var e := Extend(h, c, b, ts);
    if Authorize(h, c, p, e, None).Ok? {
      AuthorizedPrefix(h, c, p, e, |b.records|);
    }
  }

  /** Batch invariance: one batch is accepted exactly when its two halves are
      accepted in turn, and then receipts and state are identical. */
  lemma BatchInvariance(h: HashFunction, c: WorkflowCodec, p: Policy, b: Bundle, x: seq<Transition>, y: seq<Transition>)
    ensures var first := Append(h, c, p, b, x);
            Append(h, c, p, b, x + y) ==
              if first.None? then None else Append(h, c, p, first.value, y)
  {
    hide Authorize, Intact, Extend, Append;
    AppendAdmits(h, c, p, b, x + y);
    AppendAdmits(h, c, p, b, x);
    ExtendConcat(h, c, b, x, y);
    var d := Extend(h, c, b, x);
    var e := Extend(h, c, d, y);
    AppendAdmits(h, c, p, d, y);
    ExtendShape(h, c, d, y);
    if Intact(h, c, e) && Authorize(h, c, p, e, None).Ok? {
      IntactPrefix(h, c, e, |d.records|);
      AuthorizedPrefix(h, c, p, e, |d.records|);
    }
  }

  /** One refused transition anywhere in a batch refuses the whole batch. */
  lemma RefusedBatch(
    h: HashFunction, c: WorkflowCodec, p: Policy, b: Bundle, x: seq<Transition>, t: Transition, y: seq<Transition>)
    requires Append(h, c, p, b, x).Some? && Append(h, c, p, Append(h, c, p, b, x).value, [t]).None?
    ensures Append(h, c, p, b, x + [t] + y).None?
  {
    hide Append;
    BatchInvariance(h, c, p, b, x + [t], y);
    BatchInvariance(h, c, p, b, x, [t]);
  }
}
