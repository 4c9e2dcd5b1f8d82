/** One epistemic case (epistemic_case.py): a hash-chained journal of a plan, its
    observation, the verdict and the decision, replayed against a trusted policy.
 */
module EpistemicCase {
  import opened Wrappers
  import opened Hashing
  import Ledger

  const MAX_RECORDS := 512
  const MAX_WIRE_BYTES := 2 * 1024 * 1024
  const MAX_RECORD_BYTES := 16 * 1024

  datatype ActorKind = ModelActor | ToolActor | HumanActor | PolicyActor

  datatype Role = Propose | Observe | Evaluate | Decide

  datatype Grant = Grant(scope: string, role: Role)

  datatype Actor = Actor(kind: ActorKind, grants: set<Grant>)
  {
    predicate Permits(scope: string, role: Role) {
      Grant(scope, role) in grants
    }
  }

  datatype Authority = Authority(policyId: string, actors: map<string, Actor>)

  datatype Status = ObservedStatus | Unavailable | ErrorStatus

  datatype Outcome = Supported | Refuted | Inconclusive

  datatype Disposition = Approve | Reject | Defer

  /** The plan fields replay and storage depend on; `text` stands for the rest. */
  datatype Plan = Plan(
    caseId: string,
    scope: string,
    proposerId: string,
    assertionId: string,
    assertionSha: Digest,
    inputId: string,
    inputSha: Digest,
    predictionSha: Digest,
    testId: string,
    adapterId: string,
    adapterVersion: string,
    authorityDigest: Digest,
    text: seq<string>)

  datatype Observation = Observation(
    planDigest: Digest,
    requestId: string,
    observerId: string,
    status: Status,
    inputSha: Digest,
    observedSha: Option<Digest>,
    artifactId: Option<string>,
    errorCode: Option<string>)

  datatype Verdict = Verdict(planDigest: Digest, observationDigest: Digest, evaluatorId: string, outcome: Outcome)

  datatype Decision = Decision(verdictDigest: Digest, deciderId: string, disposition: Disposition, reason: string)

  datatype Record =
    | PlanRecord(plan: Plan)
    | ObservationRecord(observation: Observation)
    | VerdictRecord(verdict: Verdict)
    | DecisionRecord(decision: Decision)

  /** Canonical JSON of records, and of the authority. */
  datatype CaseCodec = CaseCodec(record: Record -> Bytes, authority: Authority -> Bytes)

  ghost predicate Lossless(c: CaseCodec) {
    forall x, y :: c.record(x) == c.record(y) ==> x == y
  }

  function Domain(): Bytes {
    Ascii("evidence-braid:epistemic-case:v1") + [0]
  }

  function Tagged(tag: byte, payload: Bytes): Bytes {
    Framed(Domain(), tag, payload)
  }

  function RecordTag(r: Record): byte {
    match r
    case PlanRecord(_) => 80
    case ObservationRecord(_) => 79
    case VerdictRecord(_) => 86
    case DecisionRecord(_) => 68
  }

  function RecordDigest(h: HashFunction, c: CaseCodec, r: Record): Digest {
    h(Tagged(RecordTag(r), c.record(r)))
  }

  /** The shape rules of the record constructors. */
  predicate ValidRecord(c: CaseCodec, r: Record) {
    && |c.record(r)| <= MAX_RECORD_BYTES
    && (r.PlanRecord? ==>
          && r.plan.assertionId != r.plan.inputId
          && |r.plan.caseId| <= 128 && |r.plan.assertionId| <= 128 && |r.plan.inputId| <= 128)
    && (r.ObservationRecord? ==>
          var o := r.observation;
          if o.status.ObservedStatus? then o.observedSha.Some? && o.artifactId.Some? && o.errorCode.None?
          else o.observedSha.None? && o.artifactId.None? && o.errorCode.Some?)
  }

  // ----- Journal -----

  datatype Receipt = Receipt(sequence: nat, previous: Digest, record: Record, digest: Digest)

  datatype Journal = Journal(authorityDigest: Digest, receipts: seq<Receipt>)

  function GenesisPreimage(authorityDigest: Digest): Bytes {
    Tagged(71, authorityDigest)
  }

  function Genesis(h: HashFunction, authorityDigest: Digest): Digest {
    h(GenesisPreimage(authorityDigest))
  }

  /** Four bytes, most significant first. */
  function BigEndian4(n: nat): (r: Bytes)
    requires n < 0x1_0000_0000
    ensures |r| == 4
  {
    [(n / 0x100_0000) as byte, (n / 0x1_0000 % 0x100) as byte, (n / 0x100 % 0x100) as byte, (n % 0x100) as byte]
  }

  lemma BigEndian4Injective(m: nat, n: nat)
    requires m < 0x1_0000_0000 && n < 0x1_0000_0000 && BigEndian4(m) == BigEndian4(n)
    ensures m == n
  {
    var x, y := BigEndian4(m), BigEndian4(n);
    assert x[0] == y[0] && x[1] == y[1] && x[2] == y[2] && x[3] == y[3];
    BigEndian4Value(m);
    BigEndian4Value(n);
  }

  lemma BigEndian4Value(n: nat)
    requires n < 0x1_0000_0000
    ensures var x := BigEndian4(n);
            n == x[0] as int * 0x100_0000 + x[1] as int * 0x1_0000 + x[2] as int * 0x100 + x[3] as int
  {
    assert n / 0x100_0000 == n / 0x1_0000 / 0x100;
    assert n / 0x1_0000 == n / 0x100 / 0x100;
  }

  function ReceiptPreimage(c: CaseCodec, sequence: nat, previous: Digest, record: Record): Bytes
    requires sequence < MAX_RECORDS
  {
    Tagged(82, BigEndian4(sequence) + previous + c.record(record))
  }

  function Head(h: HashFunction, authorityDigest: Digest, receipts: seq<Receipt>): Digest {
    if receipts == [] then Genesis(h, authorityDigest) else receipts[|receipts| - 1].digest
  }

  function JournalHead(h: HashFunction, j: Journal): Digest {
    Head(h, j.authorityDigest, j.receipts)
  }

  predicate ReceiptAt(h: HashFunction, c: CaseCodec, j: Journal, i: nat)
    requires i < |j.receipts| <= MAX_RECORDS
  {
    var r := j.receipts[i];
    && r.sequence == i
    && r.previous == Head(h, j.authorityDigest, j.receipts[..i])
    && r.digest == h(ReceiptPreimage(c, i, r.previous, r.record))
    && ValidRecord(c, r.record)
  }

  /** A journal document without receipts, and a receipt without its record and its
      sequence number, as canonical JSON. */
  const JOURNAL_FRAME := 161
  const RECEIPT_FRAME := 184

  /** The digits of a sequence number below 512. */
  function SequenceDigits(n: nat): nat {
    if n < 10 then 1 else if n < 100 then 2 else 3
  }

  /** The encoded size: the frame, the receipts, and a comma between any two. */
  function JournalBytes(c: CaseCodec, receipts: seq<Receipt>): nat {
    if receipts == [] then JOURNAL_FRAME
    else
      var n := |receipts| - 1;
      JournalBytes(c, receipts[..n]) + ReceiptBytes(c, receipts[n]) + (if n == 0 then 0 else 1)
  }

  function ReceiptBytes(c: CaseCodec, r: Receipt): nat {
    |c.record(r.record)| + RECEIPT_FRAME + SequenceDigits(r.sequence)
  }

  /** What the journal constructor admits. */
  predicate Intact(h: HashFunction, c: CaseCodec, j: Journal) {
    && |j.receipts| <= MAX_RECORDS
    && (forall i | 0 <= i < |j.receipts| :: ReceiptAt(h, c, j, i))
    && JournalBytes(c, j.receipts) <= MAX_WIRE_BYTES
  }

  // ----- Replay -----

  datatype Phase =
    | Empty
    | Planned(plan: Plan)
    | Observed(plan: Plan, observation: Observation)
    | Verdicted(plan: Plan, observation: Observation, verdict: Verdict)
    | Decided(plan: Plan, observation: Observation, verdict: Verdict, decision: Decision)

  /** The only outcome a verdict may state about a committed observation. */
  function ExpectedOutcome(plan: Plan, observation: Observation): Outcome {
    if !observation.status.ObservedStatus? then Inconclusive
    else if observation.observedSha == Some(plan.predictionSha) then Supported
    else Refuted
  }

  predicate Holds(a: Authority, id: string, scope: string, role: Role) {
    id in a.actors && a.actors[id].Permits(scope, role)
  }

  predicate PlanAdmitted(a: Authority, authorityDigest: Digest, plan: Plan) {
    plan.authorityDigest == authorityDigest && Holds(a, plan.proposerId, plan.scope, Propose)
  }

  predicate ObservationAdmitted(h: HashFunction, c: CaseCodec, a: Authority, plan: Plan, o: Observation) {
    && o.planDigest == RecordDigest(h, c, PlanRecord(plan))
    && o.inputSha == plan.inputSha
    && o.observerId != plan.proposerId
    && o.artifactId != Some(plan.assertionId) && o.artifactId != Some(plan.inputId)
    && Holds(a, o.observerId, plan.scope, Observe)
    && a.actors[o.observerId].kind.ToolActor?
  }

  predicate VerdictAdmitted(h: HashFunction, c: CaseCodec, a: Authority, plan: Plan, o: Observation, v: Verdict) {
    && v.planDigest == RecordDigest(h, c, PlanRecord(plan))
    && v.observationDigest == RecordDigest(h, c, ObservationRecord(o))
    && v.evaluatorId != plan.proposerId && v.evaluatorId != o.observerId
    && Holds(a, v.evaluatorId, plan.scope, Evaluate)
    && !a.actors[v.evaluatorId].kind.ModelActor?
    && v.outcome == ExpectedOutcome(plan, o)
  }

  predicate DecisionAdmitted(
    h: HashFunction, c: CaseCodec, a: Authority, plan: Plan, o: Observation, v: Verdict, d: Decision) {
    && d.verdictDigest == RecordDigest(h, c, VerdictRecord(v))
    && d.deciderId != plan.proposerId && d.deciderId != o.observerId && d.deciderId != v.evaluatorId
    && Holds(a, d.deciderId, plan.scope, Decide)
    && (a.actors[d.deciderId].kind.HumanActor? || a.actors[d.deciderId].kind.PolicyActor?)
    && (d.disposition.Approve? ==> v.outcome.Supported?)
  }

  /** One receipt of the replay loop; nothing when it is refused. */
  function Step(h: HashFunction, c: CaseCodec, a: Authority, authorityDigest: Digest, phase: Phase,
                r: Record): Option<Phase> {
    match r
    case PlanRecord(plan) =>
      if phase.Empty? && PlanAdmitted(a, authorityDigest, plan) then Some(Planned(plan)) else None
    case ObservationRecord(o) =>
      if phase.Planned? && ObservationAdmitted(h, c, a, phase.plan, o) then Some(Observed(phase.plan, o))
      else None
    case VerdictRecord(v) =>
      if phase.Observed? && VerdictAdmitted(h, c, a, phase.plan, phase.observation, v)
      then Some(Verdicted(phase.plan, phase.observation, v))
      else None
    case DecisionRecord(d) =>
      if phase.Verdicted? && DecisionAdmitted(h, c, a, phase.plan, phase.observation, phase.verdict, d)
      then Some(Decided(phase.plan, phase.observation, phase.verdict, d))
      else None
  }

  function AuthorityDigest(h: HashFunction, c: CaseCodec, a: Authority): Digest {
    h(Tagged(65, c.authority(a)))
  }

  function ReplayReceipts(h: HashFunction, c: CaseCodec, a: Authority, d: Digest,
                          receipts: seq<Receipt>): Option<Phase> {
    if receipts == [] then Some(Empty)
    else
      match ReplayReceipts(h, c, a, d, receipts[..|receipts| - 1])
      case None => None
      case Some(phase) => Step(h, c, a, d, phase, receipts[|receipts| - 1].record)
  }

  /** Replay a whole journal under a trusted authority. */
  function Replay(h: HashFunction, c: CaseCodec, a: Authority, j: Journal): Option<Phase> {
    if AuthorityDigest(h, c, a) != j.authorityDigest then None
    else ReplayReceipts(h, c, a, j.authorityDigest, j.receipts)
  }

  method ReplayCase(h: HashFunction, c: CaseCodec, a: Authority, j: Journal) returns (r: Option<Phase>)
    ensures r == Replay(h, c, a, j)
  {
    hide Step;
    if AuthorityDigest(h, c, a) != j.authorityDigest {
      return None;
    }
    var phase := Empty;
    for i := 0 to |j.receipts|
      invariant ReplayReceipts(h, c, a, j.authorityDigest, j.receipts[..i]) == Some(phase)
    {
      assert j.receipts[..i + 1][..i] == j.receipts[..i];
      var next := Step(h, c, a, j.authorityDigest, phase, j.receipts[i].record);
      if next.None? {
        ReplayRefused(h, c, a, j.authorityDigest, j.receipts, i + 1);
        return None;
      }
      phase := next.value;
    }
    assert j.receipts[..|j.receipts|] == j.receipts;
    r := Some(phase);
  }

  lemma {:induction false} ReplayRefused(
    h: HashFunction, c: CaseCodec, a: Authority, d: Digest, receipts: seq<Receipt>, n: nat)
    requires n <= |receipts| && ReplayReceipts(h, c, a, d, receipts[..n]).None?
    ensures ReplayReceipts(h, c, a, d, receipts).None?
    decreases |receipts|
  {
    hide Step;
    if n < |receipts| {
      assert receipts[..|receipts| - 1][..n] == receipts[..n];
      ReplayRefused(h, c, a, d, receipts[..|receipts| - 1], n);
    } else {
      assert receipts[..n] == receipts;
    }
  }

  /** The phase is the list of records so far, one of each kind in order, each
      admitted against its predecessors. */
  predicate PhaseBacked(h: HashFunction, c: CaseCodec, a: Authority, d: Digest, receipts: seq<Receipt>, phase: Phase) {
    && (phase.Empty? <==> |receipts| == 0)
    && (phase.Planned? <==> |receipts| == 1)
    && (phase.Observed? <==> |receipts| == 2)
    && (phase.Verdicted? <==> |receipts| == 3)
    && (phase.Decided? <==> |receipts| == 4)
    && (!phase.Empty? ==> receipts[0].record == PlanRecord(phase.plan) && PlanAdmitted(a, d, phase.plan))
    && (|receipts| >= 2 ==> receipts[1].record == ObservationRecord(phase.observation)
                            && ObservationAdmitted(h, c, a, phase.plan, phase.observation))
    && (|receipts| >= 3 ==> receipts[2].record == VerdictRecord(phase.verdict)
                            && VerdictAdmitted(h, c, a, phase.plan, phase.observation, phase.verdict))
    && (|receipts| >= 4 ==> receipts[3].record == DecisionRecord(phase.decision)
                            && DecisionAdmitted(h, c, a, phase.plan, phase.observation, phase.verdict, phase.decision))
  }

  lemma {:induction false} ReplayBacked(h: HashFunction, c: CaseCodec, a: Authority, d: Digest, receipts: seq<Receipt>)
    requires ReplayReceipts(h, c, a, d, receipts).Some?
    ensures PhaseBacked(h, c, a, d, receipts, ReplayReceipts(h, c, a, d, receipts).value)
    decreases |receipts|
  {
    hide PlanAdmitted, ObservationAdmitted, VerdictAdmitted, DecisionAdmitted;
    if receipts != [] {
      ReplayBacked(h, c, a, d, receipts[..|receipts| - 1]);
    }
  }

  /** The records a phase stands for. */
  function RecordsOf(p: Phase): seq<Record> {
    match p
    case Empty => []
    case Planned(plan) => [PlanRecord(plan)]
    case Observed(plan, o) => [PlanRecord(plan), ObservationRecord(o)]
    case Verdicted(plan, o, v) => [PlanRecord(plan), ObservationRecord(o), VerdictRecord(v)]
    case Decided(plan, o, v, d) => [PlanRecord(plan), ObservationRecord(o), VerdictRecord(v), DecisionRecord(d)]
  }

  predicate Granted(a: Authority, id: string, scope: string, role: Role) {
    id in a.actors && Grant(scope, role) in a.actors[id].grants
  }

  predicate IsTool(a: Authority, id: string) {
    id in a.actors && a.actors[id].kind == ToolActor
  }

  predicate IsNoModel(a: Authority, id: string) {
    id in a.actors && a.actors[id].kind != ModelActor
  }

  predicate IsAccountable(a: Authority, id: string) {
    id in a.actors && a.actors[id].kind in {HumanActor, PolicyActor}
  }

  /** The parties of a case that has come this far are pairwise different, and each holds
      its scoped role and is of a kind that may: observers are tools, evaluators are no
      models, deciders are humans or policies. */
  predicate PartiesSafe(a: Authority, p: Phase) {
    && (!p.Empty? ==> Granted(a, p.plan.proposerId, p.plan.scope, Propose))
    && (p.Observed? || p.Verdicted? || p.Decided? ==>
          Granted(a, p.observation.observerId, p.plan.scope, Observe) && IsTool(a, p.observation.observerId))
    && (p.Verdicted? || p.Decided? ==>
          Granted(a, p.verdict.evaluatorId, p.plan.scope, Evaluate) && IsNoModel(a, p.verdict.evaluatorId))
    && (p.Decided? ==>
          Granted(a, p.decision.deciderId, p.plan.scope, Decide) && IsAccountable(a, p.decision.deciderId))
    && |Parties(p)| == |RecordsOf(p)|
  }

  function Parties(p: Phase): set<string> {
    match p
    case Empty => {}
    case Planned(plan) => {plan.proposerId}
    case Observed(plan, o) => {plan.proposerId, o.observerId}
    case Verdicted(plan, o, v) => {plan.proposerId, o.observerId, v.evaluatorId}
    case Decided(plan, o, v, d) => {plan.proposerId, o.observerId, v.evaluatorId, d.deciderId}
  }

  lemma PairSize(x: string, y: string)
    ensures |{x, y}| == 2 <==> x != y
  {
    if x == y {
      assert {x, y} == {x};
    }
  }

  lemma TripleSize(x: string, y: string, z: string)
    ensures |{x, y, z}| == 3 <==> x != y && z != x && z != y
  {
    PairSize(x, y);
    assert {x, y, z} == {x, y} + {z};
    if z == x || z == y {
      assert {x, y, z} == {x, y};
    }
  }

  /** As many parties as records means no two of them are the same. */
  lemma PartiesDiffer(p: Phase)
    ensures |Parties(p)| == |RecordsOf(p)| <==>
      && (p.Observed? || p.Verdicted? || p.Decided? ==> p.observation.observerId != p.plan.proposerId)
      && (p.Verdicted? || p.Decided? ==>
            p.verdict.evaluatorId != p.plan.proposerId && p.verdict.evaluatorId != p.observation.observerId)
      && (p.Decided? ==>
            && p.decision.deciderId != p.plan.proposerId
            && p.decision.deciderId != p.observation.observerId
            && p.decision.deciderId != p.verdict.evaluatorId)
  {
    match p {
      case Empty =>
      case Planned(plan) =>
      case Observed(plan, o) => PairSize(plan.proposerId, o.observerId);
      case Verdicted(plan, o, v) => TripleSize(plan.proposerId, o.observerId, v.evaluatorId);
      case Decided(plan, o, v, d) =>
        TripleSize(plan.proposerId, o.observerId, v.evaluatorId);
        PairSize(plan.proposerId, o.observerId);
        var three := {plan.proposerId, o.observerId, v.evaluatorId};
        assert Parties(p) == three + {d.deciderId};
        assert three == {plan.proposerId, o.observerId} + {v.evaluatorId};
    }
  }

  /** Every record carries the digests of the records it answers, the plan that of its
      authority, and an observation the plan's input and a fresh artifact identity. */
  predicate RecordsLinked(h: HashFunction, c: CaseCodec, authorityDigest: Digest, p: Phase) {
    && (!p.Empty? ==> p.plan.authorityDigest == authorityDigest)
    && (p.Observed? || p.Verdicted? || p.Decided? ==>
          && p.observation.planDigest == RecordDigest(h, c, PlanRecord(p.plan))
          && p.observation.inputSha == p.plan.inputSha
          && p.observation.artifactId !in {Some(p.plan.assertionId), Some(p.plan.inputId)})
    && (p.Verdicted? || p.Decided? ==>
          && p.verdict.planDigest == RecordDigest(h, c, PlanRecord(p.plan))
          && p.verdict.observationDigest == RecordDigest(h, c, ObservationRecord(p.observation)))
    && (p.Decided? ==> p.decision.verdictDigest == RecordDigest(h, c, VerdictRecord(p.verdict)))
  }

  /** The verdict is the one the committed observation forces. */
  predicate VerdictForced(plan: Plan, o: Observation, v: Verdict) {
    && (v.outcome.Inconclusive? <==> !o.status.ObservedStatus?)
    && (v.outcome.Supported? <==> o.status.ObservedStatus? && o.observedSha == Some(plan.predictionSha))
  }

  /** A verdict is forced, and only a supported case is approved. */
  predicate Judged(p: Phase) {
    && (p.Verdicted? || p.Decided? ==> VerdictForced(p.plan, p.observation, p.verdict))
    && (p.Decided? && p.decision.disposition.Approve? ==> p.verdict.outcome.Supported?)
  }

  /** Case safety over every accepted run, wherever it stops: parties are independent and
      authorized by role and kind, records are linked by digest, a verdict is the one the
      committed observation forces, and only a supported case can be approved. */
  lemma CaseSafety(h: HashFunction, c: CaseCodec, a: Authority, j: Journal)
    requires Replay(h, c, a, j).Some?
    ensures var p := Replay(h, c, a, j).value;
            && |j.receipts| == |RecordsOf(p)| <= 4
            && (forall i | 0 <= i < |j.receipts| :: j.receipts[i].record == RecordsOf(p)[i])
            && PartiesSafe(a, p)
            && RecordsLinked(h, c, j.authorityDigest, p)
            && Judged(p)
            && (p.Decided? && p.decision.disposition.Approve? ==>
                  p.observation.observedSha == Some(p.plan.predictionSha))
  {
    hide RecordDigest, Step, Parties;
    ReplayBacked(h, c, a, j.authorityDigest, j.receipts);
    PartiesDiffer(Replay(h, c, a, j).value);
  }

  /** Nothing else is refused: replay accepts exactly the journals of the trusted authority
      whose records are those of a phase with safe parties, linked and judged. */
  lemma CaseExact(h: HashFunction, c: CaseCodec, a: Authority, j: Journal, p: Phase)
    ensures Replay(h, c, a, j) == Some(p) <==>
      && j.authorityDigest == AuthorityDigest(h, c, a)
      && |j.receipts| == |RecordsOf(p)|
      && (forall i | 0 <= i < |j.receipts| :: j.receipts[i].record == RecordsOf(p)[i])
      && PartiesSafe(a, p) && RecordsLinked(h, c, j.authorityDigest, p) && Judged(p)
  {
    hide Holds, RecordDigest, AuthorityDigest, ReplayReceipts, PartiesSafe, RecordsLinked, Judged;
    if Replay(h, c, a, j) == Some(p) {
      CaseSafety(h, c, a, j);
    }
    if |j.receipts| == |RecordsOf(p)|
      && (forall i | 0 <= i < |j.receipts| :: j.receipts[i].record == RecordsOf(p)[i])
      && PartiesSafe(a, p) && RecordsLinked(h, c, j.authorityDigest, p)
      && Judged(p)
    {
      SafeRecordsReplay(h, c, a, j.authorityDigest, j.receipts, p);
    }
  }

  /** The phase one record earlier. */
  function Earlier(p: Phase): Phase {
    match p
    case Empty => Empty
    case Planned(plan) => Empty
    case Observed(plan, _) => Planned(plan)
    case Verdicted(plan, o, _) => Observed(plan, o)
    case Decided(plan, o, v, _) => Verdicted(plan, o, v)
  }

  lemma EarlierSafe(h: HashFunction, c: CaseCodec, a: Authority, d: Digest, p: Phase)
    requires !p.Empty? && PartiesSafe(a, p) && RecordsLinked(h, c, d, p) && Judged(p)
    ensures var q := Earlier(p);
            && PartiesSafe(a, q) && RecordsLinked(h, c, d, q) && Judged(q)
            && |RecordsOf(p)| == |RecordsOf(q)| + 1
            && RecordsOf(p)[..|RecordsOf(q)|] == RecordsOf(q)
            && Step(h, c, a, d, q, RecordsOf(p)[|RecordsOf(q)|]) == Some(p)
  {
    hide RecordDigest, Parties;
    PartiesDiffer(p);
    PartiesDiffer(Earlier(p));
  }

  lemma {:induction false} SafeRecordsReplay(
    h: HashFunction, c: CaseCodec, a: Authority, d: Digest, receipts: seq<Receipt>, p: Phase)
    requires |receipts| == |RecordsOf(p)| && forall i | 0 <= i < |receipts| :: receipts[i].record == RecordsOf(p)[i]
    requires PartiesSafe(a, p) && RecordsLinked(h, c, d, p) && Judged(p)
    ensures ReplayReceipts(h, c, a, d, receipts) == Some(p)
    decreases |receipts|
  {
    hide PartiesSafe, RecordsLinked, Judged, Step;
    if !p.Empty? {
      EarlierSafe(h, c, a, d, p);
      SafeRecordsReplay(h, c, a, d, receipts[..|receipts| - 1], Earlier(p));
    }
  }

  // ----- Append -----

  function ExtendJournal(h: HashFunction, c: CaseCodec, j: Journal, r: Record): Journal
    requires |j.receipts| < MAX_RECORDS
  {
    var n := |j.receipts|;
    var previous := JournalHead(h, j);
    j.(receipts := j.receipts + [Receipt(n, previous, r, h(ReceiptPreimage(c, n, previous, r)))])
  }

  /** Append one record: chain it, re-check the journal, replay the whole. */
  function AppendRecord(h: HashFunction, c: CaseCodec, a: Authority, j: Journal, r: Record): Option<Journal> {
    if Replay(h, c, a, j).None? || |j.receipts| >= MAX_RECORDS || !ValidRecord(c, r) then None
    else
      var candidate := ExtendJournal(h, c, j, r);
      if Intact(h, c, candidate) && Replay(h, c, a, candidate).Some? then Some(candidate) else None
  }

  /** Chaining a valid record keeps the journal intact while it fits the byte limit. */
  lemma ExtendIntact(h: HashFunction, c: CaseCodec, j: Journal, r: Record)
    requires Intact(h, c, j) && |j.receipts| < MAX_RECORDS && ValidRecord(c, r)
    requires JournalBytes(c, j.receipts) + |c.record(r)| + RECEIPT_FRAME + SequenceDigits(|j.receipts|)
             + (if j.receipts == [] then 0 else 1) <= MAX_WIRE_BYTES
    ensures Intact(h, c, ExtendJournal(h, c, j, r))
  {
    hide ReceiptPreimage, ValidRecord;
    var e := ExtendJournal(h, c, j, r);
    var n := |j.receipts|;
    assert e.receipts[..n] == j.receipts;
    forall i | 0 <= i < |e.receipts|
      ensures ReceiptAt(h, c, e, i)
    {
      if i < n {
        assert ReceiptAt(h, c, j, i);
        assert e.receipts[..i] == j.receipts[..i];
      }
    }
  }

  lemma JournalPrefix(h: HashFunction, c: CaseCodec, j: Journal, n: nat)
    requires Intact(h, c, j) && n <= |j.receipts|
    ensures Intact(h, c, Journal(j.authorityDigest, j.receipts[..n]))
  {
    hide ReceiptPreimage, ValidRecord;
    var p := Journal(j.authorityDigest, j.receipts[..n]);
    forall i | 0 <= i < n
      ensures ReceiptAt(h, c, p, i)
    {
      assert ReceiptAt(h, c, j, i);
      assert p.receipts[..i] == j.receipts[..i];
    }
    JournalBytesPrefix(c, j.receipts, n);
  }

  lemma {:induction false} JournalBytesPrefix(c: CaseCodec, receipts: seq<Receipt>, n: nat)
    requires n <= |receipts|
    ensures JournalBytes(c, receipts[..n]) <= JournalBytes(c, receipts)
    decreases |receipts|
  {
    if n < |receipts| {
      assert receipts[..|receipts| - 1][..n] == receipts[..n];
      JournalBytesPrefix(c, receipts[..|receipts| - 1], n);
    } else {
      assert receipts[..n] == receipts;
    }
  }

  // ----- Intact means built -----

  /** What each kind of record carries, within the size of one record. */
  predicate Shaped(c: CaseCodec, r: Record) {
    && |c.record(r)| <= 16384
    && (match r
        case PlanRecord(p) =>
          p.assertionId != p.inputId && |p.caseId| <= 128 && |p.assertionId| <= 128 && |p.inputId| <= 128
        case ObservationRecord(o) =>
          (match o.status
           case ObservedStatus => o.observedSha.Some? && o.artifactId.Some? && o.errorCode.None?
           case Unavailable => o.observedSha.None? && o.artifactId.None? && o.errorCode.Some?
           case ErrorStatus => o.observedSha.None? && o.artifactId.None? && o.errorCode.Some?)
        case _ => true)
  }

  /** Records chained in order from the seed of an authority. */
  function Built(h: HashFunction, c: CaseCodec, authorityDigest: Digest, records: seq<Record>): Journal
    requires |records| <= MAX_RECORDS
    ensures |Built(h, c, authorityDigest, records).receipts| == |records|
  {
    if records == [] then Journal(authorityDigest, [])
    else
      var n := |records| - 1;
      ExtendJournal(h, c, Built(h, c, authorityDigest, records[..n]), records[n])
  }

  function RecordsIn(j: Journal): (r: seq<Record>)
    ensures |r| == |j.receipts| && forall i | 0 <= i < |r| :: r[i] == j.receipts[i].record
  {
    seq(|j.receipts|, i requires 0 <= i < |j.receipts| => j.receipts[i].record)
  }

  function TakeReceipts(j: Journal, n: nat): Journal
    requires n <= |j.receipts|
  {
    Journal(j.authorityDigest, j.receipts[..n])
  }

  /** What receipt `i` must be, given those before it. */
  predicate Follows(h: HashFunction, c: CaseCodec, j: Journal, i: nat)
    requires i < |j.receipts| <= MAX_RECORDS
  {
    var r, previous := j.receipts[i], Head(h, j.authorityDigest, j.receipts[..i]);
    r == Receipt(i, previous, r.record, h(ReceiptPreimage(c, i, previous, r.record)))
  }

  lemma BuiltStep(h: HashFunction, c: CaseCodec, j: Journal, n: nat)
    requires n < |j.receipts| <= MAX_RECORDS
    ensures ExtendJournal(h, c, TakeReceipts(j, n), j.receipts[n].record) == TakeReceipts(j, n + 1) <==>
              Follows(h, c, j, n)
  {
    hide ReceiptPreimage, Genesis;
    assert j.receipts[..n + 1] == j.receipts[..n] + [j.receipts[n]];
    assert TakeReceipts(j, n + 1).receipts[n] == j.receipts[n];
  }

  lemma ShorterBuilt(h: HashFunction, c: CaseCodec, before: Journal, r: Record, j: Journal, n: nat)
    requires 0 < n <= |j.receipts| <= MAX_RECORDS && |before.receipts| < MAX_RECORDS
    requires ExtendJournal(h, c, before, r) == TakeReceipts(j, n)
    ensures before == TakeReceipts(j, n - 1)
  {
    hide ReceiptPreimage, Genesis;
    var e := ExtendJournal(h, c, before, r);
    assert e.receipts[..|e.receipts| - 1] == before.receipts;
    assert j.receipts[..n][..n - 1] == j.receipts[..n - 1];
  }

  lemma {:induction false} BuiltExact(h: HashFunction, c: CaseCodec, j: Journal, n: nat)
    requires n <= |j.receipts| <= MAX_RECORDS
    ensures Built(h, c, j.authorityDigest, RecordsIn(j)[..n]) == TakeReceipts(j, n) <==>
              forall i | 0 <= i < n :: Follows(h, c, j, i)
  {
    hide Follows, ExtendJournal;
    if n > 0 {
      BuiltExact(h, c, j, n - 1);
      BuiltStep(h, c, j, n - 1);
      assert RecordsIn(j)[..n][..n - 1] == RecordsIn(j)[..n - 1];
      var before := Built(h, c, j.authorityDigest, RecordsIn(j)[..n - 1]);
      if ExtendJournal(h, c, before, j.receipts[n - 1].record) == TakeReceipts(j, n) {
        ShorterBuilt(h, c, before, j.receipts[n - 1].record, j, n);
      }
    }
  }

  /** A journal is intact exactly when its records are well shaped, its sizes fit, and its
      receipts are those records chained in order: no other field of a receipt is free. */
  lemma IntactIsBuilt(h: HashFunction, c: CaseCodec, j: Journal)
    ensures Intact(h, c, j) <==>
      && |j.receipts| <= 512
      && JournalBytes(c, j.receipts) <= 2 * 1024 * 1024
      && (forall i | 0 <= i < |j.receipts| :: Shaped(c, j.receipts[i].record))
      && Built(h, c, j.authorityDigest, RecordsIn(j)) == j
  {
    hide ReceiptPreimage, Genesis, JournalBytes, Built, ValidRecord, Shaped;
    if |j.receipts| <= MAX_RECORDS {
      BuiltExact(h, c, j, |j.receipts|);
      assert RecordsIn(j)[..|j.receipts|] == RecordsIn(j);
      assert TakeReceipts(j, |j.receipts|) == j;
      forall i | 0 <= i < |j.receipts|
        ensures ReceiptAt(h, c, j, i) <==> Follows(h, c, j, i) && Shaped(c, j.receipts[i].record)
      {
        ShapedExact(c, j.receipts[i].record);
      }
    }
  }

  lemma ShapedExact(c: CaseCodec, r: Record)
    ensures ValidRecord(c, r) <==> Shaped(c, r)
  {
  }

  // ----- Heads determine journals -----

  function LastPreimage(c: CaseCodec, j: Journal): Bytes
    requires |j.receipts| <= MAX_RECORDS
  {
    if j.receipts == [] then GenesisPreimage(j.authorityDigest)
    else
      var i := |j.receipts| - 1;
      ReceiptPreimage(c, i, j.receipts[i].previous, j.receipts[i].record)
  }

  /** Walk two journals back from one head to the first pair of different preimages. */
  function JournalClash(c: CaseCodec, a: Journal, b: Journal): Finding
    requires |a.receipts| <= MAX_RECORDS && |b.receipts| <= MAX_RECORDS
    decreases |a.receipts|
  {
    var x, y := LastPreimage(c, a), LastPreimage(c, b);
    if x != y then Found(Clash(x, y))
    else if a.receipts == [] || b.receipts == [] then NoClash
    else JournalClash(c, Init(a), Init(b))
  }

  function Init(j: Journal): Journal
    requires j.receipts != []
  {
    j.(receipts := j.receipts[..|j.receipts| - 1])
  }

  lemma ReceiptPreimageInjective(c: CaseCodec, i: nat, p: Digest, r: Record, j: nat, q: Digest, s: Record)
    requires Lossless(c) && i < MAX_RECORDS && j < MAX_RECORDS
    requires ReceiptPreimage(c, i, p, r) == ReceiptPreimage(c, j, q, s)
    ensures i == j && p == q && r == s
  {
    hide BigEndian4, Domain;
    var x, y := BigEndian4(i) + p + c.record(r), BigEndian4(j) + q + c.record(s);
    FramedInjective(Domain(), 82, x, 82, y);
    assert x[..4] == BigEndian4(i) && y[..4] == BigEndian4(j);
    BigEndian4Injective(i, j);
    assert x[4..36] == p && y[4..36] == q;
    assert x[36..] == c.record(r) && y[36..] == c.record(s);
  }

  /** Two intact journals of one authority with one head are the same journal,
      whatever their lengths, or a collision is found. */
  lemma {:induction false} JournalHeadsDetermine(h: HashFunction, c: CaseCodec, a: Journal, b: Journal)
    requires Lossless(c) && Intact(h, c, a) && Intact(h, c, b)
    requires a.authorityDigest == b.authorityDigest && JournalHead(h, a) == JournalHead(h, b)
    ensures Genuine(h, JournalClash(c, a, b))
    ensures JournalClash(c, a, b).NoClash? <==> a == b
    decreases |a.receipts|
  {
    hide ReceiptPreimage, GenesisPreimage, ValidRecord, JournalBytes;
    var m, n := |a.receipts|, |b.receipts|;
    HeadPreimage(h, c, a);
    HeadPreimage(h, c, b);
    if LastPreimage(c, a) == LastPreimage(c, b) {
      if m == 0 && n == 0 {
        assert a.receipts == [] && b.receipts == [];
      } else if m == 0 {
        SeedIsNoReceipt(c, n - 1, b.receipts[n - 1].previous, b.receipts[n - 1].record, a.authorityDigest);
      } else if n == 0 {
        SeedIsNoReceipt(c, m - 1, a.receipts[m - 1].previous, a.receipts[m - 1].record, b.authorityDigest);
      } else {
        assert ReceiptAt(h, c, a, m - 1) && ReceiptAt(h, c, b, n - 1);
        ReceiptPreimageInjective(c, m - 1, a.receipts[m - 1].previous, a.receipts[m - 1].record,
                                 n - 1, b.receipts[n - 1].previous, b.receipts[n - 1].record);
        JournalPrefix(h, c, a, m - 1);
        JournalPrefix(h, c, b, n - 1);
        JournalHeadsDetermine(h, c, Init(a), Init(b));
        Ledger.SameInitAndLast(a.receipts, b.receipts);
      }
    }
  }

  lemma HeadPreimage(h: HashFunction, c: CaseCodec, j: Journal)
    requires Intact(h, c, j)
    ensures h(LastPreimage(c, j)) == JournalHead(h, j)
  {
    hide ReceiptPreimage, GenesisPreimage, ValidRecord, JournalBytes;
    if j.receipts != [] {
      assert ReceiptAt(h, c, j, |j.receipts| - 1);
    }
  }

  /** The seed of an empty journal is never the preimage of a receipt. */
  lemma SeedIsNoReceipt(c: CaseCodec, sequence: nat, previous: Digest, record: Record, authorityDigest: Digest)
    requires sequence < MAX_RECORDS
    ensures ReceiptPreimage(c, sequence, previous, record) != GenesisPreimage(authorityDigest)
  {
    hide BigEndian4, Domain;
    var n := |Domain()|;
    assert ReceiptPreimage(c, sequence, previous, record)[n] == 82;
    assert GenesisPreimage(authorityDigest)[n] == 71;
  }
}
