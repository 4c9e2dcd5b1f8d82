/** The receipt chain of a workflow (workflow.py): an intact bundle is its header and its
    transitions chained from nothing, and its head determines all of it.
 */
module WorkflowChain {
  import opened Hashing
  import opened Workflow
  import Ledger

  // ----- Intact means built -----

  /** What receipt `i` must be, given those before it. */
  predicate Follows(h: HashFunction, c: WorkflowCodec, context: Digest, records: seq<Receipt>, i: nat)
    requires i < |records|
  {
    var previous := HeadOf(context, records[..i]);
    records[i] == Receipt(i, context, previous, records[i].transition,
                          h(c.receipt(i, context, previous, records[i].transition)))
  }

  lemma BuiltPrefix(h: HashFunction, c: WorkflowCodec, b: Bundle, n: nat)
    requires n < |b.records|
    ensures Extend1(h, c, Take(b, n), b.records[n].transition) == Take(b, n + 1) <==>
              Follows(h, c, ContextDigest(h, c, b), b.records, n)
  {
    hide ContextDigest;
    SameContext(h, c, Take(b, n), b);
    assert b.records[..n + 1] == b.records[..n] + [b.records[n]];
    assert Take(b, n + 1).records[n] == b.records[n];
  }

  lemma {:induction false} BuiltExact(h: HashFunction, c: WorkflowCodec, b: Bundle, n: nat)
    requires n <= |b.records|
    ensures Extend(h, c, Take(b, 0), Transitions(b.records)[..n]) == Take(b, n) <==>
              forall i | 0 <= i < n :: Follows(h, c, ContextDigest(h, c, b), b.records, i)
  {
    hide Follows, Extend1, ContextDigest;
    var ts := Transitions(b.records);
    if n > 0 {
      BuiltExact(h, c, b, n - 1);
      BuiltPrefix(h, c, b, n - 1);
      assert ts[..n][..n - 1] == ts[..n - 1];
      var before := Extend(h, c, Take(b, 0), ts[..n - 1]);
      assert Extend(h, c, Take(b, 0), ts[..n]) == Extend1(h, c, before, b.records[n - 1].transition);
      if Extend1(h, c, before, b.records[n - 1].transition) == Take(b, n) {
        ShorterBuilt(h, c, before, b.records[n - 1].transition, b, n);
      }
    }
  }

  lemma ShorterBuilt(h: HashFunction, c: WorkflowCodec, before: Bundle, t: Transition, b: Bundle, n: nat)
    requires 0 < n <= |b.records| && Extend1(h, c, before, t) == Take(b, n)
    ensures before == Take(b, n - 1)
  {
    hide ContextDigest;
    var e := Extend1(h, c, before, t);
    assert e.records[..|e.records| - 1] == before.records;
    assert b.records[..n][..n - 1] == b.records[..n - 1];
  }

  /** What each kind of transition carries, and nothing else. */
  predicate Shaped(t: Transition) {
    && t.expectedRevision <= 10000
    && (match t.action
        case Create => t.statement.Some? && t.referenceId.None? && t.referenceDigest.None? && t.reason.None?
        case BindEvidence => t.statement.None? && t.referenceId.Some? && t.referenceDigest.Some? && t.reason.None?
        case BindArtifact => t.statement.None? && t.referenceId.Some? && t.referenceDigest.Some? && t.reason.None?
        case Submit => t.statement.None? && t.referenceId.None? && t.referenceDigest.None? && t.reason.None?
        case Approve => t.statement.None? && t.referenceId.None? && t.referenceDigest.None? && t.reason.None?
        case Reject => t.statement.None? && t.referenceId.None? && t.referenceDigest.None? && t.reason.Some?
        case Revoke => t.statement.None? && t.referenceId.None? && t.referenceDigest.None? && t.reason.Some?)
  }

  lemma ShapedExact(t: Transition)
    ensures ValidTransition(t) <==> Shaped(t)
  {
  }

  /** A bundle is intact exactly when its evidence and artifacts are, its transitions are
      well formed and distinct, its sizes fit, and its receipts are those transitions
      chained in order from the empty workflow: no other field of a receipt is free. */
  lemma IntactIsBuilt(h: HashFunction, c: WorkflowCodec, b: Bundle)
    ensures var ts := Transitions(b.records);
            Intact(h, c, b) <==>
              && Ledger.Verified(h, c.chain, b.evidence)
              && (forall i, j | 0 <= i < j < |b.artifacts| :: b.artifacts[i].artifactId != b.artifacts[j].artifactId)
              && |b.artifacts| <= 1024 && |b.records| <= 10000 && BundleBytes(c, b) <= 64 * 1024 * 1024
              && (forall i | 0 <= i < |ts| :: Shaped(ts[i]))
              && (forall i, j | 0 <= i < j < |ts| :: ts[i].transitionId != ts[j].transitionId)
              && Extend(h, c, Take(b, 0), ts) == b
  {
    hide ContextDigest, Ledger.Verified, BundleBytes, ValidTransition, Shaped, Extend;
    BuiltExact(h, c, b, |b.records|);
    var ts := Transitions(b.records);
    assert ts[..|b.records|] == ts;
    assert Take(b, |b.records|) == b;
    var context := ContextDigest(h, c, b);
    forall i | 0 <= i < |b.records|
      ensures ReceiptAt(h, c, context, b.records, i) <==> Follows(h, c, context, b.records, i) && Shaped(ts[i])
    {
      ShapedExact(ts[i]);
    }
  }

  // ----- Heads determine bundles -----

  /** Canonical encodings lose nothing, and a receipt never reads as a context. */
  ghost predicate Lossless(c: WorkflowCodec) {
    && (forall i, x, p, t, j, y, q, u ::
          c.receipt(i, x, p, t) == c.receipt(j, y, q, u) ==> i == j && x == y && p == q && t == u)
    && (forall w, a, e, s, w', a', e', s' ::
          c.context(w, a, e, s) == c.context(w', a', e', s') ==> w == w' && a == a' && e == e' && s == s')
    && (forall i, x, p, t, w, a, e, s :: c.receipt(i, x, p, t) != c.context(w, a, e, s))
  }

  /** What the head of a bundle is the digest of. */
  function HeadPreimage(c: WorkflowCodec, b: Bundle): Bytes {
    if b.records == [] then
      c.context(b.workflowId, b.authorityDigest, Ledger.Head(b.evidence.entries, b.evidence.genesis), b.artifacts)
    else
      var r := b.records[|b.records| - 1];
      c.receipt(r.sequence, r.context, r.previous, r.transition)
  }

  /** Walk two bundles back from one head to the first pair of different preimages. */
  function ChainClash(c: WorkflowCodec, a: Bundle, b: Bundle): Finding
    decreases |a.records|
  {
    var x, y := HeadPreimage(c, a), HeadPreimage(c, b);
    if x != y then Found(Clash(x, y))
    else if a.records == [] || b.records == [] then NoClash
    else ChainClash(c, Take(a, |a.records| - 1), Take(b, |b.records| - 1))
  }

  /** The same, and then through the evidence the bundles share a head of. */
  function BundleClash(h: HashFunction, c: WorkflowCodec, a: Bundle, b: Bundle): Finding {
    Either(ChainClash(c, a, b), Ledger.HeadClash(h, c.chain, a.evidence, b.evidence))
  }

  predicate Chain(h: HashFunction, c: WorkflowCodec, b: Bundle) {
    ChainIntact(h, c, ContextDigest(h, c, b), b.records)
  }

  lemma ChainHead(h: HashFunction, c: WorkflowCodec, b: Bundle)
    requires Chain(h, c, b)
    ensures BundleHead(h, c, b) == h(HeadPreimage(c, b))
  {
    if b.records != [] {
      assert ReceiptAt(h, c, ContextDigest(h, c, b), b.records, |b.records| - 1);
    }
  }

  lemma ChainInit(h: HashFunction, c: WorkflowCodec, b: Bundle)
    requires Chain(h, c, b) && b.records != []
    ensures var n := |b.records| - 1;
            && Chain(h, c, Take(b, n)) && BundleHead(h, c, Take(b, n)) == b.records[n].previous
  {
    hide ReceiptDigest, ContextDigest, ValidTransition;
    var n := |b.records| - 1;
    var context := ContextDigest(h, c, b);
    SameContext(h, c, Take(b, n), b);
    assert ReceiptAt(h, c, context, b.records, n);
    forall i | 0 <= i < n
      ensures ReceiptAt(h, c, context, b.records[..n], i)
    {
      assert ReceiptAt(h, c, context, b.records, i);
      assert b.records[..n][..i] == b.records[..i];
    }
  }

  lemma {:induction false} ChainsDetermine(h: HashFunction, c: WorkflowCodec, a: Bundle, b: Bundle)
    requires Lossless(c) && Chain(h, c, a) && Chain(h, c, b) && BundleHead(h, c, a) == BundleHead(h, c, b)
    ensures Genuine(h, ChainClash(c, a, b))
    ensures ChainClash(c, a, b).NoClash? ==>
      && a.workflowId == b.workflowId && a.authorityDigest == b.authorityDigest && a.artifacts == b.artifacts
      && a.records == b.records
      && Ledger.Head(a.evidence.entries, a.evidence.genesis) == Ledger.Head(b.evidence.entries, b.evidence.genesis)
    decreases |a.records|
  {
    hide Chain, ContextDigest, BundleHead;
    var m, n := |a.records|, |b.records|;
    ChainHead(h, c, a);
    ChainHead(h, c, b);
    if HeadPreimage(c, a) == HeadPreimage(c, b) && m > 0 && n > 0 {
      ChainInit(h, c, a);
      ChainInit(h, c, b);
      SameLast(h, c, a, b);
      ChainsDetermine(h, c, Take(a, m - 1), Take(b, n - 1));
      Ledger.SameInitAndLast(a.records, b.records);
    }
  }

  lemma SameLast(h: HashFunction, c: WorkflowCodec, a: Bundle, b: Bundle)
    requires Lossless(c) && Chain(h, c, a) && Chain(h, c, b) && a.records != [] && b.records != []
    requires HeadPreimage(c, a) == HeadPreimage(c, b)
    ensures a.records[|a.records| - 1] == b.records[|b.records| - 1]
  {
    hide ContextDigest;
    assert ReceiptAt(h, c, ContextDigest(h, c, a), a.records, |a.records| - 1);
    assert ReceiptAt(h, c, ContextDigest(h, c, b), b.records, |b.records| - 1);
  }

  /** One head, one bundle: identity, authority, evidence, artifacts and every receipt; or a
      collision is found. */
  lemma HeadsDetermineBundles(h: HashFunction, c: WorkflowCodec, a: Bundle, b: Bundle)
    requires Lossless(c) && Ledger.Canonical(c.chain) && Intact(h, c, a) && Intact(h, c, b)
    requires BundleHead(h, c, a) == BundleHead(h, c, b)
    ensures Genuine(h, BundleClash(h, c, a, b))
    ensures BundleClash(h, c, a, b).NoClash? ==> a == b
  {
    hide Ledger.Verified, Ledger.HeadClash, ChainClash, ChainIntact, BundleHead, Ledger.Canonical, ContextDigest,
      BundleBytes, Lossless;
    ChainsDetermine(h, c, a, b);
    if ChainClash(c, a, b).NoClash? {
      Ledger.HeadsDetermineHistories(h, c.chain, a.evidence, b.evidence);
    }
  }
}
