/** Ledger commitments: the header a caller retains out of band (membership.py). */
module Commitment {
  import opened Hashing
  import opened ReceiptTree
  import Ledger
  import TreeShape

  datatype LedgerCommitment = LedgerCommitment(
    version: Ledger.Version,
    genesis: Digest,
    headDigest: Digest,
    entryCount: nat,
    rootHash: Digest)

  /** Canonical JSON of a tree leaf and of a header, the size of a receipt's, and whether a
      receipt passes the admission of its JSON tree: nodes, depth, integers and text. */
  datatype TreeCodec = TreeCodec(
    leaf: (Ledger.Version, Ledger.Entry) -> Bytes,
    header: LedgerCommitment -> Bytes,
    receiptBytes: Ledger.Entry -> nat,
    admissible: Ledger.Entry -> bool)

  ghost predicate Lossless(c: TreeCodec) {
    && (forall v, e, w, f :: c.leaf(v, e) == c.leaf(w, f) ==> v == w && e == f)
    && (forall x, y :: c.header(x) == c.header(y) ==> x == y)
  }

  /** What the constructor admits. */
  predicate ValidCommitment(h: HashFunction, c: LedgerCommitment) {
    && c.genesis == Ledger.Genesis(h, c.version)
    && c.entryCount <= TreeShape.MAX_LEDGER_ENTRIES
    && (c.entryCount == 0 ==> c.headDigest == c.genesis && c.rootHash == EmptyRoot(h))
  }

  function CommitmentPreimage(codec: TreeCodec, c: LedgerCommitment): Bytes {
    Tagged(TAG_COMMITMENT, codec.header(c))
  }

  function CommitmentDigest(h: HashFunction, codec: TreeCodec, c: LedgerCommitment): Digest {
    h(CommitmentPreimage(codec, c))
  }

  function Leaves(codec: TreeCodec, ledger: Ledger.EvidenceLedger): (r: seq<Bytes>)
    ensures |r| == |ledger.entries|
  {
    seq(|ledger.entries|, i requires 0 <= i < |ledger.entries| => codec.leaf(ledger.version, ledger.entries[i]))
  }

  function CommitmentOf(h: HashFunction, codec: TreeCodec, ledger: Ledger.EvidenceLedger): LedgerCommitment {
    LedgerCommitment(
      ledger.version,
      ledger.genesis,
      Ledger.Head(ledger.entries, ledger.genesis),
      |ledger.entries|,
      Root(h, Leaves(codec, ledger)))
  }

  /** A retained commitment digest pins the whole header. */
  lemma DigestBindsHeader(h: HashFunction, codec: TreeCodec, x: LedgerCommitment, y: LedgerCommitment)
    requires Lossless(codec)
    requires CommitmentDigest(h, codec, x) == CommitmentDigest(h, codec, y)
    ensures Compare(h, CommitmentPreimage(codec, x), CommitmentPreimage(codec, y)).NoClash? <==> x == y
  {
    if CommitmentPreimage(codec, x) == CommitmentPreimage(codec, y) {
      TaggedInjective(TAG_COMMITMENT, codec.header(x), TAG_COMMITMENT, codec.header(y));
    }
  }

  lemma PrefixLeaves(codec: TreeCodec, ledger: Ledger.EvidenceLedger, n: nat)
    requires n <= |ledger.entries|
    ensures Leaves(codec, Ledger.Prefix(ledger, n)) == Leaves(codec, ledger)[..n]
  {
  }

  /** Equal leaf bytes are equal receipts. */
  lemma LeavesInjective(codec: TreeCodec, a: Ledger.EvidenceLedger, b: Ledger.EvidenceLedger)
    requires Lossless(codec)
    requires Leaves(codec, a) <= Leaves(codec, b)
    ensures a.entries <= b.entries
    ensures a.entries != [] ==> a.version == b.version
  {
    forall i | 0 <= i < |a.entries|
      ensures a.entries[i] == b.entries[i] && a.version == b.version
    {
      assert Leaves(codec, a)[i] == Leaves(codec, b)[i];
    }
    if a.entries != [] {
      assert Leaves(codec, a)[0] == Leaves(codec, b)[0];
    }
  }
}
