/** Detached receipt membership under a retained commitment (membership.py).

    The prover walks the cached tree from the root, the verifier folds from the
    leaf along a route computed from two numbers. Every honest bundle is
    accepted; every accepted bundle holds the real receipts at its positions, or
    a collision is computed.
 */
module Membership {
  import opened Wrappers
  import opened Hashing
  import opened TreeShape
  import opened ReceiptTree
  import opened Commitment
  import Ledger

  const MAX_MEMBERS := 1000
  const MAX_SIBLINGS := 17
  const MAX_RECEIPT_BYTES := 16 * 1024 * 1024

  /** One level up: the sibling goes on the left when `left` is set. */
  function StepPreimage(digest: Digest, left: bool, sibling: Digest): Bytes {
    if left then NodePreimage(sibling, digest) else NodePreimage(digest, sibling)
  }

  /** Fold a leaf digest along a bottom-up route. */
  function Fold(h: HashFunction, digest: Digest, route: seq<bool>, siblings: seq<Digest>): Digest
    requires |route| == |siblings|
  {
    var n := |route|;
    if n == 0 then digest
    else h(StepPreimage(Fold(h, digest, route[..n - 1], siblings[..n - 1]), route[n - 1], siblings[n - 1]))
  }

  /** The audit path of section 2.1.1 of RFC 6962. */
  function HonestSiblings(h: HashFunction, leaves: seq<Bytes>, position: nat): (r: seq<Digest>)
    requires position < |leaves|
    ensures |r| == |Route(position, |leaves|)|
    decreases |leaves|
  {
    if |leaves| == 1 then []
    else
      var k := Split(|leaves|);
      if position < k then HonestSiblings(h, leaves[..k], position) + [Root(h, leaves[k..])]
      else HonestSiblings(h, leaves[k..], position - k) + [Root(h, leaves[..k])]
  }

  // ----- Prover -----

  /** The prover's walk: collect siblings from the root down, then reverse. */
  method Siblings(h: HashFunction, tree: Node, ghost leaves: seq<Bytes>, position: nat) returns (r: seq<Digest>)
    requires |leaves| >= 1 && TreeOf(h, tree, leaves) && position < |leaves|
    ensures r == HonestSiblings(h, leaves, position)
  {
    hide Root, Split, TreeOf, HonestSiblings;
    var t := tree;
    var offset: nat := position;
    ghost var part := leaves;
    var siblings: seq<Digest> := [];
    TreeCount(h, t, part);
    while t.Count() > 1
      invariant |part| >= 1 && TreeOf(h, t, part) && offset < |part| == t.Count()
      invariant HonestSiblings(h, leaves, position) == HonestSiblings(h, part, offset) + Reversed(siblings)
      decreases t
    {
      SiblingsStep(h, t, part, offset, siblings);
      if offset < t.left.Count() {
        siblings := siblings + [t.right.digest];
        t, part := t.left, part[..Split(|part|)];
      } else {
        siblings := siblings + [t.left.digest];
        offset := offset - t.left.Count();
        t, part := t.right, part[Split(|part|)..];
      }
    }
    NoSiblings(h, part);
    r := Reversed(siblings);
  }

  lemma TreeCount(h: HashFunction, t: Node, leaves: seq<Bytes>)
    requires |leaves| >= 1 && TreeOf(h, t, leaves)
    ensures t.Count() == |leaves|
  {
  }

  lemma NoSiblings(h: HashFunction, leaves: seq<Bytes>)
    requires |leaves| == 1
    ensures HonestSiblings(h, leaves, 0) == []
  {
  }

  /** One step down the tree moves one sibling from the front to the collected list. */
  lemma SiblingsStep(h: HashFunction, t: Node, part: seq<Bytes>, offset: nat, collected: seq<Digest>)
    requires |part| >= 2 && TreeOf(h, t, part) && offset < |part|
    ensures t.InnerNode?
    ensures var k := Split(|part|);
            && k == t.left.Count() && |part| - k == t.right.Count()
            && TreeOf(h, t.left, part[..k]) && TreeOf(h, t.right, part[k..])
            && HonestSiblings(h, part, offset) + Reversed(collected) ==
                 if offset < k
                 then HonestSiblings(h, part[..k], offset) + Reversed(collected + [t.right.digest])
                 else HonestSiblings(h, part[k..], offset - k) + Reversed(collected + [t.left.digest])
  {
    hide Root, Split;
    var k := Split(|part|);
    assert TreeOf(h, t.left, part[..k]) && TreeOf(h, t.right, part[k..]);
    if offset < k {
      MoveSibling(HonestSiblings(h, part[..k], offset), t.right.digest, collected);
    } else {
      MoveSibling(HonestSiblings(h, part[k..], offset - k), t.left.digest, collected);
    }
  }

  lemma MoveSibling(lower: seq<Digest>, s: Digest, collected: seq<Digest>)
    ensures (lower + [s]) + Reversed(collected) == lower + Reversed(collected + [s])
  {
    ReversedSnoc(collected, s);
    assert (lower + [s]) + Reversed(collected) == lower + ([s] + Reversed(collected));
  }

  /** Completeness for one leaf: the honest siblings fold to the root. */
  lemma {:induction false} HonestFold(h: HashFunction, leaves: seq<Bytes>, position: nat)
    requires position < |leaves|
    ensures Fold(h, LeafHash(h, leaves[position]), Route(position, |leaves|), HonestSiblings(h, leaves, position))
         == Root(h, leaves)
    decreases |leaves|
  {
    hide Split, Domain, Root, LeafHash, StepPreimage, Fold;
    var n := |leaves|;
    if n == 1 {
      FoldNothing(h, LeafHash(h, leaves[0]));
      SingleLeafRoot(h, leaves);
      return;
    }
    var k := Split(n);
    var d := LeafHash(h, leaves[position]);
    SplitRootPreimage(h, leaves);
    if position < k {
      var s := Root(h, leaves[k..]);
      HonestFold(h, leaves[..k], position);
      FoldSnoc(h, d, Route(position, k), HonestSiblings(h, leaves[..k], position), false, s);
      StepIsNode(Root(h, leaves[..k]), s);
    } else {
      var s := Root(h, leaves[..k]);
      HonestFold(h, leaves[k..], position - k);
      FoldSnoc(h, d, Route(position - k, n - k), HonestSiblings(h, leaves[k..], position - k), true, s);
      StepIsNode(s, Root(h, leaves[k..]));
    }
  }

  lemma StepIsNode(left: Digest, right: Digest)
    ensures StepPreimage(left, false, right) == NodePreimage(left, right) == StepPreimage(right, true, left)
  {
  }

  lemma FoldSnoc(h: HashFunction, d: Digest, route: seq<bool>, siblings: seq<Digest>, left: bool, s: Digest)
    requires |route| == |siblings|
    ensures Fold(h, d, route + [left], siblings + [s]) == h(StepPreimage(Fold(h, d, route, siblings), left, s))
  {
    assert (route + [left])[..|route|] == route;
    assert (siblings + [s])[..|siblings|] == siblings;
  }

  // ----- Soundness -----

  /** Compare the folded nodes with the real tree, from the root down. */
  function FoldClash(h: HashFunction, leaf: Bytes, leaves: seq<Bytes>, position: nat, siblings: seq<Digest>): Finding
    requires position < |leaves| && |siblings| == |Route(position, |leaves|)|
    decreases |leaves|
  {
    var n := |leaves|;
    if n == 1 then
      if leaf == leaves[0] then NoClash else Found(Clash(Tagged(TAG_LEAF, leaf), Tagged(TAG_LEAF, leaves[0])))
    else
      var k := Split(n);
      var top := FoldTop(h, leaf, Route(position, n), siblings);
      var lower := siblings[..|siblings| - 1];
      if top != RootPreimage(h, leaves) then Found(Clash(top, RootPreimage(h, leaves)))
      else if position < k then FoldClash(h, leaf, leaves[..k], position, lower)
      else FoldClash(h, leaf, leaves[k..], position - k, lower)
  }

  /** A fold that reaches the root started from the real leaf and used the real
      siblings, or a collision is found. */
  lemma {:induction false} FoldBinds(
    h: HashFunction, leaf: Bytes, leaves: seq<Bytes>, position: nat, siblings: seq<Digest>)
    requires position < |leaves| && |siblings| == |Route(position, |leaves|)|
    requires Fold(h, LeafHash(h, leaf), Route(position, |leaves|), siblings) == Root(h, leaves)
    ensures Genuine(h, FoldClash(h, leaf, leaves, position, siblings))
    ensures FoldClash(h, leaf, leaves, position, siblings).NoClash? <==>
              leaf == leaves[position] && siblings == HonestSiblings(h, leaves, position)
    decreases |leaves|
  {
    hide Split, Domain, Root, LeafHash, StepPreimage, Fold;
    var n := |leaves|;
    if n == 1 {
      SingleFoldBinds(h, leaf, leaves);
      return;
    }
    if FoldClashTop(h, leaf, leaves, position, siblings) {
      HonestTop(h, leaves, position);
    } else {
      FoldBindsBelow(h, leaf, leaves, position, siblings);
    }
  }

  /** Below agreeing top nodes the comparison continues in one half. */
  lemma FoldClashBelow(h: HashFunction, leaf: Bytes, leaves: seq<Bytes>, position: nat, siblings: seq<Digest>)
    requires position < |leaves| && |leaves| >= 2 && |siblings| == |Route(position, |leaves|)|
    requires !FoldClashTop(h, leaf, leaves, position, siblings)
    ensures var k, lower := Split(|leaves|), siblings[..|siblings| - 1];
            if position >= k then
              && |lower| == |Route(position - k, |leaves| - k)|
              && FoldClash(h, leaf, leaves, position, siblings) == FoldClash(h, leaf, leaves[k..], position - k, lower)
            else
              && |lower| == |Route(position, k)|
              && FoldClash(h, leaf, leaves, position, siblings) == FoldClash(h, leaf, leaves[..k], position, lower)
  {
    hide Split, Root, LeafHash, Fold, FoldTop, RootPreimage, Domain;
  }

  lemma {:induction false} FoldBindsBelow(
    h: HashFunction, leaf: Bytes, leaves: seq<Bytes>, position: nat, siblings: seq<Digest>)
    requires position < |leaves| && |leaves| >= 2 && |siblings| == |Route(position, |leaves|)|
    requires Fold(h, LeafHash(h, leaf), Route(position, |leaves|), siblings) == Root(h, leaves)
    requires !FoldClashTop(h, leaf, leaves, position, siblings)
    ensures Genuine(h, FoldClash(h, leaf, leaves, position, siblings))
    ensures FoldClash(h, leaf, leaves, position, siblings).NoClash? <==>
              leaf == leaves[position] && siblings == HonestSiblings(h, leaves, position)
    decreases |leaves|, 0
  {
    hide Split, Root, LeafHash, Fold, FoldTop, RootPreimage, FoldClash, FoldClashTop, Domain;
    var n := |leaves|;
    var k := Split(n);
    var right := position >= k;
    var lower := if right then Route(position - k, n - k) else Route(position, k);
    FoldClashBelow(h, leaf, leaves, position, siblings);
    FoldBindsAt(h, leaf, leaves, position, siblings, lower, right);
    if right {
      FoldBinds(h, leaf, leaves[k..], position - k, siblings[..|lower|]);
      SnocEqual(siblings, HonestSiblings(h, leaves[k..], position - k), Root(h, leaves[..k]));
    } else {
      FoldBinds(h, leaf, leaves[..k], position, siblings[..|lower|]);
      SnocEqual(siblings, HonestSiblings(h, leaves[..k], position), Root(h, leaves[k..]));
    }
  }

  lemma SingleFoldBinds(h: HashFunction, leaf: Bytes, leaves: seq<Bytes>)
    requires |leaves| == 1
    requires Fold(h, LeafHash(h, leaf), [], []) == Root(h, leaves)
    ensures Genuine(h, FoldClash(h, leaf, leaves, 0, []))
  {
    hide Domain;
    if leaf != leaves[0] && Tagged(TAG_LEAF, leaf) == Tagged(TAG_LEAF, leaves[0]) {
      TaggedInjective(TAG_LEAF, leaf, TAG_LEAF, leaves[0]);
    }
  }

  /** The top node of a fold is not the top node of the tree. */
  predicate FoldClashTop(h: HashFunction, leaf: Bytes, leaves: seq<Bytes>, position: nat, siblings: seq<Digest>)
    requires position < |leaves| && |leaves| >= 2 && |siblings| == |Route(position, |leaves|)|
  {
    FoldTop(h, leaf, Route(position, |leaves|), siblings) != RootPreimage(h, leaves)
  }

  /** What the last step of a nonempty fold hashes. */
  function FoldTop(h: HashFunction, leaf: Bytes, route: seq<bool>, siblings: seq<Digest>): (p: Bytes)
    requires |route| == |siblings| > 0
    ensures h(p) == Fold(h, LeafHash(h, leaf), route, siblings)
  {
    var m := |route| - 1;
    StepPreimage(Fold(h, LeafHash(h, leaf), route[..m], siblings[..m]), route[m], siblings[m])
  }

  /** One level of a fold: when the top nodes agree, so do the halves below them. */
  lemma FoldBindsAt(
    h: HashFunction, leaf: Bytes, leaves: seq<Bytes>, position: nat, siblings: seq<Digest>, lower: seq<bool>,
    right: bool)
    requires position < |leaves| && |leaves| >= 2 && |siblings| == |Route(position, |leaves|)|
    requires Route(position, |leaves|) == lower + [right]
    requires Fold(h, LeafHash(h, leaf), Route(position, |leaves|), siblings) == Root(h, leaves)
    ensures |siblings| == |lower| + 1 && Route(position, |leaves|)[..|lower|] == lower
    ensures !FoldClashTop(h, leaf, leaves, position, siblings) ==>
              var k := Split(|leaves|);
              && Fold(h, LeafHash(h, leaf), lower, siblings[..|lower|])
                   == Root(h, if right then leaves[k..] else leaves[..k])
              && siblings[|lower|] == Root(h, if right then leaves[..k] else leaves[k..])
  {
    hide Split, Domain, Root, Route, LeafHash, NodePreimage;
    var k := Split(|leaves|);
    var m := |lower|;
    var s := siblings[m];
    assert siblings == siblings[..m] + [s];
    var d := Fold(h, LeafHash(h, leaf), lower, siblings[..m]);
    FoldSnoc(h, LeafHash(h, leaf), lower, siblings[..m], right, s);
    SplitRootPreimage(h, leaves);
    if !FoldClashTop(h, leaf, leaves, position, siblings) {
      if right {
        NodePreimageInjective(s, d, Root(h, leaves[..k]), Root(h, leaves[k..]));
      } else {
        NodePreimageInjective(d, s, Root(h, leaves[..k]), Root(h, leaves[k..]));
      }
    }
  }

  lemma FoldNothing(h: HashFunction, d: Digest)
    ensures Fold(h, d, [], []) == d
  {
  }

  lemma SingleLeafRoot(h: HashFunction, leaves: seq<Bytes>)
    requires |leaves| == 1
    ensures Root(h, leaves) == LeafHash(h, leaves[0])
  {
  }

  lemma SplitRootPreimage(h: HashFunction, leaves: seq<Bytes>)
    requires |leaves| >= 2
    ensures var k := Split(|leaves|);
            RootPreimage(h, leaves) == NodePreimage(Root(h, leaves[..k]), Root(h, leaves[k..]))
  {
    hide Split, Domain, Root;
  }

  lemma SnocEqual<T>(whole: seq<T>, front: seq<T>, last: T)
    requires |whole| == |front| + 1 && whole[|front|] == last
    ensures whole == front + [last] <==> whole[..|front|] == front
  {
    assert (front + [last])[..|front|] == front;
    assert whole == whole[..|front|] + [whole[|front|]];
  }

  /** The honest fold arrives at the root through the real top preimage. */
  lemma HonestTop(h: HashFunction, leaves: seq<Bytes>, position: nat)
    requires position < |leaves| && |leaves| >= 2
    ensures FoldTop(h, leaves[position], Route(position, |leaves|), HonestSiblings(h, leaves, position))
         == RootPreimage(h, leaves)
  {
    hide Split, Domain, Root, LeafHash, StepPreimage, Fold;
    var n := |leaves|;
    var k := Split(n);
    SplitRootPreimage(h, leaves);
    if position < k {
      HonestFold(h, leaves[..k], position);
      DropLast(Route(position, k), false);
      DropLast(HonestSiblings(h, leaves[..k], position), Root(h, leaves[k..]));
      StepIsNode(Root(h, leaves[..k]), Root(h, leaves[k..]));
    } else {
      HonestFold(h, leaves[k..], position - k);
      DropLast(Route(position - k, n - k), true);
      DropLast(HonestSiblings(h, leaves[k..], position - k), Root(h, leaves[..k]));
      StepIsNode(Root(h, leaves[..k]), Root(h, leaves[k..]));
    }
  }

  lemma DropLast<T>(s: seq<T>, x: T)
    ensures (s + [x])[..|s|] == s && (s + [x])[|s|] == x
  {
  }

  // ----- Bundles -----

  datatype MemberProof = MemberProof(entry: Ledger.Entry, siblings: seq<Digest>)

  datatype MembershipBundle = MembershipBundle(commitment: LedgerCommitment, members: seq<MemberProof>)

  /** The encoded receipts of a bundle, in bytes. */
  function ReceiptTotal(codec: TreeCodec, members: seq<MemberProof>): nat {
    if members == [] then 0
    else
      var n := |members| - 1;
      ReceiptTotal(codec, members[..n]) + codec.receiptBytes(members[n].entry)
  }

  /** What the bundle constructor admits. */
  predicate ValidBundle(codec: TreeCodec, bundle: MembershipBundle) {
    && ReceiptTotal(codec, bundle.members) <= MAX_RECEIPT_BYTES
    && 1 <= |bundle.members| <= MAX_MEMBERS
    && (forall i | 0 <= i < |bundle.members| ::
          && |bundle.members[i].siblings| <= MAX_SIBLINGS
          && codec.admissible(bundle.members[i].entry)
          && bundle.members[i].entry.sequence < bundle.commitment.entryCount
          && |bundle.members[i].siblings| == |Route(bundle.members[i].entry.sequence, bundle.commitment.entryCount)|)
    && (forall i, j | 0 <= i < j < |bundle.members| ::
          bundle.members[i].entry.sequence < bundle.members[j].entry.sequence)
  }

  /** The checks made on one member. */
  predicate AcceptsMember(
    h: HashFunction, chain: Ledger.ChainCodec, codec: TreeCodec, header: LedgerCommitment, member: MemberProof)
    requires member.entry.sequence < header.entryCount
    requires |member.siblings| == |Route(member.entry.sequence, header.entryCount)|
  {
    var e := member.entry;
    && e.digest == h(Ledger.LinkPayload(chain, header.version, e.previous, e.event, e.sequence))
    && (e.sequence == 0 ==> e.previous == header.genesis)
    && (e.sequence == header.entryCount - 1 ==> e.digest == header.headDigest)
    && Fold(h, LeafHash(h, codec.leaf(header.version, e)), Route(e.sequence, header.entryCount), member.siblings)
       == header.rootHash
  }

  predicate Accepts(
    h: HashFunction, chain: Ledger.ChainCodec, codec: TreeCodec, bundle: MembershipBundle, expected: Digest)
    requires ValidBundle(codec, bundle)
  {
    && CommitmentDigest(h, codec, bundle.commitment) == expected
    && forall i | 0 <= i < |bundle.members| :: AcceptsMember(h, chain, codec, bundle.commitment, bundle.members[i])
  }

  /** The verification loops: over the members, and along each member's route. */
  method VerifyMembership(
    h: HashFunction, chain: Ledger.ChainCodec, codec: TreeCodec, bundle: MembershipBundle, expected: Digest)
    returns (r: Option<seq<Ledger.Entry>>)
    requires ValidBundle(codec, bundle)
    ensures r.Some? <==> Accepts(h, chain, codec, bundle, expected)
    ensures r.Some? ==>
              r.value == seq(|bundle.members|, i requires 0 <= i < |bundle.members| => bundle.members[i].entry)
  {
    hide Fold, LeafHash, CommitmentDigest, Ledger.LinkPayload;
    var header := bundle.commitment;
    if CommitmentDigest(h, codec, header) != expected {
      return None;
    }
    for i := 0 to |bundle.members|
      invariant forall j | 0 <= j < i :: AcceptsMember(h, chain, codec, header, bundle.members[j])
    {
      var member := bundle.members[i];
      var e := member.entry;
      if e.digest != h(Ledger.LinkPayload(chain, header.version, e.previous, e.event, e.sequence)) {
        assert !AcceptsMember(h, chain, codec, header, member);
        return None;
      }
      if e.sequence == 0 && e.previous != header.genesis {
        assert !AcceptsMember(h, chain, codec, header, member);
        return None;
      }
      if e.sequence == header.entryCount - 1 && e.digest != header.headDigest {
        assert !AcceptsMember(h, chain, codec, header, member);
        return None;
      }
      var digest := FoldMember(h, LeafHash(h, codec.leaf(header.version, e)), e.sequence, header.entryCount,
                               member.siblings);
      if digest != header.rootHash {
        assert !AcceptsMember(h, chain, codec, header, member);
        return None;
      }
    }
    r := Some(seq(|bundle.members|, i requires 0 <= i < |bundle.members| => bundle.members[i].entry));
  }

  method FoldMember(h: HashFunction, leaf: Digest, position: nat, count: nat, siblings: seq<Digest>)
    returns (digest: Digest)
    requires position < count && |siblings| == |Route(position, count)|
    ensures digest == Fold(h, leaf, Route(position, count), siblings)
  {
    var route := ComputeRoute(position, count);
    digest := leaf;
    for i := 0 to |route|
      invariant digest == Fold(h, leaf, route[..i], siblings[..i])
    {
      FoldSnoc(h, leaf, route[..i], siblings[..i], route[i], siblings[i]);
      assert route[..i + 1] == route[..i] + [route[i]];
      assert siblings[..i + 1] == siblings[..i] + [siblings[i]];
      digest := if route[i] then NodeHash(h, siblings[i], digest) else NodeHash(h, digest, siblings[i]);
    }
    assert route[..|route|] == route && siblings[..|siblings|] == siblings;
  }

  /** Where to look for a collision once member `i` was accepted. */
  function MembershipClash(h: HashFunction, codec: TreeCodec, bundle: MembershipBundle, ledger: Ledger.EvidenceLedger,
                           i: nat)
    : Finding
    requires ValidBundle(codec, bundle) && i < |bundle.members|
  {
    var x := CommitmentOf(h, codec, ledger);
    var member := bundle.members[i];
    if CommitmentPreimage(codec, bundle.commitment) != CommitmentPreimage(codec, x) then
      Found(Clash(CommitmentPreimage(codec, bundle.commitment), CommitmentPreimage(codec, x)))
    else if bundle.commitment == x then
      FoldClash(h, codec.leaf(x.version, member.entry), Leaves(codec, ledger), member.entry.sequence, member.siblings)
    else NoClash
  }

  /** Soundness: under the digest of a real ledger every accepted member is the
      receipt the ledger holds at that position, with its generated siblings. */
  lemma MembershipSound(
    h: HashFunction, chain: Ledger.ChainCodec, codec: TreeCodec, bundle: MembershipBundle,
    ledger: Ledger.EvidenceLedger, i: nat)
    requires Lossless(codec) && ValidBundle(codec, bundle) && i < |bundle.members|
    requires Accepts(h, chain, codec, bundle, CommitmentDigest(h, codec, CommitmentOf(h, codec, ledger)))
    ensures Genuine(h, MembershipClash(h, codec, bundle, ledger, i))
    ensures MembershipClash(h, codec, bundle, ledger, i).NoClash? ==>
              var e := bundle.members[i].entry;
              && e.sequence < |ledger.entries|
              && e == ledger.entries[e.sequence]
              && bundle.members[i].siblings == HonestSiblings(h, Leaves(codec, ledger), e.sequence)
  {
    hide Fold, Root, HonestSiblings, Domain;
    var x := CommitmentOf(h, codec, ledger);
    DigestBindsHeader(h, codec, bundle.commitment, x);
    if bundle.commitment == x {
      var member := bundle.members[i];
      assert AcceptsMember(h, chain, codec, x, member);
      FoldBinds(h, codec.leaf(x.version, member.entry), Leaves(codec, ledger), member.entry.sequence, member.siblings);
    }
  }

  /** The bundle a proof index generates for a page of positions. */
  function HonestBundle(h: HashFunction, codec: TreeCodec, ledger: Ledger.EvidenceLedger, positions: seq<nat>)
    : (b: MembershipBundle)
    requires forall i | 0 <= i < |positions| :: positions[i] < |ledger.entries|
    ensures |b.members| == |positions|
  {
    MembershipBundle(
      CommitmentOf(h, codec, ledger),
      seq(|positions|, i requires 0 <= i < |positions| =>
        MemberProof(ledger.entries[positions[i]], HonestSiblings(h, Leaves(codec, ledger), positions[i]))))
  }

  /** Completeness: every page of a verified ledger whose receipts are each admissible and
      together fit the byte budget has a bundle, and it is accepted. */
  lemma MembershipComplete(
    h: HashFunction, chain: Ledger.ChainCodec, codec: TreeCodec, ledger: Ledger.EvidenceLedger, positions: seq<nat>)
    requires Ledger.Verified(h, chain, ledger)
    requires 1 <= |positions| <= MAX_MEMBERS
    requires forall i | 0 <= i < |positions| :: positions[i] < |ledger.entries|
    requires forall i, j | 0 <= i < j < |positions| :: positions[i] < positions[j]
    ensures var b := HonestBundle(h, codec, ledger, positions);
            && (ValidBundle(codec, b) <==>
                  && ReceiptTotal(codec, b.members) <= MAX_RECEIPT_BYTES
                  && forall i | 0 <= i < |positions| :: codec.admissible(ledger.entries[positions[i]]))
            && (ValidBundle(codec, b) ==>
                  Accepts(h, chain, codec, b, CommitmentDigest(h, codec, CommitmentOf(h, codec, ledger))))
  {
    hide Fold, Root, Domain, Route, HonestSiblings, Ledger.LinkPayload;
    var b := HonestBundle(h, codec, ledger, positions);
    forall i | 0 <= i < |positions|
      ensures b.members[i].entry.sequence == positions[i]
      ensures |b.members[i].siblings| == |Route(positions[i], |ledger.entries|)| <= MAX_SIBLINGS
      ensures AcceptsMember(h, chain, codec, b.commitment, b.members[i])
    {
      assert Ledger.LinkAt(h, chain, ledger, positions[i]);
      PublishedLimitsSuffice(positions[i], 0, |ledger.entries|);
      HonestFold(h, Leaves(codec, ledger), positions[i]);
    }
  }
}
