/** The receipt tree over leaf byte strings (membership.py): domain-separated
    hashing, the root of section 2.1 of RFC 6962, the cached tree the prover
    walks, and the computation of a collision from two trees with one root.
 */
module ReceiptTree {
  import opened Hashing
  import opened TreeShape

  const TAG_LEAF: byte := 76
  const TAG_NODE: byte := 78
  const TAG_EMPTY: byte := 69
  const TAG_COMMITMENT: byte := 67

  function Domain(): Bytes {
    Ascii("evidence-braid:ledger-membership:v1") + [0]
  }

  function Tagged(tag: byte, payload: Bytes): Bytes {
    Framed(Domain(), tag, payload)
  }

  function NodePreimage(left: Digest, right: Digest): Bytes {
    Tagged(TAG_NODE, left + right)
  }

  function LeafHash(h: HashFunction, leaf: Bytes): Digest {
    h(Tagged(TAG_LEAF, leaf))
  }

  function NodeHash(h: HashFunction, left: Digest, right: Digest): Digest {
    h(NodePreimage(left, right))
  }

  function EmptyRoot(h: HashFunction): Digest {
    h(Tagged(TAG_EMPTY, []))
  }

  /** Tags separate domains: equal preimages have equal tags and payloads. */
  lemma TaggedInjective(t: byte, x: Bytes, u: byte, y: Bytes)
    requires Tagged(t, x) == Tagged(u, y)
    ensures t == u && x == y
  {
    FramedInjective(Domain(), t, x, u, y);
  }

  lemma NodePreimageInjective(a: Digest, b: Digest, c: Digest, d: Digest)
    requires NodePreimage(a, b) == NodePreimage(c, d)
    ensures a == c && b == d
  {
    TaggedInjective(TAG_NODE, a + b, TAG_NODE, c + d);
    assert (a + b)[..32] == a && (c + d)[..32] == c;
    assert (a + b)[32..] == b && (c + d)[32..] == d;
  }

  /** The reference root of a sequence of leaves. */
  function Root(h: HashFunction, leaves: seq<Bytes>): Digest {
    if |leaves| == 0 then EmptyRoot(h)
    else if |leaves| == 1 then LeafHash(h, leaves[0])
    else
      var k := Split(|leaves|);
      NodeHash(h, Root(h, leaves[..k]), Root(h, leaves[k..]))
  }

  /** What the root of `leaves` hashes. */
  function RootPreimage(h: HashFunction, leaves: seq<Bytes>): (p: Bytes)
    ensures h(p) == Root(h, leaves)
  {
    if |leaves| == 0 then Tagged(TAG_EMPTY, [])
    else if |leaves| == 1 then Tagged(TAG_LEAF, leaves[0])
    else
      var k := Split(|leaves|);
      NodePreimage(Root(h, leaves[..k]), Root(h, leaves[k..]))
  }

  /** The cached tree of the prover. */
  datatype Node =
    | LeafNode(digest: Digest)
    | InnerNode(digest: Digest, count: nat, left: Node, right: Node)
  {
    function Count(): nat {
      if LeafNode? then 1 else count
    }
  }

  /** Recursive construction over `leaves[start .. start + count]`. */
  function Build(h: HashFunction, leaves: seq<Bytes>, start: nat, count: nat): (t: Node)
    requires 1 <= count && start + count <= |leaves|
    ensures t.Count() == count
    decreases count
  {
    if count == 1 then LeafNode(LeafHash(h, leaves[start]))
    else
      var k := Split(count);
      var left := Build(h, leaves, start, k);
      var right := Build(h, leaves, start + k, count - k);
      InnerNode(NodeHash(h, left.digest, right.digest), count, left, right)
  }

  /** `t` is the well-formed cached tree of exactly these leaves. */
  predicate TreeOf(h: HashFunction, t: Node, leaves: seq<Bytes>)
    requires |leaves| >= 1
    decreases t
  {
    && t.digest == Root(h, leaves)
    && t.Count() == |leaves|
    && (t.LeafNode? <==> |leaves| == 1)
    && (t.InnerNode? ==>
          var k := Split(|leaves|);
          TreeOf(h, t.left, leaves[..k]) && TreeOf(h, t.right, leaves[k..]))
  }

  /** Construction by offsets caches the reference root of every slice. */
  lemma {:induction false} BuildCorrect(h: HashFunction, leaves: seq<Bytes>, start: nat, count: nat)
    requires 1 <= count && start + count <= |leaves|
    ensures TreeOf(h, Build(h, leaves, start, count), leaves[start..start + count])
    decreases count
  {
    hide TreeOf, Root, Split, NodeHash, LeafHash;
    if count == 1 {
      LeafTree(h, leaves[start]);
      assert leaves[start..start + count] == [leaves[start]];
    } else {
      var k := Split(count);
      BuildCorrect(h, leaves, start, k);
      BuildCorrect(h, leaves, start + k, count - k);
      SliceHalves(leaves, start, count, k);
      JoinTrees(h, Build(h, leaves, start, k), Build(h, leaves, start + k, count - k), leaves[start..start + count]);
    }
  }

  lemma LeafTree(h: HashFunction, leaf: Bytes)
    ensures TreeOf(h, LeafNode(LeafHash(h, leaf)), [leaf])
  {
  }

  /** Two correct halves make a correct tree. */
  lemma JoinTrees(h: HashFunction, left: Node, right: Node, leaves: seq<Bytes>)
    requires |leaves| >= 2
    requires TreeOf(h, left, leaves[..Split(|leaves|)]) && TreeOf(h, right, leaves[Split(|leaves|)..])
    ensures TreeOf(h, InnerNode(NodeHash(h, left.digest, right.digest), |leaves|, left, right), leaves)
  {
    hide Split, Domain;
  }

  lemma SliceHalves<T>(s: seq<T>, start: nat, count: nat, k: nat)
    requires k <= count && start + count <= |s|
    ensures s[start..start + count][..k] == s[start..start + k]
    ensures s[start..start + count][k..] == s[start + k..start + k + (count - k)]
  {
  }

  /** Descend two trees of one size and one root to the first pair of different
      preimages under one digest. */
  function TreeClash(h: HashFunction, a: seq<Bytes>, b: seq<Bytes>): (f: Finding)
    requires |a| == |b|
    decreases |a|
  {
    if RootPreimage(h, a) != RootPreimage(h, b) then
      Found(Clash(RootPreimage(h, a), RootPreimage(h, b)))
    else if |a| <= 1 then NoClash
    else
      var k := Split(|a|);
      Either(TreeClash(h, a[..k], b[..k]), TreeClash(h, a[k..], b[k..]))
  }

  /** A root binds every leaf of a tree of known size. */
  lemma {:induction false} RootBindsLeaves(h: HashFunction, a: seq<Bytes>, b: seq<Bytes>)
    requires |a| == |b| && Root(h, a) == Root(h, b)
    ensures Genuine(h, TreeClash(h, a, b))
    ensures TreeClash(h, a, b).NoClash? <==> a == b
    decreases |a|
  {
    hide Split, Domain, NodePreimage;
    if RootPreimage(h, a) == RootPreimage(h, b) {
      if |a| == 1 {
        TaggedInjective(TAG_LEAF, a[0], TAG_LEAF, b[0]);
      } else if |a| > 1 {
        var k := Split(|a|);
        NodePreimageInjective(Root(h, a[..k]), Root(h, a[k..]), Root(h, b[..k]), Root(h, b[k..]));
        RootBindsLeaves(h, a[..k], b[..k]);
        RootBindsLeaves(h, a[k..], b[k..]);
        GlueHalves(a, b, k);
      }
    }
  }

  lemma GlueHalves<T>(a: seq<T>, b: seq<T>, k: nat)
    requires k <= |a| && |a| == |b|
    ensures a == b <==> a[..k] == b[..k] && a[k..] == b[k..]
  {
    assert a == a[..k] + a[k..] && b == b[..k] + b[k..];
  }
}
