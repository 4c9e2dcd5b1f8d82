/** Prefix consistency between two retained commitments (consistency.py).

    The prover walks the cached tree, the verifier rebuilds both roots from the
    two counts and the path alone, and the length function does neither. They
    agree for every pair of sizes, and an accepted path forces the old receipts
    to be the first receipts of the new ledger, or a collision is computed.
 */
module Consistency {
  import opened Wrappers
  import opened Hashing
  import opened TreeShape
  import opened ReceiptTree
  import opened Commitment
  import Ledger

  const MAX_PATH := 18

  // ----- The prover -----

  function PrefixRoot(h: HashFunction, tree: Node, count: nat): Digest
    requires 1 <= count <= tree.Count() && CountsAdd(tree)
    decreases tree
  {
    if count == tree.Count() then tree.digest
    else if count <= tree.left.Count() then PrefixRoot(h, tree.left, count)
    else NodeHash(h, tree.left.digest, PrefixRoot(h, tree.right, count - tree.left.Count()))
  }

  predicate CountsAdd(tree: Node)
    decreases tree
  {
    tree.InnerNode? ==>
      && CountsAdd(tree.left) && CountsAdd(tree.right)
      && tree.left.Count() >= 1 && tree.right.Count() >= 1
      && tree.count == tree.left.Count() + tree.right.Count()
  }

  function SubproofPath(tree: Node, count: nat, known: bool): seq<Digest>
    requires 1 <= count <= tree.Count() && CountsAdd(tree)
    decreases tree
  {
    if count == tree.Count() then if known then [] else [tree.digest]
    else if count <= tree.left.Count() then SubproofPath(tree.left, count, known) + [tree.right.digest]
    else SubproofPath(tree.right, count - tree.left.Count(), false) + [tree.left.digest]
  }

  /** The list every level of the prover appends to. */
  class PathList {
    var items: seq<Digest>

    constructor ()
      ensures items == []
    {
      items := [];
    }

    method Append(d: Digest)
      modifies this
      ensures items == old(items) + [d]
    {
      items := items + [d];
    }
  }

  method Subproof(tree: Node, count: nat, known: bool, path: PathList)
    requires 1 <= count <= tree.Count() && CountsAdd(tree)
    modifies path
    ensures path.items == old(path.items) + SubproofPath(tree, count, known)
    decreases tree
  {
    if count == tree.Count() {
      if !known {
        path.Append(tree.digest);
      }
      return;
    }
    if count <= tree.left.Count() {
      Subproof(tree.left, count, known, path);
      path.Append(tree.right.digest);
    } else {
      Subproof(tree.right, count - tree.left.Count(), false, path);
      path.Append(tree.left.digest);
    }
  }

  /** The path of section 2.1.2 of RFC 6962, read off the leaves. */
  function HonestPath(h: HashFunction, leaves: seq<Bytes>, m: nat, known: bool): seq<Digest>
    requires 1 <= m <= |leaves|
    decreases |leaves|
  {
    var n := |leaves|;
    if m == n then if known then [] else [Root(h, leaves)]
    else
      var k := Split(n);
      if m <= k then HonestPath(h, leaves[..k], m, known) + [Root(h, leaves[k..])]
      else HonestPath(h, leaves[k..], m - k, false) + [Root(h, leaves[..k])]
  }

  lemma {:induction false} TreeCountsAdd(h: HashFunction, tree: Node, leaves: seq<Bytes>)
    requires |leaves| >= 1 && TreeOf(h, tree, leaves)
    ensures CountsAdd(tree)
    decreases tree
  {
    if tree.InnerNode? {
      var k := Split(|leaves|);
      TreeCountsAdd(h, tree.left, leaves[..k]);
      TreeCountsAdd(h, tree.right, leaves[k..]);
    }
  }

  /** Extracting a prefix root from the larger tree gives the root of the prefix built alone. */
  lemma {:induction false} PrefixRootCorrect(h: HashFunction, tree: Node, leaves: seq<Bytes>, m: nat)
    requires 1 <= m <= |leaves| && TreeOf(h, tree, leaves) && CountsAdd(tree)
    ensures PrefixRoot(h, tree, m) == Root(h, leaves[..m])
    decreases tree
  {
    var n := |leaves|;
    if m == n {
      assert leaves[..m] == leaves;
    } else {
      var k := Split(n);
      if m <= k {
        PrefixRootCorrect(h, tree.left, leaves[..k], m);
        TakeTake(leaves, k, m);
      } else {
        PrefixRootCorrect(h, tree.right, leaves[k..], m - k);
        PrefixRootSplit(h, leaves, m);
      }
    }
  }

  /** A prefix reaching into the right half splits where the whole tree does. */
  lemma PrefixRootSplit(h: HashFunction, leaves: seq<Bytes>, m: nat)
    requires 2 <= |leaves| && Split(|leaves|) < m <= |leaves|
    ensures var k := Split(|leaves|);
            Root(h, leaves[..m]) == NodeHash(h, Root(h, leaves[..k]), Root(h, leaves[k..][..m - k]))
  {
    hide Split, Domain;
    var k := Split(|leaves|);
    SplitShared(m, |leaves|);
    assert leaves[..m][..k] == leaves[..k];
    assert leaves[..m][k..] == leaves[k..][..m - k];
  }

  /** The prover emits the path of the standard, one hash for each unit of `PathSize`. */
  lemma {:induction false} SubproofCorrect(h: HashFunction, tree: Node, leaves: seq<Bytes>, m: nat, known: bool)
    requires 1 <= m <= |leaves| && TreeOf(h, tree, leaves) && CountsAdd(tree)
    ensures SubproofPath(tree, m, known) == HonestPath(h, leaves, m, known)
    ensures |SubproofPath(tree, m, known)| == PathSize(m, |leaves|, known)
    decreases tree
  {
    hide Split, Domain;
    if m < |leaves| {
      var k := Split(|leaves|);
      if m <= k {
        SubproofCorrect(h, tree.left, leaves[..k], m, known);
      } else {
        SubproofCorrect(h, tree.right, leaves[k..], m - k, false);
      }
    }
  }

  // ----- The verifier -----

  datatype Recovered = Exhausted | Roots(before: Digest, after: Digest, rest: seq<Digest>)

  /** Rebuild the old and the new root, taking hashes from the front of `path`. */
  function Recover(h: HashFunction, m: nat, n: nat, known: bool, oldRoot: Digest, path: seq<Digest>): Recovered
    requires 1 <= m <= n
    decreases n
  {
    if m == n then
      if known then Roots(oldRoot, oldRoot, path)
      else if path == [] then Exhausted
      else Roots(path[0], path[0], path[1..])
    else
      var k := Split(n);
      if m <= k then JoinRight(h, Recover(h, m, k, known, oldRoot, path))
      else JoinLeft(h, Recover(h, m - k, n - k, false, oldRoot, path))
  }

  /** The next hash is the right neighbour, which only the new tree has. */
  function JoinRight(h: HashFunction, r: Recovered): Recovered {
    if r.Exhausted? || r.rest == [] then Exhausted
    else Roots(r.before, NodeHash(h, r.after, r.rest[0]), r.rest[1..])
  }

  /** The next hash is the left neighbour, which both trees share. */
  function JoinLeft(h: HashFunction, r: Recovered): Recovered {
    if r.Exhausted? || r.rest == [] then Exhausted
    else Roots(NodeHash(h, r.rest[0], r.before), NodeHash(h, r.rest[0], r.after), r.rest[1..])
  }

  /** The iterator shared by all levels of the verifier. */
  class HashCursor {
    const hashes: seq<Digest>
    var next: nat

    predicate Valid()
      reads this
    {
      next <= |hashes|
    }

    function Remaining(): seq<Digest>
      reads this
      requires Valid()
    {
      hashes[next..]
    }

    constructor (path: seq<Digest>)
      ensures Valid() && Remaining() == path
    {
      hashes := path;
      next := 0;
    }

    method Next() returns (d: Option<Digest>)
      requires Valid()
      modifies this
      ensures Valid()
      ensures old(Remaining()) == [] ==> d.None? && Remaining() == []
      ensures old(Remaining()) != [] ==> d == Some(old(Remaining())[0]) && Remaining() == old(Remaining())[1..]
    {
      if next == |hashes| {
        return None;
      }
      d := Some(hashes[next]);
      next := next + 1;
    }
  }

  method RecoverRoots(h: HashFunction, m: nat, n: nat, known: bool, oldRoot: Digest, cursor: HashCursor)
    returns (r: Option<(Digest, Digest)>)
    requires 1 <= m <= n && cursor.Valid()
    modifies cursor
    ensures cursor.Valid()
    ensures var spec := Recover(h, m, n, known, oldRoot, old(cursor.Remaining()));
            match spec
            case Exhausted => r.None?
            case Roots(x, y, rest) => r == Some((x, y)) && cursor.Remaining() == rest
    decreases n
  {
    hide Split, Domain;
    if m == n {
      if known {
        return Some((oldRoot, oldRoot));
      }
      var root := cursor.Next();
      if root.None? { return None; }
      return Some((root.value, root.value));
    }
    var split := Split(n);
    if m <= split {
      var pair := RecoverRoots(h, m, split, known, oldRoot, cursor);
      if pair.None? { return None; }
      var right := cursor.Next();
      if right.None? { return None; }
      return Some((pair.value.0, NodeHash(h, pair.value.1, right.value)));
    }
    var pair := RecoverRoots(h, m - split, n - split, false, oldRoot, cursor);
    if pair.None? { return None; }
    var sibling := cursor.Next();
    if sibling.None? { return None; }
    return Some((NodeHash(h, sibling.value, pair.value.0), NodeHash(h, sibling.value, pair.value.1)));
  }

  /** The verifier runs out of hashes exactly when the path is shorter than
      `PathSize`, and otherwise takes exactly that many. */
  lemma {:induction false} RecoverConsumes(h: HashFunction, m: nat, n: nat, known: bool, oldRoot: Digest,
                                           path: seq<Digest>)
    requires 1 <= m <= n
    ensures var r := Recover(h, m, n, known, oldRoot, path);
            var size := PathSize(m, n, known);
            if |path| < size then r.Exhausted? else r.Roots? && r.rest == path[size..]
    decreases n
  {
    hide Split, Domain;
    if m < n {
      var k := Split(n);
      if m <= k {
        RecoverConsumes(h, m, k, known, oldRoot, path);
      } else {
        RecoverConsumes(h, m - k, n - k, false, oldRoot, path);
      }
    }
  }

  /** Completeness: the honest path rebuilds both real roots and is used up. */
  lemma {:induction false} RecoverComplete(
    h: HashFunction, leaves: seq<Bytes>, m: nat, known: bool, oldRoot: Digest, tail: seq<Digest>)
    requires 1 <= m <= |leaves|
    requires known ==> oldRoot == Root(h, leaves[..m])
    ensures Recover(h, m, |leaves|, known, oldRoot, HonestPath(h, leaves, m, known) + tail)
         == Roots(Root(h, leaves[..m]), Root(h, leaves), tail)
    decreases |leaves|
  {
    hide Split, Domain;
    if m == |leaves| {
      assert leaves[..m] == leaves;
      assert HonestPath(h, leaves, m, known) + tail == if known then tail else [Root(h, leaves)] + tail;
    } else {
      var k := Split(|leaves|);
      if m <= k {
        var s := Root(h, leaves[k..]);
        TakeTake(leaves, k, m);
        RecoverComplete(h, leaves[..k], m, known, oldRoot, [s] + tail);
        SnocTail(HonestPath(h, leaves[..k], m, known), s, tail);
      } else {
        var s := Root(h, leaves[..k]);
        PrefixRootSplit(h, leaves, m);
        RecoverComplete(h, leaves[k..], m - k, false, oldRoot, [s] + tail);
        SnocTail(HonestPath(h, leaves[k..], m - k, false), s, tail);
      }
    }
  }

  lemma SnocTail<T>(front: seq<T>, s: T, tail: seq<T>)
    ensures (front + [s]) + tail == front + ([s] + tail)
    ensures ([s] + tail)[0] == s && ([s] + tail)[1..] == tail
  {
  }

  lemma TakeTake<T>(s: seq<T>, k: nat, m: nat)
    requires m <= k <= |s|
    ensures s[..k][..m] == s[..m]
  {
  }

  // ----- Soundness: collision extraction over two trees of different shape -----

  /** Compare the rebuilt inner nodes with those of the two real trees, top down. */
  function PathClash(h: HashFunction, a: seq<Bytes>, b: seq<Bytes>, known: bool, oldRoot: Digest, path: seq<Digest>)
    : Finding
    requires 1 <= |a| <= |b|
    decreases |b|
  {
    var m, n := |a|, |b|;
    if m == n then TreeClash(h, a, b)
    else
      var k := Split(n);
      var r := if m <= k then Recover(h, m, k, known, oldRoot, path)
               else Recover(h, m - k, n - k, false, oldRoot, path);
      if r.Exhausted? || r.rest == [] then NoClash
      else
        var s := r.rest[0];
        if m <= k then
          if NodePreimage(r.after, s) != RootPreimage(h, b) then
            Found(Clash(NodePreimage(r.after, s), RootPreimage(h, b)))
          else PathClash(h, a, b[..k], known, oldRoot, path)
        else if NodePreimage(s, r.before) != RootPreimage(h, a) then
          Found(Clash(NodePreimage(s, r.before), RootPreimage(h, a)))
        else if NodePreimage(s, r.after) != RootPreimage(h, b) then
          Found(Clash(NodePreimage(s, r.after), RootPreimage(h, b)))
        else
          Either(TreeClash(h, a[..k], b[..k]), PathClash(h, a[k..], b[k..], false, oldRoot, path))
  }

  /** A path that rebuilds the roots of `a` and `b` proves `a` is a prefix of `b`,
      and the path itself is the honest one, unless a collision is found. */
  lemma {:induction false} PathBinds(
    h: HashFunction, a: seq<Bytes>, b: seq<Bytes>, known: bool, oldRoot: Digest, path: seq<Digest>)
    requires 1 <= |a| <= |b|
    requires var r := Recover(h, |a|, |b|, known, oldRoot, path);
             r.Roots? && r.before == Root(h, a) && r.after == Root(h, b)
    ensures Genuine(h, PathClash(h, a, b, known, oldRoot, path))
    ensures PathClash(h, a, b, known, oldRoot, path).NoClash? ==>
              && a <= b
              && path == HonestPath(h, b, |a|, known) + Recover(h, |a|, |b|, known, oldRoot, path).rest
    decreases |b|
  {
    hide Split, Domain;
    var m, n := |a|, |b|;
    if m == n {
      RootBindsLeaves(h, a, b);
    } else {
      var k := Split(n);
      if m <= k {
        PathBindsLeft(h, a, b, known, oldRoot, path);
      } else {
        PathBindsRight(h, a, b, known, oldRoot, path);
      }
    }
  }

  lemma {:induction false} PathBindsLeft(
    h: HashFunction, a: seq<Bytes>, b: seq<Bytes>, known: bool, oldRoot: Digest, path: seq<Digest>)
    requires 1 <= |a| < |b| && |a| <= Split(|b|)
    requires var r := Recover(h, |a|, |b|, known, oldRoot, path);
             r.Roots? && r.before == Root(h, a) && r.after == Root(h, b)
    ensures Genuine(h, PathClash(h, a, b, known, oldRoot, path))
    ensures PathClash(h, a, b, known, oldRoot, path).NoClash? ==>
              && a <= b
              && path == HonestPath(h, b, |a|, known) + Recover(h, |a|, |b|, known, oldRoot, path).rest
    decreases |b|, 0
  {
    hide Split, Domain;
    var k := Split(|b|);
    var r := Recover(h, |a|, k, known, oldRoot, path);
    var s := r.rest[0];
    if NodePreimage(r.after, s) == RootPreimage(h, b) {
      NodePreimageInjective(r.after, s, Root(h, b[..k]), Root(h, b[k..]));
      PathBinds(h, a, b[..k], known, oldRoot, path);
      if PathClash(h, a, b, known, oldRoot, path).NoClash? {
        MoveHead(path, HonestPath(h, b[..k], |a|, known), r.rest);
      }
    }
  }

  lemma {:induction false} PathBindsRight(
    h: HashFunction, a: seq<Bytes>, b: seq<Bytes>, known: bool, oldRoot: Digest, path: seq<Digest>)
    requires 1 <= |a| < |b| && |a| > Split(|b|)
    requires var r := Recover(h, |a|, |b|, known, oldRoot, path);
             r.Roots? && r.before == Root(h, a) && r.after == Root(h, b)
    ensures Genuine(h, PathClash(h, a, b, known, oldRoot, path))
    ensures PathClash(h, a, b, known, oldRoot, path).NoClash? ==>
              && a <= b
              && path == HonestPath(h, b, |a|, known) + Recover(h, |a|, |b|, known, oldRoot, path).rest
    decreases |b|, 0
  {
    hide Split, Domain, Root, TreeClash;
    var k := Split(|b|);
    SplitShared(|a|, |b|);
    var r := Recover(h, |a| - k, |b| - k, false, oldRoot, path);
    var s := r.rest[0];
    if NodePreimage(s, r.before) != RootPreimage(h, a) || NodePreimage(s, r.after) != RootPreimage(h, b) {
      return;
    }
    NodePreimageInjective(s, r.before, Root(h, a[..k]), Root(h, a[k..]));
    NodePreimageInjective(s, r.after, Root(h, b[..k]), Root(h, b[k..]));
    RootBindsLeaves(h, a[..k], b[..k]);
    PathBinds(h, a[k..], b[k..], false, oldRoot, path);
    if PathClash(h, a, b, known, oldRoot, path).NoClash? {
      JoinHalves(a, b, k);
      MoveHead(path, HonestPath(h, b[k..], |a| - k, false), r.rest);
    }
  }

  lemma JoinHalves<T>(a: seq<T>, b: seq<T>, k: nat)
    requires k <= |a| <= |b| && a[..k] == b[..k] && a[k..] <= b[k..]
    ensures a <= b
  {
    assert a == a[..k] + a[k..] && b == b[..k] + b[k..];
  }

  lemma MoveHead<T>(whole: seq<T>, front: seq<T>, rest: seq<T>)
    requires rest != [] && whole == front + rest
    ensures whole == (front + [rest[0]]) + rest[1..]
  {
  }

  // ----- Proof objects -----

  datatype ConsistencyProof = ConsistencyProof(
    oldCommitment: LedgerCommitment,
    newCommitment: LedgerCommitment,
    path: seq<Digest>)

  /** Header admission for a pair of commitments. */
  predicate HeadersAgree(before: LedgerCommitment, after: LedgerCommitment) {
    && before.version == after.version
    && before.genesis == after.genesis
    && before.entryCount <= after.entryCount
    && (before.entryCount == after.entryCount ==> before == after)
  }

  /** What the proof constructor admits. */
  predicate ValidProof(proof: ConsistencyProof) {
    && HeadersAgree(proof.oldCommitment, proof.newCommitment)
    && |proof.path| <= MAX_PATH
    && |proof.path| == PathSize(proof.oldCommitment.entryCount, proof.newCommitment.entryCount, true)
  }

  /** Everything the generator reads from the cached tree, in terms of the leaves. */
  lemma ProverReadsLeaves(h: HashFunction, leaves: seq<Bytes>, tree: Node, m: nat)
    requires 1 <= m <= |leaves| && TreeOf(h, tree, leaves)
    ensures CountsAdd(tree)
    ensures PrefixRoot(h, tree, m) == Root(h, leaves[..m])
    ensures SubproofPath(tree, m, true) == HonestPath(h, leaves, m, true)
    ensures |SubproofPath(tree, m, true)| == PathSize(m, |leaves|, true)
  {
    TreeCountsAdd(h, tree, leaves);
    PrefixRootCorrect(h, tree, leaves, m);
    SubproofCorrect(h, tree, leaves, m, true);
  }

  lemma WholeTree(h: HashFunction, leaves: seq<Bytes>)
    requires |leaves| >= 1
    ensures TreeOf(h, Build(h, leaves, 0, |leaves|), leaves)
  {
    hide *;
    BuildCorrect(h, leaves, 0, |leaves|);
    assert leaves[0..|leaves|] == leaves;
  }

  /** The commitment of a prefix, field by field, against that of the whole ledger. */
  lemma PrefixCommitment(h: HashFunction, codec: TreeCodec, ledger: Ledger.EvidenceLedger, m: nat)
    requires m <= |ledger.entries|
    ensures CommitmentOf(h, codec, Ledger.Prefix(ledger, m)) ==
              LedgerCommitment(
                ledger.version, ledger.genesis,
                if m == 0 then ledger.genesis else ledger.entries[m - 1].digest,
                m, Root(h, Leaves(codec, ledger)[..m]))
    ensures HeadersAgree(CommitmentOf(h, codec, Ledger.Prefix(ledger, m)), CommitmentOf(h, codec, ledger))
  {
    hide Root;
    PrefixLeaves(codec, ledger, m);
    assert m == |ledger.entries| ==> Ledger.Prefix(ledger, m) == ledger;
  }

  /** The generator: a proof, or nothing when the retained header is not a prefix. */
  method Prove(h: HashFunction, codec: TreeCodec, ledger: Ledger.EvidenceLedger, retained: LedgerCommitment)
    returns (r: Option<ConsistencyProof>)
    requires ledger.genesis == Ledger.Genesis(h, ledger.version)
    requires |ledger.entries| <= MAX_LEDGER_ENTRIES && ValidCommitment(h, retained)
    ensures r.Some? <==>
      retained.entryCount <= |ledger.entries|
      && retained == CommitmentOf(h, codec, Ledger.Prefix(ledger, retained.entryCount))
    ensures r.Some? ==>
      && ValidProof(r.value)
      && r.value.oldCommitment == retained && r.value.newCommitment == CommitmentOf(h, codec, ledger)
      && r.value.path == if retained.entryCount == 0 then []
                         else HonestPath(h, Leaves(codec, ledger), retained.entryCount, true)
  {
    hide Split, HonestPath, TreeOf, CountsAdd;
    var leaves := Leaves(codec, ledger);
    var current := CommitmentOf(h, codec, ledger);
    var count := retained.entryCount;
    if count <= |leaves| { PrefixCommitment(h, codec, ledger, count); }
    if !HeadersAgree(retained, current) {
      return None;
    }
    var path := new PathList();
    if count > 0 {
      var tree := Build(h, leaves, 0, |leaves|);
      WholeTree(h, leaves);
      ProverReadsLeaves(h, leaves, tree, count);
      if ledger.entries[count - 1].digest != retained.headDigest {
        return None;
      }
      if PrefixRoot(h, tree, count) != retained.rootHash {
        return None;
      }
      Subproof(tree, count, true, path);
    }
    PublishedPathSuffices(count, |leaves|);
    r := Some(ConsistencyProof(retained, current, path.items));
  }

  lemma PublishedPathSuffices(m: nat, n: nat)
    requires m <= n <= MAX_LEDGER_ENTRIES
    ensures PathSize(m, n, true) <= MAX_PATH
  {
    if n > 0 {
      PublishedLimitsSuffice(0, m, n);
    }
  }

  /** What verification decides under two separately retained digests. */
  predicate Accepts(h: HashFunction, codec: TreeCodec, proof: ConsistencyProof, oldDigest: Digest, newDigest: Digest)
    requires ValidProof(proof)
  {
    var before, after := proof.oldCommitment, proof.newCommitment;
    && CommitmentDigest(h, codec, before) == oldDigest
    && CommitmentDigest(h, codec, after) == newDigest
    && (0 < before.entryCount < after.entryCount ==>
          Recover(h, before.entryCount, after.entryCount, true, before.rootHash, proof.path)
          == Roots(before.rootHash, after.rootHash, []))
  }

  method VerifyConsistency(h: HashFunction, codec: TreeCodec, proof: ConsistencyProof, oldDigest: Digest,
                           newDigest: Digest)
    returns (ok: bool)
    requires ValidProof(proof)
    ensures ok <==> Accepts(h, codec, proof, oldDigest, newDigest)
  {
    var before, after := proof.oldCommitment, proof.newCommitment;
    if CommitmentDigest(h, codec, before) != oldDigest || CommitmentDigest(h, codec, after) != newDigest {
      return false;
    }
    if before.entryCount == 0 || before.entryCount == after.entryCount {
      return true;
    }
    var cursor := new HashCursor(proof.path);
    var recovered := RecoverRoots(h, before.entryCount, after.entryCount, true, before.rootHash, cursor);
    if recovered != Some((before.rootHash, after.rootHash)) {
      return false;
    }
    var extra := cursor.Next();
    ok := extra.None?;
  }

  /** Where to look for a collision once a proof about two real ledgers was accepted. */
  function ConsistencyClash(
    h: HashFunction, codec: TreeCodec, proof: ConsistencyProof, before: Ledger.EvidenceLedger,
    after: Ledger.EvidenceLedger)
    : Finding
  {
    var x, y := CommitmentOf(h, codec, before), CommitmentOf(h, codec, after);
    if CommitmentPreimage(codec, proof.oldCommitment) != CommitmentPreimage(codec, x) then
      Found(Clash(CommitmentPreimage(codec, proof.oldCommitment), CommitmentPreimage(codec, x)))
    else if CommitmentPreimage(codec, proof.newCommitment) != CommitmentPreimage(codec, y) then
      Found(Clash(CommitmentPreimage(codec, proof.newCommitment), CommitmentPreimage(codec, y)))
    else if 0 < |before.entries| <= |after.entries| then
      PathClash(h, Leaves(codec, before), Leaves(codec, after), true, x.rootHash, proof.path)
    else NoClash
  }

  /** Soundness: under the digests of two real ledgers, an accepted proof makes the
      old receipts exactly the first receipts of the new ledger, or a collision is
      in hand. Neither ledger needs to be seen by the verifier. */
  lemma ConsistencySound(
    h: HashFunction, codec: TreeCodec, proof: ConsistencyProof, before: Ledger.EvidenceLedger,
    after: Ledger.EvidenceLedger)
    requires Lossless(codec) && ValidProof(proof)
    requires Accepts(h, codec, proof, CommitmentDigest(h, codec, CommitmentOf(h, codec, before)),
                     CommitmentDigest(h, codec, CommitmentOf(h, codec, after)))
    ensures Genuine(h, ConsistencyClash(h, codec, proof, before, after))
    ensures ConsistencyClash(h, codec, proof, before, after).NoClash? ==>
              before.version == after.version && before.entries <= after.entries
  {
    var x, y := CommitmentOf(h, codec, before), CommitmentOf(h, codec, after);
    DigestBindsHeader(h, codec, proof.oldCommitment, x);
    DigestBindsHeader(h, codec, proof.newCommitment, y);
    if proof.oldCommitment == x && proof.newCommitment == y && |before.entries| > 0 {
      var a, b := Leaves(codec, before), Leaves(codec, after);
      if |a| == |b| {
        RootBindsLeaves(h, a, b);
      } else {
        PathBinds(h, a, b, true, x.rootHash, proof.path);
      }
      if ConsistencyClash(h, codec, proof, before, after).NoClash? {
        LeavesInjective(codec, before, after);
      }
    }
  }

  /** Completeness: every prefix of a ledger has a proof, it is accepted under the
      two real digests, and it respects the published limit. */
  lemma ConsistencyComplete(h: HashFunction, codec: TreeCodec, ledger: Ledger.EvidenceLedger, m: nat, path: seq<Digest>)
    requires m <= |ledger.entries| <= MAX_LEDGER_ENTRIES
    requires path == if m == 0 then [] else HonestPath(h, Leaves(codec, ledger), m, true)
    ensures var x := CommitmentOf(h, codec, Ledger.Prefix(ledger, m));
            var y := CommitmentOf(h, codec, ledger);
            var proof := ConsistencyProof(x, y, path);
            && ValidProof(proof)
            && Accepts(h, codec, proof, CommitmentDigest(h, codec, x), CommitmentDigest(h, codec, y))
  {
    var leaves := Leaves(codec, ledger);
    PrefixCommitment(h, codec, ledger, m);
    PublishedPathSuffices(m, |leaves|);
    if m > 0 {
      WholeTree(h, leaves);
      ProverReadsLeaves(h, leaves, Build(h, leaves, 0, |leaves|), m);
      RecoverComplete(h, leaves, m, true, Root(h, leaves[..m]), []);
      assert path + [] == path;
    }
  }

  /** No second proof: anything accepted for two real ledgers is the generated path. */
  lemma AcceptedProofIsHonest(
    h: HashFunction, codec: TreeCodec, proof: ConsistencyProof, before: Ledger.EvidenceLedger,
    after: Ledger.EvidenceLedger)
    requires Lossless(codec) && ValidProof(proof)
    requires 0 < |before.entries| < |after.entries|
    requires Accepts(h, codec, proof, CommitmentDigest(h, codec, CommitmentOf(h, codec, before)),
                     CommitmentDigest(h, codec, CommitmentOf(h, codec, after)))
    requires ConsistencyClash(h, codec, proof, before, after).NoClash?
    ensures proof.path == HonestPath(h, Leaves(codec, after), |before.entries|, true)
  {
    var x, y := CommitmentOf(h, codec, before), CommitmentOf(h, codec, after);
    DigestBindsHeader(h, codec, proof.oldCommitment, x);
    DigestBindsHeader(h, codec, proof.newCommitment, y);
    PathBinds(h, Leaves(codec, before), Leaves(codec, after), true, x.rootHash, proof.path);
  }
}
