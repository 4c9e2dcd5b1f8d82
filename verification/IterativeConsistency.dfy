/** The second, independently written consistency verifier
    (verification/ledger-consistency.mjs): a loop over the bits of two indices
    that never mentions split points. For every pair of counts and every path it
    accepts exactly what the recursive verifier accepts, with the same roots.
 */
module IterativeConsistency {
  import opened Wrappers
  import opened Hashing
  import opened TreeShape
  import opened ReceiptTree
  import opened Commitment
  import C = Consistency

  type RootPair = Option<(Digest, Digest)>

  /** `while ((old & 1) === 1)` on both indices. */
  function ShiftOdd(o: nat, w: nat): (nat, nat) {
    if o % 2 == 1 then ShiftOdd(o / 2, w / 2) else (o, w)
  }

  /** `while (old !== 0 && (old & 1) === 0)` on both indices. */
  function ShiftEven(o: nat, w: nat): (nat, nat) {
    if o != 0 && o % 2 == 0 then ShiftEven(o / 2, w / 2) else (o, w)
  }

  /** The main loop from indices `o`, `w` and running roots `x`, `y`. */
  function Run(h: HashFunction, o: nat, w: nat, x: Digest, y: Digest, path: seq<Digest>): RootPair
    decreases |path|
  {
    if path == [] then if w == 0 then Some((x, y)) else None
    else if w == 0 then None
    else if o % 2 == 1 || o == w then
      var (o', w') := ShiftEven(o, w);
      Run(h, o' / 2, w' / 2, NodeHash(h, path[0], x), NodeHash(h, path[0], y), path[1..])
    else Run(h, o / 2, w / 2, x, NodeHash(h, y, path[0]), path[1..])
  }

  /** The whole verifier; `known` says the old root is available without the path. */
  function Iterative(h: HashFunction, m: nat, n: nat, known: bool, oldRoot: Digest, path: seq<Digest>): RootPair
    requires 1 <= m <= n
  {
    var (o, w) := ShiftOdd(m - 1, n - 1);
    if o == 0 && known then Run(h, o, w, oldRoot, oldRoot, path)
    else if path == [] then None
    else Run(h, o, w, path[0], path[0], path[1..])
  }

  /** The loops as written. */
  method VerifyIterative(h: HashFunction, m: nat, n: nat, oldRoot: Digest, newRoot: Digest, path: seq<Digest>)
    returns (ok: bool)
    requires 1 <= m < n
    ensures ok <==> Iterative(h, m, n, true, oldRoot, path) == Some((oldRoot, newRoot))
  {
    hide NodeHash;
    var o, w := m - 1, n - 1;
    while o % 2 == 1
      invariant 0 <= o && 0 <= w
      invariant ShiftOdd(o, w) == ShiftOdd(m - 1, n - 1)
      decreases o
    {
      o, w := o / 2, w / 2;
    }
    var index := 0;
    var before := oldRoot;
    if o != 0 {
      if |path| == 0 {
        return false;
      }
      before := path[0];
      index := 1;
    }
    var after := before;
    while index < |path|
      invariant 0 <= index <= |path| && 0 <= o && 0 <= w
      invariant Iterative(h, m, n, true, oldRoot, path) == Run(h, o, w, before, after, path[index..])
      decreases |path| - index
    {
      if w == 0 {
        return false;
      }
      var sibling := path[index];
      assert path[index..][0] == sibling && path[index..][1..] == path[index + 1..];
      if o % 2 == 1 || o == w {
        before, after := NodeHash(h, sibling, before), NodeHash(h, sibling, after);
        ghost var start := ShiftEven(o, w);
        while o != 0 && o % 2 == 0
          invariant 0 <= o && 0 <= w
          invariant ShiftEven(o, w) == start
          decreases o
        {
          o, w := o / 2, w / 2;
        }
      } else {
        after := NodeHash(h, after, sibling);
      }
      o, w := o / 2, w / 2;
      index := index + 1;
    }
    assert path[index..] == [];
    ok := w == 0 && before == oldRoot && after == newRoot;
  }

  // ----- The recursive verifier, as one function of the whole path -----

  /** Rebuild both roots and insist that the path is used up. */
  function Recursive(h: HashFunction, m: nat, n: nat, known: bool, oldRoot: Digest, path: seq<Digest>): RootPair
    requires 1 <= m <= n
  {
    match C.Recover(h, m, n, known, oldRoot, path)
    case Exhausted => None
    case Roots(x, y, rest) => if rest == [] then Some((x, y)) else None
  }

  function OnRight(h: HashFunction, r: RootPair, s: Digest): RootPair {
    if r.None? then r else Some((r.value.0, NodeHash(h, r.value.1, s)))
  }

  function OnLeft(h: HashFunction, r: RootPair, s: Digest): RootPair {
    if r.None? then r else Some((NodeHash(h, s, r.value.0), NodeHash(h, s, r.value.1)))
  }

  /** Hashes after the ones a level needs are handed on untouched. */
  lemma {:induction false} RecoverFrame(
    h: HashFunction, m: nat, n: nat, known: bool, oldRoot: Digest, path: seq<Digest>, tail: seq<Digest>)
    requires 1 <= m <= n
    requires C.Recover(h, m, n, known, oldRoot, path).Roots?
    ensures var r := C.Recover(h, m, n, known, oldRoot, path);
            C.Recover(h, m, n, known, oldRoot, path + tail) == C.Roots(r.before, r.after, r.rest + tail)
    decreases n
  {
    hide Split, NodeHash;
    if m == n {
      if !known {
        MoveTail(path, tail);
      }
    } else {
      var k := Split(n);
      if m <= k {
        RecoverFrame(h, m, k, known, oldRoot, path, tail);
        MoveTail(C.Recover(h, m, k, known, oldRoot, path).rest, tail);
      } else {
        RecoverFrame(h, m - k, n - k, false, oldRoot, path, tail);
        MoveTail(C.Recover(h, m - k, n - k, false, oldRoot, path).rest, tail);
      }
    }
  }

  lemma MoveTail<T>(a: seq<T>, b: seq<T>)
    requires a != []
    ensures (a + b)[0] == a[0] && (a + b)[1..] == a[1..] + b
  {
  }

  /** The last hash of an accepted path belongs to the topmost split. */
  lemma RecursiveTop(h: HashFunction, m: nat, n: nat, known: bool, oldRoot: Digest, path: seq<Digest>, s: Digest)
    requires 1 <= m < n
    ensures Recursive(h, m, n, known, oldRoot, []).None?
    ensures var k := Split(n);
            Recursive(h, m, n, known, oldRoot, path + [s]) ==
              if m <= k then OnRight(h, Recursive(h, m, k, known, oldRoot, path), s)
              else OnLeft(h, Recursive(h, m - k, n - k, false, oldRoot, path), s)
  {
    hide Split, NodeHash;
    var k := Split(n);
    C.RecoverConsumes(h, m, n, known, oldRoot, []);
    if m <= k {
      SubPath(h, m, k, known, oldRoot, path, s);
    } else {
      SubPath(h, m - k, n - k, false, oldRoot, path, s);
    }
  }

  /** One more hash below the top: left over exactly when the shorter path suffices. */
  lemma SubPath(h: HashFunction, m: nat, n: nat, known: bool, oldRoot: Digest, path: seq<Digest>, s: Digest)
    requires 1 <= m <= n
    ensures var r := C.Recover(h, m, n, known, oldRoot, path);
            var q := C.Recover(h, m, n, known, oldRoot, path + [s]);
            if r.Roots? then q == C.Roots(r.before, r.after, r.rest + [s]) else q.Exhausted? || q.rest == []
  {
    hide Split, NodeHash, C.Recover, PathSize;
    C.RecoverConsumes(h, m, n, known, oldRoot, path);
    C.RecoverConsumes(h, m, n, known, oldRoot, path + [s]);
    if C.Recover(h, m, n, known, oldRoot, path).Roots? {
      RecoverFrame(h, m, n, known, oldRoot, path, [s]);
    }
  }

  // ----- The loop, seen from the top split -----

  /** The old tree lies in the left half: the new index has one more high bit than
      that of the complete left half, and the loop takes one more step for it. */
  lemma {:induction false} RunInLeftHalf(
    h: HashFunction, o: nat, j: nat, r: nat, x: Digest, y: Digest, path: seq<Digest>, s: Digest)
    requires o < Pow2(j) && r < Pow2(j)
    ensures Run(h, o, Pow2(j) + r, x, y, path + [s]) == OnRight(h, Run(h, o, Pow2(j) - 1, x, y, path), s)
    decreases |path|
  {
    hide NodeHash, Pow2, Run;
    if path == [] {
      LastStepLeft(h, o, j, r, x, y, s);
    } else {
      if j > 0 {
        HighBitHalves(o, j);
        HighBitHalves(r, j);
        var d := path[0];
        LeftHalfStep(h, o, j, r, x, y, path, s);
        if o % 2 == 1 {
          RunInLeftHalf(h, o / 2, j - 1, r / 2, NodeHash(h, d, x), NodeHash(h, d, y), path[1..], s);
        } else {
          RunInLeftHalf(h, o / 2, j - 1, r / 2, x, NodeHash(h, y, d), path[1..], s);
        }
      } else {
        TooManyLeft(h, o, r, x, y, path, s);
      }
    }
  }

  /** Below the top, both runs take the same branch and shift by one bit. */
  lemma LeftHalfStep(
    h: HashFunction, o: nat, j: nat, r: nat, x: Digest, y: Digest, path: seq<Digest>, s: Digest)
    requires o < Pow2(j) && r < Pow2(j) && j > 0 && path != []
    ensures var d := path[0];
            var x' := if o % 2 == 1 then NodeHash(h, d, x) else x;
            var y' := if o % 2 == 1 then NodeHash(h, d, y) else NodeHash(h, y, d);
            && Run(h, o, Pow2(j) + r, x, y, path + [s]) == Run(h, o / 2, Pow2(j - 1) + r / 2, x', y', path[1..] + [s])
            && Run(h, o, Pow2(j) - 1, x, y, path) == Run(h, o / 2, Pow2(j - 1) - 1, x', y', path[1..])
  {
    hide NodeHash, Pow2;
    HighBitHalves(o, j);
    HighBitHalves(r, j);
    MoveTail(path, [s]);
  }

  lemma TooManyLeft(h: HashFunction, o: nat, r: nat, x: Digest, y: Digest, path: seq<Digest>, s: Digest)
    requires o < Pow2(0) && r < Pow2(0) && path != []
    ensures Run(h, o, Pow2(0) + r, x, y, path + [s]).None? && Run(h, o, Pow2(0) - 1, x, y, path).None?
  {
    hide NodeHash;
    MoveTail(path, [s]);
    assert Run(h, 0, 1, x, y, path + [s]) == Run(h, 0, 0, x, NodeHash(h, y, path[0]), path[1..] + [s]);
  }

  lemma LastStepLeft(h: HashFunction, o: nat, j: nat, r: nat, x: Digest, y: Digest, s: Digest)
    requires o < Pow2(j) && r < Pow2(j)
    ensures Run(h, o, Pow2(j) + r, x, y, [] + [s]) == OnRight(h, Run(h, o, Pow2(j) - 1, x, y, []), s)
  {
    hide NodeHash;
    assert [] + [s] == [s] && [s][1..] == [];
    if j > 0 {
      assert Pow2(j) == 2 * Pow2(j - 1);
    }
  }

  /** Both trees reach into the right half: both indices carry the same high bit,
      and the loop treats it as one more step on the left. */
  lemma {:induction false} RunInRightHalf(
    h: HashFunction, o: nat, w: nat, j: nat, x: Digest, y: Digest, path: seq<Digest>, s: Digest)
    requires o <= w < Pow2(j)
    ensures Run(h, o + Pow2(j), w + Pow2(j), x, y, path + [s]) == OnLeft(h, Run(h, o, w, x, y, path), s)
    decreases |path|
  {
    hide NodeHash, Pow2, ShiftEven;
    if w == 0 {
      SharedHighBit(h, j, x, y, path, s);
    } else if path == [] {
      LastStepRight(h, o, w, j, x, y, s);
    } else {
      MoveTail(path, [s]);
      var d := path[0];
      var (o', w', i) := StepBelowHighBit(o, w, j);
      if o % 2 == 1 || o == w {
        RunInRightHalf(h, o', w', i, NodeHash(h, d, x), NodeHash(h, d, y), path[1..], s);
      } else {
        RunInRightHalf(h, o', w', i, x, NodeHash(h, y, d), path[1..], s);
      }
    }
  }

  function Halved(p: (nat, nat)): (nat, nat) {
    (p.0 / 2, p.1 / 2)
  }

  /** Halving moves a high bit down by one and keeps the parity below it. */
  lemma HighBitHalves(v: nat, j: nat)
    requires v < Pow2(j) && (v > 0 || j > 0)
    ensures j > 0 && v / 2 < Pow2(j - 1)
    ensures (v + Pow2(j)) / 2 == v / 2 + Pow2(j - 1)
    ensures (v + Pow2(j)) % 2 == v % 2
    ensures (Pow2(j) - 1) / 2 == Pow2(j - 1) - 1 && (Pow2(j) - 1) % 2 == 1
  {
    assert Pow2(j) == 2 * Pow2(j - 1);
  }

  /** The indices after one loop step, and where the high bit has moved. */
  function StepBelowHighBit(o: nat, w: nat, j: nat): (r: (nat, nat, nat))
    requires o <= w < Pow2(j) && w > 0
    ensures r.0 <= r.1 < Pow2(r.2)
    ensures j >= 1 && (o + Pow2(j)) % 2 == o % 2
    ensures Halved(if o % 2 == 1 || o == w then ShiftEven(o, w) else (o, w)) == (r.0, r.1)
    ensures Halved(if o % 2 == 1 || o == w then ShiftEven(o + Pow2(j), w + Pow2(j)) else (o + Pow2(j), w + Pow2(j)))
         == (r.0 + Pow2(r.2), r.1 + Pow2(r.2))
    decreases j
  {
    HighBitHalves(o, j);
    HighBitHalves(w, j);
    if o % 2 == 1 || o != w then (o / 2, w / 2, j - 1)
    else StepBelowHighBit(o / 2, w / 2, j - 1)
  }

  lemma SharedHighBit(h: HashFunction, j: nat, x: Digest, y: Digest, path: seq<Digest>, s: Digest)
    ensures Run(h, Pow2(j), Pow2(j), x, y, path + [s]) == OnLeft(h, Run(h, 0, 0, x, y, path), s)
  {
    hide NodeHash;
    PowerShiftsToOne(j);
    if path == [] {
      assert (path + [s])[1..] == [];
    } else {
      MoveTail(path, [s]);
    }
  }

  lemma {:induction false} PowerShiftsToOne(j: nat)
    ensures ShiftEven(Pow2(j), Pow2(j)) == (1, 1)
  {
    if j > 0 {
      assert Pow2(j) == 2 * Pow2(j - 1);
      PowerShiftsToOne(j - 1);
    }
  }

  lemma LastStepRight(h: HashFunction, o: nat, w: nat, j: nat, x: Digest, y: Digest, s: Digest)
    requires o <= w < Pow2(j) && w > 0
    ensures Run(h, o + Pow2(j), w + Pow2(j), x, y, [] + [s]).None?
  {
    hide NodeHash;
    assert [] + [s] == [s] && [s][1..] == [];
    var (o', w', i) := StepBelowHighBit(o, w, j);
  }

  // ----- The first shift loop, seen from the top split -----

  lemma {:induction false} StartInLeftHalf(o: nat, e: nat, r: nat) returns (j: nat, r': nat)
    requires o < Pow2(e) && r < Pow2(e)
    ensures var start := ShiftOdd(o, Pow2(e) - 1);
            && start.0 < Pow2(j) && r' < Pow2(j)
            && start.1 == Pow2(j) - 1
            && ShiftOdd(o, Pow2(e) + r) == (start.0, Pow2(j) + r')
  {
    if o % 2 == 1 {
      HighBitHalves(o, e);
      HighBitHalves(r, e);
      j, r' := StartInLeftHalf(o / 2, e - 1, r / 2);
    } else {
      j, r' := e, r;
    }
  }

  lemma {:induction false} StartInRightHalf(o: nat, w: nat, e: nat) returns (j: nat)
    requires o < w < Pow2(e)
    ensures var start := ShiftOdd(o, w);
            && start.0 <= start.1 < Pow2(j)
            && ShiftOdd(o + Pow2(e), w + Pow2(e)) == (start.0 + Pow2(j), start.1 + Pow2(j))
  {
    hide Pow2;
    HighBitHalves(w, e);
    HighBitHalves(o, e);
    if o % 2 == 1 {
      j := StartInRightHalf(o / 2, w / 2, e - 1);
    } else {
      j := e;
    }
  }

  lemma {:induction false} AllOnes(e: nat)
    ensures ShiftOdd(Pow2(e) - 1, Pow2(e) - 1) == (0, 0)
  {
    if e > 0 {
      assert Pow2(e) == 2 * Pow2(e - 1);
      AllOnes(e - 1);
    }
  }

  /** The loop obeys the same equation at the topmost split as the recursion. */
  lemma IterativeTop(h: HashFunction, m: nat, n: nat, known: bool, oldRoot: Digest, path: seq<Digest>, s: Digest)
    requires 1 <= m < n
    ensures Iterative(h, m, n, known, oldRoot, []).None?
    ensures var k := Split(n);
            Iterative(h, m, n, known, oldRoot, path + [s]) ==
              if m <= k then OnRight(h, Iterative(h, m, k, known, oldRoot, path), s)
              else OnLeft(h, Iterative(h, m - k, n - k, false, oldRoot, path), s)
  {
    hide NodeHash, Run, ShiftOdd, Split;
    var k := Split(n);
    var e := SplitExponent(n);
    if m <= k {
      var j, r := StartInLeftHalf(m - 1, e, n - 1 - k);
      var o := ShiftOdd(m - 1, k - 1).0;
      RunNonzero(h, o, Pow2(j) + r, oldRoot, oldRoot);
      if o == 0 && known {
        RunInLeftHalf(h, o, j, r, oldRoot, oldRoot, path, s);
      } else if path == [] {
        RunNonzero(h, o, Pow2(j) + r, s, s);
        assert (path + [s])[1..] == [];
      } else {
        MoveTail(path, [s]);
        RunInLeftHalf(h, o, j, r, path[0], path[0], path[1..], s);
      }
    } else {
      var j := StartInRightHalf(m - 1 - k, n - 1 - k, e);
      var (o, w) := ShiftOdd(m - 1 - k, n - 1 - k);
      if path == [] {
        RunNonzero(h, o + Pow2(j), w + Pow2(j), s, s);
        assert (path + [s])[1..] == [];
      } else {
        MoveTail(path, [s]);
        RunInRightHalf(h, o, w, j, path[0], path[0], path[1..], s);
      }
    }
  }

  lemma RunNonzero(h: HashFunction, o: nat, w: nat, x: Digest, y: Digest)
    requires w != 0
    ensures Run(h, o, w, x, y, []).None?
  {
  }

  function SplitExponent(n: nat): (e: nat)
    requires n >= 2
    ensures Split(n) == Pow2(e)
  {
    BitLengthBrackets(n - 1);
    BitLength(n - 1) - 1
  }

  ghost predicate IsPower(n: nat) {
    exists e: nat :: n == Pow2(e)
  }

  /** Agreement: for all counts and all paths, well formed or not, the bit loop and
      the recursion return the same pair of roots or both refuse. */
  lemma {:induction false} VerifiersAgree(h: HashFunction, m: nat, n: nat, known: bool, oldRoot: Digest,
                                          path: seq<Digest>)
    requires 1 <= m < n || (m == n && IsPower(n))
    ensures Iterative(h, m, n, known, oldRoot, path) == Recursive(h, m, n, known, oldRoot, path)
    decreases n
  {
    hide NodeHash, Run, ShiftOdd, Split, C.Recover, Iterative, Recursive;
    if m == n {
      CompleteTreesAgree(h, m, known, oldRoot, path);
    } else {
      var k := Split(n);
      if path == [] {
        var d := h([]);
        IterativeTop(h, m, n, known, oldRoot, [], d);
        RecursiveTop(h, m, n, known, oldRoot, [], d);
      } else {
        var p, s := path[..|path| - 1], path[|path| - 1];
        assert path == p + [s];
        IterativeTop(h, m, n, known, oldRoot, p, s);
        RecursiveTop(h, m, n, known, oldRoot, p, s);
        assert IsPower(k) by { assert k == Pow2(SplitExponent(n)); }
        if m <= k {
          VerifiersAgree(h, m, k, known, oldRoot, p);
        } else {
          VerifiersAgree(h, m - k, n - k, false, oldRoot, p);
        }
      }
    }
  }

  lemma CompleteTreesAgree(h: HashFunction, n: nat, known: bool, oldRoot: Digest, path: seq<Digest>)
    requires IsPower(n)
    ensures Iterative(h, n, n, known, oldRoot, path) == Recursive(h, n, n, known, oldRoot, path)
  {
    hide NodeHash, Split;
    var e: nat :| n == Pow2(e);
    AllOnes(e);
  }

  /** Between a nonempty ledger and a longer one both programs accept the same paths. */
  lemma SamePaths(h: HashFunction, m: nat, n: nat, oldRoot: Digest, newRoot: Digest, path: seq<Digest>)
    requires 1 <= m < n
    ensures Iterative(h, m, n, true, oldRoot, path) == Some((oldRoot, newRoot))
       <==> |path| == PathSize(m, n, true)
            && C.Recover(h, m, n, true, oldRoot, path) == C.Roots(oldRoot, newRoot, [])
  {
    hide NodeHash, Split, Iterative, C.Recover, PathSize;
    VerifiersAgree(h, m, n, true, oldRoot, path);
    C.RecoverConsumes(h, m, n, true, oldRoot, path);
  }

  /** The decision of the script, branch by branch, on an admitted proof document. */
  predicate ScriptAccepts(h: HashFunction, codec: TreeCodec, proof: C.ConsistencyProof, oldDigest: Digest,
                          newDigest: Digest) {
    var before, after := proof.oldCommitment, proof.newCommitment;
    && CommitmentDigest(h, codec, before) == oldDigest && CommitmentDigest(h, codec, after) == newDigest
    && before.version == after.version && before.genesis == after.genesis
    && before.entryCount <= after.entryCount
    && if before.entryCount == after.entryCount then proof.path == [] && before == after
       else if before.entryCount == 0 then proof.path == []
       else Iterative(h, before.entryCount, after.entryCount, true, before.rootHash, proof.path)
            == Some((before.rootHash, after.rootHash))
  }

  /** Both programs decide every admitted proof alike: equal counts, an empty prefix and
      the general case. The left side is the other program's constructor and verifier. */
  lemma SameDecisions(h: HashFunction, codec: TreeCodec, proof: C.ConsistencyProof, oldDigest: Digest,
                      newDigest: Digest)
    requires |proof.path| <= C.MAX_PATH
    ensures C.ValidProof(proof) && C.Accepts(h, codec, proof, oldDigest, newDigest)
       <==> ScriptAccepts(h, codec, proof, oldDigest, newDigest)
  {
    hide NodeHash, Split, Iterative, C.Recover, CommitmentDigest;
    var m, n := proof.oldCommitment.entryCount, proof.newCommitment.entryCount;
    if 0 < m < n {
      SamePaths(h, m, n, proof.oldCommitment.rootHash, proof.newCommitment.rootHash, proof.path);
    }
  }
}
