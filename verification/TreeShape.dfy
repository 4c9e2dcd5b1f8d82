/** The shape of the unpadded receipt tree: where a tree of `n` leaves splits,
    how long a membership route is, and how long a consistency path is.
 */
module TreeShape {

  const MAX_LEDGER_ENTRIES := 100_000

  function Pow2(e: nat): (p: nat)
    ensures p >= 1
  {
    if e == 0 then 1 else 2 * Pow2(e - 1)
  }

  function BitLength(k: nat): nat {
    if k == 0 then 0 else 1 + BitLength(k / 2)
  }

  /** The number of leaves in the left subtree: `1 << ((n - 1).bit_length() - 1)`. */
  function Split(n: nat): (k: nat)
    requires n >= 2
    ensures 1 <= k < n <= 2 * k
  {
    BitLengthBrackets(n - 1);
    Pow2(BitLength(n - 1) - 1)
  }

  /** Ceiling of the base-two logarithm, for `n >= 1`. */
  function CeilLog2(n: nat): nat
    requires n >= 1
  {
    BitLength(n - 1)
  }

  lemma {:induction false} BitLengthBrackets(k: nat)
    requires k >= 1
    ensures BitLength(k) >= 1
    ensures Pow2(BitLength(k) - 1) <= k < Pow2(BitLength(k))
  {
    if k > 1 {
      BitLengthBrackets(k / 2);
    } else {
      assert BitLength(1) == 1 + BitLength(0);
    }
  }

  lemma {:induction false} Pow2Strict(a: nat, b: nat)
    requires a < b
    ensures 2 * Pow2(a) <= Pow2(b)
  {
    if a + 1 < b {
      Pow2Strict(a, b - 1);
    }
  }

  /** The logarithm is exact: `n` fits under its power and under no smaller one. */
  lemma {:induction false} CeilLog2Exact(n: nat, e: nat)
    requires n >= 1
    ensures n <= Pow2(e) <==> CeilLog2(n) <= e
  {
    if n > 1 {
      BitLengthBrackets(n - 1);
      Pow2Bracket(n - 1, CeilLog2(n), e);
    }
  }

  lemma {:induction false} Pow2Bracket(k: nat, b: nat, e: nat)
    requires b >= 1 && Pow2(b - 1) <= k < Pow2(b)
    ensures k < Pow2(e) <==> b <= e
  {
    hide BitLength;
    if e < b - 1 {
      Pow2Strict(e, b - 1);
    } else if b < e {
      Pow2Strict(b, e);
    }
  }

  /** The split point is the only power of two in `[n / 2, n)`. */
  lemma SplitUnique(n: nat, e: nat)
    requires Pow2(e) < n <= 2 * Pow2(e)
    ensures n >= 2 && Split(n) == Pow2(e)
  {
    BitLengthBrackets(n - 1);
    var b := BitLength(n - 1) - 1;
    assert Pow2(b + 1) == 2 * Pow2(b);
    if b < e {
      Pow2Strict(b, e);
    } else if e < b {
      Pow2Strict(e, b);
    }
  }

  /** A longer tree whose old part overlaps the right half splits in the same place. */
  lemma SplitShared(m: nat, n: nat)
    requires 2 <= n && Split(n) < m <= n
    ensures m >= 2 && Split(m) == Split(n)
  {
    SplitUnique(m, BitLength(n - 1) - 1);
  }

  /** Both subtrees are at least one level lower than the tree. */
  lemma SplitLowersLog(n: nat)
    requires n >= 2
    ensures CeilLog2(n) >= 1
    ensures CeilLog2(Split(n)) == CeilLog2(n) - 1
    ensures CeilLog2(n - Split(n)) <= CeilLog2(n) - 1
  {
    BitLengthBrackets(n - 1);
    var e := CeilLog2(n) - 1;
    assert Split(n) == Pow2(e);
    CeilLog2Exact(Split(n), e);
    CeilLog2Exact(n - Split(n), e);
    if e > 0 {
      Pow2Strict(e - 1, e);
      CeilLog2Exact(Split(n), e - 1);
    }
  }

  /** Sibling orientation from the leaf up; `true` means the sibling goes on the left. */
  function Route(position: nat, count: nat): (r: seq<bool>)
    requires position < count
  {
    if count == 1 then []
    else
      var k := Split(count);
      if position >= k then Route(position - k, count - k) + [true]
      else Route(position, k) + [false]
  }

  /** The route loop: directions are collected from the root down and then reversed. */
  method ComputeRoute(position: nat, count: nat) returns (route: seq<bool>)
    requires position < count
    ensures route == Route(position, count)
  {
    var p, c := position, count;
    var directions := [];
    while c > 1
      invariant p < c
      invariant Route(position, count) == Route(p, c) + Reversed(directions)
    {
      var split := Split(c);
      var right := p >= split;
      RouteStep(p, c, directions);
      directions := directions + [right];
      if right {
        p, c := p - split, c - split;
      } else {
        c := split;
      }
    }
    route := Reversed(directions);
  }

  lemma {:induction false} RouteStep(p: nat, c: nat, directions: seq<bool>)
    requires p < c && c > 1
    ensures var k := Split(c);
            var rest := if p >= k then Route(p - k, c - k) else Route(p, k);
            Route(p, c) + Reversed(directions) == rest + Reversed(directions + [p >= k])
  {
    hide Split;
    var k := Split(c);
    var rest := if p >= k then Route(p - k, c - k) else Route(p, k);
    ReversedSnoc(directions, p >= k);
    assert Route(p, c) == rest + [p >= k];
    assert (rest + [p >= k]) + Reversed(directions) == rest + ([p >= k] + Reversed(directions));
  }

  function Reversed<T>(s: seq<T>): (r: seq<T>)
    ensures |r| == |s|
  {
    if s == [] then [] else [s[|s| - 1]] + Reversed(s[..|s| - 1])
  }

  lemma ReversedSnoc<T>(s: seq<T>, x: T)
    ensures Reversed(s + [x]) == [x] + Reversed(s)
  {
    assert (s + [x])[..|s|] == s;
  }

  /** A membership proof never needs more siblings than the height of the tree. */
  lemma {:induction false} RouteBound(position: nat, count: nat)
    requires position < count
    ensures |Route(position, count)| <= CeilLog2(count)
  {
    if count > 1 {
      SplitLowersLog(count);
      var k := Split(count);
      if position >= k {
        RouteBound(position - k, count - k);
      } else {
        RouteBound(position, k);
      }
    }
  }

  /** Distinct positions of one tree have distinct routes, so a route names its leaf. */
  lemma {:induction false} RouteInjective(i: nat, j: nat, count: nat)
    requires i < count && j < count
    requires Route(i, count) == Route(j, count)
    ensures i == j
  {
    if count > 1 {
      var k := Split(count);
      var ri := if i >= k then Route(i - k, count - k) else Route(i, k);
      var rj := if j >= k then Route(j - k, count - k) else Route(j, k);
      assert Route(i, count) == ri + [i >= k] && Route(j, count) == rj + [j >= k];
      assert (ri + [i >= k])[|ri|] == (rj + [j >= k])[|rj|];
      assert ri == (ri + [i >= k])[..|ri|] == (rj + [j >= k])[..|rj|] == rj;
      if i >= k {
        RouteInjective(i - k, j - k, count - k);
      } else {
        RouteInjective(i, j, k);
      }
    }
  }

  /** The number of hashes in a consistency path from `m` to `new` leaves. */
  function PathSize(m: nat, n: nat, known: bool): nat
    requires m <= n
    decreases n
  {
    if m == 0 then 0
    else if m == n then if known then 0 else 1
    else
      var k := Split(n);
      1 + if m <= k then PathSize(m, k, known) else PathSize(m - k, n - k, false)
  }

  lemma {:induction false} PathSizeBound(m: nat, n: nat, known: bool)
    requires 0 < m <= n
    ensures PathSize(m, n, known) <= CeilLog2(n) + 1
    decreases n
  {
    if m < n {
      SplitLowersLog(n);
      var k := Split(n);
      if m <= k {
        PathSizeBound(m, k, known);
      } else {
        PathSizeBound(m - k, n - k, false);
      }
    }
  }

  /** The published limits, 17 siblings and 18 path hashes, cover every admitted ledger. */
  lemma PublishedLimitsSuffice(position: nat, m: nat, count: nat)
    requires position < count <= MAX_LEDGER_ENTRIES && m <= count
    ensures |Route(position, count)| <= 17
    ensures PathSize(m, count, true) <= 18
  {
    assert Pow2(17) == 131072 by {
      assert Pow2(4) == 16 && Pow2(8) == 256;
      assert Pow2(12) == 4096 && Pow2(16) == 65536;
    }
    CeilLog2Exact(count, 17);
    RouteBound(position, count);
    if m > 0 {
      PathSizeBound(m, count, true);
    }
  }
}
