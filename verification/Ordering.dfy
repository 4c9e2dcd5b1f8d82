/** Filtering, mapping and sorting lists, with the facts that make a sorted list
    independent of the order its elements arrived in.

    `Sort` is a stable sort by a strict order `less`. Two lists with the same members,
    in which any two positions are comparable, sort to the same list.
 */
module Ordering {

  // ----- Filter, map, first occurrences -----

  function Filter<T>(s: seq<T>, keep: T -> bool): (r: seq<T>)
    ensures |r| <= |s|
  {
    if s == [] then []
    else
      var n := |s| - 1;
      Filter(s[..n], keep) + (if keep(s[n]) then [s[n]] else [])
  }

  function Map<T, U>(s: seq<T>, f: T -> U): (r: seq<U>)
    ensures |r| == |s| && forall i | 0 <= i < |s| :: r[i] == f(s[i])
  {
    seq<U>(|s|, i requires 0 <= i < |s| => f(s[i]))
  }

  /** First occurrences, in order: what iterating over a dictionary's keys gives. */
  function Dedup<T(==)>(s: seq<T>): (r: seq<T>) {
    if s == [] then []
    else
      var n := |s| - 1;
      var before := Dedup(s[..n]);
      if s[n] in before then before else before + [s[n]]
  }

  ghost predicate SameMembers<T(!new)>(s: seq<T>, t: seq<T>) {
    forall x :: x in s <==> x in t
  }

  lemma InSnoc<T(!new)>(s: seq<T>, x: T)
    ensures forall y :: y in s + [x] <==> y in s || y == x
  {
  }

  lemma SplitLast<T(!new)>(s: seq<T>)
    requires s != []
    ensures s == s[..|s| - 1] + [s[|s| - 1]]
    ensures forall y :: y in s <==> y in s[..|s| - 1] || y == s[|s| - 1]
  {
    var n := |s| - 1;
    assert s == s[..n] + [s[n]];
    InSnoc(s[..n], s[n]);
  }

  lemma {:induction false} FilterIn<T(!new)>(s: seq<T>, keep: T -> bool)
    ensures forall x :: x in Filter(s, keep) <==> x in s && keep(x)
  {
    if s != [] {
      var n := |s| - 1;
      FilterIn(s[..n], keep);
      SplitLast(s);
      InSnoc(Filter(s[..n], keep), s[n]);
    }
  }

  lemma FilterSnoc<T(!new)>(s: seq<T>, x: T, keep: T -> bool)
    ensures Filter(s + [x], keep) == Filter(s, keep) + (if keep(x) then [x] else [])
  {
    assert (s + [x])[..|s|] == s;
  }

  lemma {:induction false} DedupIn<T(!new)>(s: seq<T>)
    ensures forall x :: x in Dedup(s) <==> x in s
  {
    if s != [] {
      var n := |s| - 1;
      DedupIn(s[..n]);
      SplitLast(s);
      InSnoc(Dedup(s[..n]), s[n]);
    }
  }

  predicate Distinct<T(==)>(s: seq<T>) {
    forall i, j | 0 <= i < j < |s| :: s[i] != s[j]
  }

  lemma {:induction false} DedupDistinct<T(!new)>(s: seq<T>)
    ensures Distinct(Dedup(s))
  {
    if s != [] {
      DedupDistinct(s[..|s| - 1]);
    }
  }

  lemma MapIn<T(!new), U(!new)>(s: seq<T>, f: T -> U)
    ensures forall x | x in s :: f(x) in Map(s, f)
    ensures forall y | y in Map(s, f) :: exists x :: x in s && f(x) == y
  {
    var m := Map(s, f);
    forall x | x in s
      ensures f(x) in m
    {
      var i :| 0 <= i < |s| && s[i] == x;
      assert m[i] == f(x);
    }
    forall y | y in m
      ensures exists x :: x in s && f(x) == y
    {
      var i :| 0 <= i < |m| && m[i] == y;
      assert s[i] in s;
    }
  }

  lemma SameMap<T(!new), U(!new)>(s: seq<T>, t: seq<T>, f: T -> U)
    requires SameMembers(s, t)
    ensures SameMembers(Map(s, f), Map(t, f))
  {
    MapIn(s, f);
    MapIn(t, f);
  }

  lemma SameFilter<T(!new)>(s: seq<T>, t: seq<T>, keep: T -> bool)
    requires SameMembers(s, t)
    ensures SameMembers(Filter(s, keep), Filter(t, keep))
  {
    FilterIn(s, keep);
    FilterIn(t, keep);
  }

  // ----- Sorting -----

  ghost predicate Strict<T(!new)>(less: (T, T) -> bool) {
    && (forall x :: !less(x, x))
    && (forall x, y, z :: less(x, y) && less(y, z) ==> less(x, z))
  }

  predicate Comparable<T>(s: seq<T>, less: (T, T) -> bool) {
    forall i, j | 0 <= i < j < |s| :: less(s[i], s[j]) || less(s[j], s[i])
  }

  predicate Ascends<T>(s: seq<T>, less: (T, T) -> bool) {
    forall i, j | 0 <= i < j < |s| :: less(s[i], s[j])
  }

  /** Insert after every element that is not greater. */
  function Insert<T>(x: T, s: seq<T>, less: (T, T) -> bool): (r: seq<T>)
    ensures |r| == |s| + 1
  {
    if s == [] then [x]
    else if less(x, s[|s| - 1]) then Insert(x, s[..|s| - 1], less) + [s[|s| - 1]]
    else s + [x]
  }

  function Sort<T>(s: seq<T>, less: (T, T) -> bool): (r: seq<T>)
    ensures |r| == |s|
  {
    if s == [] then [] else Insert(s[|s| - 1], Sort(s[..|s| - 1], less), less)
  }

  lemma {:induction false} InsertIn<T(!new)>(x: T, s: seq<T>, less: (T, T) -> bool)
    ensures forall y :: y in Insert(x, s, less) <==> y in s || y == x
  {
    if s == [] {
    } else if less(x, s[|s| - 1]) {
      var n := |s| - 1;
      InsertIn(x, s[..n], less);
      SplitLast(s);
      InSnoc(Insert(x, s[..n], less), s[n]);
    } else {
      InSnoc(s, x);
    }
  }

  lemma {:induction false} SortIn<T(!new)>(s: seq<T>, less: (T, T) -> bool)
    ensures forall y :: y in Sort(s, less) <==> y in s
  {
    if s != [] {
      var n := |s| - 1;
      SortIn(s[..n], less);
      SplitLast(s);
      InsertIn(s[n], Sort(s[..n], less), less);
    }
  }

  lemma AscendsSnoc<T(!new)>(s: seq<T>, x: T, less: (T, T) -> bool)
    requires Ascends(s, less) && forall y | y in s :: less(y, x)
    ensures Ascends(s + [x], less)
  {
    forall i, j | 0 <= i < j < |s| + 1
      ensures less((s + [x])[i], (s + [x])[j])
    {
      if j == |s| {
        assert s[i] in s;
      }
    }
  }

  lemma {:induction false} InsertAscends<T(!new)>(x: T, s: seq<T>, less: (T, T) -> bool)
    requires Strict(less) && Ascends(s, less)
    requires forall y | y in s :: less(x, y) || less(y, x)
    ensures Ascends(Insert(x, s, less), less)
  {
    if s == [] {
    } else {
      var n := |s| - 1;
      SplitLast(s);
      if less(x, s[n]) {
        InsertAscends(x, s[..n], less);
        InsertIn(x, s[..n], less);
        BelowLast(s, s[..n], s[n], less);
        AscendsSnoc(Insert(x, s[..n], less), s[n], less);
      } else {
        BelowLast(s, s[..n], s[n], less);
        AscendsSnoc(s, x, less);
      }
    }
  }

  lemma BelowLast<T(!new)>(s: seq<T>, init: seq<T>, last: T, less: (T, T) -> bool)
    requires s == init + [last] && Ascends(s, less)
    ensures Ascends(init, less) && forall y | y in init :: less(y, last)
    ensures Strict(less) ==> forall y :: y in init <==> y in s && y != last
  {
    InSnoc(init, last);
    assert s[|init|] == last;
    assert forall i | 0 <= i < |init| :: init[i] == s[i];
  }

  lemma {:induction false} SortAscends<T(!new)>(s: seq<T>, less: (T, T) -> bool)
    requires Strict(less) && Comparable(s, less)
    ensures Ascends(Sort(s, less), less)
  {
    if s != [] {
      var n := |s| - 1;
      SortAscends(s[..n], less);
      SortIn(s[..n], less);
      forall y | y in Sort(s[..n], less)
        ensures less(s[n], y) || less(y, s[n])
      {
        var i :| 0 <= i < n && s[..n][i] == y;
        assert less(s[i], s[n]) || less(s[n], s[i]);
      }
      InsertAscends(s[n], Sort(s[..n], less), less);
    }
  }

  lemma SameEmpty<T(!new)>(s: seq<T>, t: seq<T>)
    requires SameMembers(s, t)
    ensures s == [] <==> t == []
  {
    assert s != [] ==> s[0] in s;
    assert t != [] ==> t[0] in t;
  }

  /** A strictly ascending list is determined by its members. */
  lemma {:induction false} AscendsUnique<T(!new)>(s: seq<T>, t: seq<T>, less: (T, T) -> bool)
    requires Strict(less) && Ascends(s, less) && Ascends(t, less) && SameMembers(s, t)
    ensures s == t
    decreases |s|
  {
    SameEmpty(s, t);
    if s != [] {
      var m, n := |s| - 1, |t| - 1;
      LastIsGreatest(s, t, less);
      LastIsGreatest(t, s, less);
      assert s[m] == t[n];
      SplitLast(s);
      SplitLast(t);
      BelowLast(s, s[..m], s[m], less);
      BelowLast(t, t[..n], t[n], less);
      AscendsUnique(s[..m], t[..n], less);
    }
  }

  lemma LastIsGreatest<T(!new)>(s: seq<T>, t: seq<T>, less: (T, T) -> bool)
    requires s != [] && t != [] && Ascends(t, less) && SameMembers(s, t)
    ensures s[|s| - 1] == t[|t| - 1] || less(s[|s| - 1], t[|t| - 1])
  {
    assert s[|s| - 1] in s;
    var i :| 0 <= i < |t| && t[i] == s[|s| - 1];
  }

  /** Sorting forgets arrival order. */
  lemma SameSort<T(!new)>(s: seq<T>, t: seq<T>, less: (T, T) -> bool)
    requires Strict(less) && Comparable(s, less) && Comparable(t, less) && SameMembers(s, t)
    ensures Sort(s, less) == Sort(t, less)
  {
    hide Sort, Ascends, Comparable;
    SortAscends(s, less);
    SortAscends(t, less);
    SortIn(s, less);
    SortIn(t, less);
    AscendsUnique(Sort(s, less), Sort(t, less), less);
  }

  lemma {:induction false} FilterComparable<T(!new)>(s: seq<T>, keep: T -> bool, less: (T, T) -> bool)
    requires Comparable(s, less)
    ensures Comparable(Filter(s, keep), less)
  {
    if s != [] {
      var n := |s| - 1;
      FilterComparable(s[..n], keep, less);
      FilterIn(s[..n], keep);
      var r := Filter(s[..n], keep);
      forall i | 0 <= i < |r|
        ensures less(r[i], s[n]) || less(s[n], r[i])
      {
        assert r[i] in r;
        assert r[i] in s[..n];
        var k :| 0 <= k < n && s[..n][k] == r[i];
        assert less(s[k], s[n]) || less(s[n], s[k]);
      }
    }
  }

  lemma {:induction false} FilterAscends<T(!new)>(s: seq<T>, keep: T -> bool, less: (T, T) -> bool)
    requires Ascends(s, less)
    ensures Ascends(Filter(s, keep), less)
  {
    if s != [] {
      var n := |s| - 1;
      SplitLast(s);
      BelowLast(s, s[..n], s[n], less);
      FilterAscends(s[..n], keep, less);
      FilterIn(s[..n], keep);
      if keep(s[n]) {
        AscendsSnoc(Filter(s[..n], keep), s[n], less);
      } else {
        assert Filter(s[..n], keep) + [] == Filter(s[..n], keep);
      }
    }
  }

  // ----- Text and numbers -----

  /** Code point order, as Python compares text. */
  predicate TextLess(a: string, b: string) {
    if b == "" then false
    else if a == "" then true
    else a[0] < b[0] || (a[0] == b[0] && TextLess(a[1..], b[1..]))
  }

  /** The order spelled out: up to some place the texts agree, and there the first either
      ends or has the smaller character. */
  lemma {:induction false} TextLessExact(a: string, b: string)
    ensures TextLess(a, b) <==> exists n: nat | n <= |a| && n < |b| ::
              a[..n] == b[..n] && (n == |a| || a[n] < b[n])
  {
    if b == "" {
    } else if a == "" {
      assert a[..0] == b[..0];
    } else {
      TextLessExact(a[1..], b[1..]);
      if n: nat :| n <= |a| && n < |b| && a[..n] == b[..n] && (n == |a| || a[n] < b[n]) {
        if n > 0 {
          assert a[0] == a[..n][0] == b[..n][0] == b[0];
          assert a[1..][..n - 1] == a[..n][1..] == b[..n][1..] == b[1..][..n - 1];
          assert n - 1 == |a[1..]| || a[1..][n - 1] < b[1..][n - 1];
        }
      }
      if a[0] == b[0] && TextLess(a[1..], b[1..]) {
        var m: nat :| m <= |a[1..]| && m < |b[1..]| && a[1..][..m] == b[1..][..m]
                      && (m == |a[1..]| || a[1..][m] < b[1..][m]);
        assert a[..m + 1] == [a[0]] + a[1..][..m] && b[..m + 1] == [b[0]] + b[1..][..m];
      }
      if a[0] < b[0] {
        assert a[..0] == b[..0];
      }
    }
  }

  lemma {:induction false} TextIrreflexive(a: string)
    ensures !TextLess(a, a)
  {
    if a != "" {
      TextIrreflexive(a[1..]);
    }
  }

  lemma {:induction false} TextTotal(a: string, b: string)
    ensures a == b || TextLess(a, b) || TextLess(b, a)
    ensures !(TextLess(a, b) && TextLess(b, a))
  {
    if a != "" && b != "" && a[0] == b[0] {
      TextTotal(a[1..], b[1..]);
      if a[1..] == b[1..] {
        assert a == [a[0]] + a[1..] && b == [b[0]] + b[1..];
      }
    }
  }

  lemma {:induction false} TextTransitive(a: string, b: string, c: string)
    requires TextLess(a, b) && TextLess(b, c)
    ensures TextLess(a, c)
  {
    if a != "" && a[0] == b[0] == c[0] {
      TextTransitive(a[1..], b[1..], c[1..]);
    }
  }

  lemma TextStrict()
    ensures Strict(TextLess)
  {
    hide TextLess;
    forall x: string
      ensures !TextLess(x, x)
    {
      TextIrreflexive(x);
    }
    forall x: string, y: string, z: string | TextLess(x, y) && TextLess(y, z)
      ensures TextLess(x, z)
    {
      TextTransitive(x, y, z);
    }
  }

  lemma DistinctTextsComparable(s: seq<string>)
    requires Distinct(s)
    ensures Comparable(s, TextLess)
  {
    hide TextLess;
    forall i, j | 0 <= i < j < |s|
      ensures TextLess(s[i], s[j]) || TextLess(s[j], s[i])
    {
      TextTotal(s[i], s[j]);
    }
  }

  /** A set of texts, listed in order. */
  function SortedSet(s: seq<string>): seq<string> {
    Sort(Dedup(s), TextLess)
  }

  lemma SameSortedSet(s: seq<string>, t: seq<string>)
    requires SameMembers(s, t)
    ensures SortedSet(s) == SortedSet(t)
  {
    hide Sort, Dedup, TextLess, Distinct;
    TextStrict();
    DedupIn(s);
    DedupIn(t);
    DedupDistinct(s);
    DedupDistinct(t);
    DistinctTextsComparable(Dedup(s));
    DistinctTextsComparable(Dedup(t));
    SameSort(Dedup(s), Dedup(t), TextLess);
  }

  lemma SortedSetIn(s: seq<string>)
    ensures forall x :: x in SortedSet(s) <==> x in s
  {
    DedupIn(s);
    SortIn(Dedup(s), TextLess);
  }

  predicate IntLess(a: int, b: int) {
    a < b
  }

  // ----- Permutations -----

  lemma PermutedMembers<T(!new)>(s: seq<T>, t: seq<T>)
    requires multiset(s) == multiset(t)
    ensures SameMembers(s, t) && |s| == |t|
  {
    forall x
      ensures x in s <==> x in t
    {
      assert x in s <==> x in multiset(s);
    }
    assert |multiset(s)| == |multiset(t)|;
  }

  lemma RemoveAt<T(!new)>(t: seq<T>, k: nat)
    requires k < |t|
    ensures multiset(t) == multiset(t[..k] + t[k + 1..]) + multiset{t[k]}
  {
    assert t == t[..k] + [t[k]] + t[k + 1..];
  }

  lemma MapRemoveAt<T(!new), U(!new)>(t: seq<T>, f: T -> U, k: nat)
    requires k < |t|
    ensures multiset(Map(t, f)) == multiset(Map(t[..k] + t[k + 1..], f)) + multiset{f(t[k])}
  {
    RemoveAt(Map(t, f), k);
    assert Map(t, f)[..k] + Map(t, f)[k + 1..] == Map(t[..k] + t[k + 1..], f);
  }

  lemma Cancel<T(!new)>(a: multiset<T>, b: multiset<T>, x: T)
    requires a + multiset{x} == b + multiset{x}
    ensures a == b
  {
    forall y
      ensures a[y] == b[y]
    {
      assert (a + multiset{x})[y] == (b + multiset{x})[y];
    }
  }

  /** Find the head of one permutation in the other and take it out of both. */
  lemma TakeOut<T(!new)>(s: seq<T>, t: seq<T>) returns (k: nat)
    requires multiset(s) == multiset(t) && s != []
    ensures k < |t| && t[k] == s[0] && multiset(s[1..]) == multiset(t[..k] + t[k + 1..])
  {
    assert s[0] in multiset(t);
    k :| 0 <= k < |t| && t[k] == s[0];
    RemoveAt(t, k);
    RemoveAt(s, 0);
    assert s[..0] + s[1..] == s[1..];
    Cancel(multiset(s[1..]), multiset(t[..k] + t[k + 1..]), s[0]);
  }

  lemma MapRemoveHead<T(!new), U(!new)>(s: seq<T>, f: T -> U)
    requires s != []
    ensures multiset(Map(s, f)) == multiset(Map(s[1..], f)) + multiset{f(s[0])}
  {
    hide Map;
    var rest := s[..0] + s[1..];
    assert rest == s[1..];
    MapRemoveAt(s, f, 0);
  }

  lemma EmptyPermutation<T(!new)>(s: seq<T>, t: seq<T>)
    requires multiset(s) == multiset(t)
    ensures s == [] <==> t == []
  {
    PermutedMembers(s, t);
  }

  lemma {:induction false} PermutedMap<T(!new), U(!new)>(s: seq<T>, t: seq<T>, f: T -> U)
    requires multiset(s) == multiset(t)
    ensures multiset(Map(s, f)) == multiset(Map(t, f))
    decreases |s|
  {
    hide Map;
    EmptyPermutation(s, t);
    if s != [] {
      var k := TakeOut(s, t);
      PermutedMap(s[1..], t[..k] + t[k + 1..], f);
      MapRemoveAt(t, f, k);
      MapRemoveHead(s, f);
    }
  }
}
