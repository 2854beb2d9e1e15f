/**
 Strict orders over finite sets and the one sequence that lists a set in such an order.
 Every sort in the repository (`sort.Slice` with a less function) sorts elements with
 pairwise different keys, so its outcome is this sequence.
 */
module Ordering {

  /** `less` is a strict total order on the elements of c. */
  ghost predicate StrictTotalOn<T(!new)>(less: (T, T) -> bool, c: set<T>) {
    && (forall x | x in c :: !less(x, x))
    && (forall x, y | x in c && y in c && x != y :: less(x, y) || less(y, x))
    && (forall x, y, z | x in c && y in c && z in c && less(x, y) && less(y, z) :: less(x, z))
  }

  ghost predicate StrictlySorted<T>(less: (T, T) -> bool, s: seq<T>) {
    forall i, j | 0 <= i < j < |s| :: less(s[i], s[j])
  }

  ghost function Elements<T>(s: seq<T>): set<T> {
    set x | x in s
  }

  ghost predicate NoDuplicates<T>(s: seq<T>) {
    forall i, j | 0 <= i < j < |s| :: s[i] != s[j]
  }

  ghost predicate IsFirst<T(!new)>(less: (T, T) -> bool, c: set<T>, m: T) {
    m in c && forall o | o in c && o != m :: less(m, o)
  }

  /** Every non-empty finite set has a first element. */
  lemma {:induction false} FirstExists<T(!new)>(less: (T, T) -> bool, c: set<T>)
    requires StrictTotalOn(less, c) && c != {}
    ensures exists m :: IsFirst(less, c, m)
    decreases |c|
  {
    var x :| x in c;
    var rest := c - {x};
    assert c == rest + {x};
    if rest == {} {
      assert IsFirst(less, c, x);
    } else {
      FirstExists(less, rest);
      var n :| IsFirst(less, rest, n);
      assert IsFirst(less, c, if less(x, n) then x else n);
    }
  }

  /** The elements of c, first to last. */
  ghost function Ranking<T(!new)>(less: (T, T) -> bool, c: set<T>): (r: seq<T>)
    requires StrictTotalOn(less, c)
    ensures Elements(r) == c && |r| == |c| && StrictlySorted(less, r)
    decreases |c|
  {
    if c == {} then []
    else
      FirstExists(less, c);
      var m :| IsFirst(less, c, m);
      var rest := Ranking(less, c - {m});
      PutFirst(less, m, rest);
      assert c == {m} + (c - {m});
      [m] + rest
  }

  lemma PutFirst<T(!new)>(less: (T, T) -> bool, m: T, rest: seq<T>)
    requires StrictlySorted(less, rest) && forall o | o in Elements(rest) :: less(m, o)
    ensures StrictlySorted(less, [m] + rest) && Elements([m] + rest) == {m} + Elements(rest)
  {
    var s := [m] + rest;
    assert forall x :: x in s <==> x == m || x in rest;
    forall i, j | 0 <= i < j < |s|
      ensures less(s[i], s[j])
    {
      assert s[j] == rest[j - 1] && rest[j - 1] in Elements(rest);
    }
  }

  /** Two strictly sorted sequences with the same elements are equal. */
  lemma {:induction false} SortedIsUnique<T(!new)>(less: (T, T) -> bool, a: seq<T>, b: seq<T>)
    requires StrictTotalOn(less, Elements(a)) && Elements(a) == Elements(b)
    requires StrictlySorted(less, a) && StrictlySorted(less, b)
    ensures a == b
  {
    assert a != [] ==> a[0] in Elements(b);
    assert b != [] ==> b[0] in Elements(a);
    if a != [] && b != [] {
      assert a[0] == b[0];
      SortedTail(less, a, b);
      SortedTail(less, b, a);
      SortedIsUnique(less, a[1..], b[1..]);
      assert a == [a[0]] + a[1..] && b == [b[0]] + b[1..];
    }
  }

  lemma SortedTail<T(!new)>(less: (T, T) -> bool, a: seq<T>, b: seq<T>)
    requires StrictTotalOn(less, Elements(a)) && Elements(a) == Elements(b)
    requires StrictlySorted(less, a) && a != [] && b != [] && a[0] == b[0]
    requires StrictlySorted(less, b)
    ensures Elements(a[1..]) <= Elements(b[1..])
  {
    forall x | x in Elements(a[1..])
      ensures x in Elements(b[1..])
    {
      var i :| 0 <= i < |a[1..]| && a[1..][i] == x;
      assert a[i + 1] == x && less(a[0], x);
      assert x in Elements(b);
      var j :| 0 <= j < |b| && b[j] == x;
      assert j != 0;
      assert b[1..][j - 1] == x;
    }
  }

  lemma RankingIsUnique<T(!new)>(less: (T, T) -> bool, c: set<T>, s: seq<T>)
    requires StrictTotalOn(less, c)
    requires StrictlySorted(less, s) && Elements(s) == c
    ensures s == Ranking(less, c)
  {
    SortedIsUnique(less, s, Ranking(less, c));
  }

  /** What a truncated ranking promises: the kept elements come before all the others. */
  lemma TopIsBest<T(!new)>(less: (T, T) -> bool, c: set<T>, k: nat)
    requires StrictTotalOn(less, c) && k <= |c|
    ensures forall x, y | x in Ranking(less, c)[..k] && y in c && y !in Ranking(less, c)[..k] :: less(x, y)
  {
    var r := Ranking(less, c);
    forall x, y | x in r[..k] && y in c && y !in r[..k]
      ensures less(x, y)
    {
      var i :| 0 <= i < k && r[i] == x;
      assert y in Elements(r);
      var j :| 0 <= j < |r| && r[j] == y;
      assert !(j < k) by {
        assert forall l | 0 <= l < k :: r[..k][l] == r[l];
      }
    }
  }

  /** The library sort, for elements that the less function tells apart. */
  method SortSlice<T(!new)>(less: (T, T) -> bool, s: seq<T>) returns (r: seq<T>)
    requires NoDuplicates(s) && StrictTotalOn(less, Elements(s))
    ensures r == Ranking(less, Elements(s))
  {
    r := [];
    for i := 0 to |s|
      invariant StrictlySorted(less, r) && Elements(r) == Elements(s[..i])
    {
      ghost var before := r;
      var k := 0;
      while k < |r| && less(r[k], s[i])
        invariant k <= |r|
        invariant forall j | 0 <= j < k :: less(r[j], s[i])
      {
        k := k + 1;
      }
      assert s[..i + 1] == s[..i] + [s[i]];
      assert s[i] !in Elements(r) by {
        assert s[i] !in s[..i];
      }
      InsertedIsSorted(less, r, k, s[i], Elements(s));
      r := r[..k] + [s[i]] + r[k..];
    }
    assert s[..|s|] == s;
    RankingIsUnique(less, Elements(s), r);
  }

  lemma InsertedIsSorted<T(!new)>(less: (T, T) -> bool, r: seq<T>, k: nat, x: T, c: set<T>)
    requires StrictTotalOn(less, c) && x in c && Elements(r) <= c && x !in Elements(r)
    requires StrictlySorted(less, r) && k <= |r|
    requires forall j | 0 <= j < k :: less(r[j], x)
    requires k < |r| ==> !less(r[k], x)
    ensures StrictlySorted(less, r[..k] + [x] + r[k..])
    ensures Elements(r[..k] + [x] + r[k..]) == Elements(r) + {x}
  {
    assert forall j | 0 <= j < |r| :: r[j] in c by {
      assert forall j | 0 <= j < |r| :: r[j] in Elements(r);
    }
    forall j | k <= j < |r|
      ensures less(x, r[j])
    {
      assert less(x, r[k]) by {
        assert r[k] in Elements(r) && r[k] in c;
      }
      assert j != k ==> less(r[k], r[j]);
    }
    SplicedIsSorted(less, r, k, x);
    assert r == r[..k] + r[k..];
    assert forall y :: y in r[..k] + [x] + r[k..] <==> y in r || y == x;
  }

  lemma SplicedIsSorted<T(!new)>(less: (T, T) -> bool, r: seq<T>, k: nat, x: T)
    requires StrictlySorted(less, r) && k <= |r|
    requires forall j | 0 <= j < k :: less(r[j], x)
    requires forall j | k <= j < |r| :: less(x, r[j])
    ensures StrictlySorted(less, r[..k] + [x] + r[k..])
  {
    var s := r[..k] + [x] + r[k..];
    forall i, j | 0 <= i < j < |s|
      ensures less(s[i], s[j])
    {
      assert s[i] == if i < k then r[i] else if i == k then x else r[i - 1];
      assert s[j] == if j < k then r[j] else if j == k then x else r[j - 1];
    }
  }

  lemma NoDuplicatesCardinality<T>(s: seq<T>)
    requires NoDuplicates(s)
    ensures |Elements(s)| == |s|
  {
    if s != [] {
      var n := |s| - 1;
      NoDuplicatesCardinality(s[..n]);
      assert s == s[..n] + [s[n]];
      assert Elements(s) == Elements(s[..n]) + {s[n]};
      assert s[n] !in Elements(s[..n]);
    }
  }

  lemma SubsetOfSameSize<T>(a: set<T>, b: set<T>)
    requires a <= b && |a| == |b|
    ensures a == b
  {
    assert |b - a| == |b| - |a|;
  }

  /** Being free of duplicates, and the set of elements, only depend on the multiset. */
  lemma PermutedElements<T>(a: seq<T>, b: seq<T>)
    requires multiset(a) == multiset(b)
    ensures forall x :: x in a <==> x in b
    ensures Elements(a) == Elements(b) && |a| == |b|
    ensures NoDuplicates(a) ==> NoDuplicates(b)
  {
    forall x
      ensures x in Elements(a) <==> x in Elements(b)
    {
      assert x in Elements(a) <==> x in multiset(a);
      assert x in Elements(b) <==> x in multiset(b);
    }
    assert forall x :: x in a <==> x in multiset(a);
    assert forall x :: x in b <==> x in multiset(b);
    assert |multiset(a)| == |a| && |multiset(b)| == |b|;
    if NoDuplicates(a) {
      NoDuplicatesCardinality(a);
      FullCardinality(b);
    }
  }

  lemma {:induction false} FullCardinality<T>(s: seq<T>)
    ensures |Elements(s)| <= |s|
    ensures |Elements(s)| == |s| ==> NoDuplicates(s)
  {
    if s != [] {
      var n := |s| - 1;
      FullCardinality(s[..n]);
      assert s == s[..n] + [s[n]];
      assert Elements(s) == Elements(s[..n]) + {s[n]};
      if |Elements(s)| == |s| {
        assert s[n] !in Elements(s[..n]);
        forall i, j | 0 <= i < j < |s|
          ensures s[i] != s[j]
        {
          if j == n {
            assert s[..n][i] in Elements(s[..n]);
          } else {
            assert s[..n][i] != s[..n][j];
          }
        }
      }
    }
  }

  /** Go's order on strings: lexicographic. */
  predicate StringLess(a: string, b: string) {
    if b == "" then false
    else if a == "" then true
    else if a[0] != b[0] then a[0] < b[0]
    else StringLess(a[1..], b[1..])
  }

  /** The smaller string is a proper prefix, or has the smaller character where the two first differ. */
  lemma {:induction false} StringLessByFirstDifference(a: string, b: string)
    ensures StringLess(a, b)
       <==> exists k :: 0 <= k <= |a| && k < |b| && a[..k] == b[..k] && (k == |a| || a[k] < b[k])
  {
    if a != "" && b != "" && a[0] == b[0] {
      StringLessByFirstDifference(a[1..], b[1..]);
      if StringLess(a[1..], b[1..]) {
        var k :| 0 <= k <= |a[1..]| && k < |b[1..]| && a[1..][..k] == b[1..][..k] && (k == |a[1..]| || a[1..][k] < b[1..][k]);
        assert a[..k + 1] == [a[0]] + a[1..][..k] && b[..k + 1] == [b[0]] + b[1..][..k];
      }
      forall k | 0 <= k <= |a| && k < |b| && a[..k] == b[..k] && (k == |a| || a[k] < b[k])
        ensures StringLess(a, b)
      {
        assert a[..k][1..] == b[..k][1..] && a[1..][..k - 1] == a[..k][1..] && b[1..][..k - 1] == b[..k][1..];
      }
    } else if StringLess(a, b) {
      assert a[..0] == b[..0];
    } else if exists k :: 0 <= k <= |a| && k < |b| && a[..k] == b[..k] && (k == |a| || a[k] < b[k]) {
      var k :| 0 <= k <= |a| && k < |b| && a[..k] == b[..k] && (k == |a| || a[k] < b[k]);
      assert k > 0 ==> a[..k][0] == b[..k][0];
    }
  }

  lemma {:induction false} StringLessIrreflexive(a: string)
    ensures !StringLess(a, a)
  {
    if a != "" { StringLessIrreflexive(a[1..]); }
  }

  lemma {:induction false} StringLessTotal(a: string, b: string)
    requires a != b
    ensures StringLess(a, b) || StringLess(b, a)
  {
    if a != "" && b != "" && a[0] == b[0] {
      assert a == [a[0]] + a[1..] && b == [b[0]] + b[1..];
      StringLessTotal(a[1..], b[1..]);
    }
  }

  lemma {:induction false} StringLessTransitive(a: string, b: string, c: string)
    requires StringLess(a, b) && StringLess(b, c)
    ensures StringLess(a, c)
  {
    if a != "" && a[0] == b[0] && b[0] == c[0] {
      StringLessTransitive(a[1..], b[1..], c[1..]);
    }
  }

  /** The three laws above for all strings at once. */
  lemma StringOrder()
    ensures forall a :: !StringLess(a, a)
    ensures forall a, b | a != b :: StringLess(a, b) || StringLess(b, a)
    ensures forall a, b, c | StringLess(a, b) && StringLess(b, c) :: StringLess(a, c)
  {
    forall a { StringLessIrreflexive(a); }
    forall a, b | a != b { StringLessTotal(a, b); }
    forall a, b, c | StringLess(a, b) && StringLess(b, c) { StringLessTransitive(a, b, c); }
  }
}
