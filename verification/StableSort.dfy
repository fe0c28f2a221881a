/** PHP's sorts, which are stable since PHP 8.0, by an integer key. */
module StableSort {

  function Insert<T>(sorted: seq<T>, x: T, key: T -> int): seq<T> {
    if sorted == [] || key(sorted[|sorted| - 1]) <= key(x) then sorted + [x]
    else Insert(sorted[..|sorted| - 1], x, key) + [sorted[|sorted| - 1]]
  }

  function SortBy<T>(s: seq<T>, key: T -> int): seq<T> {
    if s == [] then [] else Insert(SortBy(s[..|s| - 1], key), s[|s| - 1], key)
  }

  ghost predicate Sorted<T>(s: seq<T>, key: T -> int) {
    forall i, j | 0 <= i < j < |s| :: key(s[i]) <= key(s[j])
  }

  /** Sorted, with no key twice. */
  ghost predicate Strict<T>(s: seq<T>, key: T -> int) {
    forall i, j | 0 <= i < j < |s| :: key(s[i]) < key(s[j])
  }

  ghost predicate OneEach<T>(s: seq<T>, key: T -> int) {
    forall i, j | 0 <= i < j < |s| :: key(s[i]) != key(s[j])
  }

  lemma {:induction false} InsertKeeps<T>(sorted: seq<T>, x: T, key: T -> int)
    ensures multiset(Insert(sorted, x, key)) == multiset(sorted) + multiset{x}
    ensures |Insert(sorted, x, key)| == |sorted| + 1
  {
    if !(sorted == [] || key(sorted[|sorted| - 1]) <= key(x)) {
      var n := |sorted| - 1;
      InsertKeeps(sorted[..n], x, key);
      assert sorted == sorted[..n] + [sorted[n]];
    }
  }

  lemma InsertLast<T>(sorted: seq<T>, x: T, key: T -> int)
    ensures |Insert(sorted, x, key)| == |sorted| + 1
    ensures Insert(sorted, x, key)[|sorted|] ==
      if sorted == [] || key(sorted[|sorted| - 1]) <= key(x) then x else sorted[|sorted| - 1]
  {
    InsertKeeps(sorted, x, key);
    if !(sorted == [] || key(sorted[|sorted| - 1]) <= key(x)) {
      InsertKeeps(sorted[..|sorted| - 1], x, key);
    }
  }

  lemma {:induction false} SortKeeps<T>(s: seq<T>, key: T -> int)
    ensures multiset(SortBy(s, key)) == multiset(s) && |SortBy(s, key)| == |s|
  {
    if s != [] {
      var n := |s| - 1;
      SortKeeps(s[..n], key);
      InsertKeeps(SortBy(s[..n], key), s[n], key);
      assert s == s[..n] + [s[n]];
    }
  }

  lemma SortHas<T>(s: seq<T>, key: T -> int)
    ensures forall x :: x in SortBy(s, key) <==> x in s
  {
    SortKeeps(s, key);
    forall x
      ensures x in SortBy(s, key) <==> x in s
    {
      assert x in multiset(SortBy(s, key)) <==> x in multiset(s);
    }
  }

  lemma {:induction false} InsertSorts<T>(sorted: seq<T>, x: T, key: T -> int)
    requires Sorted(sorted, key)
    ensures Sorted(Insert(sorted, x, key), key)
  {
    InsertKeeps(sorted, x, key);
    if !(sorted == [] || key(sorted[|sorted| - 1]) <= key(x)) {
      var n := |sorted| - 1;
      InsertSorts(sorted[..n], x, key);
      InsertLast(sorted[..n], x, key);
    }
  }

  lemma {:induction false} SortSorts<T>(s: seq<T>, key: T -> int)
    ensures Sorted(SortBy(s, key), key)
  {
    if s != [] {
      SortSorts(s[..|s| - 1], key);
      InsertSorts(SortBy(s[..|s| - 1], key), s[|s| - 1], key);
    }
  }

  /** Sorting leaves what is sorted as it is. */
  lemma {:induction false} SortOfSorted<T>(s: seq<T>, key: T -> int)
    requires Sorted(s, key)
    ensures SortBy(s, key) == s
  {
    if s != [] {
      var n := |s| - 1;
      SortOfSorted(s[..n], key);
      assert n > 0 ==> key(s[n - 1]) <= key(s[n]);
      assert s == s[..n] + [s[n]];
    }
  }

  lemma OneEachPush<T>(s: seq<T>, x: T, key: T -> int)
    ensures OneEach(s + [x], key) <==> OneEach(s, key) && forall y | y in s :: key(y) != key(x)
  {
    var r := s + [x];
    assert r[|s|] == x && forall i | 0 <= i < |s| :: r[i] == s[i];
    if OneEach(r, key) {
      forall y | y in s
        ensures key(y) != key(x)
      {
        var i :| 0 <= i < |s| && s[i] == y;
        assert key(r[i]) != key(r[|s|]);
      }
    }
  }

  lemma OneEachCounts<T>(a: seq<T>, b: seq<T>, key: T -> int)
    requires multiset(a) == multiset(b) && OneEach(a, key)
    ensures OneEach(b, key)
  {
    forall i, j | 0 <= i < j < |b|
      ensures key(b[i]) != key(b[j])
    {
      TwiceCounts(b, i, j);
      assert b[i] in multiset(b) && b[j] in multiset(b);
      assert b[i] in a && b[j] in a;
      OnceCounts(a, b[i], key);
    }
  }

  lemma TwiceCounts<T>(s: seq<T>, i: nat, j: nat)
    requires i < j < |s|
    ensures s[i] == s[j] ==> multiset(s)[s[i]] >= 2
  {
    assert s == s[..j] + [s[j]] + s[j + 1..];
    assert s[i] in s[..j];
  }

  lemma {:induction false} OnceCounts<T>(s: seq<T>, x: T, key: T -> int)
    requires OneEach(s, key) && x in s
    ensures multiset(s)[x] == 1
  {
    var n := |s| - 1;
    var front := s[..n];
    assert s == front + [s[n]];
    OneEachPush(front, s[n], key);
    if x in front {
      OnceCounts(front, x, key);
    } else {
      assert multiset(front)[x] == 0;
    }
  }

  /** Sorting distinct keys gives the one strict order of the same elements. */
  lemma StrictSort<T>(s: seq<T>, key: T -> int)
    ensures Strict(SortBy(s, key), key) <==> OneEach(s, key)
  {
    SortSorts(s, key);
    SortKeeps(s, key);
    if OneEach(s, key) {
      OneEachCounts(s, SortBy(s, key), key);
    }
    if Strict(SortBy(s, key), key) {
      OneEachCounts(SortBy(s, key), s, key);
    }
  }

  lemma {:induction false} StrictIsUnique<T>(a: seq<T>, b: seq<T>, key: T -> int)
    requires Strict(a, key) && Strict(b, key) && forall x :: x in a <==> x in b
    ensures a == b
  {
    EmptyTogether(a, b);
    if a != [] {
      SameLast(a, b, key);
      var n, m := |a| - 1, |b| - 1;
      FrontOf(a, key);
      FrontOf(b, key);
      forall x
        ensures x in a[..n] <==> x in b[..m]
      {
        assert x in a <==> x in b;
      }
      StrictIsUnique(a[..n], b[..m], key);
      assert a == a[..n] + [a[n]] && b == b[..m] + [b[m]];
    }
  }

  lemma EmptyTogether<T>(a: seq<T>, b: seq<T>)
    requires forall x :: x in a <==> x in b
    ensures a == [] <==> b == []
  {
    if a != [] {
      assert a[0] in a;
    }
    if b != [] {
      assert b[0] in b;
    }
  }

  lemma FrontOf<T>(a: seq<T>, key: T -> int)
    requires Strict(a, key) && a != []
    ensures Strict(a[..|a| - 1], key)
    ensures forall x :: x in a[..|a| - 1] <==> x in a && x != a[|a| - 1]
  {
    var n := |a| - 1;
    assert a == a[..n] + [a[n]];
    assert forall x | x in a[..n] :: key(x) < key(a[n]);
  }

  lemma SameLast<T>(a: seq<T>, b: seq<T>, key: T -> int)
    requires Strict(a, key) && Strict(b, key) && a != [] && b != [] && forall x :: x in a <==> x in b
    ensures a[|a| - 1] == b[|b| - 1]
  {
    var p, q := a[|a| - 1], b[|b| - 1];
    assert p in b && q in a;
    var i :| 0 <= i < |b| && b[i] == p;
    var j :| 0 <= j < |a| && a[j] == q;
    assert key(b[i]) <= key(b[|b| - 1]) && key(a[j]) <= key(a[|a| - 1]);
  }

  /** Which element comes last: of those with the greatest key, the last one. */
  function Greatest<T>(s: seq<T>, key: T -> int): (k: nat)
    requires s != []
    ensures k < |s|
    ensures forall i | 0 <= i < |s| :: key(s[i]) <= key(s[k])
    ensures forall i | k < i < |s| :: key(s[i]) < key(s[k])
  {
    var n := |s| - 1;
    if n == 0 then 0
    else
      var k := Greatest(s[..n], key);
      if key(s[k]) <= key(s[n]) then n else k
  }

  lemma {:induction false} SortLast<T>(s: seq<T>, key: T -> int)
    requires s != []
    ensures |SortBy(s, key)| == |s| && SortBy(s, key)[|s| - 1] == s[Greatest(s, key)]
  {
    var n := |s| - 1;
    SortKeeps(s, key);
    SortKeeps(s[..n], key);
    InsertLast(SortBy(s[..n], key), s[n], key);
    if n > 0 {
      SortLast(s[..n], key);
    }
  }
}
