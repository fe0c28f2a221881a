/** Order and multiplicity of the elements of sequences. */
module Sequences {

  /** `f` gives, in order, the places in `b` of the elements of `a`. */
  ghost predicate Embeds<T>(f: seq<nat>, a: seq<T>, b: seq<T>) {
    && |f| == |a|
    && (forall i, j | 0 <= i < j < |f| :: f[i] < f[j])
    && (forall i | 0 <= i < |f| :: f[i] < |b| && a[i] == b[f[i]])
  }

  /** `a` is `b` with some elements left out. */
  ghost predicate Subseq<T>(a: seq<T>, b: seq<T>) {
    exists f :: Embeds(f, a, b)
  }

  lemma SubseqRefl<T>(a: seq<T>)
    ensures Subseq(a, a)
  {
    assert Embeds(seq(|a|, i requires 0 <= i => i), a, a);
  }

  lemma SubseqEmpty<T>(b: seq<T>)
    ensures Subseq([], b)
  {
    assert Embeds([], [], b);
  }

  lemma SubseqTrans<T>(a: seq<T>, b: seq<T>, c: seq<T>)
    requires Subseq(a, b) && Subseq(b, c)
    ensures Subseq(a, c)
  {
    var f :| Embeds(f, a, b);
    var g :| Embeds(g, b, c);
    assert Embeds(seq(|a|, i requires 0 <= i < |a| => g[f[i]]), a, c);
  }

  lemma SubseqConcat<T>(a: seq<T>, b: seq<T>, c: seq<T>, d: seq<T>)
    requires Subseq(a, b) && Subseq(c, d)
    ensures Subseq(a + c, b + d)
  {
    var f :| Embeds(f, a, b);
    var g :| Embeds(g, c, d);
    assert Embeds(f + seq(|c|, i requires 0 <= i < |c| => |b| + g[i]), a + c, b + d);
  }

  lemma SubseqMembers<T>(a: seq<T>, b: seq<T>)
    requires Subseq(a, b)
    ensures multiset(a) <= multiset(b)
    ensures forall x | x in a :: x in b
  {
    var f :| Embeds(f, a, b);
    EmbedsMembers(f, a, b);
    forall x | x in a
      ensures x in b
    {
      assert x in multiset(a);
    }
  }

  lemma {:induction false} EmbedsMembers<T>(f: seq<nat>, a: seq<T>, b: seq<T>)
    requires Embeds(f, a, b)
    ensures multiset(a) <= multiset(b)
    decreases |a|
  {
    if a != [] {
      var n, k := |a| - 1, f[|a| - 1];
      EmbedsMembers(f[..n], a[..n], b[..k]);
      assert a == a[..n] + [a[n]] && b == b[..k] + [b[k]] + b[k + 1..];
    }
  }

  ghost predicate NoDup<T(!new)>(a: seq<T>) {
    forall x :: multiset(a)[x] <= 1
  }

  lemma NoDupSubseq<T(!new)>(a: seq<T>, b: seq<T>)
    requires Subseq(a, b) && NoDup(b)
    ensures NoDup(a)
  {
    SubseqMembers(a, b);
  }

  lemma NoDupConcat<T(!new)>(a: seq<T>, b: seq<T>)
    requires NoDup(a) && NoDup(b) && forall x | x in b :: x !in a
    ensures NoDup(a + b)
  {
    forall x
      ensures multiset(a + b)[x] <= 1
    {
      assert multiset(a + b)[x] == multiset(a)[x] + multiset(b)[x];
      if x in b {
        assert x !in multiset(a);
      }
    }
  }

  /** Concatenation of a list of lists. */
  ghost function Flat<T>(s: seq<seq<T>>): seq<T> {
    if s == [] then [] else Flat(s[..|s| - 1]) + s[|s| - 1]
  }

  lemma FlatPush<T>(s: seq<seq<T>>, x: seq<T>)
    ensures Flat(s + [x]) == Flat(s) + x
  {
    assert (s + [x])[..|s|] == s;
  }

  /** No element occurs in two of the concatenated lists, or twice in one. */
  lemma {:induction false} FlatNoDup<T(!new)>(s: seq<seq<T>>, i: nat, j: nat, x: T)
    requires NoDup(Flat(s)) && i < |s| && j < |s| && x in s[i] && x in s[j]
    ensures i == j && NoDup(s[i])
    decreases |s|
  {
    var rest, last := s[..|s| - 1], s[|s| - 1];
    forall y
      ensures multiset(Flat(s))[y] == multiset(Flat(rest))[y] + multiset(last)[y]
    {
    }
    forall y
      ensures multiset(Flat(rest))[y] <= 1 && multiset(last)[y] <= 1
    {
      assert multiset(Flat(s))[y] <= 1;
    }
    if i < |rest| && j < |rest| {
      FlatNoDup(rest, i, j, x);
    } else if i < |rest| || j < |rest| {
      FlatTwice(s, if i < |rest| then i else j, x);
      assert false;
    }
  }

  lemma FlatTwice<T>(s: seq<seq<T>>, i: nat, x: T)
    requires i + 1 < |s| && x in s[i] && x in s[|s| - 1]
    ensures multiset(Flat(s))[x] >= 2
  {
    FlatHas(s[..|s| - 1], i, x);
    assert x in multiset(Flat(s[..|s| - 1])) && x in multiset(s[|s| - 1]);
  }

  lemma {:induction false} FlatHas<T>(s: seq<seq<T>>, i: nat, x: T)
    requires i < |s| && x in s[i]
    ensures x in Flat(s)
    decreases |s|
  {
    if i < |s| - 1 {
      FlatHas(s[..|s| - 1], i, x);
    }
  }
}
