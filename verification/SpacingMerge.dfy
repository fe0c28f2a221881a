/** WP_Theme_JSON_Gutenberg::merge_spacing_sizes: a theme's sizes over those of
    its spacing scale. */
module SpacingMerge {
  import opened StableSort

  datatype Preset = Preset(slug: string, body: string)

  function Find(ps: seq<Preset>, slug: string): (k: int)
    ensures -1 <= k < |ps|
    ensures k >= 0 ==> ps[k].slug == slug
    ensures forall i | k < i < |ps| :: ps[i].slug != slug
  {
    if ps == [] then -1
    else if ps[|ps| - 1].slug == slug then |ps| - 1
    else Find(ps[..|ps| - 1], slug)
  }

  /** $merged[ $item['slug'] ] = $item */
  function Put(ps: seq<Preset>, p: Preset): seq<Preset> {
    var k := Find(ps, p.slug);
    if k >= 0 then ps[k := p] else ps + [p]
  }

  function PutAll(ps: seq<Preset>, items: seq<Preset>): seq<Preset> {
    if items == [] then ps else Put(PutAll(ps, items[..|items| - 1]), items[|items| - 1])
  }

  /** The order of ksort with SORT_NUMERIC, by a reading of slugs as numbers. */
  function MergeSizes(base: seq<Preset>, incoming: seq<Preset>, number: string -> int): seq<Preset> {
    if base == [] then incoming else SortBy(PutAll(PutAll([], base), incoming), (p: Preset) => number(p.slug))
  }

  lemma PutAllPush(ps: seq<Preset>, items: seq<Preset>, p: Preset)
    ensures PutAll(ps, items + [p]) == Put(PutAll(ps, items), p)
  {
    assert (items + [p])[..|items|] == items;
  }

  method PutLoop(ps: seq<Preset>, items: seq<Preset>) returns (merged: seq<Preset>)
    ensures merged == PutAll(ps, items)
  {
    merged := ps;
    for i := 0 to |items|
      invariant merged == PutAll(ps, items[..i])
    {
      PutAllPush(ps, items[..i], items[i]);
      assert items[..i + 1] == items[..i] + [items[i]];
      merged := Put(merged, items[i]);
    }
    assert items[..|items|] == items;
  }

  method MergeSpacingSizes(base: seq<Preset>, incoming: seq<Preset>, number: string -> int) returns (r: seq<Preset>)
    ensures r == MergeSizes(base, incoming, number)
  {
    if |base| == 0 {
      return incoming;
    }
    var merged := PutLoop([], base);
    merged := PutLoop(merged, incoming);
    return SortBy(merged, (p: Preset) => number(p.slug));
  }

  // ---- One preset per slug ----

  ghost predicate OneSlugEach(ps: seq<Preset>) {
    forall i, j | 0 <= i < j < |ps| :: ps[i].slug != ps[j].slug
  }

  /** The preset that stands for its slug: the last one given. */
  ghost predicate Wins(p: Preset, items: seq<Preset>) {
    exists k | 0 <= k < |items| :: items[k] == p && forall i | k < i < |items| :: items[i].slug != p.slug
  }

  ghost predicate HasSlug(items: seq<Preset>, slug: string) {
    exists p | p in items :: p.slug == slug
  }

  lemma FindIs(items: seq<Preset>, p: Preset)
    ensures Wins(p, items) <==> Find(items, p.slug) >= 0 && items[Find(items, p.slug)] == p
    ensures HasSlug(items, p.slug) <==> Find(items, p.slug) >= 0
  {
    var k := Find(items, p.slug);
    if k >= 0 {
      assert items[k] in items;
    }
    if Wins(p, items) {
      var j :| 0 <= j < |items| && items[j] == p && forall i | j < i < |items| :: items[i].slug != p.slug;
      assert j == k;
    }
  }

  lemma PutIs(ps: seq<Preset>, p: Preset)
    requires OneSlugEach(ps)
    ensures OneSlugEach(Put(ps, p))
    ensures forall x :: x in Put(ps, p) <==> x == p || (x in ps && x.slug != p.slug)
  {
    var k, r := Find(ps, p.slug), Put(ps, p);
    forall x
      ensures x in r <==> x == p || (x in ps && x.slug != p.slug)
    {
      if x in ps && x.slug != p.slug {
        var i :| 0 <= i < |ps| && ps[i] == x;
        assert r[i] == x;
      }
      if x == p {
        assert r[if k >= 0 then k else |ps|] == p;
      }
      if x in r && x != p {
        var i :| 0 <= i < |r| && r[i] == x;
        assert ps[i] == x;
      }
    }
  }

  lemma {:induction false} PutAllIs(ps: seq<Preset>, items: seq<Preset>)
    requires OneSlugEach(ps)
    ensures OneSlugEach(PutAll(ps, items))
    ensures forall x :: x in PutAll(ps, items) <==> Wins(x, items) || (x in ps && !HasSlug(items, x.slug))
  {
    if items != [] {
      var front, last := items[..|items| - 1], items[|items| - 1];
      PutAllIs(ps, front);
      PutIs(PutAll(ps, front), last);
      assert items == front + [last];
      forall x
        ensures Wins(x, items) <==> x == last || (Wins(x, front) && x.slug != last.slug)
        ensures HasSlug(items, x.slug) <==> HasSlug(front, x.slug) || x.slug == last.slug
      {
        FindIs(items, x);
        FindIs(front, x);
      }
    }
  }

  /** With a scale to merge into, every slug of either side comes out once, from
      the theme if it has it, and the whole by number; without one the theme's
      sizes come out as they are. */
  lemma MergedSizes(base: seq<Preset>, incoming: seq<Preset>, number: string -> int)
    ensures base == [] ==> MergeSizes(base, incoming, number) == incoming
    ensures base != [] ==>
      var r := MergeSizes(base, incoming, number);
      (forall x :: x in r <==> Wins(x, incoming) || (Wins(x, base) && !HasSlug(incoming, x.slug)))
      && (forall i, j | 0 <= i < j < |r| :: r[i].slug != r[j].slug && number(r[i].slug) <= number(r[j].slug))
  {
    if base != [] {
      var key := (p: Preset) => number(p.slug);
      var merged := PutAll(PutAll([], base), incoming);
      PutAllIs([], base);
      PutAllIs(PutAll([], base), incoming);
      SortHas(merged, key);
      SortSorts(merged, key);
      SortKeeps(merged, key);
      var r := SortBy(merged, key);
      SameSlugs(merged, r);
      forall i, j | 0 <= i < j < |r|
        ensures number(r[i].slug) <= number(r[j].slug)
      {
        assert key(r[i]) <= key(r[j]);
      }
    }
  }

  lemma SameSlugs(a: seq<Preset>, b: seq<Preset>)
    requires OneSlugEach(a) && multiset(a) == multiset(b)
    ensures OneSlugEach(b)
  {
    forall i, j | 0 <= i < j < |b|
      ensures b[i].slug != b[j].slug
    {
      TwiceCounts(b, i, j);
      assert b[i] in multiset(a) && b[j] in multiset(a);
      var m :| 0 <= m < |a| && a[m] == b[i];
      var n :| 0 <= n < |a| && a[n] == b[j];
      OnceOnly(a, m);
    }
  }

  lemma OnceOnly(a: seq<Preset>, m: nat)
    requires OneSlugEach(a) && m < |a|
    ensures multiset(a)[a[m]] == 1
  {
    var front, tail := a[..m], a[m + 1..];
    assert a == front + [a[m]] + tail;
    assert a[m] !in front && a[m] !in tail;
  }
}
