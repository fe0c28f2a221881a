/** PHP arrays: ordered entries whose keys are integers or strings, with arrays
    inside; and the array functions that theme.json merging is made of. */
module PhpArray {

  datatype Key = Int(n: int) | Str(s: string)

  datatype Scalar = Null | Flag(b: bool) | Other(text: string)

  datatype Tree = Leaf(x: Scalar) | Arr(entries: Entries)

  datatype Entries = End | Entry(key: Key, value: Tree, rest: Entries)

  datatype Found = Nothing | Value(tree: Tree)

  // ---- One level ----

  function Find(es: Entries, key: Key): Found {
    if es.End? then Nothing else if es.key == key then Value(es.value) else Find(es.rest, key)
  }

  /** $array[ $key ] = $value */
  function Put(es: Entries, key: Key, value: Tree): Entries {
    if es.End? then Entry(key, value, End)
    else if es.key == key then Entry(key, value, es.rest)
    else Entry(es.key, es.value, Put(es.rest, key, value))
  }

  /** No key twice, at any depth. */
  predicate Proper(t: Tree)
    decreases t, 0
  {
    t.Arr? ==> AllProper(t.entries)
  }

  predicate AllProper(es: Entries)
    decreases es, 0
  {
    es.Entry? ==> Find(es.rest, es.key).Nothing? && Proper(es.value) && AllProper(es.rest)
  }

  lemma {:induction false} FindPut(es: Entries, key: Key, value: Tree, other: Key)
    ensures Find(Put(es, key, value), other) == if other == key then Value(value) else Find(es, other)
  {
    if es.Entry? {
      FindPut(es.rest, key, value, other);
    }
  }

  lemma {:induction false} PutProper(es: Entries, key: Key, value: Tree)
    requires AllProper(es) && Proper(value)
    ensures AllProper(Put(es, key, value))
  {
    if es.Entry? && es.key != key {
      PutProper(es.rest, key, value);
      FindPut(es.rest, key, value, es.key);
    }
  }

  lemma {:induction false} FoundProper(es: Entries, key: Key)
    requires AllProper(es)
    ensures Find(es, key).Value? ==> Proper(Find(es, key).tree)
  {
    if es.Entry? {
      FoundProper(es.rest, key);
    }
  }

  // ---- Building an array entry by entry ----

  function Append(es: Entries, key: Key, value: Tree): Entries {
    if es.End? then Entry(key, value, End) else Entry(es.key, es.value, Append(es.rest, key, value))
  }

  function Concat(a: Entries, b: Entries): Entries {
    if a.End? then b else Entry(a.key, a.value, Concat(a.rest, b))
  }

  lemma {:induction false} AppendConcat(a: Entries, key: Key, value: Tree, b: Entries)
    ensures Concat(Append(a, key, value), b) == Concat(a, Entry(key, value, b))
  {
    if a.Entry? {
      AppendConcat(a.rest, key, value, b);
    }
  }

  lemma {:induction false} ConcatEnd(a: Entries)
    ensures Concat(a, End) == a
  {
    if a.Entry? {
      ConcatEnd(a.rest);
    }
  }

  // ---- Paths ----

  type Path = seq<Key>

  /** _wp_array_get */
  function Get(t: Tree, path: Path): Found
    decreases |path|
  {
    if path == [] then Value(t)
    else if t.Leaf? then Nothing
    else
      var found := Find(t.entries, path[0]);
      if found.Nothing? then Nothing else Get(found.tree, path[1..])
  }

  function EntriesOf(t: Tree): Entries {
    if t.Arr? then t.entries else End
  }

  function At(es: Entries, key: Key): Tree {
    if Find(es, key).Value? then Find(es, key).tree else Arr(End)
  }

  /** _wp_array_set */
  function Set(t: Tree, path: Path, content: Tree): Tree
    decreases |path|
  {
    if path == [] then content
    else Arr(Put(EntriesOf(t), path[0], Set(At(EntriesOf(t), path[0]), path[1..], content)))
  }

  predicate IsPrefix(p: Path, q: Path) {
    |p| <= |q| && p == q[..|p|]
  }

  /** Neither path leads through the other. */
  predicate Apart(p: Path, q: Path) {
    !IsPrefix(p, q) && !IsPrefix(q, p)
  }

  lemma PrefixRest(p: Path, q: Path)
    requires p != [] && q != [] && p[0] == q[0]
    ensures IsPrefix(p[1..], q[1..]) <==> IsPrefix(p, q)
  {
    if |p| <= |q| {
      assert p == [p[0]] + p[1..] && q[..|p|] == [q[0]] + q[1..][..|p| - 1];
    }
  }

  lemma ApartRest(p: Path, q: Path)
    requires Apart(p, q) && p[0] == q[0]
    ensures Apart(p[1..], q[1..])
  {
    PrefixRest(p, q);
    PrefixRest(q, p);
  }

  lemma {:induction false} GetSet(t: Tree, path: Path, content: Tree)
    ensures Get(Set(t, path, content), path) == Value(content)
    decreases |path|
  {
    if path != [] {
      var es := EntriesOf(t);
      GetSet(At(es, path[0]), path[1..], content);
      FindPut(es, path[0], Set(At(es, path[0]), path[1..], content), path[0]);
    }
  }

  lemma {:induction false} GetSetApart(t: Tree, path: Path, content: Tree, other: Path)
    requires Apart(path, other)
    ensures Get(Set(t, path, content), other) == Get(t, other)
    decreases |path|
  {
    assert path != [] && other != [];
    var es := EntriesOf(t);
    FindPut(es, path[0], Set(At(es, path[0]), path[1..], content), other[0]);
    if other[0] == path[0] {
      ApartRest(path, other);
      assert other[1..] != [];
      GetSetApart(At(es, path[0]), path[1..], content, other[1..]);
    }
  }

  lemma {:induction false} SetProper(t: Tree, path: Path, content: Tree)
    requires Proper(t) && Proper(content)
    ensures Proper(Set(t, path, content))
    decreases |path|
  {
    if path != [] {
      var es := EntriesOf(t);
      FoundProper(es, path[0]);
      SetProper(At(es, path[0]), path[1..], content);
      PutProper(es, path[0], Set(At(es, path[0]), path[1..], content));
    }
  }

  lemma {:induction false} GotProper(t: Tree, path: Path)
    requires Proper(t)
    ensures Get(t, path).Value? ==> Proper(Get(t, path).tree)
    decreases |path|
  {
    if path != [] && t.Arr? && Find(t.entries, path[0]).Value? {
      FoundProper(t.entries, path[0]);
      GotProper(Find(t.entries, path[0]).tree, path[1..]);
    }
  }

  // ---- array_replace_recursive ----

  function Over(a: Tree, b: Tree): Tree
    decreases b, 1
  {
    if a.Arr? && b.Arr? then Arr(Replace(a.entries, b.entries)) else b
  }

  function OverFound(a: Found, b: Tree): Tree
    decreases b, 2
  {
    if a.Value? then Over(a.tree, b) else b
  }

  function Replace(a: Entries, b: Entries): Entries
    decreases b, 0
  {
    if b.End? then a else Replace(Put(a, b.key, OverFound(Find(a, b.key), b.value)), b.rest)
  }

  lemma {:induction false} FindReplace(a: Entries, b: Entries, key: Key)
    requires AllProper(b)
    ensures Find(Replace(a, b), key) ==
      if Find(b, key).Value? then Value(OverFound(Find(a, key), Find(b, key).tree)) else Find(a, key)
    decreases b
  {
    if b.Entry? {
      var a' := Put(a, b.key, OverFound(Find(a, b.key), b.value));
      FindReplace(a', b.rest, key);
      FindPut(a, b.key, OverFound(Find(a, b.key), b.value), key);
    }
  }

  lemma {:induction false} OverProper(a: Tree, b: Tree)
    requires Proper(a) && Proper(b)
    ensures Proper(Over(a, b))
    decreases b, 1
  {
    if a.Arr? && b.Arr? {
      ReplaceProper(a.entries, b.entries);
    }
  }

  lemma {:induction false} ReplaceProper(a: Entries, b: Entries)
    requires AllProper(a) && AllProper(b)
    ensures AllProper(Replace(a, b))
    decreases b, 0
  {
    if b.Entry? {
      var found := Find(a, b.key);
      FoundProper(a, b.key);
      if found.Value? {
        OverProper(found.tree, b.value);
      }
      PutProper(a, b.key, OverFound(found, b.value));
      ReplaceProper(Put(a, b.key, OverFound(found, b.value)), b.rest);
    }
  }

  // ---- Agreement outside some paths ----

  /** The rest of the paths that start with the key. */
  function Under(ps: set<Path>, key: Key): set<Path> {
    set p | p in ps && p != [] && p[0] == key :: p[1..]
  }

  lemma UnderHas(ps: set<Path>, key: Key, q: Path)
    ensures q in Under(ps, key) <==> [key] + q in ps
  {
    if [key] + q in ps {
      assert ([key] + q)[1..] == q;
    }
    if q in Under(ps, key) {
      var p :| p in ps && p != [] && p[0] == key && p[1..] == q;
      assert p == [key] + q;
    }
  }

  /** The same keys in the same order, and the same values but at the paths and
      below them. */
  ghost predicate Agree(x: Tree, m: Tree, but: set<Path>)
    decreases m, 1
  {
    [] in but || (if x.Arr? && m.Arr? then AgreeAll(x.entries, m.entries, but) else x == m)
  }

  ghost predicate AgreeAll(x: Entries, m: Entries, but: set<Path>)
    decreases m, 0
  {
    if x.Entry? && m.Entry? then x.key == m.key && Agree(x.value, m.value, Under(but, m.key)) && AgreeAll(x.rest, m.rest, but)
    else x == m
  }

  lemma {:induction false} AgreeWithItself(m: Tree, but: set<Path>)
    ensures Agree(m, m, but)
    decreases m, 1
  {
    if m.Arr? {
      AllAgreeWithItself(m.entries, but);
    }
  }

  lemma {:induction false} AllAgreeWithItself(m: Entries, but: set<Path>)
    ensures AgreeAll(m, m, but)
    decreases m, 0
  {
    if m.Entry? {
      AgreeWithItself(m.value, Under(but, m.key));
      AllAgreeWithItself(m.rest, but);
    }
  }

  lemma {:induction false} AgreeEverywhere(x: Tree, m: Tree)
    requires Agree(x, m, {})
    ensures x == m
    decreases m, 1
  {
    if x.Arr? && m.Arr? {
      AllAgreeEverywhere(x.entries, m.entries);
    }
  }

  lemma {:induction false} AllAgreeEverywhere(x: Entries, m: Entries)
    requires AgreeAll(x, m, {})
    ensures x == m
    decreases m, 0
  {
    if x.Entry? && m.Entry? {
      assert Under({}, m.key) == {};
      AgreeEverywhere(x.value, m.value);
      AllAgreeEverywhere(x.rest, m.rest);
    }
  }

  lemma {:induction false} AgreeFind(x: Entries, m: Entries, but: set<Path>, key: Key)
    requires AgreeAll(x, m, but)
    ensures Find(x, key).Value? == Find(m, key).Value?
    ensures Find(x, key).Value? ==> Agree(Find(x, key).tree, Find(m, key).tree, Under(but, key))
  {
    if x.Entry? && m.Entry? {
      AgreeFind(x.rest, m.rest, but, key);
    }
  }

  /** What is apart from all the paths is the same. */
  lemma {:induction false} AgreeGet(x: Tree, m: Tree, but: set<Path>, path: Path)
    requires Agree(x, m, but) && forall p | p in but :: Apart(p, path)
    ensures Get(x, path) == Get(m, path)
    decreases |path|
  {
    if path == [] {
      if but != {} {
        var p :| p in but;
        assert IsPrefix([], p);
      }
      AgreeEverywhere(x, m);
    } else {
      assert [] !in but by {
        assert IsPrefix([], path);
      }
      if x.Arr? && m.Arr? {
        AgreeFind(x.entries, m.entries, but, path[0]);
        forall q | q in Under(but, path[0])
          ensures Apart(q, path[1..])
        {
          UnderHas(but, path[0], q);
          ApartRest([path[0]] + q, path);
          assert ([path[0]] + q)[1..] == q;
        }
        if Find(m.entries, path[0]).Value? {
          AgreeGet(Find(x.entries, path[0]).tree, Find(m.entries, path[0]).tree, Under(but, path[0]), path[1..]);
        }
      }
    }
  }

  lemma {:induction false} PutAgrees(x: Entries, m: Entries, but: set<Path>, less: set<Path>, key: Key, value: Tree)
    requires AgreeAll(x, m, but) && AllProper(m) && Find(m, key).Value?
    requires Agree(value, Find(m, key).tree, Under(less, key))
    requires forall k | k != key :: Under(less, k) == Under(but, k)
    ensures AgreeAll(Put(x, key, value), m, less)
  {
    if m.key == key {
      RestAgrees(x.rest, m.rest, but, less, key);
    } else {
      PutAgrees(x.rest, m.rest, but, less, key, value);
    }
  }

  lemma {:induction false} RestAgrees(x: Entries, m: Entries, but: set<Path>, less: set<Path>, key: Key)
    requires AgreeAll(x, m, but) && Find(m, key).Nothing?
    requires forall k | k != key :: Under(less, k) == Under(but, k)
    ensures AgreeAll(x, m, less)
  {
    if m.Entry? && x.Entry? {
      RestAgrees(x.rest, m.rest, but, less, key);
    }
  }

  /** Putting back what m has at a path makes them agree there too. */
  lemma {:induction false} SetAgrees(x: Tree, m: Tree, but: set<Path>, path: Path, content: Tree)
    requires Agree(x, m, but) && Proper(m) && Get(m, path) == Value(content)
    ensures Agree(Set(x, path, content), m, but - {path})
    decreases |path|
  {
    if path == [] {
      AgreeWithItself(m, but - {path});
    } else if [] !in but {
      var key, rest := path[0], path[1..];
      AgreeFind(x.entries, m.entries, but, key);
      FoundProper(m.entries, key);
      SetAgrees(Find(x.entries, key).tree, Find(m.entries, key).tree, Under(but, key), rest, content);
      UnderLess(but, path);
      PutAgrees(x.entries, m.entries, but, but - {path}, key, Set(Find(x.entries, key).tree, rest, content));
    }
  }

  lemma UnderLess(ps: set<Path>, path: Path)
    requires path != []
    ensures Under(ps - {path}, path[0]) == Under(ps, path[0]) - {path[1..]}
    ensures Under(ps + {path}, path[0]) == Under(ps, path[0]) + {path[1..]}
    ensures forall k | k != path[0] :: Under(ps - {path}, k) == Under(ps, k) && Under(ps + {path}, k) == Under(ps, k)
  {
    assert [path[0]] + path[1..] == path;
    forall q
      ensures q in Under(ps - {path}, path[0]) <==> q in Under(ps, path[0]) - {path[1..]}
      ensures q in Under(ps + {path}, path[0]) <==> q in Under(ps, path[0]) + {path[1..]}
    {
      UnderHas(ps, path[0], q);
      UnderHas(ps - {path}, path[0], q);
      UnderHas(ps + {path}, path[0], q);
      assert [path[0]] + q == path ==> q == path[1..];
    }
    forall k | k != path[0]
      ensures Under(ps - {path}, k) == Under(ps, k) && Under(ps + {path}, k) == Under(ps, k)
    {
      forall q
        ensures q in Under(ps - {path}, k) <==> q in Under(ps, k)
        ensures q in Under(ps + {path}, k) <==> q in Under(ps, k)
      {
        UnderHas(ps, k, q);
        UnderHas(ps - {path}, k, q);
        UnderHas(ps + {path}, k, q);
      }
    }
  }

  // ---- A tree that already has everything of another ----

  /** m has what d has, but at the paths and below them. */
  ghost predicate Has(m: Tree, d: Tree, but: set<Path>)
    decreases d, 1
  {
    [] in but || (if d.Arr? then m.Arr? && HasAll(m.entries, d.entries, but) else m == d)
  }

  ghost predicate HasAll(m: Entries, d: Entries, but: set<Path>)
    decreases d, 0
  {
    d.Entry? ==>
      (Find(m, d.key).Value? && Has(Find(m, d.key).tree, d.value, Under(but, d.key)) && HasAll(m, d.rest, but))
  }

  lemma {:induction false} HasFind(m: Entries, d: Entries, but: set<Path>, key: Key)
    requires HasAll(m, d, but) && Find(d, key).Value?
    ensures Find(m, key).Value? && Has(Find(m, key).tree, Find(d, key).tree, Under(but, key))
  {
    if d.key != key {
      HasFind(m, d.rest, but, key);
    }
  }

  /** Laying d over anything leaves all of d. */
  lemma {:induction false} OverHas(t: Tree, d: Tree)
    requires Proper(d)
    ensures Has(Over(t, d), d, {})
    decreases d, 1
  {
    if d.Arr? {
      var te := EntriesOf(t);
      if t.Arr? {
        ReplaceHas(te, d.entries, d.entries);
      } else {
        HasItself(d.entries, d.entries);
      }
    }
  }

  lemma {:induction false} ReplaceHas(a: Entries, d: Entries, part: Entries)
    requires AllProper(d) && AllProper(part) && forall k | Find(part, k).Value? :: Find(d, k) == Find(part, k)
    ensures HasAll(Replace(a, d), part, {})
    decreases part, 0
  {
    if part.Entry? {
      FindReplace(a, d, part.key);
      assert Find(d, part.key) == Value(part.value);
      assert Under({}, part.key) == {};
      OverFoundHas(Find(a, part.key), part.value);
      forall k | Find(part.rest, k).Value?
        ensures Find(d, k) == Find(part.rest, k)
      {
        assert k != part.key;
        assert Find(part, k) == Find(part.rest, k);
      }
      ReplaceHas(a, d, part.rest);
    }
  }

  lemma {:induction false} OverFoundHas(a: Found, d: Tree)
    requires Proper(d)
    ensures Has(OverFound(a, d), d, {})
    decreases d, 2
  {
    if a.Value? {
      OverHas(a.tree, d);
    } else {
      OverHas(Leaf(Null), d);
    }
  }

  lemma {:induction false} HasItself(m: Entries, part: Entries)
    requires AllProper(part) && forall k | Find(part, k).Value? :: Find(m, k) == Find(part, k)
    ensures HasAll(m, part, {})
    decreases part, 0
  {
    if part.Entry? {
      assert Find(m, part.key) == Value(part.value);
      assert Under({}, part.key) == {};
      OverHas(Leaf(Null), part.value);
      forall k | Find(part.rest, k).Value?
        ensures Find(m, k) == Find(part.rest, k)
      {
        assert k != part.key;
        assert Find(part, k) == Find(part.rest, k);
      }
      HasItself(m, part.rest);
    }
  }

  /** Writing at a path of d loses only what is there. */
  lemma {:induction false} SetHas(m: Tree, d: Tree, but: set<Path>, path: Path, content: Tree)
    requires Has(m, d, but) && Proper(d) && Get(d, path).Value?
    ensures Has(Set(m, path, content), d, but + {path})
    decreases |path|
  {
    if path != [] && [] !in but {
      var key, rest := path[0], path[1..];
      HasFind(m.entries, d.entries, but, key);
      FoundProper(d.entries, key);
      SetHas(Find(m.entries, key).tree, Find(d.entries, key).tree, Under(but, key), rest, content);
      UnderLess(but, path);
      PutHas(m.entries, d.entries, but, but + {path}, key, Set(Find(m.entries, key).tree, rest, content), Find(d.entries, key).tree);
    }
  }

  lemma {:induction false} PutHas(m: Entries, d: Entries, but: set<Path>, more: set<Path>, key: Key, value: Tree, was: Tree)
    requires HasAll(m, d, but) && AllProper(d) && Has(value, was, Under(more, key))
    requires Find(d, key).Value? ==> Find(d, key).tree == was
    requires forall k | k != key :: Under(more, k) == Under(but, k)
    ensures HasAll(Put(m, key, value), d, more)
    decreases d
  {
    if d.Entry? {
      FindPut(m, key, value, d.key);
      PutHas(m, d.rest, but, more, key, value, was);
    }
  }

  /** Laying over m what it has changes it only at the paths. */
  lemma {:induction false} OverAgrees(m: Tree, d: Tree, but: set<Path>)
    requires Has(m, d, but) && Proper(m) && Proper(d)
    ensures Agree(Over(m, d), m, but)
    decreases d, 1
  {
    if [] !in but {
      if d.Arr? {
        AllAgreeWithItself(m.entries, but);
        ReplaceAgrees(m.entries, m.entries, d.entries, but);
      } else {
        AgreeWithItself(m, but);
      }
    }
  }

  lemma {:induction false} ReplaceAgrees(x: Entries, m: Entries, d: Entries, but: set<Path>)
    requires HasAll(m, d, but) && AllProper(m) && AllProper(d) && AgreeAll(x, m, but)
    requires forall k | Find(d, k).Value? :: Find(x, k) == Find(m, k)
    ensures AgreeAll(Replace(x, d), m, but)
    decreases d, 0
  {
    if d.Entry? {
      var was := Find(m, d.key).tree;
      assert Find(x, d.key) == Find(m, d.key);
      FoundProper(m, d.key);
      OverAgrees(was, d.value, Under(but, d.key));
      var now := Over(was, d.value);
      PutAgrees(x, m, but, but, d.key, now);
      forall k | Find(d.rest, k).Value?
        ensures Find(Put(x, d.key, now), k) == Find(m, k)
      {
        assert k != d.key;
        FindPut(x, d.key, now, k);
        assert Find(d, k) == Find(d.rest, k);
      }
      ReplaceAgrees(Put(x, d.key, now), m, d.rest, but);
    }
  }

  // ---- Several writes ----

  datatype Write = Write(path: Path, content: Tree)

  function WriteAll(t: Tree, ws: seq<Write>): Tree {
    if ws == [] then t else Set(WriteAll(t, ws[..|ws| - 1]), ws[|ws| - 1].path, ws[|ws| - 1].content)
  }

  lemma WritePush(t: Tree, ws: seq<Write>, w: Write)
    ensures WriteAll(t, ws + [w]) == Set(WriteAll(t, ws), w.path, w.content)
  {
    assert (ws + [w])[..|ws|] == ws;
  }

  /** Writes that do not disturb each other. */
  ghost predicate Tidy(ws: seq<Write>) {
    && (forall w | w in ws :: Proper(w.content))
    && forall v, w | v in ws && w in ws :: v == w || Apart(v.path, w.path)
  }

  ghost predicate AllApart(ws: seq<Write>, path: Path) {
    forall w | w in ws :: Apart(w.path, path)
  }

  function PathsOf(ws: seq<Write>): set<Path> {
    set w | w in ws :: w.path
  }

  lemma {:induction false} WritesApart(t: Tree, ws: seq<Write>, path: Path)
    requires AllApart(ws, path)
    ensures Get(WriteAll(t, ws), path) == Get(t, path)
  {
    if ws != [] {
      var n := |ws| - 1;
      assert ws[n] in ws;
      WritesApart(t, ws[..n], path);
      GetSetApart(WriteAll(t, ws[..n]), ws[n].path, ws[n].content, path);
    }
  }

  lemma {:induction false} WritesStand(t: Tree, ws: seq<Write>, w: Write)
    requires Tidy(ws) && w in ws
    ensures Get(WriteAll(t, ws), w.path) == Value(w.content)
  {
    var n := |ws| - 1;
    var x := WriteAll(t, ws[..n]);
    assert ws == ws[..n] + [ws[n]];
    GetSet(x, ws[n].path, ws[n].content);
    if ws[n] != w {
      WritesStand(t, ws[..n], w);
      GetSetApart(x, ws[n].path, ws[n].content, w.path);
    }
  }

  lemma {:induction false} WritesProper(t: Tree, ws: seq<Write>)
    requires Proper(t) && forall w | w in ws :: Proper(w.content)
    ensures Proper(WriteAll(t, ws))
  {
    if ws != [] {
      var n := |ws| - 1;
      assert ws[n] in ws;
      WritesProper(t, ws[..n]);
      SetProper(WriteAll(t, ws[..n]), ws[n].path, ws[n].content);
    }
  }

  lemma {:induction false} WritesHave(t: Tree, d: Tree, ws: seq<Write>)
    requires Has(t, d, {}) && Proper(d) && forall w | w in ws :: Get(d, w.path).Value?
    ensures Has(WriteAll(t, ws), d, PathsOf(ws))
  {
    if ws == [] {
      assert PathsOf(ws) == {};
    } else {
      var n := |ws| - 1;
      assert ws == ws[..n] + [ws[n]];
      WritesHave(t, d, ws[..n]);
      SetHas(WriteAll(t, ws[..n]), d, PathsOf(ws[..n]), ws[n].path, ws[n].content);
      assert PathsOf(ws) == PathsOf(ws[..n]) + {ws[n].path};
    }
  }

  lemma PathsPush(ws: seq<Write>, w: Write, but: set<Path>)
    ensures PathsOf(ws + [w]) == PathsOf(ws) + {w.path}
    ensures but - PathsOf(ws + [w]) == but - PathsOf(ws) - {w.path}
  {
  }

  lemma {:induction false} WritesRestore(x: Tree, m: Tree, ws: seq<Write>, but: set<Path>)
    requires Agree(x, m, but) && Proper(m) && forall w | w in ws :: Get(m, w.path) == Value(w.content)
    ensures Agree(WriteAll(x, ws), m, but - PathsOf(ws))
  {
    if ws == [] {
      assert but - PathsOf(ws) == but;
    } else {
      var front, last := ws[..|ws| - 1], ws[|ws| - 1];
      assert ws == front + [last] && last in ws;
      WritesRestore(x, m, front, but);
      SetAgrees(WriteAll(x, front), m, but - PathsOf(front), last.path, last.content);
      PathsPush(front, last, but);
    }
  }

  /** Laying d over a tree and writing at some of its paths: doing both again
      changes nothing. */
  lemma RewriteAgain(t: Tree, d: Tree, ws: seq<Write>)
    requires Proper(t) && Proper(d) && Tidy(ws) && forall w | w in ws :: Get(d, w.path).Value?
    ensures var m := WriteAll(Over(t, d), ws);
      WriteAll(Over(m, d), ws) == m && Proper(m) && Agree(Over(m, d), m, PathsOf(ws))
  {
    var u := Over(t, d);
    var m := WriteAll(u, ws);
    OverProper(t, d);
    WritesProper(u, ws);
    OverHas(t, d);
    WritesHave(u, d, ws);
    OverAgrees(m, d, PathsOf(ws));
    forall w | w in ws
      ensures Get(m, w.path) == Value(w.content)
    {
      WritesStand(u, ws, w);
    }
    WritesRestore(Over(m, d), m, ws, PathsOf(ws));
    assert PathsOf(ws) - PathsOf(ws) == {};
    AgreeEverywhere(WriteAll(Over(m, d), ws), m);
  }

  // ---- Keys ----

  function KeysOf(es: Entries): seq<Key> {
    if es.End? then [] else [es.key] + KeysOf(es.rest)
  }

  /** The keys of the array at a path; none if there is no array. */
  function KeysAt(t: Tree, path: Path): seq<Key> {
    var found := Get(t, path);
    if found.Value? && found.tree.Arr? then KeysOf(found.tree.entries) else []
  }

  lemma {:induction false} AgreeKeys(x: Tree, m: Tree, but: set<Path>, path: Path)
    requires Agree(x, m, but) && forall p | p in but :: !IsPrefix(p, path)
    ensures Get(x, path).Value? == Get(m, path).Value?
    ensures Get(x, path).Value? ==> (Get(x, path).tree.Arr? == Get(m, path).tree.Arr?) && (Get(x, path).tree.Leaf? ==> Get(x, path) == Get(m, path))
    ensures KeysAt(x, path) == KeysAt(m, path)
    decreases |path|
  {
    assert [] !in but by {
      assert IsPrefix([], path);
    }
    if x.Arr? && m.Arr? {
      if path == [] {
        SameKeys(x.entries, m.entries, but);
      } else {
        AgreeFind(x.entries, m.entries, but, path[0]);
        forall q | q in Under(but, path[0])
          ensures !IsPrefix(q, path[1..])
        {
          UnderHas(but, path[0], q);
          PrefixRest([path[0]] + q, path);
          assert ([path[0]] + q)[1..] == q;
        }
        if Find(m.entries, path[0]).Value? {
          AgreeKeys(Find(x.entries, path[0]).tree, Find(m.entries, path[0]).tree, Under(but, path[0]), path[1..]);
        }
      }
    }
  }

  lemma {:induction false} SameKeys(x: Entries, m: Entries, but: set<Path>)
    requires AgreeAll(x, m, but)
    ensures KeysOf(x) == KeysOf(m)
  {
    if x.Entry? && m.Entry? {
      SameKeys(x.rest, m.rest, but);
    }
  }

  /** Writing where something is changes only what is there. */
  lemma {:induction false} SetAgreesBut(t: Tree, path: Path, content: Tree)
    requires Proper(t) && Get(t, path).Value?
    ensures Agree(Set(t, path, content), t, {path})
    decreases |path|
  {
    if path != [] {
      var key, rest := path[0], path[1..];
      FoundProper(t.entries, key);
      SetAgreesBut(Find(t.entries, key).tree, rest, content);
      AllAgreeWithItself(t.entries, {});
      UnderLess({}, path);
      assert {} + {path} == {path} && Under({}, key) == {};
      assert {} + {rest} == {rest};
      forall k | k != key
        ensures Under({path}, k) == Under({}, k)
      {
      }
      PutAgrees(t.entries, t.entries, {}, {path}, key, Set(Find(t.entries, key).tree, rest, content));
    }
  }

  lemma {:induction false} HasGet(m: Tree, d: Tree, path: Path)
    requires Has(m, d, {}) && Get(d, path).Value?
    ensures Get(m, path).Value?
    decreases |path|
  {
    if path != [] {
      HasFind(m.entries, d.entries, {}, path[0]);
      assert Under({}, path[0]) == {};
      HasGet(Find(m.entries, path[0]).tree, Find(d.entries, path[0]).tree, path[1..]);
    }
  }

  /** Writes at paths that are there add no keys above them. */
  lemma {:induction false} WritesKeepKeys(t: Tree, ws: seq<Write>, path: Path)
    requires Proper(t) && Tidy(ws)
    requires forall w | w in ws :: Get(t, w.path).Value? && !IsPrefix(w.path, path)
    ensures KeysAt(WriteAll(t, ws), path) == KeysAt(t, path)
  {
    if ws != [] {
      var front, last := ws[..|ws| - 1], ws[|ws| - 1];
      assert ws == front + [last] && last in ws;
      WritesKeepKeys(t, front, path);
      WritesProper(t, front);
      var x := WriteAll(t, front);
      assert Get(x, last.path).Value? by {
        if last in front {
          WritesStand(t, front, last);
        } else {
          WritesApart(t, front, last.path);
        }
      }
      SetAgreesBut(x, last.path, last.content);
      AgreeKeys(Set(x, last.path, last.content), x, {last.path}, path);
    }
  }
}
