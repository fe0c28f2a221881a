/** Merging data that carries presets of several origins: when it can be merged
    twice, and that it cannot always. */
module ThemeMergeOrigins {
  import opened PhpArray
  import opened ThemeMerge
  import opened ThemeMergeLaws

  // ---- When the filter keeps the same ----

  lemma {:induction false} KeptIsKept(es: Entries, a: seq<Tree>, b: seq<Tree>, n: nat)
    requires forall item | HasItem(es, item) :: Kept(item, a) == Kept(item, b)
    ensures KeepItems(es, a, n) == KeepItems(es, b, n)
  {
    if es.Entry? {
      assert HasItem(es, es.value);
      assert forall item | HasItem(es.rest, item) :: HasItem(es, item);
      KeptIsKept(es.rest, a, b, n);
      KeptIsKept(es.rest, a, b, n + 1);
    }
  }

  /** Filtering by two lists of slugs gives the same if and only if each item is
      kept by both or by neither. */
  lemma SameKeptExactly(es: Entries, a: seq<Tree>, b: seq<Tree>)
    ensures KeepItems(es, a, 0) == KeepItems(es, b, 0) <==> forall item | HasItem(es, item) :: Kept(item, a) == Kept(item, b)
  {
    if KeepItems(es, a, 0) == KeepItems(es, b, 0) {
      forall item | HasItem(es, item)
        ensures Kept(item, a) == Kept(item, b)
      {
        KeptItems(es, a, 0, item);
        KeptItems(es, b, 0, item);
      }
    } else {
      if forall item | HasItem(es, item) :: Kept(item, a) == Kept(item, b) {
        KeptIsKept(es, a, b, 0);
      }
    }
  }

  /** The items of a theme preset with the names of the defaults. */
  function NamedItems(v: Tree, d: Tree, job: Job): Entries
    requires job.PresetOf?
  {
    var content := GetOr(d, PathOf(job), Leaf(Null));
    var defaults := EntriesOf(GetOr(v, PathOf(DefaultOf(job)), Leaf(Null)));
    EntriesOf(if job.m.names && content.Arr? then Arr(NameItems(content.entries, defaults)) else content)
  }

  /** A theme preset comes out the same by the defaults of u and of x exactly when
      overriding is allowed, or no item of it has a slug that only one of them has;
      where there is no default slug at all the content is not even renumbered. */
  lemma SameFilterExactly(v: Tree, u: Tree, x: Tree, d: Tree, job: Job)
    requires job.PresetOf? && job.origin == "theme"
    requires DefaultSlugs(u, SETTINGS, job.m) + DefaultSlugs(v, job.node, job.m) != []
    requires DefaultSlugs(x, SETTINGS, job.m) + DefaultSlugs(v, job.node, job.m) != []
    ensures ContentOf(v, u, d, job) == ContentOf(v, x, d, job) <==>
      !Prevents(v, job.node, job.m) || forall item | HasItem(NamedItems(v, d, job), item) ::
        Kept(item, DefaultSlugs(u, SETTINGS, job.m) + DefaultSlugs(v, job.node, job.m)) ==
        Kept(item, DefaultSlugs(x, SETTINGS, job.m) + DefaultSlugs(v, job.node, job.m))
  {
    var a := DefaultSlugs(u, SETTINGS, job.m) + DefaultSlugs(v, job.node, job.m);
    var b := DefaultSlugs(x, SETTINGS, job.m) + DefaultSlugs(v, job.node, job.m);
    SameKeptExactly(NamedItems(v, d, job), a, b);
  }

  // ---- Laying over, path by path ----

  lemma {:induction false} GetOver(a: Tree, b: Tree, path: Path)
    requires Proper(b) && Get(b, path).Value?
    ensures Get(Over(a, b), path) == Value(OverFound(Get(a, path), Get(b, path).tree))
    decreases |path|
  {
    if path != [] && a.Arr? {
      FindReplace(a.entries, b.entries, path[0]);
      FoundProper(b.entries, path[0]);
      if Find(a.entries, path[0]).Value? {
        GetOver(Find(a.entries, path[0]).tree, Find(b.entries, path[0]).tree, path[1..]);
      }
    }
  }

  lemma {:induction false} NothingScaled(u: Tree, d: Tree, flat: Entries, i: nat, generate: Generator)
    requires i <= |ORIGINS| && forall o :: !IsSet(Get(d, ScalePath(o)))
    ensures Scaled(u, d, flat, i, generate) == d
    decreases |ORIGINS| - i
  {
    if i < |ORIGINS| {
      var o := ORIGINS[i];
      NothingScaled(u, d, PutAll(flat, EntriesOf(GetOr(u, ScalePath(o), Arr(End)))), i + 1, generate);
    }
  }

  // ---- A merge that a second one changes ----

  const PALETTE := Meta("color", "palette", Setting("color", "defaultPalette"), false)

  function Slugged(slug: string): Tree {
    Arr(Entry(Str("slug"), Leaf(Other(slug)), End))
  }

  /** Settings that protect the default palette and have the given presets. */
  function Palettes(origins: Entries): Tree {
    Arr(Entry(Str("settings"), Arr(Entry(Str("color"),
      Arr(Entry(Str("defaultPalette"), Leaf(Flag(true)), Entry(Str("palette"), Arr(origins), End))), End)), End))
  }

  function OneSlug(a: string): Entries {
    Entry(Int(0), Slugged(a), End)
  }

  function TwoSlugs(a: string, b: string): Entries {
    Entry(Int(0), Slugged(a), Entry(Int(1), Slugged(b), End))
  }

  lemma PalettesGet(origins: Entries, origin: string)
    ensures Get(Palettes(origins), OriginPath(SETTINGS, PALETTE, origin)) == Find(origins, Str(origin))
    ensures Get(Palettes(origins), GuardPath(SETTINGS, PALETTE.guard)) == Value(Leaf(Flag(true)))
    ensures !IsSet(Get(Palettes(origins), ScalePath(origin))) && IsSet(Get(Palettes(origins), SETTINGS))
  {
    var t := Palettes(origins);
    var settings := t.entries.value;
    var color := settings.entries.value;
    var path, guard, scale := OriginPath(SETTINGS, PALETTE, origin), GuardPath(SETTINGS, PALETTE.guard), ScalePath(origin);
    assert path[1..] == [Str("color"), Str("palette"), Str(origin)];
    assert path[1..][1..] == [Str("palette"), Str(origin)];
    assert path[1..][1..][1..] == [Str(origin)];
    assert Find(color.entries, Str("palette")) == Value(Arr(origins));
    assert Get(color, path[1..][1..]) == Get(Arr(origins), [Str(origin)]) == Find(origins, Str(origin));
    assert guard[1..] == [Str("color"), Str("defaultPalette")];
    assert guard[1..][1..] == [Str("defaultPalette")];
    assert Get(color, guard[1..][1..]) == Value(Leaf(Flag(true)));
    assert scale[1..] == [Str("spacing"), Str("spacingScale"), Str(origin)];
    assert Find(settings.entries, Str("spacing")) == Nothing;
    assert Get(settings, scale[1..]) == Nothing;
  }

  lemma PalettesProper(origins: Entries)
    requires AllProper(origins)
    ensures Proper(Palettes(origins))
  {
    var color := Palettes(origins).entries.value.entries.value;
    assert Proper(color) by {
      assert Find(color.entries.rest, Str("defaultPalette")).Nothing?;
      assert AllProper(color.entries.rest);
    }
    assert AllProper(Palettes(origins).entries.value.entries);
  }

  lemma SlugsProper(a: string, b: string)
    ensures AllProper(OneSlug(a)) && AllProper(TwoSlugs(a, b))
    ensures SlugsIn(OneSlug(a)) == [Leaf(Other(a))] && SlugsIn(TwoSlugs(a, b)) == [Leaf(Other(a)), Leaf(Other(b))]
  {
    assert SlugOf(Slugged(a)) == Value(Leaf(Other(a))) && SlugOf(Slugged(b)) == Value(Leaf(Other(b)));
    assert SlugsIn(Entry(Int(1), Slugged(b), End)) == [Leaf(Other(b))];
    SlugProper(a);
    SlugProper(b);
    assert AllProper(End);
    assert AllProper(Entry(Int(1), Slugged(b), End));
  }

  lemma SlugProper(a: string)
    ensures Proper(Slugged(a))
  {
    var es := Slugged(a).entries;
    assert Proper(es.value) && es.rest == End;
    assert AllProper(es.rest);
    assert AllProper(es);
  }

  /** Laying one slug over the first of them changes nothing. */
  lemma OverFirst(a: string, b: string)
    ensures Over(Arr(TwoSlugs(a, b)), Arr(OneSlug(a))) == Arr(TwoSlugs(a, b))
    ensures Over(Arr(OneSlug(a)), Arr(OneSlug(a))) == Arr(OneSlug(a))
  {
    SameSlug(a);
    assert Replace(TwoSlugs(a, b), OneSlug(a)) == Put(TwoSlugs(a, b), Int(0), Slugged(a));
    assert Replace(OneSlug(a), OneSlug(a)) == Put(OneSlug(a), Int(0), Slugged(a));
  }

  lemma SameSlug(a: string)
    ensures Over(Slugged(a), Slugged(a)) == Slugged(a)
  {
    var es := Slugged(a).entries;
    assert Over(Leaf(Other(a)), Leaf(Other(a))) == Leaf(Other(a));
    assert Replace(es, es) == Put(es, Str("slug"), Leaf(Other(a)));
  }

  /** A default that index-merging leaves over filters the theme's preset the
      first time, and is gone the second time: with two different slugs, of which
      the defaults coming in have the first and the theme's preset the second. */
  lemma LeftoverDefaultIsLost(t: Tree, d: Tree, table: seq<Meta>, generate: Generator, a: string, b: string)
    requires a != b && GoodTable(table) && PALETTE in table && ReturnsProper(generate)
    requires t == Palettes(Entry(Str("default"), Arr(TwoSlugs(a, b)), End)) && d == Palettes(Coming(a, b))
    ensures Prepared(t, d, table, generate)
    ensures var m := Merged(t, d, table, generate);
      && Get(m, OriginPath(SETTINGS, PALETTE, "theme")) == Value(Arr(End))
      && Merged(m, d, table, generate) != m
  {
    LeftoverSetUp(t, d, table, generate, a, b);
    var m, u := Merged(t, d, table, generate), Over(t, d);
    var job := PresetOf(SETTINGS, PALETTE, "theme");
    LeftoverReads(t, d, table, generate, a, b);
    LeftoverFilter(m, u, d, a, b);
    LeftoverKept(m, Over(m, d), d, a, b);
    JobStands(t, d, table, generate, job);
    MergeTwiceExactly(t, d, table, generate);
    assert ContentOf(m, Over(m, d), d, job) != ContentOf(m, u, d, job);
  }

  /** The presets that come in, in the witness. */
  function Coming(a: string, b: string): Entries {
    Entry(Str("default"), Arr(OneSlug(a)), Entry(Str("theme"), Arr(OneSlug(b)), End))
  }

  lemma ComingFinds(a: string, b: string)
    ensures Find(Coming(a, b), Str("default")) == Value(Arr(OneSlug(a))) && Find(Coming(a, b), Str("theme")) == Value(Arr(OneSlug(b)))
    ensures AllProper(Coming(a, b))
  {
    var theme := Coming(a, b).rest;
    SlugsProper(a, b);
    SlugsProper(b, a);
    assert Find(theme, Str("theme")) == Value(Arr(OneSlug(b)));
    assert AllProper(theme.rest) && AllProper(theme);
    assert Find(theme, Str("default")).Nothing?;
  }

  lemma ComingData(u: Tree, d: Tree, generate: Generator, a: string, b: string)
    requires d == Palettes(Coming(a, b))
    ensures Proper(d) && Constructed(d) && Scaled(u, d, End, 0, generate) == d && SETTINGS in SettingNodes(d)
    ensures Active(d, PresetOf(SETTINGS, PALETTE, "default")) && Active(d, PresetOf(SETTINGS, PALETTE, "theme"))
  {
    ComingFinds(a, b);
    PalettesProper(Coming(a, b));
    forall o
      ensures !IsSet(Get(d, ScalePath(o)))
    {
      PalettesGet(Coming(a, b), o);
    }
    NothingScaled(u, d, End, 0, generate);
    PalettesGet(Coming(a, b), "default");
    PalettesGet(Coming(a, b), "theme");
    assert SettingNodes(d)[0] == SETTINGS;
  }

  /** The witness is data as the constructor prepares it, and both presets come in. */
  lemma LeftoverSetUp(t: Tree, d: Tree, table: seq<Meta>, generate: Generator, a: string, b: string)
    requires GoodTable(table) && PALETTE in table && ReturnsProper(generate)
    requires t == Palettes(Entry(Str("default"), Arr(TwoSlugs(a, b)), End)) && d == Palettes(Coming(a, b))
    ensures Prepared(t, d, table, generate) && DataOf(t, d, generate) == d
    ensures forall o | o == "default" || o == "theme" ::
      PresetOf(SETTINGS, PALETTE, o) in JobsOf(t, d, table, generate) && Active(d, PresetOf(SETTINGS, PALETTE, o))
  {
    ComingData(Over(t, d), d, generate, a, b);
    SlugsProper(a, b);
    PalettesProper(Entry(Str("default"), Arr(TwoSlugs(a, b)), End));
    assert ORIGINS[0] == "default" && ORIGINS[2] == "theme";
    SettingJobsHave(SettingNodes(d), table, SETTINGS, PALETTE, "default");
    SettingJobsHave(SettingNodes(d), table, SETTINGS, PALETTE, "theme");
  }

  /** What the two merges read: the first both default slugs, the second one. */
  lemma LeftoverReads(t: Tree, d: Tree, table: seq<Meta>, generate: Generator, a: string, b: string)
    requires Prepared(t, d, table, generate) && DataOf(t, d, generate) == d
    requires forall o | o == "default" || o == "theme" ::
      PresetOf(SETTINGS, PALETTE, o) in JobsOf(t, d, table, generate) && Active(d, PresetOf(SETTINGS, PALETTE, o))
    requires t == Palettes(Entry(Str("default"), Arr(TwoSlugs(a, b)), End)) && d == Palettes(Coming(a, b))
    ensures var m := Merged(t, d, table, generate);
      && DefaultSlugs(Over(t, d), SETTINGS, PALETTE) == [Leaf(Other(a)), Leaf(Other(b))]
      && DefaultSlugs(m, SETTINGS, PALETTE) == DefaultSlugs(Over(m, d), SETTINGS, PALETTE) == [Leaf(Other(a))]
      && Prevents(m, SETTINGS, PALETTE)
  {
    var m := Merged(t, d, table, generate);
    var path := OriginPath(SETTINGS, PALETTE, "default");
    PalettesGet(Entry(Str("default"), Arr(TwoSlugs(a, b)), End), "default");
    PalettesGet(Coming(a, b), "default");
    ComingFinds(a, b);
    JobStands(t, d, table, generate, PresetOf(SETTINGS, PALETTE, "default"));
    GetOver(t, d, path);
    GetOver(m, d, path);
    OverFirst(a, b);
    SlugsProper(a, b);
    LeftoverIsGuarded(t, d, table, generate, a, b);
  }

  lemma LeftoverIsGuarded(t: Tree, d: Tree, table: seq<Meta>, generate: Generator, a: string, b: string)
    requires Prepared(t, d, table, generate) && DataOf(t, d, generate) == d && d == Palettes(Coming(a, b))
    requires PresetOf(SETTINGS, PALETTE, "theme") in JobsOf(t, d, table, generate) && Active(d, PresetOf(SETTINGS, PALETTE, "theme"))
    ensures Prevents(Merged(t, d, table, generate), SETTINGS, PALETTE)
  {
    MergedReads(t, d, table, generate);
    GuardComesIn(t, Coming(a, b));
    GuardHolds(Merged(t, d, table, generate), Over(t, d), d, PresetOf(SETTINGS, PALETTE, "theme"));
  }

  lemma GuardComesIn(t: Tree, origins: Entries)
    requires Proper(Palettes(origins))
    ensures Get(Over(t, Palettes(origins)), GuardPath(SETTINGS, PALETTE.guard)) == Value(Leaf(Flag(true)))
  {
    PalettesGet(origins, "default");
    GetOver(t, Palettes(origins), GuardPath(SETTINGS, PALETTE.guard));
  }

  lemma GuardHolds(m: Tree, u: Tree, d: Tree, job: Job)
    requires job.PresetOf? && job.origin == "theme" && job.m.guard.Setting? && ReadsAre(m, u, d, job)
    requires Get(u, GuardPath(job.node, job.m.guard)) == Value(Leaf(Flag(true)))
    ensures Prevents(m, job.node, job.m)
  {
  }

  lemma ThemePalette(d: Tree, a: string, b: string)
    requires d == Palettes(Coming(a, b))
    ensures GetOr(d, OriginPath(SETTINGS, PALETTE, "theme"), Leaf(Null)) == Arr(OneSlug(b))
  {
    ComingFinds(a, b);
    PalettesGet(Coming(a, b), "theme");
  }

  lemma LeftoverFilter(m: Tree, u: Tree, d: Tree, a: string, b: string)
    requires d == Palettes(Coming(a, b))
    requires Prevents(m, SETTINGS, PALETTE) && DefaultSlugs(u, SETTINGS, PALETTE) == [Leaf(Other(a)), Leaf(Other(b))]
    ensures ContentOf(m, u, d, PresetOf(SETTINGS, PALETTE, "theme")) == Arr(End)
  {
    ThemePalette(d, a, b);
    var slugs := DefaultSlugs(u, SETTINGS, PALETTE) + DefaultSlugs(m, SETTINGS, PALETTE);
    assert slugs[1] == Leaf(Other(b));
    assert KeepItems(End, slugs, 0) == End;
    assert KeepItems(OneSlug(b), slugs, 0) == End;
  }

  lemma LeftoverKept(m: Tree, x: Tree, d: Tree, a: string, b: string)
    requires a != b && d == Palettes(Coming(a, b))
    requires Prevents(m, SETTINGS, PALETTE)
    requires DefaultSlugs(m, SETTINGS, PALETTE) == DefaultSlugs(x, SETTINGS, PALETTE) == [Leaf(Other(a))]
    ensures ContentOf(m, x, d, PresetOf(SETTINGS, PALETTE, "theme")) == Arr(OneSlug(b))
  {
    ThemePalette(d, a, b);
    var slugs := DefaultSlugs(x, SETTINGS, PALETTE) + DefaultSlugs(m, SETTINGS, PALETTE);
    assert slugs == [Leaf(Other(a)), Leaf(Other(a))];
    assert SlugOf(Slugged(b)) == Value(Leaf(Other(b)));
    assert KeepItems(End, slugs, 1) == End;
    assert KeepItems(OneSlug(b), slugs, 0) == OneSlug(b);
  }
}
