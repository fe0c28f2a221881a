/** What a merge does with the data that comes in, path by path: which parts of it
    replace what was there, which presets of a theme are left out or named, where
    the spacing sizes come from, and what stays as it was. */
module ThemeMergeIncoming {
  import opened Sequences
  import opened PhpArray
  import opened ThemeMerge
  import opened ThemeMergeLaws
  import opened ThemeMergeOrigins

  // ---- What a merge looks for ----

  /** The settings, or those of any one block. */
  predicate SettingsPath(node: Path) {
    node == [Str("settings")] || (|node| == 3 && node[0] == Str("settings") && node[1] == Str("blocks"))
  }

  /** The styles, or those of any one block. */
  predicate StylesPath(node: Path) {
    node == [Str("styles")] || (|node| == 3 && node[0] == Str("styles") && node[1] == Str("blocks"))
  }

  predicate IsOrigin(o: string) {
    o == "default" || o == "blocks" || o == "theme" || o == "custom"
  }

  predicate Target(job: Job, table: seq<Meta>) {
    match job
    case UnitsOf(node) => SettingsPath(node)
    case PresetOf(node, m, o) => SettingsPath(node) && m in table && IsOrigin(o)
    case BackgroundOf(node) => StylesPath(node)
  }

  lemma {:induction false} GetConcat(t: Tree, p: Path, q: Path)
    ensures Get(t, p + q) == if Get(t, p).Value? then Get(Get(t, p).tree, q) else Nothing
    decreases |p|
  {
    if p == [] {
      assert p + q == q;
    } else if t.Arr? && Find(t.entries, p[0]).Value? {
      assert (p + q)[1..] == p[1..] + q;
      GetConcat(Find(t.entries, p[0]).tree, p[1..], q);
    }
  }

  lemma {:induction false} KeysHave(es: Entries, key: Key)
    ensures key in KeysOf(es) <==> Find(es, key).Value?
  {
    if es.Entry? {
      KeysHave(es.rest, key);
    }
  }

  /** What is found below a node is found below one that is listed. */
  lemma NodeIsListed(t: Tree, top: Path, node: Path, rest: Path)
    requires Get(t, node + rest).Value? && rest != []
    requires |node| == |top| + 2 && node[..|top| + 1] == top + [Str("blocks")]
    ensures node in Nodes(top + [Str("blocks")], KeysAt(t, top + [Str("blocks")]))
  {
    var blocks, key := top + [Str("blocks")], node[|top| + 1];
    assert node == blocks + [key] && node + rest == blocks + ([key] + rest);
    GetConcat(t, blocks, [key] + rest);
    var found := Get(t, blocks).tree;
    assert ([key] + rest)[0] == key;
    KeysHave(EntriesOf(found), key);
    var keys := KeysAt(t, blocks);
    var i :| 0 <= i < |keys| && keys[i] == key;
    assert Nodes(blocks, keys)[i] == node;
  }

  lemma SettingNodesHave(data: Tree, node: Path, rest: Path)
    requires SettingsPath(node) && rest != [] && Get(data, node + rest).Value?
    ensures node in SettingNodes(data)
  {
    var top: Path := [Str("settings")];
    var below := (node + rest)[1..];
    assert node + rest == top + below;
    GetConcat(data, top, below);
    assert Get(data, top).tree.Arr? by {
      assert below != [];
    }
    if |node| == 3 {
      assert node[..2] == top + [Str("blocks")];
      NodeIsListed(data, top, node, rest);
      var blocks := Nodes(top + [Str("blocks")], KeysAt(data, top + [Str("blocks")]));
      assert SettingNodes(data) == [top] + blocks;
    } else {
      assert SettingNodes(data)[0] == node;
    }
  }

  lemma StyleNodesHave(t: Tree, node: Path, rest: Path)
    requires StylesPath(node) && rest != [] && Get(t, node + rest).Value?
    ensures node in StyleNodes(t)
  {
    var top: Path := [Str("styles")];
    if |node| == 3 {
      assert node[..2] == top + [Str("blocks")] == STYLE_BLOCKS;
      NodeIsListed(t, top, node, rest);
    } else {
      assert StyleNodes(t)[|StyleNodes(t)| - 1] == node;
    }
  }

  lemma OriginsAre(o: string)
    ensures IsOrigin(o) <==> o in ORIGINS
  {
    if IsOrigin(o) {
      assert ORIGINS[0] == "default" && ORIGINS[1] == "blocks" && ORIGINS[2] == "theme" && ORIGINS[3] == "custom";
    }
  }

  /** Nothing that comes in is overlooked: units, presets of every origin and
      background images are visited wherever the incoming data has them. */
  lemma TargetsAreVisited(t: Tree, d: Tree, table: seq<Meta>, generate: Generator, job: Job)
    requires Prepared(t, d, table, generate) && Target(job, table) && IsSet(Get(DataOf(t, d, generate), PathOf(job)))
    ensures job in JobsOf(t, d, table, generate)
  {
    var data, u := DataOf(t, d, generate), Over(t, d);
    if job.BackgroundOf? {
      var rest := [Str("background"), Str("backgroundImage")];
      PreparedData(t, d, table, generate);
      ScaledFacts(u, d, table, generate, job);
      OverHas(t, d);
      HasGet(u, d, PathOf(job));
      StyleNodesHave(u, job.node, rest);
      var nodes := StyleNodes(u);
      var i :| 0 <= i < |nodes| && nodes[i] == job.node;
      assert StyleJobs(nodes)[i] == job;
    } else {
      SettingNodesHave(data, job.node, Below(job));
      if job.PresetOf? {
        OriginsAre(job.origin);
        SettingJobsHave(SettingNodes(data), table, job.node, job.m, job.origin);
      } else {
        UnitsAreVisited(SettingNodes(data), table, job.node);
      }
    }
  }

  lemma {:induction false} UnitsAreVisited(nodes: seq<Path>, table: seq<Meta>, node: Path)
    requires node in nodes
    ensures UnitsOf(node) in SettingJobs(nodes, table)
  {
    var n := |nodes| - 1;
    if nodes[n] != node {
      assert nodes == nodes[..n] + [nodes[n]];
      UnitsAreVisited(nodes[..n], table, node);
    }
  }

  /** ... and nothing else is: every job is a target. */
  lemma JobsAreTargets(t: Tree, d: Tree, table: seq<Meta>, generate: Generator, job: Job)
    requires job in JobsOf(t, d, table, generate)
    ensures Target(job, table)
  {
    var data, u := DataOf(t, d, generate), Over(t, d);
    SettingNodesAreNodes(data);
    if job in SettingJobs(SettingNodes(data), table) {
      SettingJobsAre(SettingNodes(data), table, job);
      if job.PresetOf? {
        OriginOfJob(SettingNodes(data), table, job);
        OriginsAre(job.origin);
      }
    }
  }

  lemma {:induction false} OriginOfJob(nodes: seq<Path>, table: seq<Meta>, job: Job)
    requires job in SettingJobs(nodes, table) && job.PresetOf?
    ensures job.origin in ORIGINS
  {
    var n := |nodes| - 1;
    if job in SettingJobs(nodes[..n], table) {
      OriginOfJob(nodes[..n], table, job);
    } else {
      PresetJobsAre(nodes[n], table, job);
    }
  }

  // ---- What comes in replaces what was there ----

  /** Where units, a preset or a background image come in, the merged data holds
      exactly what came in (a theme preset as named and filtered), whatever was
      there before: nothing of what was there is merged into it. */
  lemma IncomingReplacesAll(t: Tree, d: Tree, table: seq<Meta>, generate: Generator, job: Job)
    requires Prepared(t, d, table, generate) && Target(job, table) && IsSet(Get(DataOf(t, d, generate), PathOf(job)))
    ensures var m := Merged(t, d, table, generate);
      Get(m, PathOf(job)) == Value(ContentOf(m, Over(t, d), DataOf(t, d, generate), job))
  {
    TargetsAreVisited(t, d, table, generate, job);
    JobStands(t, d, table, generate, job);
  }

  /** In data of one origin the slugs that filter are those of the merged data. */
  lemma IncomingReplaces(t: Tree, d: Tree, table: seq<Meta>, generate: Generator, o: string, job: Job)
    requires Mergeable(t, d, table, generate, o) && Target(job, table) && IsSet(Get(DataOf(t, d, generate), PathOf(job)))
    ensures var m := Merged(t, d, table, generate);
      Get(m, PathOf(job)) == Value(ContentOf(m, m, DataOf(t, d, generate), job))
  {
    TargetsAreVisited(t, d, table, generate, job);
    var m := Merged(t, d, table, generate);
    JobStands(t, d, table, generate, job);
    DefaultsStay(t, d, table, generate, o, job);
    ContentBySlugs(m, Over(t, d), m, DataOf(t, d, generate), job);
  }

  /** Sizes apart, what is written from is what came in. */
  lemma ComesInAsItIs(t: Tree, d: Tree, table: seq<Meta>, generate: Generator, job: Job)
    requires Prepared(t, d, table, generate) && Target(job, table)
    requires forall o | PathOf(job) == SizesPath(o) :: !IsSet(Get(d, ScalePath(o)))
    ensures Get(DataOf(t, d, generate), PathOf(job)) == Get(d, PathOf(job))
  {
    forall o | IsSet(Get(d, ScalePath(o)))
      ensures Apart(SizesPath(o), PathOf(job))
    {
      SizesAreApart(job, o, table);
    }
    ScaledGet(Over(t, d), d, End, 0, generate, PathOf(job));
  }

  lemma UnitsAreReplaced(t: Tree, d: Tree, table: seq<Meta>, generate: Generator, node: Path, units: Tree)
    requires Prepared(t, d, table, generate) && SettingsPath(node)
    requires Get(d, node + [Str("spacing"), Str("units")]) == Value(units) && units != Leaf(Null)
    ensures Get(Merged(t, d, table, generate), node + [Str("spacing"), Str("units")]) == Value(units)
  {
    var job := UnitsOf(node);
    forall o
      ensures PathOf(job) != SizesPath(o)
    {
      assert |PathOf(job)| != 4;
    }
    ComesInAsItIs(t, d, table, generate, job);
    IncomingReplacesAll(t, d, table, generate, job);
  }

  lemma BackgroundIsReplaced(t: Tree, d: Tree, table: seq<Meta>, generate: Generator, node: Path, image: Tree)
    requires Prepared(t, d, table, generate) && StylesPath(node)
    requires Get(d, node + [Str("background"), Str("backgroundImage")]) == Value(image) && image != Leaf(Null)
    ensures Get(Merged(t, d, table, generate), node + [Str("background"), Str("backgroundImage")]) == Value(image)
  {
    var job := BackgroundOf(node);
    forall o
      ensures PathOf(job) != SizesPath(o)
    {
      assert PathOf(job)[0] == Str("styles") && SizesPath(o)[0] == Str("settings");
    }
    ComesInAsItIs(t, d, table, generate, job);
    IncomingReplacesAll(t, d, table, generate, job);
  }

  /** Spacing sizes that come in with a scale are regenerated first. */
  predicate HasScale(d: Tree, node: Path, m: Meta, o: string) {
    node == [Str("settings")] && m.group == "spacing" && m.leaf == "spacingSizes"
    && IsSet(Get(d, [Str("settings"), Str("spacing"), Str("spacingScale"), Str(o)]))
  }

  lemma SizesPathIs(node: Path, m: Meta, o: string, b: string)
    requires SettingsPath(node)
    ensures node + [Str(m.group), Str(m.leaf), Str(o)] == SizesPath(b) <==>
      node == [Str("settings")] && m.group == "spacing" && m.leaf == "spacingSizes" && o == b
  {
    var p := node + [Str(m.group), Str(m.leaf), Str(o)];
    assert p[|node|] == Str(m.group) && p[|node| + 1] == Str(m.leaf) && p[|node| + 2] == Str(o);
    assert SizesPath(b) == [Str("settings"), Str("spacing"), Str("spacingSizes"), Str(b)];
  }

  lemma PresetComesIn(t: Tree, d: Tree, table: seq<Meta>, generate: Generator, node: Path, m: Meta, o: string)
    requires Prepared(t, d, table, generate) && SettingsPath(node) && m in table && IsOrigin(o) && !HasScale(d, node, m, o)
    ensures Get(DataOf(t, d, generate), node + [Str(m.group), Str(m.leaf), Str(o)]) == Get(d, node + [Str(m.group), Str(m.leaf), Str(o)])
  {
    forall b | PathOf(PresetOf(node, m, o)) == SizesPath(b)
      ensures !IsSet(Get(d, ScalePath(b)))
    {
      SizesPathIs(node, m, o, b);
      assert ScalePath(b) == [Str("settings"), Str("spacing"), Str("spacingScale"), Str(b)];
    }
    ComesInAsItIs(t, d, table, generate, PresetOf(node, m, o));
  }

  /** A preset of the core, of a block or of the user, of the whole site or of one
      block, replaces the one that was there. */
  lemma PresetIsReplaced(t: Tree, d: Tree, table: seq<Meta>, generate: Generator, node: Path, m: Meta, o: string, preset: Tree)
    requires Prepared(t, d, table, generate) && SettingsPath(node) && m in table
    requires (o == "default" || o == "blocks" || o == "custom") && !HasScale(d, node, m, o)
    requires Get(d, node + [Str(m.group), Str(m.leaf), Str(o)]) == Value(preset) && preset != Leaf(Null)
    ensures Get(Merged(t, d, table, generate), node + [Str(m.group), Str(m.leaf), Str(o)]) == Value(preset)
  {
    PresetComesIn(t, d, table, generate, node, m, o);
    IncomingReplacesAll(t, d, table, generate, PresetOf(node, m, o));
  }

  // ---- The presets of a theme ----

  predicate Slug(item: Tree, s: Tree) {
    item.Arr? && Find(item.entries, Str("slug")) == Value(s) && s != Leaf(Null)
  }

  /** Some default preset at the node has the slug. */
  ghost predicate IsDefault(t: Tree, node: Path, m: Meta, s: Tree) {
    var found := Get(t, node + [Str(m.group), Str(m.leaf), Str("default")]);
    found.Value? && found.tree.Arr? && exists item :: HasItem(found.tree.entries, item) && Slug(item, s)
  }

  lemma {:induction false} SlugsAre(es: Entries, s: Tree)
    ensures s in SlugsIn(es) <==> exists item :: HasItem(es, item) && Slug(item, s)
  {
    if es.Entry? {
      SlugsAre(es.rest, s);
      assert SlugOf(es.value) == Value(s) <==> Slug(es.value, s);
      if s in SlugsIn(es.rest) {
        var item :| HasItem(es.rest, item) && Slug(item, s);
        assert HasItem(es, item);
      }
      if item :| HasItem(es, item) && Slug(item, s) {
        assert item != es.value ==> HasItem(es.rest, item);
      }
      if s in SlugsIn(es) && s !in SlugsIn(es.rest) {
        assert HasItem(es, es.value) && Slug(es.value, s);
      }
    }
  }

  lemma DefaultsAre(t: Tree, node: Path, m: Meta, s: Tree)
    ensures s in DefaultSlugs(t, node, m) <==> IsDefault(t, node, m, s)
  {
    var found := Get(t, OriginPath(node, m, "default"));
    if found.Value? {
      SlugsAre(EntriesOf(found.tree), s);
    }
  }

  /** A value PHP takes for true: a flag that is set, an array with something in
      it, or a text other than "" and "0". */
  predicate IsOn(v: Tree) {
    match v
    case Arr(es) => es.Entry?
    case Leaf(x) => x == Flag(true) || (x.Other? && x.text != "" && x.text != "0")
  }

  /** The switch for the preset, at the node or else for the site, is on or off. */
  predicate Switched(t: Tree, node: Path, m: Meta, on: bool) {
    m.guard.Setting? &&
      var own := Get(t, node + [Str(m.guard.group), Str(m.guard.name)]);
      var top := Get(t, [Str("settings"), Str(m.guard.group), Str(m.guard.name)]);
      if own.Value? then IsOn(own.tree) == on else top.Value? && IsOn(top.tree) == on
  }

  /** There is no switch for this preset, or nobody has set it. */
  predicate Unset(t: Tree, node: Path, m: Meta) {
    m.guard.Setting? ==>
      && Get(t, node + [Str(m.guard.group), Str(m.guard.name)]).Nothing?
      && Get(t, [Str("settings"), Str(m.guard.group), Str(m.guard.name)]).Nothing?
  }

  lemma SwitchIs(t: Tree, node: Path, m: Meta)
    ensures Switched(t, node, m, true) ==> Prevents(t, node, m)
    ensures Switched(t, node, m, false) || Unset(t, node, m) ==> !Prevents(t, node, m)
  {
    if m.guard.Setting? {
      assert GuardPath(SETTINGS, m.guard) == [Str("settings"), Str(m.guard.group), Str(m.guard.name)];
    }
  }

  /** The presets of a theme where overriding the defaults is not allowed: every
      item that comes out has a slug, and it is not the slug of a default at the
      node in the merged data, nor of a top-level default in the laid-over data;
      unless there are no such defaults at all. */
  lemma DefaultsAreProtected(t: Tree, d: Tree, table: seq<Meta>, generate: Generator, node: Path, m: Meta, item: Tree)
    requires Prepared(t, d, table, generate) && SettingsPath(node) && m in table
    requires IsSet(Get(DataOf(t, d, generate), node + [Str(m.group), Str(m.leaf), Str("theme")]))
    requires var merged := Merged(t, d, table, generate);
      Switched(merged, node, m, true)
      && HasItem(EntriesOf(GetOr(merged, node + [Str(m.group), Str(m.leaf), Str("theme")], Arr(End))), item)
    ensures var merged := Merged(t, d, table, generate);
      forall s | IsDefault(Over(t, d), [Str("settings")], m, s) || IsDefault(merged, node, m, s) ::
        !Slug(item, s) && exists own :: Slug(item, own)
  {
    var merged, u := Merged(t, d, table, generate), Over(t, d);
    ThemeContent(t, d, table, generate, node, m);
    SwitchIs(merged, node, m);
    var slugs := DefaultSlugs(u, SETTINGS, m) + DefaultSlugs(merged, node, m);
    forall s | IsDefault(u, [Str("settings")], m, s) || IsDefault(merged, node, m, s)
      ensures !Slug(item, s) && exists own :: Slug(item, own)
    {
      DefaultsAre(u, [Str("settings")], m, s);
      DefaultsAre(merged, node, m, s);
      assert s in slugs;
      KeptItems(NamedContent(merged, DataOf(t, d, generate), node, m), slugs, 0, item);
      assert Slug(item, SlugOf(item).tree);
    }
  }

  /** The items of the theme's preset, named. */
  function NamedContent(merged: Tree, data: Tree, node: Path, m: Meta): Entries {
    NamedItems(merged, data, PresetOf(node, m, "theme"))
  }

  lemma ThemeContent(t: Tree, d: Tree, table: seq<Meta>, generate: Generator, node: Path, m: Meta)
    requires Prepared(t, d, table, generate) && SettingsPath(node) && m in table
    requires IsSet(Get(DataOf(t, d, generate), node + [Str(m.group), Str(m.leaf), Str("theme")]))
    ensures var merged, data := Merged(t, d, table, generate), DataOf(t, d, generate);
      var slugs := DefaultSlugs(Over(t, d), SETTINGS, m) + DefaultSlugs(merged, node, m);
      EntriesOf(GetOr(merged, node + [Str(m.group), Str(m.leaf), Str("theme")], Arr(End))) ==
        if Prevents(merged, node, m) && slugs != [] then KeepItems(NamedContent(merged, data, node, m), slugs, 0)
        else NamedContent(merged, data, node, m)
  {
    var job := PresetOf(node, m, "theme");
    IncomingReplacesAll(t, d, table, generate, job);
    ContentIs(Merged(t, d, table, generate), Over(t, d), DataOf(t, d, generate), job);
  }

  lemma ContentIs(v: Tree, u: Tree, data: Tree, job: Job)
    requires job.PresetOf? && job.origin == "theme"
    ensures var slugs := DefaultSlugs(u, SETTINGS, job.m) + DefaultSlugs(v, job.node, job.m);
      EntriesOf(ContentOf(v, u, data, job)) ==
        if Prevents(v, job.node, job.m) && slugs != [] then KeepItems(NamedItems(v, data, job), slugs, 0) else NamedItems(v, data, job)
  {
  }

  /** ... and an item whose slug is none of these comes out, named. */
  lemma OthersAreKept(t: Tree, d: Tree, table: seq<Meta>, generate: Generator, node: Path, m: Meta, es: Entries, item: Tree, s: Tree)
    requires Prepared(t, d, table, generate) && SettingsPath(node) && m in table
    requires Get(DataOf(t, d, generate), node + [Str(m.group), Str(m.leaf), Str("theme")]) == Value(Arr(es))
    requires HasItem(es, item) && Slug(item, s)
    requires !IsDefault(Over(t, d), [Str("settings")], m, s) && !IsDefault(Merged(t, d, table, generate), node, m, s)
    ensures var merged := Merged(t, d, table, generate);
      var defaults := EntriesOf(GetOr(merged, node + [Str(m.group), Str(m.leaf), Str("default")], Leaf(Null)));
      HasItem(EntriesOf(GetOr(merged, node + [Str(m.group), Str(m.leaf), Str("theme")], Arr(End))),
        if m.names then Named(item, defaults) else item)
  {
    var merged, u := Merged(t, d, table, generate), Over(t, d);
    var defaults := EntriesOf(GetOr(merged, node + [Str(m.group), Str(m.leaf), Str("default")], Leaf(Null)));
    var named := if m.names then Named(item, defaults) else item;
    ThemeContent(t, d, table, generate, node, m);
    DefaultsAre(u, [Str("settings")], m, s);
    DefaultsAre(merged, node, m, s);
    NamedKeepsSlug(item, defaults, s);
    NamesItems(es, defaults, item);
    assert SlugOf(named) == Value(s);
    KeptItems(NamedContent(merged, DataOf(t, d, generate), node, m),
      DefaultSlugs(u, SETTINGS, m) + DefaultSlugs(merged, node, m), 0, named);
  }

  lemma NamedKeepsSlug(item: Tree, defaults: Entries, s: Tree)
    requires Slug(item, s)
    ensures Slug(Named(item, defaults), s)
  {
    NamedOnly(item, defaults, Str("slug"));
  }

  lemma {:induction false} NamesItems(es: Entries, defaults: Entries, item: Tree)
    requires HasItem(es, item)
    ensures HasItem(NameItems(es, defaults), Named(item, defaults))
  {
    if es.value != item {
      NamesItems(es.rest, defaults, item);
    }
  }

  /** Where overriding is allowed a theme's preset replaces the one that was
      there, whatever slugs it has, with the names it gets from the defaults. */
  lemma OverridingIsAllowed(t: Tree, d: Tree, table: seq<Meta>, generate: Generator, node: Path, m: Meta, preset: Tree)
    requires Prepared(t, d, table, generate) && SettingsPath(node) && m in table && !HasScale(d, node, m, "theme")
    requires Get(d, node + [Str(m.group), Str(m.leaf), Str("theme")]) == Value(preset) && preset != Leaf(Null)
    requires var merged := Merged(t, d, table, generate); Switched(merged, node, m, false) || Unset(merged, node, m)
    ensures var merged := Merged(t, d, table, generate);
      var defaults := EntriesOf(GetOr(merged, node + [Str(m.group), Str(m.leaf), Str("default")], Leaf(Null)));
      Get(merged, node + [Str(m.group), Str(m.leaf), Str("theme")]) ==
        Value(if m.names && preset.Arr? then Arr(NameItems(preset.entries, defaults)) else preset)
  {
    PresetComesIn(t, d, table, generate, node, m, "theme");
    IncomingReplacesAll(t, d, table, generate, PresetOf(node, m, "theme"));
    SwitchIs(Merged(t, d, table, generate), node, m);
  }

  // ---- Order, numbers and names ----

  function ItemsOf(es: Entries): seq<Tree> {
    if es.End? then [] else [es.value] + ItemsOf(es.rest)
  }

  predicate Free(item: Tree, slugs: seq<Tree>) {
    item.Arr? && Find(item.entries, Str("slug")).Value?
    && Find(item.entries, Str("slug")).tree != Leaf(Null) && Find(item.entries, Str("slug")).tree !in slugs
  }

  /** Filtering keeps the items with a free slug, each as often as it was there,
      in their order, and numbers them afresh. */
  lemma FilterKeepsOrder(es: Entries, slugs: seq<Tree>)
    ensures var kept := KeepItems(es, slugs, 0);
      && Subseq(ItemsOf(kept), ItemsOf(es))
      && (forall item :: multiset(ItemsOf(kept))[item] == if Free(item, slugs) then multiset(ItemsOf(es))[item] else 0)
      && |KeysOf(kept)| == |ItemsOf(kept)| && forall i | 0 <= i < |KeysOf(kept)| :: KeysOf(kept)[i] == Int(i)
  {
    KeptAreSome(es, slugs, 0);
    KeptAreNumbered(es, slugs, 0);
    forall item
      ensures multiset(ItemsOf(KeepItems(es, slugs, 0)))[item] == if Free(item, slugs) then multiset(ItemsOf(es))[item] else 0
    {
      KeptCount(es, slugs, 0, item);
    }
  }

  lemma {:induction false} KeptAreSome(es: Entries, slugs: seq<Tree>, n: nat)
    ensures Subseq(ItemsOf(KeepItems(es, slugs, n)), ItemsOf(es))
  {
    if es.End? {
      SubseqEmpty<Tree>([]);
    } else {
      var head := [es.value];
      if Kept(es.value, slugs) {
        KeptAreSome(es.rest, slugs, n + 1);
        SubseqRefl(head);
        SubseqConcat(head, head, ItemsOf(KeepItems(es.rest, slugs, n + 1)), ItemsOf(es.rest));
      } else {
        var rest := ItemsOf(KeepItems(es.rest, slugs, n));
        KeptAreSome(es.rest, slugs, n);
        SubseqEmpty(head);
        SubseqConcat([], head, rest, ItemsOf(es.rest));
        assert [] + rest == rest;
      }
    }
  }

  lemma {:induction false} KeptCount(es: Entries, slugs: seq<Tree>, n: nat, item: Tree)
    ensures multiset(ItemsOf(KeepItems(es, slugs, n)))[item] == if Free(item, slugs) then multiset(ItemsOf(es))[item] else 0
  {
    if es.Entry? {
      KeptCount(es.rest, slugs, n, item);
      KeptCount(es.rest, slugs, n + 1, item);
      assert Kept(es.value, slugs) <==> Free(es.value, slugs);
    }
  }

  lemma {:induction false} KeptAreNumbered(es: Entries, slugs: seq<Tree>, n: nat)
    ensures var kept := KeepItems(es, slugs, n);
      |KeysOf(kept)| == |ItemsOf(kept)| && forall i | 0 <= i < |KeysOf(kept)| :: KeysOf(kept)[i] == Int(n + i)
  {
    if es.Entry? {
      KeptAreNumbered(es.rest, slugs, n);
      KeptAreNumbered(es.rest, slugs, n + 1);
    }
  }

  /** Naming keeps every item in its place, under its key. */
  lemma {:induction false} NamingKeepsOrder(es: Entries, defaults: Entries)
    ensures var named := NameItems(es, defaults);
      && KeysOf(named) == KeysOf(es) && |ItemsOf(named)| == |ItemsOf(es)|
      && forall i | 0 <= i < |ItemsOf(es)| :: ItemsOf(named)[i] == Named(ItemsOf(es)[i], defaults)
  {
    if es.Entry? {
      NamingKeepsOrder(es.rest, defaults);
    }
  }

  /** An item without a name gets that of the first default with its slug. */
  lemma {:induction false} NamedByFirstDefault(item: Tree, front: Entries, key: Key, preset: Tree, rest: Entries, s: Tree, name: Tree)
    requires Slug(item, s) && (Find(item.entries, Str("name")) == Nothing || Find(item.entries, Str("name")) == Value(Leaf(Null)))
    requires forall x | HasItem(front, x) :: !Slug(x, s)
    requires Slug(preset, s) && Find(preset.entries, Str("name")) == Value(name) && name != Leaf(Null)
    ensures var named := Named(item, Concat(front, Entry(key, preset, rest)));
      named.Arr? && Find(named.entries, Str("name")) == Value(name)
  {
    var defaults := Concat(front, Entry(key, preset, rest));
    FirstName(front, key, preset, rest, s);
    FindPut(item.entries, Str("name"), NameIn(defaults, s), Str("name"));
  }

  lemma {:induction false} FirstName(front: Entries, key: Key, preset: Tree, rest: Entries, s: Tree)
    requires s != Leaf(Null) && forall x | HasItem(front, x) :: !Slug(x, s)
    requires Slug(preset, s)
    ensures NameIn(Concat(front, Entry(key, preset, rest)), s) == ValueOf(preset, "name")
  {
    if front.Entry? {
      assert HasItem(front, front.value);
      assert forall x | HasItem(front.rest, x) :: HasItem(front, x);
      FirstName(front.rest, key, preset, rest, s);
    }
  }

  /** ... and stays without one if no default has its slug. */
  lemma {:induction false} UnnamedWithoutDefault(item: Tree, defaults: Entries, s: Tree)
    requires Slug(item, s) && forall x | HasItem(defaults, x) :: !Slug(x, s)
    ensures Named(item, defaults) == item
  {
    NoName(defaults, s);
  }

  lemma {:induction false} NoName(defaults: Entries, s: Tree)
    requires s != Leaf(Null) && forall x | HasItem(defaults, x) :: !Slug(x, s)
    ensures NameIn(defaults, s) == Leaf(Null)
  {
    if defaults.Entry? {
      assert HasItem(defaults, defaults.value);
      assert forall x | HasItem(defaults.rest, x) :: HasItem(defaults, x);
      NoName(defaults.rest, s);
    }
  }

  // ---- Where spacing sizes come from ----

  const LAYERS: seq<string> := ["default", "blocks", "theme", "custom"]

  function ScaleValue(t: Tree, o: string, key: Key): Found {
    Get(t, [Str("settings"), Str("spacing"), Str("spacingScale"), Str(o), key])
  }

  /** The value of one setting of the scale for the first n origins: that of the
      latest of them that has one, and of that the incoming before the laid-over. */
  function Layered(u: Tree, d: Tree, n: nat, key: Key): Found
    requires n <= 4
  {
    if n == 0 then Nothing
    else if ScaleValue(d, LAYERS[n - 1], key).Value? then ScaleValue(d, LAYERS[n - 1], key)
    else if ScaleValue(u, LAYERS[n - 1], key).Value? then ScaleValue(u, LAYERS[n - 1], key)
    else Layered(u, d, n - 1, key)
  }

  lemma {:induction false} FindPutAll(a: Entries, b: Entries, key: Key)
    requires AllProper(b)
    ensures Find(PutAll(a, b), key) == if Find(b, key).Value? then Find(b, key) else Find(a, key)
    decreases b
  {
    if b.Entry? {
      FindPutAll(Put(a, b.key, b.value), b.rest, key);
      FindPut(a, b.key, b.value, key);
    }
  }

  lemma ScaleFinds(t: Tree, o: string, key: Key)
    ensures Find(EntriesOf(GetOr(t, ScalePath(o), Arr(End))), key) == ScaleValue(t, o, key)
  {
    assert ScalePath(o) + [key] == [Str("settings"), Str("spacing"), Str("spacingScale"), Str(o), key];
    GetConcat(t, ScalePath(o), [key]);
    var found := Get(t, ScalePath(o));
    if found.Value? && found.tree.Arr? {
      GetOne(found.tree, key);
    }
  }

  lemma ScaleProper(t: Tree, o: string)
    requires Proper(t)
    ensures AllProper(EntriesOf(GetOr(t, ScalePath(o), Arr(End))))
  {
    GotProper(t, ScalePath(o));
  }

  /** `flat` holds the scale of the first n origins. */
  ghost predicate FlatIs(flat: Entries, u: Tree, d: Tree, n: nat) {
    n <= 4 && forall key :: Find(flat, key) == Layered(u, d, n, key)
  }

  lemma OneLayer(flat: Entries, u: Tree, d: Tree, i: nat)
    requires i < 4 && FlatIs(flat, u, d, i) && Proper(u) && Proper(d)
    ensures var o := ORIGINS[i];
      var based := PutAll(flat, EntriesOf(GetOr(u, ScalePath(o), Arr(End))));
      && FlatIs(PutAll(based, EntriesOf(GetOr(d, ScalePath(o), Arr(End)))), u, d, i + 1)
      && (!IsSet(Get(d, ScalePath(o))) ==> FlatIs(based, u, d, i + 1))
  {
    var o := ORIGINS[i];
    var base, own := EntriesOf(GetOr(u, ScalePath(o), Arr(End))), EntriesOf(GetOr(d, ScalePath(o), Arr(End)));
    assert o == LAYERS[i];
    ScaleProper(u, o);
    ScaleProper(d, o);
    forall key
      ensures Find(PutAll(PutAll(flat, base), own), key) == Layered(u, d, i + 1, key)
      ensures !IsSet(Get(d, ScalePath(o))) ==> Find(PutAll(flat, base), key) == Layered(u, d, i + 1, key)
    {
      FindPutAll(flat, base, key);
      FindPutAll(PutAll(flat, base), own, key);
      ScaleFinds(u, o, key);
      ScaleFinds(d, o, key);
    }
  }

  /** Writing sizes leaves the scales, and the other origins' sizes, alone. */
  lemma SizesKeepScales(u: Tree, d: Tree, o: string, sizes: Tree)
    ensures forall b :: Get(Set(d, SizesPath(o), sizes), ScalePath(b)) == Get(d, ScalePath(b))
    ensures forall b | b != o :: Get(Set(d, SizesPath(o), sizes), SizesPath(b)) == Get(d, SizesPath(b))
  {
    forall b
      ensures Get(Set(d, SizesPath(o), sizes), ScalePath(b)) == Get(d, ScalePath(b))
      ensures b != o ==> Get(Set(d, SizesPath(o), sizes), SizesPath(b)) == Get(d, SizesPath(b))
    {
      ScaleAndSizes(o, b);
      GetSetApart(d, SizesPath(o), sizes, ScalePath(b));
      if b != o {
        GetSetApart(d, SizesPath(o), sizes, SizesPath(b));
      }
    }
  }

  lemma {:induction false} SameLayers(u: Tree, d: Tree, x: Tree, n: nat, key: Key)
    requires n <= 4 && forall b :: Get(x, ScalePath(b)) == Get(d, ScalePath(b))
    ensures Layered(u, x, n, key) == Layered(u, d, n, key)
  {
    if n > 0 {
      SameLayers(u, d, x, n - 1, key);
      ScaleFinds(x, LAYERS[n - 1], key);
      ScaleFinds(d, LAYERS[n - 1], key);
      assert Get(x, ScalePath(LAYERS[n - 1])) == Get(d, ScalePath(LAYERS[n - 1]));
    }
  }

  lemma SameFlat(flat: Entries, u: Tree, d: Tree, x: Tree, n: nat)
    requires n <= 4 && forall b :: Get(x, ScalePath(b)) == Get(d, ScalePath(b))
    ensures FlatIs(flat, u, x, n) <==> FlatIs(flat, u, d, n)
  {
    forall key
      ensures Find(flat, key) == Layered(u, x, n, key) <==> Find(flat, key) == Layered(u, d, n, key)
    {
      SameLayers(u, d, x, n, key);
    }
  }

  lemma OriginsDiffer(i: nat, j: nat)
    requires i < j < 4
    ensures ORIGINS[i] != ORIGINS[j]
  {
    assert |ORIGINS[0]| == 7 && |ORIGINS[1]| == 6 && |ORIGINS[2]| == 5 && |ORIGINS[3]| == 6;
    assert ORIGINS[1][0] == 'b' && ORIGINS[3][0] == 'c';
  }

  /** What was written for an origin stays. */
  lemma {:induction false} SizesStay(u: Tree, d: Tree, flat: Entries, i: nat, generate: Generator, k: nat)
    requires k < i <= |ORIGINS|
    ensures Get(Scaled(u, d, flat, i, generate), SizesPath(ORIGINS[k])) == Get(d, SizesPath(ORIGINS[k]))
    decreases |ORIGINS| - i
  {
    if i < |ORIGINS| {
      var o := ORIGINS[i];
      var based := PutAll(flat, EntriesOf(GetOr(u, ScalePath(o), Arr(End))));
      var scale := Get(d, ScalePath(o));
      if !IsSet(scale) {
        SizesStay(u, d, based, i + 1, generate, k);
      } else {
        var whole := PutAll(based, EntriesOf(scale.tree));
        var sizes := generate(whole, GetOr(d, SizesPath(o), Arr(End)));
        OriginsDiffer(k, i);
        SizesKeepScales(u, d, o, sizes);
        SizesStay(u, Set(d, SizesPath(o), sizes), whole, i + 1, generate, k);
      }
    }
  }

  /** The sizes of origin k were generated from the scale of the origins up to it
      and from the sizes that came in. */
  ghost predicate Generated(r: Tree, u: Tree, d: Tree, k: nat, generate: Generator)
    requires k < 4
  {
    exists whole :: FlatIs(whole, u, d, k + 1)
      && Get(r, SizesPath(ORIGINS[k])) == Value(generate(whole, GetOr(d, SizesPath(ORIGINS[k]), Arr(End))))
  }

  lemma {:induction false} ScaledGenerates(u: Tree, d: Tree, flat: Entries, i: nat, generate: Generator, k: nat)
    requires i <= k < |ORIGINS| && FlatIs(flat, u, d, i) && Proper(u) && Proper(d) && ReturnsProper(generate)
    requires IsSet(Get(d, ScalePath(ORIGINS[k])))
    ensures Generated(Scaled(u, d, flat, i, generate), u, d, k, generate)
    decreases |ORIGINS| - i
  {
    var o := ORIGINS[i];
    var based := PutAll(flat, EntriesOf(GetOr(u, ScalePath(o), Arr(End))));
    var scale := Get(d, ScalePath(o));
    OneLayer(flat, u, d, i);
    if !IsSet(scale) {
      ScaledGenerates(u, d, based, i + 1, generate, k);
    } else {
      var whole := PutAll(based, EntriesOf(scale.tree));
      var sizes := generate(whole, GetOr(d, SizesPath(o), Arr(End)));
      if k == i {
        GeneratedHere(u, d, whole, i, generate);
      } else {
        var x := Set(d, SizesPath(o), sizes);
        SizesKeepScales(u, d, o, sizes);
        LaterSizes(u, d, x, whole, i, generate, k);
        SetProper(d, SizesPath(o), sizes);
        ScaledGenerates(u, x, whole, i + 1, generate, k);
        GeneratedFrom(Scaled(u, x, whole, i + 1, generate), u, d, x, i, k, generate);
      }
    }
  }

  lemma GeneratedHere(u: Tree, d: Tree, whole: Entries, k: nat, generate: Generator)
    requires k < 4 && FlatIs(whole, u, d, k + 1)
    ensures var sizes := generate(whole, GetOr(d, SizesPath(ORIGINS[k]), Arr(End)));
      Generated(Scaled(u, Set(d, SizesPath(ORIGINS[k]), sizes), whole, k + 1, generate), u, d, k, generate)
  {
    var o := ORIGINS[k];
    var sizes := generate(whole, GetOr(d, SizesPath(o), Arr(End)));
    SizesStay(u, Set(d, SizesPath(o), sizes), whole, k + 1, generate, k);
    GetSet(d, SizesPath(o), sizes);
  }

  lemma GeneratedFrom(r: Tree, u: Tree, d: Tree, x: Tree, i: nat, k: nat, generate: Generator)
    requires i < k < 4 && Generated(r, u, x, k, generate)
    requires forall b :: Get(x, ScalePath(b)) == Get(d, ScalePath(b))
    requires forall b | b != ORIGINS[i] :: Get(x, SizesPath(b)) == Get(d, SizesPath(b))
    ensures Generated(r, u, d, k, generate)
  {
    var later :| FlatIs(later, u, x, k + 1)
      && Get(r, SizesPath(ORIGINS[k])) == Value(generate(later, GetOr(x, SizesPath(ORIGINS[k]), Arr(End))));
    SameFlat(later, u, d, x, k + 1);
    OriginsDiffer(i, k);
    var sizes := GetOr(d, SizesPath(ORIGINS[k]), Arr(End));
    assert sizes == GetOr(x, SizesPath(ORIGINS[k]), Arr(End));
    assert FlatIs(later, u, d, k + 1) && Get(r, SizesPath(ORIGINS[k])) == Value(generate(later, sizes));
  }

  lemma LaterSizes(u: Tree, d: Tree, x: Tree, whole: Entries, i: nat, generate: Generator, k: nat)
    requires i < k < 4 && FlatIs(whole, u, d, i + 1)
    requires forall b :: Get(x, ScalePath(b)) == Get(d, ScalePath(b))
    requires forall b | b != ORIGINS[i] :: Get(x, SizesPath(b)) == Get(d, SizesPath(b))
    ensures FlatIs(whole, u, x, i + 1)
    ensures GetOr(x, SizesPath(ORIGINS[k]), Arr(End)) == GetOr(d, SizesPath(ORIGINS[k]), Arr(End))
    ensures Get(x, ScalePath(ORIGINS[k])) == Get(d, ScalePath(ORIGINS[k]))
  {
    OriginsDiffer(i, k);
    SameFlat(whole, u, d, x, i + 1);
  }

  /** Where the scale of an origin comes in, its sizes are generated anew: from
      the sizes that came in, and from a scale each of whose settings is that of
      the latest origin, up to this one, that has it. */
  lemma SizesComeFromScales(t: Tree, d: Tree, table: seq<Meta>, generate: Generator, k: nat)
    requires Prepared(t, d, table, generate) && k < 4
    requires IsSet(Get(d, [Str("settings"), Str("spacing"), Str("spacingScale"), Str(LAYERS[k])]))
    ensures exists whole ::
      (forall key :: Find(whole, key) == Layered(Over(t, d), d, k + 1, key))
      && Get(DataOf(t, d, generate), [Str("settings"), Str("spacing"), Str("spacingSizes"), Str(LAYERS[k])]) ==
         Value(generate(whole, GetOr(d, [Str("settings"), Str("spacing"), Str("spacingSizes"), Str(LAYERS[k])], Arr(End))))
  {
    var u, o := Over(t, d), LAYERS[k];
    assert o == ORIGINS[k];
    assert ScalePath(o) == [Str("settings"), Str("spacing"), Str("spacingScale"), Str(o)];
    assert SizesPath(o) == [Str("settings"), Str("spacing"), Str("spacingSizes"), Str(o)];
    PreparedData(t, d, table, generate);
    assert FlatIs(End, u, d, 0);
    ScaledGenerates(u, d, End, 0, generate, k);
    var whole :| FlatIs(whole, u, d, k + 1)
      && Get(DataOf(t, d, generate), SizesPath(o)) == Value(generate(whole, GetOr(d, SizesPath(o), Arr(End))));
  }

  // ---- Everything else is laid over ----

  /** `d` says nothing about the path. */
  ghost predicate Silent(d: Tree, path: Path) {
    exists i | 0 <= i < |path| :: Get(d, path[..i]).Value? && Get(d, path[..i]).tree.Arr? && Get(d, path[..i + 1]).Nothing?
  }

  lemma GetOne(t: Tree, key: Key)
    requires t.Arr?
    ensures Get(t, [key]) == Find(t.entries, key)
  {
    assert [key][1..] == [];
  }

  lemma NothingBelow(d: Tree, path: Path, n: nat, p: Path)
    requires n <= |path| && IsPrefix(path, p) && Get(d, path[..n]).Nothing?
    ensures Get(d, p).Nothing?
  {
    assert path[..n] == p[..n];
    assert p == p[..n] + p[n..];
    GetConcat(d, p[..n], p[n..]);
  }

  lemma SilentIsNothing(d: Tree, path: Path)
    requires Silent(d, path)
    ensures Get(d, path).Nothing? && forall p | IsPrefix(path, p) :: Get(d, p).Nothing?
  {
    var i :| 0 <= i < |path| && Get(d, path[..i]).Value? && Get(d, path[..i]).tree.Arr? && Get(d, path[..i + 1]).Nothing?;
    forall p | IsPrefix(path, p)
      ensures Get(d, p).Nothing?
    {
      NothingBelow(d, path, i + 1, p);
    }
    assert IsPrefix(path, path);
  }

  /** What the upper tree says nothing about stays. */
  lemma {:induction false} OverKeeps(a: Tree, b: Tree, path: Path)
    requires Proper(b) && Silent(b, path)
    ensures Get(Over(a, b), path) == Get(a, path)
    decreases |path|
  {
    var i :| 0 <= i < |path| && Get(b, path[..i]).Value? && Get(b, path[..i]).tree.Arr? && Get(b, path[..i + 1]).Nothing?;
    var key, rest := path[0], path[1..];
    SilentIsNothing(b, path);
    if a.Arr? {
      FindReplace(a.entries, b.entries, key);
      if i == 0 {
        assert path[..0] == [] && path[..1] == [key];
        GetOne(b, key);
      } else if Find(a.entries, key).Value? {
        assert path[..i][0] == key && path[..i][1..] == rest[..i - 1];
        assert path[..i + 1][0] == key && path[..i + 1][1..] == rest[..i];
        FoundProper(b.entries, key);
        var below := Find(b.entries, key).tree;
        assert Silent(below, rest);
        OverKeeps(Find(a.entries, key).tree, below, rest);
      }
    }
  }

  /** No part that a merge replaces as a whole contains the path. */
  ghost predicate Loose(t: Tree, d: Tree, table: seq<Meta>, generate: Generator, path: Path) {
    forall job | Target(job, table) && IsSet(Get(DataOf(t, d, generate), PathOf(job))) :: !IsPrefix(PathOf(job), path)
  }

  lemma LooseReads(t: Tree, d: Tree, table: seq<Meta>, generate: Generator, path: Path)
    requires Prepared(t, d, table, generate) && Loose(t, d, table, generate, path)
    requires forall p | IsPrefix(path, p) && p != path :: Get(d, p).Nothing?
    ensures Get(Merged(t, d, table, generate), path) == Get(Over(t, d), path)
  {
    var u, data, jobs, m := Over(t, d), DataOf(t, d, generate), JobsOf(t, d, table, generate), Merged(t, d, table, generate);
    MergedReads(t, d, table, generate);
    PreparedData(t, d, table, generate);
    forall w | w in WritesOf(m, u, data, jobs)
      ensures Apart(w.path, path)
    {
      var job := WritesFrom(m, u, data, jobs, w);
      JobsAreTargets(t, d, table, generate, job);
      ScaledFacts(u, d, table, generate, job);
    }
    WritesApart(u, WritesOf(m, u, data, jobs), path);
  }

  /** What the incoming data says nothing about stays as it was, unless it is in a
      part that is replaced as a whole. */
  lemma SilenceKeeps(t: Tree, d: Tree, table: seq<Meta>, generate: Generator, path: Path)
    requires Prepared(t, d, table, generate) && Loose(t, d, table, generate, path) && Silent(d, path)
    ensures Get(Merged(t, d, table, generate), path) == Get(t, path)
  {
    SilentIsNothing(d, path);
    LooseReads(t, d, table, generate, path);
    OverKeeps(t, d, path);
  }

  lemma BelowLeaf(d: Tree, path: Path, p: Path, x: Scalar)
    requires Get(d, path) == Value(Leaf(x)) && IsPrefix(path, p) && p != path
    ensures Get(d, p).Nothing?
  {
    var rest := p[|path|..];
    assert p == path + rest;
    GetConcat(d, path, rest);
  }

  /** Every single value that comes in is there afterwards, unless it is in such a
      part. */
  lemma ValueComesIn(t: Tree, d: Tree, table: seq<Meta>, generate: Generator, path: Path, x: Scalar)
    requires Prepared(t, d, table, generate) && Loose(t, d, table, generate, path) && Get(d, path) == Value(Leaf(x))
    ensures Get(Merged(t, d, table, generate), path) == Value(Leaf(x))
  {
    forall p | IsPrefix(path, p) && p != path
      ensures Get(d, p).Nothing?
    {
      BelowLeaf(d, path, p, x);
    }
    LooseReads(t, d, table, generate, path);
    GetOver(t, d, path);
  }
}
