/** WP_Theme_JSON_Gutenberg::merge: laying one theme.json over another. */
module ThemeMerge {
  import opened PhpArray

  /** What keeps a theme's presets from overriding the defaults: nothing, or the
      setting at this path when it is on. */
  datatype Guard = Never | Setting(group: string, name: string)

  /** The parts of PRESETS_METADATA that merging looks at. */
  datatype Meta = Meta(group: string, leaf: string, guard: Guard, names: bool)

  const PRESETS: seq<Meta> := [
    Meta("dimensions", "aspectRatios", Setting("dimensions", "defaultAspectRatios"), false),
    Meta("color", "palette", Setting("color", "defaultPalette"), false),
    Meta("color", "gradients", Setting("color", "defaultGradients"), false),
    Meta("color", "duotone", Setting("color", "defaultDuotone"), false),
    Meta("typography", "fontSizes", Setting("typography", "defaultFontSizes"), true),
    Meta("typography", "fontFamilies", Never, false),
    Meta("typography", "textShadowPresets", Setting("typography", "defaultTextShadowPresets"), false),
    Meta("spacing", "spacingSizes", Setting("spacing", "defaultSpacingSizes"), true),
    Meta("shadow", "presets", Setting("shadow", "defaultPresets"), false),
    Meta("border", "radiusSizes", Never, false),
    Meta("dimensions", "dimensionSizes", Never, false)
  ]

  const ORIGINS: seq<string> := ["default", "blocks", "theme", "custom"]

  // ---- Paths ----

  const SETTINGS: Path := [Str("settings")]
  const STYLE_BLOCKS: Path := [Str("styles"), Str("blocks")]

  function OriginPath(node: Path, m: Meta, origin: string): Path {
    node + [Str(m.group), Str(m.leaf), Str(origin)]
  }

  function GuardPath(node: Path, g: Guard): Path
    requires g.Setting?
  {
    node + [Str(g.group), Str(g.name)]
  }

  function UnitsPath(node: Path): Path {
    node + [Str("spacing"), Str("units")]
  }

  function BackgroundPath(node: Path): Path {
    node + [Str("background"), Str("backgroundImage")]
  }

  function ScalePath(origin: string): Path {
    SETTINGS + [Str("spacing"), Str("spacingScale"), Str(origin)]
  }

  function SizesPath(origin: string): Path {
    SETTINGS + [Str("spacing"), Str("spacingSizes"), Str(origin)]
  }

  // ---- Reading ----

  /** isset() */
  predicate IsSet(found: Found) {
    found.Value? && found.tree != Leaf(Null)
  }

  function GetOr(t: Tree, path: Path, otherwise: Tree): Tree {
    var found := Get(t, path);
    if found.Value? then found.tree else otherwise
  }

  predicate Truthy(t: Tree) {
    match t
    case Arr(es) => es != End
    case Leaf(Null) => false
    case Leaf(Flag(b)) => b
    case Leaf(Other(text)) => text != "" && text != "0"
  }

  function Nodes(top: Path, keys: seq<Key>): (r: seq<Path>)
    ensures |r| == |keys| && forall i | 0 <= i < |keys| :: r[i] == top + [keys[i]]
  {
    seq(|keys|, i requires 0 <= i < |keys| => top + [keys[i]])
  }

  /** get_setting_nodes: the top level and every block that has settings. */
  function SettingNodes(d: Tree): seq<Path> {
    if !IsSet(Get(d, SETTINGS)) then []
    else [SETTINGS] + Nodes(SETTINGS + [Str("blocks")], KeysAt(d, SETTINGS + [Str("blocks")]))
  }

  /** get_block_nodes, and the top-level styles after them. */
  function StyleNodes(t: Tree): seq<Path> {
    Nodes(STYLE_BLOCKS, KeysAt(t, STYLE_BLOCKS)) + [[Str("styles")]]
  }

  // ---- Slugs and names ----

  function SlugOf(item: Tree): Found {
    if item.Arr? && IsSet(Find(item.entries, Str("slug"))) then Find(item.entries, Str("slug")) else Nothing
  }

  function SlugsIn(es: Entries): seq<Tree> {
    if es.End? then []
    else (if SlugOf(es.value).Value? then [SlugOf(es.value).tree] else []) + SlugsIn(es.rest)
  }

  /** get_default_slugs, for one preset. */
  function DefaultSlugs(t: Tree, node: Path, m: Meta): seq<Tree> {
    var found := Get(t, OriginPath(node, m, "default"));
    if IsSet(found) then SlugsIn(EntriesOf(found.tree)) else []
  }

  predicate Kept(item: Tree, slugs: seq<Tree>) {
    SlugOf(item).Value? && SlugOf(item).tree !in slugs
  }

  /** The items kept, numbered from n. */
  function KeepItems(es: Entries, slugs: seq<Tree>, n: nat): Entries {
    if es.End? then End
    else if Kept(es.value, slugs) then Entry(Int(n), es.value, KeepItems(es.rest, slugs, n + 1))
    else KeepItems(es.rest, slugs, n)
  }

  function FilterSlugs(content: Tree, slugs: seq<Tree>): Tree {
    if slugs == [] then content else Arr(KeepItems(EntriesOf(content), slugs, 0))
  }

  function ValueOf(item: Tree, name: string): Tree {
    if item.Arr? && Find(item.entries, Str(name)).Value? then Find(item.entries, Str(name)).tree else Leaf(Null)
  }

  /** get_name_from_defaults, null when there is none. */
  function NameIn(defaults: Entries, slug: Tree): Tree {
    if defaults.End? then Leaf(Null)
    else if ValueOf(defaults.value, "slug") == slug then ValueOf(defaults.value, "name")
    else NameIn(defaults.rest, slug)
  }

  function Named(item: Tree, defaults: Entries): Tree {
    if item.Leaf? || IsSet(Find(item.entries, Str("name"))) then item
    else
      var name := NameIn(defaults, ValueOf(item, "slug"));
      if name == Leaf(Null) then item else Arr(Put(item.entries, Str("name"), name))
  }

  function NameItems(es: Entries, defaults: Entries): Entries {
    if es.End? then End else Entry(es.key, Named(es.value, defaults), NameItems(es.rest, defaults))
  }

  // ---- The spacing scale ----

  /** array_replace */
  function PutAll(a: Entries, b: Entries): Entries
    decreases b
  {
    if b.End? then a else PutAll(Put(a, b.key, b.value), b.rest)
  }

  /** compute_spacing_sizes of a flattened scale, merged with given sizes. */
  type Generator = (Entries, Tree) -> Tree

  /** The incoming data once the sizes of its own scales are in it. */
  function Scaled(u: Tree, d: Tree, flat: Entries, i: nat, generate: Generator): Tree
    requires i <= |ORIGINS|
    decreases |ORIGINS| - i
  {
    if i == |ORIGINS| then d
    else
      var o := ORIGINS[i];
      var based := PutAll(flat, EntriesOf(GetOr(u, ScalePath(o), Arr(End))));
      var scale := Get(d, ScalePath(o));
      if !IsSet(scale) then Scaled(u, d, based, i + 1, generate)
      else
        var whole := PutAll(based, EntriesOf(scale.tree));
        var sizes := generate(whole, GetOr(d, SizesPath(o), Arr(End)));
        Scaled(u, Set(d, SizesPath(o), sizes), whole, i + 1, generate)
  }

  // ---- The writes, one after the other ----

  datatype Job = UnitsOf(node: Path) | PresetOf(node: Path, m: Meta, origin: string) | BackgroundOf(node: Path)

  function PathOf(job: Job): Path {
    match job
    case UnitsOf(node) => UnitsPath(node)
    case PresetOf(node, m, origin) => OriginPath(node, m, origin)
    case BackgroundOf(node) => BackgroundPath(node)
  }

  /** Whether theme presets must not override defaults at this node. */
  predicate Prevents(t: Tree, node: Path, m: Meta) {
    m.guard.Setting? &&
      var own := Get(t, GuardPath(node, m.guard));
      var top := Get(t, GuardPath(SETTINGS, m.guard));
      if own.Value? then Truthy(own.tree) else top.Value? && Truthy(top.tree)
  }

  /** What a job writes: t is the data so far, u the data when the slugs of the
      top-level defaults were read, d the incoming data. */
  function ContentOf(t: Tree, u: Tree, d: Tree, job: Job): Tree {
    var content := GetOr(d, PathOf(job), Leaf(Null));
    if job.PresetOf? && job.origin == "theme" then
      var defaults := EntriesOf(GetOr(t, OriginPath(job.node, job.m, "default"), Leaf(Null)));
      var named := if job.m.names && content.Arr? then Arr(NameItems(content.entries, defaults)) else content;
      if Prevents(t, job.node, job.m) then
        FilterSlugs(named, DefaultSlugs(u, SETTINGS, job.m) + DefaultSlugs(t, job.node, job.m))
      else named
    else content
  }

  predicate Active(d: Tree, job: Job) {
    IsSet(Get(d, PathOf(job)))
  }

  function Do(t: Tree, u: Tree, d: Tree, job: Job): Tree {
    if Active(d, job) then Set(t, PathOf(job), ContentOf(t, u, d, job)) else t
  }

  function DoAll(t: Tree, u: Tree, d: Tree, jobs: seq<Job>): Tree {
    if jobs == [] then t else Do(DoAll(t, u, d, jobs[..|jobs| - 1]), u, d, jobs[|jobs| - 1])
  }

  function OriginJobs(node: Path, m: Meta, k: nat): seq<Job>
    requires k <= |ORIGINS|
  {
    if k == 0 then [] else OriginJobs(node, m, k - 1) + [PresetOf(node, m, ORIGINS[k - 1])]
  }

  function PresetJobs(node: Path, table: seq<Meta>): seq<Job> {
    if table == [] then [] else PresetJobs(node, table[..|table| - 1]) + OriginJobs(node, table[|table| - 1], |ORIGINS|)
  }

  function SettingJobs(nodes: seq<Path>, table: seq<Meta>): seq<Job> {
    if nodes == [] then []
    else
      var node := nodes[|nodes| - 1];
      SettingJobs(nodes[..|nodes| - 1], table) + [UnitsOf(node)] + PresetJobs(node, table)
  }

  function StyleJobs(nodes: seq<Path>): (r: seq<Job>)
    ensures |r| == |nodes| && forall i | 0 <= i < |nodes| :: r[i] == BackgroundOf(nodes[i])
  {
    seq(|nodes|, i requires 0 <= i < |nodes| => BackgroundOf(nodes[i]))
  }

  function Merged(t: Tree, d: Tree, table: seq<Meta>, generate: Generator): Tree {
    var u := Over(t, d);
    var data := Scaled(u, d, End, 0, generate);
    var t1 := DoAll(u, u, data, SettingJobs(SettingNodes(data), table));
    DoAll(t1, u, data, StyleJobs(StyleNodes(t1)))
  }

  lemma {:induction false} DoConcat(t: Tree, u: Tree, d: Tree, a: seq<Job>, b: seq<Job>)
    ensures DoAll(t, u, d, a + b) == DoAll(DoAll(t, u, d, a), u, d, b)
  {
    if b == [] {
      assert a + b == a;
    } else {
      assert (a + b)[..|a + b| - 1] == a + b[..|b| - 1];
      DoConcat(t, u, d, a, b[..|b| - 1]);
    }
  }

  lemma DoPush(t: Tree, u: Tree, d: Tree, a: seq<Job>, job: Job)
    ensures DoAll(t, u, d, a + [job]) == Do(DoAll(t, u, d, a), u, d, job)
  {
    assert (a + [job])[..|a|] == a;
  }

  // ---- The table, and which paths keep out of each other's way ----

  predicate GoodMeta(m: Meta) {
    && m.group != "blocks" && m.leaf != "units" && m.leaf != "spacingScale" && IsLeafName(m.leaf)
    && (m.guard.Setting? ==> m.guard.group != "blocks" && m.guard.name != "units" && !IsLeafName(m.guard.name))
  }

  /** Guards are called defaultThis and defaultThat, and no preset is. */
  predicate IsLeafName(name: string) {
    |name| >= 2 && !(name[0] == 'd' && name[1] == 'e')
  }

  ghost predicate GoodTable(table: seq<Meta>) {
    && (forall k | 0 <= k < |table| :: GoodMeta(table[k]))
    && forall i, j | 0 <= i < j < |table| :: table[i].leaf != table[j].leaf
  }

  /** Length and second letter tell the leaf names apart. */
  function LeafMark(m: Meta): (int, char)
    requires |m.leaf| >= 2
  {
    (|m.leaf|, m.leaf[1])
  }

  lemma RowIsGood(k: nat)
    requires k < |PRESETS|
    ensures GoodMeta(PRESETS[k])
  {
  }

  lemma LeafMarks(k: nat)
    requires k < |PRESETS|
    ensures |PRESETS[k].leaf| >= 2
    ensures LeafMark(PRESETS[k]) ==
      [(12, 's'), (7, 'a'), (9, 'r'), (7, 'u'), (9, 'o'), (12, 'o'), (17, 'e'), (12, 'p'), (7, 'r'), (11, 'a'), (14, 'i')][k]
  {
  }

  lemma TableIsGood()
    ensures GoodTable(PRESETS)
  {
    forall k | 0 <= k < |PRESETS|
      ensures GoodMeta(PRESETS[k])
    {
      RowIsGood(k);
    }
    forall i, j | 0 <= i < j < |PRESETS|
      ensures PRESETS[i].leaf != PRESETS[j].leaf
    {
      LeafMarks(i);
      LeafMarks(j);
    }
  }

  predicate SettingNode(node: Path) {
    node == SETTINGS || (|node| == 3 && node[0] == Str("settings") && node[1] == Str("blocks"))
  }

  predicate StyleNode(node: Path) {
    node == [Str("styles")] || (|node| == 3 && node[0] == Str("styles") && node[1] == Str("blocks"))
  }

  lemma DifferAt(p: Path, q: Path, i: nat)
    requires i < |p| && i < |q| && p[i] != q[i]
    ensures Apart(p, q)
  {
    if |p| <= |q| {
      assert q[..|p|][i] == q[i];
    }
    if |q| <= |p| {
      assert p[..|q|][i] == p[i];
    }
  }

  /** Two settings below nodes of settings: apart if they differ in the group or
      in the name after it, or are of different nodes. */
  lemma BelowNodes(a: Path, b: Path, p: Path, q: Path)
    requires SettingNode(a) && SettingNode(b) && |p| >= 2 && |q| >= 2
    requires p[0] != Str("blocks") && q[0] != Str("blocks")
    ensures a != b || p[0] != q[0] || p[1] != q[1] ==> Apart(a + p, b + q)
    ensures a == b && |p| == 3 && |q| == 3 && p[2] != q[2] ==> Apart(a + p, b + q)
  {
    var x, y := a + p, b + q;
    assert x[|a|] == p[0] && x[|a| + 1] == p[1] && y[|b|] == q[0] && y[|b| + 1] == q[1];
    if a == b {
      if p[0] != q[0] {
        DifferAt(x, y, |a|);
      } else if p[1] != q[1] {
        DifferAt(x, y, |a| + 1);
      } else if |p| == 3 && |q| == 3 && p[2] != q[2] {
        assert x[|a| + 2] == p[2] && y[|b| + 2] == q[2];
        DifferAt(x, y, |a| + 2);
      }
    } else if |a| == |b| {
      assert a == [a[0], a[1], a[2]] && b == [b[0], b[1], b[2]];
      DifferAt(x, y, 2);
    } else {
      assert x[1] != y[1];
      DifferAt(x, y, 1);
    }
  }

  lemma GuardIsApart(node: Path, m: Meta, origin: string, other: Path, n: Meta)
    requires SettingNode(node) && SettingNode(other) && GoodMeta(m) && GoodMeta(n) && n.guard.Setting?
    ensures Apart(OriginPath(node, m, origin), GuardPath(other, n.guard))
    ensures Apart(UnitsPath(node), GuardPath(other, n.guard))
  {
    var g := [Str(n.guard.group), Str(n.guard.name)];
    BelowNodes(node, other, [Str(m.group), Str(m.leaf), Str(origin)], g);
    BelowNodes(node, other, [Str("spacing"), Str("units")], g);
  }

  /** A job on one preset does not change whether another may be overridden. */
  lemma PreventsStays(t: Tree, node: Path, m: Meta, origin: string, content: Tree, other: Path, n: Meta)
    requires SettingNode(node) && SettingNode(other) && GoodMeta(m) && GoodMeta(n)
    ensures Prevents(Set(t, OriginPath(node, m, origin), content), other, n) == Prevents(t, other, n)
  {
    if n.guard.Setting? {
      GuardIsApart(node, m, origin, other, n);
      GuardIsApart(node, m, origin, SETTINGS, n);
      GetSetApart(t, OriginPath(node, m, origin), content, GuardPath(other, n.guard));
      GetSetApart(t, OriginPath(node, m, origin), content, GuardPath(SETTINGS, n.guard));
    }
  }

  // ---- The code ----

  class ThemeJson {
    var themeJson: Tree
    const table: seq<Meta>

    constructor (data: Tree, presets: seq<Meta>)
      ensures themeJson == data && table == presets
    {
      themeJson, table := data, presets;
    }

    method DefaultSlugsAt(node: Path, m: Meta) returns (slugs: seq<Tree>)
      ensures slugs == DefaultSlugs(themeJson, node, m)
    {
      slugs := [];
      var preset := Get(themeJson, OriginPath(node, m, "default"));
      if !IsSet(preset) {
        return;
      }
      var left := EntriesOf(preset.tree);
      while left.Entry?
        invariant slugs + SlugsIn(left) == SlugsIn(EntriesOf(preset.tree))
        decreases left
      {
        if SlugOf(left.value).Value? {
          slugs := slugs + [SlugOf(left.value).tree];
        }
        left := left.rest;
      }
    }

    method NameFromDefaults(slug: Tree, defaults: Entries) returns (name: Tree)
      ensures name == NameIn(defaults, slug)
    {
      var left := defaults;
      while left.Entry?
        invariant NameIn(left, slug) == NameIn(defaults, slug)
        decreases left
      {
        if ValueOf(left.value, "slug") == slug {
          return ValueOf(left.value, "name");
        }
        left := left.rest;
      }
      return Leaf(Null);
    }

    method SetNames(content: Entries, defaults: Entries) returns (r: Entries)
      ensures r == NameItems(content, defaults)
    {
      var left := content;
      r := End;
      while left.Entry?
        invariant Concat(r, NameItems(left, defaults)) == NameItems(content, defaults)
        decreases left
      {
        var item := left.value;
        if item.Arr? && !IsSet(Find(item.entries, Str("name"))) {
          var name := NameFromDefaults(ValueOf(item, "slug"), defaults);
          if name != Leaf(Null) {
            item := Arr(Put(item.entries, Str("name"), name));
          }
        }
        AppendConcat(r, left.key, item, NameItems(left.rest, defaults));
        r := Append(r, left.key, item);
        left := left.rest;
      }
      ConcatEnd(r);
    }

    method WithoutSlugs(content: Tree, slugs: seq<Tree>) returns (r: Tree)
      ensures r == FilterSlugs(content, slugs)
    {
      if slugs == [] {
        return content;
      }
      var left, kept, n := EntriesOf(content), End, 0;
      while left.Entry?
        invariant Concat(kept, KeepItems(left, slugs, n)) == KeepItems(EntriesOf(content), slugs, 0)
        decreases left
      {
        if SlugOf(left.value).Value? && SlugOf(left.value).tree !in slugs {
          AppendConcat(kept, Int(n), left.value, KeepItems(left.rest, slugs, n + 1));
          kept := Append(kept, Int(n), left.value);
          n := n + 1;
        }
        left := left.rest;
      }
      ConcatEnd(kept);
      return Arr(kept);
    }

    method RecomputeSizes(incoming: Tree, generate: Generator) returns (data: Tree)
      ensures data == Scaled(themeJson, incoming, End, 0, generate)
    {
      data := incoming;
      var flat := End;
      for i := 0 to |ORIGINS|
        invariant Scaled(themeJson, data, flat, i, generate) == Scaled(themeJson, incoming, End, 0, generate)
      {
        var o := ORIGINS[i];
        flat := PutAll(flat, EntriesOf(GetOr(themeJson, ScalePath(o), Arr(End))));
        var scale := Get(data, ScalePath(o));
        if !IsSet(scale) {
          continue;
        }
        flat := PutAll(flat, EntriesOf(scale.tree));
        data := Set(data, SizesPath(o), generate(flat, GetOr(data, SizesPath(o), Arr(End))));
      }
    }

    /** Replaces one preset of one origin at one node. */
    method MergeOrigin(node: Path, m: Meta, origin: string, prevent: bool, globalSlugs: seq<Tree>, data: Tree, ghost u: Tree)
      requires prevent == Prevents(themeJson, node, m) && globalSlugs == DefaultSlugs(u, SETTINGS, m)
      modifies this
      ensures themeJson == Do(old(themeJson), u, data, PresetOf(node, m, origin))
    {
      var found := Get(data, OriginPath(node, m, origin));
      if !IsSet(found) {
        return;
      }
      var content := found.tree;
      if origin == "theme" && m.names && content.Arr? {
        var defaults := EntriesOf(GetOr(themeJson, OriginPath(node, m, "default"), Leaf(Null)));
        var named := SetNames(content.entries, defaults);
        content := Arr(named);
      }
      if origin == "theme" && prevent {
        var nodeSlugs := DefaultSlugsAt(node, m);
        content := WithoutSlugs(content, globalSlugs + nodeSlugs);
      }
      themeJson := Set(themeJson, OriginPath(node, m, origin), content);
    }

    method PreventOverride(node: Path, m: Meta) returns (prevent: bool)
      ensures prevent == Prevents(themeJson, node, m)
    {
      prevent := false;
      if m.guard.Setting? {
        var top := GetOr(themeJson, GuardPath(SETTINGS, m.guard), Leaf(Null));
        var own := GetOr(themeJson, GuardPath(node, m.guard), top);
        prevent := Truthy(own);
      }
    }

    /** Replaces one preset at one node, origin by origin. */
    method MergePreset(node: Path, m: Meta, globalSlugs: seq<Tree>, data: Tree, ghost u: Tree)
      requires SettingNode(node) && GoodMeta(m) && globalSlugs == DefaultSlugs(u, SETTINGS, m)
      modifies this
      ensures themeJson == DoAll(old(themeJson), u, data, OriginJobs(node, m, |ORIGINS|))
    {
      var prevent := PreventOverride(node, m);
      for j := 0 to |ORIGINS|
        invariant themeJson == DoAll(old(themeJson), u, data, OriginJobs(node, m, j))
        invariant prevent == Prevents(themeJson, node, m)
      {
        DoOrigin(old(themeJson), u, data, node, m, j);
        MergeOrigin(node, m, ORIGINS[j], prevent, globalSlugs, data, u);
      }
    }

    /** Replaces the units of one node. */
    method MergeUnits(node: Path, data: Tree, ghost u: Tree)
      modifies this
      ensures themeJson == Do(old(themeJson), u, data, UnitsOf(node))
    {
      var units := Get(data, UnitsPath(node));
      if IsSet(units) {
        themeJson := Set(themeJson, UnitsPath(node), units.tree);
      }
    }

    /** Replaces the units and every preset of one node. */
    method MergeNode(node: Path, globalSlugs: seq<seq<Tree>>, data: Tree, ghost u: Tree)
      requires SettingNode(node) && GoodTable(table) && |globalSlugs| == |table|
      requires forall k | 0 <= k < |table| :: globalSlugs[k] == DefaultSlugs(u, SETTINGS, table[k])
      modifies this
      ensures themeJson == DoAll(Do(old(themeJson), u, data, UnitsOf(node)), u, data, PresetJobs(node, table))
    {
      MergeUnits(node, data, u);
      ghost var first := themeJson;
      for k := 0 to |table|
        invariant themeJson == DoAll(first, u, data, PresetJobs(node, table[..k]))
      {
        PresetStep(first, u, data, node, table, k);
        MergePreset(node, table[k], globalSlugs[k], data, u);
      }
      assert table[..|table|] == table;
    }

    method GlobalSlugs() returns (slugs: seq<seq<Tree>>)
      ensures |slugs| == |table| && forall k | 0 <= k < |table| :: slugs[k] == DefaultSlugs(themeJson, SETTINGS, table[k])
    {
      slugs := [];
      for k := 0 to |table|
        invariant |slugs| == k && forall i | 0 <= i < k :: slugs[i] == DefaultSlugs(themeJson, SETTINGS, table[i])
      {
        var here := DefaultSlugsAt(SETTINGS, table[k]);
        slugs := slugs + [here];
      }
    }

    method MergeSettings(nodes: seq<Path>, data: Tree)
      requires GoodTable(table) && forall i | 0 <= i < |nodes| :: SettingNode(nodes[i])
      modifies this
      ensures themeJson == DoAll(old(themeJson), old(themeJson), data, SettingJobs(nodes, table))
    {
      ghost var u := themeJson;
      var globalSlugs := GlobalSlugs();
      for i := 0 to |nodes|
        invariant themeJson == DoAll(u, u, data, SettingJobs(nodes[..i], table))
      {
        TakeOne(nodes, i);
        NodeStep(themeJson, u, data, nodes[..i], nodes[i], nodes[..i + 1], table);
        MergeNode(nodes[i], globalSlugs, data, u);
      }
      assert nodes[..|nodes|] == nodes;
    }

    method MergeStyles(data: Tree, ghost u: Tree)
      modifies this
      ensures themeJson == DoAll(old(themeJson), u, data, StyleJobs(StyleNodes(old(themeJson))))
    {
      var nodes := StyleNodes(themeJson);
      for i := 0 to |nodes|
        invariant themeJson == DoAll(old(themeJson), u, data, StyleJobs(nodes[..i]))
      {
        StyleStep(old(themeJson), u, data, nodes, i);
        var content := Get(data, BackgroundPath(nodes[i]));
        if IsSet(content) {
          themeJson := Set(themeJson, BackgroundPath(nodes[i]), content.tree);
        }
      }
      assert nodes[..|nodes|] == nodes;
    }

    /** The whole merge, step by step as its specification has it. */
    method Merge(incoming: Tree, generate: Generator)
      requires GoodTable(table)
      modifies this
      ensures themeJson == Merged(old(themeJson), incoming, table, generate)
    {
      themeJson := Over(themeJson, incoming);
      ghost var u := themeJson;
      var data := RecomputeSizes(incoming, generate);
      SettingNodesAreNodes(data);
      MergeSettings(SettingNodes(data), data);
      MergeStyles(data, u);
    }
  }

  lemma DoOrigin(t: Tree, u: Tree, d: Tree, node: Path, m: Meta, j: nat)
    requires SettingNode(node) && GoodMeta(m) && j < |ORIGINS|
    ensures var x := DoAll(t, u, d, OriginJobs(node, m, j));
      var y := DoAll(t, u, d, OriginJobs(node, m, j + 1));
      y == Do(x, u, d, PresetOf(node, m, ORIGINS[j])) && Prevents(y, node, m) == Prevents(x, node, m)
  {
    var x, job := DoAll(t, u, d, OriginJobs(node, m, j)), PresetOf(node, m, ORIGINS[j]);
    DoPush(t, u, d, OriginJobs(node, m, j), job);
    PreventsStays(x, node, m, ORIGINS[j], ContentOf(x, u, d, job), node, m);
  }

  lemma PresetJobsPush(node: Path, table: seq<Meta>, m: Meta)
    ensures PresetJobs(node, table + [m]) == PresetJobs(node, table) + OriginJobs(node, m, |ORIGINS|)
  {
    assert (table + [m])[..|table|] == table;
  }

  lemma PresetStep(t: Tree, u: Tree, d: Tree, node: Path, table: seq<Meta>, k: nat)
    requires k < |table|
    ensures DoAll(t, u, d, PresetJobs(node, table[..k + 1])) ==
      DoAll(DoAll(t, u, d, PresetJobs(node, table[..k])), u, d, OriginJobs(node, table[k], |ORIGINS|))
  {
    PresetJobsPush(node, table[..k], table[k]);
    assert table[..k + 1] == table[..k] + [table[k]];
    DoConcat(t, u, d, PresetJobs(node, table[..k]), OriginJobs(node, table[k], |ORIGINS|));
  }

  lemma StyleStep(t: Tree, u: Tree, d: Tree, nodes: seq<Path>, i: nat)
    requires i < |nodes|
    ensures DoAll(t, u, d, StyleJobs(nodes[..i + 1])) == Do(DoAll(t, u, d, StyleJobs(nodes[..i])), u, d, BackgroundOf(nodes[i]))
  {
    TakeOne(nodes, i);
    StyleJobsPush(nodes[..i], nodes[i]);
    DoPush(t, u, d, StyleJobs(nodes[..i]), BackgroundOf(nodes[i]));
  }

  lemma SettingJobsPush(t: Tree, u: Tree, d: Tree, nodes: seq<Path>, node: Path, table: seq<Meta>)
    ensures DoAll(t, u, d, SettingJobs(nodes + [node], table)) ==
      DoAll(Do(DoAll(t, u, d, SettingJobs(nodes, table)), u, d, UnitsOf(node)), u, d, PresetJobs(node, table))
  {
    var before, jobs := SettingJobs(nodes, table), PresetJobs(node, table);
    assert (nodes + [node])[..|nodes|] == nodes;
    assert SettingJobs(nodes + [node], table) == before + [UnitsOf(node)] + jobs;
    DoPush(t, u, d, before, UnitsOf(node));
    DoConcat(t, u, d, before + [UnitsOf(node)], jobs);
  }

  lemma NodeStep(x: Tree, u: Tree, d: Tree, front: seq<Path>, node: Path, nodes: seq<Path>, table: seq<Meta>)
    requires nodes == front + [node] && x == DoAll(u, u, d, SettingJobs(front, table))
    ensures DoAll(Do(x, u, d, UnitsOf(node)), u, d, PresetJobs(node, table)) == DoAll(u, u, d, SettingJobs(nodes, table))
  {
    SettingJobsPush(u, u, d, front, node, table);
  }

  lemma TakeOne(nodes: seq<Path>, i: nat)
    requires i < |nodes|
    ensures nodes[..i + 1] == nodes[..i] + [nodes[i]]
  {
  }

  lemma StyleJobsPush(nodes: seq<Path>, node: Path)
    ensures StyleJobs(nodes + [node]) == StyleJobs(nodes) + [BackgroundOf(node)]
  {
  }

  lemma SettingNodesAreNodes(d: Tree)
    ensures forall i | 0 <= i < |SettingNodes(d)| :: SettingNode(SettingNodes(d)[i])
  {
  }
}
