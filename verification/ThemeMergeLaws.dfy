/** What merging a theme.json promises: merging data of one origin again changes
    nothing, and each job of a merge leaves its content in place. */
module ThemeMergeLaws {
  import opened PhpArray
  import opened ThemeMerge

  // ---- Data of one origin ----

  /** Presets and spacing scale are given for origin o only. */
  ghost predicate SingleOrigin(d: Tree, table: seq<Meta>, o: string) {
    && o in ORIGINS
    && (forall node, m, origin | SettingNode(node) && m in table && origin != o :: !IsSet(Get(d, OriginPath(node, m, origin))))
    && (forall origin | origin != o :: !IsSet(Get(d, ScalePath(origin))))
  }

  /** The constructor has generated the sizes of every scale. */
  ghost predicate Constructed(d: Tree) {
    forall origin | IsSet(Get(d, ScalePath(origin))) :: Get(d, SizesPath(origin)).Value?
  }

  ghost predicate ReturnsProper(generate: Generator) {
    forall flat, sizes :: Proper(generate(flat, sizes))
  }

  predicate GoodJob(job: Job, table: seq<Meta>) {
    match job
    case UnitsOf(node) => SettingNode(node)
    case PresetOf(node, m, origin) => SettingNode(node) && m in table
    case BackgroundOf(node) => StyleNode(node)
  }

  ghost predicate GoodJobs(jobs: seq<Job>, table: seq<Meta>) {
    forall job | job in jobs :: GoodJob(job, table)
  }

  predicate OfOrigin(job: Job, o: string) {
    job.PresetOf? ==> job.origin == o
  }

  // ---- Paths of jobs ----

  lemma MetaInTable(m: Meta, table: seq<Meta>)
    requires GoodTable(table) && m in table
    ensures GoodMeta(m)
  {
  }

  lemma SameLeaf(m: Meta, n: Meta, table: seq<Meta>)
    requires GoodTable(table) && m in table && n in table && m.leaf == n.leaf
    ensures m == n
  {
    var i :| 0 <= i < |table| && table[i] == m;
    var j :| 0 <= j < |table| && table[j] == n;
  }

  function Below(job: Job): Path {
    match job
    case UnitsOf(_) => [Str("spacing"), Str("units")]
    case PresetOf(_, m, origin) => [Str(m.group), Str(m.leaf), Str(origin)]
    case BackgroundOf(_) => [Str("background"), Str("backgroundImage")]
  }

  /** Different jobs write apart. */
  lemma JobsApart(a: Job, b: Job, table: seq<Meta>)
    requires GoodTable(table) && GoodJob(a, table) && GoodJob(b, table) && a != b
    ensures Apart(PathOf(a), PathOf(b))
  {
    if a.BackgroundOf? != b.BackgroundOf? {
      DifferAt(PathOf(a), PathOf(b), 0);
    } else if a.BackgroundOf? {
      BackgroundsApart(a.node, b.node);
    } else {
      if a.PresetOf? {
        MetaInTable(a.m, table);
      }
      if b.PresetOf? {
        MetaInTable(b.m, table);
      }
      BelowNodes(a.node, b.node, Below(a), Below(b));
      if a.PresetOf? && b.PresetOf? && a.m.leaf == b.m.leaf {
        SameLeaf(a.m, b.m, table);
      }
    }
  }

  lemma BackgroundsApart(a: Path, b: Path)
    requires StyleNode(a) && StyleNode(b) && a != b
    ensures Apart(BackgroundPath(a), BackgroundPath(b))
  {
    if |a| == |b| {
      assert a == [a[0], a[1], a[2]] && b == [b[0], b[1], b[2]];
      DifferAt(BackgroundPath(a), BackgroundPath(b), 2);
    } else {
      DifferAt(BackgroundPath(a), BackgroundPath(b), 1);
    }
  }

  // ---- What a job reads ----

  function DefaultOf(job: Job): Job
    requires job.PresetOf?
  {
    PresetOf(job.node, job.m, "default")
  }

  /** A job writes apart from every guard. */
  lemma GuardsAreApart(a: Job, node: Path, m: Meta, table: seq<Meta>)
    requires GoodTable(table) && GoodJob(a, table) && SettingNode(node) && m in table && m.guard.Setting?
    ensures Apart(PathOf(a), GuardPath(node, m.guard)) && Apart(PathOf(a), GuardPath(SETTINGS, m.guard))
  {
    MetaInTable(m, table);
    match a
    case BackgroundOf(_) =>
      DifferAt(PathOf(a), GuardPath(node, m.guard), 0);
      DifferAt(PathOf(a), GuardPath(SETTINGS, m.guard), 0);
    case UnitsOf(n) =>
      GuardIsApart(n, m, "", node, m);
      GuardIsApart(n, m, "", SETTINGS, m);
    case PresetOf(n, k, origin) =>
      MetaInTable(k, table);
      GuardIsApart(n, k, origin, node, m);
      GuardIsApart(n, k, origin, SETTINGS, m);
  }

  /** What a theme preset's job finds of the defaults beside it and of the guards:
      the default that came in, or else the one that was there, and the guards
      as they were. */
  ghost predicate ReadsAre(v: Tree, u: Tree, d: Tree, job: Job) {
    job.PresetOf? && job.origin == "theme" ==>
      && Get(v, PathOf(DefaultOf(job))) == (if Active(d, DefaultOf(job)) then Get(d, PathOf(DefaultOf(job))) else Get(u, PathOf(DefaultOf(job))))
      && (job.m.guard.Setting? ==>
        && Get(v, GuardPath(job.node, job.m.guard)) == Get(u, GuardPath(job.node, job.m.guard))
        && Get(v, GuardPath(SETTINGS, job.m.guard)) == Get(u, GuardPath(SETTINGS, job.m.guard)))
  }

  ghost predicate AllRead(v: Tree, u: Tree, d: Tree, jobs: seq<Job>) {
    forall job | job in jobs && Active(d, job) :: ReadsAre(v, u, d, job)
  }

  lemma SameContent(t: Tree, v: Tree, u: Tree, d: Tree, job: Job)
    requires ReadsAre(t, u, d, job) && ReadsAre(v, u, d, job)
    ensures ContentOf(t, u, d, job) == ContentOf(v, u, d, job)
  {
    if job.PresetOf? && job.origin == "theme" {
      assert Prevents(t, job.node, job.m) == Prevents(v, job.node, job.m);
      assert DefaultSlugs(t, job.node, job.m) == DefaultSlugs(v, job.node, job.m);
    }
  }

  // ---- The jobs as plain writes ----

  /** The writes of the active jobs: presets read v beside them, and u for the
      slugs of the top-level defaults. */
  function WritesOf(v: Tree, u: Tree, d: Tree, jobs: seq<Job>): seq<Write> {
    if jobs == [] then []
    else
      var job := jobs[|jobs| - 1];
      var ws := WritesOf(v, u, d, jobs[..|jobs| - 1]);
      if Active(d, job) then ws + [Write(PathOf(job), ContentOf(v, u, d, job))] else ws
  }

  lemma {:induction false} WritesFrom(v: Tree, u: Tree, d: Tree, jobs: seq<Job>, w: Write) returns (job: Job)
    requires w in WritesOf(v, u, d, jobs)
    ensures job in jobs && Active(d, job) && w == Write(PathOf(job), ContentOf(v, u, d, job))
  {
    var n := |jobs| - 1;
    if w in WritesOf(v, u, d, jobs[..n]) {
      job := WritesFrom(v, u, d, jobs[..n], w);
    } else {
      job := jobs[n];
    }
  }

  lemma {:induction false} WritesInclude(v: Tree, u: Tree, d: Tree, jobs: seq<Job>, job: Job)
    requires job in jobs && Active(d, job)
    ensures Write(PathOf(job), ContentOf(v, u, d, job)) in WritesOf(v, u, d, jobs)
  {
    var front, last := jobs[..|jobs| - 1], jobs[|jobs| - 1];
    assert jobs == front + [last];
    WritesLast(v, u, d, front, last);
    if last != job {
      WritesInclude(v, u, d, front, job);
    }
  }

  lemma WritesLast(v: Tree, u: Tree, d: Tree, front: seq<Job>, last: Job)
    ensures WritesOf(v, u, d, front + [last]) ==
      WritesOf(v, u, d, front) + if Active(d, last) then [Write(PathOf(last), ContentOf(v, u, d, last))] else []
  {
    assert (front + [last])[..|front|] == front;
  }

  lemma WritesAreTidy(v: Tree, u: Tree, d: Tree, jobs: seq<Job>, table: seq<Meta>)
    requires GoodTable(table) && GoodJobs(jobs, table) && Proper(v) && Proper(d)
    ensures Tidy(WritesOf(v, u, d, jobs))
  {
    var ws := WritesOf(v, u, d, jobs);
    forall w | w in ws
      ensures Proper(w.content)
    {
      var job := WritesFrom(v, u, d, jobs, w);
      ContentProper(v, u, d, job);
    }
    forall w, x | w in ws && x in ws
      ensures w == x || Apart(w.path, x.path)
    {
      var a := WritesFrom(v, u, d, jobs, w);
      var b := WritesFrom(v, u, d, jobs, x);
      if a != b {
        JobsApart(a, b, table);
      }
    }
  }

  lemma WritesMissGuards(v: Tree, u: Tree, d: Tree, jobs: seq<Job>, table: seq<Meta>, node: Path, m: Meta)
    requires GoodTable(table) && GoodJobs(jobs, table) && SettingNode(node) && m in table && m.guard.Setting?
    ensures AllApart(WritesOf(v, u, d, jobs), GuardPath(node, m.guard)) && AllApart(WritesOf(v, u, d, jobs), GuardPath(SETTINGS, m.guard))
  {
    forall w | w in WritesOf(v, u, d, jobs)
      ensures Apart(w.path, GuardPath(node, m.guard)) && Apart(w.path, GuardPath(SETTINGS, m.guard))
    {
      var a := WritesFrom(v, u, d, jobs, w);
      GuardsAreApart(a, node, m, table);
    }
  }

  lemma WritesMissInactive(v: Tree, u: Tree, d: Tree, jobs: seq<Job>, table: seq<Meta>, job: Job)
    requires GoodTable(table) && GoodJobs(jobs, table) && GoodJob(job, table) && !Active(d, job)
    ensures AllApart(WritesOf(v, u, d, jobs), PathOf(job))
  {
    forall w | w in WritesOf(v, u, d, jobs)
      ensures Apart(w.path, PathOf(job))
    {
      var a := WritesFrom(v, u, d, jobs, w);
      JobsApart(a, job, table);
    }
  }

  /** Once the default beside it is written, a theme preset finds what ReadsAre says. */
  lemma ReadsDone(v: Tree, u: Tree, d: Tree, jobs: seq<Job>, table: seq<Meta>, job: Job)
    requires GoodTable(table) && GoodJobs(jobs, table) && GoodJob(job, table) && Proper(v) && Proper(d)
    requires job.PresetOf? && job.origin == "theme" ==> DefaultOf(job) in jobs
    ensures ReadsAre(WriteAll(u, WritesOf(v, u, d, jobs)), u, d, job)
  {
    if job.PresetOf? && job.origin == "theme" {
      var ws, first := WritesOf(v, u, d, jobs), DefaultOf(job);
      if Active(d, first) {
        WritesAreTidy(v, u, d, jobs, table);
        WritesInclude(v, u, d, jobs, first);
        WritesStand(u, ws, Write(PathOf(first), ContentOf(v, u, d, first)));
      } else {
        WritesMissInactive(v, u, d, jobs, table, first);
        WritesApart(u, ws, PathOf(first));
      }
      if job.m.guard.Setting? {
        WritesMissGuards(v, u, d, jobs, table, job.node, job.m);
        WritesApart(u, ws, GuardPath(job.node, job.m.guard));
        WritesApart(u, ws, GuardPath(SETTINGS, job.m.guard));
      }
    }
  }

  /** The default of a node comes before the theme's preset. */
  ghost predicate DefaultsFirst(jobs: seq<Job>) {
    jobs == [] ||
    var front, job := jobs[..|jobs| - 1], jobs[|jobs| - 1];
    DefaultsFirst(front) && (job.PresetOf? && job.origin == "theme" ==> DefaultOf(job) in front)
  }

  lemma {:induction false} DefaultsFirstConcat(a: seq<Job>, b: seq<Job>)
    requires DefaultsFirst(a) && DefaultsFirst(b)
    ensures DefaultsFirst(a + b)
  {
    if b == [] {
      assert a + b == a;
    } else {
      assert (a + b)[..|a + b| - 1] == a + b[..|b| - 1];
      DefaultsFirstConcat(a, b[..|b| - 1]);
    }
  }

  lemma {:induction false} HasDefaultFirst(jobs: seq<Job>, job: Job)
    requires DefaultsFirst(jobs) && job in jobs && job.PresetOf? && job.origin == "theme"
    ensures DefaultOf(job) in jobs
  {
    var n := |jobs| - 1;
    assert jobs == jobs[..n] + [jobs[n]];
    if jobs[n] != job {
      HasDefaultFirst(jobs[..n], job);
    }
  }

  /** Doing the jobs one after the other is doing the writes. */
  lemma {:induction false} DoneAsWrites(v: Tree, u: Tree, d: Tree, jobs: seq<Job>, table: seq<Meta>)
    requires GoodTable(table) && GoodJobs(jobs, table) && DefaultsFirst(jobs) && Proper(v) && Proper(d) && AllRead(v, u, d, jobs)
    ensures DoAll(u, u, d, jobs) == WriteAll(u, WritesOf(v, u, d, jobs))
  {
    if jobs != [] {
      var front, job := jobs[..|jobs| - 1], jobs[|jobs| - 1];
      assert jobs == front + [job] && job in jobs;
      DoneAsWrites(v, u, d, front, table);
      var ws := WritesOf(v, u, d, front);
      if Active(d, job) {
        ReadsDone(v, u, d, front, table, job);
        SameContent(WriteAll(u, ws), v, u, d, job);
        WritePush(u, ws, Write(PathOf(job), ContentOf(v, u, d, job)));
      }
    }
  }

  /** After all jobs, too, the defaults and the guards read like that. */
  lemma AllReadDone(v: Tree, u: Tree, d: Tree, jobs: seq<Job>, table: seq<Meta>)
    requires GoodTable(table) && GoodJobs(jobs, table) && DefaultsFirst(jobs) && Proper(v) && Proper(d)
    ensures AllRead(WriteAll(u, WritesOf(v, u, d, jobs)), u, d, jobs)
  {
    forall job | job in jobs && Active(d, job)
      ensures ReadsAre(WriteAll(u, WritesOf(v, u, d, jobs)), u, d, job)
    {
      if job.PresetOf? && job.origin == "theme" {
        HasDefaultFirst(jobs, job);
      }
      ReadsDone(v, u, d, jobs, table, job);
    }
  }

  lemma {:induction false} SameWrites(v: Tree, u: Tree, w: Tree, x: Tree, d: Tree, jobs: seq<Job>)
    requires forall job | job in jobs && Active(d, job) :: ContentOf(v, u, d, job) == ContentOf(w, x, d, job)
    ensures WritesOf(v, u, d, jobs) == WritesOf(w, x, d, jobs)
  {
    if jobs != [] {
      var front, job := jobs[..|jobs| - 1], jobs[|jobs| - 1];
      assert jobs == front + [job];
      SameWrites(v, u, w, x, d, front);
    }
  }

  // ---- Every content is a proper array ----

  lemma {:induction false} KeepItemsProper(es: Entries, slugs: seq<Tree>, n: nat)
    requires AllProper(es)
    ensures AllProper(KeepItems(es, slugs, n))
    ensures forall k: int | k < n :: Find(KeepItems(es, slugs, n), Int(k)).Nothing?
  {
    if es.Entry? {
      KeepItemsProper(es.rest, slugs, n + 1);
      KeepItemsProper(es.rest, slugs, n);
    }
  }

  lemma {:induction false} NameItemsProper(es: Entries, defaults: Entries)
    requires AllProper(es) && AllProper(defaults)
    ensures AllProper(NameItems(es, defaults))
    ensures forall k :: Find(NameItems(es, defaults), k).Nothing? <==> Find(es, k).Nothing?
  {
    if es.Entry? {
      NameItemsProper(es.rest, defaults);
      if es.value.Arr? {
        NameInProper(defaults, ValueOf(es.value, "slug"));
        PutProper(es.value.entries, Str("name"), NameIn(defaults, ValueOf(es.value, "slug")));
      }
    }
  }

  lemma {:induction false} NameInProper(defaults: Entries, slug: Tree)
    requires AllProper(defaults)
    ensures Proper(NameIn(defaults, slug))
  {
    if defaults.Entry? {
      if defaults.value.Arr? {
        FoundProper(defaults.value.entries, Str("name"));
      }
      NameInProper(defaults.rest, slug);
    }
  }

  lemma ContentProper(t: Tree, u: Tree, d: Tree, job: Job)
    requires Proper(t) && Proper(d)
    ensures Proper(ContentOf(t, u, d, job))
  {
    GotProper(d, PathOf(job));
    if job.PresetOf? && job.origin == "theme" {
      var content := GetOr(d, PathOf(job), Leaf(Null));
      GotProper(t, OriginPath(job.node, job.m, "default"));
      var defaults := EntriesOf(GetOr(t, OriginPath(job.node, job.m, "default"), Leaf(Null)));
      var named := if job.m.names && content.Arr? then Arr(NameItems(content.entries, defaults)) else content;
      if content.Arr? {
        NameItemsProper(content.entries, defaults);
      }
      KeepItemsProper(EntriesOf(named), DefaultSlugs(u, SETTINGS, job.m) + DefaultSlugs(t, job.node, job.m), 0);
    }
  }

  // ---- Which jobs there are ----

  lemma {:induction false} PresetJobsAre(node: Path, part: seq<Meta>, job: Job)
    requires job in PresetJobs(node, part)
    ensures job.PresetOf? && job.node == node && job.m in part && job.origin in ORIGINS
  {
    var n := |part| - 1;
    if job in PresetJobs(node, part[..n]) {
      PresetJobsAre(node, part[..n], job);
    } else {
      OriginJobsAre(node, part[n], |ORIGINS|, job);
    }
  }

  lemma {:induction false} OriginJobsAre(node: Path, m: Meta, k: nat, job: Job)
    requires k <= |ORIGINS| && job in OriginJobs(node, m, k)
    ensures job.PresetOf? && job.node == node && job.m == m && job.origin in ORIGINS
  {
    if job in OriginJobs(node, m, k - 1) {
      OriginJobsAre(node, m, k - 1, job);
    }
  }

  lemma {:induction false} SettingJobsAre(nodes: seq<Path>, table: seq<Meta>, job: Job)
    requires job in SettingJobs(nodes, table) && forall i | 0 <= i < |nodes| :: SettingNode(nodes[i])
    ensures GoodJob(job, table) && !job.BackgroundOf?
  {
    var n := |nodes| - 1;
    if job in SettingJobs(nodes[..n], table) {
      SettingJobsAre(nodes[..n], table, job);
    } else if job in PresetJobs(nodes[n], table) {
      PresetJobsAre(nodes[n], table, job);
    }
  }

  lemma {:induction false} OriginJobsHave(node: Path, m: Meta, k: nat, i: nat)
    requires i < k <= |ORIGINS|
    ensures PresetOf(node, m, ORIGINS[i]) in OriginJobs(node, m, k)
  {
    if i < k - 1 {
      OriginJobsHave(node, m, k - 1, i);
    }
  }

  lemma {:induction false} PresetJobsHave(node: Path, part: seq<Meta>, m: Meta, o: string)
    requires m in part && o in ORIGINS
    ensures PresetOf(node, m, o) in PresetJobs(node, part)
  {
    var n := |part| - 1;
    if part[n] == m {
      var i :| 0 <= i < |ORIGINS| && ORIGINS[i] == o;
      OriginJobsHave(node, m, |ORIGINS|, i);
    } else {
      assert part == part[..n] + [part[n]];
      PresetJobsHave(node, part[..n], m, o);
    }
  }

  lemma {:induction false} SettingJobsHave(nodes: seq<Path>, table: seq<Meta>, node: Path, m: Meta, o: string)
    requires node in nodes && m in table && o in ORIGINS
    ensures PresetOf(node, m, o) in SettingJobs(nodes, table) && UnitsOf(node) in SettingJobs(nodes, table)
  {
    var n := |nodes| - 1;
    if nodes[n] == node {
      PresetJobsHave(node, table, m, o);
    } else {
      assert nodes == nodes[..n] + [nodes[n]];
      SettingJobsHave(nodes[..n], table, node, m, o);
    }
  }

  function AllJobs(data: Tree, table: seq<Meta>, styled: Tree): seq<Job> {
    SettingJobs(SettingNodes(data), table) + StyleJobs(StyleNodes(styled))
  }

  lemma AllJobsAreGood(data: Tree, table: seq<Meta>, styled: Tree)
    ensures GoodJobs(AllJobs(data, table, styled), table)
    ensures GoodJobs(SettingJobs(SettingNodes(data), table), table)
  {
    SettingNodesAreNodes(data);
    var a := SettingJobs(SettingNodes(data), table);
    forall job | job in a
      ensures GoodJob(job, table) && !job.BackgroundOf?
    {
      SettingJobsAre(SettingNodes(data), table, job);
    }
  }

  lemma {:induction false} PresetsDefaultsFirst(node: Path, part: seq<Meta>)
    ensures DefaultsFirst(PresetJobs(node, part))
  {
    if part != [] {
      var n := |part| - 1;
      PresetsDefaultsFirst(node, part[..n]);
      OriginsDefaultsFirst(node, part[n], |ORIGINS|);
      DefaultsFirstConcat(PresetJobs(node, part[..n]), OriginJobs(node, part[n], |ORIGINS|));
    }
  }

  lemma {:induction false} OriginsDefaultsFirst(node: Path, m: Meta, k: nat)
    requires k <= |ORIGINS|
    ensures DefaultsFirst(OriginJobs(node, m, k))
  {
    if k > 0 {
      OriginsDefaultsFirst(node, m, k - 1);
      if k > 1 {
        OriginJobsHave(node, m, k - 1, 0);
      }
      var jobs := OriginJobs(node, m, k);
      assert jobs[..|jobs| - 1] == OriginJobs(node, m, k - 1);
    }
  }

  lemma {:induction false} SettingsDefaultsFirst(nodes: seq<Path>, table: seq<Meta>)
    ensures DefaultsFirst(SettingJobs(nodes, table))
  {
    if nodes != [] {
      var n := |nodes| - 1;
      var before, units := SettingJobs(nodes[..n], table), [UnitsOf(nodes[n])];
      SettingsDefaultsFirst(nodes[..n], table);
      assert units[..0] == [];
      DefaultsFirstConcat(before, units);
      PresetsDefaultsFirst(nodes[n], table);
      DefaultsFirstConcat(before + units, PresetJobs(nodes[n], table));
    }
  }

  lemma {:induction false} NoPresetsFirst(jobs: seq<Job>)
    requires forall job | job in jobs :: !job.PresetOf?
    ensures DefaultsFirst(jobs)
  {
    if jobs != [] {
      NoPresetsFirst(jobs[..|jobs| - 1]);
    }
  }

  lemma AllDefaultsFirst(data: Tree, table: seq<Meta>, styled: Tree)
    ensures DefaultsFirst(AllJobs(data, table, styled)) && DefaultsFirst(SettingJobs(SettingNodes(data), table))
  {
    SettingsDefaultsFirst(SettingNodes(data), table);
    NoPresetsFirst(StyleJobs(StyleNodes(styled)));
    DefaultsFirstConcat(SettingJobs(SettingNodes(data), table), StyleJobs(StyleNodes(styled)));
  }

  // ---- The incoming data with its sizes ----

  lemma ScaleIsApart(job: Job, origin: string, table: seq<Meta>)
    requires GoodTable(table) && GoodJob(job, table)
    ensures Apart(PathOf(job), ScalePath(origin))
  {
    if job.BackgroundOf? {
      DifferAt(PathOf(job), ScalePath(origin), 0);
    } else {
      if job.PresetOf? {
        MetaInTable(job.m, table);
      }
      BelowNodes(job.node, SETTINGS, Below(job), [Str("spacing"), Str("spacingScale"), Str(origin)]);
    }
  }

  lemma SizesAreApart(job: Job, origin: string, table: seq<Meta>)
    requires GoodTable(table) && GoodJob(job, table)
    ensures PathOf(job) == SizesPath(origin) || Apart(PathOf(job), SizesPath(origin))
  {
    if job.BackgroundOf? {
      DifferAt(PathOf(job), SizesPath(origin), 0);
    } else {
      if job.PresetOf? {
        MetaInTable(job.m, table);
      }
      BelowNodes(job.node, SETTINGS, Below(job), [Str("spacing"), Str("spacingSizes"), Str(origin)]);
    }
  }

  lemma ScaleAndSizes(a: string, b: string)
    ensures Apart(SizesPath(a), ScalePath(b))
    ensures a != b ==> Apart(SizesPath(a), SizesPath(b))
  {
    DifferAt(SizesPath(a), ScalePath(b), 2);
    if a != b {
      DifferAt(SizesPath(a), SizesPath(b), 3);
    }
  }

  /** Sizes are written only where there is a scale. */
  lemma {:induction false} ScaledGet(u: Tree, d: Tree, flat: Entries, i: nat, generate: Generator, path: Path)
    requires i <= |ORIGINS|
    requires forall o | IsSet(Get(d, ScalePath(o))) :: Apart(SizesPath(o), path)
    ensures Get(Scaled(u, d, flat, i, generate), path) == Get(d, path)
    decreases |ORIGINS| - i
  {
    if i < |ORIGINS| {
      var o := ORIGINS[i];
      var based := PutAll(flat, EntriesOf(GetOr(u, ScalePath(o), Arr(End))));
      var scale := Get(d, ScalePath(o));
      if !IsSet(scale) {
        ScaledGet(u, d, based, i + 1, generate, path);
      } else {
        var whole := PutAll(based, EntriesOf(scale.tree));
        var sizes := generate(whole, GetOr(d, SizesPath(o), Arr(End)));
        GetSetApart(d, SizesPath(o), sizes, path);
        forall b
          ensures Get(Set(d, SizesPath(o), sizes), ScalePath(b)) == Get(d, ScalePath(b))
        {
          ScaleAndSizes(o, b);
          GetSetApart(d, SizesPath(o), sizes, ScalePath(b));
        }
        ScaledGet(u, Set(d, SizesPath(o), sizes), whole, i + 1, generate, path);
      }
    }
  }

  lemma {:induction false} ScaledProper(u: Tree, d: Tree, flat: Entries, i: nat, generate: Generator)
    requires i <= |ORIGINS| && Proper(d) && ReturnsProper(generate)
    ensures Proper(Scaled(u, d, flat, i, generate))
    decreases |ORIGINS| - i
  {
    if i < |ORIGINS| {
      var o := ORIGINS[i];
      var based := PutAll(flat, EntriesOf(GetOr(u, ScalePath(o), Arr(End))));
      var scale := Get(d, ScalePath(o));
      if !IsSet(scale) {
        ScaledProper(u, d, based, i + 1, generate);
      } else {
        var whole := PutAll(based, EntriesOf(scale.tree));
        var sizes := generate(whole, GetOr(d, SizesPath(o), Arr(End)));
        SetProper(d, SizesPath(o), sizes);
        ScaledProper(u, Set(d, SizesPath(o), sizes), whole, i + 1, generate);
      }
    }
  }

  /** The sizes depend on the data so far only through the scales. */
  lemma {:induction false} ScaledSame(u: Tree, x: Tree, d: Tree, flat: Entries, i: nat, generate: Generator)
    requires i <= |ORIGINS| && forall o :: Get(u, ScalePath(o)) == Get(x, ScalePath(o))
    ensures Scaled(u, d, flat, i, generate) == Scaled(x, d, flat, i, generate)
    decreases |ORIGINS| - i
  {
    if i < |ORIGINS| {
      var o := ORIGINS[i];
      assert Get(u, ScalePath(o)) == Get(x, ScalePath(o));
      var based := PutAll(flat, EntriesOf(GetOr(u, ScalePath(o), Arr(End))));
      var scale := Get(d, ScalePath(o));
      if !IsSet(scale) {
        ScaledSame(u, x, d, based, i + 1, generate);
      } else {
        var whole := PutAll(based, EntriesOf(scale.tree));
        var sizes := generate(whole, GetOr(d, SizesPath(o), Arr(End)));
        ScaledSame(u, x, Set(d, SizesPath(o), sizes), whole, i + 1, generate);
      }
    }
  }

  /** What a job finds in the data with its sizes was somehow there before. */
  lemma ScaledFacts(u: Tree, d: Tree, table: seq<Meta>, generate: Generator, job: Job)
    requires GoodTable(table) && Constructed(d) && GoodJob(job, table)
    ensures Active(Scaled(u, d, End, 0, generate), job) ==> Get(d, PathOf(job)).Value?
    ensures Active(Scaled(u, d, End, 0, generate), job) && !Active(d, job) ==>
      exists o :: PathOf(job) == SizesPath(o) && IsSet(Get(d, ScalePath(o)))
  {
    if o :| IsSet(Get(d, ScalePath(o))) && PathOf(job) == SizesPath(o) {
      assert Get(d, SizesPath(o)).Value?;
    } else {
      forall o | IsSet(Get(d, ScalePath(o)))
        ensures Apart(SizesPath(o), PathOf(job))
      {
        SizesAreApart(job, o, table);
      }
      ScaledGet(u, d, End, 0, generate, PathOf(job));
    }
  }

  lemma ScaledOfOrigin(u: Tree, d: Tree, table: seq<Meta>, generate: Generator, o: string, job: Job)
    requires GoodTable(table) && SingleOrigin(d, table, o) && Constructed(d) && GoodJob(job, table)
    requires Active(Scaled(u, d, End, 0, generate), job)
    ensures OfOrigin(job, o)
  {
    ScaledFacts(u, d, table, generate, job);
  }

  // ---- The merge as writes ----

  ghost predicate Prepared(t: Tree, d: Tree, table: seq<Meta>, generate: Generator) {
    GoodTable(table) && Proper(t) && Proper(d) && ReturnsProper(generate) && Constructed(d)
  }

  ghost predicate Mergeable(t: Tree, d: Tree, table: seq<Meta>, generate: Generator, o: string) {
    Prepared(t, d, table, generate) && SingleOrigin(d, table, o)
  }

  /** The incoming data with its sizes. */
  function DataOf(t: Tree, d: Tree, generate: Generator): Tree {
    Scaled(Over(t, d), d, End, 0, generate)
  }

  function JobsOf(t: Tree, d: Tree, table: seq<Meta>, generate: Generator): seq<Job> {
    AllJobs(DataOf(t, d, generate), table, Over(t, d))
  }

  lemma PreparedData(t: Tree, d: Tree, table: seq<Meta>, generate: Generator)
    requires Prepared(t, d, table, generate)
    ensures Proper(Over(t, d)) && Proper(DataOf(t, d, generate))
    ensures GoodJobs(JobsOf(t, d, table, generate), table) && DefaultsFirst(JobsOf(t, d, table, generate))
  {
    OverProper(t, d);
    ScaledProper(Over(t, d), d, End, 0, generate);
    AllJobsAreGood(DataOf(t, d, generate), table, Over(t, d));
    AllDefaultsFirst(DataOf(t, d, generate), table, Over(t, d));
  }

  lemma WritesAreOfIncoming(v: Tree, t: Tree, d: Tree, table: seq<Meta>, generate: Generator)
    requires Prepared(t, d, table, generate)
    ensures forall w | w in WritesOf(v, Over(t, d), DataOf(t, d, generate), JobsOf(t, d, table, generate)) ::
      Get(d, w.path).Value? && !IsPrefix(w.path, STYLE_BLOCKS)
  {
    var u, data, jobs := Over(t, d), DataOf(t, d, generate), JobsOf(t, d, table, generate);
    PreparedData(t, d, table, generate);
    forall w | w in WritesOf(v, u, data, jobs)
      ensures Get(d, w.path).Value? && !IsPrefix(w.path, STYLE_BLOCKS)
    {
      var job := WritesFrom(v, u, data, jobs, w);
      ScaledFacts(u, d, table, generate, job);
    }
  }

  /** The settings written do not touch the styles, so the style nodes found
      afterwards are those that were there before. */
  lemma SettingsKeepStyles(v: Tree, u: Tree, d: Tree, jobs: seq<Job>, table: seq<Meta>)
    requires GoodJobs(jobs, table) && forall job | job in jobs :: !job.BackgroundOf?
    ensures StyleNodes(WriteAll(u, WritesOf(v, u, d, jobs))) == StyleNodes(u)
  {
    var ws := WritesOf(v, u, d, jobs);
    forall w | w in ws
      ensures Apart(w.path, STYLE_BLOCKS)
    {
      var job := WritesFrom(v, u, d, jobs, w);
      DifferAt(w.path, STYLE_BLOCKS, 0);
    }
    WritesApart(u, ws, STYLE_BLOCKS);
  }

  /** The whole merge as one list of writes over the laid-over data; v is any
      tree in which defaults and guards read as they do in the end. */
  lemma MergedAsWrites(v: Tree, t: Tree, d: Tree, table: seq<Meta>, generate: Generator)
    requires Prepared(t, d, table, generate) && Proper(v)
    requires AllRead(v, Over(t, d), DataOf(t, d, generate), JobsOf(t, d, table, generate))
    ensures Merged(t, d, table, generate) ==
      WriteAll(Over(t, d), WritesOf(v, Over(t, d), DataOf(t, d, generate), JobsOf(t, d, table, generate)))
  {
    var u, data, jobs := Over(t, d), DataOf(t, d, generate), JobsOf(t, d, table, generate);
    var a := SettingJobs(SettingNodes(data), table);
    PreparedData(t, d, table, generate);
    AllJobsAreGood(data, table, u);
    AllDefaultsFirst(data, table, u);
    SettingNodesAreNodes(data);
    forall job | job in a
      ensures !job.BackgroundOf?
    {
      SettingJobsAre(SettingNodes(data), table, job);
    }
    assert AllRead(v, u, data, a) by {
      assert forall job | job in a :: job in jobs;
    }
    DoneAsWrites(v, u, data, a, table);
    SettingsKeepStyles(v, u, data, a, table);
    DoConcat(u, u, data, a, StyleJobs(StyleNodes(u)));
    DoneAsWrites(v, u, data, jobs, table);
  }

  /** ... and the merged tree is one. */
  lemma MergedReads(t: Tree, d: Tree, table: seq<Meta>, generate: Generator)
    requires Prepared(t, d, table, generate)
    ensures var u, data, jobs, m := Over(t, d), DataOf(t, d, generate), JobsOf(t, d, table, generate), Merged(t, d, table, generate);
      Proper(m) && AllRead(m, u, data, jobs) && m == WriteAll(u, WritesOf(m, u, data, jobs))
  {
    var u, data, jobs := Over(t, d), DataOf(t, d, generate), JobsOf(t, d, table, generate);
    PreparedData(t, d, table, generate);
    var v := WriteAll(u, WritesOf(u, u, data, jobs));
    AllReadDone(u, u, data, jobs, table);
    WritesAreTidy(u, u, data, jobs, table);
    WritesProper(u, WritesOf(u, u, data, jobs));
    MergedAsWrites(v, t, d, table, generate);
    AllReadDone(v, u, data, jobs, table);
    WritesAreTidy(v, u, data, jobs, table);
    WritesProper(u, WritesOf(v, u, data, jobs));
    MergedAsWrites(Merged(t, d, table, generate), t, d, table, generate);
  }

  /** What the second merge starts from, against what the first one did. */
  lemma SecondStart(t: Tree, d: Tree, table: seq<Meta>, generate: Generator)
    requires Prepared(t, d, table, generate)
    ensures var u, m := Over(t, d), Merged(t, d, table, generate);
      var ws := WritesOf(m, u, DataOf(t, d, generate), JobsOf(t, d, table, generate));
      && Proper(m) && Tidy(ws) && WriteAll(Over(m, d), ws) == m && KeysAt(Over(m, d), STYLE_BLOCKS) == KeysAt(u, STYLE_BLOCKS)
      && forall q | AllApart(ws, q) :: Get(Over(m, d), q) == Get(u, q) == Get(m, q)
  {
    var u, data, jobs, m := Over(t, d), DataOf(t, d, generate), JobsOf(t, d, table, generate), Merged(t, d, table, generate);
    var ws := WritesOf(m, u, data, jobs);
    PreparedData(t, d, table, generate);
    MergedReads(t, d, table, generate);
    WritesAreOfIncoming(m, t, d, table, generate);
    WritesAreTidy(m, u, data, jobs, table);
    RewriteAgain(t, d, ws);
    forall q | AllApart(ws, q)
      ensures Get(Over(m, d), q) == Get(u, q) == Get(m, q)
    {
      WritesApart(u, ws, q);
      AgreeGet(Over(m, d), m, PathsOf(ws), q);
    }
    AgreeKeys(Over(m, d), m, PathsOf(ws), STYLE_BLOCKS);
    OverHas(t, d);
    forall w | w in ws
      ensures Get(u, w.path).Value?
    {
      HasGet(u, d, w.path);
    }
    WritesKeepKeys(u, ws, STYLE_BLOCKS);
  }

  /** The second merge has the same data and the same jobs. */
  lemma SecondJobs(t: Tree, d: Tree, table: seq<Meta>, generate: Generator)
    requires Prepared(t, d, table, generate)
    ensures var m := Merged(t, d, table, generate);
      && DataOf(m, d, generate) == DataOf(t, d, generate)
      && JobsOf(m, d, table, generate) == JobsOf(t, d, table, generate)
  {
    var u, data, jobs, m := Over(t, d), DataOf(t, d, generate), JobsOf(t, d, table, generate), Merged(t, d, table, generate);
    var ws := WritesOf(m, u, data, jobs);
    PreparedData(t, d, table, generate);
    SecondStart(t, d, table, generate);
    forall b
      ensures Get(u, ScalePath(b)) == Get(Over(m, d), ScalePath(b))
    {
      forall w | w in ws
        ensures Apart(w.path, ScalePath(b))
      {
        var job := WritesFrom(m, u, data, jobs, w);
        ScaleIsApart(job, b, table);
      }
      assert AllApart(ws, ScalePath(b));
    }
    ScaledSame(u, Over(m, d), d, End, 0, generate);
  }

  /** ... and its presets find the same beside them. */
  lemma SecondReads(t: Tree, d: Tree, table: seq<Meta>, generate: Generator)
    requires Prepared(t, d, table, generate)
    ensures var m := Merged(t, d, table, generate);
      AllRead(m, Over(m, d), DataOf(t, d, generate), JobsOf(t, d, table, generate))
  {
    var u, data, jobs, m := Over(t, d), DataOf(t, d, generate), JobsOf(t, d, table, generate), Merged(t, d, table, generate);
    var ws := WritesOf(m, u, data, jobs);
    PreparedData(t, d, table, generate);
    SecondStart(t, d, table, generate);
    MergedReads(t, d, table, generate);
    forall job | job in jobs && Active(data, job)
      ensures ReadsAre(m, Over(m, d), data, job)
    {
      assert ReadsAre(m, u, data, job);
      if job.PresetOf? && job.origin == "theme" {
        if !Active(data, DefaultOf(job)) {
          WritesMissInactive(m, u, data, jobs, table, DefaultOf(job));
        }
        if job.m.guard.Setting? {
          WritesMissGuards(m, u, data, jobs, table, job.node, job.m);
        }
      }
    }
  }

  // ---- The theorems ----

  /** Every job leaves its content in place: where units, a preset or a background
      image came in, the merged data holds exactly the incoming value (a preset of
      the theme as named and filtered by what the merged data says beside it, and
      by the slugs of the top-level defaults in the laid-over data), whatever was
      there before. */
  lemma JobStands(t: Tree, d: Tree, table: seq<Meta>, generate: Generator, job: Job)
    requires Prepared(t, d, table, generate)
    requires job in JobsOf(t, d, table, generate) && Active(DataOf(t, d, generate), job)
    ensures var m := Merged(t, d, table, generate);
      Get(m, PathOf(job)) == Value(ContentOf(m, Over(t, d), DataOf(t, d, generate), job))
  {
    var u, data, jobs, m := Over(t, d), DataOf(t, d, generate), JobsOf(t, d, table, generate), Merged(t, d, table, generate);
    MergedReads(t, d, table, generate);
    SecondStart(t, d, table, generate);
    WritesInclude(m, u, data, jobs, job);
    WritesStand(u, WritesOf(m, u, data, jobs), Write(PathOf(job), ContentOf(m, u, data, job)));
  }

  /** Merging any prepared data a second time changes nothing if and only if each
      preset comes out the same by the top-level defaults that the second merge
      finds. */
  lemma MergeTwiceExactly(t: Tree, d: Tree, table: seq<Meta>, generate: Generator)
    requires Prepared(t, d, table, generate)
    ensures var m, data := Merged(t, d, table, generate), DataOf(t, d, generate);
      Merged(m, d, table, generate) == m <==>
        forall job | job in JobsOf(t, d, table, generate) && Active(data, job) ::
          ContentOf(m, Over(m, d), data, job) == ContentOf(m, Over(t, d), data, job)
  {
    var u, data, jobs, m := Over(t, d), DataOf(t, d, generate), JobsOf(t, d, table, generate), Merged(t, d, table, generate);
    var x := Over(m, d);
    PreparedData(t, d, table, generate);
    SecondStart(t, d, table, generate);
    SecondJobs(t, d, table, generate);
    SecondReads(t, d, table, generate);
    MergedAsWrites(m, m, d, table, generate);
    if forall job | job in jobs && Active(data, job) :: ContentOf(m, x, data, job) == ContentOf(m, u, data, job) {
      SameWrites(m, u, m, x, data, jobs);
    }
    if Merged(m, d, table, generate) == m {
      WritesAreTidy(m, x, data, jobs, table);
      forall job | job in jobs && Active(data, job)
        ensures ContentOf(m, x, data, job) == ContentOf(m, u, data, job)
      {
        JobStands(t, d, table, generate, job);
        WritesInclude(m, x, data, jobs, job);
        WritesStand(x, WritesOf(m, x, data, jobs), Write(PathOf(job), ContentOf(m, x, data, job)));
      }
    }
  }

  /** In data of one origin no default comes in beside a preset of the theme, and
      the top-level defaults stay. */
  lemma DefaultsStay(t: Tree, d: Tree, table: seq<Meta>, generate: Generator, o: string, job: Job)
    requires Mergeable(t, d, table, generate, o)
    requires job in JobsOf(t, d, table, generate) && Active(DataOf(t, d, generate), job)
    ensures var m := Merged(t, d, table, generate);
      job.PresetOf? && job.origin == "theme" ==>
        DefaultSlugs(Over(t, d), SETTINGS, job.m) == DefaultSlugs(Over(m, d), SETTINGS, job.m) == DefaultSlugs(m, SETTINGS, job.m)
  {
    if job.PresetOf? && job.origin == "theme" {
      PreparedData(t, d, table, generate);
      ScaledOfOrigin(Over(t, d), d, table, generate, o, job);
      TopDefaultsStay(t, d, table, generate, job.m);
    }
  }

  /** Where a job has nothing to write, the second merge finds what the first one did. */
  lemma UnwrittenStays(t: Tree, d: Tree, table: seq<Meta>, generate: Generator, job: Job)
    requires Prepared(t, d, table, generate) && GoodJob(job, table) && !Active(DataOf(t, d, generate), job)
    ensures var m := Merged(t, d, table, generate);
      Get(Over(m, d), PathOf(job)) == Get(Over(t, d), PathOf(job)) == Get(m, PathOf(job))
  {
    var m, data, jobs := Merged(t, d, table, generate), DataOf(t, d, generate), JobsOf(t, d, table, generate);
    PreparedData(t, d, table, generate);
    SecondStart(t, d, table, generate);
    WritesMissInactive(m, Over(t, d), data, jobs, table, job);
  }

  /** No default of the top level comes in with the presets of a theme. */
  lemma TopDefaultsStay(t: Tree, d: Tree, table: seq<Meta>, generate: Generator, m: Meta)
    requires Mergeable(t, d, table, generate, "theme") && m in table
    ensures var merged := Merged(t, d, table, generate);
      DefaultSlugs(Over(t, d), SETTINGS, m) == DefaultSlugs(Over(merged, d), SETTINGS, m) == DefaultSlugs(merged, SETTINGS, m)
  {
    var top, merged := PresetOf(SETTINGS, m, "default"), Merged(t, d, table, generate);
    TopComesNot(Over(t, d), d, table, generate, top);
    UnwrittenStays(t, d, table, generate, top);
    SameSlugs(Over(t, d), Over(merged, d), SETTINGS, m);
    SameSlugs(Over(t, d), merged, SETTINGS, m);
  }

  lemma TopComesNot(u: Tree, d: Tree, table: seq<Meta>, generate: Generator, top: Job)
    requires GoodTable(table) && SingleOrigin(d, table, "theme") && Constructed(d) && GoodJob(top, table)
    requires top.PresetOf? && top.origin == "default"
    ensures !Active(Scaled(u, d, End, 0, generate), top)
  {
    if Active(Scaled(u, d, End, 0, generate), top) {
      ScaledOfOrigin(u, d, table, generate, "theme", top);
    }
  }

  lemma SameSlugs(a: Tree, b: Tree, node: Path, m: Meta)
    requires Get(a, OriginPath(node, m, "default")) == Get(b, OriginPath(node, m, "default"))
    ensures DefaultSlugs(a, node, m) == DefaultSlugs(b, node, m)
  {
  }

  lemma ContentBySlugs(v: Tree, u: Tree, x: Tree, d: Tree, job: Job)
    requires job.PresetOf? && job.origin == "theme" ==> DefaultSlugs(u, SETTINGS, job.m) == DefaultSlugs(x, SETTINGS, job.m)
    ensures ContentOf(v, u, d, job) == ContentOf(v, x, d, job)
  {
  }

  /** Merging data of one origin a second time changes nothing. */
  lemma MergeTwice(t: Tree, d: Tree, table: seq<Meta>, generate: Generator, o: string)
    requires Mergeable(t, d, table, generate, o)
    ensures var m := Merged(t, d, table, generate);
      Merged(m, d, table, generate) == m
  {
    var data, m := DataOf(t, d, generate), Merged(t, d, table, generate);
    MergeTwiceExactly(t, d, table, generate);
    forall job | job in JobsOf(t, d, table, generate) && Active(data, job)
      ensures ContentOf(m, Over(m, d), data, job) == ContentOf(m, Over(t, d), data, job)
    {
      DefaultsStay(t, d, table, generate, o, job);
      ContentBySlugs(m, Over(m, d), Over(t, d), data, job);
    }
  }

  // ---- What naming and filtering do ----

  ghost predicate HasItem(es: Entries, item: Tree) {
    es.Entry? && (es.value == item || HasItem(es.rest, item))
  }

  lemma {:induction false} KeptItems(es: Entries, slugs: seq<Tree>, n: nat, item: Tree)
    ensures HasItem(KeepItems(es, slugs, n), item) <==> HasItem(es, item) && Kept(item, slugs)
  {
    if es.Entry? {
      KeptItems(es.rest, slugs, n + 1, item);
      KeptItems(es.rest, slugs, n, item);
    }
  }

  /** Naming gives a name to items that have none, and changes nothing else. */
  lemma NamedOnly(item: Tree, defaults: Entries, key: Key)
    requires item.Arr?
    ensures Named(item, defaults).Arr?
    ensures key != Str("name") || IsSet(Find(item.entries, key)) ==> Find(Named(item, defaults).entries, key) == Find(item.entries, key)
  {
    FindPut(item.entries, Str("name"), NameIn(defaults, ValueOf(item, "slug")), key);
  }
}
