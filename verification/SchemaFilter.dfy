/** WP_Theme_JSON_Gutenberg::remove_keys_not_in_schema over PHP arrays. */
module SchemaFilter {
  import opened PhpArray

  /** A schema value: null, a boolean marker, or an array with string keys and
      possibly the key 0, which describes the items of a list. */
  datatype Schema = Any | Marker | Node(fields: Fields, item: Item)

  datatype Fields = NoMore | Field(name: string, sub: Schema, more: Fields)

  datatype Item = NoItem | ItemOf(schema: Schema)

  datatype Slot = Absent | Present(schema: Schema)

  function Named(fields: Fields, name: string): Slot {
    match fields
    case NoMore => Absent
    case Field(n, sub, more) => if n == name then Present(sub) else Named(more, name)
  }

  /** $schema[ $key ] */
  function SchemaAt(s: Schema, key: Key): Slot
    requires s.Node?
  {
    match key
    case Str(name) => Named(s.fields, name)
    case Int(n) => if n == 0 && s.item.ItemOf? then Present(s.item.schema) else Absent
  }

  /** wp_is_numeric_array: no string key; so the empty array is numeric. */
  predicate Numeric(es: Entries) {
    es.Entry? ==> es.key.Int? && Numeric(es.rest)
  }

  predicate HasItemSchema(s: Schema) {
    s.Node? && s.item.ItemOf? && s.item.schema.Node?
  }

  // ---- The filter ----

  function Filter(t: Tree, s: Schema): Tree
    requires s.Node?
    decreases t, 0
  {
    if t.Leaf? then t else Arr(FilterAll(t.entries, s))
  }

  function FilterAll(es: Entries, s: Schema): Entries
    requires s.Node?
    decreases es, 0
  {
    match es
    case End => End
    case Entry(key, value, rest) =>
      var found := SchemaAt(s, key);
      if found.Present? && Stays(value, found.schema) then Entry(key, FilterValue(value, found.schema), FilterAll(rest, s))
      else FilterAll(rest, s)
  }

  /** The entry is not unset. */
  predicate Stays(value: Tree, s: Schema)
    decreases value, 2
  {
    match s
    case Any => true
    case Marker => value.Leaf? && value.x.Flag?
    case Node(_, _) => value.Arr? && (Numeric(value.entries) || FilterAll(value.entries, s) != End)
  }

  function FilterValue(value: Tree, s: Schema): Tree
    decreases value, 1
  {
    if !s.Node? || value.Leaf? then value
    else if Numeric(value.entries) then Arr(FilterItems(value.entries, s))
    else Arr(FilterAll(value.entries, s))
  }

  function FilterItems(es: Entries, s: Schema): Entries
    requires s.Node?
    decreases es, 0
  {
    match es
    case End => End
    case Entry(key, value, rest) =>
      Entry(key, if HasItemSchema(s) then Filter(value, s.item.schema) else value, FilterItems(rest, s))
  }

  // ---- The code ----

  function Size(t: Tree): nat {
    if t.Leaf? then 1 else 1 + SizeAll(t.entries)
  }

  function SizeAll(es: Entries): nat {
    if es.End? then 0 else 1 + Size(es.value) + SizeAll(es.rest)
  }

  method RemoveKeysNotInSchema(tree: Tree, schema: Schema) returns (r: Tree)
    requires schema.Node?
    ensures r == Filter(tree, schema)
    decreases Size(tree), 0
  {
    if tree.Leaf? {
      return tree;
    }
    var kept, left := End, tree.entries;
    while left.Entry?
      invariant Concat(kept, FilterAll(left, schema)) == FilterAll(tree.entries, schema)
      invariant SizeAll(left) <= SizeAll(tree.entries)
      decreases SizeAll(left)
    {
      var key, value := left.key, left.value;
      var found := SchemaAt(schema, key);
      var stays, filtered := false, value;
      if found.Present? {
        stays, filtered := FilterOne(value, found.schema);
      }
      if stays {
        AppendConcat(kept, key, filtered, FilterAll(left.rest, schema));
        kept := Append(kept, key, filtered);
      }
      left := left.rest;
    }
    ConcatEnd(kept);
    return Arr(kept);
  }

  /** One entry whose key the schema has. */
  method FilterOne(value: Tree, schema: Schema) returns (stays: bool, r: Tree)
    ensures stays == Stays(value, schema) && (stays ==> r == FilterValue(value, schema))
    decreases Size(value), 1
  {
    if schema.Marker? {
      return value.Leaf? && value.x.Flag?, value;
    }
    if schema.Any? {
      return true, value;
    }
    if value.Leaf? {
      return false, value;
    }
    if Numeric(value.entries) {
      var items := FilterEach(value.entries, schema);
      return true, Arr(items);
    }
    r := RemoveKeysNotInSchema(value, schema);
    stays := r.entries != End;
  }

  /** The items of a list. */
  method FilterEach(entries: Entries, schema: Schema) returns (r: Entries)
    requires schema.Node?
    ensures r == FilterItems(entries, schema)
    decreases SizeAll(entries) + 1, 0
  {
    var left := entries;
    r := End;
    while left.Entry?
      invariant Concat(r, FilterItems(left, schema)) == FilterItems(entries, schema)
      invariant SizeAll(left) <= SizeAll(entries)
      decreases SizeAll(left)
    {
      var item := left.value;
      if HasItemSchema(schema) {
        item := RemoveKeysNotInSchema(left.value, schema.item.schema);
      }
      AppendConcat(r, left.key, item, FilterItems(left.rest, schema));
      r := Append(r, left.key, item);
      left := left.rest;
    }
    ConcatEnd(r);
  }

  // ---- What is left alone ----

  /** Every key is in the schema and every value is of the kind it asks for. */
  predicate Conforms(t: Tree, s: Schema)
    requires s.Node?
    decreases t, 0
  {
    t.Leaf? || AllConform(t.entries, s)
  }

  predicate AllConform(es: Entries, s: Schema)
    requires s.Node?
    decreases es, 0
  {
    es.Entry? ==> (SchemaAt(s, es.key).Present? && Fits(es.value, SchemaAt(s, es.key).schema) && AllConform(es.rest, s))
  }

  predicate Fits(value: Tree, s: Schema)
    decreases value, 1
  {
    match s
    case Any => true
    case Marker => value.Leaf? && value.x.Flag?
    case Node(_, _) => value.Arr? && if Numeric(value.entries) then ItemsFit(value.entries, s) else AllConform(value.entries, s)
  }

  predicate ItemsFit(es: Entries, s: Schema)
    requires s.Node?
    decreases es, 0
  {
    es.Entry? && HasItemSchema(s) ==> Conforms(es.value, s.item.schema) && ItemsFit(es.rest, s)
  }

  /** The filter changes nothing exactly when the tree conforms. */
  lemma {:induction false} FixedExactly(t: Tree, s: Schema)
    requires s.Node?
    ensures Filter(t, s) == t <==> Conforms(t, s)
    decreases t, 0
  {
    if t.Arr? {
      AllFixed(t.entries, s);
    }
  }

  lemma {:induction false} AllFixed(es: Entries, s: Schema)
    requires s.Node?
    ensures FilterAll(es, s) == es <==> AllConform(es, s)
    ensures Length(FilterAll(es, s)) <= Length(es)
    decreases es, 0
  {
    if es.Entry? {
      AllFixed(es.rest, s);
      var found := SchemaAt(s, es.key);
      if found.Present? {
        ValueFixed(es.value, found.schema);
      }
    }
  }

  function Length(es: Entries): nat {
    if es.End? then 0 else 1 + Length(es.rest)
  }

  lemma {:induction false} ValueFixed(value: Tree, s: Schema)
    ensures Stays(value, s) && FilterValue(value, s) == value <==> Fits(value, s)
    decreases value, 1
  {
    if s.Node? && value.Arr? {
      if Numeric(value.entries) {
        ItemsFixed(value.entries, s);
      } else {
        AllFixed(value.entries, s);
      }
    }
  }

  lemma {:induction false} ItemsFixed(es: Entries, s: Schema)
    requires s.Node?
    ensures FilterItems(es, s) == es <==> ItemsFit(es, s)
    decreases es, 0
  {
    if es.Entry? {
      ItemsFixed(es.rest, s);
      if HasItemSchema(s) {
        FixedExactly(es.value, s.item.schema);
      } else {
        NoItemsFit(es.rest, s);
      }
    }
  }

  lemma {:induction false} NoItemsFit(es: Entries, s: Schema)
    requires s.Node? && !HasItemSchema(s)
    ensures FilterItems(es, s) == es && ItemsFit(es, s)
  {
    if es.Entry? {
      NoItemsFit(es.rest, s);
    }
  }

  // ---- Doing it twice ----

  predicate Strings(es: Entries) {
    es.Entry? ==> es.key.Str? && Strings(es.rest)
  }

  /** Every array is purely a list or purely a map. */
  predicate Pure(t: Tree)
    decreases t, 1
  {
    t.Leaf? || ((Numeric(t.entries) || Strings(t.entries)) && AllPure(t.entries))
  }

  predicate AllPure(es: Entries)
    decreases es, 0
  {
    es.Entry? ==> Pure(es.value) && AllPure(es.rest)
  }

  lemma {:induction false} KeysStay(es: Entries, s: Schema)
    requires s.Node?
    ensures Strings(es) ==> Strings(FilterAll(es, s))
    ensures Numeric(FilterItems(es, s)) == Numeric(es)
  {
    if es.Entry? {
      KeysStay(es.rest, s);
    }
  }

  lemma {:induction false} PureConforms(t: Tree, s: Schema)
    requires s.Node? && Pure(t)
    ensures Conforms(Filter(t, s), s)
    decreases t, 1
  {
    if t.Arr? {
      AllPureConform(t.entries, s);
    }
  }

  lemma {:induction false} AllPureConform(es: Entries, s: Schema)
    requires s.Node? && AllPure(es)
    ensures AllConform(FilterAll(es, s), s)
    decreases es, 0
  {
    if es.Entry? {
      AllPureConform(es.rest, s);
      var found := SchemaAt(s, es.key);
      if found.Present? && Stays(es.value, found.schema) {
        PureFits(es.value, found.schema);
      }
    }
  }

  lemma {:induction false} PureFits(value: Tree, s: Schema)
    requires Pure(value) && Stays(value, s)
    ensures Fits(FilterValue(value, s), s)
    decreases value, 2
  {
    if s.Node? {
      KeysStay(value.entries, s);
      if Numeric(value.entries) {
        PureItemsFit(value.entries, s);
      } else {
        AllPureConform(value.entries, s);
      }
    }
  }

  lemma {:induction false} PureItemsFit(es: Entries, s: Schema)
    requires s.Node? && AllPure(es)
    ensures ItemsFit(FilterItems(es, s), s)
    decreases es, 0
  {
    if es.Entry? && HasItemSchema(s) {
      PureItemsFit(es.rest, s);
      PureConforms(es.value, s.item.schema);
    }
  }

  /** Filtering trees of lists and maps a second time changes nothing. */
  lemma PureIdempotent(t: Tree, s: Schema)
    requires s.Node? && Pure(t)
    ensures Filter(Filter(t, s), s) == Filter(t, s)
  {
    PureConforms(t, s);
    FixedExactly(Filter(t, s), s);
  }

  /** No value of the schema describes the items of a list. */
  predicate Listless(s: Schema)
    decreases s, 0
  {
    s.Node? ==> !HasItemSchema(s) && AllListless(s.fields)
  }

  predicate AllListless(fields: Fields)
    decreases fields, 0
  {
    fields.Field? ==> Listless(fields.sub) && AllListless(fields.more)
  }

  predicate ListlessRoot(s: Schema)
    requires s.Node?
  {
    AllListless(s.fields) && (s.item.ItemOf? ==> Listless(s.item.schema))
  }

  lemma {:induction false} NamedListless(fields: Fields, name: string)
    requires AllListless(fields)
    ensures Named(fields, name).Present? ==> Listless(Named(fields, name).schema)
  {
    if fields.Field? && fields.name != name {
      NamedListless(fields.more, name);
    }
  }

  lemma {:induction false} ListlessConforms(es: Entries, s: Schema)
    requires s.Node? && ListlessRoot(s)
    ensures AllConform(FilterAll(es, s), s)
    decreases es, 0
  {
    if es.Entry? {
      ListlessConforms(es.rest, s);
      var found := SchemaAt(s, es.key);
      if found.Present? && Stays(es.value, found.schema) {
        if es.key.Str? {
          NamedListless(s.fields, es.key.s);
        }
        ListlessFits(es.value, found.schema);
      }
    }
  }

  lemma {:induction false} ListlessFits(value: Tree, s: Schema)
    requires Listless(s) && Stays(value, s)
    ensures Fits(FilterValue(value, s), s)
    decreases value, 1
  {
    if s.Node? {
      var es := FilterValue(value, s).entries;
      NoItemsFit(es, s);
      NoItemsFit(value.entries, s);
      if !Numeric(value.entries) {
        ListlessConforms(value.entries, s);
      }
    }
  }

  // A mixed array that becomes a list when its string keys go is read
  // differently the second time.

  function Longest(fields: Fields): nat {
    if fields.NoMore? then 0
    else if |fields.name| > Longest(fields.more) then |fields.name| else Longest(fields.more)
  }

  /** A name the schema does not have. */
  function Unnamed(fields: Fields): (name: string)
    ensures |name| > Longest(fields)
  {
    seq(Longest(fields) + 1, _ => 'x')
  }

  lemma {:induction false} UnnamedIsMissing(fields: Fields, name: string)
    requires |name| > Longest(fields)
    ensures Named(fields, name) == Absent
  {
    if fields.Field? {
      UnnamedIsMissing(fields.more, name);
    }
  }

  /** PHP arrays do not repeat keys. */
  predicate ProperFields(fields: Fields)
    decreases fields, 0
  {
    fields.Field? ==> Named(fields.more, fields.name) == Absent && ProperFields(fields.more) && ProperSchema(fields.sub)
  }

  predicate ProperSchema(s: Schema)
    decreases s, 0
  {
    s.Node? ==> ProperFields(s.fields) && (s.item.ItemOf? ==> ProperSchema(s.item.schema))
  }

  /** A value that comes out differently the second time. */
  function Unstable(s: Schema): Tree
    requires !Listless(s)
    decreases s, 0
  {
    if HasItemSchema(s) then
      Arr(Entry(Int(0), Arr(Entry(Int(1), Leaf(Null), End)), Entry(Str(Unnamed(s.fields)), Leaf(Null), End)))
    else Arr(UnstableField(s.fields))
  }

  function UnstableField(fields: Fields): Entries
    requires !AllListless(fields)
    decreases fields, 0
  {
    if !Listless(fields.sub) then Entry(Str(fields.name), Unstable(fields.sub), End) else UnstableField(fields.more)
  }

  ghost predicate Changes(value: Tree, s: Schema) {
    && Stays(value, s)
    && !(Stays(FilterValue(value, s), s) && FilterValue(FilterValue(value, s), s) == FilterValue(value, s))
  }

  lemma {:induction false} UnstableChanges(s: Schema)
    requires !Listless(s) && ProperSchema(s)
    ensures Changes(Unstable(s), s)
    decreases s, 0
  {
    if HasItemSchema(s) {
      MixedChanges(s);
    } else {
      UnstableFieldChanges(s.fields, s);
    }
  }

  lemma MixedChanges(s: Schema)
    requires HasItemSchema(s)
    ensures Changes(Unstable(s), s)
  {
    var item := s.item.schema;
    var inner := Arr(Entry(Int(1), Leaf(Null), End));
    UnnamedIsMissing(s.fields, Unnamed(s.fields));
    assert FilterItems(inner.entries, item) == inner.entries by {
      assert FilterItems(End, item) == End;
    }
    assert FilterValue(inner, item) == inner && Stays(inner, item);
    assert FilterAll(Entry(Str(Unnamed(s.fields)), Leaf(Null), End), s) == End;
    assert FilterAll(Unstable(s).entries, s) == Entry(Int(0), inner, End);
    assert FilterAll(inner.entries, item) == End;
    assert !Numeric(Unstable(s).entries) by {
      assert !Numeric(Unstable(s).entries.rest);
    }
    var once := FilterValue(Unstable(s), s);
    assert once == Arr(Entry(Int(0), inner, End));
    assert FilterItems(End, s) == End;
    assert FilterItems(once.entries, s) == Entry(Int(0), Arr(End), End);
    assert Numeric(once.entries) by {
      assert Numeric(End);
    }
    assert FilterValue(once, s) == Arr(FilterItems(once.entries, s));
  }

  lemma {:induction false} UnstableFieldChanges(fields: Fields, s: Schema)
    requires !AllListless(fields) && ProperFields(fields) && s.Node? && !HasItemSchema(s)
    requires forall name | Named(fields, name).Present? :: Named(s.fields, name) == Named(fields, name)
    ensures Changes(Arr(UnstableField(fields)), s)
    decreases fields, 0
  {
    if !Listless(fields.sub) {
      UnstableChanges(fields.sub);
      var bad := Unstable(fields.sub);
      assert Named(s.fields, fields.name) == Present(fields.sub);
      assert FilterAll(UnstableField(fields), s) == Entry(Str(fields.name), FilterValue(bad, fields.sub), End) by {
        assert FilterAll(End, s) == End;
      }
    } else {
      forall name | Named(fields.more, name).Present?
        ensures Named(s.fields, name) == Named(fields.more, name)
      {
        assert Named(fields, name) == Named(fields.more, name);
      }
      UnstableFieldChanges(fields.more, s);
    }
  }

  /** A schema filters every input to something it leaves alone if and only if
      none of its values describes the items of a list. */
  lemma IdempotentExactly(s: Schema)
    requires s.Node? && ProperSchema(s)
    ensures (forall t :: Filter(Filter(t, s), s) == Filter(t, s)) <==> ListlessRoot(s)
  {
    if ListlessRoot(s) {
      forall t
        ensures Filter(Filter(t, s), s) == Filter(t, s)
      {
        if t.Arr? {
          ListlessConforms(t.entries, s);
          FixedExactly(Filter(t, s), s);
        }
      }
    } else {
      var t := if AllListless(s.fields) then Arr(Entry(Int(0), Unstable(s.item.schema), End)) else Arr(UnstableField(s.fields));
      RootChanges(s, t);
    }
  }

  lemma RootChanges(s: Schema, t: Tree)
    requires s.Node? && ProperSchema(s) && !ListlessRoot(s)
    requires t == if AllListless(s.fields) then Arr(Entry(Int(0), Unstable(s.item.schema), End)) else Arr(UnstableField(s.fields))
    ensures Filter(Filter(t, s), s) != Filter(t, s)
  {
    if AllListless(s.fields) {
      UnstableChanges(s.item.schema);
      assert FilterAll(End, s) == End;
    } else {
      var plain := Node(s.fields, NoItem);
      UnstableFieldChanges(s.fields, plain);
      SameFields(UnstableField(s.fields), s, plain);
      StringsOfUnstable(s.fields);
      KeysStay(UnstableField(s.fields), plain);
      SameFields(FilterAll(UnstableField(s.fields), plain), s, plain);
    }
  }

  /** On string keys only the fields of a schema matter. */
  lemma {:induction false} SameFields(es: Entries, s: Schema, plain: Schema)
    requires s.Node? && plain.Node? && s.fields == plain.fields
    ensures Strings(es) ==> FilterAll(es, s) == FilterAll(es, plain)
  {
    if es.Entry? {
      SameFields(es.rest, s, plain);
    }
  }

  lemma {:induction false} StringsOfUnstable(fields: Fields)
    requires !AllListless(fields)
    ensures Strings(UnstableField(fields)) && UnstableField(fields).Entry?
  {
    if Listless(fields.sub) {
      StringsOfUnstable(fields.more);
    }
  }

  // ---- What survives ----

  /** The leaf x is in the tree at the end of a path. */
  predicate Holds(t: Tree, path: Path, x: Scalar)
    decreases t, 1
  {
    if path == [] then t == Leaf(x) else t.Arr? && HoldsIn(t.entries, path, x)
  }

  predicate HoldsIn(es: Entries, path: Path, x: Scalar)
    requires path != []
    decreases es, 0
  {
    es.Entry? && ((es.key == path[0] && Holds(es.value, path[1..], x)) || HoldsIn(es.rest, path, x))
  }

  /** The schema has the keys of the path, up to a null that allows anything
      below it or to a marker that asks for a boolean. A list has no keys of its
      own in the schema: its items are described by the key 0, or allowed. */
  predicate Allows(s: Schema, path: Path, x: Scalar)
    decreases |path|, 1
  {
    match s
    case Any => true
    case Marker => path == [] && x.Flag?
    case Node(_, _) => path != [] && if path[0].Str? then AllowsKey(s, path, x) else AllowsItem(s, path[1..], x)
  }

  predicate AllowsKey(s: Schema, path: Path, x: Scalar)
    requires s.Node? && path != []
    decreases |path|, 0
  {
    match path[0]
    case Str(name) => Named(s.fields, name).Present? && Allows(Named(s.fields, name).schema, path[1..], x)
    case Int(n) => n == 0 && s.item.ItemOf? && Allows(s.item.schema, path[1..], x)
  }

  predicate AllowsItem(s: Schema, path: Path, x: Scalar)
    requires s.Node?
    decreases |path|, 2
  {
    path == [] || !(s.item.ItemOf? && s.item.schema.Node?) || AllowsKey(s.item.schema, path, x)
  }

  predicate Names(path: Path) {
    forall i | 0 <= i < |path| :: path[i].Str?
  }

  /** Exactly the leaves the schema allows survive, in maps and in lists, and
      nothing else appears: on every path if each array is a list or a map, and
      on paths of string keys in any case. */
  lemma {:induction false} SurvivorsExactly(t: Tree, s: Schema, path: Path, x: Scalar)
    requires s.Node? && (Pure(t) || Names(path))
    ensures Holds(Filter(t, s), path, x) <==> Holds(t, path, x) && (path == [] || AllowsKey(s, path, x))
    decreases t, 1
  {
    if t.Arr? && path != [] {
      SurvivorsIn(t.entries, s, path, x);
    }
  }

  lemma {:induction false} SurvivorsIn(es: Entries, s: Schema, path: Path, x: Scalar)
    requires s.Node? && path != [] && (AllPure(es) || Names(path))
    ensures HoldsIn(FilterAll(es, s), path, x) <==> HoldsIn(es, path, x) && AllowsKey(s, path, x)
    decreases es, 0
  {
    if es.Entry? {
      SurvivorsIn(es.rest, s, path, x);
      var found := SchemaAt(s, es.key);
      if es.key == path[0] && found.Present? {
        ValueSurvives(es.value, found.schema, path[1..], x);
      }
    }
  }

  lemma {:induction false} ValueSurvives(value: Tree, s: Schema, path: Path, x: Scalar)
    requires Pure(value) || Names(path)
    ensures Stays(value, s) && Holds(FilterValue(value, s), path, x) <==> Holds(value, path, x) && Allows(s, path, x)
    decreases value, 2
  {
    if s.Node? && value.Arr? && path != [] {
      OnlyItsKeys(value.entries, path, x);
      if Numeric(value.entries) {
        ItemsSurvive(value.entries, s, path, x);
      } else {
        SurvivorsIn(value.entries, s, path, x);
      }
    }
  }

  lemma {:induction false} ItemsSurvive(es: Entries, s: Schema, path: Path, x: Scalar)
    requires s.Node? && path != [] && Numeric(es) && (AllPure(es) || Names(path))
    ensures HoldsIn(FilterItems(es, s), path, x) <==> HoldsIn(es, path, x) && AllowsItem(s, path[1..], x)
    decreases es, 0
  {
    if es.Entry? {
      ItemsSurvive(es.rest, s, path, x);
      if es.key == path[0] && HasItemSchema(s) {
        SurvivorsExactly(es.value, s.item.schema, path[1..], x);
      }
    }
  }

  lemma {:induction false} OnlyItsKeys(es: Entries, path: Path, x: Scalar)
    requires path != []
    ensures HoldsIn(es, path, x) && Numeric(es) ==> path[0].Int?
    ensures HoldsIn(es, path, x) && Strings(es) ==> path[0].Str?
  {
    if es.Entry? {
      OnlyItsKeys(es.rest, path, x);
    }
  }

  // ---- What survives in any tree, mixed arrays included ----

  /** A key on the way to a leaf, and whether its array is a list. */
  datatype Step = Step(key: Key, inList: bool)

  function StepKeys(steps: seq<Step>): (path: Path)
    ensures |path| == |steps| && forall i | 0 <= i < |steps| :: path[i] == steps[i].key
  {
    seq(|steps|, i requires 0 <= i < |steps| => steps[i].key)
  }

  predicate Leads(t: Tree, steps: seq<Step>, x: Scalar)
    decreases t, 1
  {
    if steps == [] then t == Leaf(x) else t.Arr? && steps[0].inList == Numeric(t.entries) && LeadsIn(t.entries, steps, x)
  }

  predicate LeadsIn(es: Entries, steps: seq<Step>, x: Scalar)
    requires steps != []
    decreases es, 0
  {
    es.Entry? && ((es.key == steps[0].key && Leads(es.value, steps[1..], x)) || LeadsIn(es.rest, steps, x))
  }

  /** As Allows, but a key of an array that mixes names and integers is looked
      up in the schema even if it is an integer; of those the schema has at
      most 0. */
  predicate Admits(s: Schema, steps: seq<Step>, x: Scalar)
    decreases |steps|, 1
  {
    match s
    case Any => true
    case Marker => steps == [] && x.Flag?
    case Node(_, _) => steps != [] && if steps[0].inList then AdmitsItem(s, steps[1..], x) else AdmitsKey(s, steps, x)
  }

  predicate AdmitsKey(s: Schema, steps: seq<Step>, x: Scalar)
    requires s.Node? && steps != []
    decreases |steps|, 0
  {
    match steps[0].key
    case Str(name) => Named(s.fields, name).Present? && Admits(Named(s.fields, name).schema, steps[1..], x)
    case Int(n) => n == 0 && s.item.ItemOf? && Admits(s.item.schema, steps[1..], x)
  }

  predicate AdmitsItem(s: Schema, steps: seq<Step>, x: Scalar)
    requires s.Node?
    decreases |steps|, 2
  {
    steps == [] || !(s.item.ItemOf? && s.item.schema.Node?) || AdmitsKey(s.item.schema, steps, x)
  }

  lemma KeysRest(steps: seq<Step>)
    requires steps != []
    ensures StepKeys(steps)[1..] == StepKeys(steps[1..]) && StepKeys(steps)[0] == steps[0].key
  {
  }

  lemma {:induction false} LedHolds(t: Tree, steps: seq<Step>, x: Scalar)
    requires Leads(t, steps, x)
    ensures Holds(t, StepKeys(steps), x)
    decreases t, 1
  {
    if steps != [] {
      LedHoldsIn(t.entries, steps, x);
    }
  }

  lemma {:induction false} LedHoldsIn(es: Entries, steps: seq<Step>, x: Scalar)
    requires steps != [] && LeadsIn(es, steps, x)
    ensures HoldsIn(es, StepKeys(steps), x)
    decreases es, 0
  {
    KeysRest(steps);
    if es.key == steps[0].key && Leads(es.value, steps[1..], x) {
      LedHolds(es.value, steps[1..], x);
    } else {
      LedHoldsIn(es.rest, steps, x);
    }
  }

  lemma {:induction false} AdmittedIn(es: Entries, s: Schema, steps: seq<Step>, x: Scalar)
    requires s.Node? && steps != [] && LeadsIn(es, steps, x) && AdmitsKey(s, steps, x)
    ensures HoldsIn(FilterAll(es, s), StepKeys(steps), x)
    decreases es, 0
  {
    KeysRest(steps);
    if es.key == steps[0].key && Leads(es.value, steps[1..], x) {
      AdmittedValue(es.value, SchemaAt(s, es.key).schema, steps[1..], x);
    } else {
      AdmittedIn(es.rest, s, steps, x);
    }
  }

  lemma {:induction false} AdmittedValue(value: Tree, s: Schema, steps: seq<Step>, x: Scalar)
    requires Leads(value, steps, x) && Admits(s, steps, x)
    ensures Stays(value, s) && Holds(FilterValue(value, s), StepKeys(steps), x)
    decreases value, 2
  {
    if !s.Node? {
      LedHolds(value, steps, x);
    } else if steps[0].inList {
      AdmittedItems(value.entries, s, steps, x);
    } else {
      AdmittedIn(value.entries, s, steps, x);
    }
  }

  lemma {:induction false} AdmittedItems(es: Entries, s: Schema, steps: seq<Step>, x: Scalar)
    requires s.Node? && steps != [] && LeadsIn(es, steps, x) && AdmitsItem(s, steps[1..], x)
    ensures HoldsIn(FilterItems(es, s), StepKeys(steps), x)
    decreases es, 0
  {
    KeysRest(steps);
    var rest := steps[1..];
    if es.key == steps[0].key && Leads(es.value, rest, x) {
      if !HasItemSchema(s) {
        LedHolds(es.value, rest, x);
      } else if rest != [] {
        AdmittedIn(es.value.entries, s.item.schema, rest, x);
      }
    } else {
      AdmittedItems(es.rest, s, steps, x);
    }
  }

  lemma StepsOnto(key: Key, inList: bool, rest: seq<Step>) returns (steps: seq<Step>)
    ensures steps == [Step(key, inList)] + rest && steps[1..] == rest && StepKeys(steps) == [key] + StepKeys(rest)
  {
    steps := [Step(key, inList)] + rest;
  }

  lemma {:induction false} HeldIsLed(t: Tree, path: Path, x: Scalar) returns (steps: seq<Step>)
    requires Holds(t, path, x)
    ensures StepKeys(steps) == path && Leads(t, steps, x)
    decreases t, 1
  {
    steps := [];
    if path != [] {
      steps := HeldIsLedIn(t.entries, path, x, Numeric(t.entries));
    }
  }

  lemma {:induction false} HeldIsLedIn(es: Entries, path: Path, x: Scalar, inList: bool) returns (steps: seq<Step>)
    requires path != [] && HoldsIn(es, path, x)
    ensures steps != [] && steps[0].inList == inList && StepKeys(steps) == path && LeadsIn(es, steps, x)
    decreases es, 0
  {
    if es.key == path[0] && Holds(es.value, path[1..], x) {
      var rest := HeldIsLed(es.value, path[1..], x);
      steps := StepsOnto(es.key, inList, rest);
      assert path == [path[0]] + path[1..];
    } else {
      steps := HeldIsLedIn(es.rest, path, x, inList);
    }
  }

  lemma {:induction false} SurvivorIsAdmitted(es: Entries, s: Schema, path: Path, x: Scalar, inList: bool) returns (steps: seq<Step>)
    requires s.Node? && path != [] && HoldsIn(FilterAll(es, s), path, x)
    ensures steps != [] && steps[0].inList == inList && StepKeys(steps) == path && LeadsIn(es, steps, x) && AdmitsKey(s, steps, x)
    decreases es, 0
  {
    var found := SchemaAt(s, es.key);
    if es.key == path[0] && found.Present? && Stays(es.value, found.schema) && Holds(FilterValue(es.value, found.schema), path[1..], x) {
      var rest := ValueIsAdmitted(es.value, found.schema, path[1..], x);
      steps := StepsOnto(es.key, inList, rest);
      assert path == [path[0]] + path[1..];
    } else {
      steps := SurvivorIsAdmitted(es.rest, s, path, x, inList);
    }
  }

  lemma {:induction false} ValueIsAdmitted(value: Tree, s: Schema, path: Path, x: Scalar) returns (steps: seq<Step>)
    requires Stays(value, s) && Holds(FilterValue(value, s), path, x)
    ensures StepKeys(steps) == path && Leads(value, steps, x) && Admits(s, steps, x)
    decreases value, 2
  {
    if !s.Node? {
      steps := HeldIsLed(value, path, x);
    } else if Numeric(value.entries) {
      steps := ItemIsAdmitted(value.entries, s, path, x);
    } else {
      steps := SurvivorIsAdmitted(value.entries, s, path, x, false);
    }
  }

  lemma {:induction false} ItemIsAdmitted(es: Entries, s: Schema, path: Path, x: Scalar) returns (steps: seq<Step>)
    requires s.Node? && path != [] && HoldsIn(FilterItems(es, s), path, x)
    ensures steps != [] && steps[0].inList && StepKeys(steps) == path && LeadsIn(es, steps, x) && AdmitsItem(s, steps[1..], x)
    decreases es, 0
  {
    var item := if HasItemSchema(s) then Filter(es.value, s.item.schema) else es.value;
    if es.key == path[0] && Holds(item, path[1..], x) {
      var rest: seq<Step>;
      if HasItemSchema(s) && path[1..] != [] {
        rest := SurvivorIsAdmitted(es.value.entries, s.item.schema, path[1..], x, Numeric(es.value.entries));
      } else {
        rest := HeldIsLed(es.value, path[1..], x);
      }
      steps := StepsOnto(es.key, true, rest);
      assert path == [path[0]] + path[1..];
    } else {
      steps := ItemIsAdmitted(es.rest, s, path, x);
    }
  }

  /** In any tree exactly the leaves that the schema admits survive: an integer
      key of a mixed array, unlike one of a list, is looked up like a name. */
  lemma SurvivorsOfAnyTree(t: Tree, s: Schema, path: Path, x: Scalar)
    requires s.Node? && path != []
    ensures Holds(Filter(t, s), path, x) <==> exists steps :: StepKeys(steps) == path && Leads(t, steps, x) && AdmitsKey(s, steps, x)
  {
    if t.Arr? && Holds(Filter(t, s), path, x) {
      var steps := SurvivorIsAdmitted(t.entries, s, path, x, Numeric(t.entries));
      assert StepKeys(steps) == path && Leads(t, steps, x) && AdmitsKey(s, steps, x);
    }
    if steps :| StepKeys(steps) == path && Leads(t, steps, x) && AdmitsKey(s, steps, x) {
      AdmittedIn(t.entries, s, steps, x);
    }
  }

  // ---- Which entries survive ----

  function FieldList(fields: Fields): seq<(string, Schema)> {
    if fields.NoMore? then [] else [(fields.name, fields.sub)] + FieldList(fields.more)
  }

  /** A name is looked up among all the fields of the schema: the first that has
      it counts. */
  lemma {:induction false} NamedIsFirst(fields: Fields, name: string) returns (i: nat)
    ensures var list := FieldList(fields);
      && i <= |list| && (forall j | 0 <= j < i :: list[j].0 != name)
      && (if i == |list| then Named(fields, name) == Absent else Named(fields, name) == Present(list[i].1) && list[i].0 == name)
  {
    i := 0;
    if fields.Field? && fields.name != name {
      var k := NamedIsFirst(fields.more, name);
      i := k + 1;
      assert forall j | 1 <= j < |FieldList(fields)| :: FieldList(fields)[j] == FieldList(fields.more)[j - 1];
    }
  }

  lemma {:induction false} NumericMeans(es: Entries)
    ensures Numeric(es) <==> forall k | Find(es, k).Value? :: k.Int?
  {
    if es.Entry? {
      NumericMeans(es.rest);
      assert Find(es, es.key).Value?;
      if !Numeric(es.rest) {
        var k :| Find(es.rest, k).Value? && !k.Int?;
        assert Find(es, k).Value?;
      }
    }
  }

  lemma {:induction false} FindFiltered(es: Entries, s: Schema, key: Key)
    requires s.Node? && AllProper(es)
    ensures Find(FilterAll(es, s), key) ==
      if Find(es, key).Value? && SchemaAt(s, key).Present? && Stays(Find(es, key).tree, SchemaAt(s, key).schema)
      then Value(FilterValue(Find(es, key).tree, SchemaAt(s, key).schema)) else Nothing
  {
    if es.Entry? {
      FindFiltered(es.rest, s, key);
    }
  }

  /** The kinds of value a schema value lets stay: anything, a boolean, a list
      (an empty one too), or a map of which some entry stays. */
  ghost predicate MayStay(value: Tree, s: Schema) {
    match s
    case Any => true
    case Marker => value == Leaf(Flag(true)) || value == Leaf(Flag(false))
    case Node(_, _) =>
      value.Arr? && ((forall k | Find(value.entries, k).Value? :: k.Int?) || exists k :: Find(FilterAll(value.entries, s), k).Value?)
  }

  /** An entry survives exactly when the schema has its key and its value may
      stay: a map left without entries goes, an empty list stays. */
  lemma EntryStaysExactly(es: Entries, s: Schema, key: Key)
    requires s.Node? && AllProper(es)
    ensures Find(es, key).Nothing? ==> Find(FilterAll(es, s), key).Nothing?
    ensures Find(es, key).Value? ==>
      match key
      case Str(name) => Find(FilterAll(es, s), key).Value? <==>
        Named(s.fields, name).Present? && MayStay(Find(es, key).tree, Named(s.fields, name).schema)
      case Int(n) => Find(FilterAll(es, s), key).Value? <==>
        n == 0 && s.item.ItemOf? && MayStay(Find(es, key).tree, s.item.schema)
  {
    FindFiltered(es, s, key);
    if Find(es, key).Value? && SchemaAt(s, key).Present? {
      StaysMeans(Find(es, key).tree, SchemaAt(s, key).schema);
    }
  }

  lemma StaysMeans(value: Tree, s: Schema)
    ensures Stays(value, s) <==> MayStay(value, s)
  {
    if s.Node? && value.Arr? {
      NumericMeans(value.entries);
      var kept := FilterAll(value.entries, s);
      assert kept.Entry? ==> Find(kept, kept.key).Value?;
    }
  }

  /** Every item of a list stays, under its number. */
  lemma {:induction false} ItemsKeepTheirPlaces(es: Entries, s: Schema)
    requires s.Node?
    ensures KeysOf(FilterItems(es, s)) == KeysOf(es)
  {
    if es.Entry? {
      ItemsKeepTheirPlaces(es.rest, s);
    }
  }
}
