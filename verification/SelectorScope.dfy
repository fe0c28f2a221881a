/** WP_Theme_JSON_Gutenberg::scope_selector: nesting one selector list in another. */
module SelectorScope {
  import opened SelectorLexer
  import opened SelectorScanner
  import opened SelectorJoin

  /** PHP's empty() of a string. */
  predicate Falsy(s: string) {
    s == "" || s == "0"
  }

  function Pair(outer: string, inner: string): string {
    if !Falsy(outer) && !Falsy(inner) then outer + " " + inner
    else if Falsy(outer) then inner
    else outer
  }

  function Row(outer: string, inners: seq<string>): (r: seq<string>)
    ensures |r| == |inners| && forall j | 0 <= j < |inners| :: r[j] == Pair(outer, inners[j])
  {
    seq(|inners|, j requires 0 <= j < |inners| => Pair(outer, inners[j]))
  }

  /** Every outer with every inner, the outers in order and, for each, the inners. */
  function Product(outers: seq<string>, inners: seq<string>): seq<string> {
    if outers == [] then [] else Product(outers[..|outers| - 1], inners) + Row(outers[|outers| - 1], inners)
  }

  function Scope(scope: string, selector: string): string {
    if Falsy(scope) || Falsy(selector) then selector else Join(Product(Split(scope), Split(selector)), ", ")
  }

  method ScopeSelector(scope: string, selector: string) returns (r: string)
    ensures r == Scope(scope, selector)
    ensures scope == "" || scope == "0" || selector == "" || selector == "0" ==> r == selector
  {
    if Falsy(scope) || Falsy(selector) {
      return selector;
    }
    var scopes := SplitSelectorList(scope);
    var selectors := SplitSelectorList(selector);
    var scoped := Combine(scopes, selectors);
    return Join(scoped, ", ");
  }

  /** The outer loop. */
  method Combine(scopes: seq<string>, selectors: seq<string>) returns (scoped: seq<string>)
    ensures scoped == Product(scopes, selectors)
  {
    scoped := [];
    for i := 0 to |scopes|
      invariant scoped == Product(scopes[..i], selectors)
    {
      ProductPush(scopes[..i], scopes[i], selectors);
      assert scopes[..i + 1] == scopes[..i] + [scopes[i]];
      scoped := AddRow(scoped, scopes[i], selectors);
    }
    assert scopes[..|scopes|] == scopes;
  }

  /** The inner loop. */
  method AddRow(before: seq<string>, outer: string, selectors: seq<string>) returns (scoped: seq<string>)
    ensures scoped == before + Row(outer, selectors)
  {
    scoped := before;
    for j := 0 to |selectors|
      invariant |scoped| == |before| + j && before <= scoped
      invariant forall k | 0 <= k < j :: scoped[|before| + k] == Pair(outer, selectors[k])
    {
      scoped := scoped + [Pair(outer, selectors[j])];
    }
  }

  lemma ProductPush(outers: seq<string>, outer: string, inners: seq<string>)
    ensures Product(outers + [outer], inners) == Product(outers, inners) + Row(outer, inners)
  {
    assert (outers + [outer])[..|outers|] == outers;
  }

  /** Place i * |inners| + j of the product. */
  lemma ProductAt(outers: seq<string>, inners: seq<string>, i: nat, j: nat, k: nat)
    requires i < |outers| && j < |inners| && k == i * |inners| + j
    ensures |Product(outers, inners)| == |outers| * |inners|
    ensures k < |Product(outers, inners)| && Product(outers, inners)[k] == Pair(outers[i], inners[j])
    ensures Product(outers, inners)[k] ==
      if outers[i] == "" || outers[i] == "0" then inners[j]
      else if inners[j] == "" || inners[j] == "0" then outers[i]
      else outers[i] + " " + inners[j]
  {
    ProductSize(outers, inners);
    var before, after := ProductSplits(outers, inners, i);
    InMiddle(Product(outers, inners), before, Row(outers[i], inners), after, j, k);
  }

  lemma InMiddle(whole: seq<string>, before: seq<string>, row: seq<string>, after: seq<string>, j: nat, k: nat)
    requires whole == before + row + after && j < |row| && k == |before| + j
    ensures k < |whole| && whole[k] == row[j]
  {
  }

  /** The row of outer i, with what is before and after it. */
  lemma {:induction false} ProductSplits(outers: seq<string>, inners: seq<string>, i: nat)
    returns (before: seq<string>, after: seq<string>)
    requires i < |outers|
    ensures Product(outers, inners) == before + Row(outers[i], inners) + after && |before| == i * |inners|
    decreases |outers|
  {
    var front, last := outers[..|outers| - 1], outers[|outers| - 1];
    assert outers == front + [last];
    ProductPush(front, last, inners);
    if i < |front| {
      before, after := ProductSplits(front, inners, i);
      after := after + Row(last, inners);
    } else {
      ProductSize(front, inners);
      before, after := Product(front, inners), [];
    }
  }

  lemma {:induction false} ProductSize(outers: seq<string>, inners: seq<string>)
    ensures |Product(outers, inners)| == |outers| * |inners|
  {
    if outers != [] {
      ProductSize(outers[..|outers| - 1], inners);
      Rows(|outers| - 1, |inners|);
    }
  }

  lemma Rows(n: nat, m: nat)
    ensures (n + 1) * m == n * m + m
  {
  }

  // ---- Lists of selectors ----

  /** A selector on its own: self-contained, trimmed, and not empty to PHP. */
  predicate Usable(item: string) {
    SelfContained(item) && Trimmed(item) && !Falsy(item)
  }

  predicate AllUsable(items: seq<string>) {
    forall i | 0 <= i < |items| :: Usable(items[i])
  }

  lemma PairIsUsable(a: string, b: string)
    requires Usable(a) && Usable(b)
    ensures Usable(Pair(a, b))
  {
    var s := a + " " + b;
    SpaceAlone(Run(Start, a));
    RunConcat(Start, a, " ");
    RunConcat(Start, a + " ", b);
    PiecesConcat(Start, a, " ");
    PiecesConcat(Start, a + " ", b);
    assert |Pieces(Start, s)| == 1;
    OnePiece(Start, s);
    assert s[0] == a[0] && s[|s| - 1] == b[|b| - 1] && |s| >= 3;
  }

  lemma SpaceAlone(x: Lexer)
    requires Closed0(x)
    ensures Run(x, " ") == Start && Pieces(x, " ") == [" "]
  {
    Push(x, "", ' ');
    assert "" + [' '] == " ";
    assert GrowLast([""], [' ']) == [" "];
  }

  lemma {:induction false} ProductIsUsable(outers: seq<string>, inners: seq<string>)
    requires AllUsable(outers) && AllUsable(inners)
    ensures AllUsable(Product(outers, inners))
  {
    if outers != [] {
      var n := |outers| - 1;
      ProductIsUsable(outers[..n], inners);
      forall j | 0 <= j < |inners|
        ensures Usable(Pair(outers[n], inners[j]))
      {
        PairIsUsable(outers[n], inners[j]);
      }
    }
  }

  lemma SplitNotEmpty(s: string)
    requires AllUsable(Split(s))
    ensures Split(s) != [] && !Falsy(s)
  {
    SplitIsItemized(s);
    if Falsy(s) {
      FalsyIsUnusable(s);
    }
  }

  lemma FalsyIsUnusable(s: string)
    requires Falsy(s)
    ensures !AllUsable(Split(s))
  {
    NoComma(s);
    TrimSpaced(s);
    assert Split(s)[0] == s;
  }

  /** Scoping is the product: split again, the scoped list is every outer
      followed by every inner, in order. */
  lemma ScopeIsProduct(a: string, b: string)
    requires AllUsable(Split(a)) && AllUsable(Split(b))
    ensures Split(Scope(a, b)) == Product(Split(a), Split(b)) && AllUsable(Split(Scope(a, b)))
    ensures Scope(a, b) == Join(Product(Split(a), Split(b)), ", ")
  {
    SplitNotEmpty(a);
    SplitNotEmpty(b);
    ProductIsUsable(Split(a), Split(b));
    ProductSize(Split(a), Split(b));
    assert |Split(a)| * |Split(b)| >= 1;
    SplitJoinSelfContained(Product(Split(a), Split(b)));
  }

  /** Every pair but the last is self-contained, and the last one is single. */
  ghost predicate PairsStand(outers: seq<string>, inners: seq<string>)
    requires outers != [] && inners != []
  {
    && (forall i, j | 0 <= i < |outers| && 0 <= j < |inners| && !(i == |outers| - 1 && j == |inners| - 1) ::
          SelfContained(Pair(outers[i], inners[j])))
    && Single(Pair(outers[|outers| - 1], inners[|inners| - 1]))
  }

  lemma ProductStands(outers: seq<string>, inners: seq<string>)
    requires outers != [] && inners != []
    ensures Product(outers, inners) != [] && (Chained(Product(outers, inners)) <==> PairsStand(outers, inners))
  {
    ProductSize(outers, inners);
    LastPlace(|outers|, |inners|);
    if Chained(Product(outers, inners)) {
      ChainedPairs(outers, inners);
    }
    if PairsStand(outers, inners) {
      PairsChain(outers, inners);
    }
  }

  lemma ChainedPairs(outers: seq<string>, inners: seq<string>)
    requires outers != [] && inners != [] && Chained(Product(outers, inners))
    ensures PairsStand(outers, inners)
  {
    var ps, n, m := Product(outers, inners), |outers|, |inners|;
    forall i, j | 0 <= i < n && 0 <= j < m
      ensures Single(Pair(outers[i], inners[j]))
      ensures !(i == n - 1 && j == m - 1) ==> SelfContained(Pair(outers[i], inners[j]))
    {
      var k := i * m + j;
      ProductAt(outers, inners, i, j, k);
      assert Single(ps[k]);
      if !(i == n - 1 && j == m - 1) {
        NotLastPlace(i, j, n, m);
        assert SelfContained(ps[k]);
      }
    }
  }

  lemma PairsChain(outers: seq<string>, inners: seq<string>)
    requires outers != [] && inners != [] && PairsStand(outers, inners)
    ensures Chained(Product(outers, inners))
  {
    ProductAt(outers, inners, 0, 0, 0);
    forall k | 0 <= k < |Product(outers, inners)|
      ensures Single(Product(outers, inners)[k])
      ensures k < |Product(outers, inners)| - 1 ==> SelfContained(Product(outers, inners)[k])
    {
      PairAtPlace(outers, inners, k);
    }
  }

  lemma PairHolds(outers: seq<string>, inners: seq<string>, i: nat, j: nat)
    requires outers != [] && inners != [] && PairsStand(outers, inners) && i < |outers| && j < |inners|
    ensures Single(Pair(outers[i], inners[j]))
    ensures !(i == |outers| - 1 && j == |inners| - 1) ==> SelfContained(Pair(outers[i], inners[j]))
  {
  }

  lemma PairAtPlace(outers: seq<string>, inners: seq<string>, k: nat)
    requires outers != [] && inners != [] && PairsStand(outers, inners) && k < |Product(outers, inners)|
    ensures Single(Product(outers, inners)[k])
    ensures k < |Product(outers, inners)| - 1 ==> SelfContained(Product(outers, inners)[k])
  {
    var i, j := PlaceInProduct(outers, inners, k);
    PairHolds(outers, inners, i, j);
  }

  lemma PlaceInProduct(outers: seq<string>, inners: seq<string>, k: nat) returns (i: nat, j: nat)
    requires outers != [] && inners != [] && k < |Product(outers, inners)|
    ensures i < |outers| && j < |inners| && Product(outers, inners)[k] == Pair(outers[i], inners[j])
    ensures k < |Product(outers, inners)| - 1 ==> !(i == |outers| - 1 && j == |inners| - 1)
  {
    ProductSize(outers, inners);
    i, j := PlaceOf(k, |outers|, |inners|);
    ProductAt(outers, inners, i, j, k);
  }

  lemma LastPlace(n: nat, m: nat)
    requires n > 0 && m > 0
    ensures (n - 1) * m + m - 1 == n * m - 1
  {
    Rows(n - 1, m);
  }

  lemma NotLastPlace(i: nat, j: nat, n: nat, m: nat)
    requires i < n && j < m && !(i == n - 1 && j == m - 1)
    ensures i * m + j < n * m - 1
  {
    LastPlace(n, m);
    if i < n - 1 {
      Rows(i, m);
      Times(i + 1, n - 1, m);
    }
  }

  lemma Times(a: nat, b: nat, m: nat)
    requires a <= b
    ensures a * m <= b * m
  {
  }

  lemma PlaceOf(k: nat, n: nat, m: nat) returns (i: nat, j: nat)
    requires m > 0 && k < n * m
    ensures i < n && j < m && k == i * m + j && (i == n - 1 && j == m - 1 ==> k == n * m - 1)
  {
    i, j := k / m, k % m;
    assert k == i * m + j;
    if i >= n {
      assert false;
    }
    Rows(n - 1, m);
  }

  /** Pairs of trimmed items are trimmed. */
  lemma {:induction false} ProductTrimmed(outers: seq<string>, inners: seq<string>)
    requires AllTrimmed(outers) && AllTrimmed(inners)
    ensures AllTrimmed(Product(outers, inners))
  {
    if outers != [] {
      var n := |outers| - 1;
      ProductTrimmed(outers[..n], inners);
      forall j | 0 <= j < |inners|
        ensures Trimmed(Pair(outers[n], inners[j]))
      {
        PairTrimmed(outers[n], inners[j]);
      }
    }
  }

  lemma PairTrimmed(a: string, b: string)
    requires Trimmed(a) && Trimmed(b)
    ensures Trimmed(Pair(a, b))
  {
    var s := a + " " + b;
    if a != "" && b != "" {
      assert s[0] == a[0] && s[|s| - 1] == b[|b| - 1];
    }
  }

  lemma ChainedIsEscapeFree(items: seq<string>)
    ensures Chained(items) <==> Itemized(items) && Escapes(items[..|items| - 1]) == 0
  {
    if Itemized(items) && Escapes(items[..|items| - 1]) == 0 {
      ItemizedIsChained(items);
    }
    if Chained(items) {
      NoEscapes(items[..|items| - 1]);
    }
  }

  /** For any two lists: scoping splits back to the product if and only if the
      pairs stand on their own; where PHP takes one of the lists for empty, if
      the scope is, or is nothing but a selector that is. */
  lemma ScopeIsProductExactly(a: string, b: string)
    ensures Split(Scope(a, b)) == Product(Split(a), Split(b)) <==>
      if Falsy(a) then true
      else if Falsy(b) then |Split(a)| == 1 && Falsy(Split(a)[0])
      else PairsStand(Split(a), Split(b))
  {
    if Falsy(a) {
      FalsySplit(a);
      RowOfFalsy(a, Split(b));
    } else if Falsy(b) {
      FalsySplit(b);
      OnlyFalsy(Split(a), b);
    } else {
      SplitIsTrimmed(a);
      SplitIsTrimmed(b);
      JoinOfProduct(Split(a), Split(b));
    }
  }

  lemma JoinOfProduct(outers: seq<string>, inners: seq<string>)
    requires outers != [] && inners != [] && AllTrimmed(outers) && AllTrimmed(inners)
    ensures Split(Join(Product(outers, inners), ", ")) == Product(outers, inners) <==> PairsStand(outers, inners)
  {
    ProductTrimmed(outers, inners);
    ProductStands(outers, inners);
    ChainedIsEscapeFree(Product(outers, inners));
    SplitJoinExactly(Product(outers, inners));
  }

  lemma OnlyFalsy(outers: seq<string>, b: string)
    requires Falsy(b) && outers != []
    ensures Product(outers, [b]) == [b] <==> |outers| == 1 && Falsy(outers[0])
  {
    ProductSize(outers, [b]);
    ProductAt(outers, [b], 0, 0, 0);
  }

  lemma FalsySplit(s: string)
    requires Falsy(s)
    ensures Split(s) == [s]
  {
    NoComma(s);
    TrimSpaced(s);
  }

  lemma RowOfFalsy(outer: string, inners: seq<string>)
    requires Falsy(outer)
    ensures Product([outer], inners) == inners
  {
    assert [outer][..0] == [];
    assert Product([], inners) == [];
    assert Row(outer, inners) == inners;
  }

  lemma {:induction false} ProductConcat(a: seq<string>, b: seq<string>, c: seq<string>)
    ensures Product(a + b, c) == Product(a, c) + Product(b, c)
  {
    if b == [] {
      assert a + b == a;
    } else {
      var front, last := b[..|b| - 1], b[|b| - 1];
      assert b == front + [last] && a + b == (a + front) + [last];
      ProductConcat(a, front, c);
      ProductPush(a + front, last, c);
      ProductPush(front, last, c);
    }
  }

  lemma RowConcat(x: string, a: seq<string>, b: seq<string>)
    ensures Row(x, a + b) == Row(x, a) + Row(x, b)
  {
  }

  lemma PairAssociative(x: string, y: string, z: string)
    requires Usable(x) && Usable(y) && Usable(z)
    ensures Pair(Pair(x, y), z) == Pair(x, Pair(y, z))
  {
    assert x + " " + y + " " + z == x + " " + (y + " " + z);
  }

  lemma RowOfRow(x: string, y: string, c: seq<string>)
    requires Usable(x) && Usable(y) && AllUsable(c)
    ensures Row(Pair(x, y), c) == Row(x, Row(y, c))
  {
    forall j | 0 <= j < |c|
      ensures Row(Pair(x, y), c)[j] == Row(x, Row(y, c))[j]
    {
      PairAssociative(x, y, c[j]);
    }
  }

  lemma RowPush(x: string, ys: seq<string>, y: string)
    ensures Row(x, ys + [y]) == Row(x, ys) + [Pair(x, y)]
  {
  }

  lemma {:induction false} RowProduct(x: string, b: seq<string>, c: seq<string>)
    requires Usable(x) && AllUsable(b) && AllUsable(c)
    ensures Product(Row(x, b), c) == Row(x, Product(b, c))
  {
    if b == [] {
      assert Row(x, b) == [] && Product(b, c) == [];
    } else {
      var front, last := b[..|b| - 1], b[|b| - 1];
      assert b == front + [last];
      RowProduct(x, front, c);
      RowPush(x, front, last);
      ProductPush(Row(x, front), Pair(x, last), c);
      ProductPush(front, last, c);
      RowOfRow(x, last, c);
      RowConcat(x, Product(front, c), Row(last, c));
    }
  }

  lemma {:induction false} ProductAssociative(a: seq<string>, b: seq<string>, c: seq<string>)
    requires AllUsable(a) && AllUsable(b) && AllUsable(c)
    ensures Product(Product(a, b), c) == Product(a, Product(b, c))
  {
    if a != [] {
      var n := |a| - 1;
      ProductAssociative(a[..n], b, c);
      ProductConcat(Product(a[..n], b), Row(a[n], b), c);
      RowProduct(a[n], b, c);
    }
  }

  /** Scoping is associative, to the letter. */
  lemma ScopeIsAssociative(a: string, b: string, c: string)
    requires AllUsable(Split(a)) && AllUsable(Split(b)) && AllUsable(Split(c))
    ensures Scope(Scope(a, b), c) == Scope(a, Scope(b, c))
  {
    ScopeIsProduct(a, b);
    ScopeIsProduct(b, c);
    ScopeIsProduct(Scope(a, b), c);
    ScopeIsProduct(a, Scope(b, c));
    ProductAssociative(Split(a), Split(b), Split(c));
  }
}
