/** When splitting undoes joining: the law that selector scoping, appending and
    prepending rest on. */
module SelectorJoin {
  import opened SelectorLexer
  import opened SelectorScanner

  /** No comma of `item`, read on its own, separates. */
  predicate Single(item: string) {
    Pieces(Start, item) == [item]
  }

  predicate Closed0(x: Lexer) {
    x.depth == 0 && Outside(x)
  }

  /** What follows `item` is read as if nothing preceded it. */
  predicate SelfContained(item: string) {
    Single(item) && Closed0(Run(Start, item))
  }

  /** The last character of `item` escapes whatever comes next. */
  predicate EndsInEscape(item: string) {
    Run(Start, item) == Lexer(Escaped, 0)
  }

  /** Items such as split_selector_list makes: all but the last could be
      followed by a comma when they were cut, before they were trimmed. */
  ghost predicate Itemized(items: seq<string>) {
    && items != []
    && (forall i | 0 <= i < |items| :: Single(items[i]))
    && (forall i | 0 <= i < |items| - 1 :: SelfContained(items[i]) || EndsInEscape(items[i]))
  }

  lemma SpaceAfter(x: Lexer, ps: seq<string>)
    requires Run(x, ",") == Start && Pieces(x, ",") == ps
    ensures Run(x, ", ") == Start && Pieces(x, ", ") == GrowLast(ps, " ")
  {
    Push(x, ",", ' ');
    assert "," + [' '] == ", ";
    assert [' '] == " ";
  }

  lemma CommaAfter(x: Lexer)
    ensures Closed0(x) ==> Run(x, ",") == Start && Pieces(x, ",") == ["", ""]
    ensures x == Lexer(Escaped, 0) ==> Run(x, ",") == Start && Pieces(x, ",") == [","]
  {
    Push(x, "", ',');
    assert "" + [','] == ",";
    assert GrowLast([""], [',']) == [","];
  }

  lemma SeparatorRuns(x: Lexer)
    ensures Closed0(x) ==> Run(x, ", ") == Start && Pieces(x, ", ") == ["", " "]
    ensures x == Lexer(Escaped, 0) ==> Run(x, ", ") == Start && Pieces(x, ", ") == [", "]
  {
    CommaAfter(x);
    if Closed0(x) {
      SpaceAfter(x, ["", ""]);
      assert "" + " " == " ";
      assert GrowLast(["", ""], " ") == ["", " "];
    } else if x == Lexer(Escaped, 0) {
      SpaceAfter(x, [","]);
      assert "," + " " == ", ";
      assert GrowLast([","], " ") == [", "];
    }
  }

  lemma GlueSeparator(ps: seq<string>, item: string)
    requires |ps| >= 1
    ensures Glue(Glue(ps, ["", " "]), [item]) == ps + [" " + item]
    ensures Glue(Glue(ps, [", "]), [item]) == GrowLast(ps, ", " + item)
  {
    var k := |ps| - 1;
    assert ps[k] + "" == ps[k];
    assert Glue(ps, ["", " "]) == ps + [" "];
    assert ps[k] + ", " + item == ps[k] + (", " + item);
  }

  /** One more item after a joined list. */
  lemma JoinOneMore(front: string, y: Lexer, item: string)
    requires Run(Start, front) == y && (Closed0(y) || y == Lexer(Escaped, 0)) && Single(item)
    ensures Run(Start, front + ", " + item) == Run(Start, item)
    ensures Pieces(Start, front + ", " + item) ==
      if Closed0(y) then Pieces(Start, front) + [" " + item] else GrowLast(Pieces(Start, front), ", " + item)
  {
    SeparatorRuns(y);
    RunConcat(Start, front, ", ");
    RunConcat(Start, front + ", ", item);
    PiecesConcat(Start, front, ", ");
    PiecesConcat(Start, front + ", ", item);
    GlueSeparator(Pieces(Start, front), item);
  }

  lemma ItemizedFront(items: seq<string>)
    requires Itemized(items) && |items| > 1
    ensures Itemized(items[..|items| - 1])
    ensures var y := Run(Start, items[|items| - 2]); Closed0(y) || y == Lexer(Escaped, 0)
  {
    var front := items[..|items| - 1];
    assert forall i | 0 <= i < |front| :: front[i] == items[i];
  }

  /** How many commas of the join an item before it swallows. */
  function Escapes(items: seq<string>): nat {
    if items == [] then 0
    else Escapes(items[..|items| - 1]) + if EndsInEscape(items[|items| - 1]) then 1 else 0
  }

  lemma EscapesPush(items: seq<string>, item: string)
    ensures Escapes(items + [item]) == Escapes(items) + if EndsInEscape(item) then 1 else 0
  {
    assert (items + [item])[..|items|] == items;
  }

  lemma JoinCountsPush(front: seq<string>, joined: string, y: Lexer, item: string)
    requires front != [] && joined == Join(front, ", ") && y == Run(Start, joined)
    requires (Closed0(y) || y == Lexer(Escaped, 0)) && Single(item)
    ensures Run(Start, Join(front + [item], ", ")) == Run(Start, item)
    ensures |Pieces(Start, Join(front + [item], ", "))| == |Pieces(Start, joined)| + if Closed0(y) then 1 else 0
  {
    JoinPush(front, ", ", item);
    JoinOneMore(joined, y, item);
  }

  /** Each item makes a piece, but those after an escape join the piece before. */
  lemma {:induction false} JoinCounts(items: seq<string>)
    requires Itemized(items)
    ensures Run(Start, Join(items, ", ")) == Run(Start, items[|items| - 1])
    ensures |Pieces(Start, Join(items, ", "))| == |items| - Escapes(items) + if EndsInEscape(items[|items| - 1]) then 1 else 0
  {
    if |items| > 1 {
      var front, item := items[..|items| - 1], items[|items| - 1];
      assert items == front + [item];
      ItemizedFront(items);
      JoinCounts(front);
      EscapesPush(front, item);
      JoinCountsPush(front, Join(front, ", "), Run(Start, front[|front| - 1]), item);
    }
  }

  /** The pieces of a joined list: each item but the first has the separator's
      space before it. */
  function Spaced(items: seq<string>): (r: seq<string>)
    ensures |r| == |items|
    ensures forall i | 0 <= i < |items| :: r[i] == if i == 0 then items[0] else " " + items[i]
  {
    seq(|items|, i requires 0 <= i < |items| => if i == 0 then items[0] else " " + items[i])
  }

  lemma SpacedPush(items: seq<string>, item: string)
    requires items != []
    ensures Spaced(items + [item]) == Spaced(items) + [" " + item]
  {
    assert forall i | 0 <= i < |items| :: (items + [item])[i] == items[i];
  }

  /** Itemized, with no item but the last that ends in an escape. */
  ghost predicate Chained(items: seq<string>) {
    && items != [] && (forall i | 0 <= i < |items| :: Single(items[i]))
    && forall i | 0 <= i < |items| - 1 :: SelfContained(items[i])
  }

  lemma ItemizedIsChained(items: seq<string>)
    requires Itemized(items) && Escapes(items[..|items| - 1]) == 0
    ensures Chained(items)
  {
    var front := items[..|items| - 1];
    NoEscapes(front);
    assert forall i | 0 <= i < |front| :: front[i] == items[i];
  }

  lemma ChainedFront(front: seq<string>, item: string)
    requires Chained(front + [item]) && front != []
    ensures Chained(front) && SelfContained(front[|front| - 1]) && Single(item)
  {
    var items := front + [item];
    assert forall i | 0 <= i < |front| :: items[i] == front[i];
    assert items[|front|] == item;
  }

  lemma {:induction false} JoinPieces(items: seq<string>)
    requires Chained(items)
    ensures Run(Start, Join(items, ", ")) == Run(Start, items[|items| - 1])
    ensures Pieces(Start, Join(items, ", ")) == Spaced(items)
  {
    if |items| > 1 {
      var front, item := items[..|items| - 1], items[|items| - 1];
      assert items == front + [item];
      ChainedFront(front, item);
      JoinPieces(front);
      JoinPiecesPush(front, Join(front, ", "), item);
    }
  }

  lemma JoinPiecesPush(front: seq<string>, joined: string, item: string)
    requires front != [] && joined == Join(front, ", ") && Single(item)
    requires Closed0(Run(Start, joined)) && Pieces(Start, joined) == Spaced(front)
    ensures Run(Start, Join(front + [item], ", ")) == Run(Start, item)
    ensures Pieces(Start, Join(front + [item], ", ")) == Spaced(front + [item])
  {
    JoinPush(front, ", ", item);
    JoinOneMore(joined, Run(Start, joined), item);
    SpacedPush(front, item);
  }

  lemma TrimSpaced(item: string)
    requires Trimmed(item)
    ensures Trim(item) == item && Trim(" " + item) == item
  {
    if item == "" {
      TrimOfSpace(" " + item);
    } else {
      TrimCore("", item);
      TrimCore(" ", item);
      assert "" + item == item;
    }
  }

  lemma TrimCore(space: string, item: string)
    requires AllSpace(space) && Trimmed(item) && item != ""
    ensures Trim(space + item) == item
  {
    TrimIs(space, item, "");
    assert space + item + "" == space + item;
  }

  ghost predicate AllTrimmed(items: seq<string>) {
    forall i | 0 <= i < |items| :: Trimmed(items[i])
  }

  lemma MapTrimSpaced(items: seq<string>)
    requires AllTrimmed(items)
    ensures Map(Trim, Spaced(items)) == items
  {
    forall i | 0 <= i < |items|
      ensures Trim(Spaced(items)[i]) == items[i]
    {
      TrimSpaced(items[i]);
    }
  }

  lemma SplitJoin(items: seq<string>)
    requires Itemized(items) && AllTrimmed(items) && Escapes(items[..|items| - 1]) == 0
    ensures Split(Join(items, ", ")) == items
  {
    ItemizedIsChained(items);
    JoinPieces(items);
    MapTrimSpaced(items);
    var ps := Spaced(items);
    assert |ps| > 1 ==> ps[|ps| - 1] == " " + items[|items| - 1];
    assert Kept(ps) == ps;
  }

  lemma SplitIsTrimmed(s: string)
    ensures AllTrimmed(Split(s))
  {
    var ps := Kept(Pieces(Start, s));
    forall i | 0 <= i < |ps|
      ensures Trimmed(Trim(ps[i]))
    {
      TrimTrims(ps[i]);
    }
  }

  /** Splitting undoes joining for exactly the lists whose items are single on
      their own, trimmed and, but for the last, closed and not ending in an
      escape. */
  lemma SplitJoinExactly(items: seq<string>)
    ensures Split(Join(items, ", ")) == items <==> Itemized(items) && AllTrimmed(items) && Escapes(items[..|items| - 1]) == 0
  {
    if !Itemized(items) {
      SplitIsItemized(Join(items, ", "));
    } else if Escapes(items[..|items| - 1]) != 0 {
      JoinCounts(items);
    } else if AllTrimmed(items) {
      SplitJoin(items);
    } else {
      SplitIsTrimmed(Join(items, ", "));
    }
  }

  lemma SplitJoinSelfContained(items: seq<string>)
    requires items != [] && AllTrimmed(items) && forall i | 0 <= i < |items| :: SelfContained(items[i])
    ensures Split(Join(items, ", ")) == items
  {
    NoEscapes(items[..|items| - 1]);
    SplitJoin(items);
  }

  lemma {:induction false} NoEscapes(items: seq<string>)
    ensures Escapes(items) == 0 <==> forall i | 0 <= i < |items| :: !EndsInEscape(items[i])
  {
    if items != [] {
      var n := |items| - 1;
      NoEscapes(items[..n]);
      assert forall i | 0 <= i < n :: items[..n][i] == items[i];
    }
  }

  // ---- The items of any text ----

  /** Pieces of a text that leaves the lexer at y: every one is single on its
      own, all but the last were closed, and the last leaves the lexer at y too. */
  ghost predicate PiecesStand(y: Lexer, ps: seq<string>) {
    && ps != [] && (forall i | 0 <= i < |ps| :: Single(ps[i]))
    && (forall i | 0 <= i < |ps| - 1 :: Closed0(Run(Start, ps[i])))
    && Run(Start, ps[|ps| - 1]) == y
  }

  lemma {:induction false} PiecesOfText(s: string)
    ensures PiecesStand(Run(Start, s), Pieces(Start, s))
  {
    if s != "" {
      var front, c := s[..|s| - 1], s[|s| - 1];
      PiecesOfText(front);
      PiecesOneMore(Run(Start, front), c, Pieces(Start, front));
    }
  }

  lemma PiecesOneMore(y: Lexer, c: char, ps: seq<string>)
    requires PiecesStand(y, ps)
    ensures PiecesStand(Step(y, c), Grown(y, ps, c))
  {
    if Separates(y, c) {
      StandPush(y, ps);
    } else {
      StandGrow(y, c, ps);
    }
  }

  lemma StandPush(y: Lexer, ps: seq<string>)
    requires PiecesStand(y, ps) && Closed0(y)
    ensures PiecesStand(Start, ps + [""])
  {
    assert Single("");
  }

  lemma StandGrow(y: Lexer, c: char, ps: seq<string>)
    requires PiecesStand(y, ps) && !Separates(y, c)
    ensures PiecesStand(Step(y, c), GrowLast(ps, [c]))
  {
    var last := ps[|ps| - 1];
    Push(Start, last, c);
    assert GrowLast([last], [c]) == [last + [c]];
  }

  lemma OnePiece(x: Lexer, s: string)
    requires |Pieces(x, s)| == 1
    ensures Pieces(x, s) == [s]
  {
    PiecesJoin(x, s);
  }

  predicate RealQuote(x: Lexer) {
    x.mode.Quoted? || x.mode.QuotedEscape? ==> x.mode.q == '"' || x.mode.q == '\''
  }

  lemma {:induction false} RunQuotes(s: string)
    ensures RealQuote(Run(Start, s))
  {
    if s != "" {
      RunQuotes(s[..|s| - 1]);
    }
  }

  lemma {:induction false} SpaceRuns(y: Lexer, space: string)
    requires AllSpace(space) && RealQuote(y)
    ensures RealQuote(Run(y, space))
    ensures Run(y, space).depth == y.depth
    ensures space != "" ==> Run(y, space).mode.Plain? || Run(y, space).mode.Quoted? || Run(y, space).mode.Comment?
    ensures Outside(Run(y, space)) <==> Outside(y) || (space != "" && y.mode.Escaped?)
  {
    if space != "" {
      var n := |space| - 1;
      SpaceRuns(y, space[..n]);
      assert Space(space[n]);
      assert n == 0 ==> Run(y, space[..n]) == y;
    }
  }

  lemma TrimStands(p: string)
    requires Single(p)
    ensures Single(Trim(p)) && Trimmed(Trim(p))
    ensures Closed0(Run(Start, p)) ==> SelfContained(Trim(p)) || EndsInEscape(Trim(p))
  {
    TrimTrims(p);
    var item := Trim(p);
    var left, right := TrimParts(p);
    SpaceRuns(Start, left);
    assert left != "" ==> Run(Start, left) == Start;
    RunQuotes(item);
    SpaceRuns(Run(Start, item), right);
    RunConcat(Start, left, item);
    RunConcat(Start, left + item, right);
    PiecesConcat(Start, left, item);
    PiecesConcat(Start, left + item, right);
    assert |Pieces(Start, item)| == 1;
    OnePiece(Start, item);
  }

  lemma SplitIsItemized(s: string)
    ensures Itemized(Split(s))
  {
    PiecesOfText(s);
    var ps := Kept(Pieces(Start, s));
    forall i | 0 <= i < |ps|
      ensures Single(Trim(ps[i]))
      ensures i < |ps| - 1 ==> SelfContained(Trim(ps[i])) || EndsInEscape(Trim(ps[i]))
    {
      TrimStands(ps[i]);
    }
  }

  /** Splitting what was split and joined gives the same items for exactly the
      texts in which no item but the last ends in an escape: trimming takes off
      the space such an escape was for, and it then swallows the separator. */
  lemma SplitUndoesJoinExactly(s: string)
    ensures var items := Split(s);
      Split(Join(items, ", ")) == items <==> forall i | 0 <= i < |items| - 1 :: !EndsInEscape(items[i])
  {
    var items := Split(s);
    SplitIsItemized(s);
    var front := items[..|items| - 1];
    NoEscapes(front);
    assert forall i | 0 <= i < |front| :: front[i] == items[i];
    SplitIsTrimmed(s);
    SplitJoinExactly(items);
  }

  /** Such texts exist: "a\\ ,b" has two items, which joined are one. */
  lemma EscapedSpaceIsLost(s: string)
    requires s == "a\\ ,b"
    ensures Split(s) == ["a\\", "b"] && Split(Join(Split(s), ", ")) != Split(s)
  {
    EscapedPieces(s);
    EscapedItems();
    EscapedSpace();
    SplitUndoesJoinExactly(s);
    assert EndsInEscape(Split(s)[0]);
  }

  lemma EscapedPieces(s: string)
    requires s == "a\\ ,b"
    ensures Pieces(Start, s) == ["a\\ ", "b"]
  {
    var item, comma, last := "a\\ ", ",", "b";
    EscapedSpace();
    PlainLetter('b');
    SeparatorEnds();
    PiecesConcat(Start, item, comma);
    PiecesConcat(Start, item + comma, last);
    RunConcat(Start, item, comma);
    assert item + comma + last == s;
    GlueItems(item, last);
  }

  lemma GlueItems(item: string, last: string)
    ensures Glue(Glue([item], ["", ""]), [last]) == [item, last]
  {
    assert item + "" == item && "" + last == last;
  }

  lemma EscapedItems()
    ensures Map(Trim, Kept(["a\\ ", "b"])) == ["a\\", "b"]
  {
    var ps := ["a\\ ", "b"];
    MapPush(Trim, [], "a\\ ");
    MapPush(Trim, ["a\\ "], "b");
    assert Kept(ps) == ps == [] + ["a\\ "] + ["b"];
    TrimIs("", "a\\", " ");
    TrimSpaced("b");
    assert "" + "a\\" + " " == "a\\ ";
  }

  lemma PlainLetter(c: char)
    requires c !in "/,'\"()\\"
    ensures Run(Start, [c]) == Start && Pieces(Start, [c]) == [[c]]
  {
    Push(Start, "", c);
    assert "" + [c] == [c];
    assert GrowLast([""], [c]) == [[c]];
  }

  lemma SeparatorEnds()
    ensures Run(Start, ",") == Start && Pieces(Start, ",") == ["", ""]
  {
    Push(Start, "", ',');
    assert "" + [','] == ",";
  }

  lemma EscapedSpace()
    ensures Run(Start, "a\\") == Lexer(Escaped, 0)
    ensures Run(Start, "a\\ ") == Start && Pieces(Start, "a\\ ") == ["a\\ "]
  {
    PlainLetter('a');
    Push(Start, "a", '\\');
    Push(Start, "a\\", ' ');
    assert ['a'] == "a";
    assert "a" + ['\\'] == "a\\";
    assert "a\\" + [' '] == "a\\ ";
    assert GrowLast(["a"], ['\\']) == ["a\\"];
    assert GrowLast(["a\\"], [' ']) == ["a\\ "];
  }
}
