/** When append_to_selector and prepend_to_selector add their text to every
    selector of a list, on the fast path and on the slow one. */
module SelectorAffixLaws {
  import opened SelectorLexer
  import opened SelectorScanner
  import opened SelectorJoin
  import opened SelectorAffix

  /** The path that replaces commas, or has none to replace. */
  predicate Fast(s: string) {
    ',' !in s || LooksSimple(s)
  }

  /** No comma ends the list. */
  predicate NoTrailingComma(ps: seq<string>) {
    |ps| > 1 ==> ps[|ps| - 1] != ""
  }

  predicate AllCleanBefore(ps: seq<string>, t: string) {
    NoTrailingComma(ps) && forall i | 0 <= i < |ps| :: CleanBefore(ps[i], t)
  }

  predicate AllCleanAfter(t: string, ps: seq<string>) {
    NoTrailingComma(ps) && forall i | 0 <= i < |ps| :: CleanAfter(t, ps[i])
  }

  /** The condition a caller can check before appending. */
  predicate CanAppend(s: string, t: string) {
    var ps, items := Pieces(Start, s), Split(s);
    if Fast(s) then
      (t == "" || AllCleanBefore(ps, t)) && |Pieces(Run(Start, s), t)| == 1
    else
      && |Pieces(Run(Start, items[|items| - 1]), t)| == 1
      && (t == "" ==> forall i | 0 <= i < |items| - 1 :: !EndsInEscape(items[i]))
  }

  predicate CanPrepend(s: string, t: string) {
    var ps, items := Pieces(Start, s), Split(s);
    if Fast(s) then t == "" || AllCleanAfter(t, ps)
    else forall i | 0 <= i < |items| - 1 :: !EndsInEscape(items[i])
  }

  /** The text is not taken for the end of an escape or of a comment's opening;
      the fast path has neither. */
  predicate CanFollow(s: string, t: string) {
    var items := Split(s);
    Fast(s) || t == "" || PlainStart(t) || forall i | 0 <= i < |items| - 1 :: Run(Start, items[i]) == Start
  }

  lemma MapIs(fs: seq<string>, gs: seq<string>)
    requires |fs| == |gs|
    ensures Map(Trim, fs) == Map(Trim, gs) <==> forall i | 0 <= i < |fs| :: Trim(fs[i]) == Trim(gs[i])
  {
    var a, b := Map(Trim, fs), Map(Trim, gs);
    if a == b {
      assert forall i | 0 <= i < |fs| :: a[i] == Trim(fs[i]) && b[i] == Trim(gs[i]);
    }
  }

  lemma FastAppendItems(ps: seq<string>, t: string)
    requires |ps| >= 1 && t != ""
    ensures Map(Trim, FastAppended(ps, t)) == Map(Trim, Added(Map(Trim, Kept(ps)), t)) <==> AllCleanBefore(ps, t)
  {
    if NoTrailingComma(ps) {
      var fs, items := FastAppended(ps, t), Added(Map(Trim, ps), t);
      forall i | 0 <= i < |ps|
        ensures Trim(fs[i]) == Trim(items[i]) <==> CleanBefore(ps[i], t)
      {
        AppendPiece(ps[i], t);
      }
      MapIs(fs, items);
    }
  }

  lemma FastPrependItems(ps: seq<string>, t: string)
    requires |ps| >= 1 && t != ""
    ensures Map(Trim, FastPrefixed(ps, t)) == Map(Trim, Prefixed(t, Map(Trim, Kept(ps)))) <==> AllCleanAfter(t, ps)
  {
    if NoTrailingComma(ps) {
      var fs, items := FastPrefixed(ps, t), Prefixed(t, Map(Trim, ps));
      forall i | 0 <= i < |ps|
        ensures Trim(fs[i]) == Trim(items[i]) <==> CleanAfter(t, ps[i])
      {
        PrependPiece(t, ps[i]);
      }
      MapIs(fs, items);
    }
  }

  /** Adding nothing changes nothing. */
  lemma {:induction false} ReplaceSame(s: string)
    ensures ReplaceComma(s, ",") == s
  {
    if s != "" {
      ReplaceSame(s[..|s| - 1]);
    }
  }

  lemma AddNothing(items: seq<string>)
    requires AllTrimmed(items)
    ensures Added(items, "") == items == Prefixed("", items) && Map(Trim, items) == items
  {
    forall i | 0 <= i < |items|
      ensures items[i] + "" == items[i] == "" + items[i] && Trim(items[i]) == items[i]
    {
      TrimSpaced(items[i]);
    }
  }

  lemma FastWithNothing(s: string)
    requires Fast(s)
    ensures Append(s, "") == s == Prepend(s, "")
    ensures Split(s) == Map(Trim, Added(Split(s), "")) == Map(Trim, Prefixed("", Split(s)))
    ensures CanAppend(s, "") && CanPrepend(s, "")
  {
    SplitIsTrimmed(s);
    AddNothing(Split(s));
    ReplaceSame(s);
    assert s + "" == s && "" + s == s && "" + "," == "," && "," + "" == ",";
  }

  /** A list of one selector. */
  lemma AppendToOne(s: string, t: string)
    requires ',' !in s && t != ""
    ensures Split(s + t) == Map(Trim, Added(Split(s), t)) <==> |Pieces(Run(Start, s), t)| == 1 && CleanBefore(s, t)
  {
    NoComma(s);
    AddedSingle(s, t);
    assert Added(Split(s), t) == [Trim(s) + t];
    if |Pieces(Run(Start, s), t)| == 1 {
      ReplaceNothing(s, t + ",");
      AppendPiece(s, t);
      MapOne(s + t);
    } else {
      OneHasLessInk(s, t);
    }
    MapOne(Trim(s) + t);
  }

  lemma MapOne(p: string)
    ensures Map(Trim, [p]) == [Trim(p)] && Map(Trim, Kept([p])) == [Trim(p)]
  {
  }

  lemma OneHasLessInk(s: string, t: string)
    requires |Pieces(Start, s + t)| > 1
    ensures Split(s + t) != [Trim(Trim(s) + t)]
  {
    InksOfSplit(s + t);
    InkSumPush([], Trim(Trim(s) + t));
    InksOfTrim(Trim(s) + t);
    InksConcat(s, t);
    InksConcat(Trim(s), t);
    InksOfTrim(s);
    assert [] + [Trim(Trim(s) + t)] == [Trim(Trim(s) + t)];
  }

  lemma FastAppendExactly(s: string, t: string)
    requires Fast(s) && Balanced(t) && t != ""
    ensures Split(Append(s, t)) == Map(Trim, Added(Split(s), t)) <==> CanAppend(s, t)
  {
    if ',' !in s {
      NoComma(s);
      AppendToOne(s, t);
    } else {
      FastListExactly(s, t, Append(s, t));
    }
  }

  lemma FastListExactly(s: string, t: string, r: string)
    requires LooksSimple(s) && Balanced(t) && t != "" && r == ReplaceComma(s, t + ",") + t
    ensures Split(r) == Map(Trim, Added(Split(s), t)) <==>
      AllCleanBefore(Pieces(Start, s), t) && |Pieces(Run(Start, s), t)| == 1
  {
    AppendPieces(s, t);
    FastLaw(Pieces(Start, s), Pieces(Start, r), t, |Pieces(Run(Start, s), t)| == 1);
  }

  /** The law in terms of the pieces before (ps) and after (fs); `one` says that
      the text stays in one piece at the end of the list. */
  lemma FastLaw(ps: seq<string>, fs: seq<string>, t: string, one: bool)
    requires |fs| >= |ps| >= 1 && EndsInText(fs) && t != ""
    requires |fs| == |ps| ==> fs == FastAppended(ps, t) && one
    requires (CommaFree(ps) || ',' !in t) && one ==> |fs| == |ps|
    ensures Map(Trim, Kept(fs)) == Map(Trim, Added(Map(Trim, Kept(ps)), t)) <==>
      AllCleanBefore(ps, t) && one
  {
    if |fs| == |ps| {
      FastAppendItems(ps, t);
    } else if AllCleanBefore(ps, t) {
      CleanIsCommaFree(ps, t);
    }
  }

  /** Where the text has commas of its own, clean pieces have none. */
  lemma CleanIsCommaFree(ps: seq<string>, t: string)
    requires t != "" && (AllCleanBefore(ps, t) || AllCleanAfter(t, ps))
    ensures CommaFree(ps) || ',' !in t
  {
    if ',' in t {
      assert !AllSpace(t);
    }
  }

  lemma FastPrependExactly(s: string, t: string, r: string)
    requires Fast(s) && Balanced(t) && t != "" && r == Prepend(s, t)
    ensures Split(r) == Map(Trim, Prefixed(t, Split(s))) <==> AllCleanAfter(t, Pieces(Start, s))
  {
    FastPrependPieces(s, t);
    FastPrependLaw(Pieces(Start, s), Pieces(Start, r), t);
  }

  lemma FastPrependLaw(ps: seq<string>, fs: seq<string>, t: string)
    requires |ps| >= 1 && |fs| >= 1 && EndsInText(fs) && t != "" && Rewritten(ps, fs, FastPrefixed(ps, t), t)
    ensures Map(Trim, Kept(fs)) == Map(Trim, Prefixed(t, Map(Trim, Kept(ps)))) <==> AllCleanAfter(t, ps)
  {
    if |fs| == |ps| {
      FastPrependItems(ps, t);
    } else {
      if AllCleanAfter(t, ps) {
        CleanIsCommaFree(ps, t);
      }
      assert |Kept(fs)| > |ps| >= |Kept(ps)|;
    }
  }

  lemma FastPrependPieces(s: string, t: string)
    requires Fast(s) && Balanced(t) && t != ""
    ensures Rewritten(Pieces(Start, s), Pieces(Start, Prepend(s, t)), FastPrefixed(Pieces(Start, s), t), t)
    ensures EndsInText(Pieces(Start, Prepend(s, t)))
  {
    if ',' in s {
      PrependPieces(s, t);
    } else {
      NoComma(s);
      ReplaceNothing(s, "," + t);
      OnePiece(Start, t);
      PiecesConcat(Start, t, s);
    }
  }

  lemma NoEscapesInFront(items: seq<string>)
    requires items != []
    ensures Escapes(items[..|items| - 1]) == 0 <==> forall i | 0 <= i < |items| - 1 :: !EndsInEscape(items[i])
  {
    var front := items[..|items| - 1];
    NoEscapes(front);
    assert forall i | 0 <= i < |front| :: front[i] == items[i];
  }

  /** Appending gives each selector the text, as read by split_selector_list,
      for exactly these lists. */
  lemma AppendExactly(s: string, t: string)
    requires Balanced(t) && CanFollow(s, t)
    ensures Split(Append(s, t)) == Map(Trim, Added(Split(s), t)) <==> CanAppend(s, t)
  {
    if Fast(s) {
      if t == "" {
        FastWithNothing(s);
      } else {
        FastAppendExactly(s, t);
      }
    } else if t == "" {
      SlowWithNothing(s);
    } else {
      SlowListExactly(s, t);
    }
  }

  lemma SlowListExactly(s: string, t: string)
    requires !Fast(s) && Balanced(t) && t != "" && CanFollow(s, t)
    ensures Split(Append(s, t)) == Map(Trim, Added(Split(s), t)) <==> CanAppend(s, t)
  {
    SplitIsItemized(s);
    SlowAppendExactly(Split(s), t);
  }

  lemma SlowWithNothing(s: string)
    requires !Fast(s)
    ensures Split(Append(s, "")) == Map(Trim, Added(Split(s), "")) <==> CanAppend(s, "")
  {
    SplitIsTrimmed(s);
    AddNothing(Split(s));
    SplitUndoesJoinExactly(s);
  }

  /** The same for prepending. */
  lemma PrependExactly(s: string, t: string)
    requires Balanced(t)
    ensures Split(Prepend(s, t)) == Map(Trim, Prefixed(t, Split(s))) <==> CanPrepend(s, t)
  {
    if Fast(s) {
      if t == "" {
        FastWithNothing(s);
      } else {
        FastPrependExactly(s, t, Prepend(s, t));
      }
    } else {
      SplitIsItemized(s);
      SlowPrependExactly(Split(s), t);
      NoEscapesInFront(Split(s));
    }
  }

  // ---- The guard of the fast path ----

  /** No comma after a closing parenthesis. */
  predicate ClosersLast(s: string) {
    forall i, j | 0 <= i < j < |s| && s[i] == ')' :: s[j] != ','
  }

  /** The guard looks for an opening parenthesis only. A closing one takes the
      scanner below depth 0, and there no comma separates. */
  lemma {:induction false} GuardMissesClosers(s: string)
    requires LooksSimple(s)
    ensures Run(Start, s).mode.Plain? && (Run(Start, s).depth == 0 <==> ')' !in s) && Run(Start, s).depth <= 0
    ensures CommaFree(Pieces(Start, s)) <==> ClosersLast(s)
  {
    if s != "" {
      var front, c := s[..|s| - 1], s[|s| - 1];
      assert s == front + [c];
      SimpleFront(front, c);
      GuardMissesClosers(front);
      Push(Start, front, c);
      ClosersLastPush(front, c);
      CommaFreeGrow(Pieces(Start, front), c);
    }
  }

  lemma ClosersLastPush(s: string, c: char)
    ensures ClosersLast(s + [c]) <==> ClosersLast(s) && !(c == ',' && ')' in s)
  {
    var r := s + [c];
    if ClosersLast(r) {
      assert forall i | 0 <= i < |s| :: r[i] == s[i];
      assert r[|s|] == c;
    }
  }

  /** Every text reaches some list on the fast path that it is not added to: in
      "a),b" the scanner sees one selector and the fast path two. */
  lemma FastPathDiffers(s: string, t: string)
    requires s == "a),b" && Balanced(t) && t != ""
    ensures Split(Append(s, t)) != Map(Trim, Added(Split(s), t))
    ensures Split(Prepend(s, t)) != Map(Trim, Prefixed(t, Split(s)))
  {
    SimpleList(s, t);
    AppendExactly(s, t);
    PrependExactly(s, t);
  }

  lemma SimpleList(s: string, t: string)
    requires s == "a),b" && t != ""
    ensures Fast(s) && !CanAppend(s, t) && !CanPrepend(s, t)
  {
    CloserHidesComma(s);
    HiddenComma(s, t);
    assert Pieces(Start, s)[0] == s;
  }

  lemma HiddenComma(s: string, t: string)
    requires |s| == 4 && s[2] == ',' && Trimmed(s) && t != ""
    ensures !CleanBefore(s, t) && !CleanAfter(t, s)
  {
    TrimSpaced(s);
    var core := Trim(s);
    assert core[2] == ',';
  }

  lemma CloserHidesComma(s: string)
    requires s == "a),b"
    ensures Pieces(Start, s) == [s]
  {
    var below := Lexer(Plain, -1);
    PlainLetter('a');
    StaysOne(['a'], Start, ')', "a)");
    StaysOne("a)", below, ',', "a),");
    StaysOne("a),", below, 'b', s);
  }

  lemma StaysOne(f: string, x: Lexer, c: char, g: string)
    requires Run(Start, f) == x && Pieces(Start, f) == [f] && !Separates(x, c) && g == f + [c]
    ensures Run(Start, g) == Step(x, c) && Pieces(Start, g) == [g]
  {
    Push(Start, f, c);
  }

  // ---- Which path is taken, and what it writes ----

  /** A character that calls for the scanner: of a comment, a string, a function,
      a declaration opener or an escape. */
  predicate Calls(c: char) {
    c == '/' || c == '\'' || c == '"' || c == '(' || c == '<' || c == '\\'
  }

  predicate NoneCalls(s: string) {
    forall i | 0 <= i < |s| :: !Calls(s[i])
  }

  lemma {:induction false} JoinedIsSimple(ps: seq<string>)
    requires forall i | 0 <= i < |ps| :: NoneCalls(ps[i])
    ensures LooksSimple(Join(ps, ","))
  {
    if ps != [] {
      JoinedIsSimple(ps[..|ps| - 1]);
    }
  }

  lemma ReplaceOneMore(front: string, last: string, with: string)
    requires ',' !in last
    ensures ReplaceComma(front + "," + last, with) == ReplaceComma(front, with) + with + last
  {
    var one := ",";
    assert ReplaceComma(one, with) == with by {
      assert one[..0] == "" && ReplaceComma("", with) + with == with;
    }
    ReplaceNothing(last, with);
    ReplaceConcat(front, one, with);
    ReplaceConcat(front + one, last, with);
  }

  lemma {:induction false} ReplaceInJoin(ps: seq<string>, with: string)
    requires forall i | 0 <= i < |ps| :: ',' !in ps[i]
    ensures ReplaceComma(Join(ps, ","), with) == Join(ps, with)
  {
    if |ps| == 1 {
      ReplaceNothing(ps[0], with);
    } else if ps != [] {
      var n := |ps| - 1;
      ReplaceInJoin(ps[..n], with);
      ReplaceOneMore(Join(ps[..n], ","), ps[n], with);
    }
  }

  lemma {:induction false} AddedJoins(ps: seq<string>, t: string)
    requires ps != []
    ensures Join(ps, t + ",") + t == Join(Added(ps, t), ",")
  {
    var n := |ps| - 1;
    if n > 0 {
      AddedJoins(ps[..n], t);
      var front := Join(ps[..n], t + ",");
      assert Added(ps, t)[..n] == Added(ps[..n], t);
      assert front + (t + ",") + ps[n] + t == front + t + "," + (ps[n] + t);
    }
  }

  lemma {:induction false} PrefixedJoins(t: string, ps: seq<string>)
    requires ps != []
    ensures t + Join(ps, "," + t) == Join(Prefixed(t, ps), ",")
  {
    var n := |ps| - 1;
    if n > 0 {
      PrefixedJoins(t, ps[..n]);
      var front := Join(ps[..n], "," + t);
      assert Prefixed(t, ps)[..n] == Prefixed(t, ps[..n]);
      assert t + (front + ("," + t) + ps[n]) == t + front + "," + (t + ps[n]);
    }
  }

  lemma {:induction false} JoinedHasComma(ps: seq<string>)
    requires ps != [] && forall i | 0 <= i < |ps| :: ',' !in ps[i]
    ensures ',' in Join(ps, ",") <==> |ps| > 1
  {
    if |ps| > 1 {
      var front, last := Join(ps[..|ps| - 1], ","), ps[|ps| - 1];
      assert Join(ps, ",")[|front|] == ',';
    }
  }

  /** Simple selectors in a list each get the text where they stand, and the list
      keeps its shape: nothing is trimmed. */
  lemma SimpleListsKeepTheirShape(ps: seq<string>, t: string)
    requires ps != [] && forall i | 0 <= i < |ps| :: ',' !in ps[i] && NoneCalls(ps[i])
    ensures Append(Join(ps, ","), t) == Join(Added(ps, t), ",")
    ensures Prepend(Join(ps, ","), t) == Join(Prefixed(t, ps), ",")
  {
    JoinedIsSimple(ps);
    JoinedHasComma(ps);
    if |ps| > 1 {
      ReplaceInJoin(ps, t + ",");
      ReplaceInJoin(ps, "," + t);
      AddedJoins(ps, t);
      PrefixedJoins(t, ps);
    }
  }

  /** A list with a character that calls for the scanner is split, and the
      selectors with the text are joined by comma and space; a text without a
      comma is one selector. */
  lemma OtherListsAreRejoined(s: string, t: string)
    ensures ',' !in s ==> Append(s, t) == s + t && Prepend(s, t) == t + s
    ensures ',' in s && (exists i | 0 <= i < |s| :: Calls(s[i])) ==>
      Append(s, t) == Join(Added(Split(s), t), ", ") && Prepend(s, t) == Join(Prefixed(t, Split(s)), ", ")
  {
    if i :| 0 <= i < |s| && Calls(s[i]) {
      assert s[i] in "/'\"(<\\";
    }
  }
}
