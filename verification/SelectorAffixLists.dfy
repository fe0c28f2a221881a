/** What append_to_selector and prepend_to_selector make of texts that are not
    one selector: lists themselves, and texts that leave a parenthesis open. */
module SelectorAffixLists {
  import opened SelectorLexer
  import opened SelectorScanner
  import opened SelectorJoin
  import opened SelectorAffix
  import opened SelectorAffixLaws

  /** The pieces of each text, read on its own. */
  function AllPieces(xs: seq<string>): seq<string> {
    if xs == [] then [] else AllPieces(xs[..|xs| - 1]) + Pieces(Start, xs[|xs| - 1])
  }

  lemma AllPiecesPush(xs: seq<string>, x: string)
    ensures AllPieces(xs + [x]) == AllPieces(xs) + Pieces(Start, x)
  {
    assert (xs + [x])[..|xs|] == xs;
  }

  // ---- Joining texts that may come apart ----

  ghost predicate FrontClosed(xs: seq<string>) {
    forall i | 0 <= i < |xs| - 1 :: Closed0(Run(Start, xs[i]))
  }

  /** The pieces of the join: each text but the first has a space before it. */
  function SpacedPieces(xs: seq<string>): seq<string>
    requires xs != []
  {
    if |xs| == 1 then Pieces(Start, xs[0]) else SpacedPieces(xs[..|xs| - 1]) + Pieces(Start, " " + xs[|xs| - 1])
  }

  lemma SpacedPiece(x: string)
    ensures Pieces(Start, " " + x) == Glue([" "], Pieces(Start, x))
  {
    SpaceFirst();
    PiecesConcat(Start, " ", x);
  }

  lemma SpaceFirst()
    ensures Run(Start, " ") == Start && Pieces(Start, " ") == [" "]
  {
    PlainLetter(' ');
    assert [' '] == " ";
  }

  lemma OneMoreText(front: string, x: string)
    requires Closed0(Run(Start, front))
    ensures Run(Start, front + ", " + x) == Run(Start, x)
    ensures Pieces(Start, front + ", " + x) == Pieces(Start, front) + Pieces(Start, " " + x)
  {
    SeparatorRuns(Run(Start, front));
    RunConcat(Start, front, ", ");
    RunConcat(Start, front + ", ", x);
    PiecesConcat(Start, front, ", ");
    PiecesConcat(Start, front + ", ", x);
    SpacedPiece(x);
    GlueSpaced(Pieces(Start, front), Pieces(Start, x));
  }

  lemma GlueSpaced(ps: seq<string>, qs: seq<string>)
    requires |ps| >= 1 && |qs| >= 1
    ensures Glue(Glue(ps, ["", " "]), qs) == ps + Glue([" "], qs)
  {
    var k := |ps| - 1;
    assert ps[k] + "" == ps[k];
    assert Glue(ps, ["", " "]) == ps + [" "];
  }

  lemma {:induction false} JoinOfTexts(xs: seq<string>)
    requires xs != [] && FrontClosed(xs)
    ensures Run(Start, Join(xs, ", ")) == Run(Start, xs[|xs| - 1])
    ensures Pieces(Start, Join(xs, ", ")) == SpacedPieces(xs)
  {
    if |xs| > 1 {
      var front, x := xs[..|xs| - 1], xs[|xs| - 1];
      assert Closed0(Run(Start, front[|front| - 1]));
      JoinOfTexts(front);
      OneMoreText(Join(front, ", "), x);
    }
  }

  /** Each piece of qs is that of ps, or has a space before it. */
  ghost predicate Spacy(ps: seq<string>, qs: seq<string>) {
    |ps| == |qs| && forall i | 0 <= i < |ps| :: qs[i] == ps[i] || qs[i] == " " + ps[i]
  }

  lemma {:induction false} SpacyJoin(xs: seq<string>)
    requires xs != []
    ensures Spacy(AllPieces(xs), SpacedPieces(xs))
  {
    if |xs| == 1 {
      assert xs[..0] == [];
    } else {
      SpacyJoin(xs[..|xs| - 1]);
      SpacedPiece(xs[|xs| - 1]);
    }
  }

  lemma EndOfSpaced(xs: seq<string>)
    requires xs != [] && xs[|xs| - 1] != ""
    ensures var ps, qs := AllPieces(xs), SpacedPieces(xs);
      |ps| >= 1 && |qs| >= 1 && (ps[|ps| - 1] == "" <==> qs[|qs| - 1] == "")
  {
    var front, x := xs[..|xs| - 1], xs[|xs| - 1];
    var ps, qs := Pieces(Start, x), Pieces(Start, " " + x);
    SpacedEnd(x);
    EndOfConcat(AllPieces(front), ps);
    assert AllPieces(xs) == AllPieces(front) + ps;
    if front != [] {
      EndOfConcat(SpacedPieces(front), qs);
      assert SpacedPieces(xs) == SpacedPieces(front) + qs;
    }
  }

  lemma EndOfConcat(before: seq<string>, ps: seq<string>)
    requires |ps| >= 1
    ensures (before + ps)[|before + ps| - 1] == ps[|ps| - 1]
  {
  }

  lemma SpacedEnd(x: string)
    requires x != ""
    ensures var ps, qs := Pieces(Start, x), Pieces(Start, " " + x); ps[|ps| - 1] == "" <==> qs[|qs| - 1] == ""
  {
    SpacedPiece(x);
    if |Pieces(Start, x)| == 1 {
      OnePiece(Start, x);
    }
  }

  lemma SameTrimmed(ps: seq<string>, qs: seq<string>)
    requires Spacy(ps, qs)
    ensures Map(Trim, ps) == Map(Trim, qs)
  {
    forall i | 0 <= i < |ps|
      ensures Trim(ps[i]) == Trim(qs[i])
    {
      TrimInside(" ", ps[i], "");
      assert " " + ps[i] + "" == " " + ps[i];
    }
  }

  lemma SameKept(ps: seq<string>, qs: seq<string>)
    requires Spacy(ps, qs) && |ps| >= 1 && (ps[|ps| - 1] == "" <==> qs[|qs| - 1] == "")
    ensures Map(Trim, Kept(ps)) == Map(Trim, Kept(qs))
  {
    var a, b := Kept(ps), Kept(qs);
    assert |a| == |b| && a == ps[..|a|] && b == qs[..|a|];
    SameTrimmed(a, b);
  }

  lemma SpacedSplits(xs: seq<string>, r: string)
    requires xs != [] && xs[|xs| - 1] != "" && Pieces(Start, r) == SpacedPieces(xs)
    ensures Split(r) == Map(Trim, Kept(AllPieces(xs)))
  {
    SpacyJoin(xs);
    EndOfSpaced(xs);
    SameKept(AllPieces(xs), SpacedPieces(xs));
  }

  /** A join of texts comes apart as the texts do, if those before the last are closed. */
  lemma JoinSplits(xs: seq<string>)
    requires xs != [] && FrontClosed(xs) && xs[|xs| - 1] != ""
    ensures Split(Join(xs, ", ")) == Map(Trim, Kept(AllPieces(xs)))
  {
    JoinOfTexts(xs);
    SpacedSplits(xs, Join(xs, ", "));
  }

  // ---- Lists added to lists ----

  lemma AddedClosed(items: seq<string>, t: string)
    requires Itemized(items) && Run(Start, t) == Start && t != ""
    requires PlainStart(t) || forall i | 0 <= i < |items| - 1 :: Run(Start, items[i]) == Start
    ensures FrontClosed(Added(items, t))
  {
    forall i | 0 <= i < |items| - 1
      ensures Closed0(Run(Start, items[i] + t))
    {
      RunConcat(Start, items[i], t);
      if Run(Start, items[i]) != Start {
        PlainAfter(Run(Start, items[i]), t);
      }
    }
  }

  lemma PrefixedClosed(items: seq<string>, t: string)
    requires Itemized(items) && Run(Start, t) == Start && forall i | 0 <= i < |items| - 1 :: !EndsInEscape(items[i])
    ensures FrontClosed(Prefixed(t, items))
  {
    forall i | 0 <= i < |items| - 1
      ensures Closed0(Run(Start, t + items[i]))
    {
      RunConcat(Start, t, items[i]);
    }
  }

  /** The fast append as far as it has come: every piece but the last has the text. */
  lemma {:induction false} ListsAppended(s: string, t: string)
    requires LooksSimple(s) && CommaFree(Pieces(Start, s)) && Run(Start, t) == Start
    ensures Run(Start, ReplaceComma(s, t + ",")) == Run(Start, s)
    ensures AppendedSoFar(ReplaceComma(s, t + ","), Pieces(Start, s), t)
  {
    if s == "" {
      assert Pieces(Start, "") == [""] && Added([""][..0], t) == [];
    } else {
      var front, c := s[..|s| - 1], s[|s| - 1];
      assert s == front + [c];
      SimpleFront(front, c);
      SimpleRuns(front);
      Push(Start, front, c);
      CommaFreeGrow(Pieces(Start, front), c);
      ListsAppended(front, t);
      ReplaceOne(front, c, t + ",");
      PiecesOfText(front);
      OneMoreAppended(ReplaceComma(front, t + ","), Pieces(Start, front), c, t);
    }
  }

  /** The pieces of the text so far, when ps are those of the list so far. */
  ghost predicate AppendedSoFar(f: string, ps: seq<string>, t: string) {
    |ps| >= 1 && Pieces(Start, f) == AllPieces(Added(ps[..|ps| - 1], t)) + [ps[|ps| - 1]]
  }

  lemma OneMoreAppended(f: string, ps: seq<string>, c: char, t: string)
    requires Run(Start, f).mode.Plain? && PiecesStand(Run(Start, f), ps) && Run(Start, t) == Start && AppendedSoFar(f, ps, t)
    requires c !in "/'\"(<\\" && CommaFree(Grown(Run(Start, f), ps, c))
    ensures var more := if c == ',' then t + "," else [c];
      Run(Start, f + more) == Step(Run(Start, f), c) && AppendedSoFar(f + more, Grown(Run(Start, f), ps, c), t)
  {
    CommaFreeGrow(ps, c);
    if c == ',' {
      OneMoreSelector(f, ps, t);
    } else {
      OneMoreLetter(f, ps, c, t);
    }
  }

  lemma OneMoreLetter(f: string, ps: seq<string>, c: char, t: string)
    requires c != ',' && AppendedSoFar(f, ps, t)
    ensures Run(Start, f + [c]) == Step(Run(Start, f), c) && AppendedSoFar(f + [c], GrowLast(ps, [c]), t)
  {
    Push(Start, f, c);
    GrownLast(AllPieces(Added(ps[..|ps| - 1], t)), ps, c);
  }

  lemma OneMoreSelector(f: string, ps: seq<string>, t: string)
    requires Run(Start, f) == Start && PiecesStand(Start, ps) && Run(Start, t) == Start && AppendedSoFar(f, ps, t)
    ensures Run(Start, f + (t + ",")) == Start && AppendedSoFar(f + (t + ","), ps + [""], t)
  {
    var n := |ps| - 1;
    CommaAppended(f, AllPieces(Added(ps[..n], t)), ps[n], t);
    AddedPush(ps[..n], ps[n], t);
    assert ps == ps[..n] + [ps[n]] && (ps + [""])[..n + 1] == ps;
  }

  lemma CommaAppended(f: string, before: seq<string>, p: string, t: string)
    requires Run(Start, f) == Start == Run(Start, p) && Run(Start, t) == Start
    requires Single(p) && Pieces(Start, f) == before + [p]
    ensures Run(Start, f + (t + ",")) == Start
    ensures Pieces(Start, f + (t + ",")) == before + Pieces(Start, p + t) + [""]
  {
    RunConcat(Start, f, t);
    PiecesConcat(Start, f, t);
    TextOnLast(before, p, t);
    CommaEnds(f + t);
    assert f + (t + ",") == f + t + ",";
  }

  lemma CommaEnds(f: string)
    requires Run(Start, f) == Start
    ensures Run(Start, f + ",") == Start && Pieces(Start, f + ",") == Pieces(Start, f) + [""]
  {
    CommaAlone(Start);
    RunConcat(Start, f, ",");
    PiecesConcat(Start, f, ",");
    GlueComma(Pieces(Start, f));
  }

  lemma TextOnLast(before: seq<string>, p: string, t: string)
    requires Single(p)
    ensures Glue(before + [p], Pieces(Run(Start, p), t)) == before + Pieces(Start, p + t)
  {
    PiecesConcat(Start, p, t);
  }

  lemma AddedPush(ps: seq<string>, p: string, t: string)
    ensures AllPieces(Added(ps + [p], t)) == AllPieces(Added(ps, t)) + Pieces(Start, p + t)
  {
    assert Added(ps + [p], t) == Added(ps, t) + [p + t];
    AllPiecesPush(Added(ps, t), p + t);
  }

  lemma GlueComma(ps: seq<string>)
    requires |ps| >= 1
    ensures Glue(ps, ["", ""]) == ps + [""]
  {
    assert ps[|ps| - 1] + "" == ps[|ps| - 1];
  }

  lemma GrownLast(before: seq<string>, ps: seq<string>, c: char)
    requires |ps| >= 1
    ensures GrowLast(before + [ps[|ps| - 1]], [c]) == before + [ps[|ps| - 1] + [c]]
    ensures GrowLast(ps, [c])[..|ps| - 1] == ps[..|ps| - 1]
  {
  }

  lemma FastAppendSplits(s: string, t: string)
    requires Fast(s) && CommaFree(Pieces(Start, s)) && Run(Start, t) == Start
    ensures Pieces(Start, Append(s, t)) == AllPieces(Added(Pieces(Start, s), t))
  {
    var ps := Pieces(Start, s);
    var n := |ps| - 1;
    assert ps == ps[..n] + [ps[n]];
    AddedPush(ps[..n], ps[n], t);
    if ',' !in s {
      NoComma(s);
      assert Added([], t) == [];
    } else {
      ListsAppended(s, t);
      PiecesOfText(s);
      PiecesConcat(Start, ReplaceComma(s, t + ","), t);
      TextOnLast(AllPieces(Added(ps[..n], t)), ps[n], t);
    }
  }

  lemma PrefixedPush(t: string, ps: seq<string>, p: string)
    ensures AllPieces(Prefixed(t, ps + [p])) == AllPieces(Prefixed(t, ps)) + Pieces(Start, t + p)
  {
    assert Prefixed(t, ps + [p]) == Prefixed(t, ps) + [t + p];
    AllPiecesPush(Prefixed(t, ps), t + p);
  }

  lemma {:induction false} ListsPrefixed(s: string, t: string)
    requires LooksSimple(s) && CommaFree(Pieces(Start, s)) && Run(Start, t) == Start
    ensures Run(Start, FastPrepend(s, t)) == Run(Start, s)
    ensures Pieces(Start, FastPrepend(s, t)) == AllPieces(Prefixed(t, Pieces(Start, s)))
  {
    if s == "" {
      assert FastPrepend("", t) == t && t + "" == t;
      PrefixedPush(t, [], "");
      assert [] + [""] == [""] && Prefixed(t, []) == [];
    } else {
      var front, c := s[..|s| - 1], s[|s| - 1];
      assert s == front + [c];
      SimpleFront(front, c);
      SimpleRuns(front);
      Push(Start, front, c);
      CommaFreeGrow(Pieces(Start, front), c);
      ListsPrefixed(front, t);
      FastPrependPush(front, c, t);
      PiecesOfText(front);
      OneMorePrefixed(FastPrepend(front, t), Pieces(Start, front), c, t);
    }
  }

  lemma OneMorePrefixed(f: string, ps: seq<string>, c: char, t: string)
    requires |ps| >= 1 && Run(Start, f).mode.Plain? && PiecesStand(Run(Start, f), ps) && Run(Start, t) == Start
    requires Pieces(Start, f) == AllPieces(Prefixed(t, ps)) && c !in "/'\"(<\\" && CommaFree(Grown(Run(Start, f), ps, c))
    ensures var more := if c == ',' then "," + t else [c];
      && Run(Start, f + more) == Step(Run(Start, f), c)
      && Pieces(Start, f + more) == AllPieces(Prefixed(t, Grown(Run(Start, f), ps, c)))
  {
    CommaFreeGrow(ps, c);
    if c == ',' {
      CommaPrefixed(f, t);
      PrefixedPush(t, ps, "");
      assert t + "" == t;
    } else {
      Push(Start, f, c);
      GrownPrefixed(ps, c, t, Run(Start, f));
    }
  }

  lemma CommaPrefixed(f: string, t: string)
    requires Run(Start, f) == Start == Run(Start, t)
    ensures Run(Start, f + ("," + t)) == Start
    ensures Pieces(Start, f + ("," + t)) == Pieces(Start, f) + Pieces(Start, t)
  {
    var comma := ",";
    CommaAlone(Start);
    RunConcat(Start, comma, t);
    PiecesConcat(Start, comma, t);
    GlueTwoParts(Pieces(Start, t));
    RunConcat(Start, f, comma + t);
    PiecesConcat(Start, f, comma + t);
    GlueEmpty(Pieces(Start, f), Pieces(Start, t));
  }

  lemma GlueTwoParts(qs: seq<string>)
    requires |qs| >= 1
    ensures Glue(["", ""], qs) == [""] + qs
  {
    assert "" + qs[0] == qs[0];
  }

  lemma GlueEmpty(ps: seq<string>, qs: seq<string>)
    requires |ps| >= 1
    ensures Glue(ps, [""] + qs) == ps + qs
  {
    assert ps[|ps| - 1] + "" == ps[|ps| - 1];
  }

  lemma GrownPrefixed(ps: seq<string>, c: char, t: string, x: Lexer)
    requires |ps| >= 1 && PiecesStand(x, ps) && Run(Start, t) == Start && !Separates(x, c)
    ensures |AllPieces(Prefixed(t, ps))| >= 1
    ensures GrowLast(AllPieces(Prefixed(t, ps)), [c]) == AllPieces(Prefixed(t, GrowLast(ps, [c])))
  {
    var n := |ps| - 1;
    var p := ps[n];
    assert ps == ps[..n] + [p] && GrowLast(ps, [c]) == ps[..n] + [p + [c]];
    PrefixedPush(t, ps[..n], p);
    PrefixedPush(t, ps[..n], p + [c]);
    OneMoreChar(t, p, c, x);
    GrowAfter(AllPieces(Prefixed(t, ps[..n])), Pieces(Start, t + p), c);
  }

  lemma OneMoreChar(t: string, p: string, c: char, x: Lexer)
    requires Run(Start, t) == Start && Run(Start, p) == x && !Separates(x, c)
    ensures Pieces(Start, t + (p + [c])) == GrowLast(Pieces(Start, t + p), [c])
  {
    RunConcat(Start, t, p);
    Push(Start, t + p, c);
    assert t + (p + [c]) == t + p + [c];
  }

  lemma GrowAfter(before: seq<string>, qs: seq<string>, c: char)
    requires |qs| >= 1
    ensures GrowLast(before + qs, [c]) == before + GrowLast(qs, [c])
  {
  }

  lemma FastPrependSplits(s: string, t: string)
    requires Fast(s) && CommaFree(Pieces(Start, s)) && Run(Start, t) == Start
    ensures Pieces(Start, Prepend(s, t)) == AllPieces(Prefixed(t, Pieces(Start, s)))
  {
    if ',' in s {
      ListsPrefixed(s, t);
    } else {
      NoComma(s);
      PrefixedPush(t, [], s);
      assert [] + [s] == [s] && Prefixed(t, []) == [];
    }
  }

  /** The selectors that get the text: the pieces on the fast path, untrimmed,
      and the items on the slow one. */
  function Targets(s: string): seq<string> {
    if Fast(s) then Pieces(Start, s) else Split(s)
  }

  /** Appending any text that closes what it opens, be it a list of selectors:
      the result splits into what each selector with the text splits into. */
  lemma AppendSplits(s: string, t: string)
    requires Run(Start, t) == Start && t != "" && CanFollow(s, t) && (Fast(s) ==> CommaFree(Pieces(Start, s)))
    ensures Split(Append(s, t)) == Map(Trim, Kept(AllPieces(Added(Targets(s), t))))
  {
    if Fast(s) {
      FastAppendSplits(s, t);
    } else {
      SplitIsItemized(s);
      AddedClosed(Split(s), t);
      JoinSplits(Added(Split(s), t));
    }
  }

  /** The same for prepending, where no item but the last ends in an escape. */
  lemma PrependSplits(s: string, t: string)
    requires Run(Start, t) == Start && t != ""
    requires if Fast(s) then CommaFree(Pieces(Start, s)) else forall i | 0 <= i < |Split(s)| - 1 :: !EndsInEscape(Split(s)[i])
    ensures Split(Prepend(s, t)) == Map(Trim, Kept(AllPieces(Prefixed(t, Targets(s)))))
  {
    if Fast(s) {
      FastPrependSplits(s, t);
    } else {
      SplitIsItemized(s);
      PrefixedClosed(Split(s), t);
      JoinSplits(Prefixed(t, Split(s)));
    }
  }

  // ---- Texts that leave a parenthesis open ----

  /** A text such as ":is(.a ": it opens more than it closes, never closes what
      it has not opened, and none of its commas separates. */
  ghost predicate Opens(t: string) {
    && Run(Start, t).mode.Plain? && Run(Start, t).depth > 0 && |Pieces(Start, t)| == 1
    && forall i | 0 <= i <= |t| :: Run(Start, t[..i]).depth >= 0
  }

  lemma {:induction false} DeepIsOne(x: Lexer, t: string)
    requires x.mode.Plain? && x.depth > 0 && forall i | 0 <= i <= |t| :: Run(Start, t[..i]).depth >= 0
    ensures Run(x, t) == Shift(Run(Start, t), x.depth) && |Pieces(x, t)| == 1
  {
    if t != "" {
      var front, c := t[..|t| - 1], t[|t| - 1];
      assert t == front + [c];
      forall i | 0 <= i <= |front|
        ensures Run(Start, front[..i]).depth >= 0
      {
        assert front[..i] == t[..i];
      }
      DeepIsOne(x, front);
      assert front[..|front|] == front;
      DeepStep(x, Run(Start, front), front, c);
    }
  }

  lemma DeepStep(x: Lexer, y: Lexer, front: string, c: char)
    requires x.depth > 0 && y == Run(Start, front) && y.depth >= 0 && Run(x, front) == Shift(y, x.depth)
    requires |Pieces(x, front)| == 1
    ensures Run(x, front + [c]) == Shift(Run(Start, front + [c]), x.depth) && |Pieces(x, front + [c])| == 1
  {
    Push(x, front, c);
    Push(Start, front, c);
    ShiftStep(y, x.depth, c);
    NoSeparatorInside(Shift(y, x.depth), Pieces(x, front), c);
  }

  lemma ShiftStep(y: Lexer, d: int, c: char)
    ensures Step(Shift(y, d), c) == Shift(Step(y, c), d)
  {
  }

  lemma NoSeparatorInside(x: Lexer, ps: seq<string>, c: char)
    requires x.depth > 0 && |ps| == 1
    ensures |Grown(x, ps, c)| == 1
  {
  }

  /** Such a text is read in one piece, and leaves the lexer inside. */
  lemma OpensDeeper(x: Lexer, t: string)
    requires x.mode.Plain? && x.depth >= 0 && Opens(t)
    ensures Run(x, t).mode.Plain? && Run(x, t).depth > x.depth && |Pieces(x, t)| == 1
  {
    if x.depth > 0 {
      assert t[..|t|] == t;
      DeepIsOne(x, t);
    } else {
      assert x == Start;
    }
  }

  lemma OneMoreInside(f: string, x: Lexer, more: string)
    requires x == Run(Start, f) && |Pieces(Start, f)| == 1 && |Pieces(x, more)| == 1
    ensures Run(Start, f + more) == Run(x, more) && |Pieces(Start, f + more)| == 1
  {
    RunConcat(Start, f, more);
    PiecesConcat(Start, f, more);
  }

  lemma CommaInside(x: Lexer, t: string)
    requires x.mode.Plain? && x.depth >= 0 && Opens(t)
    ensures Run(x, t + ",").mode.Plain? && Run(x, t + ",").depth > 0 && |Pieces(x, t + ",")| == 1
    ensures x.depth > 0 ==> Run(x, "," + t).mode.Plain? && Run(x, "," + t).depth > 0 && |Pieces(x, "," + t)| == 1
  {
    OpensDeeper(x, t);
    CommaAlone(Run(x, t));
    RunConcat(x, t, ",");
    PiecesConcat(x, t, ",");
    CommaAlone(x);
    RunConcat(x, ",", t);
    PiecesConcat(x, ",", t);
  }

  predicate NoParentheses(s: string) {
    LooksSimple(s) && ')' !in s
  }

  lemma PlainInside(f: string, x: Lexer, c: char)
    requires x == Run(Start, f) && x.mode.Plain? && |Pieces(Start, f)| == 1 && c !in "/'\"(<\\)" && c != ','
    ensures Run(Start, f + [c]) == x && |Pieces(Start, f + [c])| == 1
  {
    Push(Start, f, c);
  }

  lemma {:induction false} AppendStaysOne(s: string, t: string)
    requires NoParentheses(s) && Opens(t)
    ensures var x := Run(Start, ReplaceComma(s, t + ",")); x.mode.Plain? && x.depth >= 0
    ensures |Pieces(Start, ReplaceComma(s, t + ","))| == 1
  {
    if s != "" {
      var front, c := s[..|s| - 1], s[|s| - 1];
      assert s == front + [c];
      SimpleFront(front, c);
      AppendStaysOne(front, t);
      ReplaceOne(front, c, t + ",");
      var f := ReplaceComma(front, t + ",");
      if c == ',' {
        CommaInside(Run(Start, f), t);
        OneMoreInside(f, Run(Start, f), t + ",");
      } else {
        PlainInside(f, Run(Start, f), c);
      }
    }
  }

  lemma {:induction false} PrependStaysOne(s: string, t: string)
    requires NoParentheses(s) && Opens(t)
    ensures var x := Run(Start, FastPrepend(s, t)); x.mode.Plain? && x.depth > 0
    ensures |Pieces(Start, FastPrepend(s, t))| == 1
  {
    if s == "" {
      assert FastPrepend("", t) == t;
    } else {
      var front, c := s[..|s| - 1], s[|s| - 1];
      assert s == front + [c];
      SimpleFront(front, c);
      PrependStaysOne(front, t);
      FastPrependPush(front, c, t);
      var f := FastPrepend(front, t);
      if c == ',' {
        CommaInside(Run(Start, f), t);
        OneMoreInside(f, Run(Start, f), "," + t);
      } else {
        PlainInside(f, Run(Start, f), c);
      }
    }
  }

  /** A text that leaves a parenthesis open makes one selector of the whole
      list: after the first copy no comma separates. */
  lemma OpenTextMergesList(s: string, t: string)
    requires NoParentheses(s) && Opens(t)
    ensures Split(Append(s, t)) == [Trim(Append(s, t))] && Split(Prepend(s, t)) == [Trim(Prepend(s, t))]
  {
    AppendStaysOne(s, t);
    PrependStaysOne(s, t);
    var f := ReplaceComma(s, t + ",");
    OpensDeeper(Run(Start, f), t);
    OneMoreInside(f, Run(Start, f), t);
    ReplaceNothingTwice(s, t);
    OneItem(Append(s, t));
    OneItem(Prepend(s, t));
  }

  lemma ReplaceNothingTwice(s: string, t: string)
    ensures ',' !in s ==> ReplaceComma(s, t + ",") == s && ReplaceComma(s, "," + t) == s
  {
    if ',' !in s {
      ReplaceNothing(s, t + ",");
      ReplaceNothing(s, "," + t);
    }
  }

  lemma OneItem(s: string)
    requires |Pieces(Start, s)| == 1
    ensures Split(s) == [Trim(s)]
  {
    OnePiece(Start, s);
    MapOne(s);
  }
}
