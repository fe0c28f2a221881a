/** WP_Theme_JSON_Gutenberg::append_to_selector and prepend_to_selector: adding a
    text to every selector of a list, by replacing commas when that looks safe
    and by splitting otherwise. */
module SelectorAffix {
  import opened SelectorLexer
  import opened SelectorScanner
  import opened SelectorJoin

  /** strlen( $s ) === strcspn( $s, '/\'"(<\\' ) */
  predicate LooksSimple(s: string) {
    forall i | 0 <= i < |s| :: s[i] !in "/'\"(<\\"
  }

  /** str_replace( ',', with, s ) */
  function ReplaceComma(s: string, with: string): string {
    if s == "" then "" else ReplaceComma(s[..|s| - 1], with) + (if s[|s| - 1] == ',' then with else [s[|s| - 1]])
  }

  function Added(items: seq<string>, t: string): (r: seq<string>)
    ensures |r| == |items| && forall i | 0 <= i < |items| :: r[i] == items[i] + t
  {
    seq(|items|, i requires 0 <= i < |items| => items[i] + t)
  }

  function Prefixed(t: string, items: seq<string>): (r: seq<string>)
    ensures |r| == |items| && forall i | 0 <= i < |items| :: r[i] == t + items[i]
  {
    seq(|items|, i requires 0 <= i < |items| => t + items[i])
  }

  function Append(s: string, t: string): string {
    if ',' !in s then s + t
    else if LooksSimple(s) then ReplaceComma(s, t + ",") + t
    else Join(Added(Split(s), t), ", ")
  }

  function Prepend(s: string, t: string): string {
    if ',' !in s then t + s
    else if LooksSimple(s) then t + ReplaceComma(s, "," + t)
    else Join(Prefixed(t, Split(s)), ", ")
  }

  method AddToEach(selectors: seq<string>, t: string) returns (added: seq<string>)
    ensures added == Added(selectors, t)
  {
    added := [];
    for i := 0 to |selectors|
      invariant |added| == i && forall k | 0 <= k < i :: added[k] == selectors[k] + t
    {
      added := added + [selectors[i] + t];
    }
  }

  method PrefixEach(t: string, selectors: seq<string>) returns (prefixed: seq<string>)
    ensures prefixed == Prefixed(t, selectors)
  {
    prefixed := [];
    for i := 0 to |selectors|
      invariant |prefixed| == i && forall k | 0 <= k < i :: prefixed[k] == t + selectors[k]
    {
      prefixed := prefixed + [t + selectors[i]];
    }
  }

  method AppendToSelector(s: string, t: string) returns (r: string)
    ensures r == Append(s, t)
  {
    if ',' !in s {
      return s + t;
    }
    if LooksSimple(s) {
      return ReplaceComma(s, t + ",") + t;
    }
    var selectors := SplitSelectorList(s);
    var added := AddToEach(selectors, t);
    return Join(added, ", ");
  }

  method PrependToSelector(s: string, t: string) returns (r: string)
    ensures r == Prepend(s, t)
  {
    if ',' !in s {
      return t + s;
    }
    if LooksSimple(s) {
      return t + ReplaceComma(s, "," + t);
    }
    var selectors := SplitSelectorList(s);
    var prefixed := PrefixEach(t, selectors);
    return Join(prefixed, ", ");
  }

  // ---- Texts to add ----

  /** A text such as ".is-style-a", ":not(.b, .c)", "> p " or "": it leaves the
      lexer where it found it, and none of its commas separates. */
  predicate Balanced(t: string) {
    Run(Start, t) == Start && |Pieces(Start, t)| == 1
  }

  function Shift(x: Lexer, d: int): Lexer {
    x.(depth := x.depth + d)
  }

  lemma {:induction false} ShiftRuns(x: Lexer, d: int, t: string)
    ensures Run(Shift(x, d), t) == Shift(Run(x, t), d)
  {
    if t != "" {
      ShiftRuns(x, d, t[..|t| - 1]);
    }
  }

  lemma BalancedRuns(x: Lexer, t: string)
    requires Balanced(t) && x.mode.Plain?
    ensures Run(x, t) == x
  {
    ShiftRuns(Start, x.depth, t);
  }

  /** At whatever depth it is read, no separator ends the text. */
  lemma BalancedEnds(x: Lexer, t: string)
    requires Balanced(t) && t != "" && x.mode.Plain?
    ensures EndsInText(Pieces(x, t))
  {
    var front, c := t[..|t| - 1], t[|t| - 1];
    ShiftRuns(Start, x.depth, front);
    assert Run(Start, t) == Step(Run(Start, front), c);
    assert !Separates(Run(Start, front), c);
  }

  predicate EndsInText(ps: seq<string>)
    requires |ps| >= 1
  {
    ps[|ps| - 1] != ""
  }

  lemma GlueOne(ps: seq<string>, q: string)
    requires |ps| >= 1
    ensures Glue(ps, [q]) == GrowLast(ps, q)
  {
  }

  lemma GlueTwo(ps: seq<string>, q: string, last: string)
    requires |ps| >= 1
    ensures Glue(ps, [q, last]) == GrowLast(ps, q) + [last]
  {
  }

  /** The text could not be taken for the end of an escape or of a comment's opening. */
  predicate PlainStart(t: string) {
    t != "" && t[0] !in "/,'\"()\\*"
  }

  lemma PlainFirst(x: Lexer, c: char)
    requires c !in "/,'\"()\\*" && (Outside(x) || x.mode.Escaped?)
    ensures Run(x, [c]) == Lexer(Plain, x.depth) && Pieces(x, [c]) == [[c]]
  {
    Push(x, "", c);
    assert "" + [c] == [c];
    assert GrowLast([""], [c]) == [[c]];
  }

  /** After an item that is in the middle of nothing but an escape, such a text
      is read as it is from the start. */
  lemma PlainAfter(x: Lexer, t: string)
    requires PlainStart(t) && x.depth == 0 && (Outside(x) || x.mode.Escaped?)
    ensures Run(x, t) == Run(Start, t) && |Pieces(x, t)| == |Pieces(Start, t)|
  {
    var head, tail := [t[0]], t[1..];
    assert t == head + tail;
    PlainFirst(x, t[0]);
    PlainFirst(Start, t[0]);
    RunConcat(x, head, tail);
    RunConcat(Start, head, tail);
    PiecesConcat(x, head, tail);
    PiecesConcat(Start, head, tail);
  }

  /** A text without commas is one piece wherever it is read. */
  lemma {:induction false} NoCommaOnePiece(x: Lexer, t: string)
    requires ',' !in t
    ensures |Pieces(x, t)| == 1
  {
    if t != "" {
      assert ',' !in t[..|t| - 1];
      NoCommaOnePiece(x, t[..|t| - 1]);
    }
  }

  // ---- The slow path ----

  /** The text can follow each of the items that another comes after. */
  ghost predicate Follows(items: seq<string>, t: string) {
    forall i | 0 <= i < |items| - 1 :: if t == "" then !EndsInEscape(items[i]) else PlainStart(t) || Run(Start, items[i]) == Start
  }

  lemma AddedSingle(item: string, t: string)
    requires Single(item)
    ensures |Pieces(Start, item + t)| == |Pieces(Run(Start, item), t)|
    ensures |Pieces(Run(Start, item), t)| == 1 ==> Single(item + t)
  {
    PiecesConcat(Start, item, t);
    if |Pieces(Run(Start, item), t)| == 1 {
      OnePiece(Start, item + t);
    }
  }

  lemma AddedContained(item: string, x: Lexer, t: string)
    requires Single(item) && x == Run(Start, item) && Run(x, t) == Start && |Pieces(x, t)| == 1
    ensures SelfContained(item + t)
  {
    RunConcat(Start, item, t);
    AddedSingle(item, t);
  }

  lemma ReadAfter(x: Lexer, t: string)
    requires Balanced(t) && (x == Start || (PlainStart(t) && x.depth == 0 && (Outside(x) || x.mode.Escaped?)))
    ensures Run(x, t) == Start && |Pieces(x, t)| == 1
  {
    if x != Start {
      PlainAfter(x, t);
    }
  }

  ghost predicate AllContained(items: seq<string>) {
    forall i | 0 <= i < |items| :: SelfContained(items[i])
  }

  lemma AddedInFront(items: seq<string>, t: string)
    requires Itemized(items) && Balanced(t) && Follows(items, t)
    ensures AllContained(Added(items, t)[..|items| - 1])
  {
    var front := Added(items, t)[..|items| - 1];
    forall i | 0 <= i < |front|
      ensures SelfContained(front[i])
    {
      assert front[i] == items[i] + t;
      if t == "" {
        assert items[i] + t == items[i];
      } else {
        ReadAfter(Run(Start, items[i]), t);
        AddedContained(items[i], Run(Start, items[i]), t);
      }
    }
  }

  /** Joining self-contained items and one more that may come apart. */
  lemma JoinOnto(front: seq<string>, last: string)
    requires AllContained(front)
    ensures |Pieces(Start, Join(front + [last], ", "))| == |front| + |Pieces(Start, last)|
  {
    if front != [] {
      var joined := Join(front, ", ");
      JoinPieces(front);
      JoinPush(front, ", ", last);
      SeparatorRuns(Run(Start, joined));
      RunConcat(Start, joined, ", ");
      PiecesConcat(Start, joined, ", ");
      PiecesConcat(Start, joined + ", ", last);
    }
  }

  lemma ChainedSplit(items: seq<string>)
    requires Chained(items)
    ensures Split(Join(items, ", ")) == Map(Trim, items)
  {
    JoinPieces(items);
    var ps := Spaced(items);
    assert Kept(ps) == ps;
    forall i | 0 <= i < |items|
      ensures Trim(ps[i]) == Trim(items[i])
    {
      TrimInside(" ", items[i], "");
      assert " " + items[i] + "" == " " + items[i];
    }
  }

  /** Such a join comes apart again exactly when the last item stays in one piece. */
  lemma SplitJoinOnto(front: seq<string>, last: string)
    requires AllContained(front)
    ensures Split(Join(front + [last], ", ")) == Map(Trim, front + [last]) <==> |Pieces(Start, last)| == 1
  {
    JoinOnto(front, last);
    if |Pieces(Start, last)| == 1 {
      OnePiece(Start, last);
      ChainedSplit(front + [last]);
    } else {
      SplitJoinCounts(front + [last]);
    }
  }

  lemma LastDecides(front: seq<string>, item: string, t: string)
    requires AllContained(front) && Single(item)
    ensures Split(Join(front + [item + t], ", ")) == Map(Trim, front + [item + t]) <==> |Pieces(Run(Start, item), t)| == 1
  {
    AddedSingle(item, t);
    SplitJoinOnto(front, item + t);
  }

  /** The slow append, for a text that can follow the items before the last. */
  lemma SlowAppendExactly(items: seq<string>, t: string)
    requires Itemized(items) && Balanced(t) && Follows(items, t)
    ensures var added := Added(items, t);
      Split(Join(added, ", ")) == Map(Trim, added) <==> |Pieces(Run(Start, items[|items| - 1]), t)| == 1
  {
    var added, n := Added(items, t), |items| - 1;
    AddedInFront(items, t);
    LastDecides(added[..n], items[n], t);
    assert added == added[..n] + [items[n] + t];
  }

  lemma PrefixedIsItemized(items: seq<string>, t: string)
    requires Itemized(items) && Balanced(t)
    ensures Itemized(Prefixed(t, items))
    ensures Escapes(Prefixed(t, items)[..|items| - 1]) == 0 <==> Escapes(items[..|items| - 1]) == 0
  {
    var prefixed := Prefixed(t, items);
    forall i | 0 <= i < |prefixed|
      ensures Single(prefixed[i])
      ensures Run(Start, prefixed[i]) == Run(Start, items[i])
    {
      RunConcat(Start, t, items[i]);
      PiecesConcat(Start, t, items[i]);
      assert |Pieces(Start, t + items[i])| == 1;
      OnePiece(Start, t + items[i]);
    }
    var a, b := prefixed[..|items| - 1], items[..|items| - 1];
    NoEscapes(a);
    NoEscapes(b);
    assert forall i | 0 <= i < |a| :: a[i] == prefixed[i] && b[i] == items[i];
  }

  lemma SlowPrependExactly(items: seq<string>, t: string)
    requires Itemized(items) && Balanced(t)
    ensures var prefixed := Prefixed(t, items);
      Split(Join(prefixed, ", ")) == Map(Trim, prefixed) <==> Escapes(items[..|items| - 1]) == 0
  {
    var prefixed := Prefixed(t, items);
    PrefixedIsItemized(items, t);
    if Escapes(items[..|items| - 1]) == 0 {
      ItemizedIsChained(prefixed);
      ChainedSplit(prefixed);
    } else {
      JoinCounts(prefixed);
    }
  }

  // ---- The fast path ----

  lemma {:induction false} ReplaceNothing(s: string, with: string)
    requires ',' !in s
    ensures ReplaceComma(s, with) == s
  {
    if s != "" {
      assert ',' !in s[..|s| - 1] && s[|s| - 1] != ',';
      ReplaceNothing(s[..|s| - 1], with);
    }
  }

  lemma {:induction false} SimpleRuns(s: string)
    requires LooksSimple(s)
    ensures Run(Start, s).mode.Plain? && Run(Start, s).depth <= 0
  {
    if s != "" {
      SimpleRuns(s[..|s| - 1]);
      assert s[|s| - 1] !in "/'\"(<\\";
    }
  }

  lemma ReplaceOne(p: string, c: char, with: string)
    ensures ReplaceComma(p + [c], with) == ReplaceComma(p, with) + (if c == ',' then with else [c])
  {
    assert (p + [c])[..|p|] == p;
  }

  lemma CommaAlone(x: Lexer)
    requires x.mode.Plain?
    ensures Run(x, ",") == x
    ensures Pieces(x, ",") == if x.depth == 0 then ["", ""] else [","]
  {
    Push(x, "", ',');
    assert "" + [','] == ",";
    assert GrowLast([""], [',']) == [","];
  }

  lemma GlueToOne(p: string, comma: string)
    ensures Glue([p], ["", ""]) == [p, ""]
    ensures Glue([p], [comma]) == [p + comma]
  {
    assert p + "" == p;
  }

  /** Adding the text and then a comma, where the lexer is at `x`. */
  lemma TextThenComma(x: Lexer, t: string)
    requires Balanced(t) && x.mode.Plain?
    ensures Run(x, t + ",") == x
    ensures |Pieces(x, t + ",")| == |Pieces(x, t)| + if x.depth == 0 then 1 else 0
    ensures |Pieces(x, t)| == 1 ==> CommaRuns(x, t + ",", t, "")
  {
    var comma := ",";
    BalancedRuns(x, t);
    CommaAlone(x);
    RunConcat(x, t, comma);
    PiecesConcat(x, t, comma);
    if |Pieces(x, t)| == 1 {
      OnePiece(x, t);
      GlueToOne(t, comma);
    }
  }

  lemma CommaThenText(x: Lexer, t: string)
    requires Balanced(t) && x.mode.Plain?
    ensures Run(x, "," + t) == x
    ensures |Pieces(x, "," + t)| == |Pieces(x, t)| + if x.depth == 0 then 1 else 0
    ensures |Pieces(x, t)| == 1 ==> CommaRuns(x, "," + t, "", t)
    ensures t != "" ==> EndsInText(Pieces(x, "," + t))
  {
    var comma := ",";
    CommaAlone(x);
    BalancedRuns(x, t);
    RunConcat(x, comma, t);
    PiecesConcat(x, comma, t);
    if t != "" {
      BalancedEnds(x, t);
    }
    if |Pieces(x, t)| == 1 {
      OnePiece(x, t);
      CommaThenOne(Pieces(x, comma), t);
    }
  }

  lemma CommaThenOne(ps: seq<string>, t: string)
    requires ps == ["", ""] || ps == [","]
    ensures Glue(ps, [t]) == if ps == [","] then ["," + t] else ["", t]
  {
    assert "" + t == t;
  }

  /** The pieces of s, as they read once every comma has become t and a comma. */
  function Tailed(ps: seq<string>, t: string): (r: seq<string>)
    ensures |r| == |ps|
    ensures forall i | 0 <= i < |ps| :: r[i] == ReplaceComma(ps[i], t + ",") + if i < |ps| - 1 then t else ""
  {
    seq(|ps|, i requires 0 <= i < |ps| => ReplaceComma(ps[i], t + ",") + if i < |ps| - 1 then t else "")
  }

  lemma TailedPush(ps: seq<string>, t: string)
    requires |ps| >= 1
    ensures Tailed(ps + [""], t) == GrowLast(Tailed(ps, t), t) + [""]
  {
    var a, b := Tailed(ps + [""], t), GrowLast(Tailed(ps, t), t) + [""];
    var k := |ps| - 1;
    forall i | 0 <= i < |a|
      ensures a[i] == b[i]
    {
      if i == k {
        assert ReplaceComma(ps[k], t + ",") + "" == ReplaceComma(ps[k], t + ",");
      } else if i < k {
        assert (ps + [""])[i] == ps[i];
      }
    }
  }

  lemma TailedGrow(ps: seq<string>, c: char, t: string)
    requires |ps| >= 1
    ensures Tailed(GrowLast(ps, [c]), t) == GrowLast(Tailed(ps, t), if c == ',' then t + "," else [c])
  {
    var k := |ps| - 1;
    ReplaceOne(ps[k], c, t + ",");
    var more := if c == ',' then t + "," else [c];
    assert ReplaceComma(ps[k], t + ",") + more + "" == ReplaceComma(ps[k], t + ",") + "" + more;
  }

  predicate CommaRuns(x: Lexer, more: string, tail: string, head: string) {
    Run(x, more) == x && Pieces(x, more) == if x.depth == 0 then [tail, head] else [more]
  }

  /** What a comma became, after any text. */
  lemma RewriteComma(f: string, more: string, tail: string, head: string)
    requires CommaRuns(Run(Start, f), more, tail, head)
    ensures Run(Start, f + more) == Run(Start, f)
    ensures Pieces(Start, f + more) ==
      if Run(Start, f).depth == 0 then GrowLast(Pieces(Start, f), tail) + [head] else GrowLast(Pieces(Start, f), more)
  {
    RunConcat(Start, f, more);
    PiecesConcat(Start, f, more);
    GlueTwo(Pieces(Start, f), tail, head);
    GlueOne(Pieces(Start, f), more);
  }

  /** One step of the rewritten text: `more` is what the character became, of
      which `tail` stays with the selector before and `head` starts the next. */
  lemma RewriteStep(f: string, x: Lexer, c: char, more: string, tail: string, head: string)
    requires x == Run(Start, f) && x.mode.Plain? && c !in "/'\"(<\\"
    requires if c == ',' then CommaRuns(x, more, tail, head) else more == [c]
    ensures Run(Start, f + more) == Step(x, c)
    ensures Pieces(Start, f + more) == if Separates(x, c) then GrowLast(Pieces(Start, f), tail) + [head]
      else GrowLast(Pieces(Start, f), more)
  {
    if c == ',' {
      RewriteComma(f, more, tail, head);
    } else {
      RewriteOther(f, c);
    }
  }

  lemma RewriteOther(f: string, c: char)
    requires c != ','
    ensures Run(Start, f + [c]) == Step(Run(Start, f), c)
    ensures Pieces(Start, f + [c]) == GrowLast(Pieces(Start, f), [c])
  {
    Push(Start, f, c);
  }

  lemma TailedStep(x: Lexer, ps: seq<string>, c: char, t: string)
    requires |ps| >= 1 && x.mode.Plain?
    ensures Tailed(Grown(x, ps, c), t) == if Separates(x, c) then GrowLast(Tailed(ps, t), t) + [""]
      else GrowLast(Tailed(ps, t), if c == ',' then t + "," else [c])
  {
    if Separates(x, c) {
      TailedPush(ps, t);
    } else {
      TailedGrow(ps, c, t);
    }
  }

  lemma FastPrefixedStep(x: Lexer, ps: seq<string>, c: char, t: string)
    requires |ps| >= 1 && x.mode.Plain?
    ensures FastPrefixed(Grown(x, ps, c), t) == if Separates(x, c) then GrowLast(FastPrefixed(ps, t), "") + [t]
      else GrowLast(FastPrefixed(ps, t), if c == ',' then "," + t else [c])
  {
    if Separates(x, c) {
      FastPrefixedPush(ps, t);
    } else {
      FastPrefixedGrow(ps, c, t);
    }
  }

  lemma SimpleFront(s: string, c: char)
    requires LooksSimple(s + [c])
    ensures LooksSimple(s) && c !in "/'\"(<\\"
  {
    assert (s + [c])[|s|] == c && forall i | 0 <= i < |s| :: (s + [c])[i] == s[i];
  }

  predicate CommaFree(ps: seq<string>) {
    forall i | 0 <= i < |ps| :: ',' !in ps[i]
  }

  lemma CommaFreeGrow(ps: seq<string>, c: char)
    requires |ps| >= 1
    ensures CommaFree(ps + [""]) <==> CommaFree(ps)
    ensures CommaFree(GrowLast(ps, [c])) <==> CommaFree(ps) && c != ','
  {
    var k := |ps| - 1;
    var a, b := ps + [""], GrowLast(ps, [c]);
    assert forall i | 0 <= i < |ps| :: a[i] == ps[i];
    assert forall i | 0 <= i < k :: b[i] == ps[i];
    assert b[k] == ps[k] + [c];
    assert ',' in b[k] <==> ',' in ps[k] || c == ',';
    if CommaFree(a) {
      assert forall i | 0 <= i < |ps| :: ',' !in a[i];
    }
    if CommaFree(b) {
      assert forall i | 0 <= i <= k :: ',' !in b[i];
    }
  }

  lemma RewriteGrows(f: string, more: string)
    ensures Run(Start, f + more) == Run(Run(Start, f), more)
    ensures |Pieces(Start, f + more)| == |Pieces(Start, f)| + |Pieces(Run(Start, f), more)| - 1
  {
    RunConcat(Start, f, more);
    PiecesConcat(Start, f, more);
  }

  /** The text itself comes apart below depth 0 only, and only at its commas. */
  lemma ComesApart(x: Lexer, t: string)
    requires Balanced(t) && x.mode.Plain? && |Pieces(x, t)| != 1
    ensures x.depth != 0 && ',' in t
  {
    if ',' !in t {
      NoCommaOnePiece(x, t);
    }
  }

  /** Rewriting commas to `t,` leaves as many pieces as there were, which are
      then known, or makes more; never more if all commas separate. */
  ghost predicate Rewritten(ps: seq<string>, out: seq<string>, known: seq<string>, t: string) {
    |out| >= |ps| && (|out| == |ps| ==> out == known) && (CommaFree(ps) || ',' !in t ==> |out| == |ps|)
  }

  lemma {:induction false} TailedPieces(s: string, t: string)
    requires LooksSimple(s) && Balanced(t)
    ensures Run(Start, ReplaceComma(s, t + ",")) == Run(Start, s)
    ensures Rewritten(Pieces(Start, s), Pieces(Start, ReplaceComma(s, t + ",")), Tailed(Pieces(Start, s), t), t)
  {
    if s == "" {
      assert ReplaceComma("", t + ",") + "" == "";
      assert Tailed([""], t) == [""];
    } else {
      var front, c := s[..|s| - 1], s[|s| - 1];
      assert s == front + [c];
      SimpleFront(front, c);
      SimpleRuns(front);
      TailedPieces(front, t);
      TailedOneMore(ReplaceComma(front, t + ","), Run(Start, front), Pieces(Start, front), c, t);
      Push(Start, front, c);
      ReplaceOne(front, c, t + ",");
    }
  }

  lemma TailedOneMore(f: string, x: Lexer, ps: seq<string>, c: char, t: string)
    requires x == Run(Start, f) && x.mode.Plain? && c !in "/'\"(<\\" && Balanced(t)
    requires |ps| >= 1 && Rewritten(ps, Pieces(Start, f), Tailed(ps, t), t)
    ensures var more := if c == ',' then t + "," else [c];
      && Run(Start, f + more) == Step(x, c)
      && Rewritten(Grown(x, ps, c), Pieces(Start, f + more), Tailed(Grown(x, ps, c), t), t)
  {
    var more := if c == ',' then t + "," else [c];
    TextThenComma(x, t);
    CommaFreeGrow(ps, c);
    RewriteGrows(f, more);
    if c == ',' && |Pieces(x, t)| != 1 {
      ComesApart(x, t);
    } else {
      RewriteStep(f, x, c, more, t, "");
      TailedStep(x, ps, c, t);
    }
  }

  /** What the fast append makes of the pieces of s. */
  function FastAppended(ps: seq<string>, t: string): (r: seq<string>)
    ensures |r| == |ps| && forall i | 0 <= i < |ps| :: r[i] == ReplaceComma(ps[i], t + ",") + t
  {
    seq(|ps|, i requires 0 <= i < |ps| => ReplaceComma(ps[i], t + ",") + t)
  }

  lemma TailedWhole(ps: seq<string>, t: string)
    requires |ps| >= 1
    ensures GrowLast(Tailed(ps, t), t) == FastAppended(ps, t)
  {
    var k := |ps| - 1;
    assert ReplaceComma(ps[k], t + ",") + "" == ReplaceComma(ps[k], t + ",");
  }

  lemma AppendPieces(s: string, t: string)
    requires LooksSimple(s) && Balanced(t)
    ensures var ps, fs := Pieces(Start, s), Pieces(Start, ReplaceComma(s, t + ",") + t);
      && |fs| >= |ps|
      && (|fs| == |ps| ==> fs == FastAppended(ps, t) && |Pieces(Run(Start, s), t)| == 1)
      && ((CommaFree(ps) || ',' !in t) && |Pieces(Run(Start, s), t)| == 1 ==> |fs| == |ps|)
      && (t != "" ==> EndsInText(fs))
  {
    var f, ps := ReplaceComma(s, t + ","), Pieces(Start, s);
    TailedPieces(s, t);
    SimpleRuns(s);
    var x := Run(Start, f);
    PiecesConcat(Start, f, t);
    if t != "" {
      BalancedEnds(x, t);
    }
    if |Pieces(x, t)| == 1 {
      OnePiece(x, t);
      GlueOne(Pieces(Start, f), t);
      TailedWhole(ps, t);
    }
  }

  /** What the fast prepend makes of the pieces of s. */
  function FastPrefixed(ps: seq<string>, t: string): (r: seq<string>)
    ensures |r| == |ps| && forall i | 0 <= i < |ps| :: r[i] == t + ReplaceComma(ps[i], "," + t)
  {
    seq(|ps|, i requires 0 <= i < |ps| => t + ReplaceComma(ps[i], "," + t))
  }

  lemma FastPrefixedGrow(ps: seq<string>, c: char, t: string)
    requires |ps| >= 1
    ensures FastPrefixed(GrowLast(ps, [c]), t) == GrowLast(FastPrefixed(ps, t), if c == ',' then "," + t else [c])
  {
    var k := |ps| - 1;
    ReplaceOne(ps[k], c, "," + t);
    var more := if c == ',' then "," + t else [c];
    assert t + (ReplaceComma(ps[k], "," + t) + more) == t + ReplaceComma(ps[k], "," + t) + more;
  }

  lemma FastPrefixedPush(ps: seq<string>, t: string)
    requires |ps| >= 1
    ensures FastPrefixed(ps + [""], t) == GrowLast(FastPrefixed(ps, t), "") + [t]
  {
    var k := |ps| - 1;
    assert t + ReplaceComma(ps[k], "," + t) + "" == t + ReplaceComma(ps[k], "," + t);
    assert t + ReplaceComma("", "," + t) == t;
    var a, b := FastPrefixed(ps + [""], t), GrowLast(FastPrefixed(ps, t), "") + [t];
    forall i | 0 <= i < |a|
      ensures a[i] == b[i]
    {
      if i <= k {
        assert (ps + [""])[i] == ps[i];
      }
    }
  }

  function FastPrepend(s: string, t: string): string {
    t + ReplaceComma(s, "," + t)
  }

  lemma FastPrependPush(s: string, c: char, t: string)
    ensures FastPrepend(s + [c], t) == FastPrepend(s, t) + if c == ',' then "," + t else [c]
  {
    ReplaceOne(s, c, "," + t);
    var more := if c == ',' then "," + t else [c];
    assert t + (ReplaceComma(s, "," + t) + more) == t + ReplaceComma(s, "," + t) + more;
  }

  lemma PrependBase(t: string)
    requires Balanced(t)
    ensures Run(Start, FastPrepend("", t)) == Start && Pieces(Start, FastPrepend("", t)) == FastPrefixed([""], t)
  {
    assert FastPrepend("", t) == t;
    OnePiece(Start, t);
  }

  lemma {:induction false} PrependPieces(s: string, t: string)
    requires LooksSimple(s) && Balanced(t)
    ensures Run(Start, FastPrepend(s, t)) == Run(Start, s)
    ensures Rewritten(Pieces(Start, s), Pieces(Start, FastPrepend(s, t)), FastPrefixed(Pieces(Start, s), t), t)
    ensures t != "" ==> EndsInText(Pieces(Start, FastPrepend(s, t)))
  {
    if s == "" {
      PrependBase(t);
    } else {
      var front, c := s[..|s| - 1], s[|s| - 1];
      assert s == front + [c];
      SimpleFront(front, c);
      SimpleRuns(front);
      PrependPieces(front, t);
      PrefixedOneMore(FastPrepend(front, t), Run(Start, front), Pieces(Start, front), c, t);
      if t != "" {
        PrefixedEnds(FastPrepend(front, t), Run(Start, front), c, t);
      }
      Push(Start, front, c);
      FastPrependPush(front, c, t);
    }
  }

  lemma PrefixedOneMore(f: string, x: Lexer, ps: seq<string>, c: char, t: string)
    requires x == Run(Start, f) && x.mode.Plain? && c !in "/'\"(<\\" && Balanced(t)
    requires |ps| >= 1 && Rewritten(ps, Pieces(Start, f), FastPrefixed(ps, t), t)
    ensures var more := if c == ',' then "," + t else [c];
      && Run(Start, f + more) == Step(x, c)
      && Rewritten(Grown(x, ps, c), Pieces(Start, f + more), FastPrefixed(Grown(x, ps, c), t), t)
  {
    var more := if c == ',' then "," + t else [c];
    CommaThenText(x, t);
    CommaFreeGrow(ps, c);
    RewriteGrows(f, more);
    if c == ',' && |Pieces(x, t)| != 1 {
      ComesApart(x, t);
    } else {
      RewriteStep(f, x, c, more, "", t);
      FastPrefixedStep(x, ps, c, t);
    }
  }

  lemma PrefixedEnds(f: string, x: Lexer, c: char, t: string)
    requires x == Run(Start, f) && x.mode.Plain? && Balanced(t) && t != ""
    ensures EndsInText(Pieces(Start, f + if c == ',' then "," + t else [c]))
  {
    if c == ',' {
      CommaThenText(x, t);
      PiecesConcat(Start, f, "," + t);
      GlueEnds(Pieces(Start, f), Pieces(x, "," + t));
    } else {
      Push(Start, f, c);
    }
  }

  lemma GlueEnds(ps: seq<string>, qs: seq<string>)
    requires |ps| >= 1 && |qs| >= 1 && EndsInText(qs)
    ensures EndsInText(Glue(ps, qs))
  {
    if |qs| == 1 {
      assert Glue(ps, qs) == ps[..|ps| - 1] + [ps[|ps| - 1] + qs[0]];
    }
  }

  // ---- What trimming does to a piece and the text next to it ----

  /** How many characters are not space: trimming keeps them all. */
  function Inks(s: string): nat {
    if s == "" then 0 else Inks(s[..|s| - 1]) + if Space(s[|s| - 1]) then 0 else 1
  }

  lemma {:induction false} InksConcat(a: string, b: string)
    ensures Inks(a + b) == Inks(a) + Inks(b)
  {
    if b == "" {
      assert a + b == a;
    } else {
      assert (a + b)[..|a + b| - 1] == a + b[..|b| - 1];
      InksConcat(a, b[..|b| - 1]);
    }
  }

  lemma {:induction false} InksOfSpace(s: string)
    ensures Inks(s) == 0 <==> AllSpace(s)
  {
    if s != "" {
      InksOfSpace(s[..|s| - 1]);
      assert AllSpace(s) <==> AllSpace(s[..|s| - 1]) && Space(s[|s| - 1]) by {
        assert forall i | 0 <= i < |s| - 1 :: s[..|s| - 1][i] == s[i];
      }
    }
  }

  lemma InksOfTrim(s: string)
    ensures Inks(Trim(s)) == Inks(s)
  {
    var left, right := TrimParts(s);
    InksOfSpace(left);
    InksOfSpace(right);
    InksConcat(left, Trim(s));
    InksConcat(left + Trim(s), right);
  }

  lemma {:induction false} InksOfReplace(s: string, with: string)
    requires Inks(with) > 1
    ensures Inks(ReplaceComma(s, with)) >= Inks(s)
    ensures ',' in s ==> Inks(ReplaceComma(s, with)) > Inks(s)
  {
    if s != "" {
      var front, c := s[..|s| - 1], s[|s| - 1];
      assert s == front + [c];
      InksOfReplace(front, with);
      InksConcat(ReplaceComma(front, with), if c == ',' then with else [c]);
      InkOf(c);
    }
  }

  lemma InkOf(c: char)
    ensures Inks([c]) == if Space(c) then 0 else 1
  {
    assert [c][..0] == "";
  }

  function InkSum(items: seq<string>): nat {
    if items == [] then 0 else InkSum(items[..|items| - 1]) + Inks(items[|items| - 1])
  }

  lemma InkSumPush(items: seq<string>, p: string)
    ensures InkSum(items + [p]) == InkSum(items) + Inks(p)
  {
    assert (items + [p])[..|items|] == items;
  }

  lemma InkSumGrow(ps: seq<string>, tail: string)
    requires |ps| >= 1
    ensures InkSum(GrowLast(ps, tail)) == InkSum(ps) + Inks(tail)
  {
    var k := |ps| - 1;
    InkSumPush(ps[..k], ps[k] + tail);
    InksConcat(ps[k], tail);
  }

  /** A text has the ink of its pieces and one comma between each two. */
  lemma {:induction false} InksOfPieces(x: Lexer, s: string)
    ensures InkSum(Pieces(x, s)) + |Pieces(x, s)| - 1 == Inks(s)
  {
    if s == "" {
      assert [""][..0] == [];
    } else {
      var n := |s| - 1;
      InksOfPieces(x, s[..n]);
      InkSumPush(Pieces(x, s[..n]), "");
      InkSumGrow(Pieces(x, s[..n]), [s[n]]);
      InkOf(s[n]);
    }
  }

  lemma {:induction false} InksOfMap(ps: seq<string>)
    ensures InkSum(Map(Trim, ps)) == InkSum(ps)
  {
    if ps != [] {
      var n := |ps| - 1;
      InksOfMap(ps[..n]);
      assert Map(Trim, ps)[..n] == Map(Trim, ps[..n]);
      InksOfTrim(ps[n]);
    }
  }

  lemma InksOfSplit(s: string)
    ensures InkSum(Split(s)) + |Pieces(Start, s)| - 1 == Inks(s)
  {
    InksOfPieces(Start, s);
    InksOfMap(Kept(Pieces(Start, s)));
  }

  lemma {:induction false} InksOfJoin(items: seq<string>)
    requires items != []
    ensures Inks(Join(items, ", ")) == InkSum(items) + |items| - 1
  {
    var front, item := items[..|items| - 1], items[|items| - 1];
    if front != [] {
      InksOfJoin(front);
      InksConcat(Join(front, ", "), ", ");
      InksConcat(Join(front, ", ") + ", ", item);
      InkOf(',');
      InkOf(' ');
      InksConcat(",", " ");
      assert "," + " " == ", ";
    }
  }

  /** If splitting gives the joined items back, only the join's commas separate. */
  lemma SplitJoinCounts(items: seq<string>)
    requires items != []
    ensures Split(Join(items, ", ")) == Map(Trim, items) ==> |Pieces(Start, Join(items, ", "))| == |items|
  {
    InksOfSplit(Join(items, ", "));
    InksOfJoin(items);
    InksOfMap(items);
  }

  // ---- The text next to one piece ----

  /** Appending to the piece on the fast path leaves what appending to its
      trimmed core would: it has no comma of its own, and no space that ends up
      between it and the text. Blank text may be before a comma that comes first. */
  predicate CleanBefore(p: string, t: string) {
    if t == "" then true
    else if AllSpace(t) then forall i | 0 < i < |Trim(p)| :: Trim(p)[i] != ','
    else ',' !in p && (AllSpace(p) || !Space(p[|p| - 1]))
  }

  predicate CleanAfter(t: string, p: string) {
    if t == "" then true
    else if AllSpace(t) then forall i | 0 <= i < |Trim(p)| - 1 :: Trim(p)[i] != ','
    else ',' !in p && (AllSpace(p) || !Space(p[0]))
  }

  lemma CoreHasInk(p: string)
    requires !AllSpace(p)
    ensures Trim(p) != ""
  {
    InksOfTrim(p);
    InksOfSpace(p);
  }

  /** Space between two texts with ink stays, space around them goes. */
  lemma TrimBetween(left: string, core: string, between: string, ink: string, right: string)
    requires AllSpace(left) && AllSpace(right) && Trimmed(core) && core != "" && Trimmed(ink) && ink != ""
    ensures Trim(left + (core + between + ink) + right) == core + between + ink
  {
    var s := core + between + ink;
    assert s[0] == core[0] && s[|s| - 1] == ink[|ink| - 1];
    TrimIs(left, s, right);
  }

  lemma TrimTwo(left: string, core: string, right: string, a: string, ink: string, b: string)
    requires AllSpace(left) && AllSpace(right) && AllSpace(a) && AllSpace(b)
    requires Trimmed(core) && core != "" && Trimmed(ink) && ink != ""
    ensures Trim(left + core + right + (a + ink + b)) == core + (right + a) + ink
  {
    TrimBetween(left, core, right + a, ink, b);
    SixParts(left, core, right, a, ink, b);
  }

  lemma SixParts(left: string, core: string, right: string, a: string, ink: string, b: string)
    ensures left + core + right + (a + ink + b) == left + (core + (right + a) + ink) + b
  {
  }

  lemma TrimAppend(p: string, t: string)
    requires !AllSpace(t)
    ensures Trim(p + t) == Trim(Trim(p) + t) <==> AllSpace(p) || !Space(p[|p| - 1])
  {
    if AllSpace(p) {
      TrimOfSpace(p);
      BlankAppended(t, p);
      assert "" + t == t;
    } else {
      var left, right := TrimParts(p);
      var a, b := TrimParts(t);
      CoreIsInk(t);
      CoreIsInk(p);
      TrimTwo(left, Trim(p), right, a, Trim(t), b);
      TrimTwo("", Trim(p), "", a, Trim(t), b);
      Unspaced(Trim(p));
      LastOf(left, Trim(p), right, p);
    }
  }

  lemma Unspaced(s: string)
    ensures "" + s + "" == s
  {
  }

  lemma CoreIsInk(p: string)
    requires !AllSpace(p)
    ensures Trim(p) != "" && Trimmed(Trim(p))
  {
    CoreHasInk(p);
    TrimTrims(p);
  }

  lemma LastOf(left: string, core: string, right: string, p: string)
    requires p == left + core + right && AllSpace(left) && AllSpace(right) && Trimmed(core) && core != ""
    ensures !Space(p[|p| - 1]) <==> right == ""
    ensures !Space(p[0]) <==> left == ""
  {
    assert p[|p| - 1] == if right == "" then core[|core| - 1] else right[|right| - 1];
    assert p[0] == if left == "" then core[0] else left[0];
  }

  lemma TrimPrepend(t: string, p: string)
    requires !AllSpace(t)
    ensures Trim(t + p) == Trim(t + Trim(p)) <==> AllSpace(p) || !Space(p[0])
  {
    if AllSpace(p) {
      TrimOfSpace(p);
      BlankAppended(t, p);
      assert t + "" == t;
    } else {
      var left, right := TrimParts(p);
      var a, b := TrimParts(t);
      CoreIsInk(t);
      CoreIsInk(p);
      TrimTwo(a, Trim(t), b, left, Trim(p), right);
      TrimTwo(a, Trim(t), b, "", Trim(p), "");
      Unspaced(Trim(p));
      LastOf(left, Trim(p), right, p);
    }
  }

  lemma {:induction false} ReplaceConcat(a: string, b: string, with: string)
    ensures ReplaceComma(a + b, with) == ReplaceComma(a, with) + ReplaceComma(b, with)
  {
    if b == "" {
      assert a + b == a;
    } else {
      var front, c := b[..|b| - 1], b[|b| - 1];
      ReplaceConcat(a, front, with);
      ReplaceOne(a + front, c, with);
      ReplaceOne(front, c, with);
      assert b == front + [c] && a + b == a + front + [c];
    }
  }

  /** Replacing by a longer text shows, but leaves the ends that are not part of it. */
  lemma {:induction false} ReplaceLonger(s: string, with: string)
    requires |with| > 1
    ensures |ReplaceComma(s, with)| >= |s|
    ensures ReplaceComma(s, with) == s <==> ',' !in s
    ensures s != "" && with[|with| - 1] == ',' ==> ReplaceComma(s, with)[|ReplaceComma(s, with)| - 1] == s[|s| - 1]
    ensures s != "" && with[0] == ',' ==> ReplaceComma(s, with)[0] == s[0]
  {
    if s != "" {
      var front, c := s[..|s| - 1], s[|s| - 1];
      assert s == front + [c];
      ReplaceLonger(front, with);
      assert ReplaceComma(s, with) == s ==> c != ',' by {
        if c == ',' {
          assert |ReplaceComma(s, with)| > |s|;
        }
      }
      if ReplaceComma(s, with) == s {
        assert ReplaceComma(front, with) == s[..|front|];
      }
    }
  }

  lemma ReplaceInside(left: string, core: string, right: string, with: string)
    requires AllSpace(left) && AllSpace(right)
    ensures Trim(ReplaceComma(left + core + right, with)) == Trim(ReplaceComma(core, with))
  {
    ReplaceConcat(left, core, with);
    ReplaceConcat(left + core, right, with);
    assert ',' !in left && ',' !in right;
    ReplaceNothing(left, with);
    ReplaceNothing(right, with);
    TrimInside(left, ReplaceComma(core, with), right);
  }

  lemma BlankBefore(head: char, rest: string, t: string)
    requires Trimmed([head] + rest) && t != "" && AllSpace(t)
    ensures Trim(ReplaceComma([head] + rest, t + ",")) == [head] + rest <==> ',' !in rest
  {
    var with := t + ",";
    var space, s := if head == ',' then t else "", [head] + ReplaceComma(rest, with);
    ReplaceConcat([head], rest, with);
    ReplaceHead(head, with);
    ReplaceLonger(rest, with);
    HeadReplaced([head], ReplaceComma(rest, with), ReplaceComma([head], with), space);
    assert !Space(s[|s| - 1]) by {
      assert ([head] + rest)[|rest|] == if rest == "" then head else rest[|rest| - 1];
    }
    TrimIs(space, s, "");
    HeadAlone(head, rest, ReplaceComma(rest, with));
  }

  lemma ReplaceHead(head: char, with: string)
    ensures ReplaceComma([head], with) == if head == ',' then with else [head]
  {
    ReplaceOne("", head, with);
    assert "" + [head] == [head];
  }

  lemma HeadReplaced(head: string, rest: string, replaced: string, space: string)
    requires replaced == space + head
    ensures replaced + rest == space + (head + rest) + ""
  {
  }

  lemma HeadAlone(head: char, a: string, b: string)
    ensures [head] + a == [head] + b <==> a == b
  {
    assert ([head] + a)[1..] == a && ([head] + b)[1..] == b;
  }

  lemma BlankAfter(t: string, rest: string, last: char)
    requires Trimmed(rest + [last]) && t != "" && AllSpace(t)
    ensures Trim(ReplaceComma(rest + [last], "," + t)) == rest + [last] <==> ',' !in rest
  {
    var with := "," + t;
    var space, s := if last == ',' then t else "", ReplaceComma(rest, with) + [last];
    ReplaceOne(rest, last, with);
    ReplaceLonger(rest, with);
    assert ReplaceComma(rest + [last], with) == "" + s + space;
    assert s[0] == (rest + [last])[0];
    TrimIs("", s, space);
    LastAlone(rest, ReplaceComma(rest, with), last);
  }

  lemma LastAlone(a: string, b: string, last: char)
    ensures a + [last] == b + [last] <==> a == b
  {
    assert (a + [last])[..|a|] == a && (b + [last])[..|b|] == b;
  }

  lemma AppendPiece(p: string, t: string)
    requires t != ""
    ensures Trim(ReplaceComma(p, t + ",") + t) == Trim(Trim(p) + t) <==> CleanBefore(p, t)
  {
    var with := t + ",";
    if AllSpace(t) {
      AppendBlank(p, t);
    } else if ',' in p {
      InksOfSpace(t);
      InksConcat(t, ",");
      InkOf(',');
      InksOfReplace(p, with);
      InksOfTrim(ReplaceComma(p, with) + t);
      InksOfTrim(p);
      InksOfTrim(Trim(p) + t);
      InksConcat(ReplaceComma(p, with), t);
      InksConcat(Trim(p), t);
    } else {
      ReplaceNothing(p, with);
      TrimAppend(p, t);
    }
  }

  lemma AppendBlank(p: string, t: string)
    requires t != "" && AllSpace(t)
    ensures Trim(ReplaceComma(p, t + ",") + t) == Trim(Trim(p) + t) <==> CleanBefore(p, t)
  {
    BlankAppended(ReplaceComma(p, t + ","), t);
    BlankAppended(Trim(p), t);
    BlankReplaced(p, t + ",");
    BlankBeforeCore(Trim(p), t);
  }

  lemma InRest(s: string)
    requires s != ""
    ensures ',' !in s[1..] <==> forall i | 0 < i < |s| :: s[i] != ','
  {
    if ',' !in s[1..] {
      assert forall i | 0 < i < |s| :: s[i] == s[1..][i - 1];
    }
  }

  lemma InFront(s: string, n: nat)
    requires n <= |s|
    ensures ',' !in s[..n] <==> forall i | 0 <= i < n :: s[i] != ','
  {
    if ',' !in s[..n] {
      assert forall i | 0 <= i < n :: s[i] == s[..n][i];
    }
  }

  lemma BlankBeforeCore(core: string, t: string)
    requires Trimmed(core) && Trim(core) == core && t != "" && AllSpace(t)
    ensures Trim(ReplaceComma(core, t + ",")) == core <==> forall i | 0 < i < |core| :: core[i] != ','
  {
    if core != "" {
      assert core == [core[0]] + core[1..];
      BlankBefore(core[0], core[1..], t);
      InRest(core);
    }
  }

  lemma BlankAfterCore(t: string, core: string)
    requires Trimmed(core) && Trim(core) == core && t != "" && AllSpace(t)
    ensures Trim(ReplaceComma(core, "," + t)) == core <==> forall i | 0 <= i < |core| - 1 :: core[i] != ','
  {
    if core != "" {
      var n := |core| - 1;
      assert core == core[..n] + [core[n]];
      BlankAfter(t, core[..n], core[n]);
      InFront(core, n);
    }
  }

  lemma BlankAppended(s: string, t: string)
    requires AllSpace(t)
    ensures Trim(s + t) == Trim(s) == Trim(t + s)
  {
    TrimInside("", s, t);
    assert "" + s == s;
    TrimInside(t, s, "");
    assert t + s + "" == t + s;
  }

  lemma BlankReplaced(p: string, with: string)
    ensures Trim(ReplaceComma(p, with)) == Trim(ReplaceComma(Trim(p), with))
    ensures Trim(Trim(p)) == Trim(p) && Trimmed(Trim(p))
  {
    var left, right := TrimParts(p);
    TrimTrims(p);
    ReplaceInside(left, Trim(p), right, with);
    TrimInside(left, Trim(p), right);
  }

  lemma PrependPiece(t: string, p: string)
    requires t != ""
    ensures Trim(t + ReplaceComma(p, "," + t)) == Trim(t + Trim(p)) <==> CleanAfter(t, p)
  {
    var with := "," + t;
    if AllSpace(t) {
      PrependBlank(t, p);
    } else if ',' in p {
      InksOfSpace(t);
      InksConcat(",", t);
      InkOf(',');
      InksOfReplace(p, with);
      InksOfTrim(t + ReplaceComma(p, with));
      InksOfTrim(p);
      InksOfTrim(t + Trim(p));
      InksConcat(t, ReplaceComma(p, with));
      InksConcat(t, Trim(p));
    } else {
      ReplaceNothing(p, with);
      TrimPrepend(t, p);
    }
  }

  lemma PrependBlank(t: string, p: string)
    requires t != "" && AllSpace(t)
    ensures Trim(t + ReplaceComma(p, "," + t)) == Trim(t + Trim(p)) <==> CleanAfter(t, p)
  {
    BlankAppended(ReplaceComma(p, "," + t), t);
    BlankAppended(Trim(p), t);
    BlankReplaced(p, "," + t);
    BlankAfterCore(t, Trim(p));
  }
}
