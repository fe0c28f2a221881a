/** WP_Theme_JSON_Gutenberg::split_selector_list: a scanner that jumps from one
    interesting character to the next. */
module SelectorScanner {
  import opened SelectorLexer

  /** strcspn: how far `s` goes from `at` without a character of `stops`. */
  function Cspn(s: string, stops: string, at: nat): (n: nat)
    requires at <= |s|
    ensures at + n <= |s|
    ensures forall i | at <= i < at + n :: s[i] !in stops
    ensures at + n < |s| ==> s[at + n] in stops
    decreases |s| - at
  {
    if at == |s| || s[at] in stops then 0 else 1 + Cspn(s, stops, at + 1)
  }

  /** strpos of the comment end, or the length of the text. */
  function CommentEnd(s: string, at: nat): (n: nat)
    requires at <= |s|
    ensures at <= n <= |s|
    ensures forall i | at <= i < n && i + 1 < |s| :: !(s[i] == '*' && s[i + 1] == '/')
    ensures n < |s| ==> n + 1 < |s| && s[n] == '*' && s[n + 1] == '/'
    decreases |s| - at
  {
    if at + 1 >= |s| then |s|
    else if s[at] == '*' && s[at + 1] == '/' then at
    else CommentEnd(s, at + 1)
  }

  const Stops := "/,'\"()<-\\"

  // ---- The lexer by position ----

  ghost function LexerAt(s: string, at: nat): Lexer
    requires at <= |s|
  {
    if at == 0 then Start else Step(LexerAt(s, at - 1), s[at - 1])
  }

  /** Where the pieces that end before `at` end. */
  ghost function Commas(s: string, at: nat): seq<nat>
    requires at <= |s|
  {
    if at == 0 then []
    else if Separates(LexerAt(s, at - 1), s[at - 1]) then Commas(s, at - 1) + [at - 1]
    else Commas(s, at - 1)
  }

  /** Where the piece after the given commas begins. */
  ghost function After(commas: seq<nat>): nat {
    if commas == [] then 0 else commas[|commas| - 1] + 1
  }

  ghost predicate Ordered(s: string, commas: seq<nat>) {
    commas == [] ||
    var k := |commas| - 1;
    Ordered(s, commas[..k]) && After(commas[..k]) <= commas[k] < |s|
  }

  ghost function Closed(s: string, commas: seq<nat>): (r: seq<string>)
    requires Ordered(s, commas)
    ensures |r| == |commas|
  {
    if commas == [] then []
    else
      var k := |commas| - 1;
      Closed(s, commas[..k]) + [s[After(commas[..k])..commas[k]]]
  }

  lemma ClosedPush(s: string, commas: seq<nat>, next: nat)
    requires Ordered(s, commas) && After(commas) <= next < |s|
    ensures Ordered(s, commas + [next])
    ensures Closed(s, commas + [next]) == Closed(s, commas) + [s[After(commas)..next]]
  {
    assert (commas + [next])[..|commas|] == commas;
  }

  lemma {:induction false} CommasOrdered(s: string, at: nat)
    requires at <= |s|
    ensures Ordered(s, Commas(s, at)) && After(Commas(s, at)) <= at
  {
    if at > 0 {
      CommasOrdered(s, at - 1);
      if Separates(LexerAt(s, at - 1), s[at - 1]) {
        ClosedPush(s, Commas(s, at - 1), at - 1);
      }
    }
  }

  /** The commas found by position are those that bound the pieces. */
  lemma {:induction false} PiecesByCommas(s: string, at: nat)
    requires at <= |s|
    ensures Ordered(s, Commas(s, at)) && After(Commas(s, at)) <= at
    ensures LexerAt(s, at) == Run(Start, s[..at])
    ensures Pieces(Start, s[..at]) == Closed(s, Commas(s, at)) + [s[After(Commas(s, at))..at]]
  {
    CommasOrdered(s, at);
    if at > 0 {
      var n := at - 1;
      PiecesByCommas(s, n);
      assert s[..at] == s[..n] + [s[n]];
      Push(Start, s[..n], s[n]);
      PieceByComma(s, n);
    }
  }

  lemma PieceByComma(s: string, n: nat)
    requires n < |s| && Ordered(s, Commas(s, n)) && After(Commas(s, n)) <= n
    ensures Ordered(s, Commas(s, n + 1)) && After(Commas(s, n + 1)) <= n + 1
    ensures var ps := Closed(s, Commas(s, n)) + [s[After(Commas(s, n))..n]];
      Closed(s, Commas(s, n + 1)) + [s[After(Commas(s, n + 1))..n + 1]] ==
        if Separates(LexerAt(s, n), s[n]) then ps + [""] else GrowLast(ps, [s[n]])
  {
    var cs := Commas(s, n);
    if Separates(LexerAt(s, n), s[n]) {
      ClosedPush(s, cs, n);
      assert s[n + 1..n + 1] == "";
    } else {
      assert s[After(cs)..n + 1] == s[After(cs)..n] + [s[n]];
    }
  }

  // ---- What a jump passes over ----

  /** Between tokens: outside everything, with no comment about to open. */
  ghost predicate Between(s: string, at: nat, depth: int)
    requires at <= |s|
  {
    && LexerAt(s, at).depth == depth && Outside(LexerAt(s, at))
    && (LexerAt(s, at).mode.Slash? && at < |s| ==> s[at] != '*')
  }

  lemma {:induction false} PlainRun(s: string, at: nat, end: nat, depth: int)
    requires at <= end <= |s| && Between(s, at, depth)
    requires forall i | at <= i < end :: s[i] !in "/,'\"()\\"
    ensures Commas(s, end) == Commas(s, at) && Between(s, end, depth)
    decreases end
  {
    if at < end {
      PlainRun(s, at, end - 1, depth);
      assert s[end - 1] !in "/,'\"()\\";
    }
  }

  /** Inside a comment whose opening `*` is at `from`. */
  lemma {:induction false} CommentRun(s: string, from: nat, at: nat, depth: int)
    requires from < at <= |s| && s[from] == '*' && LexerAt(s, from + 1) == Lexer(CommentStar, depth)
    requires forall i | from <= i < at - 1 :: !(s[i] == '*' && s[i + 1] == '/')
    ensures Commas(s, at) == Commas(s, from + 1)
    ensures LexerAt(s, at) == Lexer(if s[at - 1] == '*' then CommentStar else Comment, depth)
    decreases at
  {
    if from + 1 < at {
      CommentRun(s, from, at - 1, depth);
      assert !(s[at - 2] == '*' && s[at - 2 + 1] == '/');
    }
  }

  lemma {:induction false} QuotedRun(s: string, q: char, at: nat, end: nat, depth: int)
    requires at <= end <= |s| && LexerAt(s, at) == Lexer(Quoted(q), depth)
    requires forall i | at <= i < end :: s[i] != q && s[i] != '\\'
    ensures Commas(s, end) == Commas(s, at) && LexerAt(s, end) == Lexer(Quoted(q), depth)
    decreases end
  {
    if at < end {
      QuotedRun(s, q, at, end - 1, depth);
    }
  }

  // ---- The scanner ----

  /** Jumps over a string whose contents start at `from`; the text may end
      inside it. */
  method SkipString(s: string, q: char, from: nat, ghost depth: int) returns (end: nat)
    requires from <= |s| && (q == '"' || q == '\'') && LexerAt(s, from) == Lexer(Quoted(q), depth)
    ensures from <= end
    ensures end < |s| ==> LexerAt(s, end) == Lexer(Plain, depth)
    ensures Commas(s, if end < |s| then end else |s|) == Commas(s, from)
  {
    end := from;
    while end < |s|
      invariant from <= end
      invariant end < |s| ==> LexerAt(s, end) == Lexer(Quoted(q), depth)
      invariant Commas(s, if end < |s| then end else |s|) == Commas(s, from)
    {
      var next := end + Cspn(s, [q, '\\'], end);
      QuotedRun(s, q, end, next, depth);
      end := next;
      if end >= |s| {
        break;
      }
      if s[end] == '\\' {
        assert LexerAt(s, end + 1) == Lexer(QuotedEscape(q), depth);
        end := end + 2;
        continue;
      }
      end := end + 1;
      break;
    }
  }

  /** Jumps over a comment that opens at `from`; the text may end inside it. */
  method SkipComment(s: string, from: nat, ghost depth: int) returns (end: nat)
    requires from + 1 < |s| && s[from] == '/' && s[from + 1] == '*' && Between(s, from, depth)
    ensures from < end <= |s|
    ensures end < |s| ==> LexerAt(s, end) == Lexer(Plain, depth)
    ensures Commas(s, end) == Commas(s, from)
  {
    assert LexerAt(s, from + 1) == Lexer(Slash, depth);
    assert LexerAt(s, from + 2) == Lexer(CommentStar, depth);
    end := CommentEnd(s, from + 1);
    if end < |s| {
      CommentRun(s, from + 1, end + 1, depth);
      end := end + 2;
    } else {
      CommentRun(s, from + 1, |s|, depth);
    }
  }

  /** Jumps over one token that is not a top-level comma. */
  method SkipToken(s: string, next: nat, depth: int) returns (at: nat, depth': int)
    requires next < |s| && Between(s, next, depth) && s[next] in Stops && !(s[next] == ',' && depth == 0)
    ensures next < at
    ensures at < |s| ==> Between(s, at, depth')
    ensures Commas(s, if at < |s| then at else |s|) == Commas(s, next)
  {
    var c := s[next];
    depth' := depth;
    if c == '\\' {
      assert LexerAt(s, next + 1) == Lexer(Escaped, depth);
      at := if next + 2 < |s| then next + 2 else |s|;
    } else if c == '(' || c == ')' {
      depth' := if c == '(' then depth + 1 else depth - 1;
      at := next + 1;
    } else if c == '\'' || c == '"' {
      at := SkipString(s, c, next + 1, depth);
    } else if c == '/' && next + 1 < |s| && s[next + 1] == '*' {
      at := SkipComment(s, next, depth);
    } else if c == '<' && next + 4 <= |s| && s[next..next + 4] == "<!--" {
      assert forall i | next <= i < next + 4 :: s[i] == s[next..next + 4][i - next];
      PlainRun(s, next, next + 4, depth);
      at := next + 4;
    } else if c == '-' && next + 3 <= |s| && s[next..next + 3] == "-->" {
      assert forall i | next <= i < next + 3 :: s[i] == s[next..next + 3][i - next];
      PlainRun(s, next, next + 3, depth);
      at := next + 3;
    } else {
      at := next + 1;
    }
  }

  /** The items already split off. */
  ghost function Items(s: string, commas: seq<nat>): seq<string>
    requires Ordered(s, commas)
  {
    Map(Trim, Closed(s, commas))
  }

  lemma ItemsPush(s: string, commas: seq<nat>, next: nat)
    requires Ordered(s, commas) && After(commas) <= next < |s|
    ensures Ordered(s, commas + [next]) && After(commas + [next]) == next + 1
    ensures Items(s, commas + [next]) == Items(s, commas) + [Trim(s[After(commas)..next])]
  {
    ClosedPush(s, commas, next);
    MapPush(Trim, Closed(s, commas), s[After(commas)..next]);
  }

  lemma CommaFound(s: string, next: nat) returns (commas: seq<nat>)
    requires next < |s| && Between(s, next, 0) && s[next] == ','
    ensures commas == Commas(s, next + 1) == Commas(s, next) + [next] && Between(s, next + 1, 0)
  {
    commas := Commas(s, next + 1);
  }

  /** The items the commas found make, with the rest of the text if any. */
  ghost function ByCommas(s: string, commas: seq<nat>): seq<string>
    requires Ordered(s, commas) && After(commas) <= |s|
  {
    if After(commas) < |s| then Items(s, commas) + [Trim(s[After(commas)..])] else Items(s, commas)
  }

  lemma ByCommasIsSplit(s: string)
    requires ',' in s
    ensures Ordered(s, Commas(s, |s|)) && After(Commas(s, |s|)) <= |s|
    ensures ByCommas(s, Commas(s, |s|)) == Split(s)
  {
    var commas := Commas(s, |s|);
    CommasOrdered(s, |s|);
    var last := s[After(commas)..];
    assert Pieces(Start, s) == Closed(s, commas) + [last] by {
      PiecesByCommas(s, |s|);
      assert s[..|s|] == s && s[After(commas)..|s|] == last;
    }
    KeptItems(Closed(s, commas), last);
  }

  lemma KeptItems(done: seq<string>, last: string)
    requires done != [] || last != ""
    ensures Map(Trim, Kept(done + [last])) == if last != "" then Map(Trim, done) + [Trim(last)] else Map(Trim, done)
  {
    var ps := done + [last];
    assert ps[..|ps| - 1] == done && ps[|ps| - 1] == last;
    MapPush(Trim, done, last);
  }

  method AddItem(s: string, ghost commas: seq<nat>, selectors: seq<string>, was: nat, next: nat) returns (r: seq<string>)
    requires Ordered(s, commas) && was == After(commas) <= next < |s| && selectors == Items(s, commas)
    ensures Ordered(s, commas + [next]) && After(commas + [next]) == next + 1 && r == Items(s, commas + [next])
  {
    ItemsPush(s, commas, next);
    r := selectors + [Trim(s[was..next])];
  }

  /** What the scanning loop has found when its cursor is at `at`. */
  ghost predicate Found(s: string, at: nat, depth: int, commas: seq<nat>, was: nat) {
    && Ordered(s, commas) && was == After(commas) <= |s|
    && commas == Commas(s, if at < |s| then at else |s|)
    && (at < |s| ==> was <= at && Between(s, at, depth))
  }

  /** One turn of the loop: on to the next character that may matter, and past it. */
  method Advance(s: string, at: nat, depth: int, selectors: seq<string>, ghost commas: seq<nat>, was: nat)
    returns (at1: nat, depth1: int, selectors1: seq<string>, ghost commas1: seq<nat>, was1: nat)
    requires at < |s| && Found(s, at, depth, commas, was) && selectors == Items(s, commas)
    ensures at1 > at && Found(s, at1, depth1, commas1, was1) && selectors1 == Items(s, commas1)
  {
    at1, depth1, selectors1, commas1, was1 := |s|, depth, selectors, commas, was;
    var next := at + Cspn(s, Stops, at);
    PlainRun(s, at, next, depth);
    if next >= |s| {
      return;
    }
    if s[next] == ',' && depth == 0 {
      selectors1 := AddItem(s, commas, selectors, was, next);
      commas1 := CommaFound(s, next);
      at1, was1 := next + 1, next + 1;
    } else {
      at1, depth1 := SkipOver(s, next, depth, commas, was);
    }
  }

  method SkipOver(s: string, at: nat, depth: int, ghost commas: seq<nat>, ghost was: nat) returns (at1: nat, depth1: int)
    requires at < |s| && Found(s, at, depth, commas, was) && s[at] in Stops && !(s[at] == ',' && depth == 0)
    ensures at1 > at && Found(s, at1, depth1, commas, was)
  {
    at1, depth1 := SkipToken(s, at, depth);
    CommasOrdered(s, if at1 < |s| then at1 else |s|);
  }

  /** The scanning loop, for a text with a comma in it. */
  method Scan(s: string) returns (selectors: seq<string>, ghost commas: seq<nat>, was: nat)
    ensures Found(s, |s|, 0, commas, was) && selectors == Items(s, commas)
  {
    var depth, at := 0, 0;
    selectors, commas, was := [], [], 0;
    while at < |s|
      invariant Found(s, at, depth, commas, was) && selectors == Items(s, commas)
      decreases |s| - at
    {
      at, depth, selectors, commas, was := Advance(s, at, depth, selectors, commas, was);
    }
  }

  /** The whole function. Its result is the reference's, character by character. */
  method SplitSelectorList(s: string) returns (selectors: seq<string>)
    ensures selectors == Split(s)
  {
    if ',' !in s {
      NoComma(s);
      return [Trim(s)];
    }
    ghost var commas;
    var was;
    selectors, commas, was := Scan(s);
    if was < |s| {
      selectors := selectors + [Trim(s[was..])];
    }
    ByCommasIsSplit(s);
  }

  lemma MapPush(f: string -> string, s: seq<string>, x: string)
    ensures Map(f, s + [x]) == Map(f, s) + [f(x)]
  {
    assert forall i | 0 <= i < |s| :: (s + [x])[i] == s[i];
  }

  lemma {:induction false} NoComma(s: string)
    requires ',' !in s
    ensures Pieces(Start, s) == [s] && Split(s) == [Trim(s)]
  {
    if s != "" {
      assert ',' !in s[..|s| - 1] && s[..|s| - 1] + [s[|s| - 1]] == s;
      NoComma(s[..|s| - 1]);
    }
    MapPush(Trim, [], s);
    assert [] + [s] == [s];
  }
}
