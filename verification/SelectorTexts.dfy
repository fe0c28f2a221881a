/** Selector lists written out from what a reader sees in them: split_selector_list
    takes a list apart into exactly the selectors it was put together from, however
    many commas there are in their strings, comments, escapes and parentheses. */
module SelectorTexts {
  import opened SelectorLexer
  import opened SelectorJoin

  datatype Token =
    | Letter(c: char)                 // nothing special about it
    | Slash(c: char)                  // a `/`, and a letter after it
    | Escape(c: char)                 // a `\`, and any character
    | Text(q: char, body: string)     // a string in quotes q
    | Note(body: string)              // a comment
    | Group(inner: Tokens)            // in parentheses
    | Comma                           // in a group only

  datatype Tokens = Nil | Then(first: Token, rest: Tokens)

  predicate IsLetter(c: char) {
    c != '/' && c != ',' && c != '\'' && c != '"' && c != '(' && c != ')' && c != '\\'
  }

  /** No quote that is not escaped, and no escape cut short. */
  predicate InQuotes(q: char, body: string) {
    body == "" ||
    if body[0] == '\\' then |body| >= 2 && InQuotes(q, body[2..]) else body[0] != q && InQuotes(q, body[1..])
  }

  /** No slash after a star; the star that opens the comment counts. */
  predicate InComment(body: string) {
    forall i | 0 <= i < |body| && body[i] == '/' :: i > 0 && body[i - 1] != '*'
  }

  predicate GoodToken(t: Token, nested: bool)
    decreases t, 0
  {
    match t
    case Letter(c) => IsLetter(c)
    case Slash(c) => IsLetter(c) && c != '*'
    case Escape(_) => true
    case Text(q, body) => (q == '"' || q == '\'') && InQuotes(q, body)
    case Note(body) => InComment(body)
    case Group(inner) => Good(inner, true)
    case Comma => nested
  }

  predicate Good(ts: Tokens, nested: bool)
    decreases ts, 0
  {
    ts.Then? ==> GoodToken(ts.first, nested) && Good(ts.rest, nested)
  }

  function Written(t: Token): string
    decreases t, 0
  {
    match t
    case Letter(c) => [c]
    case Slash(c) => "/" + [c]
    case Escape(c) => "\\" + [c]
    case Text(q, body) => [q] + body + [q]
    case Note(body) => "/*" + body + "*/"
    case Group(inner) => "(" + Spelled(inner) + ")"
    case Comma => ","
  }

  function Spelled(ts: Tokens): string
    decreases ts, 0
  {
    if ts.Nil? then "" else Written(ts.first) + Spelled(ts.rest)
  }

  // ---- Reading a text back ----

  /** Read from `x` the text leads to `y`, and nothing in it separates. */
  ghost predicate Reads(x: Lexer, s: string, y: Lexer) {
    Run(x, s) == y && Pieces(x, s) == [s]
  }

  lemma ReadsNothing(x: Lexer)
    ensures Reads(x, "", x)
  {
  }

  lemma ReadsBoth(x: Lexer, a: string, y: Lexer, b: string, z: Lexer)
    requires Reads(x, a, y) && Reads(y, b, z)
    ensures Reads(x, a + b, z)
  {
    RunConcat(x, a, b);
    PiecesConcat(x, a, b);
    assert Glue([a], [b]) == [a + b];
  }

  lemma ReadsOne(x: Lexer, c: char)
    requires !Separates(x, c)
    ensures Reads(x, [c], Step(x, c))
  {
    Push(x, "", c);
    assert "" + [c] == [c];
    assert GrowLast([""], [c]) == [[c]];
  }

  lemma ReadsTwo(x: Lexer, c: char, e: char)
    requires !Separates(x, c) && !Separates(Step(x, c), e)
    ensures Reads(x, [c] + [e], Step(Step(x, c), e))
  {
    ReadsOne(x, c);
    ReadsOne(Step(x, c), e);
    ReadsBoth(x, [c], Step(x, c), [e], Step(Step(x, c), e));
  }

  lemma {:induction false} ReadsQuoted(q: char, body: string, d: int)
    requires InQuotes(q, body) && q != '\\'
    ensures Reads(Lexer(Quoted(q), d), body, Lexer(Quoted(q), d))
  {
    var x := Lexer(Quoted(q), d);
    if body != "" {
      var n := if body[0] == '\\' then 2 else 1;
      if n == 2 {
        ReadsTwo(x, body[0], body[1]);
        assert body[..2] == [body[0]] + [body[1]];
      } else {
        ReadsOne(x, body[0]);
        assert body[..1] == [body[0]];
      }
      ReadsQuoted(q, body[n..], d);
      ReadsBoth(x, body[..n], x, body[n..], x);
      assert body == body[..n] + body[n..];
    }
  }

  lemma {:induction false} ReadsComment(body: string, d: int)
    requires InComment(body)
    ensures Reads(Lexer(CommentStar, d), body, Lexer(if body == "" || body[|body| - 1] == '*' then CommentStar else Comment, d))
  {
    if body != "" {
      var n := |body| - 1;
      assert InComment(body[..n]) by {
        assert forall i | 0 <= i < n :: body[..n][i] == body[i];
      }
      ReadsComment(body[..n], d);
      var y := Lexer(if n == 0 || body[n - 1] == '*' then CommentStar else Comment, d);
      ReadsOne(y, body[n]);
      ReadsBoth(Lexer(CommentStar, d), body[..n], y, [body[n]], Step(y, body[n]));
      assert body == body[..n] + [body[n]];
    }
  }

  lemma ReadsNote(body: string, d: int)
    requires InComment(body)
    ensures Reads(Lexer(Plain, d), "/*" + body + "*/", Lexer(Plain, d))
  {
    var x, y := Lexer(Plain, d), Lexer(CommentStar, d);
    ReadsTwo(x, '/', '*');
    ReadsComment(body, d);
    var z := Lexer(if body == "" || body[|body| - 1] == '*' then CommentStar else Comment, d);
    ReadsTwo(z, '*', '/');
    assert ['/'] + ['*'] == "/*" && ['*'] + ['/'] == "*/";
    ReadsBoth(x, "/*", y, body, z);
    ReadsBoth(x, "/*" + body, z, "*/", x);
  }

  lemma ReadsText(q: char, body: string, d: int)
    requires (q == '"' || q == '\'') && InQuotes(q, body)
    ensures Reads(Lexer(Plain, d), [q] + body + [q], Lexer(Plain, d))
  {
    var x, y := Lexer(Plain, d), Lexer(Quoted(q), d);
    ReadsOne(x, q);
    ReadsQuoted(q, body, d);
    ReadsOne(y, q);
    ReadsBoth(x, [q], y, body, y);
    ReadsBoth(x, [q] + body, y, [q], x);
  }

  /** Each token leaves the lexer where it was, and no comma in it separates. */
  lemma {:induction false} ReadsToken(t: Token, d: nat)
    requires GoodToken(t, d > 0)
    ensures Reads(Lexer(Plain, d), Written(t), Lexer(Plain, d))
    decreases t, 0
  {
    var x := Lexer(Plain, d);
    match t
    case Letter(c) => ReadsOne(x, c);
    case Slash(c) =>
      ReadsTwo(x, '/', c);
      assert ['/'] == "/";
    case Escape(c) =>
      ReadsTwo(x, '\\', c);
      assert ['\\'] == "\\";
    case Text(q, body) => ReadsText(q, body, d);
    case Note(body) => ReadsNote(body, d);
    case Group(inner) =>
      var y := Lexer(Plain, d + 1);
      ReadsOne(x, '(');
      ReadsTokens(inner, d + 1);
      ReadsOne(y, ')');
      assert ['('] == "(" && [')'] == ")";
      ReadsBoth(x, "(", y, Spelled(inner), y);
      ReadsBoth(x, "(" + Spelled(inner), y, ")", x);
    case Comma =>
      ReadsOne(x, ',');
      assert [','] == ",";
  }

  lemma {:induction false} ReadsTokens(ts: Tokens, d: nat)
    requires Good(ts, d > 0)
    ensures Reads(Lexer(Plain, d), Spelled(ts), Lexer(Plain, d))
    decreases ts, 0
  {
    var x := Lexer(Plain, d);
    if ts.Then? {
      ReadsToken(ts.first, d);
      ReadsTokens(ts.rest, d);
      ReadsBoth(x, Written(ts.first), x, Spelled(ts.rest), x);
    }
  }

  // ---- A list of selectors ----

  function AllSpelled(list: seq<Tokens>): (r: seq<string>)
    ensures |r| == |list| && forall i | 0 <= i < |list| :: r[i] == Spelled(list[i])
  {
    seq(|list|, i requires 0 <= i < |list| => Spelled(list[i]))
  }

  lemma {:induction false} ListReads(list: seq<Tokens>)
    requires list != [] && forall i | 0 <= i < |list| :: Good(list[i], false)
    ensures Run(Start, Join(AllSpelled(list), ",")) == Start
    ensures Pieces(Start, Join(AllSpelled(list), ",")) == AllSpelled(list)
  {
    var n := |list| - 1;
    var last := Spelled(list[n]);
    var texts := AllSpelled(list);
    ReadsTokens(list[n], 0);
    assert texts == AllSpelled(list[..n]) + [last];
    if n > 0 {
      var front := Join(AllSpelled(list[..n]), ",");
      ListReads(list[..n]);
      assert texts[..n] == AllSpelled(list[..n]);
      CommaBetween(front, last);
      assert Join(texts, ",") == front + "," + last;
    }
  }

  lemma CommaBetween(front: string, last: string)
    requires Run(Start, front) == Start && Reads(Start, last, Start)
    ensures Run(Start, front + "," + last) == Start
    ensures Pieces(Start, front + "," + last) == Pieces(Start, front) + [last]
  {
    SeparatorEnds();
    RunConcat(Start, front, ",");
    RunConcat(Start, front + ",", last);
    PiecesConcat(Start, front, ",");
    PiecesConcat(Start, front + ",", last);
    var ps := Pieces(Start, front);
    assert ps[|ps| - 1] + "" == ps[|ps| - 1] && "" + last == last;
    assert Glue(ps, ["", ""]) == ps + [""];
    assert Glue(ps + [""], [last]) == ps + [last];
  }

  /** Splitting a list of selectors gives them back, each without the white space
      around it; an empty one at the end, after a comma, is left out. */
  lemma SplitsIntoSelectors(list: seq<Tokens>)
    requires list != [] && forall i | 0 <= i < |list| :: Good(list[i], false)
    ensures var n := if |list| > 1 && list[|list| - 1].Nil? then |list| - 1 else |list|;
      var items := Split(Join(AllSpelled(list), ","));
      |items| == n && forall i | 0 <= i < n :: items[i] == Trim(Spelled(list[i]))
  {
    ListReads(list);
    EmptyIsNil(list[|list| - 1]);
  }

  lemma EmptyIsNil(ts: Tokens)
    ensures Spelled(ts) == "" <==> ts.Nil?
  {
    if ts.Then? {
      assert |Written(ts.first)| >= 1;
    }
  }

  predicate Blank(c: char) {
    c in " \t\n"
  }

  /** What goes is space, tabs and line feeds, and none of them is left at an end. */
  lemma TrimMeans(s: string) returns (left: string, right: string)
    ensures s == left + Trim(s) + right
    ensures (forall c | c in left :: Blank(c)) && forall c | c in right :: Blank(c)
    ensures Trim(s) != "" ==> !Blank(Trim(s)[0]) && !Blank(Trim(s)[|Trim(s)| - 1])
  {
    assert forall c :: Blank(c) <==> Space(c);
    left, right := TrimParts(s);
    TrimTrims(s);
  }
}
