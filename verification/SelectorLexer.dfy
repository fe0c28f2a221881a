/** Selector lists read one character at a time: the reference that
    split_selector_list and everything built on it are compared with. */
module SelectorLexer {

  /** Where the lexer is. Slash is just after a `/` that may open a comment. */
  datatype Mode = Plain | Slash | Escaped | Quoted(q: char) | QuotedEscape(q: char) | Comment | CommentStar

  datatype Lexer = Lexer(mode: Mode, depth: int)

  const Start := Lexer(Plain, 0)

  function StepPlain(depth: int, c: char): Lexer {
    match c
    case '\\' => Lexer(Escaped, depth)
    case '(' => Lexer(Plain, depth + 1)
    case ')' => Lexer(Plain, depth - 1)
    case '"' => Lexer(Quoted(c), depth)
    case '\'' => Lexer(Quoted(c), depth)
    case '/' => Lexer(Slash, depth)
    case _ => Lexer(Plain, depth)
  }

  /** The `*` that opens a comment may also be the one that closes it. */
  function Step(x: Lexer, c: char): Lexer {
    match x.mode
    case Plain => StepPlain(x.depth, c)
    case Slash => if c == '*' then x.(mode := CommentStar) else StepPlain(x.depth, c)
    case Escaped => x.(mode := Plain)
    case Quoted(q) => if c == q then x.(mode := Plain) else if c == '\\' then x.(mode := QuotedEscape(q)) else x
    case QuotedEscape(q) => x.(mode := Quoted(q))
    case Comment => if c == '*' then x.(mode := CommentStar) else x
    case CommentStar => if c == '/' then x.(mode := Plain) else if c == '*' then x else x.(mode := Comment)
  }

  /** Outside strings, comments and escapes. */
  predicate Outside(x: Lexer) {
    x.mode.Plain? || x.mode.Slash?
  }

  /** The character separates two selectors. */
  predicate Separates(x: Lexer, c: char) {
    c == ',' && x.depth == 0 && Outside(x)
  }

  function Run(x: Lexer, s: string): Lexer {
    if s == "" then x else Step(Run(x, s[..|s| - 1]), s[|s| - 1])
  }

  /** The text between separating commas; there is always one piece more than
      there are such commas. */
  function Pieces(x: Lexer, s: string): (ps: seq<string>)
    ensures |ps| >= 1
  {
    if s == "" then [""]
    else
      var n := |s| - 1;
      Grown(Run(x, s[..n]), Pieces(x, s[..n]), s[n])
  }

  /** The pieces after one more character. */
  function Grown(x: Lexer, ps: seq<string>, c: char): (r: seq<string>)
    requires |ps| >= 1
    ensures |r| >= 1
  {
    if Separates(x, c) then ps + [""] else GrowLast(ps, [c])
  }

  /** One more character. */
  lemma Push(x: Lexer, s: string, c: char)
    ensures Run(x, s + [c]) == Step(Run(x, s), c)
    ensures Pieces(x, s + [c]) == Grown(Run(x, s), Pieces(x, s), c)
  {
    assert (s + [c])[..|s|] == s;
  }

  function GrowLast(ps: seq<string>, tail: string): seq<string>
    requires |ps| >= 1
  {
    ps[..|ps| - 1] + [ps[|ps| - 1] + tail]
  }

  // ---- Whitespace ----

  predicate Space(c: char) {
    c == ' ' || c == '\t' || c == '\n'
  }

  function FirstInk(s: string, i: nat): (r: nat)
    requires i <= |s|
    ensures i <= r <= |s| && (r < |s| ==> !Space(s[r]))
    ensures forall k | i <= k < r :: Space(s[k])
    decreases |s| - i
  {
    if i < |s| && Space(s[i]) then FirstInk(s, i + 1) else i
  }

  function LastInk(s: string, lo: nat, j: nat): (r: nat)
    requires lo <= j <= |s|
    ensures lo <= r <= j && (lo < r ==> !Space(s[r - 1]))
    ensures forall k | r <= k < j :: Space(s[k])
    decreases j
  {
    if lo < j && Space(s[j - 1]) then LastInk(s, lo, j - 1) else j
  }

  /** PHP's trim( s, " \t\n" ). */
  function Trim(s: string): string {
    s[FirstInk(s, 0)..LastInk(s, FirstInk(s, 0), |s|)]
  }

  predicate Trimmed(s: string) {
    s != "" ==> !Space(s[0]) && !Space(s[|s| - 1])
  }

  predicate AllSpace(s: string) {
    forall i | 0 <= i < |s| :: Space(s[i])
  }

  /** Trimming takes off exactly the surrounding space. */
  lemma TrimIs(left: string, core: string, right: string)
    requires AllSpace(left) && AllSpace(right) && Trimmed(core) && core != ""
    ensures Trim(left + core + right) == core
  {
    var s := left + core + right;
    var a := FirstInk(s, 0);
    assert s[|left|] == core[0] && s[|left| + |core| - 1] == core[|core| - 1];
    assert forall i | 0 <= i < |left| :: s[i] == left[i];
    assert a == |left|;
    var b := LastInk(s, a, |s|);
    assert forall i | |left| + |core| <= i < |s| :: s[i] == right[i - |left| - |core|];
    assert b == |left| + |core|;
    assert s[|left|..|left| + |core|] == core;
  }

  lemma TrimOfSpace(s: string)
    requires AllSpace(s)
    ensures Trim(s) == ""
  {
  }

  lemma SliceTrimmed(s: string, a: nat, b: nat)
    requires a <= b <= |s| && (a < b ==> !Space(s[a]) && !Space(s[b - 1]))
    ensures Trimmed(s[a..b])
  {
  }

  lemma TrimTrims(s: string)
    ensures Trimmed(Trim(s))
  {
    SliceTrimmed(s, FirstInk(s, 0), LastInk(s, FirstInk(s, 0), |s|));
  }

  /** Any text is its trimmed core between two stretches of space. */
  lemma TrimParts(s: string) returns (left: string, right: string)
    ensures s == left + Trim(s) + right && AllSpace(left) && AllSpace(right)
  {
    var a := FirstInk(s, 0);
    var b := LastInk(s, a, |s|);
    left, right := s[..a], s[b..];
  }

  /** Space around a text makes no difference to what is left of it. */
  lemma TrimInside(left: string, s: string, right: string)
    requires AllSpace(left) && AllSpace(right)
    ensures Trim(left + s + right) == Trim(s)
  {
    var a, b := TrimParts(s);
    if Trim(s) == "" {
      assert s == a + b;
      TrimOfSpace(left + s + right);
    } else {
      TrimTrims(s);
      Regrouped(left, a, Trim(s), b, right, s);
      TrimIs(left + a, Trim(s), b + right);
    }
  }

  lemma Regrouped(left: string, a: string, core: string, b: string, right: string, s: string)
    requires s == a + core + b
    ensures left + s + right == left + a + core + (b + right)
  {
  }

  // ---- split_selector_list, as a function of the pieces ----

  function Map(f: string -> string, s: seq<string>): (r: seq<string>)
    ensures |r| == |s| && forall i | 0 <= i < |s| :: r[i] == f(s[i])
  {
    seq(|s|, i requires 0 <= i < |s| => f(s[i]))
  }

  /** A last piece with nothing in it, after a comma, is not an item. */
  function Kept(ps: seq<string>): seq<string> {
    if |ps| > 1 && ps[|ps| - 1] == "" then ps[..|ps| - 1] else ps
  }

  function Split(s: string): seq<string> {
    Map(Trim, Kept(Pieces(Start, s)))
  }

  // ---- Lexing a text in two parts ----

  lemma {:induction false} RunConcat(x: Lexer, a: string, b: string)
    ensures Run(x, a + b) == Run(Run(x, a), b)
  {
    if b == "" {
      assert a + b == a;
    } else {
      assert (a + b)[..|a + b| - 1] == a + b[..|b| - 1];
      RunConcat(x, a, b[..|b| - 1]);
    }
  }

  /** The last piece of the first part and the first of the second are one. */
  function Glue(ps: seq<string>, qs: seq<string>): seq<string>
    requires |ps| >= 1 && |qs| >= 1
  {
    ps[..|ps| - 1] + [ps[|ps| - 1] + qs[0]] + qs[1..]
  }

  lemma {:induction false} PiecesConcat(x: Lexer, a: string, b: string)
    ensures Pieces(x, a + b) == Glue(Pieces(x, a), Pieces(Run(x, a), b))
  {
    var ps := Pieces(x, a);
    if b == "" {
      assert a + b == a;
      assert ps[|ps| - 1] + "" == ps[|ps| - 1];
      assert Glue(ps, [""]) == ps;
    } else {
      var n := |b| - 1;
      assert (a + b)[..|a + b| - 1] == a + b[..n];
      PiecesConcat(x, a, b[..n]);
      RunConcat(x, a, b[..n]);
      var qs := Pieces(Run(x, a), b[..n]);
      if Separates(Run(Run(x, a), b[..n]), b[n]) {
        assert Glue(ps, qs + [""]) == Glue(ps, qs) + [""];
      } else {
        GlueLast(ps, qs, b[n]);
      }
    }
  }

  lemma GlueLast(ps: seq<string>, qs: seq<string>, c: char)
    requires |ps| >= 1 && |qs| >= 1
    ensures Glue(ps, GrowLast(qs, [c])) == GrowLast(Glue(ps, qs), [c])
  {
    var k := |qs| - 1;
    var qs' := GrowLast(qs, [c]);
    if k == 0 {
      assert ps[|ps| - 1] + qs'[0] == ps[|ps| - 1] + qs[0] + [c];
      assert qs[1..] == [] && qs'[1..] == [];
    } else {
      assert qs'[1..] == qs[1..][..k - 1] + [qs[k] + [c]];
    }
  }

  // ---- Nothing is lost ----

  function Join(ps: seq<string>, sep: string): string {
    if ps == [] then ""
    else if |ps| == 1 then ps[0]
    else Join(ps[..|ps| - 1], sep) + sep + ps[|ps| - 1]
  }

  lemma JoinLast(ps: seq<string>, sep: string, tail: string)
    requires |ps| >= 1
    ensures Join(GrowLast(ps, tail), sep) == Join(ps, sep) + tail
  {
    var qs := GrowLast(ps, tail);
    assert qs[..|qs| - 1] == ps[..|ps| - 1];
  }

  lemma JoinPush(ps: seq<string>, sep: string, p: string)
    requires |ps| >= 1
    ensures Join(ps + [p], sep) == Join(ps, sep) + sep + p
  {
    assert (ps + [p])[..|ps|] == ps;
  }

  /** Joining the pieces with commas gives the text back. */
  lemma {:induction false} PiecesJoin(x: Lexer, s: string)
    ensures Join(Pieces(x, s), ",") == s
  {
    if s != "" {
      var n := |s| - 1;
      PiecesJoin(x, s[..n]);
      var ps := Pieces(x, s[..n]);
      assert s == s[..n] + [s[n]];
      if Separates(Run(x, s[..n]), s[n]) {
        JoinPush(ps, ",", "");
      } else {
        JoinLast(ps, ",", [s[n]]);
      }
    }
  }
}
