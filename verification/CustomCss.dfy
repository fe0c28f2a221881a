/** WP_REST_Global_Styles_Controller_Gutenberg::validate_custom_css: CSS that may
    stand in an HTML STYLE element next to any other CSS. */
module CustomCss {

  datatype Input = Text(css: string) | NotText

  datatype Verdict = Accepted | InvalidType | MustNotEndIn(what: string) | MustNotContain(what: string)

  // ---- End tags in a text ----

  function Lower(c: char): char {
    if 'A' <= c <= 'Z' then c + 32 as char else c
  }

  predicate EndsName(c: char) {
    c in " \t\U{000C}\r\n/>"
  }

  const OPENING := "</style"

  /** The first k characters from p on are those of "</style". */
  predicate Matches(s: string, p: nat, k: nat)
    requires k <= 7
  {
    p + k <= |s| && forall i | 0 <= i < k :: Lower(s[p + i]) == OPENING[i]
  }

  /** A STYLE end tag begins at p. */
  predicate EndTagAt(s: string, p: nat) {
    p + 8 <= |s| && Matches(s, p, 7) && EndsName(s[p + 7])
  }

  /** Some text put after css makes an end tag begin at p. */
  predicate MayBegin(css: string, p: nat)
    requires p < |css|
  {
    var remaining := |css| - p;
    if remaining < 8 then Matches(css, p, if remaining < 7 then remaining else 7) else EndTagAt(css, p)
  }

  ghost predicate Safe(css: string) {
    forall p | 0 <= p < |css| :: !MayBegin(css, p)
  }

  lemma MatchesReads(s: string, p: nat)
    requires Matches(s, p, 7)
    ensures s[p] == '<' && s[p + 1] == '/' && Lower(s[p + 2]) == 's' && Lower(s[p + 3]) == 't'
    ensures Lower(s[p + 4]) == 'y' && Lower(s[p + 5]) == 'l' && Lower(s[p + 6]) == 'e'
  {
    assert OPENING[0] == '<' && OPENING[1] == '/' && OPENING[2] == 's' && OPENING[3] == 't';
    assert OPENING[4] == 'y' && OPENING[5] == 'l' && OPENING[6] == 'e';
  }

  lemma MayBeginNeedsLess(css: string, p: nat)
    requires p < |css| && MayBegin(css, p)
    ensures css[p] == '<'
  {
    assert Lower(css[p + 0]) == OPENING[0];
  }

  /** What would complete an end tag that starts at p. */
  function Completion(css: string, p: nat): string
    requires p < |css|
  {
    if |css| - p < 8 then OPENING[(if |css| - p < 7 then |css| - p else 7)..] + ">" else ""
  }

  lemma MayBeginExactly(css: string, p: nat)
    requires p < |css|
    ensures MayBegin(css, p) <==> exists u: string :: EndTagAt(css + u, p)
    ensures MayBegin(css, p) ==> EndTagAt(css + Completion(css, p), p)
  {
    var remaining := |css| - p;
    var k := if remaining < 7 then remaining else 7;
    if MayBegin(css, p) {
      var u := Completion(css, p);
      var s := css + u;
      forall i | 0 <= i < 7
        ensures Lower(s[p + i]) == OPENING[i]
      {
        if i < k {
          assert s[p + i] == css[p + i];
        } else {
          assert s[p + i] == OPENING[k..][i - k];
        }
      }
      assert remaining < 8 ==> s[p + 7] == '>';
      assert EndTagAt(s, p);
    }
    if u: string :| EndTagAt(css + u, p) {
      var s := css + u;
      assert forall i | p <= i < |css| :: s[i] == css[i];
    }
  }

  // ---- The scan ----

  /** strcspn( s, '<', at ) */
  method UntilLess(s: string, at: nat) returns (n: nat)
    requires at <= |s|
    ensures at + n <= |s| && (forall i | at <= i < at + n :: s[i] != '<')
    ensures at + n < |s| ==> s[at + n] == '<'
  {
    n := 0;
    while at + n < |s| && s[at + n] != '<'
      invariant at + n <= |s| && forall i | at <= i < at + n :: s[i] != '<'
    {
      n := n + 1;
    }
  }

  /** The first place an end tag could begin, if there is one. */
  ghost predicate FirstOffence(css: string, p: nat) {
    p < |css| && MayBegin(css, p) && forall q | 0 <= q < p :: !MayBegin(css, q)
  }

  /** Accepts exactly the texts in which nothing that may follow makes a STYLE
      end tag begin, and otherwise tells the first place where one would. */
  method ValidateCustomCss(input: Input) returns (verdict: Verdict)
    ensures verdict == InvalidType <==> input.NotText?
    ensures verdict == Accepted <==> input.Text? && Safe(input.css)
    ensures verdict.MustNotEndIn? ==> exists p: nat :: FirstOffence(input.css, p) && |input.css| - p < 8 && verdict.what == input.css[p..]
    ensures verdict.MustNotContain? ==> exists p: nat :: FirstOffence(input.css, p) && EndTagAt(input.css, p) && verdict.what == input.css[p..p + 8]
  {
    if input.NotText? {
      return InvalidType;
    }
    var css := input.css;
    var length := |css|;
    var at := UntilLess(css, 0);
    forall q | 0 <= q < at
      ensures !MayBegin(css, q)
    {
      if MayBegin(css, q) { MayBeginNeedsLess(css, q); }
    }
    while at < length
      invariant at <= length
      invariant forall q | 0 <= q < at :: !MayBegin(css, q)
      decreases length - at
    {
      var remaining := length - at;
      if Matches(css, at, if remaining < 7 then remaining else 7) {
        if remaining < 8 {
          assert FirstOffence(css, at);
          return MustNotEndIn(css[at..]);
        }
        if EndsName(css[at + 7]) {
          assert FirstOffence(css, at);
          return MustNotContain(css[at..at + 8]);
        }
      }
      var skipped := UntilLess(css, at + 1);
      forall q | at < q < at + 1 + skipped
        ensures !MayBegin(css, q)
      {
        if MayBegin(css, q) { MayBeginNeedsLess(css, q); }
      }
      at := at + 1 + skipped;
    }
    return Accepted;
  }

  /** The accepted texts are those in which no end tag begins, whatever follows. */
  lemma SafeExactly(css: string)
    ensures Safe(css) <==> forall u: string, p | 0 <= p < |css| :: !EndTagAt(css + u, p)
  {
    if Safe(css) {
      forall u: string, p | 0 <= p < |css|
        ensures !EndTagAt(css + u, p)
      {
        MayBeginExactly(css, p);
      }
    } else {
      var p :| 0 <= p < |css| && MayBegin(css, p);
      MayBeginExactly(css, p);
      var u := Completion(css, p);
      assert EndTagAt(css + u, p);
    }
  }

  // ---- Texts next to each other ----

  lemma EndTagInSecond(a: string, b: string, p: nat)
    ensures EndTagAt(b, p) <==> EndTagAt(a + b, |a| + p)
  {
    var s := a + b;
    if p + 8 <= |b| {
      assert forall i | p <= i < p + 8 :: s[|a| + i] == b[i];
    }
  }

  lemma SafeTogether(a: string, b: string)
    requires Safe(a) && Safe(b)
    ensures Safe(a + b)
  {
    SafeExactly(a);
    SafeExactly(b);
    forall u: string, p | 0 <= p < |a + b|
      ensures !EndTagAt(a + b + u, p)
    {
      assert a + b + u == a + (b + u);
      if p >= |a| {
        EndTagInSecond(a, b + u, p - |a|);
      }
    }
    SafeExactly(a + b);
  }

  function Concat(texts: seq<string>): string {
    if texts == [] then "" else Concat(texts[..|texts| - 1]) + texts[|texts| - 1]
  }

  lemma {:induction false} AllSafeTogether(texts: seq<string>)
    requires forall i | 0 <= i < |texts| :: Safe(texts[i])
    ensures Safe(Concat(texts))
  {
    if texts != [] {
      var n := |texts| - 1;
      AllSafeTogether(texts[..n]);
      SafeTogether(Concat(texts[..n]), texts[n]);
    }
  }

  // ---- The tokenizer that reads the STYLE element ----

  /** The RAWTEXT states of the HTML standard, sections 13.2.5.3 and 13.2.5.12
      to 13.2.5.14, with the name collected so far; Left is after a STYLE end
      tag. CR, which the input stream turns into LF, ends a name like LF. */
  datatype Tokenizer = Rawtext | LessThan | EndTagOpen | EndTagName(name: string) | Left

  predicate Alpha(c: char) {
    'a' <= c <= 'z' || 'A' <= c <= 'Z'
  }

  /** The lower-case letter that is put into the name. */
  function Folded(c: char): char
    requires Alpha(c)
  {
    if c <= 'Z' then 'a' + (c - 'A') else c
  }

  /** Tab, line feed, form feed or space, a solidus or a greater-than sign. */
  predicate EndsTagName(c: char) {
    c == '\t' || c == '\n' || c == '\r' || c == '\U{000C}' || c == ' ' || c == '/' || c == '>'
  }

  function InRawtext(c: char): Tokenizer {
    if c == '<' then LessThan else Rawtext
  }

  function Next(x: Tokenizer, c: char): Tokenizer {
    match x
    case Rawtext => InRawtext(c)
    case LessThan => if c == '/' then EndTagOpen else InRawtext(c)
    case EndTagOpen => if Alpha(c) then EndTagName([Folded(c)]) else InRawtext(c)
    case EndTagName(name) =>
      if EndsTagName(c) && name == "style" then Left
      else if Alpha(c) then EndTagName(name + [Folded(c)])
      else InRawtext(c)
    case Left => Left
  }

  function Tokenize(s: string): Tokenizer {
    if s == "" then Rawtext else Next(Tokenize(s[..|s| - 1]), s[|s| - 1])
  }

  ghost predicate HasEndTag(s: string) {
    exists p: nat :: EndTagAt(s, p)
  }

  /** s ends in "</" and a name, which starts at p + 2. */
  predicate OpenAt(s: string, p: nat, name: string) {
    && p + 2 + |name| == |s| && s[p] == '<' && s[p + 1] == '/'
    && forall j | p + 2 <= j < |s| :: Alpha(s[j]) && name[j - p - 2] == Lower(s[j])
  }

  /** What the state says of the text read. */
  ghost predicate Reads(x: Tokenizer, s: string) {
    match x
    case Rawtext => forall p: nat | p < |s| :: !StillOpen(s, p)
    case LessThan => |s| >= 1 && s[|s| - 1] == '<'
    case EndTagOpen => |s| >= 2 && OpenAt(s, |s| - 2, "")
    case EndTagName(name) => name != "" && |s| >= |name| + 2 && OpenAt(s, |s| - |name| - 2, name)
    case Left => HasEndTag(s)
  }

  /** What follows p could be the start of some end tag. */
  predicate StillOpen(s: string, p: nat)
    requires p < |s|
  {
    && s[p] == '<' && (p + 1 < |s| ==> s[p + 1] == '/')
    && forall i | p + 2 <= i < |s| :: Alpha(s[i])
  }

  lemma StillOpenPush(s: string, c: char, p: nat)
    requires p <= |s|
    ensures StillOpen(s + [c], p) <==>
      if p == |s| then c == '<' else StillOpen(s, p) && if p + 1 == |s| then c == '/' else Alpha(c)
  {
    var r := s + [c];
    assert r[|s|] == c;
    assert forall i | 0 <= i < |s| :: r[i] == s[i];
    if p < |s| && StillOpen(r, p) {
      assert p + 1 < |r|;
      assert forall i | p + 2 <= i < |s| :: Alpha(r[i]);
    }
  }

  lemma EndTagPush(s: string, c: char)
    requires !HasEndTag(s)
    ensures HasEndTag(s + [c]) <==> |s| >= 7 && Matches(s, |s| - 7, 7) && EndsName(c)
  {
    var r := s + [c];
    assert r[|s|] == c;
    assert forall i | 0 <= i < |s| :: r[i] == s[i];
    if p: nat :| EndTagAt(r, p) {
      if p + 8 <= |s| {
        assert EndTagAt(s, p);
      }
    }
    if |s| >= 7 && Matches(s, |s| - 7, 7) && EndsName(c) {
      assert EndTagAt(r, |s| - 7);
    }
  }

  lemma EndTagStays(s: string, c: char)
    requires HasEndTag(s)
    ensures HasEndTag(s + [c])
  {
    var p: nat :| EndTagAt(s, p);
    assert forall i | 0 <= i < |s| :: (s + [c])[i] == s[i];
    assert EndTagAt(s + [c], p);
  }

  lemma BackInRawtext(x: Tokenizer, s: string, c: char)
    requires Reads(x, s) && !x.Left? && Next(x, c) == Rawtext
    ensures Reads(Rawtext, s + [c])
  {
    forall p: nat | p < |s + [c]|
      ensures !StillOpen(s + [c], p)
    {
      StillOpenPush(s, c, p);
      if p < |s| && StillOpen(s, p) && !x.Rawtext? {
        LastOf(x, s);
        assert p + 2 <= |s| - 1 ==> Alpha(s[|s| - 1]);
      }
    }
  }

  /** The last character read, by state. */
  lemma LastOf(x: Tokenizer, s: string)
    requires Reads(x, s) && !x.Rawtext? && !x.Left?
    ensures s != "" && (x.LessThan? ==> s[|s| - 1] == '<') && (x.EndTagOpen? ==> s[|s| - 1] == '/')
    ensures x.EndTagName? ==> Alpha(s[|s| - 1])
  {
  }

  lemma NameGrows(x: Tokenizer, s: string, c: char)
    requires Reads(x, s) && Next(x, c).EndTagName?
    ensures Reads(Next(x, c), s + [c])
  {
    var r, name := s + [c], Next(x, c).name;
    assert forall i | 0 <= i < |s| :: r[i] == s[i];
    var p := |r| - |name| - 2;
    forall j | p + 2 <= j < |r|
      ensures Alpha(r[j]) && name[j - p - 2] == Lower(r[j])
    {
      assert j < |s| ==> r[j] == s[j];
    }
  }

  /** In which state the whole name "style" has been read. */
  lemma StyleRead(x: Tokenizer, s: string)
    requires Reads(x, s) && !x.Left?
    ensures x == EndTagName("style") <==> |s| >= 7 && Matches(s, |s| - 7, 7)
  {
    if |s| >= 7 && Matches(s, |s| - 7, 7) {
      var p := |s| - 7;
      MatchesReads(s, p);
      forall i | p + 2 <= i < |s|
        ensures Alpha(s[i])
      {
        assert i == p + 2 || i == p + 3 || i == p + 4 || i == p + 5 || i == p + 6;
      }
      assert StillOpen(s, p);
      if x.EndTagName? {
        NameIsStyle(s, x.name);
      }
    }
    if x == EndTagName("style") {
      NameMatches(s);
    }
  }

  lemma NameIsStyle(s: string, name: string)
    requires name != "" && |s| >= |name| + 2 && OpenAt(s, |s| - |name| - 2, name)
    requires |s| >= 7 && Matches(s, |s| - 7, 7)
    ensures name == "style"
  {
    var p, q := |s| - 7, |s| - |name| - 2;
    MatchesReads(s, p);
    assert s[q] == '<';
    assert p == q;
    assert name[0] == Lower(s[p + 2]) && name[1] == Lower(s[p + 3]) && name[2] == Lower(s[p + 4]);
    assert name[3] == Lower(s[p + 5]) && name[4] == Lower(s[p + 6]);
  }

  lemma NameMatches(s: string)
    requires |s| >= 7 && OpenAt(s, |s| - 7, "style")
    ensures Matches(s, |s| - 7, 7)
  {
    var p, name := |s| - 7, "style";
    assert name[0] == Lower(s[p + 2]) && name[1] == Lower(s[p + 3]) && name[2] == Lower(s[p + 4]);
    assert name[3] == Lower(s[p + 5]) && name[4] == Lower(s[p + 6]);
    assert OPENING[0] == '<' && OPENING[1] == '/' && OPENING[2] == 's' && OPENING[3] == 't';
    assert OPENING[4] == 'y' && OPENING[5] == 'l' && OPENING[6] == 'e';
  }

  lemma ReadsNext(x: Tokenizer, s: string, c: char)
    requires Reads(x, s) && (x == Left <==> HasEndTag(s))
    ensures Reads(Next(x, c), s + [c]) && (Next(x, c) == Left <==> HasEndTag(s + [c]))
  {
    if x.Left? {
      EndTagStays(s, c);
    } else {
      EndTagPush(s, c);
      StyleRead(x, s);
      match Next(x, c)
      case Rawtext => BackInRawtext(x, s, c);
      case EndTagName(_) => NameGrows(x, s, c);
      case LessThan =>
      case EndTagOpen => assert OpenAt(s + [c], |s| - 1, "");
      case Left =>
    }
  }

  /** The tokenizer leaves the STYLE element exactly at the first end tag. */
  lemma {:induction false} LeavesAtEndTag(s: string)
    ensures Reads(Tokenize(s), s)
    ensures Tokenize(s) == Left <==> HasEndTag(s)
  {
    if s != "" {
      var front, c := s[..|s| - 1], s[|s| - 1];
      assert s == front + [c];
      LeavesAtEndTag(front);
      ReadsNext(Tokenize(front), front, c);
    }
  }

  /** What acceptance is for: accepted CSS is the CSS that never changes whether
      what follows it closes the element. */
  lemma SafeNeverCloses(css: string)
    ensures Safe(css) <==> forall u: string :: Tokenize(css + u) == Left ==> Tokenize(u) == Left
  {
    if Safe(css) {
      forall u: string | Tokenize(css + u) == Left
        ensures Tokenize(u) == Left
      {
        LeavesAtEndTag(css + u);
        LeavesAtEndTag(u);
        SafeExactly(css);
        var p: nat :| EndTagAt(css + u, p);
        EndTagInSecond(css, u, p - |css|);
      }
    } else {
      var p :| 0 <= p < |css| && MayBegin(css, p);
      var u := Completion(css, p);
      MayBeginExactly(css, p);
      LeavesAtEndTag(css + u);
      CompletionIsHarmless(u);
      LeavesAtEndTag(u);
    }
  }

  lemma CompletionIsHarmless(u: string)
    requires u == "" || exists k :: 1 <= k <= 7 && u == OPENING[k..] + ">"
    ensures !HasEndTag(u)
  {
    assert |u| <= 7;
  }

  /** So any number of accepted texts, one after the other, leave it open. */
  lemma AcceptedTextsStayInside(texts: seq<string>)
    requires forall i | 0 <= i < |texts| :: Safe(texts[i])
    ensures Tokenize(Concat(texts)) != Left
  {
    AllSafeTogether(texts);
    SafeNeverCloses(Concat(texts));
    assert Concat(texts) + "" == Concat(texts);
    assert Tokenize("") == Rawtext;
  }
}
