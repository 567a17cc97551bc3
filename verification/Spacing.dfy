/**
  What stands between tokens: blanks, comments of both kinds and preprocessor lines, each of
  them skipped to its end and no further.
 */
module Spacing {
  import opened Tokens
  import opened Lexing

  datatype Piece =
    | Blank(c: char)
    | LineComment(body: string)
    | Directive(body: string)
    | BlockComment(body: string)

  predicate OneLine(body: string) {
    forall i :: 0 <= i < |body| ==> body[i] != '\n'
  }

  /** The characters that end a block comment do not stand in it. */
  predicate OneBlock(body: string) {
    forall i :: 0 < i < |body| ==> !(body[i - 1] == '*' && body[i] == '/')
  }

  predicate PieceOk(p: Piece) {
    match p
    case Blank(c) => c == ' ' || c == '\t' || c == '\r' || c == '\n'
    case LineComment(body) => OneLine(body)
    case Directive(body) => OneLine(body)
    case BlockComment(body) => OneBlock(body)
  }

  function PieceText(p: Piece): string {
    match p
    case Blank(c) => [c]
    case LineComment(body) => "//" + body + "\n"
    case Directive(body) => "#" + body + "\n"
    case BlockComment(body) => "/*" + body + "*/"
  }

  // --- One piece -----------------------------------------------------------------------------

  lemma {:induction false} LineIsSkipped(body: string, rest: string)
    requires OneLine(body) && (rest != [] ==> rest[0] == '\n')
    ensures SkipLine(body + rest) == rest
    decreases |body|
  {
    if body == [] {
      assert body + rest == rest;
    } else {
      assert (body + rest)[1..] == body[1..] + rest;
      LineIsSkipped(body[1..], rest);
    }
  }

  lemma {:induction false} BlockIsSkipped(body: string, rest: string)
    requires OneBlock(body)
    ensures SkipBlock(body + ("*/" + rest)) == rest
    decreases |body|
  {
    var s := body + ("*/" + rest);
    if body == [] {
      assert s == "*/" + rest;
    } else {
      assert s[1..] == body[1..] + ("*/" + rest);
      assert PeekAt(s, 1) == if |body| > 1 then body[1] else '*';
      BlockIsSkipped(body[1..], rest);
    }
  }

  lemma {:induction false} OpenBlockIsSkipped(body: string)
    requires OneBlock(body)
    ensures SkipBlock(body) == []
    decreases |body|
  {
    if body != [] {
      OpenBlockIsSkipped(body[1..]);
    }
  }

  /** A line end is a blank. */
  lemma {:induction false} SkipsBlank(c: char, rest: string)
    requires PieceOk(Blank(c))
    ensures SkipBlanks([c] + rest) == SkipBlanks(rest)
  {
    assert ([c] + rest)[1..] == rest;
  }

  lemma {:induction false} SkipsLine(body: string, rest: string)
    requires OneLine(body)
    ensures SkipBlanks("//" + body + "\n" + rest) == SkipBlanks(rest)
  {
    hide SkipLine, SkipBlock;
    var s := "//" + body + "\n" + rest;
    assert s[2..] == body + ("\n" + rest);
    LineIsSkipped(body, "\n" + rest);
    SkipsBlank('\n', rest);
  }

  lemma {:induction false} SkipsDirective(body: string, rest: string)
    requires OneLine(body)
    ensures SkipBlanks("#" + body + "\n" + rest) == SkipBlanks(rest)
  {
    hide SkipLine, SkipBlock;
    var s := "#" + body + "\n" + rest;
    assert s[1..] == body + ("\n" + rest);
    LineIsSkipped(body, "\n" + rest);
    SkipsBlank('\n', rest);
  }

  lemma {:induction false} SkipsBlock(body: string, rest: string)
    requires OneBlock(body)
    ensures SkipBlanks("/*" + body + "*/" + rest) == SkipBlanks(rest)
  {
    hide SkipLine, SkipBlock;
    var s := "/*" + body + "*/" + rest;
    assert s[2..] == body + ("*/" + rest);
    BlockIsSkipped(body, rest);
  }

  lemma {:induction false} PieceIsSkipped(p: Piece, rest: string)
    requires PieceOk(p)
    ensures SkipBlanks(PieceText(p) + rest) == SkipBlanks(rest)
  {
    hide SkipBlanks;
    match p
    case Blank(c) => SkipsBlank(c, rest);
    case LineComment(body) => SkipsLine(body, rest);
    case Directive(body) => SkipsDirective(body, rest);
    case BlockComment(body) => SkipsBlock(body, rest);
  }

  lemma {:induction false} SameBlanksSameTokens(s: string, t: string)
    requires SkipBlanks(s) == SkipBlanks(t)
    ensures NextToken(s) == NextToken(t) && TokensOf(s) == TokensOf(t)
  {
    hide SkipBlanks;
  }

  /** A blank, a comment or a preprocessor line before any text changes none of its tokens. */
  lemma {:induction false} PieceIsInvisible(p: Piece, rest: string)
    requires PieceOk(p)
    ensures TokensOf(PieceText(p) + rest) == TokensOf(rest)
  {
    PieceIsSkipped(p, rest);
    SameBlanksSameTokens(PieceText(p) + rest, rest);
  }

  /** A comment or a preprocessor line that the file ends in has no tokens. */
  lemma {:induction false} NothingAfterOpenComment(body: string)
    ensures OneLine(body) ==> TokensOf("//" + body) == [] && TokensOf("#" + body) == []
    ensures OneBlock(body) ==> TokensOf("/*" + body) == []
  {
    hide SkipLine, SkipBlock;
    assert ("//" + body)[2..] == body && ("#" + body)[1..] == body && ("/*" + body)[2..] == body;
    if OneLine(body) {
      assert body + [] == body;
      LineIsSkipped(body, []);
      SameBlanksSameTokens("//" + body, []);
      SameBlanksSameTokens("#" + body, []);
    }
    if OneBlock(body) {
      OpenBlockIsSkipped(body);
      SameBlanksSameTokens("/*" + body, []);
    }
    NothingLexed();
  }

  /** No blank, no letter, digit or underscore, and none of the marks. */
  predicate Unreadable(c: char) {
    && !PieceOk(Blank(c)) && !NameChar(c) && c != '#'
    && c != '+' && c != '-' && c != '*' && c != '/' && c != '(' && c != ')' && c != '{' && c != '}'
    && c != ';' && c != ',' && c != '!' && c != '=' && c != '<' && c != '>'
    && c != '&' && c != '|' && c != '^' && c != '~'
  }

  /** A character that belongs to no token is passed over in silence. */
  lemma {:induction false} UnreadableIsSkipped(c: char, rest: string)
    requires Unreadable(c)
    ensures TokensOf([c] + rest) == TokensOf(rest)
  {
    var s := [c] + rest;
    Classes(c);
    assert SkipBlanks(s) == s && s[1..] == rest;
  }

  // --- Whole texts ---------------------------------------------------------------------------

  function GapText(gap: seq<Piece>): string {
    if gap == [] then [] else PieceText(gap[0]) + GapText(gap[1..])
  }

  predicate GapOk(gap: seq<Piece>) {
    forall i :: 0 <= i < |gap| ==> PieceOk(gap[i])
  }

  lemma {:induction false} GapIsSkipped(gap: seq<Piece>, rest: string)
    requires GapOk(gap)
    ensures SkipBlanks(GapText(gap) + rest) == SkipBlanks(rest)
    decreases |gap|
  {
    hide PieceText, SkipBlanks;
    if gap == [] {
      assert GapText(gap) + rest == rest;
    } else {
      var rest1 := GapText(gap[1..]) + rest;
      assert GapText(gap) + rest == PieceText(gap[0]) + rest1;
      PieceIsSkipped(gap[0], rest1);
      GapIsSkipped(gap[1..], rest);
    }
  }

  /** The tokens with gaps before, between and after them; a gap may be empty. */
  function Layout(ts: seq<Token>, gaps: seq<seq<Piece>>): string
    requires |gaps| == |ts| + 1
  {
    GapText(gaps[0]) + if ts == [] then [] else Spelling(ts[0]) + Layout(ts[1..], gaps[1..])
  }

  /** No token goes on with the character that stands after it. */
  predicate Legible(ts: seq<Token>, gaps: seq<seq<Piece>>)
    requires |gaps| == |ts| + 1
  {
    && GapOk(gaps[0])
    && (ts != [] ==> Spellable(ts[0]) && Clear(ts[0], Layout(ts[1..], gaps[1..])) && Legible(ts[1..], gaps[1..]))
  }

  /**
    However tokens are laid out, with blanks, comments and preprocessor lines or with nothing
    between them, they are read back as long as none of them runs into what stands after it.
   */
  lemma {:induction false} LayoutLexes(ts: seq<Token>, gaps: seq<seq<Piece>>)
    requires |gaps| == |ts| + 1 && Legible(ts, gaps)
    ensures TokensOf(Layout(ts, gaps)) == ts
    decreases |ts|
  {
    hide NextToken, Spelling, Spellable, Clear, GapText, SkipBlanks;
    var body := if ts == [] then [] else Spelling(ts[0]) + Layout(ts[1..], gaps[1..]);
    GapIsSkipped(gaps[0], body);
    SameBlanksSameTokens(Layout(ts, gaps), body);
    if ts == [] {
      NothingLexed();
    } else {
      var rest := Layout(ts[1..], gaps[1..]);
      TokenLexes(ts[0], rest);
      NotError(ts[0]);
      LayoutLexes(ts[1..], gaps[1..]);
    }
  }
}
