/** The lexer: blanks and comments are skipped, and each token is the longest that starts here. */
module Lexing {
  import opened Words
  import opened Ast
  import opened Tokens
  import opened Parsing
  import opened Printing

  predicate IsDigit(c: char) {
    '0' <= c <= '9'
  }

  predicate IsWord(c: char) {
    IsDigit(c) || 'a' <= c <= 'z' || 'A' <= c <= 'Z' || c == '_'
  }

  predicate IsBlank(c: char) {
    c == ' ' || c == '\r' || c == '\t' || c == '\n'
  }

  // --- The lexer as functions of the text to come ----------------------------------------------

  /** The character at position `i`, or 0 past the end. */
  function PeekAt(s: string, i: nat): char {
    if i < |s| then s[i] else '\0'
  }

  function SkipLine(s: string): (r: string)
    ensures |r| <= |s|
  {
    if s == [] || s[0] == '\n' then s else SkipLine(s[1..])
  }

  /** Past the end of a comment, or of the text if the comment has no end. */
  function SkipBlock(s: string): (r: string)
    ensures |r| <= |s|
  {
    if s == [] then s else if s[0] == '*' && PeekAt(s, 1) == '/' then s[2..] else SkipBlock(s[1..])
  }

  function SkipBlanks(s: string): (r: string)
    ensures |r| <= |s|
    decreases |s|
  {
    if s == [] then s
    else if IsBlank(s[0]) then SkipBlanks(s[1..])
    else if s[0] == '/' && PeekAt(s, 1) == '/' then SkipBlanks(SkipLine(s[2..]))
    else if s[0] == '/' && PeekAt(s, 1) == '*' then SkipBlanks(SkipBlock(s[2..]))
    else if s[0] == '#' then SkipBlanks(SkipLine(s[1..]))
    else s
  }

  /** How many digits the text starts with. */
  function DigitRun(s: string): (n: nat)
    ensures n <= |s| && (forall i :: 0 <= i < n ==> IsDigit(s[i])) && (n < |s| ==> !IsDigit(s[n]))
  {
    if s == [] || !IsDigit(s[0]) then 0 else 1 + DigitRun(s[1..])
  }

  function WordRun(s: string): (n: nat)
    ensures n <= |s| && (forall i :: 0 <= i < n ==> IsWord(s[i])) && (n < |s| ==> !IsWord(s[n]))
  {
    if s == [] || !IsWord(s[0]) then 0 else 1 + WordRun(s[1..])
  }

  function KeywordKind(text: string): Kind {
    if text == "int" then TInt
    else if text == "char" then TChar
    else if text == "void" then TVoid
    else if text == "if" then TIf
    else if text == "else" then TElse
    else if text == "while" then TWhile
    else if text == "return" then TReturn
    else TIdentifier
  }

  /** The operator or mark that starts with `c` and may go on with `d`, and its length. */
  function MarkAt(c: char, d: char): (r: (Kind, nat))
    ensures r.1 == 1 || (r.1 == 2 && d != '\0')
  {
    if c == '+' then (TPlus, 1)
    else if c == '-' then (TMinus, 1)
    else if c == '*' then (TStar, 1)
    else if c == '/' then (TSlash, 1)
    else if c == '(' then (TLParen, 1)
    else if c == ')' then (TRParen, 1)
    else if c == '{' then (TLBrace, 1)
    else if c == '}' then (TRBrace, 1)
    else if c == ';' then (TSemicolon, 1)
    else if c == ',' then (TComma, 1)
    else if c == '!' then if d == '=' then (TBangEqual, 2) else (TBang, 1)
    else if c == '=' then if d == '=' then (TEqualEqual, 2) else (TEqual, 1)
    else if c == '>' then if d == '=' then (TGreaterEqual, 2) else if d == '>' then (TRShift, 2) else (TGreater, 1)
    else if c == '<' then if d == '=' then (TLessEqual, 2) else if d == '<' then (TLShift, 2) else (TLess, 1)
    else if c == '&' then (TBitAnd, 1)
    else if c == '|' then (TBitOr, 1)
    else if c == '^' then (TBitXor, 1)
    else if c == '~' then (TBitNot, 1)
    else (TError, 1)
  }

  /** Marks of one character carry it as text, but for those that could have been longer. */
  function MarkText(k: Kind): string {
    Fixed(k).text
  }

  /** The next token, and the text after it. */
  function NextToken(s: string): (r: (Token, string))
    ensures |r.1| <= |s|
    ensures !r.0.kind.TEof? ==> |r.1| < |s|
    ensures r.0.kind.TEof? ==> r == (EofToken, [])
  {
    var t := SkipBlanks(s);
    if t == [] then (EofToken, t)
    else if IsDigit(t[0]) then
      var n := DigitRun(t);
      (Token(TNumber, t[..n]), t[n..])
    else if IsWord(t[0]) then
      var n := WordRun(t);
      (Token(KeywordKind(t[..n]), t[..n]), t[n..])
    else
      var (k, n) := MarkAt(t[0], PeekAt(t, 1));
      (Token(k, MarkText(k)), t[n..])
  }

  /** The tokens of the whole text: what the lexer cannot read is left out. */
  function TokensOf(s: string): seq<Token>
    decreases |s|
  {
    var (t, rest) := NextToken(s);
    if t.kind.TEof? then [] else if t.kind.TError? then TokensOf(rest) else [t] + TokensOf(rest)
  }

  // --- Lexing what was spelled ------------------------------------------------------------------

  function Spelling(t: Token): string {
    match t.kind
    case TBang => "!"
    case TEqual => "="
    case TGreater => ">"
    case TLess => "<"
    case TBangEqual => "!="
    case TEqualEqual => "=="
    case TGreaterEqual => ">="
    case TLessEqual => "<="
    case TRShift => ">>"
    case TLShift => "<<"
    case _ => t.text
  }

  /** Each token, and a space after it. */
  function Spell(ts: seq<Token>): string {
    if ts == [] then [] else Spelling(ts[0]) + [' '] + Spell(ts[1..])
  }

  /** A token that the lexer can make. */
  predicate Spellable(t: Token) {
    match t.kind
    case TNumber => t.text != [] && forall i :: 0 <= i < |t.text| ==> Digit(t.text[i])
    case TIdentifier => IsName(t.text)
    case TEof => false
    case TError => false
    case _ => t == Fixed(t.kind)
  }

  predicate Digit(c: char) {
    '0' <= c <= '9'
  }

  /** The characters of names. */
  predicate NameChar(c: char) {
    'a' <= c <= 'z' || 'A' <= c <= 'Z' || c == '_' || Digit(c)
  }

  /** Letters, digits and underscores, no digit first, and no keyword. */
  predicate IsName(x: string) {
    && x != [] && !Digit(x[0]) && (forall i :: 0 <= i < |x| ==> NameChar(x[i]))
    && x !in {"int", "char", "void", "if", "else", "while", "return"}
  }

  /** The classes of characters that the lexer tests for. */
  lemma {:induction false} Classes(c: char)
    ensures IsDigit(c) <==> Digit(c)
    ensures IsWord(c) <==> NameChar(c)
  {
  }

  predicate IsKeyword(k: Kind) {
    k.TInt? || k.TChar? || k.TVoid? || k.TIf? || k.TElse? || k.TWhile? || k.TReturn?
  }

  /** The text after a token does not go on with it. */
  predicate Clear(t: Token, rest: string) {
    rest == [] ||
    if t.kind.TNumber? then !Digit(rest[0])
    else if t.kind.TIdentifier? || IsKeyword(t.kind) then !NameChar(rest[0])
    else if t.kind.TBang? || t.kind.TEqual? then rest[0] != '='
    else if t.kind.TLess? then rest[0] != '=' && rest[0] != '<'
    else if t.kind.TGreater? then rest[0] != '=' && rest[0] != '>'
    else t.kind.TSlash? ==> rest[0] != '/' && rest[0] != '*'
  }

  /** A run of digits goes on as far as it can. */
  lemma {:induction false} DigitRunOf(x: string, rest: string)
    requires forall i :: 0 <= i < |x| ==> Digit(x[i])
    ensures DigitRun(x + rest) == |x| + DigitRun(rest)
    ensures DigitRun(rest) == 0 <==> rest == [] || !Digit(rest[0])
  {
    if x == [] {
      assert x + rest == rest;
    } else {
      Classes(x[0]);
      assert (x + rest)[1..] == x[1..] + rest;
      DigitRunOf(x[1..], rest);
    }
    if rest != [] {
      Classes(rest[0]);
    }
  }

  lemma {:induction false} WordRunOf(x: string, rest: string)
    requires forall i :: 0 <= i < |x| ==> NameChar(x[i])
    ensures WordRun(x + rest) == |x| + WordRun(rest)
    ensures WordRun(rest) == 0 <==> rest == [] || !NameChar(rest[0])
  {
    if x == [] {
      assert x + rest == rest;
    } else {
      Classes(x[0]);
      assert (x + rest)[1..] == x[1..] + rest;
      WordRunOf(x[1..], rest);
    }
    if rest != [] {
      Classes(rest[0]);
    }
  }

  /** A blank before the text does not matter. */
  lemma {:induction false} BlankFirst(s: string)
    ensures NextToken([' '] + s) == NextToken(s)
  {
    assert ([' '] + s)[1..] == s;
  }

  lemma {:induction false} Unskipped(s: string)
    requires s != [] && !IsBlank(s[0]) && s[0] != '#' && (s[0] != '/' || (PeekAt(s, 1) != '/' && PeekAt(s, 1) != '*'))
    ensures SkipBlanks(s) == s
  {
  }

  /** Whether a token read from `t + rest` is `t`: exactly when the rest does not go on with it. */
  ghost predicate LexesExactly(t: Token, rest: string) {
    var (t1, rest1) := NextToken(Spelling(t) + rest);
    (t1 == t && rest1 == rest <==> Clear(t, rest)) && |rest1| <= |rest|
  }

  lemma {:induction false} NumberLexes(text: string, rest: string)
    requires Spellable(Token(TNumber, text))
    ensures LexesExactly(Token(TNumber, text), rest)
  {
    hide IsWord, NameChar, Digit;
    var s := text + rest;
    assert s[0] == text[0];
    Classes(text[0]);
    Unskipped(s);
    DigitRunOf(text, rest);
    assert s[|text|..] == rest && s[..|text|] == text;
  }

  lemma {:induction false} WordLexes(text: string, rest: string)
    requires text != [] && !Digit(text[0]) && forall i :: 0 <= i < |text| ==> NameChar(text[i])
    ensures var (t, rest1) := NextToken(text + rest);
            && (t == Token(KeywordKind(text), text) && rest1 == rest <==> rest == [] || !NameChar(rest[0]))
            && |rest1| <= |rest|
  {
    hide KeywordKind;
    var s := text + rest;
    assert s[0] == text[0];
    Classes(text[0]);
    Unskipped(s);
    WordRunOf(text, rest);
    assert s[|text|..] == rest && s[..|text|] == text;
  }

  predicate IsMark(k: Kind) {
    !k.TNumber? && !k.TIdentifier? && !k.TEof? && !k.TError? && !IsKeyword(k)
  }

  /** The mark is read from its characters and the one after them, unless that one belongs to it. */
  lemma {:induction false} MarkSpelled(k: Kind, d: char)
    requires IsMark(k)
    ensures var x := Spelling(Fixed(k));
            && 1 <= |x| <= 2 && !IsBlank(x[0]) && x[0] != '#' && !IsDigit(x[0]) && !IsWord(x[0])
            && (x[0] == '/' <==> k.TSlash?)
            && (k.TSlash? ==> |x| == 1 && MarkAt(x[0], d) == (k, 1) && (Clear(Fixed(k), [d]) <==> d != '/' && d != '*'))
            && (k.TSlash? || (MarkAt(x[0], if |x| == 2 then x[1] else d) == (k, |x|) <==> Clear(Fixed(k), [d])))
            && MarkAt(x[0], if |x| == 2 then x[1] else d).1 >= |x| && (|x| == 2 ==> Clear(Fixed(k), [d]))
  {
  }

  lemma {:induction false} MarkLexes(k: Kind, rest: string)
    requires IsMark(k)
    ensures LexesExactly(Fixed(k), rest)
  {
    hide MarkAt, Spelling, Fixed;
    var d := PeekAt(rest, 0);
    MarkSpelled(k, d);
    var x := Spelling(Fixed(k));
    var s := x + rest;
    assert s[0] == x[0] && PeekAt(s, 1) == if |x| == 2 then x[1] else d;
    ClearPeeks(k, rest);
    if k.TSlash? && !Clear(Fixed(k), rest) {
      assert |SkipBlanks(s)| < |rest|;
    } else {
      Unskipped(s);
      assert s[|x|..] == rest;
      MarkIsFixed(k);
    }
  }

  /** What is clear shows in the next character. */
  lemma {:induction false} ClearPeeks(k: Kind, rest: string)
    requires IsMark(k)
    ensures Clear(Fixed(k), rest) <==> Clear(Fixed(k), [PeekAt(rest, 0)])
  {
  }

  lemma {:induction false} MarkIsFixed(k: Kind)
    ensures Token(k, MarkText(k)) == Fixed(k)
  {
  }

  /** The keyword's word is read as the keyword. */
  lemma {:induction false} KeywordSpelled(k: Kind)
    requires IsKeyword(k)
    ensures var x := Fixed(k).text;
            && x != [] && !Digit(x[0]) && (forall i :: 0 <= i < |x| ==> NameChar(x[i])) && KeywordKind(x) == k
            && Spelling(Fixed(k)) == x
  {
  }

  lemma {:induction false} NoKeyword(x: string)
    requires IsName(x)
    ensures KeywordKind(x) == TIdentifier
  {
  }

  /**
    Longest match: a token is read from what is spelled of it if and only if the text after it
    does not go on with it; and nothing of that text is given back.
   */
  lemma {:induction false} TokenLexes(t: Token, rest: string)
    requires Spellable(t)
    ensures LexesExactly(t, rest)
  {
    hide NextToken, KeywordKind, IsWord, IsDigit, NameChar, Digit;
    if t.kind.TNumber? {
      NumberLexes(t.text, rest);
    } else if t.kind.TIdentifier? {
      NoKeyword(t.text);
      WordLexes(t.text, rest);
    } else if IsMark(t.kind) {
      MarkLexes(t.kind, rest);
    } else {
      KeywordSpelled(t.kind);
      WordLexes(t.text, rest);
    }
  }

  lemma {:induction false} ClearBlank(t: Token, rest: string)
    ensures Clear(t, [' '] + rest)
  {
  }

  /** Lexing inverts spelling. */
  lemma {:induction false} SpelledLexes(ts: seq<Token>)
    requires forall i :: 0 <= i < |ts| ==> Spellable(ts[i])
    ensures TokensOf(Spell(ts)) == ts && TokensOf([' '] + Spell(ts)) == ts
    decreases |ts|
  {
    hide NextToken, Spelling, Spellable;
    BlankFirst(Spell(ts));
    if ts == [] {
      NothingLexed();
    } else {
      var rest := Spell(ts[1..]);
      assert Spell(ts) == Spelling(ts[0]) + ([' '] + rest);
      TokenLexes(ts[0], [' '] + rest);
      ClearBlank(ts[0], rest);
      SpelledLexes(ts[1..]);
      NotError(ts[0]);
    }
  }

  lemma {:induction false} NotError(t: Token)
    requires Spellable(t)
    ensures !t.kind.TEof? && !t.kind.TError?
  {
  }

  lemma {:induction false} NothingLexed()
    ensures NextToken([]) == (EofToken, [])
  {
  }
}
