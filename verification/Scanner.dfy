/** The lexer as it works: one position that moves through the text. */
module Scanners {
  import opened Words
  import opened Tokens
  import opened Parsing
  import opened Printing
  import opened Lexing

  class Lexer {
    const text: string
    var curr: nat

    ghost predicate Valid()
      reads this
    {
      curr <= |text|
    }

    ghost function ToCome(): string
      requires Valid()
      reads this
    {
      text[curr..]
    }

    constructor (text: string)
      ensures Valid() && ToCome() == text
    {
      this.text := text;
      curr := 0;
    }

    method Peek() returns (c: char)
      requires Valid()
      ensures c == PeekAt(ToCome(), 0)
    {
      return if curr >= |text| then '\0' else text[curr];
    }

    method PeekNext() returns (c: char)
      requires Valid()
      ensures c == PeekAt(ToCome(), 1)
    {
      return if curr + 1 >= |text| then '\0' else text[curr + 1];
    }

    /** Up to the end of the line. */
    method SkipToLineEnd()
      requires Valid()
      modifies this`curr
      ensures Valid() && ToCome() == SkipLine(old(ToCome()))
    {
      while curr < |text| && text[curr] != '\n'
        invariant Valid() && SkipLine(ToCome()) == SkipLine(old(ToCome()))
      {
        assert text[curr..][1..] == text[curr + 1..];
        curr := curr + 1;
      }
    }

    /** Past the end of a comment whose start has been taken. */
    method SkipToCommentEnd()
      requires Valid()
      modifies this`curr
      ensures Valid() && ToCome() == SkipBlock(old(ToCome()))
    {
      while curr < |text|
        invariant Valid() && SkipBlock(ToCome()) == SkipBlock(old(ToCome()))
      {
        var c := Peek();
        var d := PeekNext();
        assert text[curr..][1..] == text[curr + 1..];
        if c == '*' && d == '/' {
          assert text[curr..][2..] == text[curr + 2..];
          curr := curr + 2;
          return;
        }
        curr := curr + 1;
      }
    }

    /** Takes a comment if there is one. */
    method SkipComment() returns (isComment: bool)
      requires Valid() && curr < |text| && text[curr] == '/'
      modifies this`curr
      ensures Valid()
      ensures isComment ==> SkipBlanks(ToCome()) == SkipBlanks(old(ToCome())) && curr > old(curr)
      ensures !isComment ==> curr == old(curr) && SkipBlanks(ToCome()) == ToCome()
    {
      var d := PeekNext();
      if d == '/' {
        assert text[curr..][2..] == text[curr + 2..];
        curr := curr + 2;
        SkipToLineEnd();
        return true;
      }
      if d == '*' {
        assert text[curr..][2..] == text[curr + 2..];
        curr := curr + 2;
        SkipToCommentEnd();
        return true;
      }
      return false;
    }

    method SkipWhitespace()
      requires Valid()
      modifies this`curr
      ensures Valid() && ToCome() == SkipBlanks(old(ToCome()))
    {
      while curr < |text|
        invariant Valid() && SkipBlanks(ToCome()) == SkipBlanks(old(ToCome()))
        decreases |text| - curr
      {
        var c := text[curr];
        assert text[curr..][1..] == text[curr + 1..];
        if IsBlank(c) {
          curr := curr + 1;
        } else if c == '/' {
          var isComment := SkipComment();
          if !isComment {
            return;
          }
        } else if c == '#' {
          curr := curr + 1;
          SkipToLineEnd();
        } else {
          return;
        }
      }
    }

    /** The digits from here on. */
    method TakeNumber() returns (t: Token)
      requires Valid()
      modifies this`curr
      ensures Valid()
      ensures var s := old(ToCome()); t == Token(TNumber, s[..DigitRun(s)]) && ToCome() == s[DigitRun(s)..]
    {
      ghost var s := ToCome();
      var start := curr;
      while curr < |text| && IsDigit(text[curr])
        invariant start <= curr <= |text| && DigitRun(s) == curr - start + DigitRun(text[curr..])
      {
        assert text[curr..][1..] == text[curr + 1..];
        curr := curr + 1;
      }
      Cut(text, start, curr);
      return Token(TNumber, text[start..curr]);
    }

    /** The word from here on: a keyword or a name. */
    method TakeWord() returns (t: Token)
      requires Valid()
      modifies this`curr
      ensures Valid()
      ensures var s := old(ToCome());
              t == Token(KeywordKind(s[..WordRun(s)]), s[..WordRun(s)]) && ToCome() == s[WordRun(s)..]
    {
      hide KeywordKind;
      ghost var s := ToCome();
      var start := curr;
      while curr < |text| && IsWord(text[curr])
        invariant start <= curr <= |text| && WordRun(s) == curr - start + WordRun(text[curr..])
      {
        assert text[curr..][1..] == text[curr + 1..];
        curr := curr + 1;
      }
      Cut(text, start, curr);
      return Token(KeywordKind(text[start..curr]), text[start..curr]);
    }

    /** The operator or mark from here on. */
    method TakeMark() returns (t: Token)
      requires Valid() && curr < |text|
      modifies this`curr
      ensures Valid()
      ensures var s := old(ToCome());
              var (k, n) := MarkAt(s[0], PeekAt(s, 1));
              n <= |s| && t == Token(k, MarkText(k)) && ToCome() == s[n..]
    {
      hide MarkAt, MarkText;
      ghost var s := ToCome();
      var c := text[curr];
      curr := curr + 1;
      assert s[1..] == text[curr..];
      var d := Peek();
      assert d == PeekAt(s, 1);
      var (k, n) := MarkAt(c, d);
      if n == 2 {
        assert s[2..] == text[curr + 1..];
        curr := curr + 1;
      }
      return Token(k, MarkText(k));
    }

    /** The next token: the longest that starts here. */
    method Scan() returns (t: Token)
      requires Valid()
      modifies this`curr
      ensures Valid() && t == NextToken(old(ToCome())).0 && ToCome() == NextToken(old(ToCome())).1
    {
      hide MarkAt, MarkText, KeywordKind, DigitRun, WordRun, SkipBlanks;
      SkipWhitespace();
      if curr >= |text| {
        return EofToken;
      }
      if IsDigit(text[curr]) {
        t := TakeNumber();
      } else if IsWord(text[curr]) {
        t := TakeWord();
      } else {
        t := TakeMark();
      }
    }
  }

  lemma {:induction false} Cut(text: string, start: nat, end: nat)
    requires start <= end <= |text|
    ensures text[start..][..end - start] == text[start..end] && text[start..][end - start..] == text[end..]
  {
  }
}
