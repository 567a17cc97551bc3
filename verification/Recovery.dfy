/** What the parser skips after an error, and where it goes on. */
module Recovery {
  import opened Words
  import opened Ast
  import opened Tokens
  import opened Parsing
  import opened Limits

  /** Between the token `last` and the tokens `rest` a statement may start, or nothing is left. */
  predicate Resumes(last: Token, rest: seq<Token>) {
    rest == [] || last.kind == TSemicolon || rest[0].kind in {TEof, TIf, TWhile, TReturn, TInt, TLBrace}
  }

  /** The last token taken once `k` more are. */
  function LastTaken(s: PState, k: nat): Token
    requires k <= |s.rest|
  {
    if k == 0 then s.current else s.rest[k - 1]
  }

  /** Recovery takes tokens up to the first place where it may resume, and changes nothing else. */
  lemma {:induction false} SynchronizeStops(s: PState) returns (k: nat)
    ensures k <= |s.rest| && Resumes(LastTaken(s, k), s.rest[k..])
    ensures forall j :: 0 <= j < k ==> !Resumes(LastTaken(s, j), s.rest[j..])
    ensures Synchronize(s) == s.(panic := false, current := LastTaken(s, k), rest := s.rest[k..])
    decreases |s.rest|
  {
    if Resumes(s.current, s.rest) {
      k := 0;
      assert s.rest[0..] == s.rest;
    } else {
      var s1 := Advance(s.(panic := false));
      var k1 := SynchronizeStops(s1);
      k := k1 + 1;
      assert s1.rest[k1..] == s.rest[k..];
      forall j | 0 <= j < k ensures !Resumes(LastTaken(s, j), s.rest[j..]) {
        if j > 0 {
          assert s1.rest[j - 1..] == s.rest[j..];
          assert LastTaken(s1, j - 1) == LastTaken(s, j);
        } else {
          assert s.rest[0..] == s.rest;
        }
      }
    }
  }

  /** An expression starts with one of six kinds of tokens; at any other it has no tree, and an error. */
  lemma {:induction false} OnlySixStart(prec: nat, s: PState)
    requires s.depth < MAX_EXPRESSION_DEPTH && s.rest != [] && !s.panic
    requires s.rest[0].kind !in {TNumber, TIdentifier, TMinus, TBang, TBitNot, TLParen}
    ensures ParseExpr(prec, s) ==
            (Nothing, s.(current := s.rest[0], rest := s.rest[1..], panic := true, errors := s.errors + 1))
  {
  }
}
