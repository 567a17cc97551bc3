/** Reported syntax errors do not stop the compiler. */
module SyntaxErrors {
  import opened Limits
  import opened Words
  import opened Ast
  import opened Tokens
  import opened Parsing
  import opened Printing
  import opened Lexing
  import opened TextRoundTrip
  import opened Crashes
  import opened Programs
  import opened Pipeline

  /** The tokens of a function without the brace that closes it. */
  function OpenDecl(d: Declaration): seq<Token>
    requires d.body.Some? && d.body.value.Block?
  {
    Headed(d, [Fixed(TLBrace)] + PrintStmts(d.body.value.stmts))
  }

  /** From `s` the parser came to the end, with one error on the way. */
  ghost predicate EndsShort(s: PState, s1: PState) {
    s1.rest == [] && !s1.panic && s1.depth == 0 && s1.errors == s.errors + 1 && s1.fault == s.fault
  }

  lemma {:induction false} BraceMissed(s: PState, s1: PState)
    requires Reaches(s, s1, [])
    ensures EndsShort(s, Consume(s1, TRBrace))
  {
  }

  /** A block that is not closed is read for all that. */
  lemma {:induction false} OpenBlockParses(st: Stmt, s: PState)
    requires st.Block? && StmtFits(st) && At(s, [Fixed(TLBrace)] + PrintStmts(st.stmts))
    ensures ParseBlock(s).0 == StmtNode(st, true) && EndsShort(s, ParseBlock(s).1)
  {
    hide Consume, ParseStmts, Fixed, ParseStmt, PrintStmts, StmtFits, AllFit, ParseBlock;
    BlockFits(st);
    TakeToken(s, s, Fixed(TLBrace), PrintStmts(st.stmts));
    BlockUnfolds(s);
    var s1 := Consume(s, TLBrace);
    assert PrintStmts(st.stmts) + [] == PrintStmts(st.stmts);
    StmtsParse(0, st.stmts, s1, []);
    BraceMissed(s, ParseStmts(0, s1).2);
  }

  lemma {:induction false} OpenDeclParses(d: Declaration, s: PState)
    requires DeclFits(d) && d.body.Some? && At(s, OpenDecl(d))
    ensures ParseFunction(s).0 == DeclNode(d, true) && EndsShort(s, ParseFunction(s).1)
  {
    hide ParseBlock, PrintStmts, StmtFits, Fixed, ParseFunction, Headed;
    var s1 := HeadParses(d, s, [Fixed(TLBrace)] + PrintStmts(d.body.value.stmts));
    OpenBlockParses(d.body.value, s1);
  }

  /** The declarations end in a function. */
  predicate EndInBody(ds: seq<Declaration>) {
    ds != [] && ds[|ds| - 1].body.Some? && ds[|ds| - 1].body.value.Block?
  }

  /** The tokens of a file without its last brace. */
  function OpenUnit(ds: seq<Declaration>): seq<Token>
    requires EndInBody(ds)
  {
    if |ds| == 1 then OpenDecl(ds[0]) else PrintDecl(ds[0]) + OpenUnit(ds[1..])
  }

  lemma {:induction false} OpenIsPrinted(ds: seq<Declaration>)
    requires EndInBody(ds)
    ensures PrintUnit(ds) == OpenUnit(ds) + [Fixed(TRBrace)]
    decreases |ds|
  {
    hide PrintDecl, OpenDecl;
    if |ds| == 1 {
      OpenDeclIsPrinted(ds[0]);
      assert PrintUnit(ds[1..]) == [];
    } else {
      OpenIsPrinted(ds[1..]);
    }
  }

  lemma {:induction false} OpenDeclIsPrinted(d: Declaration)
    requires d.body.Some? && d.body.value.Block?
    ensures PrintDecl(d) == OpenDecl(d) + [Fixed(TRBrace)]
  {
    hide Fixed, PrintStmts, PrintParams, TypeToken;
  }

  lemma {:induction false} OpenDeclStarts(d: Declaration)
    requires d.body.Some? && d.body.value.Block?
    ensures OpenDecl(d) != [] && OpenDecl(d)[0] == TypeToken(d.returnType)
  {
  }

  lemma {:induction false} OpenUnitParses(n: nat, ds: seq<Declaration>, s: PState)
    requires EndInBody(ds) && (forall i :: 0 <= i < |ds| ==> DeclFits(ds[i])) && n + |ds| <= MAX_FUNCTION_COUNT
    requires At(s, OpenUnit(ds))
    ensures ParseUnit(n, s).0 == Some(WholeDecls(ds)) && EndsShort(s, ParseUnit(n, s).1)
    decreases |ds|
  {
    hide ParseFunction, PrintDecl, OpenDecl, DeclFits;
    if |ds| == 1 {
      OpenDeclStarts(ds[0]);
      TypeTokenIsRead(ds[0].returnType);
      OpenDeclParses(ds[0], s);
      OneDecl(n, s);
      assert WholeDecls(ds[1..]) == [];
    } else {
      var tail := OpenUnit(ds[1..]);
      DeclParses(ds[0], s, tail);
      DeclStarts(ds[0], tail);
      OpenUnitParses(n + 1, ds[1..], ParseFunction(s).1);
    }
  }

  lemma {:induction false} OneDecl(n: nat, s: PState)
    requires s.depth == 0 && s.rest != [] && !AtEnd(s) && n < MAX_FUNCTION_COUNT && TypeOfToken(Next(s)).Some?
    requires ParseFunction(s).1.rest == []
    ensures ParseUnit(n, s).0 == Some([ParseFunction(s).0]) && ParseUnit(n, s).1 == ParseFunction(s).1
  {
    hide ParseFunction, TypeOfToken;
    var d, s1 := ParseFunction(s).0, ParseFunction(s).1;
    assert ParseUnit(n + 1, s1) == (Some([]), s1);
    assert [d] + [] == [d];
  }

  /**
    Whatever the file, without its last brace it is still read as it is: an error is reported,
    and the compiler goes on with the same declarations.
   */
  lemma {:induction false} ErrorsAreIgnored(file: File)
    requires EndInBody(file) && |file| <= MAX_FUNCTION_COUNT
    requires forall i :: 0 <= i < |file| ==> DeclFits(file[i]) && DeclNamed(file[i])
    ensures PrintUnit(file) == OpenUnit(file) + [Fixed(TRBrace)]
    ensures ErrorIn(Spell(OpenUnit(file))) && ReadAs(Spell(OpenUnit(file)), file)
    ensures !ErrorIn(Spell(PrintUnit(file))) && ReadAs(Spell(PrintUnit(file)), file)
  {
    hide DeclFits, DeclNamed, OpenUnit, Spell, TokensOf, ParseUnit, ErrorIn, ReadAs, EndInBody;
    OpenIsPrinted(file);
    PrintedIsRead(file);
    UnitSpellable(file);
    OpenSpellable(PrintUnit(file), OpenUnit(file));
    SpelledLexes(OpenUnit(file));
    OpenUnitParses(0, file, StartOf(OpenUnit(file)));
    WholeIsRead(file);
    ShortIsRead(file, Spell(OpenUnit(file)));
  }

  lemma {:induction false} OpenSpellable(ts: seq<Token>, ts1: seq<Token>)
    requires AllSpellable(ts) && ts == ts1 + [Fixed(TRBrace)]
    ensures AllSpellable(ts1)
  {
    hide Spellable;
    forall i | 0 <= i < |ts1| ensures Spellable(ts1[i]) {
      assert ts[i] == ts1[i];
    }
  }

  lemma {:induction false} ShortIsRead(file: File, text: string)
    requires AllWhole(WholeDecls(file)) && DeclarationsOf(WholeDecls(file)) == file
    requires ReadTokens(TokensOf(text)) == Read(WholeDecls(file), 1)
    ensures ErrorIn(text) && ReadAs(text, file)
  {
    hide TokensOf, ReadTokens, AllWhole;
  }
}
