/** The front end and the back end together: from the declarations of all files to running code. */
module Pipeline {
  import opened Limits
  import opened Words
  import opened Ast
  import opened Tokens
  import opened Parsing
  import opened Lexing
  import Printing
  import TextRoundTrip
  import opened Crashes
  import opened Parsers
  import opened Source
  import opened Typing
  import opened Ir
  import opened Lowering
  import opened LoweringCorrect
  import opened X86
  import opened Machine
  import opened Encoders
  import opened Semantic
  import opened Analyzers
  import opened Globals
  import opened Callees
  import opened Soundness
  import opened Linking
  import opened CallSimulation
  import opened Divergence
  import opened Compiler
  import opened Driver
  import opened Annotation
  import opened Programs
  import opened Units
  import opened Acceptance
  import opened Freshness

  /** When all calls are known, every function that is called is in the program. */
  lemma {:induction false} KnownCalls(fs: seq<Func>)
    requires CallsKnown(fs, ProgramCalls(fs))
    ensures CallsDefined(ProgramOf(fs))
  {
    hide ProgramOf, CallsInBody;
    var q := ProgramOf(fs);
    ProgramHas(fs);
    forall fn | fn in q ensures NamesOf(CallsInBody(q[fn].body)) <= q.Keys {
      var i :| 0 <= i < |fs| && fs[i].name == fn && q[fn] == fs[i];
      CallsOfOne(fs, i);
    }
  }

  lemma {:induction false} CallsOfOne(fs: seq<Func>, i: nat)
    requires i < |fs|
    ensures forall c :: c in CallsInBody(fs[i].body) ==> c in ProgramCalls(fs)
    decreases |fs|
  {
    hide CallsInBody;
    if i < |fs| - 1 {
      CallsOfOne(fs[..|fs| - 1], i);
    }
  }

  /** The linked code of the program is in the image, and all its calls are to functions that it has. */
  ghost predicate BuiltAs(q: Program, image: seq<Byte>, addr: map<string, Word>) {
    LoweredProgram(q).Keys == q.Keys && Linked(image, LoweredProgram(q), addr) && CallsDefined(q)
  }

  /** What `fn` comes to, called as a C function with these arguments. */
  ghost predicate Entering(q: Program, addr: map<string, Word>, fn: string, args: seq<Word>, e: Cpu) {
    fn in q && |args| == |q[fn].params| && Entered(e, args) && fn in addr && e.pc == addr[fn]
  }

  /** The program as the analyser leaves it runs on its bytes. */
  lemma {:induction false} CheckedProgramRuns(files: seq<File>, hash: string -> nat, image: seq<Byte>,
                                              addr: map<string, Word>, fn: string, args: seq<Word>, e: Cpu, fuel: nat)
    returns (n: nat, m: Cpu)
    requires Accepted(files, hash) && Regulars(Definitions(files))
    requires BuiltAs(Compiling(files, hash), image, addr) && Entering(Compiling(files, hash), addr, fn, args, e)
    ensures var o := Invoke(Compiling(files, hash), fn, args, [], fuel);
            o != Stuck && (Final(o) ==> RunsTo(image, e, o, n, m))
  {
    hide Collect, Flatten, AllChecked, Regulars, AritiesAgree, CallsDefined, Linked, Entered, RunsTo, Invoke,
      ProgramOf,
      CheckFunc, LowerFunc, Analysed, DefinitionsOf, SigsOf, TypedFunc, LoweredProgram, DistinctNames;
    var ds := Definitions(files);
    var gs := Checked(ds, hash);
    var q := ProgramOf(gs);
    NamesDistinct(files, hash);
    AcceptedAnalysed(ds, hash);
    AcceptedAgrees(files, hash);
    AcceptedIsSound(ProgramOf(FuncsOf(ds)), q, hash, SigsOf(ds), fn, args, [], fuel);
    n, m := 0, e;
    if Final(Invoke(q, fn, args, [], fuel)) {
      CheckedTyped(ds, hash);
      n, m := BuiltProgramRuns(gs, image, addr, fn, args, e, fuel);
    }
  }

  lemma {:induction false} CheckedProgramDiverges(files: seq<File>, hash: string -> nat, image: seq<Byte>,
                                                  addr: map<string, Word>, fn: string, args: seq<Word>, e: Cpu)
    requires Accepted(files, hash) && Regulars(Definitions(files))
    requires BuiltAs(Compiling(files, hash), image, addr) && Entering(Compiling(files, hash), addr, fn, args, e)
    requires Diverges(Compiling(files, hash), fn, args)
    ensures NeverReturns(image, e)
  {
    hide Collect, Flatten, AllChecked, Regulars, AritiesAgree, CallsDefined, Linked, Entered, ProgramOf, CheckFunc,
      LowerFunc, DefinitionsOf, SigsOf, TypedFunc, LoweredProgram, DistinctNames, Diverges, NeverReturns;
    var ds := Definitions(files);
    NamesDistinct(files, hash);
    CheckedTyped(ds, hash);
    BuiltProgramDiverges(Checked(ds, hash), image, addr, fn, args, e);
  }

  function AnyHash(name: string): nat {
    0
  }

  lemma {:induction false} PremisesKept(files: seq<File>)
    requires Premises(All(files))
    ensures Regulars(Definitions(files))
  {
    hide All, Flatten, DefinitionsOf, Table, AllRegular, NamesIn;
    var ds := Definitions(files);
    forall l | 0 <= l < |ds| ensures AllRegular(ds[l].f.body) && ds[l].f.returnType != Void {
      var i, j := DefinitionFrom(files, l);
      AllHas(files, i, j);
      var k :| 0 <= k < |All(files)| && All(files)[k] == files[i][j];
      NoneIsRegular();
    }
  }

  lemma {:induction false} NoneIsRegular()
    ensures AllRegular([])
  {
  }

  /** The files, their program, and its linked code entered at a function. */
  ghost predicate Started(files: seq<File>, q: Program, image: seq<Byte>, addr: map<string, Word>, fn: string,
                          args: seq<Word>, e: Cpu) {
    && AllFresh(All(files)) && Premises(All(files)) && Coherent(All(files)) && Meant(files, q)
    && BuiltAs(q, image, addr) && Entering(q, addr, fn, args, e)
  }

  /**
    From the declarations to the processor. Let `q` be the program that the declarations of all
    files mean, and its linked code be in memory. Calling the machine code of any function,
    under the System V convention, comes back with the value that the function returns, or
    faults where it divides by zero or overflows in a division. The source is never stuck: a
    run that does neither is still going, or has run off the end of a function.
   */
  lemma {:induction false} AcceptedProgramRuns(files: seq<File>, q: Program, image: seq<Byte>, addr: map<string, Word>,
                                               fn: string, args: seq<Word>, e: Cpu, fuel: nat)
    returns (n: nat, m: Cpu)
    requires Started(files, q, image, addr, fn, args, e)
    ensures var o := Invoke(q, fn, args, [], fuel); o != Stuck && (Final(o) ==> RunsTo(image, e, o, n, m))
  {
    hide AllFresh, Premises, Coherent, Meant, BuiltAs, Entering, Accepted, Compiling, All, Definitions, Invoke, RunsTo,
      Regulars;
    AcceptedExactly(files, AnyHash, q);
    PremisesKept(files);
    n, m := CheckedProgramRuns(files, AnyHash, image, addr, fn, args, e, fuel);
  }

  /**
    The other half: a call that never ends in the source keeps the processor running for ever.
    With nothing to execute at the return address, and no run off the end of a function, the
    processor runs for ever exactly when the source does.
   */
  lemma {:induction false} AcceptedProgramRunsOn(files: seq<File>, q: Program, image: seq<Byte>,
                                                 addr: map<string, Word>, fn: string, args: seq<Word>, e: Cpu)
    requires Started(files, q, image, addr, fn, args, e)
    ensures Diverges(q, fn, args) ==> NeverReturns(image, e)
    ensures NoCodeAt(image, ReturnAddress(e)) && (forall fuel: nat :: !Invoke(q, fn, args, [], fuel).FellOff?)
            ==> (RunsForever(image, e) <==> Diverges(q, fn, args))
  {
    hide AllFresh, Premises, Coherent, Meant, BuiltAs, Entering, Accepted, Compiling, All, Definitions, Invoke,
      Regulars, Diverges, RunsForever, NoCodeAt;
    if Diverges(q, fn, args) {
      AcceptedExactly(files, AnyHash, q);
      PremisesKept(files);
      CheckedProgramDiverges(files, AnyHash, image, addr, fn, args, e);
    } else {
      var fuel := SettlingFuel(q, fn, args);
      var o := Invoke(q, fn, args, [], fuel);
      var n, m := AcceptedProgramRuns(files, q, image, addr, fn, args, e, fuel);
      if NoCodeAt(image, ReturnAddress(e)) && RunsForever(image, e) && Final(o) {
        ForeverInCode(image, e, n);
        EndedOutside(image, e, o, n, m);
      }
    }
  }

  lemma {:induction false} SettlingFuel(p: Program, fn: string, args: seq<Word>) returns (fuel: nat)
    requires !Diverges(p, fn, args)
    ensures Invoke(p, fn, args, [], fuel) != OutOfFuel
  {
    fuel :| Invoke(p, fn, args, [], fuel) != OutOfFuel;
  }

  /** A run that came back or faulted is not running in the code. */
  lemma {:induction false} EndedOutside(image: seq<Byte>, e: Cpu, o: Outcome, n: nat, m: Cpu)
    requires RunsTo(image, e, o, n, m) && NoCodeAt(image, ReturnAddress(e))
    ensures var s := Steps(image, Running(e), n); !(s.Running? && !NoCodeAt(image, s.cpu.pc))
  {
    hide Steps, NoCodeAt;
  }

  lemma {:induction false} CheckedTyped(ds: seq<Definition>, hash: string -> nat)
    requires AllChecked(ds, hash) && Regulars(ds)
    ensures forall i :: 0 <= i < |ds| ==> TypedFunc(Checked(ds, hash)[i])
  {
    hide CheckFunc, AllRegular, TypedFunc;
    forall i | 0 <= i < |ds| ensures TypedFunc(Checked(ds, hash)[i]) {
      AcceptedIsTyped(ds[i].f, hash, ds[i].sig);
    }
  }

  // --- The compiler as it works ----------------------------------------------------------------

  /** Analyses all definitions, those after a failure too. */
  method AnalyzeAll(ds: seq<Definition>, hash: string -> nat) returns (allOk: bool, fs: seq<Func>)
    ensures allOk <==> AllChecked(ds, hash)
    ensures fs == Checked(ds, hash)
  {
    hide CheckFunc;
    allOk, fs := true, [];
    for i := 0 to |ds|
      invariant allOk <==> AllChecked(ds[..i], hash)
      invariant fs == Checked(ds[..i], hash)
    {
      var sa := new SemanticAnalyzer(hash, ds[i].sig);
      var ok, f := sa.AnalyzeFunction(ds[i].f);
      assert ds[..i + 1] == ds[..i] + [ds[i]];
      MoreChecked(ds[..i], ds[i], hash);
      allOk := allOk && ok;
      fs := fs + [f];
    }
    assert ds[..|ds|] == ds;
  }

  lemma {:induction false} MoreChecked(ds: seq<Definition>, d: Definition, hash: string -> nat)
    ensures AllChecked(ds + [d], hash) <==> AllChecked(ds, hash) && CheckFunc(d.f, hash, d.sig).0
    ensures Checked(ds + [d], hash) == Checked(ds, hash) + [CheckFunc(d.f, hash, d.sig).1]
  {
    hide CheckFunc;
    var ds1 := ds + [d];
    if AllChecked(ds1, hash) {
      assert ds1[|ds|] == d;
      assert forall i :: 0 <= i < |ds| ==> ds1[i] == ds[i];
    }
    assert forall i :: 0 <= i < |ds| ==> ds1[i] == ds[i];
  }

  /** What is compiled: every definition, as the analyser leaves it. */
  function ToCompile(files: seq<File>, hash: string -> nat): seq<Func> {
    Checked(Definitions(files), hash)
  }

  /** Everything succeeds: analysis, generation, compilation within the memory, and linking. */
  predicate Succeeds(files: seq<File>, hash: string -> nat, capacity: nat) {
    && Accepted(files, hash) && CanCompile(ToCompile(files, hash), capacity)
    && CallsKnown(ToCompile(files, hash), Recorded(ProgramCalls(ToCompile(files, hash))))
  }

  /** No call site is dropped. */
  predicate AllRecorded(files: seq<File>, hash: string -> nat) {
    |ProgramCalls(ToCompile(files, hash))| <= MAX_CALL_SITES
  }

  /**
    The whole compiler after parsing: collects the declarations of all files, analyses every
    body, and builds. It succeeds exactly as the predicate says; what it then leaves in memory
    is code that runs as the source says, by `AcceptedProgramRuns`, unless call sites were
    dropped for want of room.
   */
  method CompileFiles(files: seq<File>, hash: string -> nat, capacity: nat, imageBase: nat)
    returns (ok: bool, memory: seq<Byte>, registry: seq<CompiledFunction>)
    requires imageBase + capacity <= MAX64 && imageBase % STACK_ALIGNMENT == 0
    ensures ok <==> Succeeds(files, hash, capacity)
    ensures ok && AllRecorded(files, hash) ==>
              BuiltAs(Compiling(files, hash), Image(imageBase, memory), Addresses(registry))
    ensures ok && AllFresh(All(files)) ==> Coherent(All(files)) && Meant(files, Compiling(files, hash))
  {
    hide Collect, Flatten, CheckFunc, DefinitionsOf, ProgramOf, Linked, Addresses, LoweredProgram, Image,
      DistinctNames, Checked, AllChecked, Consistent, CanCompile, CallsKnown, ProgramCalls, CallsDefined;
    memory, registry := [], [];
    var global := new GlobalScope();
    var ps := Flatten(files);
    ok := global.CollectAll(DeclsOf(ps));
    if !ok {
      return;
    }
    var ds := DefinitionsOf(ps, global.functions);
    var fs: seq<Func>;
    ok, fs := AnalyzeAll(ds, hash);
    if !ok {
      return;
    }
    NamesDistinct(files, hash);
    ok, memory, registry := Build(fs, hash, capacity, imageBase);
    if ok && AllRecorded(files, hash) {
      KnownCalls(fs);
    }
    if ok && AllFresh(All(files)) {
      AcceptedExactly(files, hash, Compiling(files, hash));
    }
  }

  // --- From the characters of all files ----------------------------------------------------------

  /** The declarations that were parsed. */
  function DeclarationsOf(ds: seq<ParsedDecl>): File
    requires AllWhole(ds)
  {
    seq(|ds|, i requires 0 <= i < |ds| => ds[i].d)
  }

  /** Parsing comes to declarations, none of them missing or with a hole in it, whatever errors it reports. */
  predicate Readable(text: string) {
    var r := ReadTokens(TokensOf(text));
    r.Read? && AllWhole(r.ds)
  }

  /** The text is read as these declarations. */
  ghost predicate ReadAs(text: string, file: File) {
    Readable(text) && file == DeclarationsOf(ReadTokens(TokensOf(text)).ds)
  }

  /** Every file within the parser's limits has a text that is read as it. */
  lemma {:induction false} PrintedIsRead(file: File)
    requires |file| <= MAX_FUNCTION_COUNT
    requires forall i :: 0 <= i < |file| ==> Printing.DeclFits(file[i]) && TextRoundTrip.DeclNamed(file[i])
    ensures ReadAs(Spell(Printing.PrintUnit(file)), file) && !ErrorIn(Spell(Printing.PrintUnit(file)))
  {
    hide ReadTokens, TokensOf, Spell, Printing.PrintUnit, Printing.DeclFits, TextRoundTrip.DeclNamed;
    TextRoundTrip.TextComesBack(file);
    WholeIsRead(file);
  }

  lemma {:induction false} WholeIsRead(file: File)
    ensures AllWhole(Printing.WholeDecls(file)) && DeclarationsOf(Printing.WholeDecls(file)) == file
    decreases |file|
  {
    var ds := Printing.WholeDecls(file);
    if file != [] {
      WholeIsRead(file[1..]);
      var rest := Printing.WholeDecls(file[1..]);
      assert ds == [DeclNode(file[0], true)] + rest;
      assert DeclarationsOf(ds) == [file[0]] + DeclarationsOf(rest);
    }
  }

  /** The declarations of a text that is read. */
  function FileOf(text: string): File {
    if Readable(text) then DeclarationsOf(ReadTokens(TokensOf(text)).ds) else []
  }

  function FilesOf(texts: seq<string>): seq<File> {
    seq(|texts|, i requires 0 <= i < |texts| => FileOf(texts[i]))
  }

  /** The parser breaks down on the text, or reports an error. */
  predicate ErrorIn(text: string) {
    var r := ReadTokens(TokensOf(text));
    r.Broken? || r.errors > 0
  }

  /** Without an error there is no hole. */
  lemma {:induction false} ErrorFreeIsReadable(text: string)
    requires !ErrorIn(text)
    ensures Readable(text)
  {
    hide ReadTokens, TokensOf;
    ErrorFreeIsWhole(TokensOf(text));
  }

  /** Parses all files. Errors are reported; what stops the compiler is a file without a tree. */
  method ParseAll(texts: seq<string>) returns (ok: bool, files: seq<File>)
    ensures ok <==> forall i :: 0 <= i < |texts| ==> Readable(texts[i])
    ensures ok ==> files == FilesOf(texts)
  {
    hide ReadTokens, TokensOf, FileOf, Readable, AllWhole;
    ok, files := true, [];
    for i := 0 to |texts|
      invariant ok <==> forall k :: 0 <= k < i ==> Readable(texts[k])
      invariant ok ==> |files| == i && forall k :: 0 <= k < i ==> files[k] == FileOf(texts[k])
    {
      var r := ParseText(texts[i]);
      ReadableMeans(texts[i]);
      if !r.Read? || !AllWhole(r.ds) {
        ok := false;
      } else if ok {
        files := files + [DeclarationsOf(r.ds)];
      }
    }
  }

  lemma {:induction false} ReadableMeans(text: string)
    ensures var r := ReadTokens(TokensOf(text));
            && (Readable(text) <==> r.Read? && AllWhole(r.ds))
            && (Readable(text) ==> FileOf(text) == DeclarationsOf(r.ds) && ReadAs(text, FileOf(text)))
  {
    hide ReadTokens, TokensOf, AllWhole;
  }

  /**
    From characters to running code: it succeeds exactly when every file is read, with or without
    errors, and collecting, analysing, compiling and linking succeed. Then the code of the program
    that the characters spell is in memory, and runs as `AcceptedProgramRuns` says.
   */
  method CompileTexts(texts: seq<string>, hash: string -> nat, capacity: nat, imageBase: nat)
    returns (ok: bool, files: seq<File>, memory: seq<Byte>, registry: seq<CompiledFunction>)
    requires imageBase + capacity <= MAX64 && imageBase % STACK_ALIGNMENT == 0
    ensures ok <==> (forall i :: 0 <= i < |texts| ==> Readable(texts[i])) && Succeeds(FilesOf(texts), hash, capacity)
    ensures ok ==> files == FilesOf(texts) && forall i :: 0 <= i < |texts| ==> ReadAs(texts[i], files[i])
    ensures ok ==> AllFresh(All(files)) && Coherent(All(files)) && Meant(files, Compiling(files, hash))
    ensures ok && AllRecorded(files, hash) ==>
              BuiltAs(Compiling(files, hash), Image(imageBase, memory), Addresses(registry))
  {
    hide AllFresh, Coherent, Meant, All, Succeeds, BuiltAs, Compiling, Image, Addresses, ReadAs, AllRecorded,
      Readable, FileOf;
    ok, files := ParseAll(texts);
    if !ok {
      return false, files, [], [];
    }
    forall i | 0 <= i < |texts| ensures ReadAs(texts[i], files[i]) {
      ReadableMeans(texts[i]);
    }
    AllRead(texts);
    ok, memory, registry := CompileFiles(files, hash, capacity, imageBase);
  }

  lemma {:induction false} FileFresh(text: string)
    ensures AllFresh(FileOf(text))
  {
    hide ReadTokens, TokensOf, Fresh;
    ReadFresh(TokensOf(text));
    var r := ReadTokens(TokensOf(text));
    if Readable(text) {
      forall i | 0 <= i < |FileOf(text)| ensures Fresh(FileOf(text)[i]) {
        assert DeclWhole(r.ds[i]) && FreshDecl(r.ds[i]);
      }
    }
  }

  /** All that is read is as the parser builds it. */
  lemma {:induction false} AllRead(texts: seq<string>)
    ensures AllFresh(All(FilesOf(texts)))
  {
    hide FileOf, Fresh, All;
    var files := FilesOf(texts);
    forall k | 0 <= k < |All(files)| ensures Fresh(All(files)[k]) {
      var i, j := PlaceOf(files, k);
      FileFresh(texts[i]);
    }
  }
}
