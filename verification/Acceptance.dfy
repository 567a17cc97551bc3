/**
  Acceptance, exactly: the declarations of all files are accepted if and only if they are
  coherent and mean a program; and that program, which is the only one, is what is compiled.
 */
module Acceptance {
  import opened Words
  import opened Ast
  import opened Parsing
  import opened Source
  import opened Semantic
  import opened Globals
  import opened Annotation
  import opened Programs
  import opened Driver
  import opened Units

  // --- Places in the list of all declarations ------------------------------------------------

  lemma {:induction false} FlattenAll(files: seq<File>)
    ensures |Flatten(files)| == |All(files)|
    ensures forall k :: 0 <= k < |All(files)| ==> Flatten(files)[k].d == All(files)[k]
  {
    if files != [] {
      FlattenAll(files[1..]);
    }
  }

  lemma {:induction false} FlattenFrom(files: seq<File>, k: nat) returns (i: nat, j: nat)
    requires k < |Flatten(files)|
    ensures i < |files| && j < |files[i]| && Flatten(files)[k] == Placed(files[i][j], NamesIn(files[i]))
  {
    hide NamesIn;
    if k < |files[0]| {
      i, j := 0, k;
    } else {
      i, j := FlattenFrom(files[1..], k - |files[0]|);
      i := i + 1;
    }
  }

  lemma {:induction false} FlattenAt(files: seq<File>, i: nat, j: nat) returns (k: nat)
    requires i < |files| && j < |files[i]|
    ensures k < |Flatten(files)| && Flatten(files)[k] == Placed(files[i][j], NamesIn(files[i]))
    decreases i
  {
    hide NamesIn;
    if i == 0 {
      k := j;
    } else {
      k := FlattenAt(files[1..], i - 1, j);
      k := k + |files[0]|;
    }
  }

  lemma {:induction false} DefinitionAt(ps: seq<Placed>, table: seq<FunctionInfo>, k: nat) returns (l: nat)
    requires k < |ps| && ps[k].d.body.Some?
    ensures l < |DefinitionsOf(ps, table)|
    ensures DefinitionsOf(ps, table)[l] == Definition(FuncOf(ps[k].d), Signatures(ps[k].visible, table))
    decreases k
  {
    hide FuncOf;
    if k == 0 {
      l := 0;
    } else {
      l := DefinitionAt(ps[1..], table, k - 1);
      l := if ps[0].d.body.Some? then l + 1 else l;
    }
  }

  // --- Collection --------------------------------------------------------------------------

  lemma {:induction false} DeclAt(files: seq<File>, k: nat)
    requires k < |All(files)|
    ensures |DeclsOf(Flatten(files))| == |All(files)| && DeclsOf(Flatten(files))[k] == InfoOf(All(files)[k])
  {
    hide InfoOf, Flatten;
    FlattenAll(files);
  }

  /** The declarations are coherent exactly if they are collected without an error. */
  lemma {:induction false} CoherentIsCollected(files: seq<File>)
    ensures Coherent(All(files)) <==> Collect(DeclsOf(Flatten(files))).0
  {
    hide Collect, Flatten, All, Names, NamesDeclared, Agreeing, Together;
    var all, ds := All(files), DeclsOf(Flatten(files));
    CollectsConsistent(ds);
    SameNamesDeclared(files);
    FlattenAll(files);
    forall i, j | 0 <= i < j < |all| ensures Agreeing(ds[i], ds[j]) <==> Together(all[i], all[j]) {
      SameTogether(files, i, j);
    }
    forall k | 0 <= k < |all| ensures |ds[k].params| == |all[k].params| {
      DeclAt(files, k);
    }
  }

  lemma {:induction false} SameTogether(files: seq<File>, i: nat, j: nat)
    requires i < |All(files)| && j < |All(files)|
    ensures |DeclsOf(Flatten(files))| == |All(files)|
    ensures Agreeing(DeclsOf(Flatten(files))[i], DeclsOf(Flatten(files))[j]) <==> Together(All(files)[i], All(files)[j])
  {
    hide Flatten, All, DeclsOf;
    DeclAt(files, i);
    DeclAt(files, j);
  }

  lemma {:induction false} SameNamesDeclared(files: seq<File>)
    ensures Names(DeclsOf(Flatten(files))) == NamesDeclared(All(files))
  {
    hide Flatten, All, DeclsOf;
    var all, ds := All(files), DeclsOf(Flatten(files));
    FlattenAll(files);
    forall name | name in Names(ds) ensures name in NamesDeclared(all) {
      var d :| d in ds && d.name == name;
      var k :| 0 <= k < |ds| && ds[k] == d;
      DeclsLength(files);
      DeclAt(files, k);
      assert all[k].name == name;
    }
    forall name | name in NamesDeclared(all) ensures name in Names(ds) {
      var d :| d in all && d.name == name;
      var k :| 0 <= k < |all| && all[k] == d;
      DeclAt(files, k);
      assert ds[k].name == name;
    }
  }

  lemma {:induction false} DeclsLength(files: seq<File>)
    ensures |DeclsOf(Flatten(files))| == |All(files)|
  {
    FlattenAll(files);
  }

  // --- What a file sees ----------------------------------------------------------------------

  lemma {:induction false} SpokenAt(all: File, name: string) returns (k: nat)
    requires Spoken(all, name).Some?
    ensures k < |all| && all[k] == Spoken(all, name).value && all[k].name == name
    ensures all[k].body.Some? || forall j :: 0 <= j < |all| && all[j].name == name ==> all[j].body.None? && k <= j
  {
    FirstNone(all, name, true);
    k := FirstAt(all, name, First(all, name, true).Some?);
  }

  /** The table has, for each name, what the declaration says that speaks for it. */
  lemma {:induction false} TableIsSpoken(files: seq<File>, name: string)
    requires Collect(DeclsOf(Flatten(files))).0
    ensures LookupFunction(Table(files), name).Some? <==> Spoken(All(files), name).Some?
    ensures Spoken(All(files), name).Some? ==>
              var d, r := Spoken(All(files), name).value, LookupFunction(Table(files), name).value;
              r.returnType == d.returnType && r.params == d.params
  {
    hide Collect, LookupFunction, Flatten, All, DeclsOf;
    var all, ds := All(files), DeclsOf(Flatten(files));
    DeclsLength(files);
    TableNames(ds, name);
    FirstNone(all, name, true);
    FirstNone(all, name, false);
    if Spoken(all, name).Some? {
      var k := SpokenAt(all, name);
      DeclAt(files, k);
      assert Speaks(ds, k) by {
        forall j | 0 <= j < |ds| ensures ds[j] == InfoOf(all[j]) {
          DeclAt(files, j);
        }
      }
      TableSpeaks(ds, k);
    }
    if LookupFunction(Table(files), name).Some? {
      var k :| 0 <= k < |ds| && ds[k].name == name;
      DeclAt(files, k);
      assert all[k].name == name;
    }
  }

  lemma {:induction false} NamesListed(file: File, name: string)
    ensures name in NamesIn(file) <==> name in NamesDeclared(file)
  {
    if name in NamesIn(file) {
      var i :| 0 <= i < |NamesIn(file)| && NamesIn(file)[i] == name;
      assert file[i].name == name;
    }
    if name in NamesDeclared(file) {
      var d :| d in file && d.name == name;
      var i :| 0 <= i < |file| && file[i] == d;
      assert NamesIn(file)[i] == name;
    }
  }

  /** The signatures that bodies are analysed with show what their file sees. */
  lemma {:induction false} SightAgrees(files: seq<File>, file: File)
    requires Collect(DeclsOf(Flatten(files))).0
    ensures SightOf(Signatures(NamesIn(file), Table(files))) == SightIn(file, All(files))
  {
    hide Collect, LookupFunction, Flatten, All, DeclsOf, Table, Spoken, SightOf, NamesIn, NamesDeclared;
    var sig := Signatures(NamesIn(file), Table(files));
    var s, t := SightOf(sig), SightIn(file, All(files));
    forall name ensures name in s <==> name in t
      ensures name in t ==> s[name] == t[name]
    {
      SightIs(sig, name);
      NamesListed(file, name);
      TableIsSpoken(files, name);
    }
  }

  // --- Bodies --------------------------------------------------------------------------------

  lemma {:induction false} FuncIsFresh(d: Declaration)
    requires d.body.Some? && Fresh(d)
    ensures EraseFunc(FuncOf(d)) == FuncOf(d)
  {
  }

  /** The analyser accepts a body with the result `g` exactly if `g` realizes the declaration. */
  lemma {:induction false} RealizesExactly(d: Declaration, hash: string -> nat, sig: Signatures, g: Func)
    requires d.body.Some? && Fresh(d)
    ensures CheckFunc(FuncOf(d), hash, sig).0 && g == CheckFunc(FuncOf(d), hash, sig).1 <==>
            Realizes(g, d, SightOf(sig))
  {
    hide CheckFunc, WellFunc, SightOf, EraseStmts;
    FuncIsFresh(d);
    AcceptsExactly(FuncOf(d), hash, sig, g);
    assert EraseStmts([]) == [];
    NothingErased(g.body);
  }

  lemma {:induction false} NothingErased(ss: seq<Stmt>)
    ensures EraseStmts(ss) == [] <==> ss == []
  {
  }

  // --- Programs ------------------------------------------------------------------------------

  /** The declaration that a definition comes from, and the file it stands in. */
  ghost predicate ComesFrom(f: Definition, files: seq<File>, i: nat, j: nat) {
    && i < |files| && j < |files[i]| && files[i][j].body.Some?
    && f == Definition(FuncOf(files[i][j]), Signatures(NamesIn(files[i]), Table(files)))
  }

  lemma {:induction false} DefinitionFrom(files: seq<File>, l: nat) returns (i: nat, j: nat)
    requires l < |Definitions(files)|
    ensures ComesFrom(Definitions(files)[l], files, i, j)
  {
    hide Flatten, DefinitionsOf, Table, FuncOf, NamesIn;
    var k := DefinedAt(Flatten(files), Table(files), l);
    i, j := FlattenFrom(files, k);
  }

  lemma {:induction false} DefinitionTo(files: seq<File>, i: nat, j: nat) returns (l: nat)
    requires i < |files| && j < |files[i]| && files[i][j].body.Some?
    ensures l < |Definitions(files)| && ComesFrom(Definitions(files)[l], files, i, j)
  {
    hide Flatten, DefinitionsOf, Table, FuncOf, NamesIn;
    var k := FlattenAt(files, i, j);
    l := DefinitionAt(Flatten(files), Table(files), k);
  }

  lemma {:induction false} FreshAt(files: seq<File>, i: nat, j: nat)
    requires AllFresh(All(files)) && i < |files| && j < |files[i]|
    ensures Fresh(files[i][j])
  {
    hide Fresh, All;
    AllHas(files, i, j);
    var k :| 0 <= k < |All(files)| && All(files)[k] == files[i][j];
  }

  /** A definition is accepted with the result `g` exactly if `g` realizes its declaration. */
  lemma {:induction false} DefinitionExactly(files: seq<File>, hash: string -> nat, l: nat, i: nat, j: nat, g: Func)
    requires AllFresh(All(files)) && Collect(DeclsOf(Flatten(files))).0
    requires l < |Definitions(files)| && ComesFrom(Definitions(files)[l], files, i, j)
    ensures var f := Definitions(files)[l];
            CheckFunc(f.f, hash, f.sig).0 && g == CheckFunc(f.f, hash, f.sig).1 <==>
            Realizes(g, files[i][j], SightIn(files[i], All(files)))
  {
    hide Collect, Flatten, DefinitionsOf, Table, All, Realizes, SightIn, SightOf, NamesIn, CheckFunc, Fresh;
    FreshAt(files, i, j);
    SightAgrees(files, files[i]);
    RealizesExactly(files[i][j], hash, Definitions(files)[l].sig, g);
  }

  lemma {:induction false} CompiledFunction(files: seq<File>, hash: string -> nat, l: nat)
    requires Collect(DeclsOf(Flatten(files))).0 && l < |Definitions(files)|
    ensures var f, q := Definitions(files)[l], Compiling(files, hash);
            f.f.name in q && q[f.f.name] == CheckFunc(f.f, hash, f.sig).1
  {
    hide Collect, Flatten, DefinitionsOf, CheckFunc, ProgramOf, DistinctNames;
    NamesDistinct(files, hash);
    CheckedNames(Definitions(files), hash);
    InProgram(Checked(Definitions(files), hash), l);
  }

  lemma {:induction false} CompiledFrom(files: seq<File>, hash: string -> nat, name: string) returns (l: nat)
    requires name in Compiling(files, hash)
    ensures l < |Definitions(files)| && Definitions(files)[l].f.name == name
  {
    hide Definitions, CheckFunc, ProgramOf;
    var gs := Checked(Definitions(files), hash);
    ProgramHas(gs);
    CheckedNames(Definitions(files), hash);
    l :| 0 <= l < |gs| && gs[l].name == name;
  }

  lemma {:induction false} FuncName(d: Declaration)
    requires d.body.Some?
    ensures FuncOf(d).name == d.name
  {
  }

  lemma {:induction false} AcceptedIsMeant(files: seq<File>, hash: string -> nat)
    requires AllFresh(All(files)) && Accepted(files, hash)
    ensures Meant(files, Compiling(files, hash))
  {
    hide Collect, Flatten, Definitions, CheckFunc, Compiling, AllFresh, All, Realizes, SightIn, FuncOf, Table, NamesIn;
    var q := Compiling(files, hash);
    forall name | name in q ensures Defines(All(files), name) {
      var l := CompiledFrom(files, hash, name);
      var i, j := DefinitionFrom(files, l);
      FuncName(files[i][j]);
      AllHas(files, i, j);
    }
    forall i, j | 0 <= i < |files| && 0 <= j < |files[i]| && files[i][j].body.Some?
      ensures files[i][j].name in q && Realizes(q[files[i][j].name], files[i][j], SightIn(files[i], All(files)))
    {
      var l := DefinitionTo(files, i, j);
      FuncName(files[i][j]);
      CompiledFunction(files, hash, l);
      DefinitionExactly(files, hash, l, i, j, q[files[i][j].name]);
    }
  }

  /** A definition's function in a program that is meant is what the analyser makes of it. */
  lemma {:induction false} MeantIsChecked(files: seq<File>, hash: string -> nat, q: Program, l: nat)
    requires AllFresh(All(files)) && Collect(DeclsOf(Flatten(files))).0 && Meant(files, q) && l < |Definitions(files)|
    ensures var f := Definitions(files)[l];
            f.f.name in q && CheckFunc(f.f, hash, f.sig).0 && q[f.f.name] == CheckFunc(f.f, hash, f.sig).1
  {
    hide Collect, Flatten, Definitions, CheckFunc, AllFresh, All, Realizes, SightIn, FuncOf, Table, NamesIn;
    var i, j := DefinitionFrom(files, l);
    FuncName(files[i][j]);
    DefinitionExactly(files, hash, l, i, j, q[files[i][j].name]);
  }

  lemma {:induction false} MeantIsAccepted(files: seq<File>, hash: string -> nat, q: Program)
    requires AllFresh(All(files)) && Coherent(All(files)) && Meant(files, q)
    ensures Accepted(files, hash) && q == Compiling(files, hash)
  {
    hide Collect, Flatten, Definitions, CheckFunc, Compiling, AllFresh, All, Realizes, SightIn, FuncOf, Coherent, Table,
      NamesIn;
    CoherentIsCollected(files);
    var ds, q1 := Definitions(files), Compiling(files, hash);
    forall l | 0 <= l < |ds| ensures CheckFunc(ds[l].f, hash, ds[l].sig).0 {
      MeantIsChecked(files, hash, q, l);
    }
    forall name | name in q1 ensures name in q && q[name] == q1[name] {
      var l := CompiledFrom(files, hash, name);
      CompiledFunction(files, hash, l);
      MeantIsChecked(files, hash, q, l);
    }
    forall name | name in q ensures name in q1 {
      var k := DefinedPlace(files, name);
      var i, j := PlaceOf(files, k);
      var l := DefinitionTo(files, i, j);
      FuncName(files[i][j]);
      CompiledFunction(files, hash, l);
    }
  }

  lemma {:induction false} DefinedPlace(files: seq<File>, name: string) returns (k: nat)
    requires Defines(All(files), name)
    ensures k < |All(files)| && All(files)[k].name == name && All(files)[k].body.Some?
  {
    hide All;
    var d :| d in All(files) && d.name == name && d.body.Some?;
    k :| 0 <= k < |All(files)| && All(files)[k] == d;
  }

  /**
    The analyser as a whole. Whatever the hash function, it accepts the declarations of all
    files exactly when they are coherent and some program is what they mean; that program is
    the one that is compiled.
   */
  lemma {:induction false} AcceptedExactly(files: seq<File>, hash: string -> nat, q: Program)
    requires AllFresh(All(files))
    ensures Accepted(files, hash) && q == Compiling(files, hash) <==> Coherent(All(files)) && Meant(files, q)
  {
    hide Collect, Flatten, AllChecked, Compiling, AllFresh, All, Meant, Coherent;
    CoherentIsCollected(files);
    if Accepted(files, hash) {
      AcceptedIsMeant(files, hash);
    }
    if Coherent(All(files)) && Meant(files, q) {
      MeantIsAccepted(files, hash, q);
    }
  }
}
