/** From the declarations of all files to the functions that the analyser leaves. */
module Units {
  import opened Words
  import opened Ast
  import opened Parsing
  import opened Source
  import opened Typing
  import opened Semantic
  import opened Globals
  import opened Soundness
  import opened Annotation
  import opened Programs
  import opened Driver

  // --- Files --------------------------------------------------------------------------------

  /** A declaration, and the names that its file declares. */
  datatype Placed = Placed(d: Declaration, visible: seq<string>)

  /** A definition, and the signatures that its body is analysed with. */
  datatype Definition = Definition(f: Func, sig: Signatures)

  function NamesIn(file: File): seq<string> {
    seq(|file|, i requires 0 <= i < |file| => file[i].name)
  }

  /** All declarations, file by file. */
  function Flatten(files: seq<File>): seq<Placed> {
    if files == [] then []
    else
      var file := files[0];
      seq(|file|, i requires 0 <= i < |file| => Placed(file[i], NamesIn(file))) + Flatten(files[1..])
  }

  function InfoOf(d: Declaration): Decl {
    FunctionInfo(d.name, d.returnType, d.params, d.body.None?)
  }

  function DeclsOf(ps: seq<Placed>): seq<Decl> {
    seq(|ps|, i requires 0 <= i < |ps| => InfoOf(ps[i].d))
  }

  /** The statements of a function are those of its block. */
  function FuncOf(d: Declaration): Func
    requires d.body.Some?
  {
    Func(d.name, d.returnType, d.params, if d.body.value.Block? then d.body.value.stmts else [])
  }

  /** The definitions among the declarations, in order. */
  function DefinitionsOf(ps: seq<Placed>, table: seq<FunctionInfo>): seq<Definition> {
    if ps == [] then []
    else
      (if ps[0].d.body.Some? then [Definition(FuncOf(ps[0].d), Signatures(ps[0].visible, table))] else [])
      + DefinitionsOf(ps[1..], table)
  }

  function Table(files: seq<File>): seq<FunctionInfo> {
    Collect(DeclsOf(Flatten(files))).1
  }

  function Definitions(files: seq<File>): seq<Definition> {
    DefinitionsOf(Flatten(files), Table(files))
  }

  function FuncsOf(ds: seq<Definition>): seq<Func> {
    seq(|ds|, i requires 0 <= i < |ds| => ds[i].f)
  }

  /** Every function, as the analyser leaves it. */
  function Checked(ds: seq<Definition>, hash: string -> nat): seq<Func> {
    seq(|ds|, i requires 0 <= i < |ds| => CheckFunc(ds[i].f, hash, ds[i].sig).1)
  }

  /** The program that is compiled. */
  function Compiling(files: seq<File>, hash: string -> nat): Program {
    ProgramOf(Checked(Definitions(files), hash))
  }

  predicate AllChecked(ds: seq<Definition>, hash: string -> nat) {
    forall i :: 0 <= i < |ds| ==> CheckFunc(ds[i].f, hash, ds[i].sig).0
  }

  /** The declarations are collected and the bodies analysed without an error. */
  predicate Accepted(files: seq<File>, hash: string -> nat) {
    Collect(DeclsOf(Flatten(files))).0 && AllChecked(Definitions(files), hash)
  }

  /** The premises of lowering, and that functions return values. */
  ghost predicate Regulars(ds: seq<Definition>) {
    forall i :: 0 <= i < |ds| ==> AllRegular(ds[i].f.body) && ds[i].f.returnType != Void
  }

  // --- What collection gives ------------------------------------------------------------------

  predicate IsDefinition(d: Definition, p: Placed, table: seq<FunctionInfo>) {
    p.d.body.Some? && d == Definition(FuncOf(p.d), Signatures(p.visible, table))
  }

  lemma {:induction false} DefinedAt(ps: seq<Placed>, table: seq<FunctionInfo>, k: nat) returns (i: nat)
    requires k < |DefinitionsOf(ps, table)|
    ensures i < |ps| && IsDefinition(DefinitionsOf(ps, table)[k], ps[i], table)
    decreases |ps|
  {
    hide FuncOf;
    if ps[0].d.body.Some? && k == 0 {
      i := 0;
    } else {
      var j := DefinedAt(ps[1..], table, if ps[0].d.body.Some? then k - 1 else k);
      i := j + 1;
    }
  }

  /** At most one of two declarations of a name has a body. */
  predicate OneBodyEach(ps: seq<Placed>) {
    forall i, j :: 0 <= i < j < |ps| && ps[i].d.name == ps[j].d.name ==> ps[i].d.body.None? || ps[j].d.body.None?
  }

  lemma {:induction false} DefinitionsDistinct(ps: seq<Placed>, table: seq<FunctionInfo>)
    requires OneBodyEach(ps)
    ensures DistinctNames(FuncsOf(DefinitionsOf(ps, table)))
    decreases |ps|
  {
    if ps != [] {
      var ds := DefinitionsOf(ps, table);
      var rest := DefinitionsOf(ps[1..], table);
      assert OneBodyEach(ps[1..]);
      DefinitionsDistinct(ps[1..], table);
      if ps[0].d.body.Some? {
        forall i, k | 0 <= i < k < |ds| ensures ds[i].f.name != ds[k].f.name {
          assert ds[k] == rest[k - 1];
          if i == 0 {
            var j := DefinedAt(ps[1..], table, k - 1);
            assert ps[1..][j] == ps[j + 1];
          } else {
            assert FuncsOf(rest)[i - 1].name != FuncsOf(rest)[k - 1].name;
          }
        }
      } else {
        assert ds == rest;
      }
    }
  }

  lemma {:induction false} CollectedOnce(ps: seq<Placed>)
    requires Collect(DeclsOf(ps)).0
    ensures OneBodyEach(ps)
  {
    hide Collect;
    var ds := DeclsOf(ps);
    forall i, j | 0 <= i < j < |ps| && ps[i].d.name == ps[j].d.name ensures ps[i].d.body.None? || ps[j].d.body.None? {
      assert ds[i] == InfoOf(ps[i].d) && ds[j] == InfoOf(ps[j].d);
      OneDefinition(ds, i, j);
    }
  }

  /** The table has the arity of every definition. */
  lemma {:induction false} TableKnows(files: seq<File>, k: nat)
    requires Collect(DeclsOf(Flatten(files))).0 && k < |Definitions(files)|
    ensures var f := Definitions(files)[k].f;
            var r := LookupFunction(Table(files), f.name);
            Definitions(files)[k].sig.functions == Table(files) && r.Some? && |r.value.params| == |f.params|
  {
    hide Collect, LookupFunction, Flatten, DefinitionsOf;
    var ps := Flatten(files);
    var i := DefinedAt(ps, Table(files), k);
    assert DeclsOf(ps)[i] == InfoOf(ps[i].d);
    LookupCollected(DeclsOf(ps), InfoOf(ps[i].d));
  }

  lemma {:induction false} NamesDistinct(files: seq<File>, hash: string -> nat)
    requires Collect(DeclsOf(Flatten(files))).0
    ensures DistinctNames(FuncsOf(Definitions(files))) && DistinctNames(Checked(Definitions(files), hash))
  {
    hide Collect, Flatten, CheckFunc, DefinitionsOf;
    CollectedOnce(Flatten(files));
    DefinitionsDistinct(Flatten(files), Table(files));
    CheckedNames(Definitions(files), hash);
    var fs, gs := FuncsOf(Definitions(files)), Checked(Definitions(files), hash);
    assert forall i :: 0 <= i < |gs| ==> gs[i].name == fs[i].name;
  }

  lemma {:induction false} CheckedNames(ds: seq<Definition>, hash: string -> nat)
    ensures |Checked(ds, hash)| == |ds|
    ensures forall i :: 0 <= i < |ds| ==> Checked(ds, hash)[i].name == ds[i].f.name
    ensures forall i :: 0 <= i < |ds| ==> Checked(ds, hash)[i].params == ds[i].f.params
  {
    hide CheckStmts, CheckParams;
  }

  // --- The program as the analyser leaves it ------------------------------------------------------

  /** The signatures that the function of this name is analysed with. */
  function SigFor(ds: seq<Definition>, name: string): Signatures {
    if ds == [] then Signatures([], []) else if ds[0].f.name == name then ds[0].sig else SigFor(ds[1..], name)
  }

  function SigsOf(ds: seq<Definition>): SignaturesOf {
    map fn | fn in ProgramOf(FuncsOf(ds)) :: SigFor(ds, fn)
  }

  lemma {:induction false} SigForAt(ds: seq<Definition>, i: nat)
    requires i < |ds| && forall k :: 0 <= k < i ==> ds[k].f.name != ds[i].f.name
    ensures SigFor(ds, ds[i].f.name) == ds[i].sig
    decreases i
  {
    if i > 0 {
      SigForAt(ds[1..], i - 1);
    }
  }

  /** The definition of a name, which is the only one. */
  lemma {:induction false} DefinitionOf(ds: seq<Definition>, hash: string -> nat, fn: string) returns (i: nat)
    requires DistinctNames(FuncsOf(ds)) && fn in ProgramOf(FuncsOf(ds))
    ensures i < |ds| && ds[i].f.name == fn && ProgramOf(FuncsOf(ds))[fn] == ds[i].f && SigsOf(ds)[fn] == ds[i].sig
    ensures fn in ProgramOf(Checked(ds, hash)) && ProgramOf(Checked(ds, hash))[fn] == Checked(ds, hash)[i]
  {
    hide CheckFunc, ProgramOf, Checked;
    var fs, gs := FuncsOf(ds), Checked(ds, hash);
    ProgramHas(fs);
    CheckedNames(ds, hash);
    i :| 0 <= i < |fs| && fs[i].name == fn && ProgramOf(fs)[fn] == fs[i];
    SigAt(ds, i);
    forall k, l | 0 <= k < l < |gs| ensures gs[k].name != gs[l].name {
      assert fs[k].name == gs[k].name && fs[l].name == gs[l].name;
    }
    InProgram(gs, i);
  }

  lemma {:induction false} SigAt(ds: seq<Definition>, i: nat)
    requires DistinctNames(FuncsOf(ds)) && i < |ds|
    ensures SigFor(ds, ds[i].f.name) == ds[i].sig
  {
    var fs := FuncsOf(ds);
    forall k | 0 <= k < i ensures ds[k].f.name != ds[i].f.name {
      assert fs[k].name != fs[i].name;
    }
    SigForAt(ds, i);
  }

  lemma {:induction false} SameNames(ds: seq<Definition>, hash: string -> nat)
    ensures ProgramOf(FuncsOf(ds)).Keys == ProgramOf(Checked(ds, hash)).Keys == SigsOf(ds).Keys
  {
    hide CheckFunc, ProgramOf;
    var fs, gs := FuncsOf(ds), Checked(ds, hash);
    ProgramHas(fs);
    ProgramHas(gs);
    CheckedNames(ds, hash);
    forall fn | fn in ProgramOf(fs) ensures fn in ProgramOf(gs) {
      var i :| 0 <= i < |fs| && fs[i].name == fn;
      assert gs[i].name == fn;
    }
    forall fn | fn in ProgramOf(gs) ensures fn in ProgramOf(fs) {
      var i :| 0 <= i < |gs| && gs[i].name == fn;
      assert fs[i].name == fn;
    }
  }

  lemma {:induction false} AcceptedAnalysed(ds: seq<Definition>, hash: string -> nat)
    requires DistinctNames(FuncsOf(ds)) && AllChecked(ds, hash) && Regulars(ds)
    ensures Analysed(ProgramOf(FuncsOf(ds)), ProgramOf(Checked(ds, hash)), hash, SigsOf(ds))
  {
    hide CheckFunc, AllRegular, ProgramOf, SigsOf, DistinctNames;
    SameNames(ds, hash);
    var p, q := ProgramOf(FuncsOf(ds)), ProgramOf(Checked(ds, hash));
    forall fn | fn in p
      ensures CheckFunc(p[fn], hash, SigsOf(ds)[fn]) == (true, q[fn]) && AllRegular(p[fn].body)
      ensures p[fn].returnType != Void
    {
      var i := DefinitionOf(ds, hash, fn);
    }
  }

  lemma {:induction false} AcceptedAgrees(files: seq<File>, hash: string -> nat)
    requires Accepted(files, hash)
    ensures AritiesAgree(SigsOf(Definitions(files)), Compiling(files, hash))
  {
    hide Collect, Flatten, CheckFunc, ProgramOf, DefinitionsOf, LookupFunction, SigsOf, AllChecked, DistinctNames;
    var ds, q := Definitions(files), Compiling(files, hash);
    var sigs := SigsOf(ds);
    NamesDistinct(files, hash);
    SameNames(ds, hash);
    CheckedNames(ds, hash);
    forall fn, g | fn in sigs && g in DeclaredArities(sigs[fn]) && g in q
      ensures |q[g].params| == DeclaredArities(sigs[fn])[g]
    {
      var i := DefinitionOf(ds, hash, fn);
      var k := DefinitionOf(ds, hash, g);
      TableKnows(files, i);
      TableKnows(files, k);
    }
  }
}
