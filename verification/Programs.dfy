/**
  What the declarations of all files mean, said of the declarations themselves: which of them
  can stand together, what a file sees, and which program they are once their trees are well
  annotated.
 */
module Programs {
  import opened Limits
  import opened Words
  import opened Ast
  import opened Parsing
  import opened Source
  import opened Semantic
  import opened Annotation

  type File = seq<Declaration>

  /** The declarations of all files, in order. */
  function All(files: seq<File>): File {
    if files == [] then [] else files[0] + All(files[1..])
  }

  function NamesDeclared(ds: File): set<string> {
    set d | d in ds :: d.name
  }

  /** Declarations of one name have one type and arity, and at most one of them has a body. */
  predicate Together(d: Declaration, e: Declaration) {
    d.name == e.name ==> d.returnType == e.returnType && |d.params| == |e.params| && (d.body.None? || e.body.None?)
  }

  predicate Coherent(all: File) {
    && (forall d :: d in all ==> |d.params| <= MAX_PARAMS_PER_FUNCTION)
    && (forall i, j :: 0 <= i < j < |all| ==> Together(all[i], all[j]))
    && |NamesDeclared(all)| <= MAX_FUNCTION_COUNT
  }

  /** The first declaration of the name, with a body if that is wanted. */
  function First(all: File, name: string, withBody: bool): (r: Option<Declaration>)
    ensures r.Some? ==> r.value in all && r.value.name == name && (withBody ==> r.value.body.Some?)
  {
    if all == [] then None
    else if all[0].name == name && (withBody ==> all[0].body.Some?) then Some(all[0])
    else First(all[1..], name, withBody)
  }

  /** The definition of a name; without one, its first declaration. */
  function Spoken(all: File, name: string): Option<Declaration> {
    if First(all, name, true).Some? then First(all, name, true) else First(all, name, false)
  }

  /** A file sees the functions that it declares itself, before or after their use. */
  function SightIn(file: File, all: File): Sight {
    map name | name in NamesDeclared(file) && Spoken(all, name).Some? ::
      Seen(Spoken(all, name).value.returnType, TypesOf(Spoken(all, name).value.params))
  }

  /** `g` is the function that `d` defines, well annotated. */
  predicate Realizes(g: Func, d: Declaration, fns: Sight) {
    && d.body.Some? && g.name == d.name && g.returnType == d.returnType && g.params == d.params
    && (if d.body.value.Block? then EraseStmts(g.body) == d.body.value.stmts else g.body == [])
    && WellFunc(g, fns)
  }

  predicate Defines(ds: File, name: string) {
    exists d :: d in ds && d.name == name && d.body.Some?
  }

  /** `q` has a function for each definition, well annotated with what its file sees, and no others. */
  ghost predicate Meant(files: seq<File>, q: Program) {
    && (forall name :: name in q ==> Defines(All(files), name))
    && (forall i, j :: 0 <= i < |files| && 0 <= j < |files[i]| && files[i][j].body.Some? ==>
          files[i][j].name in q && Realizes(q[files[i][j].name], files[i][j], SightIn(files[i], All(files))))
  }

  /** The trees are as the parser builds them. */
  predicate Fresh(d: Declaration) {
    d.body.Some? ==> EraseStmt(d.body.value) == d.body.value
  }

  predicate AllFresh(ds: File) {
    forall i :: 0 <= i < |ds| ==> Fresh(ds[i])
  }

  /** The premises of lowering, and that functions return values. */
  predicate Premises(ds: File) {
    forall i :: 0 <= i < |ds| && ds[i].body.Some? ==>
      ds[i].returnType != Void && (ds[i].body.value.Block? ==> AllRegular(ds[i].body.value.stmts))
  }

  // --- Places ------------------------------------------------------------------------------

  /** Where in its file declaration `k` of all files stands. */
  lemma {:induction false} PlaceOf(files: seq<File>, k: nat) returns (i: nat, j: nat)
    requires k < |All(files)|
    ensures i < |files| && j < |files[i]| && All(files)[k] == files[i][j]
  {
    if k < |files[0]| {
      i, j := 0, k;
    } else {
      i, j := PlaceOf(files[1..], k - |files[0]|);
      i := i + 1;
    }
  }

  lemma {:induction false} AllHas(files: seq<File>, i: nat, j: nat)
    requires i < |files| && j < |files[i]|
    ensures files[i][j] in All(files)
    decreases i
  {
    if i > 0 {
      AllHas(files[1..], i - 1, j);
      assert files[i][j] == files[1..][i - 1][j];
    }
  }

  lemma {:induction false} FirstNone(all: File, name: string, withBody: bool)
    ensures First(all, name, withBody).None? <==>
            forall k :: 0 <= k < |all| && all[k].name == name ==> withBody && all[k].body.None?
  {
    if all != [] {
      FirstNone(all[1..], name, withBody);
      assert forall k :: 0 < k < |all| ==> all[k] == all[1..][k - 1];
    }
  }

  /** The first place that `First` finds. */
  lemma {:induction false} FirstAt(all: File, name: string, withBody: bool) returns (k: nat)
    requires First(all, name, withBody).Some?
    ensures k < |all| && all[k] == First(all, name, withBody).value
    ensures forall j :: 0 <= j < k && all[j].name == name ==> withBody && all[j].body.None?
  {
    if all[0].name == name && (withBody ==> all[0].body.Some?) {
      k := 0;
    } else {
      k := FirstAt(all[1..], name, withBody);
      k := k + 1;
    }
  }
}
