/**
  The program-wide table of functions: all declarations of all files are collected before
  any body is analysed.
 */
module Globals {
  import opened Limits
  import opened Words
  import opened Ast
  import opened Semantic

  /** A declaration that was met: a prototype or a definition. */
  type Decl = FunctionInfo

  // --- The table as a function of the declarations -----------------------------------------

  function IndexOf(fs: seq<FunctionInfo>, name: string): (i: nat)
    ensures i <= |fs|
    ensures i < |fs| ==> fs[i].name == name
    ensures forall k :: 0 <= k < i ==> fs[k].name != name
  {
    if fs == [] || fs[0].name == name then 0 else 1 + IndexOf(fs[1..], name)
  }

  /** One declaration: whether it is accepted, and the table after it. */
  function Declare(fs: seq<FunctionInfo>, d: Decl): (bool, seq<FunctionInfo>) {
    var i := IndexOf(fs, d.name);
    if |d.params| > MAX_PARAMS_PER_FUNCTION then (false, fs)
    else if i < |fs| then
      var old_ := fs[i];
      if old_.returnType != d.returnType || |old_.params| != |d.params| then (false, fs)
      else if d.isPrototype then (true, fs)
      else if old_.isPrototype then (true, fs[i := old_.(isPrototype := false, params := d.params)])
      else (false, fs)
    else if |fs| >= MAX_FUNCTION_COUNT then (false, fs)
    else (true, fs + [d])
  }

  /** All of them: collection goes on after a failure, but fails as a whole. */
  function Collect(ds: seq<Decl>): (bool, seq<FunctionInfo>) {
    if ds == [] then (true, [])
    else
      var (ok, fs) := Collect(ds[..|ds| - 1]);
      var (ok1, fs1) := Declare(fs, ds[|ds| - 1]);
      (ok && ok1, fs1)
  }

  // --- When collection succeeds ------------------------------------------------------------

  /** Two declarations can stand in one program. */
  predicate Agreeing(d: Decl, e: Decl) {
    d.name == e.name ==> d.returnType == e.returnType && |d.params| == |e.params| && (d.isPrototype || e.isPrototype)
  }

  function Names(ds: seq<Decl>): set<string> {
    set d | d in ds :: d.name
  }

  /** All declarations of a name agree, at most one is a definition, and all of them fit. */
  predicate Consistent(ds: seq<Decl>) {
    && (forall d :: d in ds ==> |d.params| <= MAX_PARAMS_PER_FUNCTION)
    && (forall i, j :: 0 <= i < j < |ds| ==> Agreeing(ds[i], ds[j]))
    && |Names(ds)| <= MAX_FUNCTION_COUNT
  }

  /** The names that have a definition. */
  function Defined(ds: seq<Decl>): set<string> {
    set d | d in ds && !d.isPrototype :: d.name
  }

  /** The table says of each name what its declarations say. */
  ghost predicate Represents(fs: seq<FunctionInfo>, ds: seq<Decl>) {
    && (forall i, j :: 0 <= i < j < |fs| ==> fs[i].name != fs[j].name)
    && (forall i :: 0 <= i < |fs| ==> EntryOk(fs[i], Names(ds), Defined(ds)))
    && (forall d :: d in ds ==> Listed(fs, d))
    && |fs| == |Names(ds)|
  }

  predicate EntryOk(f: FunctionInfo, names: set<string>, defined: set<string>) {
    f.name in names && (f.isPrototype <==> f.name !in defined)
  }

  /** The declaration's name has an entry, of its type and arity. */
  predicate Listed(fs: seq<FunctionInfo>, d: Decl) {
    var i := IndexOf(fs, d.name);
    i < |fs| && SameShape(fs[i], d)
  }

  predicate SameShape(f: FunctionInfo, d: Decl) {
    f.name == d.name && f.returnType == d.returnType && |f.params| == |d.params|
  }

  lemma {:induction false} NamesMore(ds: seq<Decl>, d: Decl)
    ensures Names(ds + [d]) == Names(ds) + {d.name}
    ensures Defined(ds + [d]) == Defined(ds) + if d.isPrototype then {} else {d.name}
    ensures Defined(ds) <= Names(ds)
  {
    assert forall e :: e in ds + [d] <==> e in ds || e == d;
    assert d in ds + [d];
  }

  lemma {:induction false} IndexOfMore(fs: seq<FunctionInfo>, f: FunctionInfo, name: string)
    ensures IndexOf(fs + [f], name) ==
            if IndexOf(fs, name) < |fs| then IndexOf(fs, name) else if f.name == name then |fs| else |fs| + 1
    decreases |fs|
  {
    if fs != [] {
      assert (fs + [f])[1..] == fs[1..] + [f];
      IndexOfMore(fs[1..], f, name);
    }
  }

  lemma {:induction false} IndexOfUpdated(fs: seq<FunctionInfo>, i: nat, f: FunctionInfo, name: string)
    requires i < |fs| && f.name == fs[i].name
    ensures IndexOf(fs[i := f], name) == IndexOf(fs, name)
    decreases |fs|
  {
    if i > 0 {
      assert fs[i := f][1..] == fs[1..][i - 1 := f];
      IndexOfUpdated(fs[1..], i - 1, f, name);
    } else {
      assert fs[i := f][1..] == fs[1..];
    }
  }

  /** A name has an entry exactly when it was declared. */
  lemma {:induction false} EntryOf(fs: seq<FunctionInfo>, ds: seq<Decl>, name: string)
    requires Represents(fs, ds)
    ensures IndexOf(fs, name) < |fs| <==> name in Names(ds)
  {
    hide IndexOf, Defined;
    var i := IndexOf(fs, name);
    if i < |fs| {
      assert EntryOk(fs[i], Names(ds), Defined(ds));
    }
    if name in Names(ds) {
      var d :| d in ds && d.name == name;
      assert Listed(fs, d);
    }
  }

  /** A new name. */
  lemma {:induction false} DeclareNew(fs: seq<FunctionInfo>, ds: seq<Decl>, d: Decl)
    requires Represents(fs, ds) && d.name !in Names(ds)
    ensures Represents(fs + [d], ds + [d])
  {
    hide IndexOf, Names, Defined, Listed, EntryOk;
    NamesMore(ds, d);
    var fs1, ds1 := fs + [d], ds + [d];
    forall i | 0 <= i < |fs1| ensures EntryOk(fs1[i], Names(ds1), Defined(ds1)) {
      NewEntry(fs, ds, d, i);
    }
    forall e | e in ds1 ensures Listed(fs1, e) {
      NewListed(fs, ds, d, e);
    }
    forall i, j | 0 <= i < j < |fs1| ensures fs1[i].name != fs1[j].name {
      if j == |fs| {
        NewEntry(fs, ds, d, i);
      }
    }
  }

  lemma {:induction false} NewEntry(fs: seq<FunctionInfo>, ds: seq<Decl>, d: Decl, i: nat)
    requires Represents(fs, ds) && d.name !in Names(ds) && i <= |fs|
    ensures EntryOk((fs + [d])[i], Names(ds + [d]), Defined(ds + [d]))
    ensures i < |fs| ==> fs[i].name != d.name
  {
    hide IndexOf, Names, Defined, Listed;
    NamesMore(ds, d);
    if i < |fs| {
      assert EntryOk(fs[i], Names(ds), Defined(ds));
    }
  }

  lemma {:induction false} NewListed(fs: seq<FunctionInfo>, ds: seq<Decl>, d: Decl, e: Decl)
    requires Represents(fs, ds) && d.name !in Names(ds) && e in ds + [d]
    ensures Listed(fs + [d], e)
  {
    hide IndexOf, Defined, EntryOk;
    IndexOfMore(fs, d, e.name);
    if e in ds {
      assert Listed(fs, e);
    } else {
      EntryOf(fs, ds, d.name);
    }
  }

  /** A name that is known: its entry stays, or turns from a prototype into a definition. */
  lemma {:induction false} DeclareAgain(fs: seq<FunctionInfo>, ds: seq<Decl>, d: Decl, i: nat, f: FunctionInfo)
    requires Represents(fs, ds) && i == IndexOf(fs, d.name) < |fs| && SameShape(f, d) && SameShape(fs[i], d)
    requires f.isPrototype == (fs[i].isPrototype && d.isPrototype)
    ensures Represents(fs[i := f], ds + [d])
  {
    hide IndexOf, Names, Defined;
    NamesMore(ds, d);
    var fs1, ds1 := fs[i := f], ds + [d];
    assert EntryOk(fs[i], Names(ds), Defined(ds));
    assert Names(ds1) == Names(ds);
    forall k | 0 <= k < |fs1| ensures EntryOk(fs1[k], Names(ds1), Defined(ds1)) {
      assert EntryOk(fs[k], Names(ds), Defined(ds));
      assert k < i ==> fs[k].name != fs[i].name;
      assert i < k ==> fs[i].name != fs[k].name;
    }
    forall e | e in ds1 ensures Listed(fs1, e) {
      IndexOfUpdated(fs, i, f, e.name);
      if e in ds {
        assert Listed(fs, e);
      }
    }
  }

  /** Each step keeps the table in step with the declarations, and succeeds when they are consistent. */
  lemma {:induction false} DeclareStep(fs: seq<FunctionInfo>, ds: seq<Decl>, d: Decl)
    requires Represents(fs, ds) && Consistent(ds)
    ensures var (ok, fs1) := Declare(fs, d);
            (ok <==> Consistent(ds + [d])) && (ok ==> Represents(fs1, ds + [d]))
  {
    hide Represents, Consistent, IndexOf, Names, Agreeing;
    EntryOf(fs, ds, d.name);
    NamesMore(ds, d);
    ConsistentMore(ds, d);
    ConsistentSize(ds);
    SameCount(fs, ds);
    var i := IndexOf(fs, d.name);
    if i < |fs| {
      KnownName(fs, ds, d, i);
      if Declare(fs, d).0 {
        var f := if d.isPrototype || !fs[i].isPrototype then fs[i]
                 else fs[i].(isPrototype := false, params := d.params);
        assert Declare(fs, d).1 == fs[i := f];
        DeclareAgain(fs, ds, d, i, f);
      }
    } else {
      Unrelated(ds, d);
      DeclareNew(fs, ds, d);
    }
  }

  lemma {:induction false} ConsistentSize(ds: seq<Decl>)
    requires Consistent(ds)
    ensures |Names(ds)| <= MAX_FUNCTION_COUNT
  {
  }

  lemma {:induction false} Unrelated(ds: seq<Decl>, d: Decl)
    requires d.name !in Names(ds)
    ensures forall e :: e in ds ==> Agreeing(e, d)
  {
    forall e | e in ds ensures Agreeing(e, d) {
      assert e.name in Names(ds);
    }
  }

  lemma {:induction false} SameCount(fs: seq<FunctionInfo>, ds: seq<Decl>)
    requires Represents(fs, ds)
    ensures |fs| == |Names(ds)|
  {
  }

  lemma {:induction false} ConsistentMore(ds: seq<Decl>, d: Decl)
    requires Consistent(ds)
    ensures Consistent(ds + [d]) <==>
              |d.params| <= MAX_PARAMS_PER_FUNCTION && (forall e :: e in ds ==> Agreeing(e, d))
                && |Names(ds + [d])| <= MAX_FUNCTION_COUNT
  {
    var ds1 := ds + [d];
    assert d in ds1 && ds1[|ds|] == d;
    if Consistent(ds1) {
      forall e | e in ds ensures Agreeing(e, d) {
        var i :| 0 <= i < |ds| && ds[i] == e;
        assert Agreeing(ds1[i], ds1[|ds|]);
      }
    }
    if |d.params| <= MAX_PARAMS_PER_FUNCTION && (forall e :: e in ds ==> Agreeing(e, d)) {
      forall i, j | 0 <= i < j < |ds1| ensures Agreeing(ds1[i], ds1[j]) {
        if j == |ds| {
          assert ds1[i] in ds;
        }
      }
    }
  }

  /** The entry of a known name agrees with a new declaration when all its declarations do. */
  lemma {:induction false} KnownName(fs: seq<FunctionInfo>, ds: seq<Decl>, d: Decl, i: nat)
    requires Represents(fs, ds) && i == IndexOf(fs, d.name) < |fs|
    ensures (forall e :: e in ds ==> Agreeing(e, d)) <==> SameShape(fs[i], d) && (fs[i].isPrototype || d.isPrototype)
    ensures Names(ds + [d]) == Names(ds)
  {
    hide IndexOf, Names, Defined;
    NamesMore(ds, d);
    assert EntryOk(fs[i], Names(ds), Defined(ds));
    forall e | e in ds && e.name == d.name ensures SameShape(fs[i], e) {
      assert Listed(fs, e);
    }
    var e := SomeDecl(ds, d.name);
    assert SameShape(fs[i], e);
    if !fs[i].isPrototype {
      var e1 := SomeDefinition(ds, d.name);
      assert e1 in ds && SameShape(fs[i], e1);
    } else {
      NoDefinition(ds, d.name);
    }
  }

  lemma {:induction false} SomeDecl(ds: seq<Decl>, name: string) returns (d: Decl)
    requires name in Names(ds)
    ensures d in ds && d.name == name
  {
    d :| d in ds && d.name == name;
  }

  lemma {:induction false} SomeDefinition(ds: seq<Decl>, name: string) returns (d: Decl)
    requires name in Defined(ds)
    ensures d in ds && d.name == name && !d.isPrototype
  {
    d :| d in ds && d.name == name && !d.isPrototype;
  }

  lemma {:induction false} NoDefinition(ds: seq<Decl>, name: string)
    requires name !in Defined(ds)
    ensures forall d :: d in ds && d.name == name ==> d.isPrototype
  {
  }

  /** Collection succeeds exactly on consistent declarations, and then the table represents them. */
  lemma {:induction false} CollectsConsistent(ds: seq<Decl>)
    ensures Collect(ds).0 <==> Consistent(ds)
    ensures Collect(ds).0 ==> Represents(Collect(ds).1, ds)
    decreases |ds|
  {
    hide Represents, Declare, Consistent;
    if ds == [] {
      NothingCollected();
    } else {
      var front, d := ds[..|ds| - 1], ds[|ds| - 1];
      assert front + [d] == ds;
      CollectsConsistent(front);
      PrefixConsistent(front, d);
      if Collect(front).0 {
        DeclareStep(Collect(front).1, front, d);
      }
    }
  }

  lemma {:induction false} NothingCollected()
    ensures Represents([], []) && Consistent([])
  {
    assert Names([]) == {};
  }

  lemma {:induction false} PrefixConsistent(ds: seq<Decl>, d: Decl)
    ensures Consistent(ds + [d]) ==> Consistent(ds)
  {
    NamesMore(ds, d);
    if !Consistent(ds + [d]) {
      return;
    }
    var ds1 := ds + [d];
    assert Names(ds) <= Names(ds1);
    Subset(Names(ds), Names(ds1));
    forall i, j | 0 <= i < j < |ds| ensures Agreeing(ds[i], ds[j]) {
      assert Agreeing(ds1[i], ds1[j]);
    }
    assert forall e :: e in ds ==> e in ds1;
  }

  lemma {:induction false} Subset<T>(a: set<T>, b: set<T>)
    requires a <= b
    ensures |a| <= |b|
  {
    assert b == a + (b - a);
  }

  // --- Order does not matter ------------------------------------------------------------------

  /** Consistency, of the declarations as a bag. */
  ghost predicate BagConsistent(m: multiset<Decl>) {
    && (forall d :: d in m ==> |d.params| <= MAX_PARAMS_PER_FUNCTION)
    && (forall d, e :: d in m && e in m && d != e ==> Agreeing(d, e))
    && (forall d :: m[d] > 1 ==> Agreeing(d, d))
    && |set d | d in m :: d.name| <= MAX_FUNCTION_COUNT
  }

  lemma {:induction false} ConsistentBag(ds: seq<Decl>)
    ensures Consistent(ds) <==> BagConsistent(multiset(ds))
  {
    var m := multiset(ds);
    assert (set d | d in m :: d.name) == Names(ds);
    if Consistent(ds) {
      forall d, e | d in m && e in m && d != e ensures Agreeing(d, e) {
        var i :| 0 <= i < |ds| && ds[i] == d;
        var j :| 0 <= j < |ds| && ds[j] == e;
        assert if i < j then Agreeing(ds[i], ds[j]) else Agreeing(ds[j], ds[i]);
      }
      forall d | m[d] > 1 ensures Agreeing(d, d) {
        var i, j := TwoPlaces(ds, d);
        assert Agreeing(ds[i], ds[j]);
      }
    }
    if BagConsistent(m) {
      forall i, j | 0 <= i < j < |ds| ensures Agreeing(ds[i], ds[j]) {
        assert ds[i] in m && ds[j] in m;
        if ds[i] == ds[j] {
          Twice(ds, i, j);
        }
      }
      assert forall d :: d in ds ==> d in m;
    }
  }

  lemma {:induction false} TwoPlaces(ds: seq<Decl>, d: Decl) returns (i: nat, j: nat)
    requires multiset(ds)[d] > 1
    ensures i < j < |ds| && ds[i] == d && ds[j] == d
    decreases |ds|
  {
    var front := ds[..|ds| - 1];
    assert ds == front + [ds[|ds| - 1]];
    if ds[|ds| - 1] == d {
      assert d in multiset(front);
      i :| 0 <= i < |front| && front[i] == d;
      j := |ds| - 1;
    } else {
      i, j := TwoPlaces(front, d);
    }
  }

  lemma {:induction false} Twice(ds: seq<Decl>, i: nat, j: nat)
    requires i < j < |ds| && ds[i] == ds[j]
    ensures multiset(ds)[ds[i]] > 1
  {
    assert ds == ds[..j] + [ds[j]] + ds[j + 1..];
    assert ds[i] == ds[..j][i];
    assert ds[i] in multiset(ds[..j]);
  }

  /** Whatever the order of files and declarations, a program is accepted or it is not. */
  lemma {:induction false} OrderIrrelevant(ds: seq<Decl>, es: seq<Decl>)
    requires multiset(ds) == multiset(es)
    ensures Collect(ds).0 == Collect(es).0
  {
    CollectsConsistent(ds);
    CollectsConsistent(es);
    ConsistentBag(ds);
    ConsistentBag(es);
  }

  // --- What the later phases rely on --------------------------------------------------------------

  /** A name has one definition, and every declaration of it has that definition's arity. */
  lemma {:induction false} OneDefinition(ds: seq<Decl>, i: nat, j: nat)
    requires Collect(ds).0 && i < j < |ds| && ds[i].name == ds[j].name
    ensures ds[i].isPrototype || ds[j].isPrototype
    ensures |ds[i].params| == |ds[j].params| && ds[i].returnType == ds[j].returnType
  {
    CollectsConsistent(ds);
    assert Agreeing(ds[i], ds[j]);
  }

  /** Looking a name up after collection finds the arity and type of all its declarations. */
  lemma {:induction false} LookupCollected(ds: seq<Decl>, d: Decl)
    requires Collect(ds).0 && d in ds
    ensures var r := LookupFunction(Collect(ds).1, d.name);
            r.Some? && r.value.returnType == d.returnType && |r.value.params| == |d.params|
  {
    CollectsConsistent(ds);
    hide Collect, IndexOf;
    var fs := Collect(ds).1;
    assert Listed(fs, d);
    LookupIs(fs, IndexOf(fs, d.name));
  }

  /** Its definition speaks for a name; without one, its first declaration does. */
  predicate Speaks(ds: seq<Decl>, k: nat)
    requires k < |ds|
  {
    !ds[k].isPrototype || forall j :: 0 <= j < |ds| && ds[j].name == ds[k].name ==> ds[j].isPrototype && k <= j
  }

  /** The table has the parameters of the declaration that speaks for the name. */
  lemma {:induction false} TableSpeaks(ds: seq<Decl>, k: nat)
    requires Collect(ds).0 && k < |ds| && Speaks(ds, k)
    ensures var r := LookupFunction(Collect(ds).1, ds[k].name);
            r.Some? && r.value.returnType == ds[k].returnType && r.value.params == ds[k].params
  {
    hide Collect, IndexOf, Speaks, LookupFunction;
    LookupCollected(ds, ds[k]);
    EntrySpeaks(ds, k);
    var fs := Collect(ds).1;
    LookupIs(fs, IndexOf(fs, ds[k].name));
  }

  lemma {:induction false} EntrySpeaks(ds: seq<Decl>, k: nat)
    requires Collect(ds).0 && k < |ds| && Speaks(ds, k)
    ensures var fs := Collect(ds).1;
            var i := IndexOf(fs, ds[k].name); i < |fs| && fs[i].params == ds[k].params
    decreases |ds|
  {
    hide IndexOf, Represents, Declare, Collect, Speaks;
    var n := |ds| - 1;
    var front, d := ds[..n], ds[n];
    CollectedBefore(ds);
    if k < n {
      EarlierSpeaks(ds, k);
      EntrySpeaks(front, k);
      if ds[k].name == d.name {
        OneDefinition(ds, k, n);
      }
      EntryStays(Collect(front).1, d, ds[k].name);
    } else {
      LastSpeaks(ds);
    }
  }

  lemma {:induction false} CollectedBefore(ds: seq<Decl>)
    requires ds != [] && Collect(ds).0
    ensures var front, d := ds[..|ds| - 1], ds[|ds| - 1];
            && Collect(front).0 && Declare(Collect(front).1, d).0 && Collect(ds).1 == Declare(Collect(front).1, d).1
  {
    hide Declare;
  }

  /** A declaration of another name, or a prototype, leaves an entry as it is. */
  lemma {:induction false} EntryStays(fs: seq<FunctionInfo>, d: Decl, name: string)
    requires Declare(fs, d).0 && IndexOf(fs, name) < |fs| && (d.name == name ==> d.isPrototype)
    ensures var fs1, i := Declare(fs, d).1, IndexOf(fs, name);
            IndexOf(fs1, name) == i < |fs1| && fs1[i] == fs[i]
  {
    hide IndexOf;
    var i := IndexOf(fs, d.name);
    if i < |fs| {
      IndexOfUpdated(fs, i, fs[i].(isPrototype := false, params := d.params), name);
    } else {
      IndexOfMore(fs, d, name);
    }
  }

  lemma {:induction false} LastSpeaks(ds: seq<Decl>)
    requires Collect(ds).0 && ds != [] && Speaks(ds, |ds| - 1)
    ensures var fs, d := Collect(ds).1, ds[|ds| - 1];
            var i := IndexOf(fs, d.name); i < |fs| && fs[i].params == d.params
  {
    hide IndexOf, Represents, Collect;
    var n := |ds| - 1;
    var front, d := ds[..n], ds[n];
    CollectedBefore(ds);
    var fs := Collect(front).1;
    CollectsConsistent(front);
    IndexOfMore(fs, d, d.name);
    var i := IndexOf(fs, d.name);
    if i < |fs| {
      EntryOf(fs, front, d.name);
      var j := SomePlace(front, d.name);
      assert ds[j] == front[j];
      assert !d.isPrototype;
      IndexOfUpdated(fs, i, fs[i].(isPrototype := false, params := d.params), d.name);
    }
  }

  lemma {:induction false} EarlierSpeaks(ds: seq<Decl>, k: nat)
    requires k < |ds| - 1 && Speaks(ds, k)
    ensures Speaks(ds[..|ds| - 1], k)
    ensures ds[k].isPrototype && ds[k].name == ds[|ds| - 1].name ==> ds[|ds| - 1].isPrototype
  {
  }

  lemma {:induction false} SomePlace(ds: seq<Decl>, name: string) returns (j: nat)
    requires name in Names(ds)
    ensures j < |ds| && ds[j].name == name
  {
    var d :| d in ds && d.name == name;
    j :| 0 <= j < |ds| && ds[j] == d;
  }

  /** Looking up finds the names that were declared and no others. */
  lemma {:induction false} TableNames(ds: seq<Decl>, name: string)
    requires Collect(ds).0
    ensures LookupFunction(Collect(ds).1, name).Some? <==> exists k :: 0 <= k < |ds| && ds[k].name == name
  {
    hide Collect, LookupFunction, IndexOf;
    CollectsConsistent(ds);
    var fs := Collect(ds).1;
    EntryOf(fs, ds, name);
    if IndexOf(fs, name) < |fs| {
      LookupIs(fs, IndexOf(fs, name));
      var k := SomePlace(ds, name);
    }
    if exists k :: 0 <= k < |ds| && ds[k].name == name {
      var k :| 0 <= k < |ds| && ds[k].name == name;
      LookupCollected(ds, ds[k]);
    }
  }

  lemma {:induction false} LookupIs(fs: seq<FunctionInfo>, i: nat)
    requires i < |fs| && forall k :: 0 <= k < i ==> fs[k].name != fs[i].name
    ensures LookupFunction(fs, fs[i].name) == Some(fs[i])
    decreases i
  {
    if i > 0 {
      LookupIs(fs[1..], i - 1);
    }
  }

  // --- The table itself ----------------------------------------------------------------------------

  class GlobalScope {
    var functions: seq<FunctionInfo>

    constructor ()
      ensures functions == []
    {
      functions := [];
    }

    method Lookup(name: string) returns (i: nat)
      ensures i == IndexOf(functions, name)
    {
      i := 0;
      while i < |functions| && functions[i].name != name
        invariant i <= |functions|
        invariant IndexOf(functions, name) == i + IndexOf(functions[i..], name)
      {
        assert functions[i..][1..] == functions[i + 1..];
        i := i + 1;
      }
    }

    /** A conflicting declaration is refused, and leaves the table as it was. */
    method DeclareFunction(d: Decl) returns (ok: bool)
      modifies this
      ensures (ok, functions) == Declare(old(functions), d)
    {
      if |d.params| > MAX_PARAMS_PER_FUNCTION {
        return false;
      }
      var i := Lookup(d.name);
      if i < |functions| {
        if functions[i].returnType != d.returnType || |functions[i].params| != |d.params| {
          return false;
        }
        if functions[i].isPrototype {
          if !d.isPrototype {
            functions := functions[i := functions[i].(isPrototype := false, params := d.params)];
          }
          return true;
        }
        return d.isPrototype;
      }
      if |functions| >= MAX_FUNCTION_COUNT {
        return false;
      }
      functions := functions + [d];
      return true;
    }

    /** All declarations of the program, in order. */
    method CollectAll(ds: seq<Decl>) returns (allOk: bool)
      requires functions == []
      modifies this
      ensures (allOk, functions) == Collect(ds)
      ensures allOk <==> Consistent(ds)
    {
      allOk := true;
      for i := 0 to |ds|
        invariant (allOk, functions) == Collect(ds[..i])
      {
        assert ds[..i + 1][..i] == ds[..i];
        var ok := DeclareFunction(ds[i]);
        if !ok {
          allOk := false;
        }
      }
      assert ds[..|ds|] == ds;
      CollectsConsistent(ds);
    }
  }
}
