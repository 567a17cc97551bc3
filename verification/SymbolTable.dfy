/**
  The generator's symbol table: an open-addressing table and a log of overwritten entries
  that undoes scopes.
 */
module SymbolTables {
  import opened Words
  import opened Lowering
  import opened OpenAddressing

  const SYMBOL_TABLE_SIZE: nat := 4096

  const Vacant: Entry<Symbol> := Entry("", Symbol(0, false), false)

  /** A slot and what it held before. */
  datatype Change = Change(index: nat, previous: Entry<Symbol>)

  function Raised(e: Entry<Symbol>): Entry<Symbol> {
    e.(value := e.value.(isStack := true))
  }

  // --- Undoing -------------------------------------------------------------------------

  predicate LogOk(log: seq<Change>, size: nat) {
    forall i :: 0 <= i < |log| ==> log[i].index < size
  }

  /** The entries after undoing the log back to its first `mark` changes. */
  function Undo(es: seq<Entry<Symbol>>, log: seq<Change>, mark: nat): (r: seq<Entry<Symbol>>)
    requires LogOk(log, |es|) && mark <= |log|
    ensures |r| == |es|
    decreases |log|
  {
    if |log| == mark then es
    else
      var top := log[|log| - 1];
      Undo(es[top.index := top.previous], log[..|log| - 1], mark)
  }

  /** Undoing a logged overwrite, whatever was written, is undoing nothing. */
  lemma {:induction false} UndoLogged(es: seq<Entry<Symbol>>, log: seq<Change>, s: nat, e: Entry<Symbol>, mark: nat)
    requires LogOk(log, |es|) && mark <= |log| && s < |es|
    ensures LogOk(log + [Change(s, es[s])], |es|)
    ensures Undo(es[s := e], log + [Change(s, es[s])], mark) == Undo(es, log, mark)
  {
    var log1 := log + [Change(s, es[s])];
    assert log1[..|log1| - 1] == log;
    assert es[s := e][s := es[s]] == es;
  }

  /** Undoing to an earlier mark goes through every later one. */
  lemma {:induction false} UndoTwice(es: seq<Entry<Symbol>>, log: seq<Change>, mark: nat, later: nat)
    requires LogOk(log, |es|) && mark <= later <= |log|
    ensures LogOk(log[..later], |es|)
    ensures Undo(es, log, mark) == Undo(Undo(es, log, later), log[..later], mark)
    decreases |log|
  {
    if later < |log| {
      var top := log[|log| - 1];
      UndoTwice(es[top.index := top.previous], log[..|log| - 1], mark, later);
      assert log[..|log| - 1][..later] == log[..later];
    } else {
      assert log[..later] == log;
    }
  }

  // --- Runs ----------------------------------------------------------------------------

  /** What the generator does to the table between lookups. */
  datatype Op =
    | Bind(name: string, index: nat)      // a parameter: an entry for a virtual register
    | Declare(name: string, index: nat)   // a local: an entry, then its stack flag
    | Enter                               // remember the watermark of a block
    | Leave                               // restore it

  /** Entries, log, and the watermarks of the blocks that are open, the innermost last. */
  datatype Table = Table(es: seq<Entry<Symbol>>, log: seq<Change>, marks: seq<nat>)

  ghost predicate TableOk(t: Table, hash: string -> nat) {
    && 0 < |t.es| && NoHoles(t.es, hash)
    && LogOk(t.log, |t.es|)
    && (forall m :: 0 <= m <= |t.log| ==> NoHoles(Undo(t.es, t.log, m), hash))
  }

  ghost predicate MarksOk(t: Table) {
    && (forall i :: 0 <= i < |t.marks| ==> t.marks[i] <= |t.log|)
    && (forall i, j :: 0 <= i < j < |t.marks| ==> t.marks[i] <= t.marks[j])
  }

  /** Overwrite the slot of `name`, logging what it held; None when the table is full. */
  function Added(t: Table, hash: string -> nat, e: Entry<Symbol>): (r: Option<Table>)
    requires 0 < |t.es|
  {
    var p := Target(t.es, hash(e.name), e.name);
    if p == None then None
    else Some(t.(es := t.es[p.value := e], log := t.log + [Change(p.value, t.es[p.value])]))
  }

  /** Adding an entry is one map update, and leaves every logged table where it was. */
  lemma {:induction false} AddedIsUpdate(t: Table, hash: string -> nat, e: Entry<Symbol>)
    requires TableOk(t, hash) && e.occupied && Added(t, hash, e).Some?
    ensures var t1 := Added(t, hash, e).value;
            && TableOk(t1, hash)
            && Bindings(t1.es, hash) == Bindings(t.es, hash)[e.name := e.value]
            && forall m :: 0 <= m <= |t.log| ==> Undo(t1.es, t1.log, m) == Undo(t.es, t.log, m)
  {
    hide Probe, Position, NoHoles, Bindings;
    var t1 := Added(t, hash, e).value;
    var s := Target(t.es, hash(e.name), e.name).value;
    AddKeepsTable(t.es, hash, e.name, e);
    forall m | 0 <= m <= |t.log| ensures Undo(t1.es, t1.log, m) == Undo(t.es, t.log, m) {
      UndoLogged(t.es, t.log, s, e, m);
    }
    assert LogOk(t1.log, |t1.es|);
    assert Undo(t1.es, t1.log, |t1.log|) == t1.es;
  }

  /** Raising the stack flag of the entry that was added last: not logged, and need not be. */
  function Flagged(t: Table): (r: Table)
    requires t.log != [] && t.log[|t.log| - 1].index < |t.es|
  {
    var s := t.log[|t.log| - 1].index;
    t.(es := t.es[s := Raised(t.es[s])])
  }

  lemma {:induction false} FlaggedIsAdded(t: Table, hash: string -> nat, e: Entry<Symbol>)
    requires 0 < |t.es| && Added(t, hash, e).Some?
    ensures Added(t, hash, Raised(e)).Some?
    ensures Flagged(Added(t, hash, e).value) == Added(t, hash, Raised(e)).value
  {
    var s := Target(t.es, hash(e.name), e.name).value;
    assert t.es[s := e][s := Raised(e)] == t.es[s := Raised(e)];
  }

  /** One operation on the table; None when it is full. */
  function Apply(op: Op, t: Table, hash: string -> nat): Option<Table>
    requires 0 < |t.es| && LogOk(t.log, |t.es|) && (forall i :: 0 <= i < |t.marks| ==> t.marks[i] <= |t.log|)
  {
    match op
    case Bind(x, k) => Added(t, hash, Entry(x, Symbol(k, false), true))
    case Declare(x, k) =>
      var t1 := Added(t, hash, Entry(x, Symbol(k, false), true));
      if t1 == None then None else Some(Flagged(t1.value))
    case Enter => Some(t.(marks := t.marks + [|t.log|]))
    case Leave =>
      if t.marks == [] then Some(t)
      else
        var m := t.marks[|t.marks| - 1];
        Some(Table(Undo(t.es, t.log, m), t.log[..m], t.marks[..|t.marks| - 1]))
  }

  /** The same operation on a stack of maps, whose last one is the current scope's. */
  function ApplyMaps(op: Op, ms: seq<map<string, Symbol>>): (r: seq<map<string, Symbol>>)
    requires ms != []
    ensures r != []
  {
    var top := |ms| - 1;
    match op
    case Bind(x, k) => ms[top := ms[top][x := Symbol(k, false)]]
    case Declare(x, k) => ms[top := ms[top][x := Symbol(k, true)]]
    case Enter => ms + [ms[top]]
    case Leave => if top == 0 then ms else ms[..top]
  }

  /** The table stands for a stack of maps: undoing to each open watermark gives each of them. */
  ghost predicate Refines(t: Table, hash: string -> nat, ms: seq<map<string, Symbol>>) {
    && TableOk(t, hash) && MarksOk(t)
    && |ms| == |t.marks| + 1
    && Bindings(t.es, hash) == ms[|t.marks|]
    && forall i :: 0 <= i < |t.marks| ==> Bindings(Undo(t.es, t.log, t.marks[i]), hash) == ms[i]
  }

  lemma {:induction false} AddedRefines(t: Table, hash: string -> nat, ms: seq<map<string, Symbol>>, e: Entry<Symbol>)
    requires Refines(t, hash, ms) && e.occupied && Added(t, hash, e).Some?
    ensures Refines(Added(t, hash, e).value, hash, ms[|ms| - 1 := ms[|ms| - 1][e.name := e.value]])
  {
    hide Probe, Position, NoHoles, Bindings, Undo;
    AddedIsUpdate(t, hash, e);
  }

  lemma {:induction false} EnterRefines(t: Table, hash: string -> nat, ms: seq<map<string, Symbol>>)
    requires Refines(t, hash, ms)
    ensures Refines(t.(marks := t.marks + [|t.log|]), hash, ms + [ms[|ms| - 1]])
  {
    hide Probe, Position, NoHoles, Bindings;
    assert Undo(t.es, t.log, |t.log|) == t.es;
  }

  lemma {:induction false} LeaveRefines(t: Table, hash: string -> nat, ms: seq<map<string, Symbol>>)
    requires Refines(t, hash, ms) && t.marks != []
    ensures var m := t.marks[|t.marks| - 1];
            Refines(Table(Undo(t.es, t.log, m), t.log[..m], t.marks[..|t.marks| - 1]), hash, ms[..|ms| - 1])
  {
    hide Probe, Position, NoHoles, Bindings, Undo;
    var m := t.marks[|t.marks| - 1];
    forall k | 0 <= k <= m
      ensures LogOk(t.log[..m], |t.es|) && Undo(Undo(t.es, t.log, m), t.log[..m], k) == Undo(t.es, t.log, k)
    {
      UndoTwice(t.es, t.log, k, m);
    }
  }

  lemma {:induction false} ApplyRefines(op: Op, t: Table, hash: string -> nat, ms: seq<map<string, Symbol>>)
    requires Refines(t, hash, ms)
    ensures var t1 := Apply(op, t, hash); t1.Some? ==> Refines(t1.value, hash, ApplyMaps(op, ms))
  {
    hide Probe, Position, NoHoles, Bindings, Undo, Added, Flagged;
    match op
    case Bind(x, k) =>
      if Added(t, hash, Entry(x, Symbol(k, false), true)).Some? {
        AddedRefines(t, hash, ms, Entry(x, Symbol(k, false), true));
      }
    case Declare(x, k) =>
      if Added(t, hash, Entry(x, Symbol(k, false), true)).Some? {
        FlaggedIsAdded(t, hash, Entry(x, Symbol(k, false), true));
        AddedRefines(t, hash, ms, Entry(x, Symbol(k, true), true));
      }
    case Enter => EnterRefines(t, hash, ms);
    case Leave =>
      if t.marks != [] {
        LeaveRefines(t, hash, ms);
      }
  }

  function ApplyAll(ops: seq<Op>, t: Table, hash: string -> nat): (r: Option<Table>)
    requires 0 < |t.es| && LogOk(t.log, |t.es|) && MarksOk(t)
  {
    if ops == [] then Some(t)
    else
      var t1 := Apply(ops[0], t, hash);
      if t1 == None then None
      else
        ApplyAll(ops[1..], t1.value, hash)
  }

  /** Any interleaving of operations on the table is the same interleaving on a stack of maps. */
  lemma {:induction false} RunRefines(ops: seq<Op>, t: Table, hash: string -> nat, ms: seq<map<string, Symbol>>)
    requires Refines(t, hash, ms)
    ensures var t1 := ApplyAll(ops, t, hash); t1.Some? ==> Refines(t1.value, hash, ApplyAllMaps(ops, ms))
  {
    hide Probe, Position, NoHoles, Bindings, Apply, ApplyMaps;
    if ops != [] {
      ApplyRefines(ops[0], t, hash, ms);
      var t1 := Apply(ops[0], t, hash);
      if t1.Some? {
        RunRefines(ops[1..], t1.value, hash, ApplyMaps(ops[0], ms));
      }
    }
  }

  function ApplyAllMaps(ops: seq<Op>, ms: seq<map<string, Symbol>>): seq<map<string, Symbol>>
    requires ms != []
  {
    if ops == [] then ms else ApplyAllMaps(ops[1..], ApplyMaps(ops[0], ms))
  }

  /** `t` is inside a block that was opened at `base`. */
  ghost predicate Inside(t: Table, base: Table) {
    && LogOk(t.log, |t.es|) && |t.es| > 0
    && MarksOk(t) && |base.marks| < |t.marks| && t.marks[..|base.marks| + 1] == base.marks + [|base.log|]
    && |base.log| <= |t.log| && t.log[..|base.log|] == base.log
    && Undo(t.es, t.log, |base.log|) == base.es
  }

  lemma {:induction false} AddedInside(t: Table, base: Table, hash: string -> nat, e: Entry<Symbol>)
    requires Inside(t, base) && Added(t, hash, e).Some?
    ensures Inside(Added(t, hash, e).value, base)
  {
    hide Probe, Target, Undo;
    var s := Target(t.es, hash(e.name), e.name).value;
    UndoLogged(t.es, t.log, s, e, |base.log|);
  }

  lemma {:induction false} LeaveInside(t: Table, base: Table, m: nat)
    requires Inside(t, base) && |t.marks| > |base.marks| + 1 && m == t.marks[|t.marks| - 1]
    ensures Inside(Table(Undo(t.es, t.log, m), t.log[..m], t.marks[..|t.marks| - 1]), base)
  {
    hide Undo;
    var n := |base.marks|;
    assert t.marks[n] == t.marks[..n + 1][n];
    UndoTwice(t.es, t.log, |base.log|, m);
    assert t.log[..m][..|base.log|] == t.log[..|base.log|];
    assert t.marks[..|t.marks| - 1][..n + 1] == t.marks[..n + 1];
  }

  lemma {:induction false} ApplyInside(op: Op, t: Table, base: Table, hash: string -> nat)
    requires Inside(t, base) && (op.Leave? ==> |t.marks| > |base.marks| + 1)
    ensures var t1 := Apply(op, t, hash);
            && (t1.Some? ==> Inside(t1.value, base))
            && (t1.Some? ==> |t1.value.marks| == |t.marks| + if op.Enter? then 1 else if op.Leave? then -1 else 0)
  {
    hide Undo, Added, Flagged;
    match op
    case Bind(x, k) =>
      if Added(t, hash, Entry(x, Symbol(k, false), true)).Some? {
        AddedInside(t, base, hash, Entry(x, Symbol(k, false), true));
        AddedMarks(t, hash, Entry(x, Symbol(k, false), true));
      }
    case Declare(x, k) =>
      if Added(t, hash, Entry(x, Symbol(k, false), true)).Some? {
        FlaggedIsAdded(t, hash, Entry(x, Symbol(k, false), true));
        AddedInside(t, base, hash, Entry(x, Symbol(k, true), true));
        AddedMarks(t, hash, Entry(x, Symbol(k, true), true));
      }
    case Enter =>
    case Leave => LeaveInside(t, base, t.marks[|t.marks| - 1]);
  }

  lemma {:induction false} AddedMarks(t: Table, hash: string -> nat, e: Entry<Symbol>)
    requires 0 < |t.es| && Added(t, hash, e).Some?
    ensures Added(t, hash, e).value.marks == t.marks
  {
  }

  lemma {:induction false} RunInside(ops: seq<Op>, t: Table, base: Table, hash: string -> nat)
    requires Inside(t, base) && Nested(ops, |t.marks| - |base.marks| - 1)
    ensures var t1 := ApplyAll(ops + [Leave], t, hash); t1.Some? ==> t1.value == base
  {
    hide Undo, Added, Flagged, Apply;
    if ops == [] {
      assert ops + [Leave] == [Leave];
      CloseInside(t, base, hash);
      if Apply(Leave, t, hash).Some? {
        assert ApplyAll([], base, hash) == Some(base);
      }
    } else {
      assert (ops + [Leave])[0] == ops[0] && (ops + [Leave])[1..] == ops[1..] + [Leave];
      ApplyInside(ops[0], t, base, hash);
      if Apply(ops[0], t, hash).Some? {
        RunInside(ops[1..], Apply(ops[0], t, hash).value, base, hash);
      }
    }
  }

  lemma {:induction false} CloseInside(t: Table, base: Table, hash: string -> nat)
    requires Inside(t, base) && |t.marks| == |base.marks| + 1
    ensures LogOk(base.log, |base.es|) && MarksOk(base) && |base.es| > 0
    ensures Apply(Leave, t, hash) == Some(base)
  {
    hide Undo;
    var n := |base.marks|;
    assert forall i :: 0 <= i < n ==> base.marks[i] == t.marks[..n + 1][i] == t.marks[i];
    assert t.marks[n] == t.marks[..n + 1][n];
    assert forall i :: 0 <= i < |base.log| ==> base.log[i] == t.log[i];
    assert t.marks == t.marks[..|base.marks| + 1];
  }

  /** Opening a block, any well nested run inside it, and closing it give back the very table. */
  lemma {:induction false} LeaveRestores(ops: seq<Op>, t: Table, hash: string -> nat)
    requires 0 < |t.es| && LogOk(t.log, |t.es|) && MarksOk(t) && Nested(ops, 0)
    ensures var t1 := ApplyAll([Enter] + ops + [Leave], t, hash); t1.Some? ==> t1.value == t
  {
    hide Added, Flagged, Nested;
    var t0 := t.(marks := t.marks + [|t.log|]);
    assert Undo(t.es, t.log, |t.log|) == t.es;
    assert ([Enter] + ops + [Leave])[1..] == ops + [Leave];
    assert Apply(Enter, t, hash) == Some(t0);
    RunInside(ops, t0, t, hash);
  }

  /** Every Leave matches an Enter of the same run, `depth` of which are open. */
  predicate Nested(ops: seq<Op>, depth: nat) {
    if ops == [] then depth == 0
    else if ops[0].Enter? then Nested(ops[1..], depth + 1)
    else if ops[0].Leave? then depth > 0 && Nested(ops[1..], depth - 1)
    else Nested(ops[1..], depth)
  }

  // --- The table itself ------------------------------------------------------------------

  class SymbolTable {
    const hash: string -> nat
    const entries: array<Entry<Symbol>>
    var changes: seq<Change>

    ghost predicate Valid()
      reads this, entries
    {
      entries.Length == SYMBOL_TABLE_SIZE && TableOk(Contents(), hash)
    }

    ghost function Contents(): Table
      reads this, entries
    {
      Table(entries[..], changes, [])
    }

    /** What names mean now. */
    ghost function Map(): map<string, Symbol>
      requires Valid()
      reads this, entries
    {
      Bindings(entries[..], hash)
    }

    constructor (hash: string -> nat)
      ensures Valid() && fresh(entries)
      ensures Map() == map[] && changes == []
      ensures this.hash == hash
    {
      this.hash := hash;
      changes := [];
      entries := new Entry<Symbol>[SYMBOL_TABLE_SIZE](_ => Vacant);
      new;
      ghost var es := entries[..];
      assert forall n :: Position(es, hash(n), n) == None;
      assert Undo(es, [], 0) == es;
    }

    /** The slot of the innermost entry for `name`. */
    method Lookup(name: string) returns (p: Option<nat>)
      requires Valid()
      ensures p == Position(entries[..], hash(name), name)
      ensures p.Some? <==> name in Map()
      ensures p.Some? ==> p.value < entries.Length && entries[p.value].value == Map()[name]
    {
      ghost var es := entries[..];
      var start := hash(name) % SYMBOL_TABLE_SIZE;
      for i := 0 to SYMBOL_TABLE_SIZE
        invariant forall j :: 0 <= j < i ==> !Stops(es, hash(name), j, name)
      {
        var curr := (start + i) % SYMBOL_TABLE_SIZE;
        SlotIs(hash(name), i);
        if !entries[curr].occupied {
          ProbeIs(es, hash(name), name, i);
          return None;
        }
        if entries[curr].name == name {
          ProbeIs(es, hash(name), name, i);
          return Some(curr);
        }
      }
      ProbeFails(es, hash(name), name);
      return None;
    }

    /** There is a slot for a name exactly if it has one or fewer names than slots are bound. */
    lemma {:induction false} RoomExactly(name: string)
      requires Valid()
      ensures Target(entries[..], hash(name), name).Some? <==> name in Map() || |Map()| < SYMBOL_TABLE_SIZE
    {
      hide Bindings, Target, NoHoles;
      FullExactly(entries[..], hash, name);
    }

    /** Fails, where the original stops the program, when the table is full. */
    method Add(name: string, index: nat) returns (ok: bool)
      requires Valid()
      modifies this`changes, entries
      ensures Valid()
      ensures ok == Target(old(entries[..]), hash(name), name).Some?
      ensures !ok ==> Contents() == old(Contents())
      ensures ok ==> Some(Contents()) == Added(old(Contents()), hash, Entry(name, Symbol(index, false), true))
      ensures ok ==> Map() == old(Map())[name := Symbol(index, false)] && Extends(old(Contents()), Contents())
    {
      hide NoHoles, Bindings, Probe, Position;
      ghost var es := entries[..];
      var start := hash(name) % SYMBOL_TABLE_SIZE;
      for i := 0 to SYMBOL_TABLE_SIZE
        invariant Contents() == old(Contents())
        invariant forall j :: 0 <= j < i ==> !Stops(es, hash(name), j, name)
      {
        var curr := (start + i) % SYMBOL_TABLE_SIZE;
        SlotIs(hash(name), i);
        if !entries[curr].occupied || entries[curr].name == name {
          ProbeIs(es, hash(name), name, i);
          ghost var before := Contents();
          changes := changes + [Change(curr, entries[curr])];
          entries[curr] := Entry(name, Symbol(index, false), true);
          assert entries[..] == es[curr := Entry(name, Symbol(index, false), true)];
          AddedIsUpdate(before, hash, Entry(name, Symbol(index, false), true));
          return true;
        }
      }
      ProbeFails(es, hash(name), name);
      return false;
    }

    /** A local: an entry, looked up again to raise its stack flag. */
    method Declare(name: string, index: nat) returns (ok: bool)
      requires Valid()
      modifies this`changes, entries
      ensures Valid()
      ensures ok == Target(old(entries[..]), hash(name), name).Some?
      ensures ok ==> Map() == old(Map())[name := Symbol(index, true)] && Extends(old(Contents()), Contents())
    {
      ghost var before := Contents();
      ghost var e := Entry(name, Symbol(index, false), true);
      ok := Add(name, index);
      if !ok {
        return;
      }
      ghost var s := Target(before.es, hash(name), name).value;
      AddedPosition(before.es, hash, name, e, name);
      var p := Lookup(name);
      entries[p.value] := Raised(entries[p.value]);
      FlaggedIsAdded(before, hash, e);
      assert Contents() == Added(before, hash, Raised(e)).value;
      AddedIsUpdate(before, hash, Raised(e));
    }

    /** Undo every change since the log had `mark` entries. */
    method Restore(mark: nat)
      requires Valid() && mark <= |changes|
      modifies this`changes, entries
      ensures Valid()
      ensures entries[..] == Undo(old(entries[..]), old(changes), mark) && changes == old(changes)[..mark]
    {
      ghost var before := Contents();
      while |changes| != mark
        invariant mark <= |changes| <= |before.log|
        invariant changes == before.log[..|changes|] && LogOk(changes, SYMBOL_TABLE_SIZE)
        invariant Undo(entries[..], changes, mark) == Undo(before.es, before.log, mark)
        decreases |changes|
      {
        var top := changes[|changes| - 1];
        ghost var es := entries[..];
        entries[top.index] := top.previous;
        assert entries[..] == es[top.index := top.previous];
        changes := changes[..|changes| - 1];
      }
      RestoredOk(before, hash, mark);
    }
  }

  /** `t1` comes from `t` by changes that are all logged. */
  ghost predicate Extends(t: Table, t1: Table) {
    && |t.log| <= |t1.log| && t1.log[..|t.log|] == t.log
    && LogOk(t1.log, |t1.es|)
    && Undo(t1.es, t1.log, |t.log|) == t.es
  }

  lemma {:induction false} ExtendsAgain(t: Table, t1: Table, t2: Table)
    requires Extends(t, t1) && Extends(t1, t2)
    ensures Extends(t, t2)
  {
    hide Undo;
    UndoTwice(t2.es, t2.log, |t.log|, |t1.log|);
    assert t2.log[..|t1.log|][..|t.log|] == t2.log[..|t.log|];
  }

  lemma {:induction false} ExtendsItself(t: Table)
    requires LogOk(t.log, |t.es|)
    ensures Extends(t, t)
  {
  }

  lemma {:induction false} RestoredOk(t: Table, hash: string -> nat, mark: nat)
    requires TableOk(t, hash) && mark <= |t.log|
    ensures TableOk(Table(Undo(t.es, t.log, mark), t.log[..mark], []), hash)
  {
    hide Undo, NoHoles;
    forall k | 0 <= k <= mark
      ensures LogOk(t.log[..mark], |t.es|) && Undo(Undo(t.es, t.log, mark), t.log[..mark], k) == Undo(t.es, t.log, k)
    {
      UndoTwice(t.es, t.log, k, mark);
    }
  }

  lemma {:induction false} SlotIs(h: nat, i: nat)
    ensures (h % SYMBOL_TABLE_SIZE + i) % SYMBOL_TABLE_SIZE == Slot(h, i, SYMBOL_TABLE_SIZE)
  {
  }

}
