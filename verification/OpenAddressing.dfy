/**
  Open addressing with linear probing, of the generator's symbol table and of the scopes of
  the analyser: a table without holes is a map. The hash is any function of the name.
 */
module OpenAddressing {
  import opened Words

  /** A slot; what a vacant one holds does not matter. */
  datatype Entry<V> = Entry(name: string, value: V, occupied: bool)

  // --- Probing, as functions of the entries ------------------------------------------

  function Slot(h: nat, i: nat, size: nat): (s: nat)
    requires size > 0
    ensures s < size
  {
    (h + i) % size
  }

  /** Probing for `name` stops at a vacant slot or at the name's own. */
  predicate Stops<V>(es: seq<Entry<V>>, h: nat, i: nat, name: string)
    requires |es| > 0
  {
    var e := es[Slot(h, i, |es|)];
    !e.occupied || e.name == name
  }

  /** The first probe from number `i` on that stops, or the number of slots. */
  function Probe<V>(es: seq<Entry<V>>, h: nat, name: string, i: nat): (k: nat)
    requires 0 < |es| && i <= |es|
    ensures i <= k <= |es|
    ensures k < |es| ==> Stops(es, h, k, name)
    ensures forall j :: i <= j < k ==> !Stops(es, h, j, name)
    decreases |es| - i
  {
    if i == |es| || Stops(es, h, i, name) then i else Probe(es, h, name, i + 1)
  }

  /** The slot of `name`, if it has one. */
  function Position<V>(es: seq<Entry<V>>, h: nat, name: string): (p: Option<nat>)
    requires 0 < |es|
    ensures p.Some? ==> p.value < |es| && es[p.value].occupied && es[p.value].name == name
  {
    var k := Probe(es, h, name, 0);
    if k == |es| || !es[Slot(h, k, |es|)].occupied then None else Some(Slot(h, k, |es|))
  }

  /** No holes: every entry is found by probing for its name. So names are unique. */
  ghost predicate NoHoles<V>(es: seq<Entry<V>>, hash: string -> nat) {
    0 < |es| && forall j :: 0 <= j < |es| && es[j].occupied ==> Position(es, hash(es[j].name), es[j].name) == Some(j)
  }

  /** The bindings that a table stands for. */
  ghost function Bindings<V>(es: seq<Entry<V>>, hash: string -> nat): (m: map<string, V>)
    requires NoHoles(es, hash)
    ensures forall n :: n in m <==> Position(es, hash(n), n).Some?
    ensures forall n :: n in m ==> m[n] == es[Position(es, hash(n), n).value].value
  {
    var names := set j | 0 <= j < |es| && es[j].occupied :: es[j].name;
    var m := map n | n in names && Position(es, hash(n), n).Some? :: es[Position(es, hash(n), n).value].value;
    assert forall n :: Position(es, hash(n), n).Some? ==> n in names;
    m
  }

  // --- Adding --------------------------------------------------------------------------

  /** The slot where `name` is or would go. */
  function Target<V>(es: seq<Entry<V>>, h: nat, name: string): (p: Option<nat>)
    requires 0 < |es|
    ensures p.Some? ==> p.value < |es|
  {
    var k := Probe(es, h, name, 0);
    if k == |es| then None else Some(Slot(h, k, |es|))
  }

  /** Filling a slot where probing for `name` stops leaves the result for other names alone. */
  lemma {:induction false} AddedPosition<V>(es: seq<Entry<V>>, hash: string -> nat, name: string, e: Entry<V>,
                                            other: string)
    requires NoHoles(es, hash) && Target(es, hash(name), name).Some? && e.occupied && e.name == name
    ensures var s := Target(es, hash(name), name).value;
            Position(es[s := e], hash(other), other) == if other == name then Some(s)
              else Position(es, hash(other), other)
  {
    var s := Target(es, hash(name), name).value;
    var es1 := es[s := e];
    var h := hash(other);
    var k := Probe(es, h, other, 0);
    if other == name {
      assert forall j :: 0 <= j < k ==> !Stops(es1, h, j, other) by {
        forall j | 0 <= j < k ensures !Stops(es1, h, j, other) {
          assert !Stops(es, h, j, other);
        }
      }
      assert Stops(es1, h, k, other);
      ProbeIs(es1, h, other, k);
    } else if k < |es| && Slot(h, k, |es|) != s {
      forall j | 0 <= j < k ensures !Stops(es1, h, j, other) {
        assert !Stops(es, h, j, other);
      }
      assert Stops(es1, h, k, other);
      ProbeIs(es1, h, other, k);
    } else {
      AbsentStays(es, hash, s, e, other);
    }
  }

  lemma {:induction false} ProbeIs<V>(es: seq<Entry<V>>, h: nat, name: string, k: nat)
    requires 0 < |es| && k < |es| && Stops(es, h, k, name) && forall j :: 0 <= j < k ==> !Stops(es, h, j, name)
    ensures Probe(es, h, name, 0) == k
  {
    ghost var p := Probe(es, h, name, 0);
    assert p >= k;
  }

  /** A name that was absent is still absent after another name fills a slot. */
  lemma {:induction false} AbsentStays<V>(es: seq<Entry<V>>, hash: string -> nat, s: nat, e: Entry<V>, other: string)
    requires NoHoles(es, hash) && s < |es| && e.name != other && e.occupied
    requires Position(es, hash(other), other) == None
    ensures Position(es[s := e], hash(other), other) == None
  {
    forall j | 0 <= j < |es| && es[j].occupied ensures es[j].name != other {
      assert Position(es, hash(es[j].name), es[j].name) == Some(j);
    }
  }

  lemma {:induction false} AddKeepsTable<V>(es: seq<Entry<V>>, hash: string -> nat, name: string, e: Entry<V>)
    requires NoHoles(es, hash) && Target(es, hash(name), name).Some? && e.occupied && e.name == name
    ensures var s := Target(es, hash(name), name).value;
            NoHoles(es[s := e], hash) && Bindings(es[s := e], hash) == Bindings(es, hash)[name := e.value]
  {
    var s := Target(es, hash(name), name).value;
    var es1 := es[s := e];
    forall n ensures Position(es1, hash(n), n) == if n == name then Some(s) else Position(es, hash(n), n) {
      AddedPosition(es, hash, name, e, n);
    }
    forall j | 0 <= j < |es1| && es1[j].occupied ensures Position(es1, hash(es1[j].name), es1[j].name) == Some(j) {
      if j != s {
        assert Position(es, hash(es[j].name), es[j].name) == Some(j);
      }
    }
    assert NoHoles(es1, hash);
    forall n | n in Bindings(es1, hash) && n != name
      ensures n in Bindings(es, hash) && Bindings(es1, hash)[n] == Bindings(es, hash)[n]
    {
      assert Position(es, hash(n), n).value != s;
    }
  }

  lemma {:induction false} ProbeFails<V>(es: seq<Entry<V>>, h: nat, name: string)
    requires 0 < |es| && forall j :: 0 <= j < |es| ==> !Stops(es, h, j, name)
    ensures Probe(es, h, name, 0) == |es|
  {
  }

  // --- When the table is full -----------------------------------------------------------

  function NamesUpTo<V>(es: seq<Entry<V>>, n: nat): set<string>
    requires n <= |es|
  {
    set j | 0 <= j < n && es[j].occupied :: es[j].name
  }

  lemma {:induction false} NamesCount<V>(es: seq<Entry<V>>, hash: string -> nat, n: nat)
    requires NoHoles(es, hash) && n <= |es|
    ensures |NamesUpTo(es, n)| <= n
    ensures |NamesUpTo(es, n)| == n <==> forall j :: 0 <= j < n ==> es[j].occupied
    decreases n
  {
    hide NoHoles, NamesUpTo;
    NoNames(es);
    if n > 0 {
      NamesCount(es, hash, n - 1);
      OneMoreName(es, hash, n - 1);
    }
  }

  lemma {:induction false} NoNames<V>(es: seq<Entry<V>>)
    ensures NamesUpTo(es, 0) == {}
  {
  }

  lemma {:induction false} OneMoreName<V>(es: seq<Entry<V>>, hash: string -> nat, n: nat)
    requires NoHoles(es, hash) && n < |es|
    ensures NamesUpTo(es, n + 1) == NamesUpTo(es, n) + if es[n].occupied then {es[n].name} else {}
    ensures es[n].occupied ==> es[n].name !in NamesUpTo(es, n)
  {
    hide Position;
    if es[n].occupied {
      forall j | 0 <= j < n && es[j].occupied ensures es[j].name != es[n].name {
        assert Position(es, hash(es[j].name), es[j].name) == Some(j);
        assert Position(es, hash(es[n].name), es[n].name) == Some(n);
      }
    }
  }

  lemma {:induction false} NamesAreBound<V>(es: seq<Entry<V>>, hash: string -> nat)
    requires NoHoles(es, hash)
    ensures Bindings(es, hash).Keys == NamesUpTo(es, |es|)
  {
    hide Probe;
    forall n | n in NamesUpTo(es, |es|) ensures n in Bindings(es, hash) {
      var j :| 0 <= j < |es| && es[j].occupied && es[j].name == n;
      assert Position(es, hash(es[j].name), es[j].name) == Some(j);
    }
  }

  /** Probing comes to every slot. */
  lemma {:induction false} SlotReached(h: nat, j: nat, size: nat) returns (i: nat)
    requires j < size
    ensures i < size && Slot(h, i, size) == j
  {
    var q, r := h / size, h % size;
    assert h == size * q + r;
    i := if j >= r then j - r else j + size - r;
    if j >= r {
      RemainderIs(h + i, size, q, j);
    } else {
      MulNext(size, q);
      RemainderIs(h + i, size, q + 1, j);
    }
  }

  /** A name has a slot, or finds one, unless all slots are taken by others. */
  lemma {:induction false} FullExactly<V>(es: seq<Entry<V>>, hash: string -> nat, name: string)
    requires NoHoles(es, hash)
    ensures Target(es, hash(name), name).Some? <==> name in Bindings(es, hash) || |Bindings(es, hash)| < |es|
  {
    hide Bindings;
    NamesAreBound(es, hash);
    NamesCount(es, hash, |es|);
    TargetNone(es, hash(name), name);
    assert |Bindings(es, hash)| == |Bindings(es, hash).Keys|;
  }

  lemma {:induction false} TargetNone<V>(es: seq<Entry<V>>, h: nat, name: string)
    requires 0 < |es|
    ensures Target(es, h, name) == None <==>
              name !in NamesUpTo(es, |es|) && forall j :: 0 <= j < |es| ==> es[j].occupied
  {
    if Target(es, h, name) == None {
      forall j | 0 <= j < |es| ensures es[j].occupied && es[j].name != name {
        var i := SlotReached(h, j, |es|);
        assert !Stops(es, h, i, name);
      }
    }
    if name !in NamesUpTo(es, |es|) && forall j :: 0 <= j < |es| ==> es[j].occupied {
      forall i | 0 <= i < |es| ensures !Stops(es, h, i, name) {
        assert es[Slot(h, i, |es|)].name in NamesUpTo(es, |es|);
      }
    }
  }
}
