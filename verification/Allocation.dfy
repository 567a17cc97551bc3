/** What register allocation guarantees, in whatever order locations are asked for. */
module Allocation {
  import opened Words
  import opened Ir
  import opened IrShape
  import opened X86
  import opened Encoders

  /** Registers handed out are callee-saved, each to one virtual register; spills have their own cell. */
  ghost predicate Sound(a: Alloc) {
    && |a.used| == 16
    && (forall v :: v in a.locs ==>
          match a.locs[v]
          case InReg(r) => Allocatable(r) && a.used[r]
          case OnStack(disp) => disp == CellOffset(a.base + v))
    && (forall v, w :: v in a.locs && w in a.locs && v != w && a.locs[v].InReg? ==> a.locs[v] != a.locs[w])
    && (forall r :: 0 <= r < 16 && a.used[r] ==> exists v :: v in a.locs && a.locs[v] == InReg(r))
  }

  lemma {:induction false} LocateSound(a: Alloc, v: nat)
    requires Sound(a)
    ensures Sound(Locate(a, v))
  {
    hide Sound, FirstFree, CellOffset;
    SoundSize(a);
    if v !in a.locs {
      var r := FirstFree(a.used, 0);
      if r < 16 {
        TakeRegister(a, v, r);
      } else {
        TakeCell(a, v);
      }
    }
  }

  lemma {:induction false} TakeRegister(a: Alloc, v: nat, r: Reg)
    requires Sound(a) && v !in a.locs && Allocatable(r) && !a.used[r]
    ensures Sound(a.(used := a.used[r := true], locs := a.locs[v := InReg(r)]))
  {
    hide CellOffset, Allocatable;
    var b := a.(used := a.used[r := true], locs := a.locs[v := InReg(r)]);
    forall q | 0 <= q < 16 && b.used[q] ensures exists w :: w in b.locs && b.locs[w] == InReg(q) {
      if q == r {
        assert b.locs[v] == InReg(q);
      } else {
        var w :| w in a.locs && a.locs[w] == InReg(q);
        assert b.locs[w] == InReg(q);
      }
    }
  }

  lemma {:induction false} TakeCell(a: Alloc, v: nat)
    requires Sound(a) && v !in a.locs
    ensures Sound(a.(locs := a.locs[v := OnStack(CellOffset(a.base + v))]))
  {
    hide CellOffset, Allocatable;
    var b := a.(locs := a.locs[v := OnStack(CellOffset(a.base + v))]);
    forall q | 0 <= q < 16 && b.used[q] ensures exists w :: w in b.locs && b.locs[w] == InReg(q) {
      var w :| w in a.locs && a.locs[w] == InReg(q);
      assert b.locs[w] == InReg(q);
    }
  }

  lemma {:induction false} LocateAllSound(a: Alloc, vs: seq<nat>)
    requires Sound(a)
    ensures Sound(LocateAll(a, vs))
    decreases |vs|
  {
    hide Sound;
    if vs != [] {
      assert |a.used| == 16 by { SoundSize(a); }
      LocateSound(a, vs[0]);
      LocateAllSound(Locate(a, vs[0]), vs[1..]);
    }
  }

  lemma {:induction false} SoundSize(a: Alloc)
    requires Sound(a)
    ensures |a.used| == 16
  {
  }

  /** The registers that are handed out, in this order: RBX and R12 to R15. */
  function Handed(k: nat): nat {
    if k == 0 then 3 else if k < 5 then 11 + k else 16
  }

  /** The first `n` of them are taken. */
  predicate Taken(used: seq<bool>, n: nat) {
    |used| == 16 && forall r :: 0 <= r < 16 ==> (used[r] <==> exists k :: 0 <= k < n && k < 5 && Handed(k) == r)
  }

  lemma {:induction false} NextFree(used: seq<bool>, n: nat)
    requires Taken(used, n)
    ensures FirstFree(used, 0) == Handed(n)
    ensures n < 5 ==> Taken(used[Handed(n) := true], n + 1)
    ensures n >= 5 ==> Taken(used, n + 1)
  {
    var r := FirstFree(used, 0);
    if n < 5 {
      assert !used[Handed(n)] by {
        assert forall k :: 0 <= k < n ==> Handed(k) != Handed(n);
      }
      var used1 := used[Handed(n) := true];
      forall q | 0 <= q < 16 ensures used1[q] <==> exists k :: 0 <= k < n + 1 && k < 5 && Handed(k) == q {
        if q == Handed(n) {
          assert Handed(n) == q;
        }
      }
      assert forall q :: 0 <= q < Handed(n) && Allocatable(q) ==> used[q] by {
        assert Handed(0) == 3 && Handed(1) == 12 && Handed(2) == 13 && Handed(3) == 14;
      }
    } else {
      assert Handed(0) == 3 && Handed(1) == 12 && Handed(2) == 13 && Handed(3) == 14 && Handed(4) == 15;
      forall q | 0 <= q < 16 && Allocatable(q) ensures used[q] {
        var k := if q == 3 then 0 else q - 11;
        assert Handed(k) == q;
      }
    }
  }

  /** Where the register that is asked for as number `k` goes. */
  function Place(k: nat, base: nat, v: nat): Location {
    if k < 5 then InReg(if k == 0 then 3 else 11 + k) else OnStack(CellOffset(base + v))
  }

  /**
    First come, first served: of registers without a location, the first five to be asked for get
    RBX, R12, R13, R14 and R15 in this order, and every later one its stack cell.
   */
  lemma {:induction false} FirstServed(a: Alloc, n: nat, vs: seq<nat>)
    requires Taken(a.used, n) && (forall i :: 0 <= i < |vs| ==> vs[i] !in a.locs)
    requires forall i, j :: 0 <= i < j < |vs| ==> vs[i] != vs[j]
    ensures forall i :: 0 <= i < |vs| ==> LocateAll(a, vs).locs[vs[i]] == Place(n + i, a.base, vs[i])
    decreases |vs|
  {
    hide CellOffset, FirstFree, Taken;
    if vs != [] {
      UsedSize(a.used, n);
      NextFree(a.used, n);
      var b := Locate(a, vs[0]);
      FirstServed(b, n + 1, vs[1..]);
      forall i | 0 <= i < |vs| ensures LocateAll(a, vs).locs[vs[i]] == Place(n + i, a.base, vs[i]) {
        if i > 0 {
          assert vs[i] == vs[1..][i - 1];
        }
      }
    }
  }

  lemma {:induction false} UsedSize(used: seq<bool>, n: nat)
    requires Taken(used, n)
    ensures |used| == 16
  {
  }

  lemma {:induction false} NoneTaken()
    ensures Taken(seq(16, _ => false), 0)
  {
  }

  /** Cell number `index` lies 56 bytes and `index` words below the frame pointer. */
  lemma {:induction false} CellsDescend(index: nat)
    requires index < 0x1000_0000 - 7
    ensures CellOffset(index) == 0 - 56 - 8 * index
  {
  }

  /** A location, once given, stays. */
  ghost predicate Within(locs: Locations, locs1: Locations) {
    forall v :: v in locs ==> v in locs1 && locs1[v] == locs[v]
  }

  lemma {:induction false} StateSound(f: IrFunc, i: nat)
    requires i <= |f.code|
    ensures Sound(StateAt(f, i).alloc) && StateAt(f, i).alloc.base == f.stackCount
  {
    if i == 0 {
      LocateAllSound(Alloc(seq(16, _ => false), map[], f.stackCount), UpTo(f.params));
    } else {
      StateSound(f, i - 1);
      LocateAllSound(StateAt(f, i - 1).alloc, Queries(f.code[i - 1], StateAt(f, i - 1).pending));
    }
  }

  lemma {:induction false} StateGrows(f: IrFunc, i: nat, j: nat)
    requires i <= j <= |f.code|
    ensures Within(StateAt(f, i).alloc.locs, StateAt(f, j).alloc.locs)
    decreases j
  {
    hide LocateAll, Queries, StartState;
    if i < j {
      StateGrows(f, i, j - 1);
    }
  }

  /** The locations of a whole function. */
  function FinalLocs(f: IrFunc): Locations {
    StateAt(f, |f.code|).alloc.locs
  }

  /** Selection looks only at the locations it asked for. */
  lemma {:induction false} SelectStable(i: Instr, pending: seq<nat>, locs: Locations, locs1: Locations)
    requires Within(locs, locs1)
    requires forall v :: v in Queries(i, pending) ==> v in locs
    ensures Select(i, pending, locs) == Select(i, pending, locs1)
  {
    hide BinaryCode, UnaryCode, TestCode, LoadTo, StoreFrom, CallCleanup, LoadSized, StoreSized;
    assert forall v :: v in Queries(i, pending) ==> LocationOf(locs, v) == LocationOf(locs1, v);
    match i
    case Bin(_, d, a, b) => assert Queries(i, pending)[0] == d && Queries(i, pending)[1] == a
      && Queries(i, pending)[2] == b;
    case Un(_, d, a) => assert Queries(i, pending)[0] == d && Queries(i, pending)[1] == a;
    case Mov(d, a) => assert Queries(i, pending)[0] == d && Queries(i, pending)[1] == a;
    case CallFn(d, _) =>
      assert Queries(i, pending)[0] == d;
      var k := RegArgs(|pending|);
      forall v | v in pending ensures LocationOf(locs, v) == LocationOf(locs1, v) {
        assert v in Queries(i, pending);
      }
      PushStable(pending[k..], false, locs, locs1);
      PushStable(pending[..k], true, locs, locs1);
    case _ =>
  }

  lemma {:induction false} PushStable(vs: seq<nat>, direct: bool, locs: Locations, locs1: Locations)
    requires forall v :: v in vs ==> LocationOf(locs, v) == LocationOf(locs1, v)
    ensures PushAllCode(locs, vs, direct) == PushAllCode(locs1, vs, direct)
    decreases |vs|
  {
    if vs != [] {
      PushStable(vs[1..], direct, locs, locs1);
    }
  }

  /** So every block can be read with the function's final locations. */
  lemma {:induction false} BlockFinal(f: IrFunc, i: nat)
    requires i < |f.code|
    ensures BlockAt(f, i) == Select(f.code[i], StateAt(f, i).pending, FinalLocs(f))
    ensures forall v :: v in Queries(f.code[i], StateAt(f, i).pending) ==> v in FinalLocs(f)
  {
    StateGrows(f, i + 1, |f.code|);
    var s := StateAt(f, i);
    assert StateAt(f, i + 1) == Advance(s, f.code[i]);
    SelectStable(f.code[i], s.pending, StateAt(f, i + 1).alloc.locs, FinalLocs(f));
  }

  lemma {:induction false} ParamsLocated(f: IrFunc)
    ensures forall v :: 1 <= v <= f.params ==> v in StartState(f).alloc.locs
    ensures forall v :: 1 <= v <= f.params ==> v in FinalLocs(f) && StartState(f).alloc.locs[v] == FinalLocs(f)[v]
  {
    StateGrows(f, 0, |f.code|);
    forall v | 1 <= v <= f.params ensures v in StartState(f).alloc.locs {
      assert UpTo(f.params)[v - 1] == v;
    }
  }
}
