/** The stack traffic of calls: pushes, pops, the prologue's saves and the epilogue. */
module CallProtocol {
  import opened Words
  import opened X86
  import opened Machine
  import opened Encoders
  import opened Templates

  /** `m1` is `m` after values were pushed, `vals[0]` on top; RAX may have served as scratch. */
  ghost predicate Pushed(m: Cpu, m1: Cpu, vals: seq<int>) {
    && m1.pc == m.pc && m1.regs[RSP] == m.regs[RSP] - 8 * |vals|
    && (forall i :: 0 <= i < |vals| ==> Read(m1.mem, m1.regs[RSP] + 8 * i) == vals[i])
    && (forall a :: a >= m.regs[RSP] ==> Read(m1.mem, a) == Read(m.mem, a))
    && (forall r: Reg :: r != RAX && r != RSP ==> m1.regs[r] == m.regs[r])
  }

  function ValuesOf(m: Cpu, locs: Locations, vs: seq<nat>): (w: seq<int>)
    ensures |w| == |vs|
    ensures forall i :: 0 <= i < |vs| ==> w[i] == ValueAt(m, LocationOf(locs, vs[i]))
  {
    seq(|vs|, i requires 0 <= i < |vs| => ValueAt(m, LocationOf(locs, vs[i])))
  }

  /** The location is a home whose cell, if it is one, is not below the stack pointer. */
  predicate Safe(m: Cpu, loc: Location) {
    IsHome(loc) && (loc.OnStack? ==> Local(m, loc.offset) >= m.regs[RSP])
  }

  lemma {:induction false} PushEffect(loc: Location, direct: bool, m: Cpu) returns (m1: Cpu)
    requires IsHome(loc)
    ensures Takes(PushCode(loc, direct), m, m1) && Pushed(m, m1, [ValueAt(m, loc)])
  {
    hide Takes;
    var w := ValueAt(m, loc);
    var sp := m.regs[RSP] - 8;
    if loc.InReg? && direct {
      m1 := SetReg(m, RSP, sp).(mem := m.mem[sp := w]);
      TakesOne(Push(loc.reg), m, m1);
    } else {
      var ma := SetReg(m, RAX, w);
      m1 := SetReg(ma, RSP, sp).(mem := m.mem[sp := w]);
      LoadToTakes(RAX, loc, m);
      TakesOne(Push(RAX), ma, m1);
      TakesBoth(LoadTo(RAX, loc), [Push(RAX)], m, ma, m1);
    }
  }

  lemma {:induction false} PushedMore(m: Cpu, m1: Cpu, m2: Cpu, vals: seq<int>, w: int)
    requires Pushed(m, m1, vals) && Pushed(m1, m2, [w])
    ensures Pushed(m, m2, [w] + vals)
  {
    forall i | 0 <= i < |[w] + vals| ensures Read(m2.mem, m2.regs[RSP] + 8 * i) == ([w] + vals)[i] {
      if i > 0 {
        assert Read(m1.mem, m1.regs[RSP] + 8 * (i - 1)) == vals[i - 1];
      } else {
        assert Read(m2.mem, m2.regs[RSP] + 8 * 0) == [w][0];
      }
    }
  }

  lemma {:induction false} StillHome(loc: Location, m: Cpu, m1: Cpu, vals: seq<int>)
    requires Safe(m, loc) && Pushed(m, m1, vals)
    ensures IsHome(loc) && ValueAt(m1, loc) == ValueAt(m, loc)
  {
    assert m1.regs[RBP] == m.regs[RBP];
  }

  lemma {:induction false} PushAllEffect(locs: Locations, vs: seq<nat>, direct: bool, m: Cpu) returns (m1: Cpu)
    requires forall v :: v in vs ==> Safe(m, LocationOf(locs, v))
    ensures Takes(PushAllCode(locs, vs, direct), m, m1) && Pushed(m, m1, ValuesOf(m, locs, vs))
    decreases |vs|
  {
    hide PushCode, Takes, ValueAt, LocationOf, Safe, Pushed;
    if vs == [] {
      m1 := m;
      NothingPushed(m);
      assert Takes([], m, m) by { NoCode(m); }
    } else {
      var ma := PushAllEffect(locs, vs[1..], direct, m);
      var loc := LocationOf(locs, vs[0]);
      assert Safe(m, loc);
      StillHome(loc, m, ma, ValuesOf(m, locs, vs[1..]));
      m1 := PushEffect(loc, direct, ma);
      TakesBoth(PushAllCode(locs, vs[1..], direct), PushCode(loc, direct), m, ma, m1);
      PushedMore(m, ma, m1, ValuesOf(m, locs, vs[1..]), ValueAt(m, loc));
      assert [ValueAt(m, loc)] + ValuesOf(m, locs, vs[1..]) == ValuesOf(m, locs, vs);
    }
  }

  lemma {:induction false} NothingPushed(m: Cpu)
    ensures Pushed(m, m, [])
  {
  }

  lemma {:induction false} NoCode(m: Cpu)
    ensures Takes([], m, m)
  {
  }

  predicate Distinct(regs: seq<Reg>) {
    (forall i, j :: 0 <= i < j < |regs| ==> regs[i] != regs[j]) && RSP !in regs
  }

  /** `m1` is `m` after popping into `regs`. */
  ghost predicate Popped(m: Cpu, m1: Cpu, regs: seq<Reg>) {
    && m1.pc == m.pc && m1.mem == m.mem && m1.regs[RSP] == m.regs[RSP] + 8 * |regs|
    && (forall i :: 0 <= i < |regs| ==> m1.regs[regs[i]] == Read(m.mem, m.regs[RSP] + 8 * i))
    && (forall r: Reg :: r !in regs && r != RSP ==> m1.regs[r] == m.regs[r])
  }

  lemma {:induction false} PopEffect(regs: seq<Reg>, m: Cpu) returns (m1: Cpu)
    requires Distinct(regs)
    ensures Takes(PopCode(regs), m, m1) && Popped(m, m1, regs)
    decreases |regs|
  {
    hide Takes;
    if regs == [] {
      m1 := m;
      NoCode(m);
    } else {
      var sp := m.regs[RSP];
      var ma := SetReg(SetReg(m, RSP, sp + 8), regs[0], Read(m.mem, sp));
      TakesOne(Pop(regs[0]), m, ma);
      m1 := PopEffect(regs[1..], ma);
      TakesBoth([Pop(regs[0])], PopCode(regs[1..]), m, ma, m1);
      assert regs[0] !in regs[1..];
      forall i | 0 <= i < |regs| ensures m1.regs[regs[i]] == Read(m.mem, m.regs[RSP] + 8 * i) {
        if i > 0 {
          assert m1.regs[regs[1..][i - 1]] == Read(ma.mem, ma.regs[RSP] + 8 * (i - 1));
        }
      }
    }
  }

  /** `m1` is `m` after pushing the registers `regs`, the first one first. */
  ghost predicate Saved(m: Cpu, m1: Cpu, regs: seq<Reg>) {
    && m1.pc == m.pc && m1.regs == m.regs[RSP := m.regs[RSP] - 8 * |regs|]
    && (forall i :: 0 <= i < |regs| ==> Read(m1.mem, m.regs[RSP] - 8 * (i + 1)) == m.regs[regs[i]])
    && (forall a :: a >= m.regs[RSP] ==> Read(m1.mem, a) == Read(m.mem, a))
  }

  lemma {:induction false} PushRegsEffect(regs: seq<Reg>, m: Cpu) returns (m1: Cpu)
    requires Distinct(regs)
    ensures Takes(PushRegsCode(regs), m, m1) && Saved(m, m1, regs)
    decreases |regs|
  {
    hide Takes;
    if regs == [] {
      m1 := m;
      NoCode(m);
    } else {
      var sp := m.regs[RSP] - 8;
      var ma := SetReg(m, RSP, sp).(mem := m.mem[sp := m.regs[regs[0]]]);
      TakesOne(Push(regs[0]), m, ma);
      m1 := PushRegsEffect(regs[1..], ma);
      TakesBoth([Push(regs[0])], PushRegsCode(regs[1..]), m, ma, m1);
      forall i | 0 <= i < |regs| ensures Read(m1.mem, m.regs[RSP] - 8 * (i + 1)) == m.regs[regs[i]] {
        if i > 0 {
          assert Read(m1.mem, ma.regs[RSP] - 8 * ((i - 1) + 1)) == ma.regs[regs[1..][i - 1]];
        }
      }
    }
  }

  // --- The caller's side -------------------------------------------------------------

  /**
    Ready to call with arguments `vals`: the first six in the argument registers, the rest
    on the stack, the stack pointer aligned, and nothing at or above the old one changed
    (section 3.2.3 of the System V AMD64 ABI).
   */
  ghost predicate ArgsPassed(m: Cpu, m1: Cpu, vals: seq<int>) {
    var k := RegArgs(|vals|);
    && m1.pc == m.pc
    && m1.regs[RSP] == m.regs[RSP] - Padding(|vals|) - 8 * (|vals| - k) && m1.regs[RSP] % 16 == 0
    && (forall i :: 0 <= i < k ==> m1.regs[ArgRegs[i]] == vals[i])
    && (forall i :: 0 <= i < |vals| - k ==> Read(m1.mem, m1.regs[RSP] + 8 * i) == vals[k + i])
    && (forall a :: a >= m.regs[RSP] ==> Read(m1.mem, a) == Read(m.mem, a))
    && (forall r: Reg :: Kept(r) ==> m1.regs[r] == m.regs[r])
  }

  /**
    Registers that neither the setup of a call nor a callee changes: RBX, RBP and R12 to R15, by
    their numbers. The stack pointer is spoken of apart.
   */
  predicate Kept(r: Reg) {
    r == 3 || r == 5 || 12 <= r <= 15
  }

  lemma {:induction false} PadEffect(n: nat, m: Cpu) returns (m1: Cpu)
    ensures Takes(if Padding(n) > 0 then [SubImm(RSP, STACK_ALIGNMENT / 2)] else [], m, m1)
    ensures m1 == SetReg(m, RSP, m.regs[RSP] - Padding(n))
  {
    m1 := SetReg(m, RSP, m.regs[RSP] - Padding(n));
    if Padding(n) > 0 {
      TakesOne(SubImm(RSP, STACK_ALIGNMENT / 2), m, m1);
    } else {
      assert m1.regs == m.regs;
      NoCode(m);
    }
  }

  lemma {:induction false} CallSetupEffect(locs: Locations, vs: seq<nat>, m: Cpu) returns (m1: Cpu)
    requires forall v :: v in vs ==> Safe(m, LocationOf(locs, v))
    requires m.regs[RSP] % 16 == 0
    ensures Takes(CallSetup(locs, vs), m, m1) && ArgsPassed(m, m1, ValuesOf(m, locs, vs))
  {
    hide Takes, PushAllCode, PopCode, Pushed, Popped;
    var n := |vs|;
    var k := RegArgs(n);
    var x1 := if Padding(n) > 0 then [SubImm(RSP, STACK_ALIGNMENT / 2)] else [];
    var ma := PadEffect(n, m);
    assert forall v :: v in vs ==> Safe(ma, LocationOf(locs, v));
    var mb := PushAllEffect(locs, vs[k..], false, ma);
    StillSafe(locs, vs, ma, mb, ValuesOf(ma, locs, vs[k..]));
    var mc := PushAllEffect(locs, vs[..k], true, mb);
    ArgRegsDistinct(k);
    m1 := PopEffect(ArgRegs[..k], mc);
    TakesBoth(x1, PushAllCode(locs, vs[k..], false), m, ma, mb);
    TakesBoth(x1 + PushAllCode(locs, vs[k..], false), PushAllCode(locs, vs[..k], true), m, mb, mc);
    TakesBoth(x1 + PushAllCode(locs, vs[k..], false) + PushAllCode(locs, vs[..k], true), PopCode(ArgRegs[..k]), m, mc,
      m1);
    SetupDone(locs, vs, m, ma, mb, mc, m1);
  }

  lemma {:induction false} ArgRegsDistinct(k: nat)
    requires k <= 6
    ensures Distinct(ArgRegs[..k]) && forall r: Reg :: Kept(r) ==> r !in ArgRegs
  {
  }

  lemma {:induction false} StillSafe(locs: Locations, vs: seq<nat>, m: Cpu, m1: Cpu, vals: seq<int>)
    requires Pushed(m, m1, vals)
    requires forall v :: v in vs ==> Safe(m, LocationOf(locs, v))
    ensures forall v :: v in vs ==> Safe(m1, LocationOf(locs, v))
    ensures forall v :: v in vs ==> ValueAt(m1, LocationOf(locs, v)) == ValueAt(m, LocationOf(locs, v))
  {
    forall v | v in vs
      ensures Safe(m1, LocationOf(locs, v)) && ValueAt(m1, LocationOf(locs, v)) == ValueAt(m, LocationOf(locs, v))
    {
      assert Safe(m, LocationOf(locs, v));
      assert m1.regs[RBP] == m.regs[RBP];
    }
  }

  /** Popping the register arguments leaves the stack as it was before they were pushed. */
  lemma {:induction false} PoppedBack(mb: Cpu, mc: Cpu, m1: Cpu, w: seq<int>, regs: seq<Reg>)
    requires Pushed(mb, mc, w) && Popped(mc, m1, regs) && |w| == |regs| && Distinct(regs)
    ensures m1.pc == mb.pc && m1.regs[RSP] == mb.regs[RSP]
    ensures forall a :: a >= mb.regs[RSP] ==> Read(m1.mem, a) == Read(mb.mem, a)
    ensures forall i :: 0 <= i < |regs| ==> m1.regs[regs[i]] == w[i]
    ensures forall r: Reg :: r !in regs && r != RAX && r != RSP ==> m1.regs[r] == mb.regs[r]
  {
  }

  lemma {:induction false} SameValues(m: Cpu, m1: Cpu, locs: Locations, vs: seq<nat>, i: nat, j: nat)
    requires i <= j <= |vs|
    requires forall v :: v in vs ==> ValueAt(m1, LocationOf(locs, v)) == ValueAt(m, LocationOf(locs, v))
    ensures ValuesOf(m1, locs, vs[i..j]) == ValuesOf(m, locs, vs)[i..j]
  {
    hide ValueAt, LocationOf;
  }

  lemma {:induction false} PaddedValue(m: Cpu, n: nat, loc: Location)
    requires IsHome(loc)
    ensures ValueAt(SetReg(m, RSP, m.regs[RSP] - n), loc) == ValueAt(m, loc)
  {
  }

  lemma {:induction false} SetupDone(locs: Locations, vs: seq<nat>, m: Cpu, ma: Cpu, mb: Cpu, mc: Cpu, m1: Cpu)
    requires m.regs[RSP] % 16 == 0 && ma == SetReg(m, RSP, m.regs[RSP] - Padding(|vs|))
    requires var k := RegArgs(|vs|);
             && Pushed(ma, mb, ValuesOf(ma, locs, vs[k..])) && Pushed(mb, mc, ValuesOf(mb, locs, vs[..k]))
             && Popped(mc, m1, ArgRegs[..k])
    requires forall v :: v in vs ==> ValueAt(mb, LocationOf(locs, v)) == ValueAt(ma, LocationOf(locs, v))
    requires forall v :: v in vs ==> Safe(ma, LocationOf(locs, v))
    ensures ArgsPassed(m, m1, ValuesOf(m, locs, vs))
  {
    hide ValueAt, LocationOf, Popped, ValuesOf;
    var n := |vs|;
    var k := RegArgs(n);
    forall v | v in vs ensures ValueAt(ma, LocationOf(locs, v)) == ValueAt(m, LocationOf(locs, v)) {
      assert Safe(ma, LocationOf(locs, v));
      PaddedValue(m, Padding(n), LocationOf(locs, v));
    }
    ArgRegsDistinct(k);
    assert vs[k..n] == vs[k..];
    assert vs[0..k] == vs[..k];
    var vals := ValuesOf(m, locs, vs);
    assert vals[k..n] == vals[k..];
    assert vals[0..k] == vals[..k];
    SameValues(m, ma, locs, vs, k, n);
    SameValues(m, mb, locs, vs, 0, k);
    PoppedBack(mb, mc, m1, ValuesOf(mb, locs, vs[..k]), ArgRegs[..k]);
    AlignedAfterPadding(m.regs[RSP], n);
    SetupParts(m, ma, mb, m1, ValuesOf(m, locs, vs));
  }

  lemma {:induction false} SetupParts(m: Cpu, ma: Cpu, mb: Cpu, m1: Cpu, vals: seq<int>)
    requires var k := RegArgs(|vals|);
             && ma == SetReg(m, RSP, m.regs[RSP] - Padding(|vals|)) && Pushed(ma, mb, vals[k..])
             && m1.pc == mb.pc && m1.regs[RSP] == mb.regs[RSP]
             && (forall a :: a >= mb.regs[RSP] ==> Read(m1.mem, a) == Read(mb.mem, a))
             && (forall i :: 0 <= i < k ==> m1.regs[ArgRegs[..k][i]] == vals[..k][i])
             && (forall r: Reg :: r !in ArgRegs[..k] && r != RAX && r != RSP ==> m1.regs[r] == mb.regs[r])
    requires (m.regs[RSP] - Padding(|vals|) - 8 * (|vals| - RegArgs(|vals|))) % 16 == 0
    ensures ArgsPassed(m, m1, vals)
  {
    hide Padding;
    var k := RegArgs(|vals|);
    ArgRegsDistinct(k);
    forall i | 0 <= i < |vals| - k ensures Read(m1.mem, m1.regs[RSP] + 8 * i) == vals[k + i] {
      assert Read(mb.mem, mb.regs[RSP] + 8 * i) == vals[k..][i];
    }
    forall i | 0 <= i < k ensures m1.regs[ArgRegs[i]] == vals[i] {
      assert ArgRegs[..k][i] == ArgRegs[i] && vals[..k][i] == vals[i];
    }
  }

  /** The padding makes up for an odd number of stack arguments. */
  lemma {:induction false} AlignedAfterPadding(sp: int, n: nat)
    requires sp % 16 == 0
    ensures (sp - Padding(n) - 8 * (n - RegArgs(n))) % 16 == 0
  {
    var s := n - RegArgs(n);
    if s % 2 == 1 {
      assert Padding(n) + 8 * s == 16 * (s / 2 + 1);
    } else {
      assert Padding(n) + 8 * s == 16 * (s / 2);
    }
  }

  // --- The callee's side -------------------------------------------------------------

  const SavedRegs: seq<Reg> := [RBX, R12, R13, R14, R15]

  /** The frame pointer is set up and the caller's registers are saved around it. */
  ghost predicate FrameOpened(e: Cpu, m: Cpu) {
    var fp := e.regs[RSP] - 8;
    && m.pc == e.pc && m.regs[RBP] == fp && m.regs[RSP] == fp - CALLEE_SAVED_SIZE
    && (forall r: Reg :: r != RBP && r != RSP ==> m.regs[r] == e.regs[r])
    && Read(m.mem, fp) == e.regs[RBP]
    && (forall i :: 0 <= i < 5 ==> Read(m.mem, fp - 8 * (i + 1)) == e.regs[SavedRegs[i]])
    && (forall a :: a >= e.regs[RSP] ==> Read(m.mem, a) == Read(e.mem, a))
  }

  lemma {:induction false} SaveEffect(e: Cpu) returns (m: Cpu)
    ensures Takes(SaveCode(), e, m) && FrameOpened(e, m)
  {
    hide Takes;
    var fp := e.regs[RSP] - 8;
    var ma := SetReg(e, RSP, fp).(mem := e.mem[fp := e.regs[RBP]]);
    var mb := SetReg(ma, RBP, fp);
    TakesOne(Push(RBP), e, ma);
    TakesOne(MovReg(RBP, RSP), ma, mb);
    TakesBoth([Push(RBP)], [MovReg(RBP, RSP)], e, ma, mb);
    assert [Push(RBP)] + [MovReg(RBP, RSP)] == [Push(RBP), MovReg(RBP, RSP)];
    m := PushRegsEffect(SavedRegs, mb);
    TakesBoth([Push(RBP), MovReg(RBP, RSP)], PushRegsCode(SavedRegs), e, mb, m);
    forall i | 0 <= i < 5 ensures Read(m.mem, fp - 8 * (i + 1)) == e.regs[SavedRegs[i]] {
      assert Read(m.mem, mb.regs[RSP] - 8 * (i + 1)) == mb.regs[SavedRegs[i]];
    }
  }

  /** The frame is gone: the return address is on top and the saved registers are back. */
  ghost predicate FrameClosed(m: Cpu, m1: Cpu) {
    var fp := m.regs[RBP];
    && m1.pc == m.pc && m1.mem == m.mem && m1.regs[RAX] == m.regs[RAX] && m1.regs[RSP] == fp + 8
    && m1.regs[RBP] == Read(m.mem, fp)
    && (forall i :: 0 <= i < 5 ==> m1.regs[SavedRegs[i]] == Read(m.mem, fp - 8 * (i + 1)))
  }

  lemma {:induction false} EpilogueEffect(m: Cpu) returns (m1: Cpu)
    ensures Takes(Epilogue(), m, m1) && FrameClosed(m, m1)
  {
    hide Takes, PopCode, FrameClosed, Popped;
    var fp := m.regs[RBP];
    var ma := SetReg(m, RSP, fp - CALLEE_SAVED_SIZE);
    TakesOne(Lea(RSP, 0 - CALLEE_SAVED_SIZE), m, ma);
    var regs: seq<Reg> := [R15, R14, R13, R12, RBX, RBP];
    m1 := PopEffect(regs, ma);
    TakesBoth([Lea(RSP, 0 - CALLEE_SAVED_SIZE)], PopCode(regs), m, ma, m1);
    PoppedClosed(m, ma, m1, regs);
  }

  lemma {:induction false} PoppedClosed(m: Cpu, ma: Cpu, m1: Cpu, regs: seq<Reg>)
    requires ma == SetReg(m, RSP, m.regs[RBP] - CALLEE_SAVED_SIZE) && regs == [R15, R14, R13, R12, RBX, RBP]
    requires Popped(ma, m1, regs)
    ensures FrameClosed(m, m1)
  {
    var fp := m.regs[RBP];
    forall i | 0 <= i < 5 ensures m1.regs[SavedRegs[i]] == Read(m.mem, fp - 8 * (i + 1)) {
      assert m1.regs[regs[4 - i]] == Read(ma.mem, ma.regs[RSP] + 8 * (4 - i));
      assert regs[4 - i] == SavedRegs[i];
    }
    assert m1.regs[regs[5]] == Read(ma.mem, ma.regs[RSP] + 8 * 5);
  }
}
