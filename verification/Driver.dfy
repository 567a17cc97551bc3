/** The compile pass over all functions, linking, and what the memory then holds. */
module Driver {
  import opened Limits
  import opened Words
  import opened Ast
  import opened Source
  import opened Typing
  import opened Ir
  import opened Lowering
  import opened LoweringCorrect
  import opened IrShape
  import opened IrGen
  import opened X86
  import opened Machine
  import opened Encoders
  import opened CodeLayout
  import opened Jits
  import opened Backpatching
  import opened Linking
  import opened JitContexts
  import opened CallSimulation
  import opened Divergence
  import opened Compiler
  import opened Callees
  import opened TableRoom

  // --- Programs as lists of functions --------------------------------------------------------

  predicate DistinctNames(fs: seq<Func>) {
    forall i, k :: 0 <= i < k < |fs| ==> fs[i].name != fs[k].name
  }

  function ProgramOf(fs: seq<Func>): Program {
    if fs == [] then map[] else ProgramOf(fs[..|fs| - 1])[fs[|fs| - 1].name := fs[|fs| - 1]]
  }

  lemma {:induction false} ProgramHas(fs: seq<Func>)
    ensures forall i :: 0 <= i < |fs| ==> fs[i].name in ProgramOf(fs)
    ensures forall fn :: fn in ProgramOf(fs) ==>
            exists i :: 0 <= i < |fs| && fs[i].name == fn && ProgramOf(fs)[fn] == fs[i]
    decreases |fs|
  {
    if fs != [] {
      var front := fs[..|fs| - 1];
      ProgramHas(front);
      forall fn | fn in ProgramOf(fs)
        ensures exists i :: 0 <= i < |fs| && fs[i].name == fn && ProgramOf(fs)[fn] == fs[i]
      {
        if fn == fs[|fs| - 1].name {
          assert fs[|fs| - 1].name == fn;
        } else {
          assert fn in ProgramOf(front) && ProgramOf(fs)[fn] == ProgramOf(front)[fn];
          var i :| 0 <= i < |front| && front[i].name == fn && ProgramOf(front)[fn] == front[i];
          assert fs[i].name == fn;
        }
      }
      forall i | 0 <= i < |fs| ensures fs[i].name in ProgramOf(fs) {
        assert i < |front| ==> front[i] == fs[i];
      }
    }
  }

  lemma {:induction false} InProgram(fs: seq<Func>, i: nat)
    requires DistinctNames(fs) && i < |fs|
    ensures fs[i].name in ProgramOf(fs) && ProgramOf(fs)[fs[i].name] == fs[i]
  {
    hide ProgramOf;
    ProgramHas(fs);
    var k :| 0 <= k < |fs| && fs[k].name == fs[i].name && ProgramOf(fs)[fs[i].name] == fs[k];
  }

  /** The lowered program, of the functions that can be lowered. */
  function LoweredProgram(p: Program): (q: IrProgram)
    ensures forall fn :: fn in q <==> fn in p && LowerFunc(p[fn]).Some?
    ensures forall fn :: fn in q ==> q[fn] == LowerFunc(p[fn]).value
  {
    map fn | fn in p && LowerFunc(p[fn]).Some? :: LowerFunc(p[fn]).value
  }

  /** The memory as the machine sees it: the code memory at its address. */
  function Image(imageBase: nat, m: seq<Byte>): (r: seq<Byte>)
    ensures |r| == imageBase + |m|
    ensures forall k :: 0 <= k < |m| ==> r[imageBase + k] == m[k]
  {
    seq(imageBase, _ => 0) + m
  }

  /** `us` are the functions `fs`, lowered, in order. */
  ghost predicate UnitsOf(us: seq<Unit>, fs: seq<Func>) {
    |us| == |fs| && forall i :: 0 <= i < |us| ==> us[i].name == fs[i].name && LowerFunc(fs[i]) == Some(us[i].f)
  }

  // --- When everything compiles ----------------------------------------------------------------

  /** The function lowers without error, its names fit the symbol table, and its labels the label table. */
  predicate Compiles(f: Func) {
    LowerFunc(f).Some? && FuncFits(f) && LowerFunc(f).value.labelCount < MAX_LABELS
  }

  /** How much memory the code of the functions takes, each of them aligned. */
  function CodeNeeded(fs: seq<Func>): nat {
    if fs == [] then 0
    else
      var before, last := CodeNeeded(fs[..|fs| - 1]), LowerFunc(fs[|fs| - 1]);
      if last.None? then before else Aligned(before) + CodeSize(last.value)
  }

  predicate CanCompile(fs: seq<Func>, capacity: nat) {
    && (forall i :: 0 <= i < |fs| ==> Compiles(fs[i]))
    && |fs| <= MAX_FUNCTION_COUNT && CodeNeeded(fs) <= capacity
  }

  lemma {:induction false} NeededMore(fs: seq<Func>, i: nat)
    requires i <= |fs|
    ensures CodeNeeded(fs[..i]) <= CodeNeeded(fs)
    decreases |fs|
  {
    hide LowerFunc, CodeSize;
    if i < |fs| {
      var front := fs[..|fs| - 1];
      NeededMore(front, i);
      assert front[..i] == fs[..i];
    } else {
      assert fs[..i] == fs;
    }
  }

  lemma {:induction false} NeededNext(fs: seq<Func>, i: nat)
    requires i < |fs| && LowerFunc(fs[i]).Some?
    ensures CodeNeeded(fs[..i + 1]) == Aligned(CodeNeeded(fs[..i])) + CodeSize(LowerFunc(fs[i]).value)
  {
    hide LowerFunc, CodeSize;
    assert fs[..i + 1][..i] == fs[..i] && fs[..i + 1][i] == fs[i];
  }

  /** Lowers and compiles every function. Stops at the first that fails. */
  method CompilePass(ctx: JitContext, fs: seq<Func>, hash: string -> nat) returns (ok: bool)
    requires ctx.Linkable() && ctx.units == [] && ctx.top == 0
    modifies ctx, ctx.vregMap, ctx.physRegs, ctx.labelOffset, ctx.labelDefined, ctx.code
    ensures ok <==> CanCompile(fs, ctx.code.Length)
    ensures ok ==> ctx.Linkable() && UnitsOf(ctx.units, fs)
  {
    hide LowerFunc, WellFormed, UnitsOf, Compiles, CodeSize, LaidOut, UnitIn, AllSites, Registered;
    NoUnits(fs);
    assert CodeNeeded([]) == 0 && fs[..0] == [];
    for i := 0 to |fs|
      invariant ctx.Linkable() && UnitsOf(ctx.units, fs[..i]) && ctx.top == CodeNeeded(fs[..i])
      invariant i <= MAX_FUNCTION_COUNT && forall k :: 0 <= k < i ==> Compiles(fs[k])
    {
      OneMoreUnit(ctx.units, fs, i);
      UnitsCount(ctx.units, fs[..i]);
      CompilesMeans(fs[i]);
      ok := CompileOne(ctx, fs[i], hash);
      if LowerFunc(fs[i]).Some? {
        NeededNext(fs, i);
        NeededMore(fs, i + 1);
      }
      if !ok {
        return false;
      }
    }
    assert fs[..|fs|] == fs;
    return true;
  }

  lemma {:induction false} UnitsCount(us: seq<Unit>, fs: seq<Func>)
    requires UnitsOf(us, fs)
    ensures |us| == |fs|
  {
  }

  lemma {:induction false} CompilesMeans(f: Func)
    ensures Compiles(f) <==> LowerFunc(f).Some? && FuncFits(f) && LowerFunc(f).value.labelCount < MAX_LABELS
  {
  }

  method CompileOne(ctx: JitContext, f: Func, hash: string -> nat) returns (ok: bool)
    requires ctx.Linkable()
    modifies ctx, ctx.vregMap, ctx.physRegs, ctx.labelOffset, ctx.labelDefined, ctx.code
    ensures ok <==>
              && Compiles(f) && |old(ctx.units)| < MAX_FUNCTION_COUNT
              && Aligned(old(ctx.top)) + CodeSize(LowerFunc(f).value) <= ctx.code.Length
    ensures ok ==> ctx.Linkable() && ctx.top == Aligned(old(ctx.top)) + CodeSize(LowerFunc(f).value)
    ensures ok ==> ctx.units == old(ctx.units) + [Unit(f.name, LowerFunc(f).value, Aligned(old(ctx.top)))]
  {
    hide LowerFunc, WellFormed, LaidOut, UnitIn, AllSites, Registered, CodeSize, FinalCode, FuncFits, RoomFunc;
    if LowerFunc(f).Some? {
      RoomIsNames(f);
    }
    var running, ir, errors := GenFunction(f, hash);
    if !running || ir == None || errors > 0 {
      return false;
    }
    LoweredIsWellFormed(f);
    var jit := ctx.CompileFunction(f.name, ir.value);
    ok := jit.Some?;
  }

  lemma {:induction false} NoUnits(fs: seq<Func>)
    ensures UnitsOf([], fs[..0])
  {
  }

  lemma {:induction false} OneMoreUnit(us: seq<Unit>, fs: seq<Func>, i: nat)
    requires i < |fs| && UnitsOf(us, fs[..i])
    ensures forall u: Unit :: u.name == fs[i].name && LowerFunc(fs[i]) == Some(u.f) ==> UnitsOf(us + [u], fs[..i + 1])
  {
    hide LowerFunc;
    assert fs[..i + 1] == fs[..i] + [fs[i]];
  }

  /** Names are registered in order, so no earlier entry hides a later one. */
  lemma {:induction false} FirstOfItsName(fs: seq<Func>, us: seq<Unit>, registry: seq<CompiledFunction>,
                                          imageBase: nat, i: nat)
    requires UnitsOf(us, fs) && DistinctNames(fs) && |registry| == |us| && i < |us|
    requires forall i :: 0 <= i < |us| ==> Registered(registry[i], us[i], imageBase)
    ensures var addr := Addresses(registry); us[i].name in addr && addr[us[i].name] == imageBase + us[i].base
  {
    hide Addresses, LowerFunc;
    assert Registered(registry[i], us[i], imageBase);
    forall k | 0 <= k < i ensures registry[k].name != registry[i].name {
      assert Registered(registry[k], us[k], imageBase);
      assert us[k].name == fs[k].name && us[i].name == fs[i].name;
    }
    FirstAddress(registry, i);
  }

  lemma {:induction false} UnitCode(us: seq<Unit>, top: nat, m: seq<Byte>, m1: seq<Byte>, addr: map<string, Word>,
                                    imageBase: nat, i: nat)
    requires LaidOut(us, top) && top <= |m| && i < |us|
    requires UnitIn(m, us[i]) && LinkedMemory(m, m1, AllSites(us), addr)
    ensures CodeAt(Image(imageBase, m1), imageBase + us[i].base, CodeBytes(us[i].f, |us[i].f.code|, addr))
  {
    hide LinkedMemory, AllSites, CodeBytes, WellFormed, LaidOut, FinalCode, CodeAt, Image, CodeSize;
    var u := us[i];
    SegmentLinked(m, m1, us, top, addr, i);
    SizeKept(m, m1, AllSites(us), addr);
    UnitBelow(us, top, i);
    InImage(imageBase, m1, u.base, EndOf(u), CodeBytes(u.f, |u.f.code|, addr));
  }

  lemma {:induction false} InImage(imageBase: nat, m: seq<Byte>, from: nat, to: nat, bs: seq<Byte>)
    requires from <= to <= |m| && m[from..to] == bs
    ensures CodeAt(Image(imageBase, m), imageBase + from, bs)
  {
    var image := Image(imageBase, m);
    forall k | 0 <= k < |bs| ensures image[imageBase + from + k] == bs[k] {
      assert m[from..to][k] == m[from + k];
    }
  }

  /** Every function's code, with its calls linked, is in the image at its address. */
  lemma {:induction false} BuiltIsLinked(fs: seq<Func>, us: seq<Unit>, top: nat, m: seq<Byte>, m1: seq<Byte>,
                                         registry: seq<CompiledFunction>, imageBase: nat)
    requires UnitsOf(us, fs) && DistinctNames(fs) && LaidOut(us, top) && top <= |m|
    requires |registry| == |us| && (forall i :: 0 <= i < |us| ==> Registered(registry[i], us[i], imageBase))
    requires (forall i :: 0 <= i < |us| ==> UnitIn(m, us[i])) && LinkedMemory(m, m1, AllSites(us), Addresses(registry))
    ensures Linked(Image(imageBase, m1), LoweredProgram(ProgramOf(fs)), Addresses(registry))
  {
    hide LinkedMemory, LaidOut, AllSites, LowerFunc, Addresses, CodeBytes, Registered, UnitIn, CodeAt, Image,
      DistinctNames, UnitsOf, ProgramOf;
    var q, addr := LoweredProgram(ProgramOf(fs)), Addresses(registry);
    forall fn | fn in q
      ensures fn in addr && CodeAt(Image(imageBase, m1), addr[fn], CodeBytes(q[fn], |q[fn].code|, addr))
    {
      var i := UnitOf(fs, us, fn);
      FirstOfItsName(fs, us, registry, imageBase, i);
      UnitCode(us, top, m, m1, addr, imageBase, i);
    }
  }

  lemma {:induction false} UnitOf(fs: seq<Func>, us: seq<Unit>, fn: string) returns (i: nat)
    requires UnitsOf(us, fs) && fn in LoweredProgram(ProgramOf(fs))
    ensures i < |us| && us[i].name == fn && us[i].f == LoweredProgram(ProgramOf(fs))[fn]
  {
    hide LowerFunc, ProgramOf;
    ProgramHas(fs);
    i :| 0 <= i < |fs| && fs[i].name == fn && ProgramOf(fs)[fn] == fs[i];
  }

  // --- When linking succeeds -------------------------------------------------------------------

  /** All calls of the program, function by function, in the order of their code. */
  function ProgramCalls(fs: seq<Func>): seq<CallShape> {
    if fs == [] then [] else ProgramCalls(fs[..|fs| - 1]) + CallsInBody(fs[|fs| - 1].body)
  }

  /** The calls that are recorded: the first 1024. */
  function Recorded(calls: seq<CallShape>): seq<CallShape> {
    if |calls| <= MAX_CALL_SITES then calls else calls[..MAX_CALL_SITES]
  }

  /** The calls are to functions of the program. */
  predicate CallsKnown(fs: seq<Func>, calls: seq<CallShape>) {
    forall c :: c in calls ==> c.fn in ProgramOf(fs)
  }

  /** One site for each call, in order. */
  predicate Matches(sites: seq<CallSite>, calls: seq<CallShape>) {
    |sites| == |calls| && forall i :: 0 <= i < |sites| ==> sites[i].target == calls[i].fn
  }

  lemma {:induction false} MatchesBoth(a: seq<CallSite>, x: seq<CallShape>, b: seq<CallSite>, y: seq<CallShape>)
    requires Matches(a, x) && Matches(b, y)
    ensures Matches(a + b, x + y)
  {
  }

  lemma {:induction false} CodeMatches(f: IrFunc, base: nat, n: nat)
    requires n <= |f.code|
    ensures Matches(CallSitesOf(f, base, n), CallsMade(f.code[..n]))
    decreases n
  {
    hide SiteOffset, ArgsAtEnd, Matches;
    if n == 0 {
      assert Matches([], []) by { NothingMatches(); }
    } else {
      CodeMatches(f, base, n - 1);
      var i, code := f.code[n - 1], f.code[..n];
      assert code[..n - 1] == f.code[..n - 1];
      if i.CallFn? {
        var site, call := CallSite(base + SiteOffset(f, n - 1), i.fn), CallShape(i.fn, ArgsAtEnd(code[..n - 1]));
        OneMatches(site, call);
        MatchesBoth(CallSitesOf(f, base, n - 1), CallsMade(code[..n - 1]), [site], [call]);
      } else {
        assert CallSitesOf(f, base, n) == CallSitesOf(f, base, n - 1) && CallsMade(code) == CallsMade(code[..n - 1]);
      }
    }
  }

  lemma {:induction false} NothingMatches()
    ensures Matches([], [])
  {
  }

  lemma {:induction false} OneMatches(site: CallSite, call: CallShape)
    requires site.target == call.fn
    ensures Matches([site], [call])
  {
  }

  /** The call sites of the code are the calls of the source. */
  lemma {:induction false} SitesAreCalls(fs: seq<Func>, us: seq<Unit>)
    requires UnitsOf(us, fs)
    ensures Matches(AllSites(us), ProgramCalls(fs))
    decreases |us|
  {
    hide CallSitesOf, CallsMade, CallsInBody, Matches, LowerFunc;
    if us == [] {
      NothingMatches();
    } else {
      var k := |us| - 1;
      var u := us[k];
      assert UnitsOf(us[..k], fs[..k]);
      SitesAreCalls(fs[..k], us[..k]);
      CodeMatches(u.f, u.base, |u.f.code|);
      assert u.f.code[..|u.f.code|] == u.f.code;
      assert LowerFunc(fs[k]) == Some(u.f);
      CallsAreKept(fs[k]);
      MatchesBoth(AllSites(us[..k]), ProgramCalls(fs[..k]), SitesOf(u), CallsInBody(fs[k].body));
    }
  }

  /** Linking succeeds exactly when every call that was recorded is to a function of the program. */
  lemma {:induction false} LinksExactly(fs: seq<Func>, us: seq<Unit>, registry: seq<CompiledFunction>, imageBase: nat)
    requires UnitsOf(us, fs) && DistinctNames(fs) && |registry| == |us|
    requires forall i :: 0 <= i < |us| ==> Registered(registry[i], us[i], imageBase)
    ensures (forall s :: s in Capped(AllSites(us)) ==> s.target in Addresses(registry)) <==>
            CallsKnown(fs, Recorded(ProgramCalls(fs)))
  {
    hide LowerFunc, Addresses, ProgramOf, AllSites, UnitsOf, ProgramCalls, Registered, DistinctNames, LoweredProgram;
    SitesAreCalls(fs, us);
    AllLowered(fs, us);
    var sites, calls := Capped(AllSites(us)), Recorded(ProgramCalls(fs));
    assert Matches(sites, calls);
    forall name ensures name in Addresses(registry) <==> name in ProgramOf(fs) {
      AddressedIsCompiled(fs, us, registry, imageBase, name);
    }
    if forall s :: s in sites ==> s.target in Addresses(registry) {
      forall c | c in calls ensures c.fn in ProgramOf(fs) {
        var i :| 0 <= i < |calls| && calls[i] == c;
        assert sites[i] in sites;
      }
    }
    if CallsKnown(fs, calls) {
      forall s | s in sites ensures s.target in Addresses(registry) {
        var i :| 0 <= i < |sites| && sites[i] == s;
        assert calls[i] in calls;
      }
    }
  }

  lemma {:induction false} AddressedIsCompiled(fs: seq<Func>, us: seq<Unit>, registry: seq<CompiledFunction>,
                                               imageBase: nat, name: string)
    requires UnitsOf(us, fs) && DistinctNames(fs) && |registry| == |us|
    requires forall i :: 0 <= i < |us| ==> Registered(registry[i], us[i], imageBase)
    ensures name in Addresses(registry) <==> name in LoweredProgram(ProgramOf(fs))
  {
    hide LowerFunc, Addresses, ProgramOf, LoweredProgram;
    NoAddress(registry, name);
    AllLowered(fs, us);
    ProgramHas(fs);
    if name in Addresses(registry) {
      var k :| 0 <= k < |registry| && registry[k].name == name;
      assert Registered(registry[k], us[k], imageBase) && us[k].name == fs[k].name;
    }
    if name in ProgramOf(fs) {
      var i :| 0 <= i < |fs| && fs[i].name == name;
      assert Registered(registry[i], us[i], imageBase) && us[i].name == fs[i].name;
    }
  }

  /** An unlinked call holds the placeholder. */
  lemma {:induction false} SiteOpen(m: seq<Byte>, us: seq<Unit>, i: nat, s: CallSite)
    requires i < |us| && UnitIn(m, us[i]) && s in SitesOf(us[i])
    ensures us[i].base <= s.loc && s.loc + 8 <= EndOf(us[i]) && EndOf(us[i]) <= |m|
    ensures m[s.loc..s.loc + 8] == Le64(PLACEHOLDER)
  {
    hide CodeBytes, CallSitesOf, Le64, CodeSize, WellFormed;
    var u := us[i];
    CodeLinked(u.f, u.base, |u.f.code|, map[]);
    var b := CodeBytes(u.f, |u.f.code|, map[]);
    assert m[u.base..EndOf(u)] == b;
    assert Filled(b, b, u.base, s, map[]);
    SliceOfSlice(m, u.base, EndOf(u), s.loc);
  }

  lemma {:induction false} SliceOfSlice(m: seq<Byte>, from: nat, to: nat, at: nat)
    requires from <= at && at + 8 <= to <= |m|
    ensures m[from..to][at - from..at - from + 8] == m[at..at + 8]
  {
    var a, k := m[from..to], at - from;
    var inner, outer := a[k..k + 8], m[at..at + 8];
    forall j | 0 <= j < 8 ensures inner[j] == outer[j] {
      assert a[k + j] == m[at + j];
    }
  }

  lemma {:induction false} SiteIn(us: seq<Unit>, k: nat) returns (i: nat)
    requires k < |AllSites(us)|
    ensures i < |us| && AllSites(us)[k] in SitesOf(us[i])
    decreases |us|
  {
    hide SitesOf;
    var n := |us| - 1;
    if k < |AllSites(us[..n])| {
      i := SiteIn(us[..n], k);
    } else {
      i := n;
    }
  }

  /**
    What linking leaves, call by call: each recorded call has the address of its function, if
    that has one; the placeholder stays in every other call, in particular in all calls after
    the first 1024, although linking may have succeeded.
   */
  lemma {:induction false} CapLeaves(us: seq<Unit>, top: nat, m: seq<Byte>, m1: seq<Byte>, addr: map<string, Word>,
                                     k: nat)
    requires LaidOut(us, top) && top <= |m| && (forall i :: 0 <= i < |us| ==> UnitIn(m, us[i]))
    requires LinkedMemory(m, m1, Capped(AllSites(us)), addr) && k < |AllSites(us)|
    ensures var s := AllSites(us)[k];
            s.loc + 8 <= |m1| && m1[s.loc..s.loc + 8] ==
              Le64(if k < MAX_CALL_SITES then TargetOf(addr, s.target) else PLACEHOLDER)
  {
    hide Le64, LaidOut, UnitIn, SitesOf, AllSites, LinkedMemory, Capped, Ordered, TargetOf;
    var sites := AllSites(us);
    var i := SiteIn(us, k);
    SiteOpen(m, us, i, sites[k]);
    if k < MAX_CALL_SITES {
      RecordedFilled(m, m1, sites, addr, k);
    } else {
      AllSitesOrdered(us, top);
      OthersLeft(m, m1, sites, addr, top, k);
    }
  }

  lemma {:induction false} RecordedFilled(m: seq<Byte>, m1: seq<Byte>, sites: seq<CallSite>, addr: map<string, Word>,
                                          k: nat)
    requires LinkedMemory(m, m1, Capped(sites), addr) && k < |sites| && k < MAX_CALL_SITES
    requires sites[k].loc + 8 <= |m| && m[sites[k].loc..sites[k].loc + 8] == Le64(PLACEHOLDER)
    ensures var s := sites[k]; s.loc + 8 <= |m1| && m1[s.loc..s.loc + 8] == Le64(TargetOf(addr, s.target))
  {
    hide Le64;
    assert Capped(sites)[k] == sites[k];
    assert SiteLinked(m, m1, sites[k], addr);
  }

  lemma {:induction false} OthersLeft(m: seq<Byte>, m1: seq<Byte>, sites: seq<CallSite>, addr: map<string, Word>,
                                      top: nat, k: nat)
    requires LinkedMemory(m, m1, Capped(sites), addr) && Ordered(sites, 0, top) && MAX_CALL_SITES <= k < |sites|
    requires sites[k].loc + 8 <= |m|
    ensures var s := sites[k]; |m1| == |m| && m1[s.loc..s.loc + 8] == m[s.loc..s.loc + 8]
  {
    hide SiteLinked, Ordered, Capped, InSite;
    var s := sites[k];
    forall j | s.loc <= j < s.loc + 8 ensures m1[j] == m[j] {
      NotRecorded(sites, top, k, j);
    }
  }

  lemma {:induction false} NotRecorded(sites: seq<CallSite>, top: nat, k: nat, j: nat)
    requires Ordered(sites, 0, top) && MAX_CALL_SITES <= k < |sites| && sites[k].loc <= j < sites[k].loc + 8
    ensures !InSite(Capped(sites), j)
  {
    forall s | s in Capped(sites) ensures !(s.loc <= j < s.loc + 8) {
      var i :| 0 <= i < MAX_CALL_SITES && Capped(sites)[i] == s;
      assert sites[i] == s;
    }
  }

  /**
    Compiles and links a program. It succeeds exactly when every function compiles, their code
    fits the memory, and all calls that were recorded are to functions of the program. Then,
    if no call site was dropped for want of room, the machine code of the whole program stands
    in the image.
   */
  method Build(fs: seq<Func>, hash: string -> nat, capacity: nat, imageBase: nat)
    returns (ok: bool, memory: seq<Byte>, registry: seq<CompiledFunction>)
    requires imageBase + capacity <= MAX64 && imageBase % STACK_ALIGNMENT == 0
    ensures DistinctNames(fs) ==> (ok <==> CanCompile(fs, capacity) && CallsKnown(fs, Recorded(ProgramCalls(fs))))
    ensures ok && DistinctNames(fs) && |ProgramCalls(fs)| <= MAX_CALL_SITES ==>
              && LoweredProgram(ProgramOf(fs)).Keys == ProgramOf(fs).Keys
              && Linked(Image(imageBase, memory), LoweredProgram(ProgramOf(fs)), Addresses(registry))
  {
    hide LinkedMemory, LaidOut, AllSites, LowerFunc, Addresses, Linked, WellFormed, UnitIn, UnitsOf, CanCompile,
      CallsKnown,
      ProgramCalls, Registered, ProgramOf, DistinctNames, Matches;
    var ctx := new JitContext(capacity, imageBase);
    ok := CompilePass(ctx, fs, hash);
    if !ok {
      return false, [], [];
    }
    ghost var m := ctx.code[..];
    ok := ctx.LinkAll();
    memory, registry := ctx.code[..], ctx.registry;
    SitesAreCalls(fs, ctx.units);
    MatchesSize(AllSites(ctx.units), ProgramCalls(fs));
    if DistinctNames(fs) {
      LinksExactly(fs, ctx.units, ctx.registry, imageBase);
      if ok && |ProgramCalls(fs)| <= MAX_CALL_SITES {
        BuiltIsLinked(fs, ctx.units, ctx.top, m, memory, registry, imageBase);
        AllLowered(fs, ctx.units);
      }
    }
  }

  lemma {:induction false} MatchesSize(sites: seq<CallSite>, calls: seq<CallShape>)
    requires Matches(sites, calls)
    ensures |sites| == |calls|
  {
  }

  lemma {:induction false} AllLowered(fs: seq<Func>, us: seq<Unit>)
    requires UnitsOf(us, fs) && DistinctNames(fs)
    ensures LoweredProgram(ProgramOf(fs)).Keys == ProgramOf(fs).Keys
  {
    hide LowerFunc;
    var p := ProgramOf(fs);
    ProgramHas(fs);
    forall fn | fn in p ensures LowerFunc(p[fn]).Some? {
      var i :| 0 <= i < |fs| && fs[i].name == fn && p[fn] == fs[i];
      assert LowerFunc(fs[i]) == Some(us[i].f);
    }
  }

  /**
    The end of the chain: what `Build` leaves in memory runs as the source program does.
   */
  lemma {:induction false} BuiltProgramRuns(fs: seq<Func>, image: seq<Byte>, addr: map<string, Word>, fn: string,
                                            args: seq<Word>, e: Cpu, fuel: nat)
    returns (n: nat, m: Cpu)
    requires DistinctNames(fs) && forall i :: 0 <= i < |fs| ==> TypedFunc(fs[i])
    requires LoweredProgram(ProgramOf(fs)).Keys == ProgramOf(fs).Keys
    requires Linked(image, LoweredProgram(ProgramOf(fs)), addr)
    requires fn in ProgramOf(fs) && Entered(e, args) && fn in addr && e.pc == addr[fn]
    requires Final(Invoke(ProgramOf(fs), fn, args, [], fuel))
    ensures RunsTo(image, e, Invoke(ProgramOf(fs), fn, args, [], fuel), n, m)
  {
    hide LoweredTo, Linked, Entered, CameBack, Steps, Invoke, LoweredProgram, ProgramOf;
    BuiltIsLowered(fs);
    n, m := CompilerCorrect(ProgramOf(fs), LoweredProgram(ProgramOf(fs)), image, addr, fn, args, e, fuel);
  }

  lemma {:induction false} BuiltIsLowered(fs: seq<Func>)
    requires DistinctNames(fs) && forall i :: 0 <= i < |fs| ==> TypedFunc(fs[i])
    requires LoweredProgram(ProgramOf(fs)).Keys == ProgramOf(fs).Keys
    ensures LoweredTo(ProgramOf(fs), LoweredProgram(ProgramOf(fs)))
  {
    hide LowerFunc, TypedFunc;
    var p, q := ProgramOf(fs), LoweredProgram(ProgramOf(fs));
    ProgramHas(fs);
    forall g | g in p ensures g in q && TypedFunc(p[g]) && LowerFunc(p[g]) == Some(q[g]) {
      var i :| 0 <= i < |fs| && fs[i].name == g && p[g] == fs[i];
      assert g in q.Keys;
    }
  }

  /** A call without end in the source program has no end on the processor. */
  lemma {:induction false} BuiltProgramDiverges(fs: seq<Func>, image: seq<Byte>, addr: map<string, Word>, fn: string,
                                                args: seq<Word>, e: Cpu)
    requires DistinctNames(fs) && forall i :: 0 <= i < |fs| ==> TypedFunc(fs[i])
    requires LoweredProgram(ProgramOf(fs)).Keys == ProgramOf(fs).Keys
    requires Linked(image, LoweredProgram(ProgramOf(fs)), addr)
    requires fn in ProgramOf(fs) && Entered(e, args) && fn in addr && e.pc == addr[fn]
    requires Diverges(ProgramOf(fs), fn, args)
    ensures NeverReturns(image, e)
  {
    hide LoweredTo, Linked, Entered, Diverges, NeverReturns, LoweredProgram, ProgramOf;
    BuiltIsLowered(fs);
    CompilerDiverges(ProgramOf(fs), LoweredProgram(ProgramOf(fs)), image, addr, fn, args, e);
  }
}
