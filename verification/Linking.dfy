/** Call sites, and what filling them in does to the code. */
module Linking {
  import opened Limits
  import opened Words
  import opened Ir
  import opened IrShape
  import opened X86
  import opened Encoders
  import opened CodeLayout
  import opened Emission
  import opened Jits
  import opened Backpatching

  // --- The sites of a function ------------------------------------------------------------

  /** The place in the code of `f` of the address that the call at `i` goes to. */
  function SiteOffset(f: IrFunc, i: nat): nat
    requires i < |f.code|
  {
    Offset(f, i) + |EncodeAll(BlockAt(f, i).body)| + 2
  }

  /** The call sites of the first `n` instructions of `f`, whose code is at `base`. */
  function CallSitesOf(f: IrFunc, base: nat, n: nat): seq<CallSite>
    requires n <= |f.code|
  {
    if n == 0 then []
    else
      CallSitesOf(f, base, n - 1)
      + if f.code[n - 1].CallFn? then [CallSite(base + SiteOffset(f, n - 1), f.code[n - 1].fn)] else []
  }

  /** The sites that fit the list. */
  function Capped(sites: seq<CallSite>): seq<CallSite> {
    if |sites| <= MAX_CALL_SITES then sites else sites[..MAX_CALL_SITES]
  }

  lemma {:induction false} CappedMore(s: seq<CallSite>, t: seq<CallSite>, site: CallSite)
    ensures Capped(s + t) + (if |Capped(s + t)| < MAX_CALL_SITES then [site] else []) == Capped(s + (t + [site]))
  {
    assert s + (t + [site]) == s + t + [site];
  }

  lemma {:induction false} SiteNoted(j: Jit, t: Tail, at: nat)
    ensures NoteTail(j, t, true, at).sites ==
            j.sites + if t.Dispatch? && |j.sites| < MAX_CALL_SITES then [CallSite(at + 2, t.fn)] else []
  {
  }

  lemma {:induction false} TailOfCall(f: IrFunc, i: nat)
    requires i < |f.code|
    ensures BlockAt(f, i).tail.Dispatch? <==> f.code[i].CallFn?
    ensures f.code[i].CallFn? ==> BlockAt(f, i).tail.fn == f.code[i].fn
  {
    hide LocateAll, CallSetup, BinaryCode, UnaryCode, CallCleanup, LoadTo, StoreFrom, StateAt;
  }

  lemma {:induction false} LabelKeepsSites(j: Jit, o: Output, i: Instr)
    requires |j.enc.alloc.used| == 16 && i.Label?
    ensures StepJit(j, o, i).0.sites == j.sites
  {
  }

  lemma {:induction false} BlockSites(j: Jit, o: Output, f: IrFunc, n: nat, base: nat)
    requires n < |f.code| && j.enc == StateAt(f, n) && !f.code[n].Label? && |j.enc.alloc.used| == 16
    requires o.Writing? && o.at == base + Offset(f, n)
    ensures StepJit(j, o, f.code[n]).0.sites ==
            j.sites + if f.code[n].CallFn? && |j.sites| < MAX_CALL_SITES
                      then [CallSite(base + SiteOffset(f, n), f.code[n].fn)] else []
  {
    hide BlockAt, Selected, EncodeAll, TailNow, NoteTail, Offset, Advance;
    TailOfCall(f, n);
    BlockIs(f, n, j);
    var b := Selected(j, f.code[n]);
    SiteNoted(Moved(j, f.code[n]), b.tail, At(Put(o, b.body)));
  }

  /** The writing pass records every call, up to the capacity of the list. */
  lemma {:induction false} SitesRecorded(f: IrFunc, sites: seq<CallSite>, m0: seq<Byte>, base: nat, n: nat)
    requires n <= |f.code| && |sites| <= MAX_CALL_SITES
    ensures After(f, sites, Writing(m0, base, 0), n).0.sites == Capped(sites + CallSitesOf(f, base, n))
  {
    hide StepJit, Capped, Offset, SiteOffset, After, CallSitesOf, StateAt;
    if n == 0 {
      NoSitesYet(f, sites, Writing(m0, base, 0));
      assert CallSitesOf(f, base, 0) == [] && sites + [] == sites by { NoCallsYet(f, base); }
      CappedFits(sites);
    } else {
      SitesRecorded(f, sites, m0, base, n - 1);
      PassState(f, sites, Writing(m0, base, 0), n - 1);
      AfterNext(f, sites, Writing(m0, base, 0), n - 1);
      var (j, o) := After(f, sites, Writing(m0, base, 0), n - 1);
      if f.code[n - 1].Label? {
        LabelKeepsSites(j, o, f.code[n - 1]);
      } else {
        BlockSites(j, o, f, n - 1, base);
      }
      MoreSites(sites, f, base, n);
    }
  }

  /** One more instruction adds its site, if there is room. */
  lemma {:induction false} MoreSites(sites: seq<CallSite>, f: IrFunc, base: nat, n: nat)
    requires 0 < n <= |f.code|
    ensures var before := Capped(sites + CallSitesOf(f, base, n - 1));
            Capped(sites + CallSitesOf(f, base, n)) ==
            before + if f.code[n - 1].CallFn? && |before| < MAX_CALL_SITES
                     then [CallSite(base + SiteOffset(f, n - 1), f.code[n - 1].fn)] else []
  {
    hide Capped, SiteOffset;
    if f.code[n - 1].CallFn? {
      CappedMore(sites, CallSitesOf(f, base, n - 1), CallSite(base + SiteOffset(f, n - 1), f.code[n - 1].fn));
    } else {
      assert CallSitesOf(f, base, n) == CallSitesOf(f, base, n - 1);
    }
  }

  lemma {:induction false} NoSitesYet(f: IrFunc, sites: seq<CallSite>, o: Output)
    ensures After(f, sites, o, 0).0.sites == sites
  {
    hide Prologue, StartState;
  }

  lemma {:induction false} NoCallsYet(f: IrFunc, base: nat)
    ensures CallSitesOf(f, base, 0) == []
  {
  }

  lemma {:induction false} CappedFits(sites: seq<CallSite>)
    requires |sites| <= MAX_CALL_SITES
    ensures Capped(sites) == sites
  {
  }

  // --- Filling in -----------------------------------------------------------------------------

  predicate InSite(sites: seq<CallSite>, k: nat) {
    exists s :: s in sites && s.loc <= k < s.loc + 8
  }

  function TargetOf(addr: map<string, Word>, fn: string): Word {
    if fn in addr then addr[fn] else PLACEHOLDER
  }

  /** Sites in order, none overlapping the next. */
  ghost predicate Ordered(sites: seq<CallSite>, from: nat, to: nat) {
    && (forall s :: s in sites ==> from <= s.loc && s.loc + 8 <= to)
    && (forall i, k :: 0 <= i < k < |sites| ==> sites[i].loc + 8 <= sites[k].loc)
  }

  lemma {:induction false} MovImmBytes(w: Word)
    ensures Encode(MovImm(RAX, w)) == [0x48, 0xB8] + Le64(w)
  {
  }

  /** The address stands eight bytes wide, two bytes into the tail of a call. */
  lemma {:induction false} DispatchBytes(f: IrFunc, t: Tail, at: nat, addr: map<string, Word>)
    requires t.Dispatch?
    ensures EncodeAll(TailCode(f, t, at, addr)) ==
            [0x48, 0xB8] + Le64(TargetOf(addr, t.fn)) + (Encode(CallReg(RAX)) + EncodeAll(t.after))
  {
    hide Encode, Le64;
    var w := TargetOf(addr, t.fn);
    EncodeAllAppend([MovImm(RAX, w), CallReg(RAX)], t.after);
    TwoEncoded(MovImm(RAX, w), CallReg(RAX));
    MovImmBytes(w);
  }

  lemma {:induction false} OtherTail(f: IrFunc, t: Tail, at: nat, addr: map<string, Word>)
    requires !t.Dispatch?
    ensures TailCode(f, t, at, addr) == TailCode(f, t, at, map[])
  {
  }

  /** One block, linked and not linked. */
  lemma {:induction false} BlockLinked(f: IrFunc, i: nat, addr: map<string, Word>)
    requires i < |f.code|
    ensures |BlockBytes(f, i, addr)| == |BlockBytes(f, i, map[])| == BlockSize(BlockAt(f, i))
    ensures !f.code[i].CallFn? ==> BlockBytes(f, i, addr) == BlockBytes(f, i, map[])
    ensures f.code[i].CallFn? ==>
              var at := SiteOffset(f, i) - Offset(f, i);
              && at + 8 <= |BlockBytes(f, i, addr)|
              && BlockBytes(f, i, addr) == Overwrite(BlockBytes(f, i, map[]), at, Le64(TargetOf(addr, f.code[i].fn)))
              && BlockBytes(f, i, map[])[at..at + 8] == Le64(PLACEHOLDER)
  {
    hide BlockAt, TailCode, Le64, Offset, TailSize;
    TailOfCall(f, i);
    var b := BlockAt(f, i);
    var at := Offset(f, i) + |EncodeAll(b.body)|;
    TailBytes(f, b.tail, at, addr);
    TailBytes(f, b.tail, at, map[]);
    if f.code[i].CallFn? {
      DispatchBytes(f, b.tail, at, addr);
      DispatchBytes(f, b.tail, at, map[]);
      SpliceTail(EncodeAll(b.body), [0x48, 0xB8], Le64(TargetOf(addr, b.tail.fn)), Le64(PLACEHOLDER),
                 Encode(CallReg(RAX)) + EncodeAll(b.tail.after));
    } else {
      OtherTail(f, b.tail, at, addr);
    }
  }

  lemma {:induction false} SpliceTail(body: seq<Byte>, op: seq<Byte>, w: seq<Byte>, v: seq<Byte>, rest: seq<Byte>)
    requires |w| == |v|
    ensures body + (op + w + rest) == Overwrite(body + (op + v + rest), |body| + |op|, w)
    ensures (body + (op + v + rest))[|body| + |op|..|body| + |op| + |v|] == v
  {
  }

  /** `a` is `b` with the addresses of its call sites filled in. */
  ghost predicate FilledIn(a: seq<Byte>, b: seq<Byte>, base: nat, sites: seq<CallSite>, addr: map<string, Word>) {
    && |a| == |b| && Ordered(sites, base, base + |b|)
    && (forall k :: 0 <= k < |b| && !InSite(sites, base + k) ==> a[k] == b[k])
    && (forall s :: s in sites ==> Filled(a, b, base, s, addr))
  }

  ghost predicate Filled(a: seq<Byte>, b: seq<Byte>, base: nat, s: CallSite, addr: map<string, Word>) {
    && base <= s.loc && s.loc - base + 8 <= |a| && s.loc - base + 8 <= |b|
    && a[s.loc - base..s.loc - base + 8] == Le64(TargetOf(addr, s.target))
    && b[s.loc - base..s.loc - base + 8] == Le64(PLACEHOLDER)
  }

  lemma {:induction false} FilledLater(a: seq<Byte>, b: seq<Byte>, base: nat, s: CallSite, addr: map<string, Word>,
                                       x: seq<Byte>, y: seq<Byte>)
    requires Filled(a, b, base, s, addr)
    ensures Filled(a + x, b + y, base, s, addr)
  {
    hide Le64, TargetOf;
    var i := s.loc - base;
    assert (a + x)[i..i + 8] == a[i..i + 8] && (b + y)[i..i + 8] == b[i..i + 8];
  }

  lemma {:induction false} FillSame(a: seq<Byte>, b: seq<Byte>, base: nat, sites: seq<CallSite>,
                                    addr: map<string, Word>, x: seq<Byte>)
    requires FilledIn(a, b, base, sites, addr)
    ensures FilledIn(a + x, b + x, base, sites, addr)
  {
    hide InSite, Filled;
    forall s | s in sites ensures Filled(a + x, b + x, base, s, addr) {
      FilledLater(a, b, base, s, addr, x, x);
    }
  }

  lemma {:induction false} FillCall(a: seq<Byte>, b: seq<Byte>, base: nat, sites: seq<CallSite>,
                                    addr: map<string, Word>, y: seq<Byte>, at: nat, fn: string)
    requires FilledIn(a, b, base, sites, addr) && at + 8 <= |y| && y[at..at + 8] == Le64(PLACEHOLDER)
    ensures FilledIn(a + Overwrite(y, at, Le64(TargetOf(addr, fn))), b + y, base,
            sites + [CallSite(base + |b| + at, fn)], addr)
  {
    hide InSite, Filled, Le64;
    var x := Overwrite(y, at, Le64(TargetOf(addr, fn)));
    var site := CallSite(base + |b| + at, fn);
    forall s | s in sites + [site] ensures Filled(a + x, b + y, base, s, addr) {
      if s in sites {
        FilledLater(a, b, base, s, addr, x, y);
      } else {
        FilledNow(a, b, base, site, addr, y, at);
      }
    }
    forall k | 0 <= k < |b + y| && !InSite(sites + [site], base + k) ensures (a + x)[k] == (b + y)[k] {
      InSiteMore(sites, site, base + k);
    }
    assert Ordered(sites + [site], base, base + |b + y|) by {
      forall i | 0 <= i < |sites| ensures sites[i].loc + 8 <= base + |b| {
        assert sites[i] in sites;
      }
    }
  }

  lemma {:induction false} FilledNow(a: seq<Byte>, b: seq<Byte>, base: nat, s: CallSite, addr: map<string, Word>,
                                     y: seq<Byte>, at: nat)
    requires |a| == |b| && s.loc == base + |b| + at && at + 8 <= |y| && y[at..at + 8] == Le64(PLACEHOLDER)
    ensures Filled(a + Overwrite(y, at, Le64(TargetOf(addr, s.target))), b + y, base, s, addr)
  {
    hide Le64, TargetOf;
    var w := Le64(TargetOf(addr, s.target));
    var i := |b| + at;
    assert (b + y)[i..i + 8] == y[at..at + 8];
    assert (a + Overwrite(y, at, w))[i..i + 8] == Overwrite(y, at, w)[at..at + 8] == w;
  }

  lemma {:induction false} InSiteMore(sites: seq<CallSite>, site: CallSite, k: nat)
    ensures InSite(sites + [site], k) <==> InSite(sites, k) || site.loc <= k < site.loc + 8
  {
    assert site in sites + [site];
    assert forall s :: s in sites + [site] <==> s in sites || s == site;
  }

  /** Linking changes the eight bytes of each call site, and nothing else. */
  lemma {:induction false} CodeLinked(f: IrFunc, base: nat, n: nat, addr: map<string, Word>)
    requires n <= |f.code|
    ensures FilledIn(CodeBytes(f, n, addr), CodeBytes(f, n, map[]), base, CallSitesOf(f, base, n), addr)
  {
    hide BlockAt, BlockBytes, Le64, Offset, InSite, Filled, FilledIn, Overwrite, EncodeAll;
    if n == 0 {
      NothingFilled(CodeBytes(f, 0, addr), base, addr);
    } else {
      CodeLinked(f, base, n - 1, addr);
      CodeBytesSize(f, n - 1, addr);
      CodeBytesSize(f, n - 1, map[]);
      BlockLinked(f, n - 1, addr);
      var a, b := CodeBytes(f, n - 1, addr), CodeBytes(f, n - 1, map[]);
      if f.code[n - 1].CallFn? {
        var at := SiteOffset(f, n - 1) - Offset(f, n - 1);
        FillCall(a, b, base, CallSitesOf(f, base, n - 1), addr, BlockBytes(f, n - 1, map[]), at, f.code[n - 1].fn);
      } else {
        FillSame(a, b, base, CallSitesOf(f, base, n - 1), addr, BlockBytes(f, n - 1, map[]));
        assert CallSitesOf(f, base, n) == CallSitesOf(f, base, n - 1);
      }
    }
  }

  lemma {:induction false} NothingFilled(a: seq<Byte>, base: nat, addr: map<string, Word>)
    ensures FilledIn(a, a, base, [], addr)
  {
  }

  // --- All functions ----------------------------------------------------------------------------

  /** A compiled function and the place of its code in the code memory. */
  datatype Unit = Unit(name: string, f: IrFunc, base: nat)

  function EndOf(u: Unit): nat {
    u.base + CodeSize(u.f)
  }

  function SitesOf(u: Unit): seq<CallSite> {
    CallSitesOf(u.f, u.base, |u.f.code|)
  }

  function AllSites(us: seq<Unit>): seq<CallSite> {
    if us == [] then [] else AllSites(us[..|us| - 1]) + SitesOf(us[|us| - 1])
  }

  /** One after the other, all of them below `top`. */
  ghost predicate LaidOut(us: seq<Unit>, top: nat) {
    && (forall i :: 0 <= i < |us| ==> EndOf(us[i]) <= top)
    && (forall i, k :: 0 <= i < k < |us| ==> EndOf(us[i]) <= us[k].base)
  }

  lemma {:induction false} UnitSites(u: Unit)
    ensures Ordered(SitesOf(u), u.base, EndOf(u))
  {
    hide CodeBytes, FilledIn, CallSitesOf, Ordered;
    CodeLinked(u.f, u.base, |u.f.code|, map[]);
    FilledOrdered(CodeBytes(u.f, |u.f.code|, map[]), CodeBytes(u.f, |u.f.code|, map[]), u.base, SitesOf(u), map[]);
    CodeBytesSize(u.f, |u.f.code|, map[]);
  }

  lemma {:induction false} FilledOrdered(a: seq<Byte>, b: seq<Byte>, base: nat, sites: seq<CallSite>,
                                         addr: map<string, Word>)
    requires FilledIn(a, b, base, sites, addr)
    ensures Ordered(sites, base, base + |b|)
  {
  }

  lemma {:induction false} AllSitesOrdered(us: seq<Unit>, top: nat)
    requires LaidOut(us, top)
    ensures Ordered(AllSites(us), 0, top)
    ensures forall s :: s in AllSites(us) ==> exists i :: 0 <= i < |us| && s in SitesOf(us[i])
    ensures forall i, s :: 0 <= i < |us| && s in SitesOf(us[i]) ==> s in AllSites(us)
  {
    hide SitesOf, CodeSize;
    if us != [] {
      var u := us[|us| - 1];
      var front := us[..|us| - 1];
      assert LaidOut(front, u.base);
      AllSitesOrdered(front, u.base);
      UnitSites(u);
      OrderedMore(AllSites(front), SitesOf(u), u.base, top);
      assert forall i :: 0 <= i < |front| ==> front[i] == us[i];
    }
  }

  lemma {:induction false} OrderedMore(a: seq<CallSite>, b: seq<CallSite>, middle: nat, top: nat)
    requires Ordered(a, 0, middle) && Ordered(b, middle, top) && middle <= top
    ensures Ordered(a + b, 0, top)
  {
    forall i, k | 0 <= i < k < |a + b| ensures (a + b)[i].loc + 8 <= (a + b)[k].loc {
      if i < |a| <= k {
        assert a[i] in a && b[k - |a|] in b;
      }
    }
  }

  /** What linking does to the memory. */
  ghost predicate LinkedMemory(m: seq<Byte>, m1: seq<Byte>, sites: seq<CallSite>, addr: map<string, Word>) {
    && |m1| == |m|
    && (forall k :: 0 <= k < |m| && !InSite(sites, k) ==> m1[k] == m[k])
    && (forall s :: s in sites ==> SiteLinked(m, m1, s, addr))
  }

  ghost predicate SiteLinked(m: seq<Byte>, m1: seq<Byte>, s: CallSite, addr: map<string, Word>) {
    && s.loc + 8 <= |m| && s.loc + 8 <= |m1|
    && m1[s.loc..s.loc + 8] == if s.target in addr then Le64(addr[s.target]) else m[s.loc..s.loc + 8]
  }

  /** In linked memory every function's code has the addresses that `addr` gives. */
  lemma {:induction false} SegmentLinked(m: seq<Byte>, m1: seq<Byte>, us: seq<Unit>, top: nat,
                                         addr: map<string, Word>, i: nat)
    requires LaidOut(us, top) && top <= |m| && LinkedMemory(m, m1, AllSites(us), addr)
    requires i < |us| && m[us[i].base..EndOf(us[i])] == FinalCode(us[i].f)
    ensures m1[us[i].base..EndOf(us[i])] == CodeBytes(us[i].f, |us[i].f.code|, addr)
  {
    hide Le64, CodeBytes, LinkedMemory, AllSites, CallSitesOf, FilledIn, InSite, LaidOut, Offset, Ordered, Addresses;
    var u := us[i];
    var a, b := CodeBytes(u.f, |u.f.code|, addr), FinalCode(u.f);
    CodeLinked(u.f, u.base, |u.f.code|, addr);
    CodeBytesSize(u.f, |u.f.code|, addr);
    CodeBytesSize(u.f, |u.f.code|, map[]);
    UnitBelow(us, top, i);
    forall k | 0 <= k < |a| ensures |m1| == |m| && m1[u.base + k] == a[k] {
      SegmentByte(m, m1, us, top, addr, i, k, a, b);
    }
    SizeKept(m, m1, AllSites(us), addr);
  }

  lemma {:induction false} SizeKept(m: seq<Byte>, m1: seq<Byte>, sites: seq<CallSite>, addr: map<string, Word>)
    requires LinkedMemory(m, m1, sites, addr)
    ensures |m1| == |m|
  {
  }

  lemma {:induction false} SegmentByte(m: seq<Byte>, m1: seq<Byte>, us: seq<Unit>, top: nat, addr: map<string, Word>,
                                       i: nat, k: nat, a: seq<Byte>, b: seq<Byte>)
    requires LaidOut(us, top) && top <= |m| && LinkedMemory(m, m1, AllSites(us), addr)
    requires i < |us| && EndOf(us[i]) == us[i].base + |b| && m[us[i].base..us[i].base + |b|] == b && k < |b|
    requires FilledIn(a, b, us[i].base, SitesOf(us[i]), addr)
    ensures |m1| == |m| && |a| == |b| && m1[us[i].base + k] == a[k]
  {
    hide *;
    var u := us[i];
    FilledSize(a, b, u.base, SitesOf(u), addr);
    SizeKept(m, m1, AllSites(us), addr);
    UnitBelow(us, top, i);
    if InSite(SitesOf(u), u.base + k) {
      AllSitesOrdered(us, top);
      InsideSite(m, m1, us, addr, a, b, u, k);
    } else {
      OutsideSite(us, top, i, u.base + k);
      Unlinked(m, m1, AllSites(us), addr, u.base + k);
      FilledElsewhere(a, b, u.base, SitesOf(u), addr, k);
      assert m[u.base..u.base + |b|][k] == b[k];
    }
  }

  lemma {:induction false} UnitBelow(us: seq<Unit>, top: nat, i: nat)
    requires LaidOut(us, top) && i < |us|
    ensures EndOf(us[i]) <= top
  {
  }

  lemma {:induction false} FilledSize(a: seq<Byte>, b: seq<Byte>, base: nat, sites: seq<CallSite>,
                                      addr: map<string, Word>)
    requires FilledIn(a, b, base, sites, addr)
    ensures |a| == |b|
  {
  }

  lemma {:induction false} FilledElsewhere(a: seq<Byte>, b: seq<Byte>, base: nat, sites: seq<CallSite>,
                                           addr: map<string, Word>, k: nat)
    requires FilledIn(a, b, base, sites, addr) && k < |b| && !InSite(sites, base + k)
    ensures a[k] == b[k]
  {
    hide InSite, Filled;
  }

  lemma {:induction false} Unlinked(m: seq<Byte>, m1: seq<Byte>, sites: seq<CallSite>, addr: map<string, Word>, k: nat)
    requires LinkedMemory(m, m1, sites, addr) && k < |m| && !InSite(sites, k)
    ensures |m1| == |m| && m1[k] == m[k]
  {
    hide InSite, SiteLinked;
  }

  /** A byte in one of the sites of its own function. */
  lemma {:induction false} InsideSite(m: seq<Byte>, m1: seq<Byte>, us: seq<Unit>, addr: map<string, Word>,
                                      a: seq<Byte>, b: seq<Byte>, u: Unit, k: nat)
    requires LinkedMemory(m, m1, AllSites(us), addr) && (forall s :: s in SitesOf(u) ==> s in AllSites(us))
    requires FilledIn(a, b, u.base, SitesOf(u), addr) && k < |a| && u.base + |b| <= |m|
    requires m[u.base..u.base + |b|] == b && InSite(SitesOf(u), u.base + k)
    ensures |m1| == |m| && m1[u.base + k] == a[k]
  {
    hide Filled, SiteLinked, AllSites, SitesOf;
    var s :| s in SitesOf(u) && s.loc <= u.base + k < s.loc + 8;
    assert Filled(a, b, u.base, s, addr) && SiteLinked(m, m1, s, addr);
    SiteByte(m, m1, a, b, u.base, s, addr, k);
  }

  lemma {:induction false} SiteByte(m: seq<Byte>, m1: seq<Byte>, a: seq<Byte>, b: seq<Byte>, base: nat, s: CallSite,
                                    addr: map<string, Word>, k: nat)
    requires Filled(a, b, base, s, addr) && SiteLinked(m, m1, s, addr) && |m1| == |m| && base + |b| <= |m|
    requires m[base..base + |b|] == b && s.loc <= base + k < s.loc + 8 && k < |a|
    ensures m1[base + k] == a[k]
  {
    hide Le64;
    var i := s.loc - base;
    var d := k - i;
    assert m[base..base + |b|][i..i + 8] == m[base + i..base + i + 8];
    assert m1[s.loc..s.loc + 8] == a[i..i + 8];
    assert m1[base + k] == m1[s.loc..s.loc + 8][d] && a[k] == a[i..i + 8][d];
  }

  /** Sites of other functions lie elsewhere. */
  lemma {:induction false} OutsideSite(us: seq<Unit>, top: nat, i: nat, k: nat)
    requires LaidOut(us, top) && i < |us| && us[i].base <= k < EndOf(us[i]) && !InSite(SitesOf(us[i]), k)
    ensures !InSite(AllSites(us), k)
  {
    hide AllSites, SitesOf, EndOf;
    AllSitesOrdered(us, top);
    forall s | s in AllSites(us) ensures !(s.loc <= k < s.loc + 8) {
      var n :| 0 <= n < |us| && s in SitesOf(us[n]);
      UnitSites(us[n]);
    }
  }

  // --- The registry --------------------------------------------------------------------------

  datatype CompiledFunction = CompiledFunction(name: string, address: Word, size: nat)

  /** The first entry for a name is the one that counts. */
  function Addresses(registry: seq<CompiledFunction>): map<string, Word> {
    if registry == [] then map[]
    else
      var before := Addresses(registry[..|registry| - 1]);
      var last := registry[|registry| - 1];
      if last.name in before then before else before[last.name := last.address]
  }

  lemma {:induction false} FirstAddress(registry: seq<CompiledFunction>, i: nat)
    requires i < |registry| && forall k :: 0 <= k < i ==> registry[k].name != registry[i].name
    ensures registry[i].name in Addresses(registry) && Addresses(registry)[registry[i].name] == registry[i].address
    decreases |registry|
  {
    if i < |registry| - 1 {
      FirstAddress(registry[..|registry| - 1], i);
    } else {
      NoAddress(registry[..i], registry[i].name);
    }
  }

  lemma {:induction false} NoAddress(registry: seq<CompiledFunction>, name: string)
    ensures name in Addresses(registry) <==> exists k :: 0 <= k < |registry| && registry[k].name == name
    decreases |registry|
  {
    if registry != [] {
      var front := registry[..|registry| - 1];
      NoAddress(front, name);
      if k :| 0 <= k < |registry| && registry[k].name == name {
        assert k < |front| ==> front[k].name == name;
      }
    }
  }

  /** Linking a site, or leaving it, keeps the sites linked before. */
  lemma {:induction false} LinkOne(m: seq<Byte>, m1: seq<Byte>, sites: seq<CallSite>, k: nat, top: nat,
                                   addr: map<string, Word>)
    requires k < |sites| && Ordered(sites, 0, top) && top <= |m| && LinkedMemory(m, m1, sites[..k], addr)
    ensures var s := sites[k];
            LinkedMemory(m, if s.target in addr then Overwrite(m1, s.loc, Le64(addr[s.target]))
              else m1, sites[..k + 1], addr)
  {
    hide Le64, InSite;
    var s := sites[k];
    assert s in sites;
    var m2 := if s.target in addr then Overwrite(m1, s.loc, Le64(addr[s.target])) else m1;
    assert sites[..k + 1] == sites[..k] + [s];
    forall i | 0 <= i < |m| && !InSite(sites[..k + 1], i) ensures m2[i] == m[i] {
      InSiteMore(sites[..k], s, i);
    }
    forall t | t in sites[..k + 1] ensures SiteLinked(m, m2, t, addr) {
      if t in sites[..k] {
        assert SiteLinked(m, m1, t, addr) && t.loc + 8 <= s.loc;
        assert m2[t.loc..t.loc + 8] == m1[t.loc..t.loc + 8];
      } else {
        LinkedHere(m, m1, sites, k, top, addr);
      }
    }
  }

  lemma {:induction false} LinkedHere(m: seq<Byte>, m1: seq<Byte>, sites: seq<CallSite>, k: nat, top: nat,
                                      addr: map<string, Word>)
    requires k < |sites| && Ordered(sites, 0, top) && top <= |m| && LinkedMemory(m, m1, sites[..k], addr)
    ensures var s := sites[k];
            SiteLinked(m, if s.target in addr then Overwrite(m1, s.loc, Le64(addr[s.target])) else m1, s, addr)
  {
    hide Le64, SiteLinked;
    var s := sites[k];
    assert s in sites;
    if s.target in addr {
      var m2 := Overwrite(m1, s.loc, Le64(addr[s.target]));
      assert m2[s.loc..s.loc + 8] == Le64(addr[s.target]);
      NowLinked(m, m2, s, addr);
    } else {
      forall i | s.loc <= i < s.loc + 8 ensures m1[i] == m[i] {
        NotYet(sites, k, i, top);
      }
      assert m1[s.loc..s.loc + 8] == m[s.loc..s.loc + 8];
      NowLinked(m, m1, s, addr);
    }
  }

  lemma {:induction false} NowLinked(m: seq<Byte>, m1: seq<Byte>, s: CallSite, addr: map<string, Word>)
    requires s.loc + 8 <= |m| == |m1|
    requires m1[s.loc..s.loc + 8] == if s.target in addr then Le64(addr[s.target]) else m[s.loc..s.loc + 8]
    ensures SiteLinked(m, m1, s, addr)
  {
  }

  lemma {:induction false} NotYet(sites: seq<CallSite>, k: nat, i: nat, top: nat)
    requires k < |sites| && Ordered(sites, 0, top) && sites[k].loc <= i
    ensures !InSite(sites[..k], i)
  {
  }
}
