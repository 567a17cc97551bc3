/**
  The two passes over a function. Measuring and writing go through the same states and
  sizes; and when writing ends, every jump that was left open has been resolved, so that
  one pass with patches gives the code that a second pass over known labels would give.
 */
module Backpatching {
  import opened Limits
  import opened Words
  import opened Ir
  import opened IrShape
  import opened X86
  import opened Encoders
  import opened CodeLayout
  import opened Emission
  import opened Jits

  /** The state and the output after the prologue and the first `n` instructions. */
  function After(f: IrFunc, sites: seq<CallSite>, o: Output, n: nat): (r: (Jit, Output))
    requires n <= |f.code|
    ensures |r.0.enc.alloc.used| == 16
  {
    if n == 0 then (Jit(StartState(f), map[], [], sites), Put(o, Prologue(f)))
    else StepJit(After(f, sites, o, n - 1).0, After(f, sites, o, n - 1).1, f.code[n - 1])
  }

  lemma {:induction false} AfterNext(f: IrFunc, sites: seq<CallSite>, o: Output, n: nat)
    requires n < |f.code|
    ensures After(f, sites, o, n + 1) == StepJit(After(f, sites, o, n).0, After(f, sites, o, n).1, f.code[n])
  {
    hide StepJit, Prologue, StartState;
  }

  // --- Both passes agree ------------------------------------------------------------------

  lemma {:induction false} NoteTailKeeps(j: Jit, t: Tail, writing: bool, at: nat)
    ensures NoteTail(j, t, writing, at).enc == j.enc && NoteTail(j, t, writing, at).labels == j.labels
    ensures !writing ==> NoteTail(j, t, writing, at) == j
  {
  }

  lemma {:induction false} TailNowSize(t: Tail, labels: map<nat, nat>, at: nat)
    ensures |EncodeAll(TailNow(t, labels, at))| == TailSize(t)
  {
    hide KnownDisplacement, Encode, EncodeAll;
    match t
    case Dispatch(fn, after) =>
      EncodeAllAppend([MovImm(RAX, PLACEHOLDER), CallReg(RAX)], after);
      TwoEncoded(MovImm(RAX, PLACEHOLDER), CallReg(RAX));
      TailLengths(0, CondE, PLACEHOLDER);
    case Goto(l) =>
      OneEncoded(JmpRel(KnownDisplacement(labels, l, at + 5)));
      TailLengths(KnownDisplacement(labels, l, at + 5), CondE, 0);
    case GotoIf(cc, l) =>
      OneEncoded(JccRel(cc, KnownDisplacement(labels, l, at + 6)));
      TailLengths(KnownDisplacement(labels, l, at + 6), cc, 0);
    case Leave =>
      OneEncoded(RetNear);
      TailLengths(0, CondE, 0);
    case Continue => NothingEncoded();
  }

  lemma {:induction false} SelectLabel(f: IrFunc, i: nat)
    requires i < |f.code| && f.code[i].Label?
    ensures BlockSize(BlockAt(f, i)) == 0
  {
    NothingEncoded();
  }

  /** The output only grows by the size of the block, whatever the labels and the mode. */
  lemma {:induction false} StepSize(j: Jit, o: Output, i: Instr)
    requires |j.enc.alloc.used| == 16
    ensures var (j1, o1) := StepJit(j, o, i);
            && j1.enc == Advance(j.enc, i) && o1.Writing? == o.Writing?
            && o1.count == o.count + (if i.Label? then 0 else BlockSize(Selected(j, i)))
            && (o.Writing? ==> o1.at == o.at + (o1.count - o.count) && |o1.bytes| == |o.bytes|)
            && (o.Measuring? ==> j1 == Moved(j, i))
  {
    hide EncodeAll, TailNow, NoteTail, TailSize, Advance, Selected;
    if !i.Label? {
      var b := Selected(j, i);
      TailNowSize(b.tail, j.labels, At(Put(o, b.body)));
      NoteTailKeeps(Moved(j, i), b.tail, o.Writing?, At(Put(o, b.body)));
    }
  }

  /** Both passes: the encoder's state is `StateAt`, and the code so far fills `Offset`. */
  lemma {:induction false} PassState(f: IrFunc, sites: seq<CallSite>, o: Output, n: nat)
    requires n <= |f.code|
    ensures var (j, o1) := After(f, sites, o, n);
            && j.enc == StateAt(f, n)
            && o1.Writing? == o.Writing? && o1.count == o.count + Offset(f, n)
            && (o.Writing? ==> o1.at == o.at + Offset(f, n) && |o1.bytes| == |o.bytes|)
            && (o.Measuring? ==> j == Jit(StateAt(f, n), map[], [], sites))
  {
    hide StepJit, Prologue, StartState, Advance, BlockAt, EncodeAll;
    if n > 0 {
      PassState(f, sites, o, n - 1);
      var (j, o1) := After(f, sites, o, n - 1);
      StepSize(j, o1, f.code[n - 1]);
      BlockIs(f, n - 1, j);
      if f.code[n - 1].Label? {
        SelectLabel(f, n - 1);
      }
    }
  }

  lemma {:induction false} BlockIs(f: IrFunc, i: nat, j: Jit)
    requires i < |f.code| && j.enc == StateAt(f, i)
    ensures Selected(j, f.code[i]) == BlockAt(f, i) && StateAt(f, i + 1) == Advance(j.enc, f.code[i])
  {
    hide Select, Advance;
    StateStep(f, i);
  }

  lemma {:induction false} StateStep(f: IrFunc, i: nat)
    requires i < |f.code|
    ensures StateAt(f, i + 1) == Advance(StateAt(f, i), f.code[i])
  {
    hide Advance;
  }

  /** The first pass predicts the size of the second exactly. */
  lemma {:induction false} PassesAgree(f: IrFunc, sites: seq<CallSite>, m: seq<Byte>, base: nat, n: nat)
    requires n <= |f.code|
    ensures After(f, sites, Measuring(0), n).1.count == After(f, sites, Writing(m, base, 0), n).1.count == Offset(f, n)
    ensures After(f, sites, Measuring(0), n).0.enc == After(f, sites, Writing(m, base, 0), n).0.enc
  {
    PassState(f, sites, Measuring(0), n);
    PassState(f, sites, Writing(m, base, 0), n);
  }

  // --- Backpatching ------------------------------------------------------------------------

  /** The code of `f` with its calls still open. */
  function FinalCode(f: IrFunc): seq<Byte> {
    CodeBytes(f, |f.code|, map[])
  }

  predicate Covered(ps: seq<Patch>, k: nat) {
    exists p :: p in ps && p.loc <= k < p.loc + 4
  }

  /** Everything written so far is as in `goal`, but for the displacements of open jumps. */
  ghost predicate WrittenSoFar(m0: seq<Byte>, goal: seq<Byte>, base: nat, end: nat, ps: seq<Patch>, m: seq<Byte>) {
    && |m| == |m0| == |goal| && base <= end <= |m|
    && (forall k :: 0 <= k < |m| && !(base <= k < end) ==> m[k] == m0[k])
    && (forall k :: base <= k < end && !Covered(ps, k) ==> m[k] == goal[k])
  }

  /** A patch stands for a jump to a label that is still to come. */
  ghost predicate Open(f: IrFunc, goal: seq<Byte>, base: nat, end: nat, n: nat, p: Patch) {
    && base <= p.loc && p.loc + 4 <= end <= |goal|
    && p.id < f.labelCount && FindLabel(f.code, p.id, 0) >= n
    && goal[p.loc..p.loc + 4] == Le32(Wrap32(base + LabelOffset(f, p.id) - (p.loc + 4)))
  }

  /** The labels known after `n` instructions are those placed among them. */
  ghost predicate LabelsKnown(f: IrFunc, base: nat, n: nat, labels: map<nat, nat>) {
    && (forall l: nat :: l in labels <==> l < MAX_LABELS && FindLabel(f.code, l, 0) < n)
    && (forall l: nat :: l in labels ==> labels[l] == base + LabelOffset(f, l))
  }

  ghost predicate Patched(f: IrFunc, m0: seq<Byte>, goal: seq<Byte>, base: nat, n: nat, j: Jit, o: Output)
    requires n <= |f.code|
  {
    && o.Writing? && o.at == base + Offset(f, n)
    && WrittenSoFar(m0, goal, base, o.at, j.patches, o.bytes)
    && (forall p :: p in j.patches ==> Open(f, goal, base, o.at, n, p))
    && LabelsKnown(f, base, n, j.labels)
  }

  predicate CoveredBy(ps: seq<Patch>, id: nat, k: nat) {
    exists p :: p in ps && p.id == id && p.loc <= k < p.loc + 4
  }

  ghost predicate Agreed(p: Patch, goal: seq<Byte>, target: nat) {
    p.loc + 4 <= |goal| && goal[p.loc..p.loc + 4] == Le32(Wrap32(target - (p.loc + 4)))
  }

  /** Patching writes what `goal` has in the places of the patches of `id`, and nothing else. */
  lemma {:induction false} PatchAllAt(m: seq<Byte>, ps: seq<Patch>, id: nat, target: nat, goal: seq<Byte>, k: nat)
    requires k < |m| == |goal|
    requires forall p :: p in ps && p.id == id ==> Agreed(p, goal, target)
    ensures PatchAll(m, ps, id, target)[k] == if CoveredBy(ps, id, k) then goal[k] else m[k]
    decreases |ps|
  {
    hide Le32, Wrap32, CoveredBy, PatchAll;
    if ps == [] {
      ResolveEnd(m, ps, id, target);
      NoneCovered(id, k);
    } else {
      var p := ps[0];
      assert p.id == id ==> Agreed(p, goal, target);
      var m1 := if p.id == id then Overwrite(m, p.loc, Le32(Wrap32(target - (p.loc + 4)))) else m;
      assert m1[k] == if p.id == id && p.loc <= k < p.loc + 4 then goal[k] else m[k] by {
        if p.id == id && p.loc <= k < p.loc + 4 {
          assert m1[k] == goal[p.loc..p.loc + 4][k - p.loc];
        }
      }
      PatchAllAt(m1, ps[1..], id, target, goal, k);
      CoveredByRest(ps, id, k);
      PatchFirst(m, ps, id, target);
    }
  }

  lemma {:induction false} PatchFirst(m: seq<Byte>, ps: seq<Patch>, id: nat, target: nat)
    requires ps != [] && (ps[0].id == id ==> ps[0].loc + 4 <= |m|)
    ensures PatchAll(m, ps, id, target) ==
            PatchAll(if ps[0].id == id then Overwrite(m, ps[0].loc, Le32(Wrap32(target - (ps[0].loc + 4))))
              else m, ps[1..], id, target)
  {
    hide Le32, Wrap32, Overwrite;
  }

  lemma {:induction false} NoneCovered(id: nat, k: nat)
    ensures !CoveredBy([], id, k)
  {
  }

  lemma {:induction false} CoveredByRest(ps: seq<Patch>, id: nat, k: nat)
    requires ps != []
    ensures CoveredBy(ps, id, k) <==> (ps[0].id == id && ps[0].loc <= k < ps[0].loc + 4) || CoveredBy(ps[1..], id, k)
  {
    assert forall p :: p in ps <==> p == ps[0] || p in ps[1..];
  }

  lemma {:induction false} CoveredSplit(ps: seq<Patch>, id: nat, k: nat)
    ensures Covered(ps, k) <==> CoveredBy(ps, id, k) || Covered(Unresolved(ps, id), k)
  {
  }

  /** A label: the jumps that waited for it get their displacements. */
  lemma {:induction false} LabelStep(f: IrFunc, m0: seq<Byte>, goal: seq<Byte>, base: nat, n: nat, j: Jit, o: Output)
    requires WellFormed(f) && f.labelCount < MAX_LABELS && n < |f.code| && f.code[n].Label?
    requires Patched(f, m0, goal, base, n, j, o) && |j.enc.alloc.used| == 16
    ensures var (j1, o1) := StepJit(j, o, f.code[n]); Patched(f, m0, goal, base, n + 1, j1, o1)
  {
    hide WellFormed, Offset, PatchAll, Unresolved, Covered, CoveredBy, Le32, Wrap32, Advance;
    var id := f.code[n].id;
    LabelHere(f, n);
    OffsetAtLabel(f, n);
    var ps := j.patches;
    var ps1 := Unresolved(ps, id);
    var m1 := PatchAll(o.bytes, ps, id, o.at);
    OpenAgree(f, goal, base, o.at, n, ps, id);
    forall k | 0 <= k < |m1| ensures !(base <= k < o.at) ==> m1[k] == m0[k]
      ensures base <= k < o.at && !Covered(ps1, k) ==> m1[k] == goal[k]
    {
      PatchAllAt(o.bytes, ps, id, o.at, goal, k);
      CoveredSplit(ps, id, k);
      NotOutside(f, goal, base, o.at, n, ps, id, k);
    }
    forall p | p in ps1 ensures Open(f, goal, base, o.at, n + 1, p) {
      assert Open(f, goal, base, o.at, n, p) && p.id != id;
      LabelElsewhere(f, n, p.id);
    }
    forall l: nat ensures FindLabel(f.code, l, 0) < n + 1 <==> FindLabel(f.code, l, 0) < n || l == id {
      if l != id {
        LabelElsewhere(f, n, l);
      }
    }
  }

  /** Where the label is placed, what waited for it agrees with it. */
  lemma {:induction false} OpenAgree(f: IrFunc, goal: seq<Byte>, base: nat, end: nat, n: nat, ps: seq<Patch>, id: nat)
    requires forall p :: p in ps ==> Open(f, goal, base, end, n, p)
    requires end == base + LabelOffset(f, id)
    ensures forall p :: p in ps && p.id == id ==> Agreed(p, goal, end)
  {
    hide LabelOffset, Le32, Wrap32, FindLabel;
  }

  /** Patches lie inside the code written so far. */
  lemma {:induction false} NotOutside(f: IrFunc, goal: seq<Byte>, base: nat, end: nat, n: nat, ps: seq<Patch>,
                                      id: nat, k: nat)
    requires forall p :: p in ps ==> Open(f, goal, base, end, n, p)
    ensures CoveredBy(ps, id, k) ==> base <= k < end
  {
    hide Le32, Wrap32, LabelOffset, FindLabel;
  }

  lemma {:induction false} LabelHere(f: IrFunc, n: nat)
    requires WellFormed(f) && n < |f.code| && f.code[n].Label?
    ensures FindLabel(f.code, f.code[n].id, 0) == n && f.code[n].id < f.labelCount
  {
    assert Fits(f.code, n, f.params, f.vregCount, f.stackCount, f.labelCount);
    var k := FindLabel(f.code, f.code[n].id, 0);
    assert k <= n;
  }

  lemma {:induction false} LabelElsewhere(f: IrFunc, n: nat, l: nat)
    requires n < |f.code| && f.code[n] != Label(l)
    ensures FindLabel(f.code, l, 0) != n
  {
  }

  lemma {:induction false} OffsetAtLabel(f: IrFunc, n: nat)
    requires n < |f.code| && f.code[n].Label?
    ensures Offset(f, n + 1) == Offset(f, n)
  {
    hide BlockAt, BlockSize;
    SelectLabel(f, n);
  }

  // --- Blocks ---------------------------------------------------------------------------

  /** The displacement field of a jump stands last. */
  predicate SameButLast4(a: seq<Byte>, b: seq<Byte>, last: seq<Byte>) {
    |a| == |b| >= 4 && a[..|a| - 4] == b[..|b| - 4] && b[|b| - 4..] == last
  }

  function JumpId(t: Tail): Option<nat> {
    match t
    case Goto(l) => Some(l)
    case GotoIf(_, l) => Some(l)
    case _ => None
  }

  /** A tail is final at once, unless it jumps to an unknown label. */
  lemma {:induction false} TailAgrees(f: IrFunc, t: Tail, labels: map<nat, nat>, base: nat, off: nat)
    requires JumpId(t).Some? && JumpId(t).value in labels ==>
             labels[JumpId(t).value] == base + LabelOffset(f, JumpId(t).value)
    ensures var now, then_ := EncodeAll(TailNow(t, labels, base + off)), EncodeAll(TailCode(f, t, off, map[]));
            && |now| == |then_| == TailSize(t)
            && (JumpId(t).None? || JumpId(t).value in labels ==> now == then_)
            && (JumpId(t).Some? && JumpId(t).value !in labels ==>
                  SameButLast4(now, then_, Le32(Wrap32(LabelOffset(f, JumpId(t).value) - (off + TailSize(t))))))
  {
    hide LabelOffset, EncodeAll, Le32;
    TailNowSize(t, labels, base + off);
    TailBytes(f, t, off, map[]);
    match t
    case Goto(l) =>
      OneEncoded(JmpRel(KnownDisplacement(labels, l, base + off + 5)));
      OneEncoded(JmpRel(Displacement(f, l, off + 5)));
    case GotoIf(cc, l) =>
      OneEncoded(JccRel(cc, KnownDisplacement(labels, l, base + off + 6)));
      OneEncoded(JccRel(cc, Displacement(f, l, off + 6)));
    case Continue =>
    case Dispatch(_, _) =>
    case Leave =>
  }

  /** Appending the final bytes of a block, but for an open displacement. */
  lemma {:induction false} BytesOfBlock(m: seq<Byte>, at: nat, count: nat, body: seq<Byte>, now: seq<Byte>)
    requires at + |body| + |now| <= |m|
    ensures Emission.Append(Emission.Append(Writing(m, at, count), body), now)
         == Writing(Overwrite(m, at, body + now), at + |body| + |now|, count + |body| + |now|)
  {
    AppendTwice(Writing(m, at, count), body, now);
  }

  /** The code so far grows by a block that is final. */
  lemma {:induction false} ClosedGrows(m0: seq<Byte>, goal: seq<Byte>, base: nat, end: nat, ps: seq<Patch>,
                                       m: seq<Byte>, bs: seq<Byte>)
    requires WrittenSoFar(m0, goal, base, end, ps, m) && end + |bs| <= |m| && goal[end..end + |bs|] == bs
    ensures WrittenSoFar(m0, goal, base, end + |bs|, ps, Overwrite(m, end, bs))
  {
    hide Covered;
    assert forall k :: end <= k < end + |bs| ==> bs[k - end] == goal[end..end + |bs|][k - end] == goal[k];
  }

  /** The code so far grows by a block that is final but for its last four bytes, noted as a patch. */
  lemma {:induction false} OpenGrows(m0: seq<Byte>, goal: seq<Byte>, base: nat, end: nat, ps: seq<Patch>,
                                     m: seq<Byte>, bs: seq<Byte>, p: Patch)
    requires WrittenSoFar(m0, goal, base, end, ps, m) && end + |bs| <= |m| && |bs| >= 4
    requires goal[end..end + |bs|][..|bs| - 4] == bs[..|bs| - 4] && p.loc == end + |bs| - 4
    ensures WrittenSoFar(m0, goal, base, end + |bs|, [p] + ps, Overwrite(m, end, bs))
  {
    hide Covered;
    var m1 := Overwrite(m, end, bs);
    forall k | base <= k < end + |bs| && !Covered([p] + ps, k) ensures m1[k] == goal[k] {
      CoveredFirst(p, ps, k);
      if k >= end {
        assert k - end < |bs| - 4;
        assert m1[k] == bs[..|bs| - 4][k - end] == goal[end..end + |bs|][..|bs| - 4][k - end];
      }
    }
  }

  lemma {:induction false} CoveredFirst(p: Patch, ps: seq<Patch>, k: nat)
    ensures Covered([p] + ps, k) <==> p.loc <= k < p.loc + 4 || Covered(ps, k)
  {
    assert forall q :: q in [p] + ps <==> q == p || q in ps;
  }

  /** The bytes of a block as encoded now, and the instructions they will be in the end. */
  function BodyBytes(f: IrFunc, n: nat): seq<Byte>
    requires n < |f.code|
  {
    EncodeAll(BlockAt(f, n).body)
  }

  /** The offset of the tail of a block in its function. */
  function TailStart(f: IrFunc, n: nat): nat
    requires n < |f.code|
  {
    Offset(f, n) + |BodyBytes(f, n)|
  }

  /** What encoding a block does to the state and the memory. */
  lemma {:induction false} BlockFacts(f: IrFunc, base: nat, n: nat, j: Jit, o: Output)
    requires n < |f.code| && !f.code[n].Label? && j.enc == StateAt(f, n) && |j.enc.alloc.used| == 16
    requires o.Writing? && o.at == base + Offset(f, n)
    ensures var t := BlockAt(f, n).tail;
            var body, now := BodyBytes(f, n), EncodeAll(TailNow(BlockAt(f, n).tail, j.labels, base + TailStart(f, n)));
            && StepJit(j, o, f.code[n]).0 == NoteTail(Moved(j, f.code[n]), t, true, base + TailStart(f, n))
            && base + TailStart(f, n) == o.at + |body|
            && StepJit(j, o, f.code[n]).1 == Emission.Append(Emission.Append(o, body), now)
  {
    hide EncodeAll, TailNow, BlockAt, Selected, NoteTail, Advance, Offset, Emission.Append;
    BlockIs(f, n, j);
  }

  lemma {:induction false} BlockSizes(f: IrFunc, base: nat, n: nat, labels: map<nat, nat>)
    requires n < |f.code|
    ensures var t := BlockAt(f, n).tail;
            var body, now := BodyBytes(f, n), EncodeAll(TailNow(BlockAt(f, n).tail, labels, base + TailStart(f, n)));
            && BlockBytes(f, n, map[]) == body + EncodeAll(TailCode(f, BlockAt(f, n).tail, TailStart(f, n), map[]))
            && |now| == |EncodeAll(TailCode(f, BlockAt(f, n).tail, TailStart(f, n), map[]))| == TailSize(t)
            && BlockSize(BlockAt(f, n)) == |body| + |now|
  {
    hide EncodeAll, TailNow, TailCode, BlockAt, TailSize, Offset;
    TailNowSize(BlockAt(f, n).tail, labels, base + TailStart(f, n));
    TailBytes(f, BlockAt(f, n).tail, TailStart(f, n), map[]);
  }

  lemma {:induction false} ReadyFacts(f: IrFunc, m0: seq<Byte>, goal: seq<Byte>, base: nat, n: nat, j: Jit, o: Output)
    requires BlockReady(f, m0, goal, base, n, j, o)
    ensures o.Writing? && o.at == base + Offset(f, n) && |j.enc.alloc.used| == 16
    ensures n < |f.code| && !f.code[n].Label? && j.enc == StateAt(f, n)
    ensures WrittenSoFar(m0, goal, base, o.at, j.patches, o.bytes) && |o.bytes| == |m0| == |goal|
    ensures o.at + BlockSize(BlockAt(f, n)) <= |m0|
    ensures goal[o.at..o.at + BlockSize(BlockAt(f, n))] == BlockBytes(f, n, map[])
    ensures Moved(j, f.code[n]).labels == j.labels && Moved(j, f.code[n]).patches == j.patches
    ensures var t := BlockAt(f, n).tail;
            JumpId(t).Some? && JumpId(t).value in j.labels ==>
              j.labels[JumpId(t).value] == base + LabelOffset(f, JumpId(t).value)
  {
    hide WellFormed, WrittenSoFar, BlockAt, BlockBytes, LabelOffset, FindLabel, Open, BlockSize, JumpId, Advance;
  }

  /** The bytes of a block where the jump's label is known or there is no jump. */
  lemma {:induction false} ClosedStep(f: IrFunc, m0: seq<Byte>, goal: seq<Byte>, base: nat, n: nat, j: Jit, o: Output)
    requires BlockReady(f, m0, goal, base, n, j, o)
    requires JumpId(BlockAt(f, n).tail).Some? ==> JumpId(BlockAt(f, n).tail).value in j.labels
    ensures var (j1, o1) := StepJit(j, o, f.code[n]);
            o1.Writing? && WrittenSoFar(m0, goal, base, o.at + BlockSize(BlockAt(f, n)), j1.patches, o1.bytes)
              && j1.patches == j.patches
  {
    hide *;
    ReadyFacts(f, m0, goal, base, n, j, o);
    BlockFacts(f, base, n, j, o);
    BlockSizes(f, base, n, j.labels);
    TailAgrees(f, BlockAt(f, n).tail, j.labels, base, TailStart(f, n));
    BytesOfBlock(o.bytes, o.at, o.count, BodyBytes(f, n),
      EncodeAll(TailNow(BlockAt(f, n).tail, j.labels, base + TailStart(f, n))));
    ClosedGrows(m0, goal, base, o.at, j.patches, o.bytes,
      BodyBytes(f, n) + EncodeAll(TailNow(BlockAt(f, n).tail, j.labels, base + TailStart(f, n))));
    NoNewPatch(Moved(j, f.code[n]), BlockAt(f, n).tail, base + TailStart(f, n));
  }

  lemma {:induction false} NoNewPatch(j: Jit, t: Tail, at: nat)
    requires JumpId(t).Some? ==> JumpId(t).value in j.labels
    ensures NoteTail(j, t, true, at).patches == j.patches
  {
  }

  lemma {:induction false} NewPatch(j: Jit, t: Tail, at: nat)
    requires JumpId(t).Some? && JumpId(t).value !in j.labels
    ensures NoteTail(j, t, true, at).patches == [Patch(JumpId(t).value, at + TailSize(t) - 4)] + j.patches
    ensures TailSize(t) >= 5
  {
  }

  /** The bytes of a block that jumps forward. */
  lemma {:induction false} OpenStep(f: IrFunc, m0: seq<Byte>, goal: seq<Byte>, base: nat, n: nat, j: Jit, o: Output)
    requires BlockReady(f, m0, goal, base, n, j, o)
    requires JumpId(BlockAt(f, n).tail).Some? && JumpId(BlockAt(f, n).tail).value !in j.labels
    ensures var (j1, o1) := StepJit(j, o, f.code[n]);
            var l := JumpId(BlockAt(f, n).tail).value;
            var end := o.at + BlockSize(BlockAt(f, n));
            && o1.Writing? && WrittenSoFar(m0, goal, base, end, j1.patches, o1.bytes)
            && base + 4 <= end <= |goal| && j1.patches == [Patch(l, end - 4)] + j.patches
            && goal[end - 4..end] == Le32(Wrap32(base + LabelOffset(f, l) - end))
  {
    hide *;
    ReadyFacts(f, m0, goal, base, n, j, o);
    BlockFacts(f, base, n, j, o);
    BlockSizes(f, base, n, j.labels);
    TailAgrees(f, BlockAt(f, n).tail, j.labels, base, TailStart(f, n));
    BytesOfBlock(o.bytes, o.at, o.count, BodyBytes(f, n),
      EncodeAll(TailNow(BlockAt(f, n).tail, j.labels, base + TailStart(f, n))));
    var t := BlockAt(f, n).tail;
    NewPatch(Moved(j, f.code[n]), t, base + TailStart(f, n));
    var body, now := BodyBytes(f, n), EncodeAll(TailNow(BlockAt(f, n).tail, j.labels, base + TailStart(f, n)));
    var end := o.at + |body| + |now|;
    var w := Wrap32(base + LabelOffset(f, JumpId(t).value) - end);
    assert w == Wrap32(LabelOffset(f, JumpId(t).value) - (TailStart(f, n) + TailSize(t)));
    LastFour(goal, o.at, body, now, EncodeAll(TailCode(f, BlockAt(f, n).tail, TailStart(f, n), map[])), Le32(w));
    OpenGrows(m0, goal, base, o.at, j.patches, o.bytes, body + now, Patch(JumpId(t).value, end - 4));
  }

  lemma {:induction false} LastFour(goal: seq<Byte>, at: nat, body: seq<Byte>, now: seq<Byte>, then_: seq<Byte>,
                                    last: seq<Byte>)
    requires SameButLast4(now, then_, last) && at + |body| + |now| <= |goal|
    requires goal[at..at + |body| + |then_|] == body + then_
    ensures var bs := body + now;
            && |bs| >= 4 && goal[at..at + |bs|][..|bs| - 4] == bs[..|bs| - 4]
            && goal[at + |bs| - 4..at + |bs|] == last
  {
    var bs := body + now;
    assert (body + then_)[..|bs| - 4] == body + then_[..|now| - 4] == bs[..|bs| - 4];
    assert goal[at + |bs| - 4..at + |bs|] == (body + then_)[|bs| - 4..] == then_[|now| - 4..];
  }

  /** What holds before a block that is not a label is encoded. */
  ghost predicate BlockReady(f: IrFunc, m0: seq<Byte>, goal: seq<Byte>, base: nat, n: nat, j: Jit, o: Output) {
    && WellFormed(f) && f.labelCount < MAX_LABELS && n < |f.code| && !f.code[n].Label?
    && Patched(f, m0, goal, base, n, j, o) && j.enc == StateAt(f, n)
    && |o.bytes| == |m0| == |goal| && o.at + BlockSize(BlockAt(f, n)) <= |m0|
    && goal[o.at..o.at + BlockSize(BlockAt(f, n))] == BlockBytes(f, n, map[])
  }

  lemma {:induction false} OpenLater(f: IrFunc, goal: seq<Byte>, base: nat, end: nat, end1: nat, n: nat, p: Patch)
    requires n < |f.code| && !f.code[n].Label? && Open(f, goal, base, end, n, p) && end <= end1 <= |goal|
    ensures Open(f, goal, base, end1, n + 1, p)
  {
    hide Le32, LabelOffset;
    LabelElsewhere(f, n, p.id);
  }

  lemma {:induction false} JumpFits(f: IrFunc, n: nat)
    requires WellFormed(f) && n < |f.code| && JumpId(BlockAt(f, n).tail).Some?
    ensures JumpId(BlockAt(f, n).tail).value < f.labelCount
  {
    hide LocateAll, CallSetup, BinaryCode, UnaryCode, CallCleanup, LoadTo, StoreFrom;
    assert Fits(f.code, n, f.params, f.vregCount, f.stackCount, f.labelCount);
  }

  /** A block other than a label. */
  lemma {:induction false} BlockStep(f: IrFunc, m0: seq<Byte>, goal: seq<Byte>, base: nat, n: nat, j: Jit, o: Output)
    requires BlockReady(f, m0, goal, base, n, j, o)
    ensures var (j1, o1) := StepJit(j, o, f.code[n]); Patched(f, m0, goal, base, n + 1, j1, o1)
  {
    hide WellFormed, WrittenSoFar, StepJit, BlockBytes, BlockAt, Open, BlockSize, FindLabel, LabelOffset, JumpId,
      Advance;
    var (j1, o1) := StepJit(j, o, f.code[n]);
    BlockLabels(f, m0, goal, base, n, j, o);
    StepSize(j, o, f.code[n]);
    BlockIs(f, n, j);
    var t := BlockAt(f, n).tail;
    forall p | p in j.patches ensures Open(f, goal, base, o1.at, n + 1, p) {
      OpenLater(f, goal, base, o.at, o1.at, n, p);
    }
    if JumpId(t).Some? && JumpId(t).value !in j.labels {
      OpenStep(f, m0, goal, base, n, j, o);
      JumpFits(f, n);
      NewlyOpen(f, goal, base, o1.at, n, JumpId(t).value);
      assert forall p :: p in j1.patches <==> p == Patch(JumpId(t).value, o1.at - 4) || p in j.patches;
    } else {
      ClosedStep(f, m0, goal, base, n, j, o);
    }
  }

  lemma {:induction false} NewlyOpen(f: IrFunc, goal: seq<Byte>, base: nat, end: nat, n: nat, l: nat)
    requires n < |f.code| && !f.code[n].Label? && l < f.labelCount && FindLabel(f.code, l, 0) >= n
    requires base + 4 <= end <= |goal| && goal[end - 4..end] == Le32(Wrap32(base + LabelOffset(f, l) - end))
    ensures Open(f, goal, base, end, n + 1, Patch(l, end - 4))
  {
    hide Le32, LabelOffset;
    LabelElsewhere(f, n, l);
  }

  /** No label is placed by a block, and a label that is not known is not placed yet. */
  lemma {:induction false} BlockLabels(f: IrFunc, m0: seq<Byte>, goal: seq<Byte>, base: nat, n: nat, j: Jit, o: Output)
    requires BlockReady(f, m0, goal, base, n, j, o)
    ensures LabelsKnown(f, base, n + 1, StepJit(j, o, f.code[n]).0.labels)
    ensures forall l: nat :: l !in j.labels && l < f.labelCount ==> FindLabel(f.code, l, 0) >= n
    ensures Offset(f, n + 1) == Offset(f, n) + BlockSize(BlockAt(f, n))
  {
    hide WellFormed, WrittenSoFar, BlockBytes, Open, BlockAt, LabelOffset, TailNow, BlockSize, Selected;
    var b := Selected(j, f.code[n]);
    NoteTailKeeps(Moved(j, f.code[n]), b.tail, true, At(Put(o, b.body)));
    forall l: nat ensures FindLabel(f.code, l, 0) < n + 1 <==> FindLabel(f.code, l, 0) < n {
      LabelElsewhere(f, n, l);
    }
  }

  // --- The whole function --------------------------------------------------------------------

  /** The code of block `n` is where the layout says. */
  lemma {:induction false} BlockInCode(f: IrFunc, n: nat, k: nat, addr: map<string, Word>)
    requires n < k <= |f.code|
    ensures Offset(f, n + 1) <= |CodeBytes(f, k, addr)|
    ensures CodeBytes(f, k, addr)[Offset(f, n)..Offset(f, n + 1)] == BlockBytes(f, n, addr)
    ensures Offset(f, n + 1) == Offset(f, n) + BlockSize(BlockAt(f, n))
    decreases k
  {
    hide BlockBytes, BlockAt, BlockSize, Prologue;
    CodeBytesSize(f, k, addr);
    CodeBytesSize(f, k - 1, addr);
    OffsetGrows(f, n + 1, k);
    if n < k - 1 {
      BlockInCode(f, n, k - 1, addr);
    } else {
      CodeBytesSize(f, n, addr);
      assert CodeBytes(f, k, addr)[Offset(f, n)..] == BlockBytes(f, n, addr);
    }
  }

  lemma {:induction false} PrologueInCode(f: IrFunc, k: nat, addr: map<string, Word>)
    requires k <= |f.code|
    ensures |EncodeAll(Prologue(f))| <= |CodeBytes(f, k, addr)|
    ensures CodeBytes(f, k, addr)[..|EncodeAll(Prologue(f))|] == EncodeAll(Prologue(f))
  {
    hide BlockBytes, Prologue, EncodeAll;
    if k > 0 {
      PrologueInCode(f, k - 1, addr);
    }
  }

  /** The invariant of the writing pass. */
  lemma {:induction false} PatchedAt(f: IrFunc, sites: seq<CallSite>, m0: seq<Byte>, base: nat, n: nat)
    requires WellFormed(f) && f.labelCount < MAX_LABELS && n <= |f.code| && base + CodeSize(f) <= |m0|
    ensures |FinalCode(f)| == CodeSize(f)
    ensures var (j, o) := After(f, sites, Writing(m0, base, 0), n);
            Patched(f, m0, Overwrite(m0, base, FinalCode(f)), base, n, j, o)
  {
    hide WellFormed, Patched, StepJit, BlockBytes, Offset, BlockAt, BlockSize, CodeBytes, After, Overwrite;
    CodeBytesSize(f, |f.code|, map[]);
    var goal := Overwrite(m0, base, FinalCode(f));
    var o0 := Writing(m0, base, 0);
    if n == 0 {
      PatchedAtStart(f, sites, m0, base, goal);
    } else {
      PatchedAt(f, sites, m0, base, n - 1);
      PassState(f, sites, o0, n - 1);
      AfterNext(f, sites, o0, n - 1);
      var (j, o) := After(f, sites, o0, n - 1);
      if f.code[n - 1].Label? {
        LabelStep(f, m0, goal, base, n - 1, j, o);
      } else {
        GoalHasBlock(f, m0, base, n);
        BlockStep(f, m0, goal, base, n - 1, j, o);
      }
    }
  }

  /** The bytes of an instruction in the memory that is aimed at. */
  lemma {:induction false} GoalHasBlock(f: IrFunc, m0: seq<Byte>, base: nat, n: nat)
    requires WellFormed(f) && 0 < n <= |f.code| && base + CodeSize(f) <= |m0| && |FinalCode(f)| == CodeSize(f)
    ensures Offset(f, n - 1) + BlockSize(BlockAt(f, n - 1)) == Offset(f, n) <= CodeSize(f)
    ensures Overwrite(m0, base, FinalCode(f))[base + Offset(f, n - 1)..base + Offset(f, n)] ==
            BlockBytes(f, n - 1, map[])
  {
    hide WellFormed, BlockBytes, BlockAt, BlockSize, CodeBytes, Overwrite;
    BlockInCode(f, n - 1, |f.code|, map[]);
    OffsetGrows(f, n, |f.code|);
    GoalBlock(m0, base, FinalCode(f), Offset(f, n - 1), Offset(f, n));
  }

  lemma {:induction false} GoalBlock(m0: seq<Byte>, base: nat, bs: seq<Byte>, from: nat, to: nat)
    requires base + |bs| <= |m0| && from <= to <= |bs|
    ensures Overwrite(m0, base, bs)[base + from..base + to] == bs[from..to]
  {
  }

  lemma {:induction false} PatchedAtStart(f: IrFunc, sites: seq<CallSite>, m0: seq<Byte>, base: nat, goal: seq<Byte>)
    requires base + CodeSize(f) <= |m0| && |FinalCode(f)| == CodeSize(f) && goal == Overwrite(m0, base, FinalCode(f))
    ensures var (j, o) := After(f, sites, Writing(m0, base, 0), 0); Patched(f, m0, goal, base, 0, j, o)
  {
    hide Prologue, EncodeAll, FinalCode, CodeSize, StartState, WrittenSoFar, Overwrite, Offset, CodeBytes;
    PrologueInCode(f, |f.code|, map[]);
    PrologueIsFinal(f);
    StartWritten(m0, base, FinalCode(f), EncodeAll(Prologue(f)));
  }

  lemma {:induction false} StartWritten(m0: seq<Byte>, base: nat, final: seq<Byte>, bs: seq<Byte>)
    requires base + |final| <= |m0| && |bs| <= |final| && final[..|bs|] == bs
    ensures WrittenSoFar(m0, Overwrite(m0, base, final), base, base + |bs|, [], Overwrite(m0, base, bs))
  {
    hide Overwrite;
    assert forall k :: 0 <= k < |bs| ==> final[..|bs|][k] == final[k];
  }

  lemma {:induction false} PrologueIsFinal(f: IrFunc)
    ensures FinalCode(f) == CodeBytes(f, |f.code|, map[])
    ensures Offset(f, 0) == |EncodeAll(Prologue(f))|
  {
    hide Prologue, EncodeAll;
  }

  /**
    Backpatching is two-phase resolution: after the writing pass no patch is left, the code
    is the one whose jumps were all resolved with every label known, and no other byte of
    the memory has changed.
   */
  lemma {:induction false} BackpatchingResolves(f: IrFunc, sites: seq<CallSite>, m0: seq<Byte>, base: nat)
    requires WellFormed(f) && f.labelCount < MAX_LABELS && base + CodeSize(f) <= |m0|
    ensures var (j, o) := After(f, sites, Writing(m0, base, 0), |f.code|);
            && j.patches == []
            && |FinalCode(f)| == CodeSize(f)
            && o == Writing(Overwrite(m0, base, FinalCode(f)), base + CodeSize(f), CodeSize(f))
  {
    hide After, FinalCode, CodeSize;
    var n := |f.code|;
    PatchedAt(f, sites, m0, base, n);
    PassState(f, sites, Writing(m0, base, 0), n);
    var (j, o) := After(f, sites, Writing(m0, base, 0), n);
    var goal := Overwrite(m0, base, FinalCode(f));
    assert CodeSize(f) == Offset(f, n) by { SizeIsOffset(f); }
    AllPlaced(f);
    assert j.patches != [] ==> Open(f, goal, base, o.at, n, j.patches[0]);
    assert o.bytes == goal;
  }

  lemma {:induction false} AllPlaced(f: IrFunc)
    requires WellFormed(f)
    ensures forall l: nat :: l < f.labelCount ==> FindLabel(f.code, l, 0) < |f.code|
  {
    forall l: nat | l < f.labelCount ensures FindLabel(f.code, l, 0) < |f.code| {
      assert IrShape.Placed(f.code, 0, l);
    }
  }

  lemma {:induction false} SizeIsOffset(f: IrFunc)
    ensures CodeSize(f) == Offset(f, |f.code|)
  {
  }

  // --- What each step of a pass may rely on ------------------------------------------------------

  lemma {:induction false} InstrInRange(f: IrFunc, n: nat)
    requires WellFormed(f) && n < |f.code|
    ensures VregsInRange(f.code[n])
  {
    assert Fits(f.code, n, f.params, f.vregCount, f.stackCount, f.labelCount);
    var i := f.code[n];
    var us := UsedRegs(i);
    assert |us| > 0 ==> us[0] in us;
    assert |us| > 1 ==> us[1] in us;
    match i
    case Bin(_, _, a, b) => assert us[0] == a && us[1] == b;
    case Un(_, _, a) => assert us[0] == a;
    case Mov(_, a) => assert us[0] == a;
    case Store(_, a, _) => assert us[0] == a;
    case Arg(a, _) => assert us[0] == a;
    case Ret(a) => assert us[0] == a;
    case Jz(a, _) => assert us[0] == a;
    case Jnz(a, _) => assert us[0] == a;
    case _ =>
  }

  lemma {:induction false} PendingInRange(f: IrFunc, n: nat)
    requires WellFormed(f) && n <= |f.code|
    ensures forall v :: v in StateAt(f, n).pending ==> v < MAX_VREGS
  {
    hide WellFormed, LocateAll;
    if n > 0 {
      PendingInRange(f, n - 1);
      InstrInRange(f, n - 1);
    }
  }

  /** There is room for the next block in a memory that holds the whole function. */
  lemma {:induction false} RoomAt(f: IrFunc, sites: seq<CallSite>, o0: Output, n: nat)
    requires n < |f.code| && Room(o0, CodeSize(f))
    ensures RoomForBlock(After(f, sites, o0, n).0, After(f, sites, o0, n).1, f.code[n])
  {
    hide After, EncodeAll, TailNow, BlockAt, Selected, Offset;
    PassState(f, sites, o0, n);
    var (j, o) := After(f, sites, o0, n);
    BlockIs(f, n, j);
    var b := Selected(j, f.code[n]);
    TailNowSize(b.tail, j.labels, At(Put(o, b.body)));
    OffsetNext(f, n);
    OffsetGrows(f, n + 1, |f.code|);
  }

  lemma {:induction false} OffsetNext(f: IrFunc, n: nat)
    requires n < |f.code|
    ensures Offset(f, n + 1) == Offset(f, n) + BlockSize(BlockAt(f, n))
  {
    hide BlockAt;
  }

  lemma {:induction false} RoomAtStart(f: IrFunc, o0: Output)
    requires Room(o0, CodeSize(f))
    ensures RoomFor(o0, Prologue(f))
  {
    hide Prologue, EncodeAll;
    OffsetGrows(f, 0, |f.code|);
    PrologueIsFinal(f);
  }

  /** Open patches lie in the memory. */
  lemma {:induction false} PatchesInside(f: IrFunc, sites: seq<CallSite>, o0: Output, n: nat)
    requires WellFormed(f) && f.labelCount < MAX_LABELS && n <= |f.code| && Room(o0, CodeSize(f)) && o0.count == 0
    ensures PatchesIn(After(f, sites, o0, n).0, After(f, sites, o0, n).1)
  {
    hide After, WellFormed, CodeSize, FinalCode;
    PassState(f, sites, o0, n);
    if o0.Writing? {
      PatchedAt(f, sites, o0.bytes, o0.at, n);
      var (j, o) := After(f, sites, o0, n);
      forall p | p in j.patches ensures p.loc + 4 <= |o.bytes| {
        assert Open(f, Overwrite(o0.bytes, o0.at, FinalCode(f)), o0.at, o.at, n, p);
      }
    }
  }
}
