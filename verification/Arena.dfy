/**
  The arena allocator: a chain of mapped blocks, of which the newest serves allocations, and
  rollback to an earlier position. Sizes and addresses are computed as the processor does,
  modulo 2^64.
 */
module Arenas {
  import opened Words

  const PAGE_SIZE: nat := 4096
  const HEADER_SIZE: nat := 24
  /** Where the addresses of a process end. */
  const ADDRESS_LIMIT: nat := 0x8000_0000_0000
  const DEFAULT_SIZE: nat := 0x400_0000

  /** A mapped region, whose header takes the first bytes; `offset` is the end of the used part. */
  datatype Block = Block(base: nat, size: nat, offset: nat)

  /** A piece of memory handed out, and the place in the chain of the block that holds it. */
  datatype Allocation = Allocation(block: nat, ptr: nat, size: nat)

  /** Where an arena stood: how many blocks it had and how much of the newest was used. */
  datatype Position = Position(depth: nat, offset: nat)

  // --- Arithmetic ------------------------------------------------------------------------

  ghost predicate PowerOfTwo(n: nat) {
    exists k: nat :: n == Pow2(k)
  }

  /** Halves until the number is odd: a power of two ends at 1. */
  function IsPowerOfTwo(n: nat): (b: bool)
    ensures b <==> PowerOfTwo(n)
  {
    if n == 0 then (NoPower(); false)
    else if n == 1 then (assert Pow2(0) == 1; true)
    else if n % 2 == 1 then (OddPower(n); false)
    else (HalfPower(n); IsPowerOfTwo(n / 2))
  }

  lemma {:induction false} NoPower()
    ensures !PowerOfTwo(0)
  {
  }

  lemma {:induction false} OddPower(n: nat)
    requires n > 1 && n % 2 == 1
    ensures !PowerOfTwo(n)
  {
    forall k: nat ensures n != Pow2(k) {
      if k > 0 {
        assert Pow2(k) == 2 * Pow2(k - 1);
      }
    }
  }

  lemma {:induction false} HalfPower(n: nat)
    requires n > 1 && n % 2 == 0
    ensures PowerOfTwo(n) <==> PowerOfTwo(n / 2)
  {
    if PowerOfTwo(n) {
      var k: nat :| n == Pow2(k);
      assert n / 2 == Pow2(k - 1);
    }
    if PowerOfTwo(n / 2) {
      var k: nat :| n / 2 == Pow2(k);
      assert n == Pow2(k + 1);
    }
  }

  /** The first multiple of `align` from `addr` on. */
  function AlignForward(addr: nat, align: nat): (r: nat)
    requires align > 0
    ensures addr <= r < addr + align && r % align == 0
    ensures forall s: nat :: addr <= s && s % align == 0 ==> r <= s
  {
    var m := addr % align;
    var r := if m == 0 then addr else addr + (align - m);
    NextMultiple(addr, align, r);
    r
  }

  lemma {:induction false} NextMultiple(addr: nat, align: nat, r: nat)
    requires align > 0 && r == if addr % align == 0 then addr else addr + (align - addr % align)
    ensures addr <= r < addr + align && r % align == 0
    ensures forall s: nat :: addr <= s && s % align == 0 ==> r <= s
  {
    var q, m := addr / align, addr % align;
    assert addr == align * q + m;
    if m > 0 {
      assert r == align * (q + 1);
      MultipleMod(align, q + 1);
      forall s: nat | addr <= s && s % align == 0 ensures r <= s {
        var t := s / align;
        assert s == align * t;
        NotBelow(align, q, t, m);
      }
    }
  }

  lemma {:induction false} MultipleMod(a: nat, k: nat)
    requires a > 0
    ensures (a * k) % a == 0
  {
    var q, r := a * k / a, a * k % a;
    assert a * k == a * q + r;
    if q < k {
      Monotone(a, q + 1, k);
    } else {
      Monotone(a, k, q);
    }
  }

  lemma {:induction false} NotBelow(a: nat, q: nat, t: nat, m: nat)
    requires a * q + m <= a * t && m > 0
    ensures a * (q + 1) <= a * t
  {
    if t <= q {
      Monotone(a, t, q);
    } else {
      Monotone(a, q + 1, t);
    }
  }

  lemma {:induction false} Monotone(a: nat, s: nat, t: nat)
    requires s <= t
    ensures a * s <= a * t
  {
  }

  /** What a `size_t` or an address is left with. */
  function Size(n: int): (r: nat)
    ensures r < TWO64
    ensures 0 <= n < TWO64 ==> r == n
  {
    n % TWO64
  }

  /** Sizes are rounded up to whole pages. */
  function AlignToPage(size: nat): (r: nat)
    ensures r % PAGE_SIZE == 0
    ensures size + PAGE_SIZE <= TWO64 ==> size <= r < size + PAGE_SIZE
  {
    var s := Size(size + PAGE_SIZE - 1);
    s / PAGE_SIZE * PAGE_SIZE
  }

  // --- The allocator as functions of the chain ------------------------------------------------

  /** What `mmap` answers, given the blocks in use and a size. */
  type Mapping = (seq<Block>, nat) -> Option<nat>

  /** The newest block grows when the new pages are next to it, else there is a new block. */
  function CreatedBlock(blocks: seq<Block>, capacity: nat, mmap: Mapping): Option<seq<Block>> {
    var total := AlignToPage(Size(capacity + HEADER_SIZE));
    var last := |blocks| - 1;
    match mmap(blocks, total)
    case None => None
    case Some(base) =>
      if blocks != [] && base == blocks[last].base + blocks[last].size then
        Some(blocks[last := blocks[last].(size := blocks[last].size + total)])
      else Some(blocks + [Block(base, total, HEADER_SIZE)])
  }

  /** How far the end of the used part is from an aligned address. */
  function Padding(b: Block, align: nat): nat
    requires align > 0
  {
    var current := Size(b.base + b.offset);
    Size(AlignForward(current, align) - current)
  }

  /** The chain and the padding to allocate with, after growing if need be. */
  function RoomMade(blocks: seq<Block>, size: nat, align: nat, mmap: Mapping): Option<(seq<Block>, nat)>
    requires blocks != [] && align > 0
  {
    var b := blocks[|blocks| - 1];
    var padding := Padding(b, align);
    if Size(b.offset + padding + size) <= b.size then Some((blocks, padding))
    else
      match CreatedBlock(blocks, Max(Size(size + align), DEFAULT_SIZE), mmap)
      case None => None
      case Some(blocks1) =>
        Some((blocks1, if |blocks1| == |blocks| then padding else Padding(blocks1[|blocks1| - 1], align)))
  }

  /** The address handed out, if any, and the chain after it. */
  function Allocated(blocks: seq<Block>, size: nat, align: nat, mmap: Mapping): (Option<nat>, seq<Block>) {
    if size == 0 || !IsPowerOfTwo(align) then (None, blocks)
    else
      PowerPositive(align);
      var started := if blocks == [] then CreatedBlock(blocks, Max(size, DEFAULT_SIZE), mmap) else Some(blocks);
      if started == None then (None, blocks)
      else
        match RoomMade(started.value, size, align, mmap)
        case None => (None, started.value)
        case Some((blocks1, padding)) =>
          var (ptr, blocks2) := Taken(blocks1, padding, size);
          (Some(ptr), blocks2)
  }

  /** What the system is asked for when a block of this capacity is wanted. */
  function RequestFor(capacity: nat): nat {
    AlignToPage(Size(capacity + HEADER_SIZE))
  }

  /** The newest block is too small for the request. */
  predicate Lacks(b: Block, size: nat, align: nat)
    requires align > 0
  {
    Size(b.offset + Padding(b, align) + size) > b.size
  }

  /** The system refused the memory for the first block, or for growing when the newest block was too small. */
  predicate Denied(blocks: seq<Block>, size: nat, align: nat, mmap: Mapping)
    requires align > 0
  {
    if blocks == [] then
      || mmap([], RequestFor(Max(size, DEFAULT_SIZE))) == None
      || var b := Block(mmap([], RequestFor(Max(size, DEFAULT_SIZE))).value, RequestFor(Max(size, DEFAULT_SIZE)),
        HEADER_SIZE);
         Lacks(b, size, align) && mmap([b], RequestFor(Max(Size(size + align), DEFAULT_SIZE))) == None
    else
      && Lacks(blocks[|blocks| - 1], size, align)
      && mmap(blocks, RequestFor(Max(Size(size + align), DEFAULT_SIZE))) == None
  }

  /** The end of the used part moves over the padding, and then over the allocation. */
  function Taken(blocks: seq<Block>, padding: nat, size: nat): (r: (nat, seq<Block>))
    requires blocks != []
    ensures |r.1| == |blocks|
  {
    var last := |blocks| - 1;
    var offset := Size(blocks[last].offset + padding);
    (Size(blocks[last].base + offset), blocks[last := blocks[last].(offset := Size(offset + size))])
  }

  function Max(a: nat, b: nat): nat {
    if a > b then a else b
  }

  lemma {:induction false} PowerPositive(n: nat)
    requires PowerOfTwo(n)
    ensures n > 0
  {
  }

  /** Among the numbers of 64 bits, powers of two end at 2^63. */
  lemma {:induction false} PowerBound(n: nat)
    requires PowerOfTwo(n) && n < TWO64
    ensures n <= TWO64 / 2
  {
    hide Pow2;
    var k: nat :| n == Pow2(k);
    LargePower(k);
    Pow2Add(k, 63 - k);
    Pow2At64();
    Pow2Add(1, 63);
    OneDoubles();
    Monotone(Pow2(k), 1, Pow2(63 - k));
  }

  lemma {:induction false} LargePower(k: nat)
    ensures k >= 64 ==> Pow2(k) >= TWO64
  {
    hide Pow2;
    if k >= 64 {
      Pow2At64();
      Pow2Add(64, k - 64);
      Monotone(Pow2(64), 1, Pow2(k - 64));
    }
  }

  lemma {:induction false} OneDoubles()
    ensures Pow2(1) == 2
  {
    assert Pow2(0) == 1;
  }

  // --- Blocks and allocations ---------------------------------------------------------------

  predicate Apart(base: nat, size: nat, b: Block) {
    base + size <= b.base || b.base + b.size <= base
  }

  ghost predicate BlockOk(b: Block) {
    b.base > 0 && b.base % PAGE_SIZE == 0 && HEADER_SIZE <= b.offset <= b.size && b.base + b.size <= ADDRESS_LIMIT
  }

  ghost predicate ChainOk(blocks: seq<Block>) {
    && (forall i :: 0 <= i < |blocks| ==> BlockOk(blocks[i]))
    && (forall i, j :: 0 <= i < j < |blocks| ==> Apart(blocks[i].base, blocks[i].size, blocks[j]))
  }

  /** The allocation is in the used part of its block, after the header. */
  predicate Inside(a: Allocation, blocks: seq<Block>) {
    && a.block < |blocks| && a.size > 0
    && blocks[a.block].base + HEADER_SIZE <= a.ptr
    && a.ptr + a.size <= blocks[a.block].base + blocks[a.block].offset
  }

  /** In the order of the chain: allocations in one block do not overlap. */
  predicate Before(a: Allocation, b: Allocation) {
    a.block < b.block || (a.block == b.block && a.ptr + a.size <= b.ptr)
  }

  ghost predicate AllocationsOk(allocs: seq<Allocation>, blocks: seq<Block>) {
    && (forall i :: 0 <= i < |allocs| ==> Inside(allocs[i], blocks))
    && (forall i, j :: 0 <= i < j < |allocs| ==> Before(allocs[i], allocs[j]))
  }

  predicate Disjoint(a: Allocation, b: Allocation) {
    a.ptr + a.size <= b.ptr || b.ptr + b.size <= a.ptr
  }

  /** Live allocations never overlap, in one block or in two. */
  lemma {:induction false} LiveDisjoint(allocs: seq<Allocation>, blocks: seq<Block>, i: nat, j: nat)
    requires ChainOk(blocks) && AllocationsOk(allocs, blocks) && i < j < |allocs|
    ensures Disjoint(allocs[i], allocs[j])
  {
    assert Before(allocs[i], allocs[j]) && Inside(allocs[i], blocks) && Inside(allocs[j], blocks);
    if allocs[i].block < allocs[j].block {
      assert Apart(blocks[allocs[i].block].base, blocks[allocs[i].block].size, blocks[allocs[j].block]);
    }
  }

  /** The first `count` allocations all lie below the position. */
  predicate Below(a: Allocation, p: Position, blocks: seq<Block>) {
    && a.block < p.depth <= |blocks|
    && (a.block == p.depth - 1 ==> a.ptr + a.size <= blocks[a.block].base + p.offset)
  }

  /** A position that the arena can be rolled back to, and the allocations it had then. */
  ghost predicate Reachable(p: Position, count: nat, allocs: seq<Allocation>, blocks: seq<Block>) {
    && p.depth <= |blocks| && count <= |allocs|
    && (p.depth > 0 ==> HEADER_SIZE <= p.offset <= blocks[p.depth - 1].offset)
    && (p.depth == 0 ==> count == 0 && p.offset == 0)
    && (forall i :: 0 <= i < count ==> Below(allocs[i], p, blocks))
  }

  /** A rollback that is open: its position and the number of allocations before it. */
  datatype Mark = Mark(pos: Position, count: nat)

  /** What the operating system may answer to a request for memory: whole pages that are not in use. */
  ghost predicate Honest(mmap: Mapping) {
    forall bs: seq<Block>, n: nat :: mmap(bs, n).Some? ==> n > 0 && FreshAt(mmap(bs, n).value, n, bs)
  }

  ghost predicate FreshAt(base: nat, size: nat, blocks: seq<Block>) {
    && base > 0 && base % PAGE_SIZE == 0 && base + size <= ADDRESS_LIMIT
    && forall i :: 0 <= i < |blocks| ==> Apart(base, size, blocks[i])
  }

  /** Marks are nested: a later one is at a later position. */
  ghost predicate MarksOk(marks: seq<Mark>, allocs: seq<Allocation>, blocks: seq<Block>) {
    && (forall i :: 0 <= i < |marks| ==> Reachable(marks[i].pos, marks[i].count, allocs, blocks))
    && (forall i, j :: 0 <= i < j < |marks| ==> Earlier(marks[i], marks[j]))
  }

  predicate Earlier(m: Mark, n: Mark) {
    && m.count <= n.count && m.pos.depth <= n.pos.depth
    && (m.pos.depth == n.pos.depth ==> m.pos.offset <= n.pos.offset)
  }

  /** The arena stands at the position. */
  predicate AtPosition(blocks: seq<Block>, p: Position) {
    |blocks| == p.depth && p.offset == if p.depth == 0 then 0 else blocks[p.depth - 1].offset
  }

  /** Blocks are where they were. */
  predicate SameBases(blocks: seq<Block>, blocks1: seq<Block>) {
    |blocks| <= |blocks1| && forall i :: 0 <= i < |blocks| ==> blocks1[i].base == blocks[i].base
  }

  class Arena {
    /** The chain, the newest block last. */
    var blocks: seq<Block>
    /** How many of them are still mapped: less than all only after a rollback to an empty arena. */
    var mapped: nat

    ghost var allocs: seq<Allocation>
    ghost var marks: seq<Mark>

    ghost predicate Valid()
      reads this
    {
      && mapped == |blocks|
      && ChainOk(blocks) && AllocationsOk(allocs, blocks) && MarksOk(marks, allocs, blocks)
    }

    constructor ()
      ensures Valid() && blocks == [] && allocs == [] && marks == []
    {
      blocks, mapped, allocs, marks := [], 0, [], [];
    }

    /** Grows the newest block when the new pages are next to it, else adds a block. */
    method CreateBlock(capacity: nat, mmap: Mapping) returns (ok: bool)
      requires mapped == |blocks|
      modifies this`blocks, this`mapped
      ensures mapped == |blocks| && ok == CreatedBlock(old(blocks), capacity, mmap).Some?
      ensures blocks == if ok then CreatedBlock(old(blocks), capacity, mmap).value else old(blocks)
      ensures ok ==> blocks != []
    {
      var total := AlignToPage(Size(capacity + HEADER_SIZE));
      var base := mmap(blocks, total);
      if base == None {
        return false;
      }
      var last := |blocks| - 1;
      if blocks != [] && base.value == blocks[last].base + blocks[last].size {
        blocks := blocks[last := blocks[last].(size := blocks[last].size + total)];
      } else {
        blocks := blocks + [Block(base.value, total, HEADER_SIZE)];
        mapped := mapped + 1;
      }
      return true;
    }

    /**
      A fresh, aligned piece of memory; what was handed out before stays where it is. Refused
      are exactly empty requests, alignments that are no power of two, and requests for which
      the system denies the memory. A request that no memory could meet is not always refused, because
      sizes wrap around: what is then handed out is exactly what is not safe.
     */
    method AllocAligned(size: nat, align: nat, mmap: Mapping) returns (r: Option<nat>)
      requires Valid() && Honest(mmap) && size < TWO64 && align < TWO64
      modifies this
      ensures r == Allocated(old(blocks), size, align, mmap).0 && blocks == Allocated(old(blocks), size, align, mmap).1
      ensures marks == old(marks) && (Valid() <==> r.None? || size < ADDRESS_LIMIT)
      ensures r.None? ==> allocs == old(allocs) && SameBases(old(blocks), blocks)
      ensures r.Some? ==> blocks != [] && allocs == old(allocs) + [Allocation(|blocks| - 1, r.value, size)]
      ensures r.Some? && size < ADDRESS_LIMIT ==> align > 0 && r.value % align == 0 && SameBases(old(blocks), blocks)
      ensures r.None? <==> size == 0 || !IsPowerOfTwo(align) || (align > 0 && Denied(old(blocks), size, align, mmap))
    {
      hide ChainOk, AllocationsOk, MarksOk, Honest, PowerOfTwo, CreatedBlock, RoomMade, Taken, SameBases, Inside,
        Denied;
      AllocatedSafe(blocks, size, align, mmap, allocs, marks);
      RefusedExactly(blocks, size, align, mmap);
      if size == 0 || !IsPowerOfTwo(align) {
        return None;
      }
      PowerPositive(align);
      if blocks == [] {
        var ok := CreateBlock(Max(size, DEFAULT_SIZE), mmap);
        if !ok {
          return None;
        }
      }
      var padding := MakeRoom(size, align, mmap);
      if padding == None {
        return None;
      }
      var ptr := Take(padding.value, size);
      allocs := allocs + [Allocation(|blocks| - 1, ptr, size)];
      return Some(ptr);
    }

    /** The padding to allocate with in the newest block, after growing if need be. */
    method MakeRoom(size: nat, align: nat, mmap: Mapping) returns (padding: Option<nat>)
      requires mapped == |blocks| && blocks != [] && align > 0
      modifies this`blocks, this`mapped
      ensures mapped == |blocks| && blocks != [] && padding.Some? == RoomMade(old(blocks), size, align, mmap).Some?
      ensures padding.None? ==> blocks == old(blocks)
      ensures padding.Some? ==> RoomMade(old(blocks), size, align, mmap).value == (blocks, padding.value)
    {
      hide Padding, Size;
      var b := blocks[|blocks| - 1];
      var pad := Padding(b, align);
      if Size(b.offset + pad + size) > b.size {
        var depth := |blocks|;
        var ok := CreateBlock(Max(Size(size + align), DEFAULT_SIZE), mmap);
        if !ok {
          return None;
        }
        if |blocks| != depth {
          pad := Padding(blocks[|blocks| - 1], align);
        }
      }
      return Some(pad);
    }

    method Take(padding: nat, size: nat) returns (r: nat)
      requires mapped == |blocks| && blocks != []
      modifies this`blocks
      ensures mapped == |blocks| && r == Taken(old(blocks), padding, size).0
      ensures blocks == Taken(old(blocks), padding, size).1
    {
      var last := |blocks| - 1;
      blocks := blocks[last := blocks[last].(offset := Size(blocks[last].offset + padding))];
      r := Size(blocks[last].base + blocks[last].offset);
      blocks := blocks[last := blocks[last].(offset := Size(blocks[last].offset + size))];
    }

    /** The position to come back to. */
    method TempBegin() returns (pos: Position)
      requires Valid()
      modifies this`marks
      ensures Valid() && AtPosition(blocks, pos) && marks == old(marks) + [Mark(pos, |allocs|)]
    {
      pos := Position(|blocks|, if blocks == [] then 0 else blocks[|blocks| - 1].offset);
      BeginMark(blocks, pos, allocs, marks);
      marks := marks + [Mark(pos, |allocs|)];
    }

    /**
      Comes back to the innermost open position. That works exactly if the arena had a block
      then or still has none. Else nothing is restored: all blocks but the first are unmapped,
      although the chain still has them, and the newest of them stays current.
     */
    method TempEnd(pos: Position)
      requires Valid() && marks != [] && marks[|marks| - 1].pos == pos
      modifies this
      ensures AtPosition(blocks, pos) <==> pos.depth > 0 || old(blocks) == []
      ensures AtPosition(blocks, pos) ==>
                && Valid() && SameBases(blocks, old(blocks)) && marks == old(marks)[..|old(marks)| - 1]
                && allocs == old(allocs)[..old(marks)[|old(marks)| - 1].count]
      ensures !AtPosition(blocks, pos) ==> blocks == old(blocks) && mapped == 1 && allocs == old(allocs)
    {
      hide ChainOk, AllocationsOk, MarksOk;
      ghost var mark := marks[|marks| - 1];
      assert marks == marks[..|marks| - 1] + [Mark(pos, mark.count)];
      LastMark(blocks, pos, mark.count, allocs, marks[..|marks| - 1]);
      marks := marks[..|marks| - 1];
      if blocks == [] {
        return;
      }
      var curr := |blocks|;
      while curr != pos.depth
        invariant 1 <= curr <= |blocks| && pos.depth <= curr && mapped == curr
        invariant blocks == old(blocks) && allocs == old(allocs) && marks == old(marks)[..|old(marks)| - 1]
        decreases curr
      {
        if curr == 1 {
          return;
        }
        mapped := mapped - 1;
        curr := curr - 1;
      }
      RollBack(blocks, pos, mark.count, allocs, marks);
      blocks := blocks[..curr];
      blocks := blocks[curr - 1 := blocks[curr - 1].(offset := pos.offset)];
      allocs := allocs[..mark.count];
    }

    /** Forgets all allocations, and keeps the first block. */
    method Reset()
      requires Valid()
      modifies this
      ensures Valid() && allocs == [] && marks == []
      ensures blocks == if old(blocks) == [] then [] else [old(blocks)[0].(offset := HEADER_SIZE)]
    {
      allocs, marks := [], [];
      if blocks == [] {
        return;
      }
      while |blocks| > 1
        invariant |blocks| >= 1 && mapped == |blocks| && blocks == old(blocks)[..|blocks|] && allocs == []
        invariant marks == []
      {
        blocks := blocks[..|blocks| - 1];
        mapped := mapped - 1;
      }
      assert BlockOk(old(blocks)[0]);
      blocks := [blocks[0].(offset := HEADER_SIZE)];
    }
  }

  predicate FitsAt(b: Block, ptr: nat, size: nat) {
    b.base + b.offset <= ptr && ptr + size <= b.base + b.size
  }

  ghost predicate ArenaOk(blocks: seq<Block>, allocs: seq<Allocation>, marks: seq<Mark>) {
    ChainOk(blocks) && AllocationsOk(allocs, blocks) && MarksOk(marks, allocs, blocks)
  }

  lemma {:induction false} NewestOk(blocks: seq<Block>)
    requires ChainOk(blocks) && blocks != []
    ensures BlockOk(blocks[|blocks| - 1])
  {
  }

  lemma {:induction false} MappedOk(blocks: seq<Block>, n: nat, mmap: Mapping)
    requires Honest(mmap) && mmap(blocks, n).Some?
    ensures n > 0 && FreshAt(mmap(blocks, n).value, n, blocks)
  {
  }

  /** Creating a block keeps everything in order, whatever its size comes to. */
  lemma {:induction false} CreatedOk(blocks: seq<Block>, capacity: nat, mmap: Mapping, allocs: seq<Allocation>,
                                     marks: seq<Mark>)
    requires ArenaOk(blocks, allocs, marks) && Honest(mmap) && CreatedBlock(blocks, capacity, mmap).Some?
    ensures var blocks1 := CreatedBlock(blocks, capacity, mmap).value;
            && ArenaOk(blocks1, allocs, marks) && SameBases(blocks, blocks1) && blocks1 != []
            && Grown(blocks, blocks1, AlignToPage(Size(capacity + HEADER_SIZE)))
  {
    hide ChainOk, AllocationsOk, MarksOk, Honest, AlignToPage, Size;
    var total := AlignToPage(Size(capacity + HEADER_SIZE));
    var last := |blocks| - 1;
    MappedOk(blocks, total, mmap);
    var base := mmap(blocks, total).value;
    if blocks != [] && base == blocks[last].base + blocks[last].size {
      GrowInPlace(blocks, total, allocs, marks);
    } else {
      assert total >= PAGE_SIZE by { WholePages(capacity + HEADER_SIZE); }
      AddBlock(blocks, Block(base, total, HEADER_SIZE), allocs, marks);
    }
  }

  lemma {:induction false} WholePages(n: nat)
    ensures var total := AlignToPage(Size(n)); total > 0 ==> total >= PAGE_SIZE
  {
    var total := AlignToPage(Size(n));
    assert total % PAGE_SIZE == 0;
  }

  /** Below the limit no sum wraps around, so the padding leads to the next aligned address. */
  lemma {:induction false} PaddingExact(b: Block, align: nat)
    requires BlockOk(b) && 0 < align <= TWO64 / 2
    ensures b.base + b.offset + Padding(b, align) == AlignForward(b.base + b.offset, align) && Padding(b, align) < align
  {
    hide AlignForward, Size;
  }

  /** The request is met in the newest block, after this padding. */
  predicate Meets(blocks: seq<Block>, padding: nat, size: nat, align: nat)
    requires align > 0
  {
    && blocks != [] && padding == Padding(blocks[|blocks| - 1], align)
    && (size < ADDRESS_LIMIT ==>
          var b := blocks[|blocks| - 1];
          FitsAt(b, b.base + b.offset + padding, size) && (b.base + b.offset + padding) % align == 0)
  }

  /** A request below the limit that finds room fits where it is placed. */
  lemma {:induction false} RoomIsRoom(blocks: seq<Block>, size: nat, align: nat, mmap: Mapping,
                                      allocs: seq<Allocation>, marks: seq<Mark>)
    requires ArenaOk(blocks, allocs, marks) && Honest(mmap) && blocks != [] && 0 < align <= TWO64 / 2
    requires RoomMade(blocks, size, align, mmap).Some?
    ensures var (blocks1, padding) := RoomMade(blocks, size, align, mmap).value;
            && ArenaOk(blocks1, allocs, marks) && SameBases(blocks, blocks1)
            && blocks1 != [] && Meets(blocks1, padding, size, align)
  {
    hide ArenaOk, Honest, CreatedBlock, Grown, Padding, AlignToPage, AlignForward, SameBases, Meets, Size;
    OkNewest(blocks, allocs, marks);
    SameItself(blocks);
    var b := blocks[|blocks| - 1];
    if Size(b.offset + Padding(b, align) + size) <= b.size {
      RoomAlready(blocks, size, align);
    } else {
      var capacity := Max(Size(size + align), DEFAULT_SIZE);
      CreatedOk(blocks, capacity, mmap, allocs, marks);
      var blocks1 := CreatedBlock(blocks, capacity, mmap).value;
      OkNewest(blocks1, allocs, marks);
      SamePadding(blocks, blocks1, AlignToPage(Size(capacity + HEADER_SIZE)), align);
      GrownRoom(blocks, blocks1, size, align);
    }
  }

  lemma {:induction false} RoomAlready(blocks: seq<Block>, size: nat, align: nat)
    requires blocks != [] && BlockOk(blocks[|blocks| - 1]) && 0 < align <= TWO64 / 2
    requires var b := blocks[|blocks| - 1]; Size(b.offset + Padding(b, align) + size) <= b.size
    ensures Meets(blocks, Padding(blocks[|blocks| - 1], align), size, align)
  {
    hide Padding, AlignForward, Size;
    PaddingExact(blocks[|blocks| - 1], align);
  }

  lemma {:induction false} OkNewest(blocks: seq<Block>, allocs: seq<Allocation>, marks: seq<Mark>)
    requires ArenaOk(blocks, allocs, marks) && blocks != []
    ensures BlockOk(blocks[|blocks| - 1])
  {
    NewestOk(blocks);
  }

  lemma {:induction false} SamePadding(blocks: seq<Block>, blocks1: seq<Block>, total: nat, align: nat)
    requires Grown(blocks, blocks1, total) && align > 0
    ensures |blocks1| == |blocks| ==> Padding(blocks1[|blocks1| - 1], align) == Padding(blocks[|blocks| - 1], align)
  {
  }

  /** After growing there is room for the request, wherever its alignment puts it. */
  lemma {:induction false} GrownRoom(blocks: seq<Block>, blocks1: seq<Block>, size: nat, align: nat)
    requires Grown(blocks, blocks1, AlignToPage(Size(Max(Size(size + align), DEFAULT_SIZE) + HEADER_SIZE)))
    requires 0 < align <= TWO64 / 2 && blocks1 != [] && BlockOk(blocks1[|blocks1| - 1])
    requires blocks != [] && blocks[|blocks| - 1].offset <= blocks[|blocks| - 1].size
    ensures Meets(blocks1, Padding(blocks1[|blocks1| - 1], align), size, align)
  {
    hide Padding, AlignToPage, AlignForward, Size;
    PaddingExact(blocks1[|blocks1| - 1], align);
  }

  /**
    Allocation is safe below the limit: the arena stays in order, with one allocation more,
    where it was asked to be. At or over the limit it is safe only if it is refused.
   */
  lemma {:induction false} AllocatedSafe(blocks: seq<Block>, size: nat, align: nat, mmap: Mapping,
                                         allocs: seq<Allocation>, marks: seq<Mark>)
    requires ArenaOk(blocks, allocs, marks) && Honest(mmap) && size < TWO64 && align < TWO64
    ensures var (r, blocks1) := Allocated(blocks, size, align, mmap);
            && (r.None? ==> ArenaOk(blocks1, allocs, marks) && SameBases(blocks, blocks1))
            && (r.Some? ==> blocks1 != [] && align > 0)
            && (r.Some? ==>
                  var allocs1 := allocs + [Allocation(|blocks1| - 1, r.value, size)];
                  ArenaOk(blocks1, allocs1, marks) <==> size < ADDRESS_LIMIT)
            && (r.Some? && size < ADDRESS_LIMIT ==> r.value % align == 0 && SameBases(blocks, blocks1))
  {
    hide ArenaOk, Honest, CreatedBlock, RoomMade, Taken, PowerOfTwo, SameBases, Meets, Size;
    SameItself(blocks);
    if size > 0 && IsPowerOfTwo(align) {
      PowerPositive(align);
      PowerBound(align);
      var started := if blocks == [] then CreatedBlock(blocks, Max(size, DEFAULT_SIZE), mmap) else Some(blocks);
      if started.Some? {
        var bs := started.value;
        if blocks == [] {
          CreatedOk(blocks, Max(size, DEFAULT_SIZE), mmap, allocs, marks);
        }
        if RoomMade(bs, size, align, mmap).Some? {
          RoomIsRoom(bs, size, align, mmap, allocs, marks);
          var (blocks1, padding) := RoomMade(bs, size, align, mmap).value;
          SameTwice(blocks, bs, blocks1);
          TakenSafe(blocks1, padding, size, align, allocs, marks);
          SameTwice(blocks, blocks1, Taken(blocks1, padding, size).1);
        }
      }
    }
  }

  lemma {:induction false} SameItself(blocks: seq<Block>)
    ensures SameBases(blocks, blocks)
  {
  }

  lemma {:induction false} SameTwice(a: seq<Block>, b: seq<Block>, c: seq<Block>)
    requires SameBases(a, b) && SameBases(b, c)
    ensures SameBases(a, c)
  {
    forall i | 0 <= i < |a| ensures c[i].base == a[i].base {
      assert b[i].base == a[i].base;
    }
  }

  /** Refused are exactly empty requests, alignments that are no power of two, and what the system denies. */
  lemma {:induction false} RefusedExactly(blocks: seq<Block>, size: nat, align: nat, mmap: Mapping)
    ensures Allocated(blocks, size, align, mmap).0.None? <==>
              size == 0 || !IsPowerOfTwo(align) || (align > 0 && Denied(blocks, size, align, mmap))
  {
    hide Padding, IsPowerOfTwo, Taken, AlignToPage, Size;
    if size > 0 && IsPowerOfTwo(align) {
      PowerPositive(align);
      if blocks == [] {
        var capacity := Max(size, DEFAULT_SIZE);
        if mmap([], RequestFor(capacity)).Some? {
          var b := Block(mmap([], RequestFor(capacity)).value, RequestFor(capacity), HEADER_SIZE);
          assert blocks + [b] == [b];
        }
      }
    }
  }

  /**
    Below the limit nothing wraps around: a block is too small exactly when the aligned
    allocation would end after it, and what is asked for is enough for it and its header.
   */
  lemma {:induction false} LackIsReal(b: Block, size: nat, align: nat)
    requires BlockOk(b) && 0 < align <= TWO64 / 2 && size < ADDRESS_LIMIT
    ensures Lacks(b, size, align) <==> !FitsAt(b, AlignForward(b.base + b.offset, align), size)
    ensures RequestFor(Max(Size(size + align), DEFAULT_SIZE)) >= size + align + HEADER_SIZE
  {
    hide Padding, AlignForward, AlignToPage, Size;
    PaddingExact(b, align);
  }

  /**
    A request that the newest block has room for is met there, at the first aligned address
    after what is in use, and takes up no more than its size after that.
   */
  lemma {:induction false} PlacedNext(blocks: seq<Block>, size: nat, align: nat, mmap: Mapping)
    requires ChainOk(blocks) && blocks != [] && 0 < size < ADDRESS_LIMIT && 0 < align < TWO64 && IsPowerOfTwo(align)
    requires var b := blocks[|blocks| - 1]; FitsAt(b, AlignForward(b.base + b.offset, align), size)
    ensures var last := |blocks| - 1;
            var b := blocks[last];
            var ptr := AlignForward(b.base + b.offset, align);
            && Allocated(blocks, size, align, mmap).0 == Some(ptr)
            && ptr + size >= b.base
            && Allocated(blocks, size, align, mmap).1 == blocks[last := b.(offset := ptr + size - b.base)]
  {
    hide Padding, AlignForward, AlignToPage, Size, IsPowerOfTwo, CreatedBlock, PowerOfTwo;
    PowerBound(align);
    NewestOk(blocks);
    var last := |blocks| - 1;
    var b := blocks[last];
    PaddingExact(b, align);
    LackIsReal(b, size, align);
    assert RoomMade(blocks, size, align, mmap) == Some((blocks, Padding(b, align)));
    AllocatedIs(blocks, size, align, mmap);
  }

  lemma {:induction false} AllocatedIs(blocks: seq<Block>, size: nat, align: nat, mmap: Mapping)
    requires blocks != [] && size > 0 && align > 0 && IsPowerOfTwo(align)
    requires RoomMade(blocks, size, align, mmap).Some?
    ensures var r := RoomMade(blocks, size, align, mmap).value;
            && Allocated(blocks, size, align, mmap).0 == Some(Taken(r.0, r.1, size).0)
            && Allocated(blocks, size, align, mmap).1 == Taken(r.0, r.1, size).1
  {
    hide RoomMade, Taken, CreatedBlock, IsPowerOfTwo;
  }

  lemma {:induction false} TakenSafe(blocks: seq<Block>, padding: nat, size: nat, align: nat, allocs: seq<Allocation>,
                                     marks: seq<Mark>)
    requires ArenaOk(blocks, allocs, marks) && blocks != [] && 0 < size && 0 < align <= TWO64 / 2
    requires Meets(blocks, padding, size, align)
    ensures var (r, blocks1) := Taken(blocks, padding, size);
            && SameBases(blocks, blocks1) && blocks1 != []
            && (ArenaOk(blocks1, allocs + [Allocation(|blocks1| - 1, r, size)], marks) <==> size < ADDRESS_LIMIT)
            && (size < ADDRESS_LIMIT ==> r % align == 0)
  {
    hide Padding, ChainOk, AllocationsOk, MarksOk;
    var last := |blocks| - 1;
    NewestOk(blocks);
    var b := blocks[last];
    PaddingExact(b, align);
    var (r, blocks1) := Taken(blocks, padding, size);
    if size < ADDRESS_LIMIT {
      var ptr := b.base + b.offset + padding;
      assert Size(b.offset + padding) == b.offset + padding;
      assert r == ptr;
      PlaceAllocation(blocks, ptr, size, allocs, marks);
    } else {
      var allocs1 := allocs + [Allocation(last, r, size)];
      if ArenaOk(blocks1, allocs1, marks) {
        LiveBelowLimit(blocks1, allocs1, |allocs|);
      }
    }
  }

  /** No block has room for a request at or over the limit. */
  lemma {:induction false} LiveBelowLimit(blocks: seq<Block>, allocs: seq<Allocation>, i: nat)
    requires ChainOk(blocks) && AllocationsOk(allocs, blocks) && i < |allocs|
    ensures allocs[i].size < ADDRESS_LIMIT
  {
    assert Inside(allocs[i], blocks);
    assert BlockOk(blocks[allocs[i].block]);
  }

  /**
    An input on which sizes wrap around: asked for 2^64 - 11 bytes, an empty arena maps one
    page and hands out what follows its header, leaving the end of the used part at 13, within
    the header; and the next allocation starts inside the header.
   */
  lemma {:induction false} WrappedAllocation(mmap: Mapping)
    requires Honest(mmap) && mmap([], PAGE_SIZE).Some?
    ensures var base := mmap([], PAGE_SIZE).value;
            var blocks := [Block(base, PAGE_SIZE, 13)];
            && Allocated([], TWO64 - 11, 8, mmap) == (Some(base + HEADER_SIZE), blocks)
            && Allocated(blocks, 8, 8, mmap) == (Some(base + 16), [Block(base, PAGE_SIZE, 24)])
  {
    hide Allocated, Honest;
    FirstWraps(mmap);
    NextInHeader(mmap([], PAGE_SIZE).value, mmap);
  }

  lemma {:induction false} FirstWraps(mmap: Mapping)
    requires Honest(mmap) && mmap([], PAGE_SIZE).Some?
    ensures var base := mmap([], PAGE_SIZE).value;
            && base > 0 && base % PAGE_SIZE == 0 && base + PAGE_SIZE <= ADDRESS_LIMIT
            && Allocated([], TWO64 - 11, 8, mmap) == (Some(base + HEADER_SIZE), [Block(base, PAGE_SIZE, 13)])
  {
    hide Honest, IsPowerOfTwo;
    MappedOk([], PAGE_SIZE, mmap);
    EightIsPower();
    var base := mmap([], PAGE_SIZE).value;
    var size := TWO64 - 11;
    assert Size(size + HEADER_SIZE) == 13 && AlignToPage(13) == PAGE_SIZE;
    var bs := [Block(base, PAGE_SIZE, HEADER_SIZE)];
    assert [] + bs == bs;
    assert CreatedBlock([], Max(size, DEFAULT_SIZE), mmap) == Some(bs);
    assert Padding(bs[0], 8) == 0;
    assert Size(HEADER_SIZE + 0 + size) == 13;
    assert RoomMade(bs, size, 8, mmap) == Some((bs, 0));
    assert bs[0 := Block(base, PAGE_SIZE, 13)] == [Block(base, PAGE_SIZE, 13)];
    assert Taken(bs, 0, size) == (base + HEADER_SIZE, [Block(base, PAGE_SIZE, 13)]);
  }

  lemma {:induction false} NextInHeader(base: nat, mmap: Mapping)
    requires base > 0 && base % PAGE_SIZE == 0 && base + PAGE_SIZE <= ADDRESS_LIMIT
    ensures Allocated([Block(base, PAGE_SIZE, 13)], 8, 8, mmap) == (Some(base + 16), [Block(base, PAGE_SIZE, 24)])
  {
    hide IsPowerOfTwo;
    EightIsPower();
    var bs := [Block(base, PAGE_SIZE, 13)];
    assert Padding(bs[0], 8) == 3;
    assert RoomMade(bs, 8, 8, mmap) == Some((bs, 3));
    assert bs[0 := Block(base, PAGE_SIZE, 24)] == [Block(base, PAGE_SIZE, 24)];
    assert Taken(bs, 3, 8) == (base + 16, [Block(base, PAGE_SIZE, 24)]);
  }

  lemma {:induction false} EightIsPower()
    ensures IsPowerOfTwo(8)
  {
    assert Pow2(3) == 8;
  }

  /** The used part of the newest block grows by an allocation. */
  lemma {:induction false} PlaceAllocation(blocks: seq<Block>, ptr: nat, size: nat, allocs: seq<Allocation>,
                                           marks: seq<Mark>)
    requires ChainOk(blocks) && AllocationsOk(allocs, blocks) && MarksOk(marks, allocs, blocks) && blocks != []
    requires size > 0
    requires FitsAt(blocks[|blocks| - 1], ptr, size)
    ensures var last := |blocks| - 1;
            var blocks1 := blocks[last := blocks[last].(offset := ptr - blocks[last].base + size)];
            var allocs1 := allocs + [Allocation(last, ptr, size)];
            ChainOk(blocks1) && AllocationsOk(allocs1, blocks1) && MarksOk(marks, allocs1, blocks1)
  {
    var last := |blocks| - 1;
    var blocks1 := blocks[last := blocks[last].(offset := ptr - blocks[last].base + size)];
    var a := Allocation(last, ptr, size);
    var allocs1 := allocs + [a];
    assert BlockOk(blocks[last]);
    forall i, j | 0 <= i < j < |blocks1| ensures Apart(blocks1[i].base, blocks1[i].size, blocks1[j]) {
      assert Apart(blocks[i].base, blocks[i].size, blocks[j]);
    }
    forall i | 0 <= i < |allocs1| ensures Inside(allocs1[i], blocks1) {
      if i < |allocs| {
        assert Inside(allocs[i], blocks);
      }
    }
    forall i, j | 0 <= i < j < |allocs1| ensures Before(allocs1[i], allocs1[j]) {
      if j == |allocs| {
        assert Inside(allocs[i], blocks);
      } else {
        assert Before(allocs[i], allocs[j]);
      }
    }
    forall i | 0 <= i < |marks| ensures Reachable(marks[i].pos, marks[i].count, allocs1, blocks1) {
      StillReachable(marks[i].pos, marks[i].count, allocs, blocks, allocs1, blocks1);
    }
  }

  lemma {:induction false} StillReachable(p: Position, count: nat, allocs: seq<Allocation>, blocks: seq<Block>,
                                          allocs1: seq<Allocation>, blocks1: seq<Block>)
    requires Reachable(p, count, allocs, blocks) && allocs <= allocs1 && |blocks| <= |blocks1|
    requires forall i :: 0 <= i < |blocks| ==>
             blocks1[i].base == blocks[i].base && blocks[i].offset <= blocks1[i].offset
    ensures Reachable(p, count, allocs1, blocks1)
  {
    forall i | 0 <= i < count ensures Below(allocs1[i], p, blocks1) {
      assert Below(allocs[i], p, blocks);
    }
  }

  lemma {:induction false} BeginMark(blocks: seq<Block>, p: Position, allocs: seq<Allocation>, marks: seq<Mark>)
    requires ChainOk(blocks) && AllocationsOk(allocs, blocks) && MarksOk(marks, allocs, blocks) && AtPosition(blocks, p)
    ensures MarksOk(marks + [Mark(p, |allocs|)], allocs, blocks)
  {
    hide ChainOk, AllocationsOk, Reachable, AtPosition, Earlier;
    HereReachable(blocks, p, allocs);
    var marks1 := marks + [Mark(p, |allocs|)];
    forall i, j | 0 <= i < j < |marks1| ensures Earlier(marks1[i], marks1[j]) {
      if j == |marks| {
        HereIsLater(blocks, p, allocs, marks[i]);
      } else {
        assert Earlier(marks[i], marks[j]);
      }
    }
  }

  lemma {:induction false} HereReachable(blocks: seq<Block>, p: Position, allocs: seq<Allocation>)
    requires ChainOk(blocks) && AllocationsOk(allocs, blocks) && AtPosition(blocks, p)
    ensures Reachable(p, |allocs|, allocs, blocks)
  {
    forall i | 0 <= i < |allocs| ensures Below(allocs[i], p, blocks) {
      assert Inside(allocs[i], blocks);
    }
    if blocks != [] {
      assert BlockOk(blocks[|blocks| - 1]);
    }
    if allocs != [] {
      assert Inside(allocs[0], blocks);
    }
  }

  lemma {:induction false} HereIsLater(blocks: seq<Block>, p: Position, allocs: seq<Allocation>, m: Mark)
    requires Reachable(m.pos, m.count, allocs, blocks) && AtPosition(blocks, p)
    ensures Earlier(m, Mark(p, |allocs|))
  {
  }

  /** The innermost mark is within the arena. */
  lemma {:induction false} LastMark(blocks: seq<Block>, p: Position, count: nat, allocs: seq<Allocation>,
                                    marks: seq<Mark>)
    requires ChainOk(blocks) && AllocationsOk(allocs, blocks) && MarksOk(marks + [Mark(p, count)], allocs, blocks)
    ensures p.depth <= |blocks| && count <= |allocs| && (p.depth == 0 ==> p.offset == 0 && count == 0)
    ensures MarksOk(marks, allocs, blocks)
    ensures blocks == [] ==> allocs == []
  {
    var marks1 := marks + [Mark(p, count)];
    assert Reachable(marks1[|marks|].pos, marks1[|marks|].count, allocs, blocks);
    forall i | 0 <= i < |marks| ensures Reachable(marks[i].pos, marks[i].count, allocs, blocks) {
      assert Reachable(marks1[i].pos, marks1[i].count, allocs, blocks);
    }
    forall i, j | 0 <= i < j < |marks| ensures Earlier(marks[i], marks[j]) {
      assert Earlier(marks1[i], marks1[j]);
    }
    if allocs != [] {
      assert Inside(allocs[0], blocks);
    }
  }

  /** Rolling back drops the blocks and allocations after the position, and keeps those before. */
  lemma {:induction false} RollBack(blocks: seq<Block>, p: Position, count: nat, allocs: seq<Allocation>,
                                    marks: seq<Mark>)
    requires ChainOk(blocks) && AllocationsOk(allocs, blocks) && MarksOk(marks + [Mark(p, count)], allocs, blocks)
    requires p.depth > 0
    ensures p.depth <= |blocks| && count <= |allocs|
    ensures var blocks1 := blocks[..p.depth][p.depth - 1 := blocks[p.depth - 1].(offset := p.offset)];
            ChainOk(blocks1) && AllocationsOk(allocs[..count], blocks1) && MarksOk(marks, allocs[..count], blocks1)
  {
    var marks1 := marks + [Mark(p, count)];
    assert Reachable(marks1[|marks|].pos, marks1[|marks|].count, allocs, blocks);
    var blocks1 := blocks[..p.depth][p.depth - 1 := blocks[p.depth - 1].(offset := p.offset)];
    forall i | 0 <= i < |blocks1| ensures BlockOk(blocks1[i]) {
      assert BlockOk(blocks[i]);
    }
    forall i, j | 0 <= i < j < |blocks1| ensures Apart(blocks1[i].base, blocks1[i].size, blocks1[j]) {
      assert Apart(blocks[i].base, blocks[i].size, blocks[j]);
    }
    forall i | 0 <= i < count ensures Inside(allocs[..count][i], blocks1) {
      assert Inside(allocs[i], blocks) && Below(allocs[i], p, blocks);
    }
    forall i, j | 0 <= i < j < count ensures Before(allocs[..count][i], allocs[..count][j]) {
      assert Before(allocs[i], allocs[j]);
    }
    forall i | 0 <= i < |marks| ensures Reachable(marks[i].pos, marks[i].count, allocs[..count], blocks1) {
      assert Earlier(marks1[i], marks1[|marks|]);
      assert Reachable(marks1[i].pos, marks1[i].count, allocs, blocks);
      forall k | 0 <= k < marks[i].count ensures Below(allocs[..count][k], marks[i].pos, blocks1) {
        assert Below(allocs[k], marks1[i].pos, blocks);
      }
    }
    forall i, j | 0 <= i < j < |marks| ensures Earlier(marks[i], marks[j]) {
      assert Earlier(marks1[i], marks1[j]);
    }
  }

  /** One block more, or the newest one larger. */
  ghost predicate Grown(blocks: seq<Block>, blocks1: seq<Block>, total: nat) {
    || (|blocks1| == |blocks| + 1 && blocks1[..|blocks|] == blocks
        && blocks1[|blocks|].size == total && blocks1[|blocks|].offset == HEADER_SIZE)
    || (|blocks1| == |blocks| > 0 && blocks1[..|blocks| - 1] == blocks[..|blocks| - 1]
        && blocks1[|blocks| - 1] == blocks[|blocks| - 1].(size := blocks[|blocks| - 1].size + total))
  }

  lemma {:induction false} GrowInPlace(blocks: seq<Block>, total: nat, allocs: seq<Allocation>, marks: seq<Mark>)
    requires blocks != [] && ChainOk(blocks) && AllocationsOk(allocs, blocks) && MarksOk(marks, allocs, blocks)
    requires var b := blocks[|blocks| - 1]; FreshAt(b.base + b.size, total, blocks)
    ensures var last := |blocks| - 1;
            var blocks1 := blocks[last := blocks[last].(size := blocks[last].size + total)];
            ChainOk(blocks1) && AllocationsOk(allocs, blocks1) && MarksOk(marks, allocs, blocks1)
  {
    hide ChainOk, Reachable, FreshAt, BlockOk;
    GrownChain(blocks, total);
    var last := |blocks| - 1;
    var blocks1 := blocks[last := blocks[last].(size := blocks[last].size + total)];
    forall i | 0 <= i < |allocs| ensures Inside(allocs[i], blocks1) {
      assert Inside(allocs[i], blocks);
    }
    forall i | 0 <= i < |marks| ensures Reachable(marks[i].pos, marks[i].count, allocs, blocks1) {
      StillReachable(marks[i].pos, marks[i].count, allocs, blocks, allocs, blocks1);
    }
  }

  lemma {:induction false} GrownChain(blocks: seq<Block>, total: nat)
    requires blocks != [] && ChainOk(blocks)
    requires var b := blocks[|blocks| - 1]; FreshAt(b.base + b.size, total, blocks)
    ensures var last := |blocks| - 1; ChainOk(blocks[last := blocks[last].(size := blocks[last].size + total)])
  {
    var last := |blocks| - 1;
    var blocks1 := blocks[last := blocks[last].(size := blocks[last].size + total)];
    forall i, j | 0 <= i < j < |blocks1| ensures Apart(blocks1[i].base, blocks1[i].size, blocks1[j]) {
      assert Apart(blocks[i].base, blocks[i].size, blocks[j]);
      assert Apart(blocks[last].base + blocks[last].size, total, blocks[i]);
    }
    forall i | 0 <= i < |blocks1| ensures BlockOk(blocks1[i]) {
      assert BlockOk(blocks[i]);
    }
  }

  lemma {:induction false} AddBlock(blocks: seq<Block>, b: Block, allocs: seq<Allocation>, marks: seq<Mark>)
    requires ChainOk(blocks) && AllocationsOk(allocs, blocks) && MarksOk(marks, allocs, blocks)
    requires BlockOk(b) && FreshAt(b.base, b.size, blocks)
    ensures ChainOk(blocks + [b]) && AllocationsOk(allocs, blocks + [b]) && MarksOk(marks, allocs, blocks + [b])
  {
    var blocks1 := blocks + [b];
    forall i, j | 0 <= i < j < |blocks1| ensures Apart(blocks1[i].base, blocks1[i].size, blocks1[j]) {
      if j == |blocks| {
        assert Apart(b.base, b.size, blocks[i]);
      }
    }
    forall i | 0 <= i < |allocs| ensures Inside(allocs[i], blocks1) {
      assert Inside(allocs[i], blocks);
    }
    forall i | 0 <= i < |marks| ensures Reachable(marks[i].pos, marks[i].count, allocs, blocks1) {
      StillReachable(marks[i].pos, marks[i].count, allocs, blocks, allocs, blocks1);
    }
  }

  // --- A rollback that is lost -----------------------------------------------------------------------

  const DefaultPages: nat := 0x400_1000

  /** The first block, full but for what is left of its last page. */
  function FullBlock(base: nat): Block {
    Block(base, DefaultPages, HEADER_SIZE + DEFAULT_SIZE)
  }

  lemma {:induction false} FirstDefault(mmap: Mapping)
    requires Honest(mmap) && mmap([], DefaultPages).Some?
    ensures var base := mmap([], DefaultPages).value;
            Allocated([], DEFAULT_SIZE, 8, mmap) == (Some(base + HEADER_SIZE), [FullBlock(base)])
    ensures BlockOk(FullBlock(mmap([], DefaultPages).value))
  {
    hide Honest, IsPowerOfTwo;
    MappedOk([], DefaultPages, mmap);
    EightIsPower();
    var base := mmap([], DefaultPages).value;
    var bs := [Block(base, DefaultPages, HEADER_SIZE)];
    assert [] + bs == bs;
    assert CreatedBlock([], Max(DEFAULT_SIZE, DEFAULT_SIZE), mmap) == Some(bs);
    assert Padding(bs[0], 8) == 0;
    assert RoomMade(bs, DEFAULT_SIZE, 8, mmap) == Some((bs, 0));
    assert bs[0 := FullBlock(base)] == [FullBlock(base)];
    assert Taken(bs, 0, DEFAULT_SIZE) == (base + HEADER_SIZE, [FullBlock(base)]);
  }

  /** The second allocation does not fit, and the pages that the system gives are not next to the first. */
  lemma {:induction false} SecondDefault(base: nat, mmap: Mapping)
    requires Honest(mmap) && BlockOk(FullBlock(base)) && mmap([FullBlock(base)], DefaultPages).Some?
    requires mmap([FullBlock(base)], DefaultPages).value != base + DefaultPages
    ensures var next := mmap([FullBlock(base)], DefaultPages).value;
            Allocated([FullBlock(base)], DEFAULT_SIZE, 8, mmap) ==
              (Some(next + HEADER_SIZE), [FullBlock(base), FullBlock(next)])
  {
    hide Honest, IsPowerOfTwo, FullBlock, CreatedBlock, Padding, Taken;
    var bs := [FullBlock(base)];
    EightIsPower();
    SecondBlock(base, mmap);
    var next := mmap(bs, DefaultPages).value;
    var blocks1 := [FullBlock(base), Block(next, DefaultPages, HEADER_SIZE)];
    assert RoomMade(bs, DEFAULT_SIZE, 8, mmap) == Some((blocks1, 0));
    assert Allocated(bs, DEFAULT_SIZE, 8, mmap) ==
           (Some(Taken(blocks1, 0, DEFAULT_SIZE).0), Taken(blocks1, 0, DEFAULT_SIZE).1);
  }

  lemma {:induction false} AlignedAlready(b: Block)
    requires BlockOk(b) && b.offset % 8 == 0
    ensures Padding(b, 8) == 0
  {
    hide Size, AlignForward;
    PageIsAligned(b.base, b.offset);
    assert AlignForward(b.base + b.offset, 8) <= b.base + b.offset;
  }

  lemma {:induction false} PageIsAligned(base: nat, offset: nat)
    requires base % PAGE_SIZE == 0 && offset % 8 == 0
    ensures (base + offset) % 8 == 0
  {
    var k := base / PAGE_SIZE;
    assert base == 8 * (512 * k);
  }

  lemma {:induction false} SecondBlock(base: nat, mmap: Mapping)
    requires Honest(mmap) && BlockOk(FullBlock(base)) && mmap([FullBlock(base)], DefaultPages).Some?
    requires mmap([FullBlock(base)], DefaultPages).value != base + DefaultPages
    ensures var next := mmap([FullBlock(base)], DefaultPages).value;
            var fresh1 := Block(next, DefaultPages, HEADER_SIZE);
            && Padding(FullBlock(base), 8) == 0 && Padding(fresh1, 8) == 0
            && Size(FullBlock(base).offset + DEFAULT_SIZE) > FullBlock(base).size
            && CreatedBlock([FullBlock(base)], Max(Size(DEFAULT_SIZE + 8), DEFAULT_SIZE), mmap) ==
                 Some([FullBlock(base), fresh1])
            && Taken([FullBlock(base), fresh1], 0, DEFAULT_SIZE) ==
                 (next + HEADER_SIZE, [FullBlock(base), FullBlock(next)])
  {
    hide Honest, Padding;
    var bs := [FullBlock(base)];
    MappedOk(bs, DefaultPages, mmap);
    var next := mmap(bs, DefaultPages).value;
    var fresh1 := Block(next, DefaultPages, HEADER_SIZE);
    AlignedAlready(bs[0]);
    AlignedAlready(fresh1);
    assert bs + [fresh1] == [FullBlock(base), fresh1];
    assert [FullBlock(base), fresh1][1 := FullBlock(next)] == [FullBlock(base), FullBlock(next)];
  }

  /**
    A run whose rollback is lost: a temporary scope on an empty arena, two allocations of the
    default size in two blocks, and the end of the scope. Both blocks are still in the chain
    with all they held, although only the first is mapped.
   */
  method LostRollback(mmap: Mapping) returns (a: Arena, pos: Position)
    requires Honest(mmap) && mmap([], DefaultPages).Some?
    requires var full := [FullBlock(mmap([], DefaultPages).value)];
             mmap(full, DefaultPages).Some? && mmap(full, DefaultPages).value != full[0].base + DefaultPages
    ensures fresh(a) && pos == Position(0, 0)
    ensures var base := mmap([], DefaultPages).value;
            a.blocks == [FullBlock(base), FullBlock(mmap([FullBlock(base)], DefaultPages).value)]
    ensures a.mapped == 1 && |a.allocs| == 2 && !AtPosition(a.blocks, pos) && !a.Valid()
  {
    hide Honest, Allocated, ChainOk, AllocationsOk, MarksOk, Denied, BlockOk;
    FirstDefault(mmap);
    SecondDefault(mmap([], DefaultPages).value, mmap);
    a := new Arena();
    pos := a.TempBegin();
    var first := a.AllocAligned(DEFAULT_SIZE, 8, mmap);
    var second := a.AllocAligned(DEFAULT_SIZE, 8, mmap);
    a.TempEnd(pos);
  }
}
