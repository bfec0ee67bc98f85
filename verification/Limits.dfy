/** Where the promises end: inputs for which what the documentation suggests does not hold. */
module Limits {
  import opened Memslots
  import opened Surgery
  import opened Updates
  import opened Ramblocks
  import opened Leaves
  import opened Windows
  import opened Coherence
  import opened Broadcasts
  import opened Runs
  import opened GuestMemory
  import opened GpaSpaces

  const PLAIN := Flags(false, false, false, 0)

  /** Mapping four pages of block 2 over a slot of block 1 leaves all four on block 1: the swallowed
      primary node keeps its block. */
  lemma SwallowedKeepsBlock(after: seq<Slot>)
    requires var s0, d := [Slot(1, 1, 1, 0, PLAIN)], Slot(0, 4, 2, 0, PLAIN); Updated(s0, after, d, true)
    ensures forall g: nat :: g < 4 ==> KindAt(after, g).Some? && KindAt(after, g).value.block == 1
  {
    var s0, d := [Slot(1, 1, 1, 0, PLAIN)], Slot(0, 4, 2, 0, PLAIN);
    EffectiveAt(s0, d, 0);
    forall g: nat | g < 4 ensures KindAt(after, g).Some? && KindAt(after, g).value.block == 1 {
      assert d.Covers(g);
    }
  }

  /** Pages of the slot that share a chunk share a chunk-sized frame of guest memory. */
  ghost predicate Framed(s: Slot) {
    forall g: nat, h: nat :: s.Covers(g) && s.Covers(h) && ChunkAt(s, g) == ChunkAt(s, h) ==> g / CHUNK_PAGES == h / CHUNK_PAGES
  }

  /** The test on addresses is exact. */
  lemma SnugIffFramed(s: Slot)
    requires s.npages > 0 && s.offset % PAGE_SIZE == 0
    ensures Snug(s) <==> Framed(s)
  {
    if Snug(s) {
      forall g: nat, h: nat | s.Covers(g) && s.Covers(h) && ChunkAt(s, g) == ChunkAt(s, h)
        ensures g / CHUNK_PAGES == h / CHUNK_PAGES
      {
        SameFrame(s, ChunkAt(s, g), g, h);
      }
    } else {
      var g, h := AcrossFrames(s);
    }
  }

  /** A slot that is not snug has two pages in one chunk on either side of the first frame boundary. */
  lemma AcrossFrames(s: Slot) returns (g: nat, h: nat)
    requires s.npages > 0 && s.offset % PAGE_SIZE == 0 && !Snug(s)
    ensures s.Covers(g) && s.Covers(h) && ChunkAt(s, g) == ChunkAt(s, h) && g / CHUNK_PAGES != h / CHUNK_PAGES
    ensures h == NextFrame(s)
  {
    var frame := s.base / CHUNK_PAGES;
    h := NextFrame(s);
    g := h - 1;
    Boundary(s.base, s.base + s.npages - 1, frame, h);
    var delta := s.Kind().delta;
    PageOffset(s.offset, s.base, delta);
    assert s.offset + (h - s.base) * PAGE_SIZE == delta + h * PAGE_SIZE;
    assert s.offset + (g - s.base) * PAGE_SIZE == delta + (h - 1) * PAGE_SIZE;
    OffBoundary(delta, h);
  }

  /** Where the frame of a range changes. */
  lemma Boundary(lo: nat, hi: nat, frame: nat, h: nat)
    requires frame == lo / CHUNK_PAGES && lo <= hi && frame != hi / CHUNK_PAGES && h == (frame + 1) * CHUNK_PAGES
    ensures lo < h <= hi && h % CHUNK_PAGES == 0 && h / CHUNK_PAGES == frame + 1 && (h - 1) / CHUNK_PAGES == frame
  {
  }

  lemma PageOffset(offset: nat, base: nat, delta: int)
    requires offset % PAGE_SIZE == 0 && delta == offset - base * PAGE_SIZE
    ensures delta % PAGE_SIZE == 0
  {
  }

  lemma OffBoundary(delta: int, h: nat)
    requires h % CHUNK_PAGES == 0 && delta % CHUNK_SIZE != 0 && delta % PAGE_SIZE == 0
    ensures (delta + h * PAGE_SIZE) / CHUNK_SIZE == (delta + (h - 1) * PAGE_SIZE) / CHUNK_SIZE
  {
    var q, d, r, t := h / CHUNK_PAGES, delta / CHUNK_SIZE, delta % CHUNK_SIZE, delta / PAGE_SIZE;
    assert r == (t - CHUNK_PAGES * d) * PAGE_SIZE;
    ChunkIs(delta + h * PAGE_SIZE, q + d, r);
    ChunkIs(delta + (h - 1) * PAGE_SIZE, q + d, r - PAGE_SIZE);
  }

  lemma ChunkIs(offset: int, index: int, rest: int)
    requires offset == index * CHUNK_SIZE + rest && 0 <= rest < CHUNK_SIZE
    ensures offset / CHUNK_SIZE == index
  {
  }

  /** One page protected, a violation at another: where they share a chunk but not a frame, the first is mapped. */
  lemma FillLeaks(m: Memory, i: nat, index: nat, start: nat, pfns: seq<nat>, fault: nat, page: nat, m': Memory)
    requires i < |m.slots| && FillsWindow(m.slots, m.ram.blocks, i, index, start, pfns)
    requires m.slots[i].Covers(fault) && m.slots[i].Covers(page)
    requires ChunkAt(m.slots[i], fault) == ChunkAt(m.slots[i], page) == index && fault / CHUNK_PAGES != page / CHUNK_PAGES
    requires m.guarded == {page} && m' == m.(leaves := Filled(m.leaves, start, pfns, !m.slots[i].flags.readonly, |pfns|))
    ensures FillStep(m, m', i, index, fault, start, pfns, |pfns|) && !Sealed(m')
  {
    assert start <= page < start + |pfns|;
    FilledAt(m.leaves, start, pfns, !m.slots[i].flags.readonly, |pfns|, page);
    assert page in m'.leaves;
  }

  /** A chunk of whole pages of a mapped block is pinned or can be. */
  lemma PinIfNeeded(m: Memory, i: nat, index: nat) returns (m': Memory, ms: seq<Memory>, steps: seq<Step>)
    requires Inv(m) && i < |m.slots| && m.slots[i].block in m.ram.blocks
    requires Pinnable(m.ram.blocks[m.slots[i].block], index)
    ensures Takes(m, m', ms, steps) && Inv(m') && m' == m.(ram := m'.ram)
    ensures m.slots[i].block in m'.ram.blocks && index in m'.ram.blocks[m.slots[i].block].chunks
  {
    if index in m.ram.blocks[m.slots[i].block].chunks {
      m', ms, steps := m, [m], [];
    } else {
      SlotHeld(m, i, m.slots[i].base);
      m', ms, steps := PinOnce(m, m.slots[i].block, index);
    }
  }

  lemma PinOnce(m: Memory, b: BlockId, index: nat) returns (m': Memory, ms: seq<Memory>, steps: seq<Step>)
    requires Inv(m) && b in m.ram.blocks && b in m.ram.counts && m.ram.counts[b] > 0 && index !in m.ram.blocks[b].chunks
    requires Pinnable(m.ram.blocks[b], index)
    ensures Takes(m, m', ms, steps) && Inv(m') && m' == m.(ram := m'.ram)
    ensures b in m'.ram.blocks && index in m'.ram.blocks[b].chunks
  {
    m' := PinNew(m, b, index, m.ram.blocks[b]);
    PinOrNotKeeps(m, m', b, index);
    ms, steps := PinTakes(m, m', b, index);
  }

  lemma PinNew(m: Memory, b: BlockId, index: nat, block: Block) returns (m': Memory)
    requires b in m.ram.blocks && block == m.ram.blocks[b] && b in m.ram.counts && m.ram.counts[b] > 0
    requires index !in block.chunks && Pinnable(block, index)
    ensures b in m'.ram.blocks && index in m'.ram.blocks[b].chunks
    ensures PinOrNot(m, m', b, index) && m' == m.(ram := m'.ram)
  {
    var size := ChunkSize(block.size, index);
    var chunk := Chunk(block.baseUva + index * CHUNK_SIZE, size, seq(size / PAGE_SIZE, _ => 0));
    m' := m.(ram := m.ram.(blocks := m.ram.blocks[b := block.(chunks := block.chunks[index := chunk])]));
  }

  /** Every page can be unprotected. */
  lemma Unguard(m: Memory, m1: Memory)
    requires Inv(m) && m.endGfn > 0 && m1 == m.(guarded := {})
    ensures Next(m, m1, Protect(0, m.endGfn, false)) && Inv(m1)
  {
    assert ProtectStep(m, m1, 0, m.endGfn, false);
    ProtectKeeps(m, m1, 0, m.endGfn, false);
  }

  /** Any page below the end of the bitmap can be protected. */
  lemma Guard(m: Memory, page: nat, m1: Memory)
    requires Inv(m) && m.guarded == {} && page < m.endGfn
    requires m1 == m.(guarded := {page}, leaves := ClearRange(m.leaves, page, 1))
    ensures Next(m, m1, Protect(page, 1, true)) && Inv(m1)
  {
    assert ProtectStep(m, m1, page, 1, true);
    ProtectKeeps(m, m1, page, 1, true);
  }

  /** The converse of RunSeals: whatever state a run has led to, where a slot is not tight, protecting pages, pinning a
      chunk and one violation end with a protected page in the EPT. */
  lemma UntightLeaks(m: Memory, i: nat) returns (m': Memory, ms: seq<Memory>, steps: seq<Step>)
    requires Inv(m) && i < |m.slots| && !Tight(m.slots[i], m.ram.blocks)
    ensures Takes(m, m', ms, steps) && !Sealed(m')
  {
    var s := m.slots[i];
    SaneSlot(m.slots, m.ram.blocks, i);
    var fault, page := AcrossFrames(s);
    var index := ChunkAt(s, fault);
    KindAtIndex(m.slots, i, page);
    m', ms, steps := LeakAt(m, i, index, fault, page);
  }

  lemma LeakAt(m: Memory, i: nat, index: nat, fault: nat, page: nat)
    returns (m': Memory, ms: seq<Memory>, steps: seq<Step>)
    requires Inv(m) && i < |m.slots| && m.slots[i].Covers(fault) && m.slots[i].Covers(page) && page < m.endGfn
    requires ChunkAt(m.slots[i], fault) == ChunkAt(m.slots[i], page) == index && fault / CHUNK_PAGES != page / CHUNK_PAGES
    requires m.slots[i].block in m.ram.blocks && Pinnable(m.ram.blocks[m.slots[i].block], index)
    ensures Takes(m, m', ms, steps) && !Sealed(m')
  {
    var m1, clear := m.(guarded := {}), Protect(0, m.endGfn, false);
    Unguard(m, m1);
    var m2, ms2, steps2 := PinIfNeeded(m1, i, index);
    var m3, guard := m2.(guarded := {page}, leaves := ClearRange(m2.leaves, page, 1)), Protect(page, 1, true);
    Guard(m2, page, m3);
    var fill;
    m', fill := LeakFrom(m3, i, index, fault, page);
    ms, steps := Chain(m, m1, clear, m2, ms2, steps2, m3, guard, m', fill);
  }

  lemma Chain(m: Memory, m1: Memory, step1: Step, m2: Memory, ms2: seq<Memory>, steps2: seq<Step>,
              m3: Memory, step3: Step, m4: Memory, step4: Step)
    returns (ms: seq<Memory>, steps: seq<Step>)
    requires Next(m, m1, step1) && Takes(m1, m2, ms2, steps2) && Next(m2, m3, step3) && Next(m3, m4, step4)
    ensures Takes(m, m4, ms, steps)
  {
    assert Takes(m, m1, [m, m1], [step1]);
    TakesAfter(m, m1, [m, m1], [step1], m2, ms2, steps2);
    ms, steps := [m, m1] + ms2[1..], [step1] + steps2;
    TakesOneMore(m, m2, ms, steps, m3, step3);
    TakesOneMore(m, m3, ms + [m3], steps + [step3], m4, step4);
    ms, steps := ms + [m3] + [m4], steps + [step3] + [step4];
  }

  lemma LeakFrom(m: Memory, i: nat, index: nat, fault: nat, page: nat) returns (m': Memory, fill: Step)
    requires Inv(m) && i < |m.slots| && m.slots[i].Covers(fault) && m.slots[i].Covers(page) && m.guarded == {page}
    requires ChunkAt(m.slots[i], fault) == ChunkAt(m.slots[i], page) == index && fault / CHUNK_PAGES != page / CHUNK_PAGES
    requires m.slots[i].block in m.ram.blocks && index in m.ram.blocks[m.slots[i].block].chunks
    ensures Next(m, m', fill) && !Sealed(m')
  {
    PlanWindow(m, i, index, fault);
    var block := m.ram.blocks[m.slots[i].block];
    var w := WindowOf(m.slots[i], block, block.chunks[index]);
    var start, pfns := w.gpa / PAGE_SIZE, WindowPfns(w, block.chunks[index]);
    WindowFills(m.slots, m.ram.blocks, i, index, start, pfns);
    m' := m.(leaves := Filled(m.leaves, start, pfns, !m.slots[i].flags.readonly, |pfns|));
    FillLeaks(m, i, index, start, pfns, fault, page, m');
    fill := Fill(i, index, fault, start, pfns, |pfns|);
  }

  const SKEWED := Slot(0, 1024, 1, 0x10_0000, PLAIN)
  const RAM: map<BlockId, Block> := map[1 := Block(0x1000_0000, 0x80_0000, map[], false)]

  /** The first mapping ever made, with guest and block addresses 1 MB apart modulo the chunk size. */
  lemma SkewedMapping(m: Memory, m': Memory)
    requires m == Memory([], Ram(map[1 := 0], RAM, [1]), map[], {}, 1024)
    requires m' == Memory([SKEWED], Ram(map[1 := 1], RAM, [1]), map[], {}, 1024)
    ensures MapStep(m, m', SKEWED, true, 0x1010_0000, RAM, [Added(0, 1024)])
  {
    FinishBeyond([], SKEWED, true);
    assert [] + [SKEWED] == [SKEWED];
    ToldNothing([], SKEWED, true, 0, RAM, 0x1010_0000);
    SkewedSound(m'.ram);
    assert Performed([], RAM, map[], SKEWED, true, 0x1010_0000, [SKEWED], m'.ram, map[], [Added(0, 1024)]);
  }

  lemma SkewedSound(r: Ram)
    requires r == Ram(map[1 := 1], RAM, [1])
    ensures Sound(r, [SKEWED], [], multiset{})
  {
    assert forall b :: Refs([SKEWED], b) == if b == 1 then 1 else 0;
  }

  lemma FirstRam(m: Memory, m': Memory)
    requires m == Memory([], Ram(map[], map[], []), map[], {}, 0) && m' == m.(ram := Ram(map[1 := 0], RAM, [1]))
    ensures AddRamStep(m, m')
  {
    assert Grown(m.ram.blocks, m'.ram.blocks);
  }

  lemma SkewedRun() returns (ms: seq<Memory>, steps: seq<Step>)
    ensures Run(ms, steps) && |ms| == 4 && ms[3] == Memory([SKEWED], Ram(map[1 := 1], RAM, [1]), map[], {}, 1024)
  {
    var m0 := Memory([], Ram(map[], map[], []), map[], {}, 0);
    var m1 := m0.(ram := Ram(map[1 := 0], RAM, [1]));
    var m2 := m1.(endGfn := 1024);
    var m3 := Memory([SKEWED], Ram(map[1 := 1], RAM, [1]), map[], {}, 1024);
    var map3 := Map(SKEWED, true, 0x1010_0000, RAM, [Added(0, 1024)]);
    FirstRam(m0, m1);
    SkewedMapping(m2, m3);
    FourStates(m0, m1, m2, m3, AddRam, Grow(1024), map3);
    ms, steps := [m0, m1, m2, m3], [AddRam, Grow(1024), map3];
  }

  lemma FourStates(m0: Memory, m1: Memory, m2: Memory, m3: Memory, step1: Step, step2: Step, step3: Step)
    requires Init(m0) && Next(m0, m1, step1) && Next(m1, m2, step2) && Next(m2, m3, step3)
    ensures Run([m0, m1, m2, m3], [step1, step2, step3])
  {
  }

  /** So there is a run, from the beginning, that ends with a protected page in the EPT. */
  lemma SkewedLeaks() returns (ms: seq<Memory>, steps: seq<Step>)
    ensures Run(ms, steps) && !Sealed(ms[|ms| - 1])
  {
    var ms1, steps1 := SkewedRun();
    var m := ms1[3];
    RunKeeps(ms1, steps1, 3);
    assert !Tight(m.slots[0], m.ram.blocks);
    var m', ms2, steps2 := UntightLeaks(m, 0);
    TakesAfter(ms1[0], m, ms1, steps1, m', ms2, steps2);
    ms, steps := ms1 + ms2[1..], steps1 + steps2;
  }

  /** What a request strictly inside a slot of another type leaves when its third allocation fails. */
  lemma OverlapInside(s: Slot, d: Slot)
    requires s == Slot(0, 4, 1, 0, PLAIN) && d == Slot(1, 1, 2, 0, PLAIN)
    ensures Fragile([s], d, true) && CutAfter([s], d) == 2 && HalfDone([s], d, true) == [s, d] && !Ordered([s, d])
  {
    PrimaryIsFirst([s], d, 0);
    FragileIff([s], d, true);
  }

  /** Every fragile request can leave overlapping slots: it does when its first allocation after an edit fails. */
  method FragileFails(space: GpaSpace, d: Slot, id: BlockId) returns (ret: Errno)
    requires Ordered(space.slots) && Sound(space.RamNow(), space.slots, [], multiset{}) && id !in space.blocks && id != NO_BLOCK
    requires d.npages > 0 && !d.flags.invalid && !d.flags.standalone
    requires d.block in space.blocks && d.offset < space.blocks[d.block].size
    requires Fragile(space.slots, d, true)
    modifies space
    ensures ret == ENOMEM && space.slots == HalfDone(old(space.slots), d, true) && !Ordered(space.slots)
  {
    ghost var s0, blocks0, order := space.slots, space.blocks, space.order;
    var events;
    ghost var d', blocks1;
    var uva := space.blocks[d.block].baseUva + d.offset;
    space.memory := CutAfter(space.slots, d);
    FragileIff(s0, d, true);
    assert Contains(blocks0, uva);
    ret, events, d', blocks1 := space.SetMapping(d.base, d.npages, uva, d.flags, id);
    if ret != EINVAL {
      SameRequest(order, blocks0, d, uva, d');
    }
  }

  /** The address of a request tells its block, since blocks do not overlap. */
  lemma SameRequest(order: seq<BlockId>, blocks: map<BlockId, Block>, d: Slot, uva: nat, d': Slot)
    requires Listed(order, blocks) && !d.flags.invalid && d.block in blocks && d.offset < blocks[d.block].size
    requires uva == blocks[d.block].baseUva + d.offset && Requested(d', d.base, d.npages, uva, d.flags, blocks)
    ensures d' == d
  {
    var i :| 0 <= i < |order| && order[i] == d.block;
    var j :| 0 <= j < |order| && order[j] == d'.block;
  }

  /** A request that runs out of memory tells nobody: two slots are unmapped, the second copy for the snapshot cannot be
      had, and the leaf of the first slot stays on a page that is not pinned any more. */
  method StrandedLeaf(space: GpaSpace, a: Slot, b: Slot, id: BlockId) returns (ret: Errno)
    requires space.slots == [a, b] && Ordered(space.slots) && Sound(space.RamNow(), space.slots, [], multiset{})
    requires a.block != b.block && id !in space.blocks && id != NO_BLOCK
    requires Coherent(space.slots, space.blocks, space.leaves) && a.base in space.leaves
    modifies space
    ensures ret == ENOMEM && a.base in space.leaves && KindAt(space.slots, a.base) == None
    ensures PfnAt(space.blocks, a.block, a.offset) == None
  {
    var events;
    ghost var d, blocks1;
    ghost var s0 := space.slots;
    assert s0[0] == a && s0[1] == b;
    space.memory := 1;
    ret, events, d, blocks1 := space.SetMapping(a.base, b.End() - a.base, 0, Flags(false, false, true, 0), id);
    StrandedList(a, b, d);
    StrandedBlock(space.RamNow(), a, b);
  }

  lemma StrandedList(a: Slot, b: Slot, d: Slot)
    requires Ordered([a, b]) && d.base == a.base && d.End() == b.End()
    ensures Cut([a, b], d, false) && CutAfter([a, b], d) == 1 && HalfDone([a, b], d, false) == [b]
    ensures KindAt([b], a.base) == None
  {
    var s0 := [a, b];
    assert s0[0] == a && s0[1] == b && a.End() <= b.base && a.npages > 0 && b.npages > 0;
    PrimaryIsFirst(s0, d, 0);
    assert s0[..0] + StartMid(d, a, false) + s0[1..] == [b];
    KindAt1(b, a.base);
  }

  lemma StrandedBlock(r: Ram, a: Slot, b: Slot)
    requires Sound(r, [b], [], multiset{}) && a.block != b.block
    ensures PfnAt(r.blocks, a.block, a.offset) == None
  {
    assert Refs([b], a.block) == 0;
  }

  /** A request whose first slot is swallowed and whose second has its own type: however it succeeds, the range is on the
      first slot's block, and a leaf of the second stays on what was a page of the other. */
  lemma UntoldLeaf(m: Memory, a: Slot, b: Slot, d: Slot, uva: nat, slots: seq<Slot>, ram: Ram, leaves: map<nat, Leaf>,
                   events: seq<Event>)
    requires Inv(m) && m.slots == [a, b] && b.base in m.leaves && Overtakes(a, b, d)
    requires Performed(m.slots, m.ram.blocks, m.leaves, d, true, uva, slots, ram, leaves, events) && Sound(ram, slots, [], multiset{})
    ensures b.base in leaves && LeafAt(m.slots, ram.blocks, b.base) == None
    ensures KindAt(slots, b.base).Some? && KindAt(slots, b.base).value.block == a.block
  {
    UntoldRequest(a, b, d);
    NamedIff(m.slots, slots, d, ram.counts);
    TwoSlots(a, b, b.base);
    StaysUntold(m.slots, d, events, b.base, m.leaves, leaves, m.ram.blocks, uva);
    NoLongerPinned(m.slots, d, ram, b.base);
  }

  lemma StaysUntold(s0: seq<Slot>, d: Slot, events: seq<Event>, g: nat, leaves0: map<nat, Leaf>, leaves: map<nat, Leaf>,
                    blocks: map<BlockId, Block>, uva: nat)
    requires ToldUpTo(events, s0, d, true, d.End(), blocks, uva) && Purged(leaves0, leaves, events)
    requires g in leaves0 && KindAt(s0, g) == Some(d.Kind())
    ensures g in leaves
  {
    assert !Stale(s0, d, true, g);
  }

  lemma NoLongerPinned(s0: seq<Slot>, d: Slot, ram: Ram, g: nat)
    requires ram.counts.Keys == ram.blocks.Keys && Settled(ram.counts, ram.blocks) && KindAt(s0, g) == Some(d.Kind())
    requires d.block in ram.counts ==> ram.counts[d.block] == 0
    ensures LeafAt(s0, ram.blocks, g) == None
  {
  }

  /** Two blocks of one and two pages, the second with its pages pinned. */
  ghost predicate TwoBlocks(blocks: map<BlockId, Block>) {
    && blocks.Keys == {1, 2} && !blocks[1].standalone && !blocks[2].standalone
    && blocks[1].size == PAGE_SIZE && blocks[2].size == 2 * PAGE_SIZE && blocks[1].End() <= blocks[2].baseUva
    && blocks[1].chunks == map[] && blocks[2].chunks.Keys == {0} && ChunkOf(blocks[2], 0, blocks[2].chunks[0])
  }

  predicate Is(s: Slot, base: nat, npages: nat, block: BlockId, offset: nat) {
    s.base == base && s.npages == npages && s.block == block && s.offset == offset && !s.flags.readonly
  }

  /** A request for which that happens. */
  ghost predicate Overtakes(a: Slot, b: Slot, d: Slot) {
    && d.base == a.base && a.End() == b.base && d.End() == b.End()
    && d.Kind() == b.Kind() && a.block != b.block
  }

  /** Such a state and such a request: two slots of one page, each on a block of its own, a leaf in the second, and both
      pages asked for on the second block, where they fit. */
  lemma UntoldState(blocks: map<BlockId, Block>, a: Slot, b: Slot, d: Slot, m: Memory)
    requires TwoBlocks(blocks) && Is(a, 0, 1, 1, 0) && Is(b, 1, 1, 2, PAGE_SIZE) && Is(d, 0, 2, 2, 0)
    requires m == Memory([a, b], Ram(map[1 := 1, 2 := 1], blocks, [1, 2]), map[1 := Leaf(blocks[2].chunks[0].pfns[1], true)], {}, 2)
    ensures Inv(m) && b.base in m.leaves && SlotFits(d, blocks[d.block])
    ensures Overtakes(a, b, d)
  {
    UntoldSound(blocks, m.ram, a, b);
    UntoldShape(a, b, d, blocks[2]);
    UntoldMap(a, b, m.slots);
    UntoldSane(m.slots, blocks);
    UntoldCoherent(m.slots, blocks, m.leaves);
    UntoldPlaced(blocks);
  }

  lemma UntoldShape(a: Slot, b: Slot, d: Slot, block: Block)
    requires Is(a, 0, 1, 1, 0) && Is(b, 1, 1, 2, PAGE_SIZE) && Is(d, 0, 2, 2, 0)
    requires block.size == 2 * PAGE_SIZE
    ensures a.Kind() == KindOf(1, 0, false) && b.Kind() == KindOf(2, 0, false)
    ensures Overtakes(a, b, d) && SlotFits(d, block)
  {
  }

  lemma UntoldMap(a: Slot, b: Slot, slots: seq<Slot>)
    requires slots == [a, b] && a.base == 0 && a.npages == 1 && b.base == 1 && b.npages == 1
    requires a.Kind() == KindOf(1, 0, false) && b.Kind() == KindOf(2, 0, false)
    ensures Ordered(slots) && Canonical(slots) && forall g: nat :: KindAt(slots, g) == OnTwo(g)
  {
    forall g: nat ensures KindAt(slots, g) == OnTwo(g) {
      TwoSlots(a, b, g);
    }
    assert slots[0] == a && slots[1] == b;
  }

  function OnTwo(g: nat): Option<Kind> {
    if g == 0 then Some(KindOf(1, 0, false)) else if g == 1 then Some(KindOf(2, 0, false)) else None
  }

  lemma UntoldSane(slots: seq<Slot>, blocks: map<BlockId, Block>)
    requires forall g: nat :: KindAt(slots, g) == OnTwo(g)
    requires 1 in blocks && 2 in blocks && blocks[1].size >= PAGE_SIZE && blocks[2].size >= 2 * PAGE_SIZE
    ensures Sane(slots, blocks)
  {
    forall g: nat | KindAt(slots, g).Some? ensures SaneAt(blocks, KindAt(slots, g).value, g) {
      assert KindAt(slots, g) == OnTwo(g);
      assert g == 0 || g == 1;
    }
  }

  lemma UntoldCoherent(slots: seq<Slot>, blocks: map<BlockId, Block>, leaves: map<nat, Leaf>)
    requires forall g: nat :: KindAt(slots, g) == OnTwo(g)
    requires 2 in blocks && 0 in blocks[2].chunks && |blocks[2].chunks[0].pfns| == 2
    requires leaves == map[1 := Leaf(blocks[2].chunks[0].pfns[1], true)]
    ensures Coherent(slots, blocks, leaves)
  {
    assert KindAt(slots, 1) == OnTwo(1);
    var offset := TargetOf(KindOf(2, 0, false), 1).offset;
    assert offset == PAGE_SIZE && offset / CHUNK_SIZE == 0 && offset % CHUNK_SIZE / PAGE_SIZE == 1;
    assert LeafAt(slots, blocks, 1) == Some(leaves[1]);
  }

  lemma UntoldPlaced(blocks: map<BlockId, Block>)
    requires blocks.Keys == {1, 2} && blocks[1].chunks == map[]
    requires blocks[2].chunks.Keys == {0} && ChunkOf(blocks[2], 0, blocks[2].chunks[0])
    ensures Placed(blocks)
  {
  }

  lemma UntoldSound(blocks: map<BlockId, Block>, ram: Ram, a: Slot, b: Slot)
    requires blocks.Keys == {1, 2} && !blocks[1].standalone && !blocks[2].standalone && blocks[1].End() <= blocks[2].baseUva
    requires blocks[1].size > 0 && blocks[2].size > 0
    requires ram == Ram(map[1 := 1, 2 := 1], blocks, [1, 2]) && a.block == 1 && b.block == 2
    ensures Sound(ram, [a, b], [], multiset{})
  {
    forall c ensures Refs([a, b], c) == (if c == 1 then 1 else 0) + (if c == 2 then 1 else 0) {
      var two, one := [a, b], [b];
      assert two[1..] == one && one[1..] == [];
      assert Refs(one, c) == (if c == 2 then 1 else 0) + Refs([], c);
    }
    assert ram.order[0] == 1 && ram.order[1] == 2;
  }

  lemma UntoldRequest(a: Slot, b: Slot, d: Slot)
    requires Ordered([a, b]) && Overtakes(a, b, d)
    ensures EffectiveKind([a, b], d).block == a.block && !StillNamed([a, b], d) && !Faithful([a, b], d)
    ensures d.npages > 0 && d.Covers(b.base)
  {
    var s0 := [a, b];
    assert s0[0] == a && s0[1] == b && a.npages > 0 && b.npages > 0;
    PrimaryIsFirst(s0, d, 0);
    SameTypeIsSameKind(d, a);
    EffectiveIsRequested(s0, d);
    forall g: nat | !d.Covers(g) ensures KindAt(s0, g) == None {
      TwoSlots(a, b, g);
    }
  }

  lemma TwoSlots(a: Slot, b: Slot, g: nat)
    ensures KindAt([a, b], g) == if a.Covers(g) then Some(a.Kind()) else if b.Covers(g) then Some(b.Kind()) else None
  {
    assert [a, b] == [a] + [b];
    KindAtConcat([a], [b], g);
    KindAt1(a, g);
    KindAt1(b, g);
  }
}
