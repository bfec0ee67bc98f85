/**
 Every run of the operations that change a VM's memory: adding RAM, mapping and unmapping, protecting,
 pinning, and handling EPT violations and misconfigurations.
 */
module Runs {
  import opened Memslots
  import opened Surgery
  import opened Updates
  import opened Ramblocks
  import opened Leaves
  import opened Broadcasts
  import opened Coherence
  import opened Windows

  // ---- What must hold of every page that is mapped ------------------------------------------------

  /** The page lies inside its block and on a page boundary of it. */
  ghost predicate SaneAt(blocks: map<BlockId, Block>, k: Kind, g: nat) {
    && k.block in blocks && k.delta % PAGE_SIZE == 0
    && 0 <= k.delta + g * PAGE_SIZE && k.delta + (g + 1) * PAGE_SIZE <= blocks[k.block].size
  }

  ghost predicate Sane(slots: seq<Slot>, blocks: map<BlockId, Block>) {
    forall g: nat :: KindAt(slots, g).Some? ==> SaneAt(blocks, KindAt(slots, g).value, g)
  }

  /** Guest and block addresses agree modulo the size of a chunk. */
  ghost predicate Congruent(slots: seq<Slot>) {
    forall g: nat :: KindAt(slots, g).Some? ==> KindAt(slots, g).value.delta % CHUNK_SIZE == 0
  }

  lemma SaneSlot(slots: seq<Slot>, blocks: map<BlockId, Block>, i: nat)
    requires Ordered(slots) && Sane(slots, blocks) && i < |slots|
    ensures slots[i].block in blocks && SlotFits(slots[i], blocks[slots[i].block])
  {
    var s := slots[i];
    KindAtIndex(slots, i, s.base);
    KindAtIndex(slots, i, s.End() - 1);
    assert SaneAt(blocks, KindAt(slots, s.base).value, s.base);
    assert SaneAt(blocks, KindAt(slots, s.End() - 1).value, s.End() - 1);
  }

  // ---- Pinning a chunk ----------------------------------------------------------------------------

  /** Chunks may be pinned, in blocks that are referred to, and nothing else happens to blocks. */
  ghost predicate Pinned(r: Ram, b: BlockId, index: nat, chunk: Chunk, r': Ram) {
    && b in r.blocks && b in r.counts && r.counts[b] > 0 && index !in r.blocks[b].chunks
    && ChunkOf(r.blocks[b], index, chunk)
    && r' == r.(blocks := r.blocks[b := r.blocks[b].(chunks := r.blocks[b].chunks[index := chunk])])
  }

  lemma PinKeepsLeaves(slots: seq<Slot>, leaves: map<nat, Leaf>, r: Ram, b: BlockId, index: nat, chunk: Chunk, r': Ram)
    requires Coherent(slots, r.blocks, leaves) && Pinned(r, b, index, chunk, r')
    ensures Coherent(slots, r'.blocks, leaves)
  {
    forall g | g in leaves ensures LeafAt(slots, r'.blocks, g) == Some(leaves[g]) {
      assert LeafAt(slots, r.blocks, g) == Some(leaves[g]);
    }
  }

  lemma PinSound(r: Ram, b: BlockId, index: nat, chunk: Chunk, r': Ram, slots: seq<Slot>)
    requires Sound(r, slots, [], multiset{}) && Pinned(r, b, index, chunk, r')
    ensures Sound(r', slots, [], multiset{})
  {
    SettledBut(r.counts, r.blocks, b, r'.counts, r'.blocks);
    ListedInPlace(r.order, r.blocks, b, r'.blocks[b], r'.blocks);
  }

  lemma PinPlaced(r: Ram, b: BlockId, index: nat, chunk: Chunk, r': Ram, slots: seq<Slot>)
    requires Placed(r.blocks) && Pinned(r, b, index, chunk, r')
    ensures Placed(r'.blocks)
    ensures Sane(slots, r.blocks) ==> Sane(slots, r'.blocks)
  {
  }

  // ---- Filling a window -------------------------------------------------------------------------

  /** The frames of a window, page by page. */
  function WindowPfns(w: Window, chunk: Chunk): seq<nat>
    requires w.size >= 0 && w.offset / PAGE_SIZE + w.size / PAGE_SIZE <= |chunk.pfns|
  {
    chunk.pfns[w.offset / PAGE_SIZE..w.offset / PAGE_SIZE + w.size / PAGE_SIZE]
  }

  /** Each entry of the window is the one-page translation of its gfn. */
  lemma WindowLeaf(slots: seq<Slot>, blocks: map<BlockId, Block>, i: nat, index: nat, g: nat)
    requires Ordered(slots) && i < |slots| && slots[i].block in blocks
    requires var block := blocks[slots[i].block];
             SlotFits(slots[i], block) && index in block.chunks && ChunkOf(block, index, block.chunks[index])
    requires slots[i].Covers(g) && (slots[i].offset + (g - slots[i].base) * PAGE_SIZE) / CHUNK_SIZE == index
    ensures var block := blocks[slots[i].block];
            var w := WindowOf(slots[i], block, block.chunks[index]);
            var page := w.offset / PAGE_SIZE + (g - w.gpa / PAGE_SIZE);
            && 0 <= page < |block.chunks[index].pfns|
            && LeafAt(slots, blocks, g) == Some(Leaf(block.chunks[index].pfns[page], !slots[i].flags.readonly))
  {
    var block := blocks[slots[i].block];
    KindAtIndex(slots, i, g);
    WindowPages(slots[i], block, index, block.chunks[index]);
    WindowPage(slots[i], block, index, block.chunks[index], g);
  }

  /** What the entries of a window are: exactly the pages of the slot that lie in the chunk, each
      with its own translation. */
  ghost predicate FillsWindow(slots: seq<Slot>, blocks: map<BlockId, Block>, i: nat, index: nat, start: nat, pfns: seq<nat>)
    requires i < |slots|
  {
    && (forall g: nat :: start <= g < start + |pfns| <==>
          slots[i].Covers(g) && (slots[i].offset + (g - slots[i].base) * PAGE_SIZE) / CHUNK_SIZE == index)
    && (forall g: nat :: start <= g < start + |pfns| ==>
          LeafAt(slots, blocks, g) == Some(Leaf(pfns[g - start], !slots[i].flags.readonly)))
  }

  lemma WindowSize(slot: Slot, block: Block, index: nat, chunk: Chunk, g: nat)
    requires SlotFits(slot, block) && ChunkOf(block, index, chunk)
    requires slot.Covers(g) && (slot.offset + (g - slot.base) * PAGE_SIZE) / CHUNK_SIZE == index
    ensures var w := WindowOf(slot, block, chunk);
            w.size > 0 && w.offset + w.size <= chunk.size && w.offset / PAGE_SIZE + w.size / PAGE_SIZE <= |chunk.pfns|
  {
    WindowExact(slot, block, index, chunk, g);
    WindowPages(slot, block, index, chunk);
  }

  /** The window of a slot and a pinned chunk, as entries to create. */
  ghost predicate WindowIs(slots: seq<Slot>, blocks: map<BlockId, Block>, i: nat, index: nat, start: nat, pfns: seq<nat>) {
    && i < |slots| && slots[i].block in blocks && index in blocks[slots[i].block].chunks
    && (var block := blocks[slots[i].block];
        var chunk := block.chunks[index];
        && SlotFits(slots[i], block) && ChunkOf(block, index, chunk)
        && (var w := WindowOf(slots[i], block, chunk);
            && w.size >= 0 && w.offset / PAGE_SIZE + w.size / PAGE_SIZE <= |chunk.pfns|
            && start == w.gpa / PAGE_SIZE && pfns == WindowPfns(w, chunk)))
  }

  lemma WindowFills(slots: seq<Slot>, blocks: map<BlockId, Block>, i: nat, index: nat, start: nat, pfns: seq<nat>)
    requires Ordered(slots) && WindowIs(slots, blocks, i, index, start, pfns)
    ensures FillsWindow(slots, blocks, i, index, start, pfns)
  {
    forall g: nat
      ensures start <= g < start + |pfns| <==>
              slots[i].Covers(g) && (slots[i].offset + (g - slots[i].base) * PAGE_SIZE) / CHUNK_SIZE == index
      ensures start <= g < start + |pfns| ==>
              LeafAt(slots, blocks, g) == Some(Leaf(pfns[g - start], !slots[i].flags.readonly))
    {
      WindowFillsAt(slots, blocks, i, index, start, pfns, g);
    }
  }

  lemma WindowFillsAt(slots: seq<Slot>, blocks: map<BlockId, Block>, i: nat, index: nat, start: nat, pfns: seq<nat>, g: nat)
    requires Ordered(slots) && WindowIs(slots, blocks, i, index, start, pfns)
    ensures start <= g < start + |pfns| <==>
            slots[i].Covers(g) && (slots[i].offset + (g - slots[i].base) * PAGE_SIZE) / CHUNK_SIZE == index
    ensures start <= g < start + |pfns| ==>
            LeafAt(slots, blocks, g) == Some(Leaf(pfns[g - start], !slots[i].flags.readonly))
  {
    var block := blocks[slots[i].block];
    WindowPages(slots[i], block, index, block.chunks[index]);
    WindowExact(slots[i], block, index, block.chunks[index], g);
    if start <= g < start + |pfns| {
      WindowLeaf(slots, blocks, i, index, g);
    }
  }

  lemma FillKeeps(slots: seq<Slot>, blocks: map<BlockId, Block>, leaves: map<nat, Leaf>, i: nat, index: nat, start: nat, pfns: seq<nat>,
                  n: nat, leaves': map<nat, Leaf>)
    requires Coherent(slots, blocks, leaves) && i < |slots| && FillsWindow(slots, blocks, i, index, start, pfns)
    requires n <= |pfns| && leaves' == Filled(leaves, start, pfns, !slots[i].flags.readonly, n)
    ensures Coherent(slots, blocks, leaves')
    ensures forall j :: 0 <= j < |pfns| ==> !Clash(leaves, start + j, Leaf(pfns[j], !slots[i].flags.readonly))
  {
    forall g | g in leaves' ensures LeafAt(slots, blocks, g) == Some(leaves'[g]) {
      FilledAt(leaves, start, pfns, !slots[i].flags.readonly, n, g);
    }
    forall j | 0 <= j < |pfns| ensures !Clash(leaves, start + j, Leaf(pfns[j], !slots[i].flags.readonly)) {
      assert LeafAt(slots, blocks, start + j) == Some(Leaf(pfns[start + j - start], !slots[i].flags.readonly));
    }
  }

  // ---- Runs -----------------------------------------------------------------------------------

  /** A VM's memory: the slots, the RAM blocks, the present EPT leaves, and which gfns are protected
      among those the bitmap covers. */
  datatype Memory = Memory(slots: seq<Slot>, ram: Ram, leaves: map<nat, Leaf>, guarded: set<nat>, endGfn: nat)

  ghost predicate Init(m: Memory) {
    m == Memory([], Ram(map[], map[], []), map[], {}, 0)
  }

  /** The bitmap covers every mapped gfn. */
  ghost predicate Bounded(m: Memory) {
    && (forall g: nat :: KindAt(m.slots, g).Some? ==> g < m.endGfn)
    && (forall g :: g in m.guarded ==> g < m.endGfn)
  }

  ghost predicate Inv(m: Memory) {
    && Ordered(m.slots) && Canonical(m.slots)
    && Sound(m.ram, m.slots, [], multiset{})
    && Coherent(m.slots, m.ram.blocks, m.leaves)
    && Placed(m.ram.blocks) && Sane(m.slots, m.ram.blocks)
    && Bounded(m)
  }

  /** No protected page can be reached through the EPT. */
  ghost predicate Sealed(m: Memory) {
    forall g :: g in m.leaves ==> g !in m.guarded
  }

  /** A request as callers are told to make them: it takes effect as asked, and its host range is whole
      pages of one block. */
  ghost predicate Proper(slots: seq<Slot>, blocks: map<BlockId, Block>, d: Slot) {
    && Faithful(slots, d) && d.block in blocks && SlotFits(d, blocks[d.block])
  }

  ghost predicate AddRamStep(m: Memory, m': Memory) {
    && Grown(m.ram.blocks, m'.ram.blocks) && Sound(m'.ram, m.slots, [], multiset{})
    && m' == m.(ram := m'.ram)
  }

  /** gpa_space_adjust_prot_bitmap: bits that were covered stay; what new bytes hold is not known. */
  ghost predicate GrowStep(m: Memory, m': Memory, end: nat) {
    && m'.endGfn == Max(m.endGfn, end)
    && (forall g: nat :: g < m.endGfn ==> (g in m'.guarded <==> g in m.guarded))
    && (forall g :: g in m'.guarded ==> g < m'.endGfn)
    && m' == m.(endGfn := m'.endGfn, guarded := m'.guarded)
  }

  ghost predicate MapStep(m: Memory, m': Memory, d: Slot, valid: bool, uva: nat, blocks1: map<BlockId, Block>, events: seq<Event>) {
    && d.npages > 0 && d.End() <= m.endGfn
    && Grown(m.ram.blocks, blocks1) && (valid ==> Proper(m.slots, blocks1, d))
    && Performed(m.slots, blocks1, m.leaves, d, valid, uva, m'.slots, m'.ram, m'.leaves, events)
    && Sound(m'.ram, m'.slots, [], multiset{})
    && m'.guarded == m.guarded && m'.endGfn == m.endGfn
  }

  ghost predicate PinStep(m: Memory, m': Memory, b: BlockId, index: nat, chunk: Chunk) {
    Pinned(m.ram, b, index, chunk, m'.ram) && m' == m.(ram := m'.ram)
  }

  /** Entries of the window of a slot and a chunk are created, all of them or, when a table cannot be
      had, some; nothing in the chunk-sized frame around the faulting gfn is protected. */
  ghost predicate FillStep(m: Memory, m': Memory, i: nat, index: nat, fault: nat, start: nat, pfns: seq<nat>, n: nat) {
    && i < |m.slots| && FillsWindow(m.slots, m.ram.blocks, i, index, start, pfns)
    && start <= fault < start + |pfns| && n <= |pfns|
    && (forall g: nat :: g / CHUNK_PAGES == fault / CHUNK_PAGES ==> g !in m.guarded)
    && m' == m.(leaves := Filled(m.leaves, start, pfns, !m.slots[i].flags.readonly, n))
  }

  /** gpa_space_protect_range */
  ghost predicate ProtectStep(m: Memory, m': Memory, first: nat, npages: nat, on: bool) {
    && npages > 0 && first + npages <= m.endGfn
    && (forall g: nat :: g in m'.guarded <==> if first <= g < first + npages then on else g in m.guarded)
    && m' == m.(guarded := m'.guarded, leaves := if on then ClearRange(m.leaves, first, npages) else m.leaves)
  }

  /** Frames beyond this one have more than 36 address bits. */
  const FRAME_LIMIT: nat := 0x100_0000

  /** fix_epte counts an error, and leaves the entry, where fixing it would change its frame: a leaf outside all slots,
      which would have to go, or one beyond 36 address bits. */
  predicate Unfixable(mapped: bool, pfn: nat) {
    if mapped then pfn >= FRAME_LIMIT else pfn != 0
  }

  /** ept_handle_misconfiguration on the leaf of a gfn: its permissions are set to what the slot says. */
  function FixedLeaves(m: Memory, g: nat): map<nat, Leaf> {
    if g !in m.leaves || Unfixable(KindAt(m.slots, g).Some?, m.leaves[g].pfn) then m.leaves
    else match KindAt(m.slots, g)
      case None => m.leaves - {g}
      case Some(k) => m.leaves[g := Leaf(m.leaves[g].pfn, !k.readonly)]
  }

  datatype Step =
    | AddRam
    | Grow(end: nat)
    | Map(d: Slot, valid: bool, uva: nat, blocks1: map<BlockId, Block>, events: seq<Event>)
    | Pin(b: BlockId, index: nat, chunk: Chunk)
    | Fill(i: nat, index: nat, fault: nat, start: nat, pfns: seq<nat>, n: nat)
    | Protect(first: nat, npages: nat, on: bool)
    | Fix(g: nat)

  ghost predicate Next(m: Memory, m': Memory, step: Step) {
    match step
    case AddRam => AddRamStep(m, m')
    case Grow(end) => GrowStep(m, m', end)
    case Map(d, valid, uva, blocks1, events) => MapStep(m, m', d, valid, uva, blocks1, events)
    case Pin(b, index, chunk) => PinStep(m, m', b, index, chunk)
    case Fill(i, index, fault, start, pfns, n) => FillStep(m, m', i, index, fault, start, pfns, n)
    case Protect(first, npages, on) => ProtectStep(m, m', first, npages, on)
    case Fix(g) => m' == m.(leaves := FixedLeaves(m, g))
  }

  // ---- Each step keeps the invariant --------------------------------------------------------------

  lemma GrownPlaced(blocks: map<BlockId, Block>, blocks': map<BlockId, Block>)
    requires Placed(blocks) && Grown(blocks, blocks')
    ensures Placed(blocks')
  {
    forall b, i | b in blocks' && i in blocks'[b].chunks ensures ChunkOf(blocks'[b], i, blocks'[b].chunks[i]) {
      assert b in blocks;
    }
  }

  lemma GrownSane(slots: seq<Slot>, blocks: map<BlockId, Block>, blocks': map<BlockId, Block>)
    requires Sane(slots, blocks) && Grown(blocks, blocks')
    ensures Sane(slots, blocks')
  {
    forall g: nat | KindAt(slots, g).Some? ensures SaneAt(blocks', KindAt(slots, g).value, g) {
      assert SaneAt(blocks, KindAt(slots, g).value, g);
    }
  }

  lemma AddRamKeeps(m: Memory, m': Memory)
    requires Inv(m) && AddRamStep(m, m')
    ensures Inv(m')
  {
    GrowKeepsLeaves(m.slots, m.leaves, m.ram.blocks, m'.ram.blocks);
    GrownPlaced(m.ram.blocks, m'.ram.blocks);
    GrownSane(m.slots, m.ram.blocks, m'.ram.blocks);
  }

  lemma ShrunkPlaced(blocks: map<BlockId, Block>, blocks': map<BlockId, Block>)
    requires Placed(blocks) && Shrunk(blocks, blocks')
    ensures Placed(blocks')
  {
    forall b, i | b in blocks' && i in blocks'[b].chunks ensures ChunkOf(blocks'[b], i, blocks'[b].chunks[i]) {
      assert blocks'[b] == blocks[b];
    }
  }

  lemma ProperSane(slots: seq<Slot>, blocks: map<BlockId, Block>, d: Slot, g: nat)
    requires Proper(slots, blocks, d) && d.Covers(g)
    ensures SaneAt(blocks, d.Kind(), g)
  {
  }

  lemma MapSane(m: Memory, m': Memory, d: Slot, valid: bool, uva: nat, blocks1: map<BlockId, Block>, events: seq<Event>)
    requires Inv(m) && MapStep(m, m', d, valid, uva, blocks1, events)
    ensures Sane(m'.slots, m'.ram.blocks)
  {
    if valid {
      EffectiveIsRequested(m.slots, d);
    }
    GrownSane(m.slots, m.ram.blocks, blocks1);
    forall g: nat | KindAt(m'.slots, g).Some? ensures SaneAt(m'.ram.blocks, KindAt(m'.slots, g).value, g) {
      var k := KindAt(m'.slots, g).value;
      assert SaneAt(blocks1, k, g) by {
        if d.Covers(g) {
          ProperSane(m.slots, blocks1, d, g);
        } else {
          assert KindAt(m.slots, g) == Some(k);
        }
      }
      ListHolds(m'.ram, m'.slots, g);
      assert m'.ram.blocks[k.block] == blocks1[k.block];
    }
  }

  /** A mapped gfn's block is there and referred to. */
  lemma ListHolds(r: Ram, slots: seq<Slot>, g: nat)
    requires Sound(r, slots, [], multiset{}) && KindAt(slots, g).Some?
    ensures var b := KindAt(slots, g).value.block; b in r.blocks && b in r.counts && r.counts[b] > 0
  {
    var j := KindAtSome(slots, g);
    RefsMember(slots, j);
    assert Refs(slots, slots[j].block) + Refs([], slots[j].block) + multiset{}[slots[j].block] > 0;
  }

  lemma MapBounded(m: Memory, m': Memory, d: Slot, valid: bool, uva: nat, blocks1: map<BlockId, Block>, events: seq<Event>)
    requires Bounded(m) && MapStep(m, m', d, valid, uva, blocks1, events)
    ensures Bounded(m')
  {
    forall g: nat | KindAt(m'.slots, g).Some? ensures g < m'.endGfn {
      if !d.Covers(g) {
        assert KindAt(m.slots, g).Some?;
      }
    }
  }

  lemma MapKeeps(m: Memory, m': Memory, d: Slot, valid: bool, uva: nat, blocks1: map<BlockId, Block>, events: seq<Event>)
    requires Inv(m) && MapStep(m, m', d, valid, uva, blocks1, events)
    ensures Inv(m')
  {
    GrowKeepsLeaves(m.slots, m.leaves, m.ram.blocks, blocks1);
    GrownPlaced(m.ram.blocks, blocks1);
    ShrunkPlaced(blocks1, m'.ram.blocks);
    MapSane(m, m', d, valid, uva, blocks1, events);
    MapBounded(m, m', d, valid, uva, blocks1, events);
    RequestCoherent(m.slots, blocks1, m.leaves, d, valid, uva, m'.slots, m'.ram, m'.leaves, events);
  }

  lemma PinKeeps(m: Memory, m': Memory, b: BlockId, index: nat, chunk: Chunk)
    requires Inv(m) && PinStep(m, m', b, index, chunk)
    ensures Inv(m')
  {
    PinKeepsLeaves(m.slots, m.leaves, m.ram, b, index, chunk, m'.ram);
    PinSound(m.ram, b, index, chunk, m'.ram, m.slots);
    PinPlaced(m.ram, b, index, chunk, m'.ram, m.slots);
  }

  lemma ProtectKeeps(m: Memory, m': Memory, first: nat, npages: nat, on: bool)
    requires Inv(m) && ProtectStep(m, m', first, npages, on)
    ensures Inv(m')
  {
    forall g | g in m'.leaves ensures LeafAt(m.slots, m.ram.blocks, g) == Some(m'.leaves[g]) {
      assert g in m.leaves && m'.leaves[g] == m.leaves[g];
    }
  }

  /** The misconfiguration handler finds nothing to fix in a coherent leaf. */
  lemma FixChangesNothing(m: Memory, g: nat)
    requires Coherent(m.slots, m.ram.blocks, m.leaves)
    ensures FixedLeaves(m, g) == m.leaves
  {
    if g in m.leaves {
      assert LeafAt(m.slots, m.ram.blocks, g) == Some(m.leaves[g]);
    }
  }

  lemma NextKeeps(m: Memory, m': Memory, step: Step)
    requires Inv(m) && Next(m, m', step)
    ensures Inv(m')
  {
    match step
    case AddRam => AddRamKeeps(m, m');
    case Grow(end) =>
    case Map(d, valid, uva, blocks1, events) => MapKeeps(m, m', d, valid, uva, blocks1, events);
    case Pin(b, index, chunk) => PinKeeps(m, m', b, index, chunk);
    case Fill(i, index, fault, start, pfns, n) =>
      FillKeeps(m.slots, m.ram.blocks, m.leaves, i, index, start, pfns, n, m'.leaves);
    case Protect(first, npages, on) => ProtectKeeps(m, m', first, npages, on);
    case Fix(g) => FixChangesNothing(m, g);
  }

  // ---- Protected pages ----------------------------------------------------------------------------

  /** Pages of the slot that share a chunk share a chunk-sized frame of guest memory: its guest and block addresses
      agree modulo the chunk size, or it lies in one such frame. */
  predicate Snug(s: Slot) {
    s.Kind().delta % CHUNK_SIZE == 0 || s.base / CHUNK_PAGES == (s.base + s.npages - 1) / CHUNK_PAGES
  }

  ghost predicate AllSnug(slots: seq<Slot>) {
    forall i :: 0 <= i < |slots| ==> Snug(slots[i])
  }

  /** The index of the chunk behind a page of the slot. */
  function ChunkAt(s: Slot, g: nat): int {
    (s.offset + (g - s.base) * PAGE_SIZE) / CHUNK_SIZE
  }

  /** The first page of the chunk-sized frame after the one the slot starts in. */
  function NextFrame(s: Slot): nat {
    (s.base / CHUNK_PAGES + 1) * CHUNK_PAGES
  }

  /** A slot that cannot lead to a protected page: it is snug, or the first chunk it has on both sides of a frame boundary
      can never be pinned. What a caller can tell from the addresses of slot and block. */
  predicate Tight(s: Slot, blocks: map<BlockId, Block>) {
    Snug(s) || (ChunkAt(s, NextFrame(s)) >= 0 && s.block in blocks ==> !Pinnable(blocks[s.block], ChunkAt(s, NextFrame(s))))
  }

  ghost predicate AllTight(slots: seq<Slot>, blocks: map<BlockId, Block>) {
    forall i :: 0 <= i < |slots| ==> Tight(slots[i], blocks)
  }

  lemma FillSeals(m: Memory, m': Memory, i: nat, index: nat, fault: nat, start: nat, pfns: seq<nat>, n: nat)
    requires Placed(m.ram.blocks) && Ordered(m.slots) && AllTight(m.slots, m.ram.blocks) && Sealed(m)
    requires FillStep(m, m', i, index, fault, start, pfns, n)
    ensures Sealed(m')
  {
    FilledIsPinnable(m, i, index, fault, start, pfns);
    forall g | g in m'.leaves ensures g !in m'.guarded {
      FilledAt(m.leaves, start, pfns, !m.slots[i].flags.readonly, n, g);
      if g !in m.leaves {
        TightFrame(m.slots[i], m.ram.blocks, index, g, fault);
      }
    }
  }

  lemma FilledIsPinnable(m: Memory, i: nat, index: nat, fault: nat, start: nat, pfns: seq<nat>)
    requires Placed(m.ram.blocks) && Ordered(m.slots) && i < |m.slots|
    requires FillsWindow(m.slots, m.ram.blocks, i, index, start, pfns) && start <= fault < start + |pfns|
    ensures m.slots[i].block in m.ram.blocks && Pinnable(m.ram.blocks[m.slots[i].block], index)
  {
    KindAtIndex(m.slots, i, fault);
    assert LeafAt(m.slots, m.ram.blocks, fault).Some?;
    assert index in m.ram.blocks[m.slots[i].block].chunks;
  }

  /** Pages of a tight slot in a chunk that can be pinned share a frame. */
  lemma TightFrame(s: Slot, blocks: map<BlockId, Block>, index: nat, g: nat, h: nat)
    requires Tight(s, blocks) && s.Covers(g) && s.Covers(h) && ChunkAt(s, g) == ChunkAt(s, h) == index
    requires s.block in blocks && Pinnable(blocks[s.block], index)
    ensures g / CHUNK_PAGES == h / CHUNK_PAGES
  {
    if Snug(s) {
      SameFrame(s, index, g, h);
    } else if g / CHUNK_PAGES != h / CHUNK_PAGES {
      var lo, hi := Min(g, h), Max(g, h);
      FrameBetween(s.base, lo, hi);
      var first := ChunkAt(s, NextFrame(s));
      ChunkAtMonotone(s, s.base, NextFrame(s));
      ChunkAtMonotone(s, NextFrame(s), hi);
      EarlierPinnable(blocks[s.block], first, index);
      assert false;
    }
  }

  lemma FrameBetween(base: nat, lo: nat, hi: nat)
    requires base <= lo <= hi && lo / CHUNK_PAGES != hi / CHUNK_PAGES
    ensures base < (base / CHUNK_PAGES + 1) * CHUNK_PAGES <= hi
  {
  }

  lemma ChunkAtMonotone(s: Slot, g: nat, h: nat)
    requires s.base <= g <= h
    ensures 0 <= ChunkAt(s, g) <= ChunkAt(s, h)
  {
  }

  lemma EarlierPinnable(block: Block, first: nat, index: nat)
    requires first <= index && Pinnable(block, index)
    ensures Pinnable(block, first)
  {
  }

  lemma SameFrame(s: Slot, index: nat, g: nat, h: nat)
    requires Snug(s) && s.Covers(g) && s.Covers(h)
    requires (s.offset + (g - s.base) * PAGE_SIZE) / CHUNK_SIZE == index
    requires (s.offset + (h - s.base) * PAGE_SIZE) / CHUNK_SIZE == index
    ensures g / CHUNK_PAGES == h / CHUNK_PAGES
  {
    var delta := s.Kind().delta;
    if delta % CHUNK_SIZE == 0 {
      FrameOf(delta, g, index);
      FrameOf(delta, h, index);
    } else {
      InOneFrame(s.base, g, s.base + s.npages - 1);
      InOneFrame(s.base, h, s.base + s.npages - 1);
    }
  }

  lemma InOneFrame(lo: nat, g: nat, hi: nat)
    requires lo <= g <= hi && lo / CHUNK_PAGES == hi / CHUNK_PAGES
    ensures g / CHUNK_PAGES == lo / CHUNK_PAGES
  {
  }

  lemma FrameOf(delta: int, g: nat, index: nat)
    requires delta % CHUNK_SIZE == 0 && (delta + g * PAGE_SIZE) / CHUNK_SIZE == index
    ensures g / CHUNK_PAGES == index - delta / CHUNK_SIZE
  {
    var q, x := delta / CHUNK_SIZE, delta + g * PAGE_SIZE;
    assert delta == q * CHUNK_SIZE;
    assert x == index * CHUNK_SIZE + x % CHUNK_SIZE;
    var frame := index - q;
    assert frame * CHUNK_PAGES <= g < frame * CHUNK_PAGES + CHUNK_PAGES;
    FrameIs(g, frame);
  }

  lemma FrameIs(g: nat, frame: int)
    requires frame * CHUNK_PAGES <= g < frame * CHUNK_PAGES + CHUNK_PAGES
    ensures g / CHUNK_PAGES == frame
  {
  }

  lemma MapSeals(m: Memory, m': Memory, d: Slot, valid: bool, uva: nat, blocks1: map<BlockId, Block>, events: seq<Event>)
    requires Sealed(m) && MapStep(m, m', d, valid, uva, blocks1, events)
    ensures Sealed(m')
  {
    forall g | g in m'.leaves ensures g !in m'.guarded {
      assert g in m.leaves;
    }
  }

  /** New bytes of the bitmap only say something about gfns that have never been mapped. */
  lemma GrowSeals(m: Memory, m': Memory, end: nat)
    requires Inv(m) && Sealed(m) && GrowStep(m, m', end)
    ensures Sealed(m')
  {
    forall g | g in m'.leaves ensures g !in m'.guarded {
      assert LeafAt(m.slots, m.ram.blocks, g) == Some(m.leaves[g]);
      assert KindAt(m.slots, g).Some?;
    }
  }

  lemma NextSeals(m: Memory, m': Memory, step: Step)
    requires Inv(m) && AllTight(m.slots, m.ram.blocks) && Sealed(m) && Next(m, m', step)
    ensures Sealed(m')
  {
    match step
    case AddRam =>
    case Grow(end) => GrowSeals(m, m', end);
    case Map(d, valid, uva, blocks1, events) => MapSeals(m, m', d, valid, uva, blocks1, events);
    case Pin(b, index, chunk) =>
    case Fill(i, index, fault, start, pfns, n) => FillSeals(m, m', i, index, fault, start, pfns, n);
    case Protect(first, npages, on) =>
      forall g | g in m'.leaves ensures g !in m'.guarded {
        assert g in m.leaves;
      }
    case Fix(g) => FixChangesNothing(m, g);
  }

  // ---- Whole runs ---------------------------------------------------------------------------------

  /** A sequence of states, each one step after the one before it. */
  ghost predicate Path(ms: seq<Memory>, steps: seq<Step>) {
    |ms| == |steps| + 1 && forall i :: 0 <= i < |steps| ==> Next(ms[i], ms[i + 1], steps[i])
  }

  lemma TakesOneMore(m: Memory, m1: Memory, ms: seq<Memory>, steps: seq<Step>, m2: Memory, step: Step)
    requires Takes(m, m1, ms, steps) && Next(m1, m2, step)
    ensures Takes(m, m2, ms + [m2], steps + [step])
  {
    var ms', steps' := ms + [m2], steps + [step];
    forall i | 0 <= i < |steps'| ensures Next(ms'[i], ms'[i + 1], steps'[i]) {
      if i < |steps| {
        assert Next(ms[i], ms[i + 1], steps[i]);
      }
    }
  }

  ghost predicate Run(ms: seq<Memory>, steps: seq<Step>) {
    Path(ms, steps) && Init(ms[0])
  }

  /** One operation does what some steps do. */
  ghost predicate Takes(m: Memory, m': Memory, ms: seq<Memory>, steps: seq<Step>) {
    Path(ms, steps) && ms[0] == m && ms[|ms| - 1] == m'
  }

  /** What takes some steps, and then some more. */
  lemma TakesAfter(m: Memory, m1: Memory, ms: seq<Memory>, steps: seq<Step>, m2: Memory, ms': seq<Memory>, steps': seq<Step>)
    requires Takes(m, m1, ms, steps) && Takes(m1, m2, ms', steps')
    ensures Takes(m, m2, ms + ms'[1..], steps + steps')
  {
    var all, done := ms + ms'[1..], steps + steps';
    forall i | 0 <= i < |done| ensures Next(all[i], all[i + 1], done[i]) {
      if i < |steps| {
        assert Next(ms[i], ms[i + 1], steps[i]);
      } else {
        var j := i - |steps|;
        assert Next(ms'[j], ms'[j + 1], steps'[j]);
      }
    }
  }

  lemma {:induction false} TakesKeeps(m: Memory, m': Memory, ms: seq<Memory>, steps: seq<Step>, n: nat)
    requires Inv(m) && Takes(m, m', ms, steps) && n < |ms|
    ensures Inv(ms[n])
  {
    if n > 0 {
      TakesKeeps(m, m', ms, steps, n - 1);
      NextKeeps(ms[n - 1], ms[n], steps[n - 1]);
    }
  }

  /** In every state of every run the EPT agrees with the memory map, nothing it maps is unpinned, every
      reference is counted, and the slot list is sorted, disjoint and canonical. */
  lemma {:induction false} RunKeeps(ms: seq<Memory>, steps: seq<Step>, n: nat)
    requires Run(ms, steps) && n < |ms|
    ensures Inv(ms[n])
  {
    if n > 0 {
      RunKeeps(ms, steps, n - 1);
      NextKeeps(ms[n - 1], ms[n], steps[n - 1]);
    }
  }

  /** And as long as every slot is tight, no protected page ever has a present leaf. */
  lemma {:induction false} RunSeals(ms: seq<Memory>, steps: seq<Step>, n: nat)
    requires Run(ms, steps) && n < |ms|
    requires forall i :: 0 <= i < n ==> AllTight(ms[i].slots, ms[i].ram.blocks)
    ensures Sealed(ms[n])
  {
    if n > 0 {
      var k := n - 1;
      RunSeals(ms, steps, k);
      RunKeeps(ms, steps, k);
      assert AllTight(ms[k].slots, ms[k].ram.blocks);
      NextSeals(ms[k], ms[n], steps[k]);
    }
  }

  /** Requests whose guest and block addresses agree modulo the chunk size. */
  ghost predicate Aligned(step: Step) {
    step.Map? && step.valid ==> step.d.Kind().delta % CHUNK_SIZE == 0
  }

  lemma NextCongruent(m: Memory, m': Memory, step: Step)
    requires Congruent(m.slots) && Next(m, m', step) && Aligned(step)
    ensures Congruent(m'.slots)
  {
    if step.Map? {
      MapCongruent(m, m', step.d, step.valid, step.uva, step.blocks1, step.events);
    }
  }

  lemma MapCongruent(m: Memory, m': Memory, d: Slot, valid: bool, uva: nat, blocks1: map<BlockId, Block>, events: seq<Event>)
    requires Congruent(m.slots) && MapStep(m, m', d, valid, uva, blocks1, events)
    requires valid ==> d.Kind().delta % CHUNK_SIZE == 0
    ensures Congruent(m'.slots)
  {
    if valid {
      EffectiveIsRequested(m.slots, d);
    }
    forall g: nat | KindAt(m'.slots, g).Some? ensures KindAt(m'.slots, g).value.delta % CHUNK_SIZE == 0 {
      if !d.Covers(g) {
        assert KindAt(m'.slots, g) == KindAt(m.slots, g);
      }
    }
  }

  lemma CongruentSnug(slots: seq<Slot>)
    requires Ordered(slots) && Congruent(slots)
    ensures AllSnug(slots)
  {
    forall i | 0 <= i < |slots| ensures Snug(slots[i]) {
      KindAtIndex(slots, i, slots[i].base);
    }
  }

  lemma {:induction false} RunCongruent(ms: seq<Memory>, steps: seq<Step>, n: nat)
    requires Run(ms, steps) && n < |ms| && forall i :: 0 <= i < n ==> Aligned(steps[i])
    ensures Congruent(ms[n].slots)
  {
    if n > 0 {
      var k := n - 1;
      RunCongruent(ms, steps, k);
      NextCongruent(ms[k], ms[n], steps[k]);
    }
  }

  /** What a caller can see to: if guest and block addresses of every request agree modulo the chunk size, no
      protected page ever has a present leaf. */
  lemma AlignedRunSeals(ms: seq<Memory>, steps: seq<Step>, n: nat)
    requires Run(ms, steps) && n < |ms| && forall i :: 0 <= i < |steps| ==> Aligned(steps[i])
    ensures Sealed(ms[n])
  {
    forall i | 0 <= i < n ensures AllTight(ms[i].slots, ms[i].ram.blocks) {
      RunCongruent(ms, steps, i);
      RunKeeps(ms, steps, i);
      CongruentSnug(ms[i].slots);
    }
    RunSeals(ms, steps, n);
  }

  /** Two histories that leave the same translation leave the same list, but for flags that do not bear on it. */
  lemma SameMeaningSameList(ms: seq<Memory>, steps: seq<Step>, n: nat, ms': seq<Memory>, steps': seq<Step>, n': nat)
    requires Run(ms, steps) && n < |ms| && Run(ms', steps') && n' < |ms'|
    requires SameMeaning(ms[n].slots, ms'[n'].slots)
    ensures |ms[n].slots| == |ms'[n'].slots|
    ensures forall i :: 0 <= i < |ms[n].slots| ==> Alike(ms[n].slots[i], ms'[n'].slots[i])
  {
    RunKeeps(ms, steps, n);
    RunKeeps(ms', steps', n');
    CanonicalIsUnique(ms[n].slots, ms'[n'].slots);
  }

  /** What the invariant says of a present leaf: a slot covers its gfn, the frame is the pinned one
      behind it, and it is writable exactly when the slot is not read-only. */
  lemma LeafMeans(m: Memory, g: nat) returns (i: nat)
    requires Inv(m) && g in m.leaves
    ensures i < |m.slots| && m.slots[i].Covers(g)
    ensures PfnAt(m.ram.blocks, m.slots[i].block, m.slots[i].offset + (g - m.slots[i].base) * PAGE_SIZE) == Some(m.leaves[g].pfn)
    ensures m.leaves[g].writable <==> !m.slots[i].flags.readonly
    ensures m.slots[i].block in m.ram.counts && m.ram.counts[m.slots[i].block] > 0
  {
    assert LeafAt(m.slots, m.ram.blocks, g) == Some(m.leaves[g]);
    i := KindAtSome(m.slots, g);
    var k, t := KindAt(m.slots, g).value, TargetOf(KindAt(m.slots, g).value, g);
    assert t.offset == m.slots[i].offset + (g - m.slots[i].base) * PAGE_SIZE;
    ListHolds(m.ram, m.slots, g);
  }
}
