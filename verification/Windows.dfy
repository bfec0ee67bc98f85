/**
 What an EPT violation maps: the part of the faulting slot that lies in the faulting chunk.
 */
module Windows {
  import opened Memslots
  import opened Surgery
  import opened Ramblocks

  /** The size ramblock_get_chunk gives the chunk with that index. */
  function ChunkSize(blockSize: nat, index: nat): nat {
    if (index + 1) * CHUNK_SIZE > blockSize then blockSize % CHUNK_SIZE else CHUNK_SIZE
  }

  /** A chunk reaches to the next chunk boundary or to the end of the block. */
  lemma ChunkReaches(blockSize: nat, index: nat)
    requires index * CHUNK_SIZE < blockSize
    ensures index * CHUNK_SIZE + ChunkSize(blockSize, index) == Min((index + 1) * CHUNK_SIZE, blockSize)
    ensures ChunkSize(blockSize, index) > 0
  {
    if (index + 1) * CHUNK_SIZE > blockSize {
      assert blockSize == index * CHUNK_SIZE + (blockSize - index * CHUNK_SIZE);
      assert blockSize / CHUNK_SIZE == index;
    }
  }

  /** What chunk_alloc accepts: whole pages of host memory. */
  predicate Pinnable(block: Block, index: nat) {
    && index * CHUNK_SIZE < block.size
    && (block.baseUva + index * CHUNK_SIZE) % PAGE_SIZE == 0 && ChunkSize(block.size, index) % PAGE_SIZE == 0
  }

  /** The chunk with that index in a block. */
  ghost predicate ChunkOf(block: Block, index: nat, chunk: Chunk) {
    && Pinnable(block, index)
    && chunk.baseUva == block.baseUva + index * CHUNK_SIZE
    && chunk.size == ChunkSize(block.size, index) && |chunk.pfns| == chunk.size / PAGE_SIZE
  }

  /** Every pinned chunk is where its index says. */
  ghost predicate Placed(blocks: map<BlockId, Block>) {
    forall b, i :: b in blocks && i in blocks[b].chunks ==> ChunkOf(blocks[b], i, blocks[b].chunks[i])
  }

  /** A range of guest addresses and where it starts in a chunk, all in bytes. */
  datatype Window = Window(gpa: nat, size: int, offset: nat)

  /** The arithmetic of ept_handle_access_violation. */
  function WindowOf(slot: Slot, block: Block, chunk: Chunk): Window
    requires block.baseUva <= chunk.baseUva
  {
    var low := chunk.baseUva - block.baseUva;
    var gpa := slot.base * PAGE_SIZE + if low > slot.offset then low - slot.offset else 0;
    var offset := if low > slot.offset then 0 else slot.offset - low;
    var high, slotHigh := low + chunk.size, slot.offset + slot.npages * PAGE_SIZE;
    Window(gpa, chunk.size - offset - (if high > slotHigh then high - slotHigh else 0), offset)
  }

  /** The slot lies inside its block, page by page. */
  predicate SlotFits(slot: Slot, block: Block) {
    slot.offset % PAGE_SIZE == 0 && slot.offset + slot.npages * PAGE_SIZE <= block.size
  }

  /** The window is whole pages. */
  lemma WindowPages(slot: Slot, block: Block, index: nat, chunk: Chunk)
    requires SlotFits(slot, block) && ChunkOf(block, index, chunk)
    ensures var w := WindowOf(slot, block, chunk);
            w.gpa % PAGE_SIZE == 0 && w.size % PAGE_SIZE == 0 && w.offset % PAGE_SIZE == 0
  {
    var low, top := chunk.baseUva - block.baseUva, slot.offset + slot.npages * PAGE_SIZE;
    PagesTimes(index, CHUNK_SIZE / PAGE_SIZE);
    assert low == index * (CHUNK_SIZE / PAGE_SIZE) * PAGE_SIZE;
    PagesTimes(slot.npages, 1);
    PagesTimes(slot.base, 1);
    PagesPlus(slot.offset, slot.npages * PAGE_SIZE);
    PagesLess(low, slot.offset);
    PagesLess(slot.offset, low);
    PagesPlus(low, chunk.size);
    PagesLess(low + chunk.size, top);
    var w := WindowOf(slot, block, chunk);
    PagesPlus(slot.base * PAGE_SIZE, w.gpa - slot.base * PAGE_SIZE);
    PagesLess(chunk.size, w.offset);
    PagesLess(chunk.size - w.offset, chunk.size - w.offset - w.size);
  }

  lemma PagesTimes(n: nat, k: nat)
    ensures n * k * PAGE_SIZE % PAGE_SIZE == 0
  {
    var m := n * k;
    assert m * PAGE_SIZE % PAGE_SIZE == 0;
  }

  lemma PagesPlus(x: int, y: int)
    requires x % PAGE_SIZE == 0 && y % PAGE_SIZE == 0
    ensures (x + y) % PAGE_SIZE == 0
  {
  }

  lemma PagesLess(x: int, y: int)
    requires x % PAGE_SIZE == 0 && y % PAGE_SIZE == 0
    ensures (x - y) % PAGE_SIZE == 0
  {
  }

  /** A page of the slot is in the window exactly when its host address is in the chunk. */
  lemma WindowExact(slot: Slot, block: Block, index: nat, chunk: Chunk, g: nat)
    requires SlotFits(slot, block) && ChunkOf(block, index, chunk)
    ensures var w := WindowOf(slot, block, chunk);
            w.gpa <= g * PAGE_SIZE < w.gpa + w.size <==>
            slot.Covers(g) && (slot.offset + (g - slot.base) * PAGE_SIZE) / CHUNK_SIZE == index
  {
    ChunkReaches(block.size, index);
  }

  /** Each page of the window meets the chunk at its own place. */
  lemma WindowPage(slot: Slot, block: Block, index: nat, chunk: Chunk, g: nat)
    requires SlotFits(slot, block) && ChunkOf(block, index, chunk)
    requires slot.Covers(g) && (slot.offset + (g - slot.base) * PAGE_SIZE) / CHUNK_SIZE == index
    ensures var w := WindowOf(slot, block, chunk);
            w.offset + (g * PAGE_SIZE - w.gpa) == (slot.offset + (g - slot.base) * PAGE_SIZE) % CHUNK_SIZE < chunk.size
  {
    ChunkReaches(block.size, index);
  }
}
