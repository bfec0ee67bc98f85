/** RAM blocks: host buffers that slots refer to, reference-counted and pinned a chunk at a time. */
module Ramblocks {
  import opened Memslots

  const CHUNK_SIZE: nat := 0x20_0000
  const CHUNK_PAGES: nat := 512

  /** A pinned chunk: the host frame of each of its pages. */
  datatype Chunk = Chunk(baseUva: nat, size: nat, pfns: seq<nat>)

  datatype Block = Block(baseUva: nat, size: nat, chunks: map<nat, Chunk>, standalone: bool) {
    function End(): nat {
      baseUva + size
    }
  }

  function BaseUva(blocks: map<BlockId, Block>, b: BlockId): nat {
    if b in blocks then blocks[b].baseUva else 0
  }

  /** The host frame behind an offset into a block, where it is pinned. */
  function PfnAt(blocks: map<BlockId, Block>, b: BlockId, offset: int): Option<nat> {
    if b in blocks && offset >= 0 && offset / CHUNK_SIZE in blocks[b].chunks
       && offset % CHUNK_SIZE / PAGE_SIZE < |blocks[b].chunks[offset / CHUNK_SIZE].pfns|
    then Some(blocks[b].chunks[offset / CHUNK_SIZE].pfns[offset % CHUNK_SIZE / PAGE_SIZE])
    else None
  }

  // ---- References -----------------------------------------------------------------------------

  /** Every block is counted once for each slot and each snapshot copy that names it, and once for
      each reference in `local`. */
  ghost predicate Counted(counts: map<BlockId, int>, slots: seq<Slot>, snapshot: seq<Slot>, local: multiset<BlockId>) {
    && (forall b :: b in counts ==> counts[b] == Refs(slots, b) + Refs(snapshot, b) + local[b])
    && (forall b :: Refs(slots, b) + Refs(snapshot, b) + local[b] > 0 ==> b in counts)
  }

  /** Something beside the list refers to the block. */
  ghost predicate Kept(b: BlockId, snapshot: seq<Slot>, local: multiset<BlockId>) {
    Refs(snapshot, b) + local[b] > 0
  }

  /** A block nobody refers to is an ordinary one, and none of its chunks is pinned. */
  ghost predicate Settled(counts: map<BlockId, int>, blocks: map<BlockId, Block>) {
    forall b :: b in blocks && b in counts && counts[b] == 0 ==> !blocks[b].standalone && blocks[b].chunks == map[]
  }

  /** Every block is counted as often as it is referred to, and is idle when it is not. */
  ghost predicate Tally(counts: map<BlockId, int>, blocks: map<BlockId, Block>,
                        slots: seq<Slot>, snapshot: seq<Slot>, local: multiset<BlockId>)
  {
    counts.Keys == blocks.Keys && Counted(counts, slots, snapshot, local) && Settled(counts, blocks)
  }

  /** Blocks only lose their chunks, or go altogether when they are stand-alone. */
  ghost predicate Shrunk(blocks0: map<BlockId, Block>, blocks: map<BlockId, Block>) {
    && (forall b :: b in blocks ==>
          b in blocks0 && (blocks[b] == blocks0[b] || blocks[b] == blocks0[b].(chunks := map[])))
    && (forall b :: b in blocks0 && !blocks0[b].standalone ==> b in blocks)
  }

  /** What dropping references may do to the blocks: one that is still referred to is not touched. */
  ghost predicate Dropped(blocks0: map<BlockId, Block>, blocks: map<BlockId, Block>, counts: map<BlockId, int>) {
    && Shrunk(blocks0, blocks)
    && (forall b :: b in blocks && b in counts && counts[b] > 0 ==> b in blocks0 && blocks[b] == blocks0[b])
  }

  ghost predicate NoMore(counts: map<BlockId, int>, counts': map<BlockId, int>) {
    forall b :: b in counts' ==> b in counts && counts'[b] <= counts[b]
  }

  lemma DroppedTrans(blocks0: map<BlockId, Block>, blocks1: map<BlockId, Block>, blocks2: map<BlockId, Block>,
                     counts1: map<BlockId, int>, counts2: map<BlockId, int>)
    requires Dropped(blocks0, blocks1, counts1) && Dropped(blocks1, blocks2, counts2) && NoMore(counts1, counts2)
    ensures Dropped(blocks0, blocks2, counts2)
  {
  }

  // ---- Edits of the list of slots, each with its references -----------------------------------------

  lemma InsertCounts(slots: seq<Slot>, i: nat, s: Slot, slots': seq<Slot>, b: BlockId)
    requires i <= |slots| && slots' == slots[..i] + [s] + slots[i..]
    ensures Refs(slots', b) == Refs(slots, b) + if s.block == b then 1 else 0
  {
    assert slots == slots[..i] + slots[i..];
    RefsConcat(slots[..i], slots[i..], b);
    RefsConcat(slots[..i] + [s], slots[i..], b);
    RefsConcat(slots[..i], [s], b);
    assert [s][1..] == [];
  }

  lemma DeleteCounts(slots: seq<Slot>, i: nat, slots': seq<Slot>, b: BlockId)
    requires i < |slots| && slots' == slots[..i] + slots[i + 1..]
    ensures Refs(slots, b) == Refs(slots', b) + if slots[i].block == b then 1 else 0
  {
    assert slots'[..i] + [slots[i]] + slots'[i..] == slots;
    InsertCounts(slots', i, slots[i], slots, b);
  }

  lemma EditCounts(slots: seq<Slot>, i: nat, s: Slot, slots': seq<Slot>, b: BlockId)
    requires i < |slots| && slots' == slots[i := s]
    ensures Refs(slots', b) + (if slots[i].block == b then 1 else 0) == Refs(slots, b) + (if s.block == b then 1 else 0)
  {
    var rest := slots[..i] + slots[i + 1..];
    assert rest == slots'[..i] + slots'[i + 1..];
    DeleteCounts(slots, i, rest, b);
    DeleteCounts(slots', i, rest, b);
  }

  lemma TallyInsert(counts: map<BlockId, int>, blocks: map<BlockId, Block>, slots: seq<Slot>, i: nat, s: Slot,
                    snapshot: seq<Slot>, local: multiset<BlockId>, counts': map<BlockId, int>, slots': seq<Slot>)
    requires Tally(counts, blocks, slots, snapshot, local) && i <= |slots| && s.block in counts
    requires slots' == slots[..i] + [s] + slots[i..] && counts' == counts[s.block := counts[s.block] + 1]
    ensures Tally(counts', blocks, slots', snapshot, local)
  {
    forall b ensures Refs(slots', b) == Refs(slots, b) + if s.block == b then 1 else 0 {
      InsertCounts(slots, i, s, slots', b);
    }
  }

  /** A slot that something beside the list keeps: its block is counted at least twice. */
  lemma KeptTwice(counts: map<BlockId, int>, blocks: map<BlockId, Block>, slots: seq<Slot>, i: nat,
                  snapshot: seq<Slot>, local: multiset<BlockId>)
    requires Tally(counts, blocks, slots, snapshot, local) && i < |slots| && Kept(slots[i].block, snapshot, local)
    ensures slots[i].block in counts && slots[i].block in blocks && counts[slots[i].block] > 1
  {
    RefsMember(slots, i);
    assert Refs(slots, slots[i].block) + Refs(snapshot, slots[i].block) + local[slots[i].block] > 0;
  }

  lemma TallyDelete(counts: map<BlockId, int>, blocks: map<BlockId, Block>, slots: seq<Slot>, i: nat,
                    snapshot: seq<Slot>, local: multiset<BlockId>, counts': map<BlockId, int>, slots': seq<Slot>)
    requires Tally(counts, blocks, slots, snapshot, local) && i < |slots| && Kept(slots[i].block, snapshot, local)
    requires slots[i].block in counts && counts' == counts[slots[i].block := counts[slots[i].block] - 1]
    requires slots' == slots[..i] + slots[i + 1..]
    ensures Tally(counts', blocks, slots', snapshot, local)
  {
    KeptTwice(counts, blocks, slots, i, snapshot, local);
    forall b ensures Refs(slots, b) == Refs(slots', b) + if slots[i].block == b then 1 else 0 {
      DeleteCounts(slots, i, slots', b);
    }
  }

  lemma TallyMove(counts: map<BlockId, int>, blocks: map<BlockId, Block>, slots: seq<Slot>, i: nat, s: Slot,
                  snapshot: seq<Slot>, local: multiset<BlockId>, counts1: map<BlockId, int>, counts': map<BlockId, int>, slots': seq<Slot>)
    requires Tally(counts, blocks, slots, snapshot, local) && i < |slots| && Kept(slots[i].block, snapshot, local)
    requires slots[i].block in counts && counts1 == counts[slots[i].block := counts[slots[i].block] - 1]
    requires s.block in counts1 && counts' == counts1[s.block := counts1[s.block] + 1]
    requires slots' == slots[i := s]
    ensures Tally(counts', blocks, slots', snapshot, local)
  {
    var rest := slots[..i] + slots[i + 1..];
    TallyDelete(counts, blocks, slots, i, snapshot, local, counts1, rest);
    assert slots' == rest[..i] + [s] + rest[i..];
    TallyInsert(counts1, blocks, rest, i, s, snapshot, local, counts', slots');
  }

  lemma TallyEdit(counts: map<BlockId, int>, blocks: map<BlockId, Block>, slots: seq<Slot>, i: nat, s: Slot,
                  snapshot: seq<Slot>, local: multiset<BlockId>, slots': seq<Slot>)
    requires Tally(counts, blocks, slots, snapshot, local) && i < |slots| && s.block == slots[i].block
    requires slots' == slots[i := s]
    ensures Tally(counts, blocks, slots', snapshot, local)
  {
    forall b ensures Refs(slots', b) == Refs(slots, b) {
      EditCounts(slots, i, s, slots', b);
    }
  }

  lemma TallyEnqueue(counts: map<BlockId, int>, blocks: map<BlockId, Block>, slots: seq<Slot>, s: Slot,
                     snapshot: seq<Slot>, local: multiset<BlockId>, counts': map<BlockId, int>, snapshot': seq<Slot>)
    requires Tally(counts, blocks, slots, snapshot, local) && s.block in counts
    requires snapshot' == snapshot + [s] && counts' == counts[s.block := counts[s.block] + 1]
    ensures Tally(counts', blocks, slots, snapshot', local)
  {
    forall b ensures Refs(snapshot', b) == Refs(snapshot, b) + if s.block == b then 1 else 0 {
      RefsConcat(snapshot, [s], b);
      assert [s][1..] == [];
    }
  }

  // ---- The sorted list of blocks --------------------------------------------------------------

  /** The list names exactly the blocks there are, sorted by address and disjoint. */
  ghost predicate Listed(order: seq<BlockId>, blocks: map<BlockId, Block>) {
    && (forall b :: b in order <==> b in blocks)
    && Sorted(order, blocks)
    && (forall b :: b in blocks ==> b != NO_BLOCK && blocks[b].size > 0)
  }

  ghost predicate Sorted(order: seq<BlockId>, blocks: map<BlockId, Block>)
    requires forall b :: b in order ==> b in blocks
  {
    forall i, j :: 0 <= i < j < |order| ==> blocks[order[i]].End() <= blocks[order[j]].baseUva
  }

  /** hax_list_del */
  function Without(order: seq<BlockId>, b: BlockId): seq<BlockId> {
    if order == [] then [] else if order[0] == b then order[1..] else [order[0]] + Without(order[1..], b)
  }

  lemma {:induction false} WithoutCuts(order: seq<BlockId>, b: BlockId) returns (i: nat)
    requires b in order
    ensures i < |order| && order[i] == b && Without(order, b) == order[..i] + order[i + 1..]
  {
    if order[0] == b {
      i := 0;
    } else {
      i := WithoutCuts(order[1..], b);
      i := i + 1;
    }
  }

  lemma NamedOnce(order: seq<BlockId>, blocks: map<BlockId, Block>, i: nat)
    requires Listed(order, blocks) && i < |order|
    ensures order[i] !in order[..i] && order[i] !in order[i + 1..]
  {
    assert blocks[order[i]].size > 0;
  }

  lemma CutMembers(order: seq<BlockId>, i: nat, cut: seq<BlockId>)
    requires i < |order| && cut == order[..i] + order[i + 1..]
    requires order[i] !in order[..i] && order[i] !in order[i + 1..]
    ensures forall c :: c in cut <==> c in order && c != order[i]
  {
    assert order == order[..i] + [order[i]] + order[i + 1..];
  }

  lemma CutSorted(order: seq<BlockId>, blocks: map<BlockId, Block>, i: nat, cut: seq<BlockId>)
    requires i < |order| && cut == order[..i] + order[i + 1..]
    requires forall b :: b in order ==> b in blocks
    requires Sorted(order, blocks)
    ensures forall b :: b in cut ==> b in blocks
    ensures Sorted(cut, blocks)
  {
    forall j, k | 0 <= j < k < |cut| ensures cut[j] in blocks && cut[k] in blocks && blocks[cut[j]].End() <= blocks[cut[k]].baseUva {
      assert cut[j] == order[if j < i then j else j + 1];
      assert cut[k] == order[if k < i then k else k + 1];
    }
  }

  lemma ListedCut(order: seq<BlockId>, blocks: map<BlockId, Block>, i: nat,
                  cut: seq<BlockId>, blocks': map<BlockId, Block>)
    requires Listed(order, blocks) && i < |order|
    requires cut == order[..i] + order[i + 1..] && blocks' == blocks - {order[i]}
    ensures Listed(cut, blocks')
  {
    NamedOnce(order, blocks, i);
    CutMembers(order, i, cut);
    CutSorted(order, blocks, i, cut);
  }

  lemma ListedWithout(order: seq<BlockId>, blocks: map<BlockId, Block>, b: BlockId)
    requires Listed(order, blocks) && b in blocks
    ensures Listed(Without(order, b), blocks - {b})
  {
    var i := WithoutCuts(order, b);
    ListedCut(order, blocks, i, Without(order, b), blocks - {b});
  }

  /** The list only looks at where blocks lie. */
  lemma ListedInPlace(order: seq<BlockId>, blocks: map<BlockId, Block>, b: BlockId, block: Block, blocks': map<BlockId, Block>)
    requires Listed(order, blocks) && b in blocks && block.baseUva == blocks[b].baseUva && block.size == blocks[b].size
    requires blocks' == blocks[b := block]
    ensures Listed(order, blocks')
  {
  }

  lemma InsertMembers(order: seq<BlockId>, i: nat, b: BlockId, order': seq<BlockId>)
    requires i <= |order| && order' == order[..i] + [b] + order[i..]
    ensures forall c :: c in order' <==> c in order || c == b
  {
    assert order'[i] == b;
    forall c | c in order ensures c in order' {
      var k :| 0 <= k < |order| && order[k] == c;
      assert order'[if k < i then k else k + 1] == c;
    }
  }

  lemma InsertSorted(order: seq<BlockId>, blocks: map<BlockId, Block>, i: nat, b: BlockId, order': seq<BlockId>)
    requires i <= |order| && order' == order[..i] + [b] + order[i..]
    requires b in blocks && (forall c :: c in order ==> c in blocks) && Sorted(order, blocks)
    requires forall j :: 0 <= j < i ==> blocks[order[j]].End() <= blocks[b].baseUva
    requires forall j :: i <= j < |order| ==> blocks[b].End() <= blocks[order[j]].baseUva
    ensures forall c :: c in order' ==> c in blocks
    ensures Sorted(order', blocks)
  {
    forall j, k | 0 <= j < k < |order'|
      ensures order'[j] in blocks && order'[k] in blocks && blocks[order'[j]].End() <= blocks[order'[k]].baseUva
    {
      if j != i {
        assert order'[j] == order[if j < i then j else j - 1];
      }
      if k != i {
        assert order'[k] == order[if k < i then k else k - 1];
      }
    }
  }

  lemma ListedInsert(order: seq<BlockId>, blocks: map<BlockId, Block>, i: nat, b: BlockId, block: Block,
                     order': seq<BlockId>, blocks': map<BlockId, Block>)
    requires Listed(order, blocks) && i <= |order| && b !in blocks && b != NO_BLOCK && block.size > 0
    requires forall j :: 0 <= j < i ==> blocks[order[j]].End() <= block.baseUva
    requires forall j :: i <= j < |order| ==> block.End() <= blocks[order[j]].baseUva
    requires order' == order[..i] + [b] + order[i..] && blocks' == blocks[b := block]
    ensures Listed(order', blocks')
  {
    InsertMembers(order, i, b, order');
    InsertSorted(order, blocks', i, b, order');
  }

  // ---- Dropping one reference -----------------------------------------------------------------

  /** The blocks of a memory map, how often each is referred to, and their list. */
  datatype Ram = Ram(counts: map<BlockId, int>, blocks: map<BlockId, Block>, order: seq<BlockId>)

  /** ramblock_deref */
  function DerefRam(r: Ram, b: BlockId): Ram {
    if b !in r.counts || b !in r.blocks || r.counts[b] <= 0 then r
    else if r.counts[b] > 1 then r.(counts := r.counts[b := r.counts[b] - 1])
    else if r.blocks[b].standalone then Ram(r.counts - {b}, r.blocks - {b}, Without(r.order, b))
    else r.(counts := r.counts[b := 0], blocks := r.blocks[b := r.blocks[b].(chunks := map[])])
  }

  /** The counts, the blocks and the list of blocks agree. */
  ghost predicate Sound(r: Ram, slots: seq<Slot>, snapshot: seq<Slot>, local: multiset<BlockId>) {
    Tally(r.counts, r.blocks, slots, snapshot, local) && Listed(r.order, r.blocks)
  }

  lemma DerefDrops(r: Ram, b: BlockId, r': Ram)
    requires r.counts.Keys == r.blocks.Keys && r' == DerefRam(r, b)
    ensures Dropped(r.blocks, r'.blocks, r'.counts) && NoMore(r.counts, r'.counts)
  {
  }

  lemma DerefSettles(r: Ram, b: BlockId, r': Ram)
    requires r.counts.Keys == r.blocks.Keys && r' == DerefRam(r, b)
    ensures r'.counts.Keys == r'.blocks.Keys
    ensures Settled(r.counts, r.blocks) ==> Settled(r'.counts, r'.blocks)
  {
  }

  lemma DerefLists(r: Ram, b: BlockId, r': Ram)
    requires r.counts.Keys == r.blocks.Keys && Listed(r.order, r.blocks) && r' == DerefRam(r, b)
    ensures Listed(r'.order, r'.blocks)
  {
    if b in r.counts && r.counts[b] == 1 {
      if r.blocks[b].standalone {
        ListedWithout(r.order, r.blocks, b);
      } else {
        ListedInPlace(r.order, r.blocks, b, r.blocks[b].(chunks := map[]), r'.blocks);
      }
    }
  }

  lemma DerefCounts(r: Ram, b: BlockId, r': Ram, slots: seq<Slot>, snapshot: seq<Slot>, local: multiset<BlockId>)
    requires r.counts.Keys == r.blocks.Keys && r' == DerefRam(r, b)
    requires Counted(r.counts, slots, snapshot, local + multiset{b})
    ensures Counted(r'.counts, slots, snapshot, local)
  {
    assert forall c :: (local + multiset{b})[c] == local[c] + if c == b then 1 else 0;
    assert Refs(slots, b) + Refs(snapshot, b) + (local + multiset{b})[b] > 0;
  }

  /** Giving up one of the references counted in `local`. */
  lemma DerefSound(r: Ram, b: BlockId, r': Ram, slots: seq<Slot>, snapshot: seq<Slot>, local: multiset<BlockId>)
    requires Sound(r, slots, snapshot, local + multiset{b}) && r' == DerefRam(r, b)
    ensures Sound(r', slots, snapshot, local)
  {
    DerefSettles(r, b, r');
    DerefLists(r, b, r');
    DerefCounts(r, b, r', slots, snapshot, local);
  }

  /** A reference held by the head of the snapshot is one reference more beside the rest of it. */
  lemma SnapshotHead(counts: map<BlockId, int>, slots: seq<Slot>, snapshot: seq<Slot>, local: multiset<BlockId>)
    requires snapshot != [] && Counted(counts, slots, snapshot, local)
    ensures Counted(counts, slots, snapshot[1..], local + multiset{snapshot[0].block})
  {
    assert forall b :: Refs(snapshot, b) == Refs(snapshot[1..], b) + if snapshot[0].block == b then 1 else 0;
  }

  /** Deleting the copy at the head of the snapshot. */
  lemma DerefHead(r: Ram, r': Ram, slots: seq<Slot>, snapshot: seq<Slot>, local: multiset<BlockId>)
    requires snapshot != [] && Sound(r, slots, snapshot, local) && r' == DerefRam(r, snapshot[0].block)
    ensures Sound(r', slots, snapshot[1..], local)
  {
    SnapshotHead(r.counts, slots, snapshot, local);
    DerefSound(r, snapshot[0].block, r', slots, snapshot[1..], local);
  }

  // ---- Adding and finding blocks ----------------------------------------------------------------

  ghost predicate Overlaps(blocks: map<BlockId, Block>, baseUva: nat, size: nat) {
    exists b :: b in blocks && baseUva < blocks[b].End() && blocks[b].baseUva < baseUva + size
  }

  ghost predicate Contains(blocks: map<BlockId, Block>, uva: nat) {
    exists b :: b in blocks && blocks[b].baseUva <= uva < blocks[b].End()
  }

  lemma CountedNew(counts: map<BlockId, int>, slots: seq<Slot>, id: BlockId, counts': map<BlockId, int>)
    requires Counted(counts, slots, [], multiset{}) && id !in counts && counts' == counts[id := 0]
    ensures Counted(counts', slots, [], multiset{})
  {
    assert Refs(slots, id) + Refs([], id) + multiset{}[id] == 0;
  }

  lemma CountedRef(counts: map<BlockId, int>, slots: seq<Slot>, b: BlockId, counts': map<BlockId, int>)
    requires Counted(counts, slots, [], multiset{}) && b in counts && counts' == counts[b := counts[b] + 1]
    ensures Counted(counts', slots, [], multiset{b})
  {
    assert forall c :: multiset{b}[c] == multiset{}[c] + if c == b then 1 else 0;
  }

  /** What becomes of one block that is referred to does not matter. */
  lemma SettledBut(counts: map<BlockId, int>, blocks: map<BlockId, Block>, b: BlockId,
                   counts': map<BlockId, int>, blocks': map<BlockId, Block>)
    requires Settled(counts, blocks)
    requires forall c :: c in counts' && c != b ==> c in counts && counts'[c] == counts[c]
    requires forall c :: c in blocks' && c != b ==> c in blocks && blocks'[c] == blocks[c]
    requires b in blocks' && b in counts' && counts'[b] == 0 ==> !blocks'[b].standalone && blocks'[b].chunks == map[]
    ensures Settled(counts', blocks')
  {
  }

  /** A block that is new and not yet referred to fits in. */
  lemma AddSound(r: Ram, i: nat, id: BlockId, block: Block, slots: seq<Slot>, r': Ram)
    requires Sound(r, slots, [], multiset{}) && i <= |r.order| && id !in r.blocks && id != NO_BLOCK
    requires block.size > 0 && block.chunks == map[] && !block.standalone
    requires forall j :: 0 <= j < i ==> r.blocks[r.order[j]].End() <= block.baseUva
    requires forall j :: i <= j < |r.order| ==> block.End() <= r.blocks[r.order[j]].baseUva
    requires r' == Ram(r.counts[id := 0], r.blocks[id := block], r.order[..i] + [id] + r.order[i..])
    ensures Sound(r', slots, [], multiset{})
  {
    ListedInsert(r.order, r.blocks, i, id, block, r'.order, r'.blocks);
    CountedNew(r.counts, slots, id, r'.counts);
    SettledBut(r.counts, r.blocks, id, r'.counts, r'.blocks);
  }

  lemma RefSound(r: Ram, b: BlockId, slots: seq<Slot>, r': Ram)
    requires Sound(r, slots, [], multiset{}) && b in r.counts
    requires r' == r.(counts := r.counts[b := r.counts[b] + 1])
    ensures Sound(r', slots, [], multiset{b})
  {
    CountedRef(r.counts, slots, b, r'.counts);
    SettledBut(r.counts, r.blocks, b, r'.counts, r'.blocks);
  }

  /** A block that nobody refers to becomes stand-alone as it gets its first reference. */
  lemma MarkSound(r: Ram, id: BlockId, slots: seq<Slot>, r': Ram)
    requires Sound(r, slots, [], multiset{}) && id in r.blocks && r.counts[id] == 0
    requires r' == r.(counts := r.counts[id := r.counts[id] + 1], blocks := r.blocks[id := r.blocks[id].(standalone := true)])
    ensures Sound(r', slots, [], multiset{id})
  {
    CountedRef(r.counts, slots, id, r'.counts);
    SettledBut(r.counts, r.blocks, id, r'.counts, r'.blocks);
    ListedInPlace(r.order, r.blocks, id, r.blocks[id].(standalone := true), r'.blocks);
  }
}
