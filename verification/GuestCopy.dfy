/**
 Copying between guest memory and a buffer: piece by piece in the source, across the edges of pages, slots
 and chunks; byte by byte in the specification.
 */
module GuestCopy {
  import opened Memslots
  import opened Surgery
  import opened Ramblocks
  import opened Windows
  import opened Coherence
  import opened Runs
  import opened GpaSpaces
  import opened GuestMemory

  /** Bytes of host memory by address. */
  type Host = map<int, bv8>

  function Peek(host: Host, uva: int): bv8 {
    if uva in host then host[uva] else 0
  }

  /** The host address of a guest-physical byte, where memory is mapped. */
  function UvaAt(slots: seq<Slot>, blocks: map<BlockId, Block>, gpa: nat): Option<nat> {
    match KindAt(slots, gpa / PAGE_SIZE)
    case None => None
    case Some(k) =>
      var uva := BaseUva(blocks, k.block) + k.delta + gpa;
      if k.block in blocks && uva >= 0 then Some(uva) else None
  }

  /** A translation of virtual pages, and of the addresses in them. */
  type Pages = nat -> Option<nat>

  function GpaAt(pages: Pages, va: nat): Option<nat> {
    match pages(va / PAGE_SIZE)
    case None => None
    case Some(frame) => Some(frame * PAGE_SIZE + va % PAGE_SIZE)
  }

  /** The host address of a guest-virtual byte. */
  function Reach(pages: Pages, slots: seq<Slot>, blocks: map<BlockId, Block>, va: nat): Option<nat> {
    match GpaAt(pages, va)
    case None => None
    case Some(gpa) => UvaAt(slots, blocks, gpa)
  }

  /** Pinning does not move memory. */
  lemma UvaStays(slots: seq<Slot>, blocks: map<BlockId, Block>, blocks': map<BlockId, Block>, gpa: nat)
    requires InPlace(blocks, blocks')
    ensures UvaAt(slots, blocks', gpa) == UvaAt(slots, blocks, gpa)
  {
  }

  /** A piece of guest-physical memory that is one piece of host memory. */
  ghost predicate Piece(slots: seq<Slot>, blocks: map<BlockId, Block>, gpa: nat, uva: nat, n: nat) {
    forall g: nat :: gpa <= g < gpa + n ==> UvaAt(slots, blocks, g) == Some(uva + (g - gpa))
  }

  lemma PieceOfSlot(slots: seq<Slot>, blocks: map<BlockId, Block>, i: nat, gpa: nat, n: nat, uva: nat)
    requires Ordered(slots) && i < |slots| && slots[i].block in blocks
    requires slots[i].base * PAGE_SIZE <= gpa && gpa + n <= slots[i].End() * PAGE_SIZE
    requires uva == blocks[slots[i].block].baseUva + slots[i].offset + (gpa - slots[i].base * PAGE_SIZE)
    ensures Piece(slots, blocks, gpa, uva, n)
  {
    forall g: nat | gpa <= g < gpa + n ensures UvaAt(slots, blocks, g) == Some(uva + (g - gpa)) {
      InSlot(slots[i], g);
      KindAtIndex(slots, i, g / PAGE_SIZE);
    }
  }

  lemma InSlot(s: Slot, gpa: nat)
    requires s.base * PAGE_SIZE <= gpa < s.End() * PAGE_SIZE
    ensures s.Covers(gpa / PAGE_SIZE)
  {
  }

  // ---- Storing bytes, one after another ----------------------------------------------------------

  /** The host after the first n bytes of `data` are stored at the addresses `at`. */
  function Stored(host: Host, at: seq<int>, data: seq<bv8>, n: nat): Host
    requires n <= |at| && n <= |data|
  {
    if n == 0 then host else Stored(host, at, data, n - 1)[at[n - 1] := data[n - 1]]
  }

  /** Where two addresses are the same, so are the bytes for them; in particular where no two are the same. */
  ghost predicate Compatible(at: seq<int>, data: seq<bv8>)
    requires |at| == |data|
  {
    forall j, k :: 0 <= j < k < |at| && at[j] == at[k] ==> data[j] == data[k]
  }

  /** What was stored can be read back. */
  lemma {:induction false} ReadsBack(host: Host, at: seq<int>, data: seq<bv8>, n: nat, i: nat)
    requires i < n <= |at| == |data| && Compatible(at, data)
    ensures Peek(Stored(host, at, data, n), at[i]) == data[i]
  {
    if i < n - 1 {
      ReadsBack(host, at, data, n - 1, i);
    }
  }

  /** Nothing else changes. */
  lemma {:induction false} StoredElsewhere(host: Host, at: seq<int>, data: seq<bv8>, n: nat, u: int)
    requires n <= |at| && n <= |data| && u !in at
    ensures Peek(Stored(host, at, data, n), u) == Peek(host, u)
  {
    if n > 0 {
      StoredElsewhere(host, at, data, n - 1, u);
    }
  }

  // ---- The source's way --------------------------------------------------------------------------

  /** The part of a range that one chunk holds, in bytes from the start of its first page: the arithmetic of
      gpa_space_map_range. */
  function Mapped(slot: Slot, chunkSize: nat, inChunk: nat, gpa: nat, len: nat): int {
    var gfn := gpa / PAGE_SIZE;
    var wanted := len + gpa % PAGE_SIZE;
    var npages := (wanted + PAGE_SIZE - 1) / PAGE_SIZE;
    var size := if gfn + npages > slot.End() then (slot.End() - gfn) * PAGE_SIZE else wanted;
    if inChunk + size > chunkSize then chunkSize - inChunk else size
  }

  /** It is at least one byte beyond the offset in the page, no more than asked for, and stays in the slot. */
  lemma MappedIs(slot: Slot, chunkSize: nat, inChunk: nat, gpa: nat, len: nat)
    requires slot.Covers(gpa / PAGE_SIZE) && len > 0
    requires inChunk < chunkSize && inChunk % PAGE_SIZE == 0 && chunkSize % PAGE_SIZE == 0
    ensures var n := Mapped(slot, chunkSize, inChunk, gpa, len) - gpa % PAGE_SIZE;
            0 < n <= len && gpa + n <= slot.End() * PAGE_SIZE
  {
  }

  /** What the host grants: pinning a chunk, mapping it into the kernel. */
  datatype Grant = Grant(pins: bool, maps: bool)

  /** Memory is there, and the host grants what it takes to get at it. */
  ghost predicate Granted(m: Memory, gpa: nat, grant: Grant) {
    Pins(m, gpa / PAGE_SIZE, grant.pins) && grant.maps
  }

  /** gpa_space_map_range: how many bytes can be reached, and where they are. */
  method MapRange(vm: Vm, gpa: nat, len: nat, grant: Grant) returns (ret: Errno, n: nat, uva: nat, writable: bool)
    requires vm.Covering() && Inv(vm.Now())
    modifies vm.space`blocks
    ensures vm.Covering() && Inv(vm.Now()) && InPlace(old(vm.space.blocks), vm.space.blocks)
    ensures ret == OK ==> n <= len && (len > 0 ==> n > 0) && Piece(vm.space.slots, vm.space.blocks, gpa, uva, n)
    ensures ret == OK && len > 0 ==>
              KindAt(vm.space.slots, gpa / PAGE_SIZE).Some? && writable == !KindAt(vm.space.slots, gpa / PAGE_SIZE).value.readonly
    ensures ret == EINVAL <==> len > 0 && KindAt(vm.space.slots, gpa / PAGE_SIZE).None?
    ensures ret == OK <==> len == 0 || Granted(old(vm.Now()), gpa, grant)
    ensures ret != OK ==> !Granted(vm.Now(), gpa, grant)
    ensures ret == OK || ret == EINVAL || ret == ENOMEM
  {
    n, uva, writable := 0, 0, false;
    if len == 0 {
      return OK, n, uva, writable;
    }
    var gfn := gpa / PAGE_SIZE;
    var slot := Find(vm.space.slots, gfn);
    if slot.None? {
      return EINVAL, n, uva, writable;
    }
    var i := slot.value;
    var s := vm.space.slots[i];
    writable := !s.flags.readonly;
    ret, n, uva := MapInSlot(vm, i, gpa, len, grant);
  }

  /** ramblock_get_chunk for page gfn of slot i. */
  method PinPage(vm: Vm, i: nat, gfn: nat, pins: bool) returns (ok: bool, index: nat)
    requires vm.Covering() && Inv(vm.Now()) && i < |vm.space.slots| && vm.space.slots[i].Covers(gfn)
    modifies vm.space`blocks
    ensures vm.Covering() && Inv(vm.Now()) && InPlace(old(vm.space.blocks), vm.space.blocks)
    ensures ok <==> Pins(old(vm.Now()), gfn, pins)
    ensures !ok ==> vm.Now() == old(vm.Now())
    ensures ok ==> Holds(vm.space.slots[i], vm.space.blocks, gfn, index)
  {
    var start := gfn * PAGE_SIZE;
    assert start / PAGE_SIZE == gfn;
    ghost var ms, steps;
    ok, index, ms, steps := vm.PinFor(i, start, pins);
  }

  /** Chunk `index` of the slot's block is pinned, and is the one that holds page gfn. */
  ghost predicate Holds(s: Slot, blocks: map<BlockId, Block>, gfn: nat, index: nat) {
    && s.block in blocks && index in blocks[s.block].chunks
    && index == (s.offset + (gfn - s.base) * PAGE_SIZE) / CHUNK_SIZE
  }

  /** The part of a range that lies in slot i. */
  method MapInSlot(vm: Vm, i: nat, gpa: nat, len: nat, grant: Grant) returns (ret: Errno, n: nat, uva: nat)
    requires vm.Covering() && Inv(vm.Now()) && len > 0
    requires i < |vm.space.slots| && vm.space.slots[i].Covers(gpa / PAGE_SIZE)
    modifies vm.space`blocks
    ensures vm.Covering() && Inv(vm.Now()) && InPlace(old(vm.space.blocks), vm.space.blocks)
    ensures ret == OK ==> 0 < n <= len && Piece(vm.space.slots, vm.space.blocks, gpa, uva, n)
    ensures ret == OK || ret == ENOMEM
    ensures ret == OK <==> Granted(old(vm.Now()), gpa, grant)
    ensures ret != OK ==> !Granted(vm.Now(), gpa, grant)
  {
    n, uva := 0, 0;
    var gfn := gpa / PAGE_SIZE;
    var ok, index := PinPage(vm, i, gfn, grant.pins);
    if !ok || !grant.maps {
      return ENOMEM, n, uva;
    }
    ret := OK;
    n, uva := MapInChunk(vm.Now(), vm.space.slots[i], i, vm.space.blocks, index, gfn, gpa, len);
  }

  /** The part of it that lies in a pinned chunk. */
  method MapInChunk(ghost m: Memory, s: Slot, ghost i: nat, blocks: map<BlockId, Block>, index: nat, gfn: nat, gpa: nat, len: nat)
    returns (n: nat, uva: nat)
    requires Inv(m) && i < |m.slots| && s == m.slots[i] && blocks == m.ram.blocks && gfn == gpa / PAGE_SIZE
    requires s.Covers(gfn) && Holds(s, blocks, gfn, index) && len > 0
    ensures 0 < n <= len && Piece(m.slots, blocks, gpa, uva, n)
  {
    var block := blocks[s.block];
    var chunk := block.chunks[index];
    var offset := s.offset + (gfn - s.base) * PAGE_SIZE;
    var inChunk := offset - (chunk.baseUva - block.baseUva);
    ChunkHolds(m, i, index, gfn, chunk, block, offset, inChunk);
    n, uva := RangeIn(m, i, gpa, len, s, block, chunk, offset, inChunk);
  }

  method RangeIn(ghost m: Memory, ghost i: nat, gpa: nat, len: nat, s: Slot, block: Block, chunk: Chunk, offset: nat, inChunk: nat)
    returns (n: nat, uva: nat)
    requires Ordered(m.slots) && i < |m.slots| && s == m.slots[i] && s.block in m.ram.blocks && block == m.ram.blocks[s.block]
    requires s.Covers(gpa / PAGE_SIZE) && len > 0 && offset == s.offset + (gpa / PAGE_SIZE - s.base) * PAGE_SIZE
    requires inChunk < chunk.size && inChunk % PAGE_SIZE == 0 && chunk.size % PAGE_SIZE == 0
    ensures 0 < n <= len && Piece(m.slots, m.ram.blocks, gpa, uva, n)
  {
    MappedIs(s, chunk.size, inChunk, gpa, len);
    n := Mapped(s, chunk.size, inChunk, gpa, len) - gpa % PAGE_SIZE;
    uva := block.baseUva + offset + gpa % PAGE_SIZE;
    PieceOfSlot(m.slots, m.ram.blocks, i, gpa, n, uva);
  }

  lemma ChunkHolds(m: Memory, i: nat, index: nat, gfn: nat, chunk: Chunk, block: Block, offset: nat, inChunk: int)
    requires Inv(m) && i < |m.slots| && m.slots[i].Covers(gfn) && Holds(m.slots[i], m.ram.blocks, gfn, index)
    requires block == m.ram.blocks[m.slots[i].block] && chunk == block.chunks[index]
    requires offset == m.slots[i].offset + (gfn - m.slots[i].base) * PAGE_SIZE
    requires inChunk == offset - (chunk.baseUva - block.baseUva)
    ensures 0 <= inChunk < chunk.size && inChunk % PAGE_SIZE == 0 && chunk.size % PAGE_SIZE == 0
  {
    InvChunk(m, i, index);
    PageInChunk(m.slots[i], block, index, chunk, gfn, inChunk);
  }

  // ---- Virtual addresses -------------------------------------------------------------------------

  /** Host addresses that are one piece are found one after another. */
  ghost predicate Run(pages: Pages, slots: seq<Slot>, blocks: map<BlockId, Block>, va: nat, uva: nat, n: nat) {
    forall v: nat :: va <= v < va + n ==> Reach(pages, slots, blocks, v) == Some(uva + (v - va))
  }

  /** Up to the end of the page, a piece of physical memory is one of virtual memory. */
  lemma RunInPage(pages: Pages, slots: seq<Slot>, blocks0: map<BlockId, Block>, blocks: map<BlockId, Block>,
                  va: nat, gpa: nat, uva: nat, n: nat)
    requires GpaAt(pages, va) == Some(gpa) && n <= PAGE_SIZE - va % PAGE_SIZE
    requires Piece(slots, blocks, gpa, uva, n) && InPlace(blocks0, blocks)
    ensures Run(pages, slots, blocks0, va, uva, n)
  {
    forall v: nat | va <= v < va + n ensures Reach(pages, slots, blocks0, v) == Some(uva + (v - va)) {
      SamePage(va, v);
      var g := gpa + (v - va);
      assert GpaAt(pages, v) == Some(g);
      assert UvaAt(slots, blocks, g) == Some(uva + (g - gpa));
      UvaStays(slots, blocks0, blocks, g);
    }
  }

  lemma SamePage(va: nat, v: nat)
    requires va <= v < va + (PAGE_SIZE - va % PAGE_SIZE)
    ensures v / PAGE_SIZE == va / PAGE_SIZE && v % PAGE_SIZE == va % PAGE_SIZE + (v - va)
  {
  }

  /** The byte is in a slot that is not read-only. */
  ghost predicate Writable(pages: Pages, slots: seq<Slot>, va: nat) {
    match GpaAt(pages, va)
    case None => false
    case Some(gpa) =>
      var kind := KindAt(slots, gpa / PAGE_SIZE);
      kind.Some? && !kind.value.readonly
  }

  ghost predicate AllWritable(pages: Pages, slots: seq<Slot>, va: nat, n: nat) {
    forall v: nat :: va <= v < va + n ==> Writable(pages, slots, v)
  }

  /** One byte of a page is as writable as another. */
  lemma WritableInPage(pages: Pages, slots: seq<Slot>, va: nat, n: nat)
    requires n <= PAGE_SIZE - va % PAGE_SIZE && Writable(pages, slots, va)
    ensures AllWritable(pages, slots, va, n)
  {
    forall v: nat | va <= v < va + n ensures Writable(pages, slots, v) {
      SamePage(va, v);
      var frame := pages(va / PAGE_SIZE).value;
      InFrame(frame, va % PAGE_SIZE);
      InFrame(frame, v % PAGE_SIZE);
    }
  }

  lemma InFrame(frame: nat, offset: nat)
    requires offset < PAGE_SIZE
    ensures (frame * PAGE_SIZE + offset) / PAGE_SIZE == frame
  {
  }

  /** What can be read at a virtual address, byte by byte. */
  ghost predicate Reads(pages: Pages, slots: seq<Slot>, blocks: map<BlockId, Block>, host: Host, addr: nat, data: seq<bv8>) {
    forall v: nat :: addr <= v < addr + |data| ==>
      Reach(pages, slots, blocks, v).Some? && data[v - addr] == Peek(host, Reach(pages, slots, blocks, v).value)
  }

  /** How a copy ends: with all its bytes, in a page fault, or with the vCPU stopped because the physical
      address cannot be reached (or not be written). */
  datatype Ending = Complete | PageFault | Panic

  /** What the host grants for the page at a virtual address. */
  type Grants = nat -> Grant

  /** How the next piece of a range ends, and so why a copy stops short at virtual address va. */
  ghost function NextEnding(pages: Pages, m: Memory, grants: Grants, va: nat): Ending {
    match GpaAt(pages, va)
    case None => PageFault
    case Some(gpa) => if Granted(m, gpa, grants(va)) then Complete else Panic
  }

  /** vcpu_translate with its length clamp, then gpa_space_map_range: the next piece of a range. */
  method NextPiece(vm: Vm, pages: Pages, grants: Grants, va: nat, left: nat, ghost blocks0: map<BlockId, Block>)
    returns (ending: Ending, n: nat, uva: nat, writable: bool)
    requires vm.Covering() && Inv(vm.Now()) && left > 0 && InPlace(blocks0, vm.space.blocks)
    modifies vm.space`blocks
    ensures vm.Covering() && Inv(vm.Now()) && InPlace(blocks0, vm.space.blocks)
    ensures ending == Complete ==> 0 < n <= left && Run(pages, vm.space.slots, blocks0, va, uva, n)
    ensures ending == Complete ==> writable == Writable(pages, vm.space.slots, va)
    ensures ending == Complete && writable ==> AllWritable(pages, vm.space.slots, va, n)
    ensures ending == NextEnding(pages, old(vm.Now()), grants, va)
    ensures ending != Complete ==> ending == NextEnding(pages, vm.Now(), grants, va)
  {
    n, uva, writable := 0, 0, false;
    var gpa := GpaAt(pages, va);
    if gpa.None? {
      return PageFault, n, uva, writable;
    }
    var extend := PAGE_SIZE - va % PAGE_SIZE;
    var len := if left > extend then extend else left;
    var ret;
    ret, n, uva, writable := MapRange(vm, gpa.value, len, grants(va));
    if ret != OK {
      return Panic, n, uva, writable;
    }
    ending := Complete;
    RunInPage(pages, vm.space.slots, blocks0, vm.space.blocks, va, gpa.value, uva, n);
    if writable {
      WritableInPage(pages, vm.space.slots, va, n);
    }
  }

  /** The bytes of one piece of host memory. */
  function Bytes(host: Host, uva: nat, n: nat): (data: seq<bv8>)
    ensures |data| == n && forall j :: 0 <= j < n ==> data[j] == Peek(host, uva + j)
  {
    seq(n, j requires 0 <= j < n => Peek(host, uva + j))
  }

  lemma ReadsMore(pages: Pages, slots: seq<Slot>, blocks: map<BlockId, Block>, host: Host, addr: nat, data: seq<bv8>,
                  va: nat, uva: nat, more: seq<bv8>)
    requires Reads(pages, slots, blocks, host, addr, data) && va == addr + |data|
    requires Run(pages, slots, blocks, va, uva, |more|) && more == Bytes(host, uva, |more|)
    ensures Reads(pages, slots, blocks, host, addr, data + more)
  {
  }

  /** vcpu_read_guest_virtual: however far the copy gets, byte i comes from the translation of addr + i; va is
      the address that faults (CR2). */
  method ReadVirtual(vm: Vm, host: Host, pages: Pages, grants: Grants, addr: nat, size: nat)
    returns (ending: Ending, data: seq<bv8>, va: nat)
    requires vm.Covering() && Inv(vm.Now())
    modifies vm.space`blocks
    ensures vm.Covering() && Inv(vm.Now()) && InPlace(old(vm.space.blocks), vm.space.blocks)
    ensures |data| <= size && (ending == Complete <==> |data| == size)
    ensures Reads(pages, vm.space.slots, old(vm.space.blocks), host, addr, data)
    ensures va == addr + |data| && (ending != Complete ==> ending == NextEnding(pages, vm.Now(), grants, va))
  {
    data, va := [], addr;
    ghost var blocks0 := vm.space.blocks;
    while |data| < size
      invariant |data| <= size && va == addr + |data|
      invariant vm.Covering() && Inv(vm.Now()) && InPlace(blocks0, vm.space.blocks)
      invariant Reads(pages, vm.space.slots, blocks0, host, addr, data)
    {
      var n, uva, writable;
      ending, n, uva, writable := NextPiece(vm, pages, grants, va, size - |data|, blocks0);
      if ending != Complete {
        return;
      }
      var more := Bytes(host, uva, n);
      ReadsMore(pages, vm.space.slots, blocks0, host, addr, data, va, uva, more);
      data, va := data + more, va + n;
    }
    ending := Complete;
  }

  /** The host addresses of a range of virtual memory. */
  ghost function Addresses(pages: Pages, slots: seq<Slot>, blocks: map<BlockId, Block>, addr: nat, size: nat): (at: seq<int>)
    ensures |at| == size
    ensures forall i: nat :: i < size && Reach(pages, slots, blocks, addr + i).Some? ==>
              at[i] == Reach(pages, slots, blocks, addr + i).value
  {
    seq(size, i requires 0 <= i < size =>
      if Reach(pages, slots, blocks, addr + i).Some? then Reach(pages, slots, blocks, addr + i).value else 0)
  }

  /** Every byte of a range has a host address. */
  ghost predicate Reached(pages: Pages, slots: seq<Slot>, blocks: map<BlockId, Block>, addr: nat, size: nat) {
    forall v: nat :: addr <= v < addr + size ==> Reach(pages, slots, blocks, v).Some?
  }

  /** The addresses of a run follow one another. */
  lemma AddressesRun(pages: Pages, slots: seq<Slot>, blocks: map<BlockId, Block>, addr: nat, size: nat, at: seq<int>,
                     offset: nat, va: nat, uva: nat, n: nat, end: nat)
    requires at == Addresses(pages, slots, blocks, addr, size) && va == addr + offset && end == offset + n <= size
    requires Run(pages, slots, blocks, va, uva, n) && Reached(pages, slots, blocks, addr, offset)
    ensures Consecutive(at, offset, uva, end) && Reached(pages, slots, blocks, addr, end)
  {
    forall j | offset <= j < end ensures at[j] == uva + (j - offset) {
      var v := addr + j;
      assert Reach(pages, slots, blocks, v) == Some(uva + (v - va));
    }
  }

  ghost predicate Consecutive(at: seq<int>, offset: nat, uva: nat, end: nat)
    requires end <= |at|
  {
    forall j :: offset <= j < end ==> at[j] == uva + (j - offset)
  }

  /** memcpy of one piece. */
  method StorePiece(host1: Host, data: seq<bv8>, offset: nat, end: nat, uva: nat, ghost host0: Host, ghost at: seq<int>)
    returns (host: Host)
    requires offset <= end <= |data| == |at| && Consecutive(at, offset, uva, end)
    requires host1 == Stored(host0, at, data, offset)
    ensures host == Stored(host0, at, data, end)
  {
    host := host1;
    var i := offset;
    while i < end
      invariant offset <= i <= end
      invariant host == Stored(host0, at, data, i)
    {
      assert at[i] == uva + (i - offset);
      host := host[uva + (i - offset) := data[i]];
      i := i + 1;
    }
  }

  /** The first `done` bytes have gone, in order, to the translations of their addresses, and nowhere else; none of
      them is in read-only memory. */
  ghost predicate Writes(pages: Pages, slots: seq<Slot>, blocks: map<BlockId, Block>, host0: Host, host: Host, addr: nat,
                         data: seq<bv8>, done: nat) {
    && done <= |data| && Reached(pages, slots, blocks, addr, done) && AllWritable(pages, slots, addr, done)
    && host == Stored(host0, Addresses(pages, slots, blocks, addr, |data|), data, done)
  }

  method WritePiece(host1: Host, data: seq<bv8>, done: nat, n: nat, uva: nat, ghost va: nat, ghost host0: Host,
                    ghost pages: Pages, ghost slots: seq<Slot>, ghost blocks: map<BlockId, Block>, ghost addr: nat)
    returns (host: Host, end: nat)
    requires Writes(pages, slots, blocks, host0, host1, addr, data, done)
    requires done + n <= |data| && va == addr + done && Run(pages, slots, blocks, va, uva, n)
    requires AllWritable(pages, slots, va, n)
    ensures end == done + n && Writes(pages, slots, blocks, host0, host, addr, data, end)
  {
    end := done + n;
    ghost var at := Addresses(pages, slots, blocks, addr, |data|);
    AddressesRun(pages, slots, blocks, addr, |data|, at, done, va, uva, n, end);
    host := StorePiece(host1, data, done, end, uva, host0, at);
  }

  /** vcpu_write_guest_virtual: however far the copy gets, exactly the bytes up to there have been written. */
  method WriteVirtual(vm: Vm, host0: Host, pages: Pages, grants: Grants, addr: nat, data: seq<bv8>)
    returns (ending: Ending, done: nat, host: Host, va: nat)
    requires vm.Covering() && Inv(vm.Now())
    modifies vm.space`blocks
    ensures vm.Covering() && Inv(vm.Now()) && InPlace(old(vm.space.blocks), vm.space.blocks)
    ensures done <= |data| && (ending == Complete <==> done == |data|)
    ensures Writes(pages, vm.space.slots, old(vm.space.blocks), host0, host, addr, data, done)
    ensures va == addr + done
    ensures ending != Complete ==>
              ending == if Writable(pages, vm.space.slots, va) then NextEnding(pages, vm.Now(), grants, va)
                        else if GpaAt(pages, va).None? then PageFault else Panic
  {
    host, done, va := host0, 0, addr;
    ghost var blocks0 := vm.space.blocks;
    while done < |data|
      invariant done <= |data| && va == addr + done
      invariant vm.Covering() && Inv(vm.Now()) && InPlace(blocks0, vm.space.blocks)
      invariant Writes(pages, vm.space.slots, blocks0, host0, host, addr, data, done)
    {
      var n, uva, writable;
      ending, n, uva, writable := NextPiece(vm, pages, grants, va, |data| - done, blocks0);
      if ending != Complete {
        return;
      }
      if !writable {
        ending := Panic;
        return;
      }
      host, done := WritePiece(host, data, done, n, uva, va, host0, pages, vm.space.slots, blocks0, addr);
      va := va + n;
    }
    ending := Complete;
  }

  /** A range that has been written is read back as it was written exactly if bytes that meet in host memory are
      equal. */
  lemma RoundTrip(pages: Pages, slots: seq<Slot>, blocks: map<BlockId, Block>, host0: Host, host: Host, addr: nat,
                  data: seq<bv8>, read: seq<bv8>, at: seq<int>)
    requires at == Addresses(pages, slots, blocks, addr, |data|) && |read| == |data|
    requires Writes(pages, slots, blocks, host0, host, addr, data, |data|) && Reads(pages, slots, blocks, host, addr, read)
    ensures read == data <==> Compatible(at, data)
  {
    forall i | 0 <= i < |data| ensures read[i] == Peek(host, at[i]) {
      var v := addr + i;
      assert read[v - addr] == Peek(host, at[i]);
    }
    if Compatible(at, data) {
      forall i | 0 <= i < |data| ensures read[i] == data[i] {
        ReadsBack(host0, at, data, |data|, i);
      }
    }
  }
}
