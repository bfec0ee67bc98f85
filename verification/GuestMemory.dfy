/**
 The operations of a VM on its memory: mapping, protecting, and handling EPT violations. Each is shown
 to do what some steps of a run do, so what holds in every run holds after every sequence of calls.
 */
module GuestMemory {
  import opened Memslots
  import opened Surgery
  import opened Updates
  import opened Ramblocks
  import opened Leaves
  import opened Windows
  import opened Protection
  import opened Broadcasts
  import opened Coherence
  import opened Runs
  import opened GpaSpaces

  datatype Answer = Mmio | Handled | Failed(error: Errno)

  class Vm {
    const space: GpaSpace
    var bitmap: array<bv8>
    var endGfn: nat

    constructor ()
      ensures fresh(space) && fresh(bitmap) && Covering() && Init(Now())
    {
      space := new GpaSpace();
      bitmap := new bv8[0];
      endGfn := 0;
    }

    /** The bitmap has a bit for every gfn it covers. */
    predicate Covering()
      reads this, bitmap
    {
      endGfn <= 8 * bitmap.Length
    }

    ghost function Now(): Memory
      requires Covering()
      reads this, space, bitmap
    {
      Memory(space.slots, space.RamNow(), space.leaves, Guarded(bitmap[..], endGfn), endGfn)
    }

    /** gpa_space_adjust_prot_bitmap */
    method AdjustBitmap(end: nat) returns (ret: Errno)
      requires Covering()
      modifies this`bitmap, this`endGfn, space`memory
      ensures Covering() && (bitmap == old(bitmap) || fresh(bitmap))
      ensures ret == OK || ret == EINVAL || ret == ENOMEM
      ensures ret == EINVAL <==> end > old(endGfn) && BitmapSize(end) == 0
      ensures ret == ENOMEM <==> ret != EINVAL && old(space.memory) < MapNeeds(old(endGfn), end)
      ensures ret == OK ==> GrowStep(old(Now()), Now(), end) && space.memory == old(space.memory) - MapNeeds(old(endGfn), end)
      ensures ret != OK ==> Now() == old(Now()) && space.memory == old(space.memory)
    {
      if end <= endGfn {
        return OK;
      }
      var size := BitmapSize(end);
      if size == 0 {
        return EINVAL;
      }
      if space.memory == 0 {
        return ENOMEM;
      }
      space.memory := space.memory - 1;
      ghost var before := bitmap[..];
      var larger := new bv8[size];
      var i := 0;
      while i < bitmap.Length && i < size
        modifies larger
        invariant i <= bitmap.Length && i <= size && bitmap[..] == before
        invariant forall k :: 0 <= k < i ==> larger[k] == bitmap[k]
      {
        larger[i] := bitmap[i];
        i := i + 1;
      }
      bitmap := larger;
      GuardedGrows(before, bitmap[..], endGfn, end);
      endGfn := end;
      return OK;
    }

    /** gpa_space_protect_range; `perm` is the access left to the guest, as permission bits. */
    method ProtectRange(startGpa: nat, len: nat, perm: nat) returns (ret: Errno)
      requires Covering()
      modifies bitmap, space`leaves
      ensures Covering() && (ret == OK || ret == EINVAL)
      ensures ret == EINVAL <==> len == 0 || (perm != 0 && perm != 7) || (startGpa + len - 1) / PAGE_SIZE >= endGfn
      ensures ret == EINVAL ==> Now() == old(Now())
      ensures ret == OK ==>
                var first, last := startGpa / PAGE_SIZE, (startGpa + len - 1) / PAGE_SIZE;
                ProtectStep(old(Now()), Now(), first, last - first + 1, perm == 0)
    {
      if len == 0 {
        return EINVAL;
      }
      if perm != 0 && perm != 7 {
        return EINVAL;
      }
      var first, last := startGpa / PAGE_SIZE, (startGpa + len - 1) / PAGE_SIZE;
      if last >= endGfn {
        return EINVAL;
      }
      var npages := last - first + 1;
      ghost var before := bitmap[..];
      SetBitBlock(bitmap, first, npages, perm == 0);
      GuardedChanges(before, bitmap[..], endGfn, first, npages, perm == 0);
      if perm == 0 {
        space.Invalidate(first, npages);
      }
      return OK;
    }

    /** Pins a chunk of a block that is referred to. */
    method PinChunk(b: BlockId, offset: nat, pins: bool) returns (ok: bool, ghost ms: seq<Memory>, ghost steps: seq<Step>)
      requires Covering() && Inv(Now()) && b in space.blocks && b in space.counts && space.counts[b] > 0
      modifies space`blocks
      ensures Covering() && Takes(old(Now()), Now(), ms, steps)
      ensures Inv(Now()) && InPlace(old(space.blocks), space.blocks) && b in space.blocks
      ensures ok <==> offset < old(space.blocks)[b].size && CanPin(old(space.blocks)[b], offset / CHUNK_SIZE, pins)
      ensures if ok then offset / CHUNK_SIZE in space.blocks[b].chunks else space.blocks == old(space.blocks)
    {
      ghost var m := Now();
      ok := space.GetChunk(b, offset, pins);
      ghost var m' := Now();
      assert PinOrNot(m, m', b, offset / CHUNK_SIZE);
      PinOrNotKeeps(m, m', b, offset / CHUNK_SIZE);
      ms, steps := PinTakes(m, m', b, offset / CHUNK_SIZE);
    }

    /** Pins the chunk behind a gpa of slot i. */
    method PinFor(i: nat, gpa: nat, pins: bool) returns (ok: bool, index: nat, ghost ms: seq<Memory>, ghost steps: seq<Step>)
      requires Covering() && Inv(Now()) && i < |space.slots| && space.slots[i].Covers(gpa / PAGE_SIZE)
      modifies space`blocks
      ensures Covering() && Takes(old(Now()), Now(), ms, steps)
      ensures Inv(Now()) && InPlace(old(space.blocks), space.blocks)
      ensures space.slots[i].block in space.blocks
      ensures index == ChunkAt(space.slots[i], gpa / PAGE_SIZE)
      ensures ok <==> Pins(old(Now()), gpa / PAGE_SIZE, pins)
      ensures if ok then index in space.blocks[space.slots[i].block].chunks else space.blocks == old(space.blocks)
    {
      var s := space.slots[i];
      ghost var m := Now();
      SlotHeld(m, i, gpa / PAGE_SIZE);
      PinsIs(m, i, gpa / PAGE_SIZE, pins);
      var offset := s.offset + (gpa - s.base * PAGE_SIZE);
      index := offset / CHUNK_SIZE;
      SameChunk(s, gpa, offset, index);
      InBlock(m.slots[i], m.ram.blocks[s.block], gpa, offset);
      ok, ms, steps := PinChunk(s.block, offset, pins);
    }

    /** Creates the entries for the part of slot i that lies in a pinned chunk. */
    method FillFor(i: nat, gpa: nat, index: nat, tables: set<nat>) returns (ret: Errno, ghost ms: seq<Memory>, ghost step: Step)
      requires Covering() && Inv(Now()) && i < |space.slots| && space.slots[i].Covers(gpa / PAGE_SIZE)
      requires index == ChunkAt(space.slots[i], gpa / PAGE_SIZE)
      requires space.slots[i].block in space.blocks && index in space.blocks[space.slots[i].block].chunks
      requires forall h: nat :: h / CHUNK_PAGES == gpa / PAGE_SIZE / CHUNK_PAGES ==> h !in Now().guarded
      modifies space`leaves
      ensures Covering() && (ret == OK || ret == ENOMEM)
      ensures Takes(old(Now()), Now(), [old(Now()), Now()], [step])
      ensures step.Fill? && step.i == i && step.index == index && step.fault == gpa / PAGE_SIZE
      ensures ret == OK ==> step.n == |step.pfns|
      ensures ret == OK <==> TablesFor(step.start, |step.pfns|, tables)
    {
      var s := space.slots[i];
      var block := space.blocks[s.block];
      var chunk := block.chunks[index];
      var g := gpa / PAGE_SIZE;
      ghost var m := Now();
      PlanWindow(m, i, index, g);
      var w := WindowOf(s, block, chunk);
      var start, pfns := w.gpa / PAGE_SIZE, WindowPfns(w, chunk);
      WindowFills(m.slots, m.ram.blocks, i, index, start, pfns);
      var created;
      ghost var n;
      ret, created, n := space.CreateEntries(start, pfns, !s.flags.readonly, tables);
      ghost var m' := Now();
      step := Fill(i, index, g, start, pfns, n);
      FillTakes(m, m', step);
      ms := [m, m'];
    }

    /** Pins and maps what an access to slot i needs, when nothing around it is protected. */
    method MapFor(i: nat, gpa: nat, pins: bool, tables: set<nat>) returns (answer: Answer, ghost ms: seq<Memory>, ghost steps: seq<Step>)
      requires Covering() && Inv(Now()) && i < |space.slots| && space.slots[i].Covers(gpa / PAGE_SIZE)
      requires forall h: nat :: h / CHUNK_PAGES == gpa / PAGE_SIZE / CHUNK_PAGES ==> h !in Now().guarded
      modifies space`blocks, space`leaves
      ensures Covering() && Takes(old(Now()), Now(), ms, steps)
      ensures answer == Handled || answer == Failed(ENOMEM)
      ensures Pins(old(Now()), gpa / PAGE_SIZE, pins) ==> Tried(steps, gpa / PAGE_SIZE)
      ensures answer == Handled <==> Pins(old(Now()), gpa / PAGE_SIZE, pins) && Fills(steps, gpa / PAGE_SIZE, tables)
      ensures answer == Handled ==> gpa / PAGE_SIZE in space.leaves
    {
      ghost var m := Now();
      var ok, index;
      ok, index, ms, steps := PinFor(i, gpa, pins);
      if !ok {
        return Failed(ENOMEM), ms, steps;
      }
      ghost var m1 := Now();
      var ret;
      ghost var pair, step;
      ret, pair, step := FillFor(i, gpa, index, tables);
      ghost var m2 := Now();
      assert Next([m1, m2][0], [m1, m2][1], [step][0]);
      TakesOneMore(m, m1, ms, steps, m2, step);
      FillsLast(steps, step, gpa / PAGE_SIZE, tables);
      ms, steps := ms + [m2], steps + [step];
      if ret != OK {
        answer := Failed(ret);
        return;
      }
      LeafThere(m1, m2, step);
      answer := Handled;
    }

    /** Pins and maps what an access to slot i needs, unless a page of the frame around it is protected. */
    method MapUnprotected(i: nat, gpa: nat, pins: bool, tables: set<nat>)
      returns (answer: Answer, fault: nat, ghost ms: seq<Memory>, ghost steps: seq<Step>)
      requires Covering() && Inv(Now()) && i < |space.slots| && space.slots[i].Covers(gpa / PAGE_SIZE)
      modifies space`blocks, space`leaves
      ensures Covering() && Takes(old(Now()), Now(), ms, steps) && Inv(Now())
      ensures answer == Handled || answer == Failed(ENOMEM) || answer == Failed(EFAULT)
      ensures answer == Failed(EFAULT) <==> FrameGuarded(old(Now()).guarded, gpa / PAGE_SIZE)
      ensures answer == Failed(EFAULT) ==> fault in old(Now()).guarded && fault / CHUNK_PAGES == gpa / PAGE_SIZE / CHUNK_PAGES
      ensures !FrameGuarded(old(Now()).guarded, gpa / PAGE_SIZE) && Pins(old(Now()), gpa / PAGE_SIZE, pins) ==>
                Tried(steps, gpa / PAGE_SIZE)
      ensures answer == Handled <==>
                && !FrameGuarded(old(Now()).guarded, gpa / PAGE_SIZE) && Pins(old(Now()), gpa / PAGE_SIZE, pins)
                && Fills(steps, gpa / PAGE_SIZE, tables)
      ensures answer == Handled ==> gpa / PAGE_SIZE in space.leaves
    {
      var found;
      found, fault := ChunkProtected(bitmap, endGfn, gpa / PAGE_SIZE);
      if found {
        assert fault in Now().guarded;
        return Failed(EFAULT), fault, [Now()], [];
      }
      answer, ms, steps := MapFor(i, gpa, pins, tables);
      TakesKeeps(old(Now()), Now(), ms, steps, |ms| - 1);
    }

    /** ept_handle_access_violation. `present` says that the entry is there with some permission,
        `writable` that writing is among them, `write` that the access was a write; `pins` and `tables` say what the
        host can pin and which tables can be had. */
    method HandleViolation(gpa: nat, present: bool, writable: bool, write: bool, pins: bool, tables: set<nat>)
      returns (answer: Answer, fault: nat, ghost ms: seq<Memory>, ghost steps: seq<Step>)
      requires Covering() && Inv(Now())
      modifies space`blocks, space`leaves
      ensures Covering() && Takes(old(Now()), Now(), ms, steps)
      ensures answer == Mmio <==>
                KindAt(space.slots, gpa / PAGE_SIZE).None? || (present && write && !writable && RomAt(space.slots, gpa / PAGE_SIZE))
      ensures answer == Failed(EACCES) <==>
                KindAt(space.slots, gpa / PAGE_SIZE).Some? && present && !(write && !writable && RomAt(space.slots, gpa / PAGE_SIZE))
      ensures answer == Failed(EFAULT) <==>
                KindAt(space.slots, gpa / PAGE_SIZE).Some? && !present && FrameGuarded(old(Now()).guarded, gpa / PAGE_SIZE)
      ensures answer == Failed(EFAULT) ==> fault in old(Now()).guarded && fault / CHUNK_PAGES == gpa / PAGE_SIZE / CHUNK_PAGES
      ensures answer == Handled ==> gpa / PAGE_SIZE in space.leaves
      ensures KindAt(space.slots, gpa / PAGE_SIZE).Some? && !present && !FrameGuarded(old(Now()).guarded, gpa / PAGE_SIZE) ==>
                && (Pins(old(Now()), gpa / PAGE_SIZE, pins) ==> Tried(steps, gpa / PAGE_SIZE))
                && answer == if Pins(old(Now()), gpa / PAGE_SIZE, pins) && Fills(steps, gpa / PAGE_SIZE, tables) then Handled
                             else Failed(ENOMEM)
      ensures answer != Failed(EEXIST) && Inv(Now())
    {
      var g := gpa / PAGE_SIZE;
      ms, steps, fault := [Now()], [], 0;
      var slot := Find(space.slots, g);
      if slot.None? {
        return Mmio, fault, ms, steps;
      }
      var i := slot.value;
      RomIs(space.slots, i, g);
      if present {
        if write && !writable && space.slots[i].flags == Flags(true, false, false, 0) {
          return Mmio, fault, ms, steps;
        }
        return Failed(EACCES), fault, ms, steps;
      }
      answer, fault, ms, steps := MapUnprotected(i, gpa, pins, tables);
    }

    /** gpa_space_get_pfn */
    method GetPfn(g: nat, pins: bool) returns (pfn: Option<nat>, ghost ms: seq<Memory>, ghost steps: seq<Step>)
      requires Covering() && Inv(Now())
      modifies space`blocks
      ensures Covering() && Takes(old(Now()), Now(), ms, steps)
      ensures pfn.Some? <==> Pins(old(Now()), g, pins)
      ensures pfn.Some? ==> Translates(Now(), g, pfn.value)
    {
      var slot := Find(space.slots, g);
      if slot.None? {
        return None, [Now()], [];
      }
      pfn, ms, steps := PfnInSlot(slot.value, g, pins);
    }

    method PfnInSlot(i: nat, g: nat, pins: bool) returns (pfn: Option<nat>, ghost ms: seq<Memory>, ghost steps: seq<Step>)
      requires Covering() && Inv(Now()) && i < |space.slots| && space.slots[i].Covers(g)
      modifies space`blocks
      ensures Covering() && Takes(old(Now()), Now(), ms, steps)
      ensures pfn.Some? <==> Pins(old(Now()), g, pins)
      ensures pfn.Some? ==> Translates(Now(), g, pfn.value)
    {
      var gpa := g * PAGE_SIZE;
      assert gpa / PAGE_SIZE == g;
      var ok;
      var index: nat;
      ok, index, ms, steps := PinFor(i, gpa, pins);
      if !ok {
        return None, ms, steps;
      }
      var s := space.slots[i];
      var found := PfnInChunk(Now(), i, s, index, space.blocks[s.block].chunks[index], g);
      pfn := Some(found);
    }

    /** memslot_set_mapping, as a step. */
    method MapRange(start: nat, npages: nat, uva: nat, flags: Flags, id: BlockId) returns (ret: Errno, ghost step: Step)
      requires Covering() && Ordered(space.slots) && Sound(space.RamNow(), space.slots, [], multiset{})
      requires start + npages <= endGfn && id !in space.blocks && id != NO_BLOCK
      modifies space
      ensures Covering() && Sound(space.RamNow(), space.slots, [], multiset{})
      ensures step.Map? && (ret == OK || ret == EINVAL || ret == ENOMEM)
      ensures ret == EINVAL <==> Bad(old(space.blocks), npages, uva, flags, old(space.memory))
      ensures ret == ENOMEM <==>
                ret != EINVAL && old(space.memory) < Needs(old(space.slots), step.d, !flags.invalid) + BlockNeeds(flags)
      ensures ret == EINVAL ==> Now() == old(Now())
      ensures Concluded(ret, old(space.slots), old(space.blocks), old(space.leaves), step.d, step.valid,
                        space.slots, space.blocks, space.leaves)
      ensures Stepped(ret, old(Now()), Now(), start, npages, uva, flags, step)
    {
      ghost var m := Now();
      var events;
      ghost var d, blocks1;
      ret, events, d, blocks1 := space.SetMapping(start, npages, uva, flags, id);
      step := Map(d, !flags.invalid, uva, blocks1, events);
      MapIsStep(ret, m, Now(), start, npages, uva, flags, step);
    }

    /** handle_set_ram. A request that succeeds is the step it asks for, provided the host range is whole
        pages of one block and the request is one that takes effect as asked. */
    method SetRam(startGpa: nat, size: nat, uva: nat, flags: Flags, id: BlockId)
      returns (ret: Errno, ghost ms: seq<Memory>, ghost steps: seq<Step>, ghost step: Step)
      requires Covering() && Inv(Now()) && id !in space.blocks && id != NO_BLOCK
      modifies this`bitmap, this`endGfn, space
      ensures Covering() && Sound(space.RamNow(), space.slots, [], multiset{})
      ensures step.Map?
      ensures ret == EINVAL <==>
                || Malformed(size, uva, flags)
                || Refused(startGpa / PAGE_SIZE, size / PAGE_SIZE, uva, flags, old(endGfn), old(space.blocks), old(space.memory))
      ensures ret == ENOMEM <==>
                ret != EINVAL && Short(startGpa / PAGE_SIZE, size / PAGE_SIZE, flags, old(endGfn), old(space.slots), step.d, old(space.memory))
      ensures Answers(ret, old(Now()), Now(), startGpa / PAGE_SIZE, size / PAGE_SIZE, uva, flags, ms, steps, step)
    {
      ms, steps := [Now()], [];
      step := Map(Slot(startGpa / PAGE_SIZE, size / PAGE_SIZE, NO_BLOCK, 0, flags), !flags.invalid, uva, map[], []);
      if flags.invalid && (flags != Flags(false, false, true, 0) || uva != 0) {
        ret := EINVAL;
        return;
      }
      if (!flags.invalid && uva == 0) || size == 0 {
        ret := EINVAL;
        return;
      }
      ret, ms, steps, step := GrowAndMap(startGpa / PAGE_SIZE, size / PAGE_SIZE, uva, flags, id);
    }

    method GrowAndMap(start: nat, npages: nat, uva: nat, flags: Flags, id: BlockId)
      returns (ret: Errno, ghost ms: seq<Memory>, ghost steps: seq<Step>, ghost step: Step)
      requires Covering() && Inv(Now()) && id !in space.blocks && id != NO_BLOCK
      modifies this`bitmap, this`endGfn, space
      ensures Covering() && Sound(space.RamNow(), space.slots, [], multiset{})
      ensures step.Map? && (ret == OK || ret == EINVAL || ret == ENOMEM)
      ensures ret == EINVAL <==> Refused(start, npages, uva, flags, old(endGfn), old(space.blocks), old(space.memory))
      ensures ret == ENOMEM <==> ret != EINVAL && Short(start, npages, flags, old(endGfn), old(space.slots), step.d, old(space.memory))
      ensures Answers(ret, old(Now()), Now(), start, npages, uva, flags, ms, steps, step)
    {
      ghost var m := Now();
      ms, steps, step := [m], [], Map(Slot(start, npages, NO_BLOCK, 0, flags), !flags.invalid, uva, map[], []);
      var end := start + npages;
      ret := AdjustBitmap(end);
      if ret != OK {
        return;
      }
      ghost var m1 := Now();
      ret, step := MapRange(start, npages, uva, flags, id);
      ms, steps := GrownThenMapped(ret, m, m1, Now(), start, npages, uva, flags, step);
    }

    /** ept_handle_misconfiguration, as far as the leaf is concerned: the number of entries fixed or, negative, of
        those that cannot be. Where the EPT is coherent there is nothing to fix. */
    method HandleMisconfiguration(gpa: nat) returns (ret: int)
      requires Covering() && Ordered(space.slots)
      modifies space`leaves
      ensures Covering() && Next(old(Now()), Now(), Fix(gpa / PAGE_SIZE))
      ensures var g := gpa / PAGE_SIZE;
              ret == if g in old(space.leaves) && Unfixable(KindAt(space.slots, g).Some?, old(space.leaves)[g].pfn) then -1
                     else if space.leaves != old(space.leaves) then 1 else 0
      ensures old(Inv(Now())) ==> Now() == old(Now())
    {
      var g := gpa / PAGE_SIZE;
      ghost var m := Now();
      var slot := Find(space.slots, g);
      ret := 0;
      if g in space.leaves {
        var leaf := space.leaves[g];
        if slot.None? {
          ret := if leaf.pfn != 0 then -1 else 1;
          if leaf.pfn == 0 {
            space.leaves := space.leaves - {g};
          }
        } else {
          ret := FixLeaf(g, leaf, !space.slots[slot.value].flags.readonly);
        }
      }
      assert Now() == m.(leaves := FixedLeaves(m, g));
      if Inv(m) {
        FixChangesNothing(m, g);
      }
    }

    /** fix_epte on a leaf that a slot covers. */
    method FixLeaf(g: nat, leaf: Leaf, writable: bool) returns (ret: int)
      requires g in space.leaves && space.leaves[g] == leaf
      modifies space`leaves
      ensures space.leaves == if leaf.pfn >= FRAME_LIMIT then old(space.leaves) else old(space.leaves)[g := Leaf(leaf.pfn, writable)]
      ensures ret == if leaf.pfn >= FRAME_LIMIT then -1 else if space.leaves != old(space.leaves) then 1 else 0
    {
      if leaf.pfn >= FRAME_LIMIT {
        return -1;
      }
      ret := if leaf.writable != writable then 1 else 0;
      space.leaves := space.leaves[g := Leaf(leaf.pfn, writable)];
      assert ret == 1 ==> space.leaves[g] != old(space.leaves)[g];
    }

    /** hax_vm_add_ramblock */
    method AddRam(uva: nat, size: nat, id: BlockId) returns (ret: Errno)
      requires Covering() && Inv(Now()) && id !in space.blocks && id != NO_BLOCK
      modifies space`counts, space`blocks, space`order, space`memory
      ensures Covering() && (ret == OK || ret == EINVAL || ret == ENOMEM)
      ensures ret != OK ==> Now() == old(Now())
      ensures ret == ENOMEM <==> uva > 0 && size > 0 && old(space.memory) == 0
      ensures ret == EINVAL <==> uva == 0 || size == 0 || (old(space.memory) > 0 && Overlaps(old(space.blocks), uva, size))
      ensures ret == OK ==> Next(old(Now()), Now(), Step.AddRam) && Inv(Now())
      ensures ret == OK ==> space.blocks == old(space.blocks)[id := Block(uva, size, map[], false)]
    {
      if uva == 0 || size == 0 {
        return EINVAL;
      }
      ghost var m := Now();
      ret := space.AddBlock(uva, size, id);
      if ret == OK {
        AddRamKeeps(m, Now());
      }
    }
  }

  predicate Malformed(size: nat, uva: nat, flags: Flags) {
    size == 0 || if flags.invalid then flags != Flags(false, false, true, 0) || uva != 0 else uva == 0
  }

  /** The requests that are refused: for memory too far up, and those that the list of slots cannot take, once the bitmap
      is large enough. */
  ghost predicate Refused(start: nat, npages: nat, uva: nat, flags: Flags, endGfn: nat, blocks: map<BlockId, Block>, memory: nat) {
    var more := MapNeeds(endGfn, start + npages);
    || (start + npages > endGfn && BitmapSize(start + npages) == 0)
    || (memory >= more && Bad(blocks, npages, uva, flags, memory - more))
  }

  /** There is less memory than the bitmap, the slots and a block of the request's own need. */
  ghost predicate Short(start: nat, npages: nat, flags: Flags, endGfn: nat, slots: seq<Slot>, d: Slot, memory: nat) {
    memory < MapNeeds(endGfn, start + npages) + Needs(slots, d, !flags.invalid) + BlockNeeds(flags)
  }

  /** What a request to map comes to: nothing if it is refused, and if it succeeds the step it asks for. */
  ghost predicate Answers(ret: Errno, m: Memory, m': Memory, start: nat, npages: nat, uva: nat, flags: Flags,
                          ms: seq<Memory>, steps: seq<Step>, step: Step)
    requires step.Map?
  {
    && (ret == EINVAL ==> Takes(m, m', ms, steps))
    && Concluded(ret, m.slots, m.ram.blocks, m.leaves, step.d, step.valid, m'.slots, m'.ram.blocks, m'.leaves)
    && (ret == OK ==>
          && Requested(step.d, start, npages, uva, flags, step.blocks1)
          && step.valid == !flags.invalid && step.uva == uva
          && (flags.invalid || Proper(m.slots, step.blocks1, step.d) ==>
                Takes(m, m', ms, steps) && |steps| == 2 && steps[1] == step && Inv(m')))
  }

  /** A mapping that succeeds is what was asked for and, if it is proper, a step. */
  ghost predicate Stepped(ret: Errno, m: Memory, m': Memory, start: nat, npages: nat, uva: nat, flags: Flags, step: Step) {
    match ret
    case OK =>
      && step.Map? && Requested(step.d, start, npages, uva, flags, step.blocks1)
      && step.valid == !flags.invalid && step.uva == uva
      && (flags.invalid || Proper(m.slots, step.blocks1, step.d) ==> Next(m, m', step))
    case _ => true
  }

  lemma MapIsStep(ret: Errno, m: Memory, m': Memory, start: nat, npages: nat, uva: nat, flags: Flags, step: Step)
    requires step.Map? && step.valid == !flags.invalid && step.uva == uva && start + npages <= m.endGfn
    requires ret == OK ==>
               && npages > 0 && Requested(step.d, start, npages, uva, flags, step.blocks1) && Grown(m.ram.blocks, step.blocks1)
               && Performed(m.slots, step.blocks1, m.leaves, step.d, !flags.invalid, uva, m'.slots, m'.ram, m'.leaves, step.events)
    requires Sound(m'.ram, m'.slots, [], multiset{}) && m'.guarded == m.guarded && m'.endGfn == m.endGfn
    ensures Stepped(ret, m, m', start, npages, uva, flags, step)
  {
  }

  lemma GrownThenMapped(ret: Errno, m: Memory, m1: Memory, m2: Memory, start: nat, npages: nat, uva: nat, flags: Flags, step: Step)
    returns (ms: seq<Memory>, steps: seq<Step>)
    requires Inv(m) && GrowStep(m, m1, start + npages) && step.Map? && (ret == EINVAL ==> m2 == m1)
    requires Concluded(ret, m.slots, m.ram.blocks, m.leaves, step.d, step.valid, m2.slots, m2.ram.blocks, m2.leaves)
    requires Stepped(ret, m1, m2, start, npages, uva, flags, step)
    ensures Answers(ret, m, m2, start, npages, uva, flags, ms, steps, step)
  {
    var grow := Grow(start + npages);
    ms, steps := [m, m1], [grow];
    assert Takes(m, m1, ms, steps);
    if ret == OK && (flags.invalid || Proper(m.slots, step.blocks1, step.d)) {
      TakesOneMore(m, m1, ms, steps, m2, step);
      ms, steps := ms + [m2], steps + [step];
      TakesKeeps(m, m2, ms, steps, 2);
    }
  }

  /** A gfn is mapped, and the chunk behind it is pinned or can be. */
  ghost predicate Pins(m: Memory, g: nat, pins: bool) {
    match KindAt(m.slots, g)
    case None => false
    case Some(k) =>
      var index := TargetOf(k, g).offset / CHUNK_SIZE;
      k.block in m.ram.blocks && index >= 0 && CanPin(m.ram.blocks[k.block], index, pins)
  }

  lemma PinsIs(m: Memory, i: nat, g: nat, pins: bool)
    requires Inv(m) && i < |m.slots| && m.slots[i].Covers(g) && m.slots[i].block in m.ram.blocks
    ensures ChunkAt(m.slots[i], g) >= 0
    ensures Pins(m, g, pins) <==> CanPin(m.ram.blocks[m.slots[i].block], ChunkAt(m.slots[i], g), pins)
  {
    KindAtIndex(m.slots, i, g);
  }

  lemma InBlock(s: Slot, block: Block, gpa: nat, offset: nat)
    requires SlotFits(s, block) && s.Covers(gpa / PAGE_SIZE) && offset == s.offset + (gpa - s.base * PAGE_SIZE)
    ensures offset < block.size
  {
  }

  /** The last step fills the window around a page, as far as there are tables. */
  ghost predicate Tried(steps: seq<Step>, g: nat) {
    steps != [] && steps[|steps| - 1].Fill? && steps[|steps| - 1].fault == g
  }

  /** All its tables can be had. */
  ghost predicate Fills(steps: seq<Step>, g: nat, tables: set<nat>) {
    && Tried(steps, g)
    && TablesFor(steps[|steps| - 1].start, |steps[|steps| - 1].pfns|, tables)
  }

  lemma FillsLast(steps: seq<Step>, step: Step, g: nat, tables: set<nat>)
    requires step.Fill? && step.fault == g
    ensures Tried(steps + [step], g)
    ensures Fills(steps + [step], g, tables) <==> TablesFor(step.start, |step.pfns|, tables)
  {
    var all := steps + [step];
    assert all[|all| - 1] == step;
  }

  lemma LeafThere(m: Memory, m': Memory, step: Step)
    requires step.Fill? && Next(m, m', step) && step.n == |step.pfns|
    ensures step.fault in m'.leaves
  {
    FilledAt(m.leaves, step.start, step.pfns, !m.slots[step.i].flags.readonly, step.n, step.fault);
  }

  /** What a larger bitmap takes of the memory there is. */
  function MapNeeds(endGfn: nat, end: nat): nat {
    if end <= endGfn then 0 else 1
  }

  lemma PlanWindow(m: Memory, i: nat, index: nat, g: nat)
    requires Inv(m) && i < |m.slots| && m.slots[i].Covers(g)
    requires index == (m.slots[i].offset + (g - m.slots[i].base) * PAGE_SIZE) / CHUNK_SIZE
    requires m.slots[i].block in m.ram.blocks && index in m.ram.blocks[m.slots[i].block].chunks
    ensures var block := m.ram.blocks[m.slots[i].block];
            var chunk := block.chunks[index];
            && block.baseUva <= chunk.baseUva
            && (var w := WindowOf(m.slots[i], block, chunk);
                && w.size >= 0 && w.offset / PAGE_SIZE + w.size / PAGE_SIZE <= |chunk.pfns|
                && WindowIs(m.slots, m.ram.blocks, i, index, w.gpa / PAGE_SIZE, WindowPfns(w, chunk)))
  {
    var block := m.ram.blocks[m.slots[i].block];
    InvChunk(m, i, index);
    WindowSize(m.slots[i], block, index, block.chunks[index], g);
  }

  lemma FillTakes(m: Memory, m': Memory, step: Step)
    requires step.Fill? && Inv(m) && step.i < |m.slots| && step.n <= |step.pfns|
    requires FillsWindow(m.slots, m.ram.blocks, step.i, step.index, step.start, step.pfns)
    requires m.slots[step.i].Covers(step.fault)
    requires step.index == (m.slots[step.i].offset + (step.fault - m.slots[step.i].base) * PAGE_SIZE) / CHUNK_SIZE
    requires forall h: nat :: h / CHUNK_PAGES == step.fault / CHUNK_PAGES ==> h !in m.guarded
    requires m' == m.(leaves := Filled(m.leaves, step.start, step.pfns, !m.slots[step.i].flags.readonly, step.n))
    ensures Takes(m, m', [m, m'], [step])
    ensures forall j :: 0 <= j < |step.pfns| ==>
              !Clash(m.leaves, step.start + j, Leaf(step.pfns[j], !m.slots[step.i].flags.readonly))
  {
    FillKeeps(m.slots, m.ram.blocks, m.leaves, step.i, step.index, step.start, step.pfns, step.n, m'.leaves);
    assert Next(m, m', step);
  }

  lemma InvChunk(m: Memory, i: nat, index: nat)
    requires Inv(m) && i < |m.slots| && m.slots[i].block in m.ram.blocks && index in m.ram.blocks[m.slots[i].block].chunks
    ensures var block := m.ram.blocks[m.slots[i].block];
            SlotFits(m.slots[i], block) && ChunkOf(block, index, block.chunks[index])
  {
    SaneSlot(m.slots, m.ram.blocks, i);
  }

  /** Where a page of a slot is in its chunk. */
  lemma PageInChunk(s: Slot, block: Block, index: nat, chunk: Chunk, g: nat, inChunk: int)
    requires SlotFits(s, block) && ChunkOf(block, index, chunk) && s.Covers(g)
    requires index == (s.offset + (g - s.base) * PAGE_SIZE) / CHUNK_SIZE
    requires inChunk == s.offset + (g - s.base) * PAGE_SIZE - index * CHUNK_SIZE
    ensures inChunk == (s.offset + (g - s.base) * PAGE_SIZE) % CHUNK_SIZE
    ensures 0 <= inChunk < chunk.size && inChunk % PAGE_SIZE == 0 && inChunk / PAGE_SIZE < |chunk.pfns|
  {
    var offset := s.offset + (g - s.base) * PAGE_SIZE;
    OnPage(s.offset, g - s.base);
    assert offset < block.size;
    OffsetInChunk(offset, block.size, index, inChunk);
    WholePages(inChunk, chunk.size);
  }

  lemma OnPage(offset: nat, k: nat)
    requires offset % PAGE_SIZE == 0
    ensures (offset + k * PAGE_SIZE) % PAGE_SIZE == 0
  {
  }

  lemma OffsetInChunk(offset: nat, size: nat, index: nat, inChunk: int)
    requires offset % PAGE_SIZE == 0 && offset < size && index == offset / CHUNK_SIZE && inChunk == offset - index * CHUNK_SIZE
    ensures inChunk == offset % CHUNK_SIZE && inChunk % PAGE_SIZE == 0 && inChunk < ChunkSize(size, index)
  {
    var page := offset / PAGE_SIZE;
    assert inChunk == (page - index * CHUNK_PAGES) * PAGE_SIZE;
    ChunkReaches(size, index);
  }

  lemma WholePages(x: nat, size: nat)
    requires x < size && x % PAGE_SIZE == 0 && size % PAGE_SIZE == 0
    ensures x / PAGE_SIZE < size / PAGE_SIZE
  {
  }

  method PfnInChunk(ghost m: Memory, ghost i: nat, s: Slot, index: nat, chunk: Chunk, g: nat) returns (pfn: nat)
    requires Inv(m) && i < |m.slots| && s == m.slots[i] && s.Covers(g) && s.block in m.ram.blocks
    requires index in m.ram.blocks[s.block].chunks && chunk == m.ram.blocks[s.block].chunks[index] && index == ChunkAt(s, g)
    ensures Translates(m, g, pfn)
  {
    var inChunk := s.offset + (g - s.base) * PAGE_SIZE - index * CHUNK_SIZE;
    PagePfn(m, i, index, g, chunk, inChunk);
    pfn := chunk.pfns[inChunk / PAGE_SIZE];
  }

  /** The gfn is mapped to that frame, which is pinned, and the EPT does not say otherwise. */
  ghost predicate Translates(m: Memory, g: nat, pfn: nat) {
    && KindAt(m.slots, g).Some?
    && LeafAt(m.slots, m.ram.blocks, g) == Some(Leaf(pfn, !KindAt(m.slots, g).value.readonly))
    && (g in m.leaves ==> m.leaves[g].pfn == pfn)
  }

  lemma PagePfn(m: Memory, i: nat, index: nat, g: nat, chunk: Chunk, inChunk: int)
    requires Inv(m) && i < |m.slots| && m.slots[i].Covers(g) && m.slots[i].block in m.ram.blocks
    requires index in m.ram.blocks[m.slots[i].block].chunks && chunk == m.ram.blocks[m.slots[i].block].chunks[index]
    requires index == (m.slots[i].offset + (g - m.slots[i].base) * PAGE_SIZE) / CHUNK_SIZE
    requires inChunk == m.slots[i].offset + (g - m.slots[i].base) * PAGE_SIZE - index * CHUNK_SIZE
    ensures 0 <= inChunk / PAGE_SIZE < |chunk.pfns| && Translates(m, g, chunk.pfns[inChunk / PAGE_SIZE])
  {
    var s, block := m.slots[i], m.ram.blocks[m.slots[i].block];
    InvChunk(m, i, index);
    PageInChunk(s, block, index, chunk, g, inChunk);
    var page := inChunk / PAGE_SIZE;
    var offset := s.offset + (g - s.base) * PAGE_SIZE;
    PageTranslates(m, i, g, s, offset, chunk.pfns[page]);
  }

  lemma PageTranslates(m: Memory, i: nat, g: nat, s: Slot, offset: int, pfn: nat)
    requires Inv(m) && i < |m.slots| && s == m.slots[i] && s.Covers(g) && offset == s.offset + (g - s.base) * PAGE_SIZE
    requires PfnAt(m.ram.blocks, s.block, offset) == Some(pfn)
    ensures Translates(m, g, pfn)
  {
    KindAtIndex(m.slots, i, g);
    assert TargetOf(s.Kind(), g).offset == offset;
    if g in m.leaves {
      assert LeafAt(m.slots, m.ram.blocks, g) == Some(m.leaves[g]);
    }
  }

  /** The slot of a gfn is read-only and has no other flag. */
  ghost predicate RomAt(slots: seq<Slot>, g: nat) {
    exists i :: 0 <= i < |slots| && slots[i].Covers(g) && slots[i].flags == Flags(true, false, false, 0)
  }

  lemma RomIs(slots: seq<Slot>, i: nat, g: nat)
    requires Ordered(slots) && i < |slots| && slots[i].Covers(g)
    ensures RomAt(slots, g) <==> slots[i].flags == Flags(true, false, false, 0)
  {
    if RomAt(slots, g) {
      var j :| 0 <= j < |slots| && slots[j].Covers(g) && slots[j].flags == Flags(true, false, false, 0);
      assert i == j;
    }
  }

  /** Some page of the chunk-sized frame around a gfn is protected. */
  ghost predicate FrameGuarded(guarded: set<nat>, g: nat) {
    exists h :: h in guarded && h / CHUNK_PAGES == g / CHUNK_PAGES
  }

  lemma SlotHeld(m: Memory, i: nat, g: nat)
    requires Inv(m) && i < |m.slots| && m.slots[i].Covers(g)
    ensures m.slots[i].block in m.ram.blocks && m.slots[i].block in m.ram.counts && m.ram.counts[m.slots[i].block] > 0
    ensures SlotFits(m.slots[i], m.ram.blocks[m.slots[i].block])
  {
    SaneSlot(m.slots, m.ram.blocks, i);
    KindAtIndex(m.slots, i, g);
    ListHolds(m.ram, m.slots, g);
  }

  /** Asking for a chunk is a pin or nothing. */
  ghost predicate PinOrNot(m: Memory, m': Memory, b: BlockId, index: nat) {
    || m' == m
    || (&& b in m'.ram.blocks && index in m'.ram.blocks[b].chunks
        && PinStep(m, m', b, index, m'.ram.blocks[b].chunks[index]))
  }

  lemma PinOrNotKeeps(m: Memory, m': Memory, b: BlockId, index: nat)
    requires Inv(m) && PinOrNot(m, m', b, index)
    ensures Inv(m') && InPlace(m.ram.blocks, m'.ram.blocks)
  {
    if m' != m {
      PinKeeps(m, m', b, index, m'.ram.blocks[b].chunks[index]);
    }
  }

  lemma PinTakes(m: Memory, m': Memory, b: BlockId, index: nat) returns (ms: seq<Memory>, steps: seq<Step>)
    requires PinOrNot(m, m', b, index)
    ensures Takes(m, m', ms, steps)
  {
    if m' == m {
      ms, steps := [m], [];
    } else {
      var step := Pin(b, index, m'.ram.blocks[b].chunks[index]);
      assert Next(m, m', step);
      ms, steps := [m, m'], [step];
    }
  }

  /** Blocks stay where they are. */
  ghost predicate InPlace(blocks: map<BlockId, Block>, blocks': map<BlockId, Block>) {
    blocks.Keys == blocks'.Keys && forall b :: b in blocks ==> blocks'[b].baseUva == blocks[b].baseUva
  }

  /** All bytes of a page lie in the same chunk. */
  lemma SameChunk(s: Slot, gpa: nat, offset: nat, index: nat)
    requires s.offset % PAGE_SIZE == 0 && s.base <= gpa / PAGE_SIZE
    requires offset == s.offset + (gpa - s.base * PAGE_SIZE) && index == offset / CHUNK_SIZE
    ensures index == ChunkAt(s, gpa / PAGE_SIZE)
  {
  }

  lemma GuardedChanges(before: seq<bv8>, after: seq<bv8>, endGfn: nat, first: nat, npages: nat, on: bool)
    requires |before| == |after| && endGfn <= 8 * |before| && first + npages <= endGfn
    requires forall g: nat :: g < 8 * |before| ==> (Bit(after, g) <==> if first <= g < first + npages then on else Bit(before, g))
    ensures forall g: nat :: g in Guarded(after, endGfn) <==> if first <= g < first + npages then on else g in Guarded(before, endGfn)
  {
  }

  lemma GuardedGrows(bytes: seq<bv8>, larger: seq<bv8>, endGfn: nat, end: nat)
    requires endGfn <= 8 * |bytes| && endGfn <= end <= 8 * |larger|
    requires forall k :: 0 <= k < |bytes| && k < |larger| ==> larger[k] == bytes[k]
    ensures forall g: nat :: g < endGfn ==> (g in Guarded(larger, end) <==> g in Guarded(bytes, endGfn))
  {
  }
}
