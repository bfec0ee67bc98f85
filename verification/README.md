# A model of the HAXM hypervisor core

HAXM runs a guest with hardware virtualization. Its core keeps four views of guest memory in step (memory
slots, RAM blocks, the extended page tables, the protection bitmap), emulates instructions that touch devices,
and keeps registers and interrupts of a virtual processor between the hypervisor and the VMCS. The modules here
model that code in Dafny, in the form the source has: objects with fields that methods change, loops with
invariants, and pure functions where the source only computes. `dafny verify dfyconfig.toml` checks everything.

| module | what it models |
|---|---|
| `Memslots`, `Surgery`, `Updates` | the slot list as a map from guest frame numbers (gfns), and what a mapping request may do to it |
| `Ramblocks`, `Leaves`, `Windows`, `Protection` | reference-counted blocks, present EPT leaves, the part of a slot that lies in a chunk, the protection bitmap |
| `Broadcasts`, `Coherence` | what listeners are told, and why no leaf is left behind |
| `GpaSpaces` | class `GpaSpace`: `memslot_set_mapping` with its six handlers, the block list, the broadcast |
| `GuestMemory` | class `Vm`: the operations users and exits start, each proved to be a sequence of steps |
| `Runs`, `Limits` | every run of those steps; the inputs for which the simple reading of the code fails |
| `EptTree`, `EpteBits` | the radix tree with its table cache, and the bits of an entry |
| `TableProtocol`, `PinProtocol` | the two lock-free protocols, for any number of threads |
| `Emulator`, `Moves` | resumable emulation of the MOV family against a direct interpreter; what the interpreter computes, as numbers and bytes |
| `PageWalker`, `PageWords`, `GuestCopy` | the guest page walk against recursive paging; paging as arithmetic on 64-bit and 32-bit words; copies across pages, slots and chunks |
| `Interrupts`, `ControlRegs` | pending interrupts on their way to the guest; CR0 and CR4 behind mask and shadow |

The main results:

* **EPT coherence over every run** (`Runs.RunKeeps`, `Runs.LeafMeans`). In every reachable state a present leaf
  lies in a slot, points to the pinned frame behind it, and is writable exactly if the slot is not read-only;
  every reference is counted; the slot list is sorted, disjoint and canonical. The methods of `GuestMemory.Vm` are
  proved to take the steps of such runs; the requests of which that is not claimed are named under "Left out".
* **No moment of a broadcast leaves a leaf on an unpinned page** (`Coherence.TellCoherent`): a copy of a slot may only
  be given up once listeners have dropped the leaves that its reference alone holds, and
  `GpaSpaces.GpaSpace.ReleaseCopy` demands that of its caller. After the request has given up its own reference too, the
  same holds of every unmapping, and of a mapping exactly under the condition of `Coherence.PinnedIff`.
* **A mapping request is a point update, exactly if it is faithful** (`Updates.PointUpdateIffFaithful`). Listeners are
  told exactly what changed if it is; otherwise exactly under the condition of `Coherence.ReportsIff`.
* **Protected pages stay out of the EPT as long as every slot is tight** (`Runs.RunSeals`), and from every state with a
  slot that is not, some steps lead to one with a protected page in the EPT (`Limits.UntightLeaks`).
* **Tables are created once** (`TableProtocol.RunKeeps`): whatever the interleaving and whichever allocations fail, at
  most one page is allocated for an entry and nobody gets another one for a table.
* **A request fails for lack of memory exactly if fewer allocations are left than it needs**
  (`GpaSpaces.GpaSpace.SetMapping`): `Updates.Needs` counts them on the list before the call, and there are at most two more
  than slots. `EptTree.Tree.CreateEntries` takes exactly one page for each table that is missing, and stops for lack of
  them only if fewer are left.
* **A run of the emulator cut by device accesses is the direct interpreter** (`Emulator.Context.Drive`), and what that
  computes is the sign or zero extension of the source's number, put into exactly the bytes the operand has
  (`Moves.RegisterMove`, `Moves.LoadMeans`, `Moves.StoreMeans`).
* **The page walk is paging exactly where it does not go past a reserved bit it does not look at**
  (`PageWalker.FoundIsPaging`); and on words paging is the address arithmetic of the SDM (`PageWords.FourLevels`,
  `PageWords.PaeLevels`, `PageWords.TwoLevels`).
* **Interrupts reach the guest in the order of their priority** (`Interrupts.HighestFirst`): however the guest exits and
  whatever the handlers do, those delivered are the highest of those pending, from the highest down, and none is lost.
* **The tree is the map**: `EptTree.Tree.CreateEntries` and `EptTree.Tree.InvalidateEntries` do to the walk from
  the root what `GpaSpaces.GpaSpace.CreateEntries` and `Invalidate` do to the map of leaves.

Where the code does less than its comments suggest, the model follows the code and states the exact condition:

* In cases (4), (5), (7) and (8) of the figure at core/memslot.c:458-490 a swallowed slot of another type keeps its
  block and takes the smaller offset (`Limits.SwallowedKeepsBlock`). `Surgery.Faithful` is the condition, which a
  caller can evaluate on the list before the call.
* A leaf in the range of an unfaithful mapping stays where it is, unreported, if it already had the type asked for
  (`Limits.UntoldLeaf`): it no longer follows the map (`Coherence.FollowsIff` has the exact condition), and its page is
  unpinned exactly if, besides, nothing names the block any more (`Coherence.PinnedIff`).
* A request that runs out of memory may leave overlapping slots: in case (9), where the second of two insertions
  fails (`Limits.OverlapInside`), and where the primary node is stretched over slots that are still in the list.
  `Updates.Fragile` is the condition: for every other request the list stays in order
  (`GpaSpaces.GpaSpace.SetMapping`), and for every fragile one there is a call that ends with overlapping slots
  (`Limits.FragileFails`, `Updates.FragileIff`).
* Such a request tells nobody what it has done. Leaves outside its range are not affected
  (`Coherence.AbandonedCoherent`); one inside it may be left without a slot, on a page that is no longer pinned
  (`Limits.StrandedLeaf`).
* The protection check looks at the 2 MB frame of guest memory around an access, but the chunk that is then mapped
  may reach beyond it (noted at core/gpa_space.c:468-470). `Limits.SkewedLeaks` is a whole run that ends with a
  protected page in the EPT. `Runs.Tight` is the condition: guest and block addresses of the slot agree modulo 2 MB, or it
  lies in one such frame, or its first chunk on both sides of a frame boundary is not whole pages and cannot be pinned.
* `fix_epte` counts an error, and leaves the entry, exactly where the frame would change: for a leaf outside all slots,
  which the code means to clear, and for a frame beyond 36 address bits even if the leaf is good
  (`EpteBits.FixEpte`, `EpteBits.FixKeepsGoodLeaf`; frame number 2^24 is the first). And it does not set the memory
  type to write-back but joins it with it: a type with its lowest bit set becomes 7, which is reserved
  (`EpteBits.FixedMemType`).
* Accessed and dirty bits are set with a 64-bit exchange that is given 32-bit values: an entry is marked exactly if the
  32 bits after its low ones are zero, a PAE directory pointer met again at a lower level is missed, and a page of 1 GB
  is never marked as dirty (`PageWalker.Walker.Walk`).
* The page walker does not look at bit 7 of a PML4 entry (`PageWalker.Pml4SizeBitSlips`), at bits 5 to 8 of a PAE
  directory pointer, of which it takes bit 7 for a size bit (`PageWalker.PointerSizeBitSlips`), nor at whether the
  processor has pages of 1 GB; `PageWalker.Overlooked` names these bits. Its fault code never tells a fetch
  (`PageWords.CodeMeans`).
* After a failed page allocation a waiting thread can come away with something that is no table
  (`TableProtocol.FailureBreaks`); it does exactly if it goes on while the entry is not published and the cache not
  filled (`TableProtocol.UseExact`), which without a failure does not happen (`TableProtocol.DoneHasTable`).
* An interrupt that a failed VM entry leaves in the entry field need not fit the guest at the next one
  (`Interrupts.StaleInterrupt`); one that is put there afresh does, and what is there fits exactly if the guest is not
  blocked (`Interrupts.Vcpu.Prepare`).
* A written range reads back as written exactly if bytes that meet in host memory are equal (`GuestCopy.RoundTrip`).

## Model

| member | source | states |
|---|---|---|
| `Memslots.SameTypeIsSameKind` | core/memslot.c:436-443 | the type test holds exactly for slots that translate every gfn alike: same block, same distance between guest and block addresses, same read-only bit |
| `Memslots.SameTypeInWords` | core/memslot.c:436-443 | the wrap-around of the 64-bit subtraction and shift cannot make two types look the same |
| `Memslots.Find` | core/memslot.c:310-327 | the walk that stops early finds the slot covering a gfn, and none exactly if no slot covers it |
| `Memslots.CanonicalIsUnique` | core/memslot.c:436-456 | two canonical lists with the same translation have the same slots |
| `Surgery.UnionOfSameType` | core/memslot.c:383-391 | the union of two slots of one type translates like both |
| `Surgery.EffectiveIsRequested` | core/memslot.c:515-517 | the range gets the translation asked for exactly if the request is faithful |
| `Surgery.StartDiffOk` | core/memslot.c:492-548 | what takes the place of a primary node of another type puts the request right inside it, or leaves one slot from which the rest can be finished |
| `Surgery.StartSameOk` | core/memslot.c:550-574 | the same for a primary node of the request's own type |
| `Surgery.StartInvalidOk` | core/memslot.c:576-612 | the same for an unmapping |
| `Surgery.EndDiffOk` | core/memslot.c:637-666 | what takes the place of a last node of another type: the request up to its end, the node beyond it, nothing that could be merged |
| `Surgery.EndSameOk` | core/memslot.c:668-689 | the same for a last node of the request's own type, whether or not the slot before it already stands for the request |
| `Surgery.EndInvalidOk` | core/memslot.c:691-708 | an unmapping leaves of the last node exactly what lies beyond it |
| `Surgery.CanonicalIsMaximal` | core/memslot.c:436-456 | a list is canonical exactly if no slot could be longer |
| `Updates.PointUpdateIffFaithful` | core/memslot.c:158-308 | a request that succeeds gives its range the new translation and every other gfn the old one, if and only if it is faithful |
| `Updates.FinishAtStart` | core/memslot.c:230-261 | a request that ends inside the primary node is then done, and the list is canonical if it was |
| `Updates.FinishAtEnd` | core/memslot.c:262-285 | a request that ends in a later node is then done, with all slots in between gone |
| `Updates.FinishAtEndInvalid` | core/memslot.c:262-285 | the same for an unmapping |
| `Updates.FinishPastEnd` | core/memslot.c:262-294 | a request that ends in a gap, or after the last slot, is then done |
| `Updates.FinishBeyond` | core/memslot.c:216-244 | a request after every slot is then done |
| `Updates.FragileIff` | core/memslot.c:519-545 | whatever the list, what a request leaves when the first allocation after an edit fails has overlapping slots if and only if the request is fragile |
| `Updates.UnderwayElsewhere` | core/memslot.c:214-294 | at no point of a request, in order or not, has a gfn outside its range another translation |
| `Updates.NeedsBound` | core/memslot.c:214-294 | a request needs at most two allocations more than there are slots |
| `Ramblocks.TallyInsert` | core/memslot.c:329-366 | inserting a slot with its reference keeps every count equal to the number of references |
| `Ramblocks.TallyDelete` | core/memslot.c:368-373 | so does deleting a slot that a snapshot copy keeps, and the block stays |
| `Ramblocks.TallyMove` | core/memslot.c:375-381 | so does moving a slot to another block |
| `Ramblocks.TallyEnqueue` | core/memslot.c:710-723 | so does taking a snapshot copy |
| `Ramblocks.DerefDrops` | core/ramblock.c:420-449 | giving up a reference touches no block that is still referred to |
| `Ramblocks.DerefSettles` | core/ramblock.c:420-449 | a block without references is an ordinary one with no chunk pinned |
| `Ramblocks.DerefLists` | core/ramblock.c:420-449 | the block list stays sorted, disjoint, and names exactly the blocks there are |
| `Ramblocks.DerefSound` | core/ramblock.c:420-449 | counts, blocks and block list agree afterwards |
| `Ramblocks.AddSound` | core/ramblock.c:259-317 | a new block at its place keeps them in agreement |
| `Ramblocks.MarkSound` | core/memslot.c:175-200 | so does making a block stand-alone as it gets its first reference |
| `Leaves.FilledAt` | core/ept_tree.c:466-604 | creating n entries gives exactly those gfns the chunk's frames in order |
| `Windows.ChunkReaches` | core/ramblock.c:319-405 | a chunk ends at the next chunk boundary or at the end of the block, and is not empty |
| `Windows.WindowPages` | core/ept2.c:151-169 | the range mapped after a violation is whole pages |
| `Windows.WindowExact` | core/ept2.c:151-169 | a gfn is in that range exactly if it is in the slot and its page is in the chunk |
| `Windows.WindowPage` | core/ept2.c:151-169 | each gfn of it meets the chunk at its own page |
| `Protection.SetsThoseBits` | core/gpa_space.c:408-423 | the mask sets or clears exactly the bits asked for in a byte |
| `Protection.ByteAfterBit` | core/gpa_space.c:426-447 | first byte, middle bytes and last byte together change exactly the bits of the range |
| `Protection.SetBitBlock` | core/gpa_space.c:426-447 | the loop changes exactly the bits asked for, in place, and no other |
| `Protection.ChunkProtected` | core/gpa_space.c:464-481 | finds the first protected page of the 2 MB frame around a gfn, if there is one |
| `Broadcasts.HoleStep` | core/memslot.c:783-824 | what is said to be added before a slot is exactly the gap, clipped to the request |
| `Broadcasts.SlotStep` | core/memslot.c:783-841 | a slot is reported exactly if its translation goes, clipped to the request, with its old and new host address |
| `Broadcasts.ToldStep` | core/memslot.c:760-770 | one turn of the loop keeps the reports ordered, disjoint and exact up to the end of the slot |
| `Broadcasts.ToldRest` | core/memslot.c:771-781 | what follows the last slot completes them |
| `Coherence.PurgeStep` | core/ept2.c:38-73 | listeners drop exactly the leaves they are told about |
| `Coherence.HeldMidway` | core/memslot.c:760-770 | at every turn each leaf still present is in a block that the list, the request or the rest of the snapshot holds |
| `Coherence.TellHeld` | core/memslot.c:764-769 | once listeners know about a slot its copy may be given up: every leaf left is in a block that something else holds |
| `Coherence.ReleasedCoherent` | core/ramblock.c:420-449 | giving up a reference that may be given up leaves every leaf on a pinned page |
| `Coherence.TellCoherent` | core/memslot.c:760-770 | neither between two turns of the broadcast nor between telling and releasing in one is a leaf on an unpinned page |
| `Coherence.FollowsIff` | core/memslot.c:826-841 | after any mapping that succeeds the leaves left follow the new map if and only if it was faithful or no leaf in its range already had the type asked for |
| `Coherence.PinnedIff` | core/memslot.c:296-307 | they are all still on pinned pages if and only if there was no such leaf or the block asked for is still named, by the range or outside it |
| `Coherence.ReportsIff` | core/memslot.c:783-841 | listeners are told exactly the gfns whose translation goes if and only if the request was faithful, or its range had neither the type asked for nor the one it got |
| `Coherence.RequestCoherent` | core/memslot.c:296-307 | from exact reports, dropped leaves and counted references alone: after an unmapping, or a mapping that leaves no such leaf or is faithful, the EPT agrees with the new map and is pinned |
| `Coherence.AbandonedCoherent` | core/memslot.c:298-307 | a request that runs out of memory leaves an EPT that agrees with the map and is pinned if no leaf is in its range |
| `GpaSpaces.GpaSpace.Deref` | core/ramblock.c:420-449 | gives up a reference; at zero the chunks are freed or, for a stand-alone block, the block |
| `GpaSpaces.GpaSpace.Insert` | core/memslot.c:336-366 | inserts a slot with its reference, for one allocation; nothing exactly if none is left |
| `GpaSpaces.GpaSpace.Delete` | core/memslot.c:368-373 | deletes a slot; a block held by the snapshot stays as it is |
| `GpaSpaces.GpaSpace.Move` | core/memslot.c:375-381 | a slot takes over another block, with both counts right |
| `GpaSpaces.GpaSpace.InsertBoth` | core/memslot.c:530-543 | both slots of case (9), the first of them where one allocation is left, none where none is |
| `GpaSpaces.GpaSpace.ProcessStartDiffType` | core/memslot.c:492-548 | rewrites a primary node of another type; on every return all references are counted; a failure changes nothing except in case (9), where with one allocation left the request stays in the list over the slot around it; a node the request covers to its end takes no allocation |
| `GpaSpaces.GpaSpace.ProcessStartSameType` | core/memslot.c:550-574 | the same for one of the request's type |
| `GpaSpaces.GpaSpace.ProcessStartInvalid` | core/memslot.c:576-612 | the same for an unmapping |
| `GpaSpaces.GpaSpace.ProcessEndDiffType` | core/memslot.c:637-666 | rewrites a last node of another type, and the slot before it |
| `GpaSpaces.GpaSpace.ProcessEndSameType` | core/memslot.c:668-689 | the same for one of the request's type |
| `GpaSpaces.GpaSpace.ProcessEndInvalid` | core/memslot.c:691-708 | the same for an unmapping |
| `GpaSpaces.GpaSpace.ReachPrimary` | core/memslot.c:232-261 | the turn at the primary node: the request is done, or under way with the snapshot started |
| `GpaSpaces.GpaSpace.ReachLater` | core/memslot.c:262-282 | the turn at a later node: it is copied, then deleted or rewritten; where the copy fails the list stays as it was |
| `GpaSpaces.GpaSpace.SweepLater` | core/memslot.c:262-285 | the loop over the later nodes never loses its place though it edits the list: it ends past the request, at its last node, after the last slot, or out of memory |
| `GpaSpaces.GpaSpace.Sweep` | core/memslot.c:262-294 | and the request is then finished |
| `GpaSpaces.GpaSpace.UpdateList` | core/memslot.c:214-294 | succeeds exactly if as many allocations are left as the request needs, and takes exactly those; on success the list is the point update and the snapshot is every slot the request reached; on failure all references are counted, no gfn outside the request translates differently and, unless the request is fragile, the list is in order; with just too little memory for the first allocation after an edit the half-done list is what stays |
| `GpaSpaces.GpaSpace.TellListeners` | core/memslot.c:764-766 | listeners are told about a slot and drop its stale leaves, with all references still held |
| `GpaSpaces.GpaSpace.ReleaseCopy` | core/memslot.c:769 | a copy is given up, and only when every leaf present is held without it; leaves stay on pinned pages |
| `GpaSpaces.GpaSpace.BroadcastSlot` | core/memslot.c:760-770 | a turn is telling, then releasing; the copy is only sure to be free once listeners have been told |
| `GpaSpaces.GpaSpace.Broadcast` | core/memslot.c:737-781 | reports are ordered, disjoint, clipped, and exactly the gfns whose translation goes; added ranges are exactly those not mapped before; only reported leaves are dropped; no leaf is left on an unpinned page |
| `GpaSpaces.GpaSpace.FindBlock` | core/ramblock.c:235-256 | the block containing an address, with a reference taken, or none exactly if none contains it |
| `GpaSpaces.GpaSpace.PlaceBlock` | core/ramblock.c:259-317 | a place in the sorted list exactly if the new block overlaps no other |
| `GpaSpaces.GpaSpace.AddBlock` | core/ramblock.c:259-317 | adds the block or leaves everything as it was: no memory exactly if none is left, otherwise refused exactly if it overlaps another |
| `GpaSpaces.GpaSpace.AcquireBlock` | core/memslot.c:175-200 | the block of a valid mapping, with a reference; no memory exactly if a block of its own is wanted and none is left, refused exactly if it would overlap another or, otherwise, no block contains the address; errors change nothing |
| `GpaSpaces.GpaSpace.ClearSnapshot` | core/memslot.c:725-735 | gives up every copy, with all counts right |
| `GpaSpaces.GpaSpace.GetChunk` | core/ramblock.c:319-405 | the chunk behind an offset is then pinned at its own place in the block exactly if the offset is in the block and it was pinned before, or is whole pages that the host can pin; otherwise nothing changes |
| `GpaSpaces.GpaSpace.CreateEntries` | core/ept_tree.c:466-604 | fills a prefix of the range; all of it on success, with the number of new leaves; stops early only for a different leaf or at a page whose table cannot be had |
| `GpaSpaces.GpaSpace.Announce` | core/memslot.c:296 | listeners are told what an updated list changes, and drop exactly those leaves; nobody is told of an unmapping of an empty list |
| `GpaSpaces.GpaSpace.Conclude` | core/memslot.c:296-307 | after a success listeners are told, after a failure nobody is and no leaf changes; the request's own reference and its snapshot are given up either way |
| `GpaSpaces.GpaSpace.SetMapping` | core/memslot.c:158-308 | refused exactly if the request is bad, changing nothing; without memory exactly if fewer allocations are left than it needs; on every return each count is the number of slots naming the block, stand-alone blocks without references are gone, idle blocks have no chunk; success is the point update, reported exactly for the request, with the exact conditions under which the EPT follows the new map and stays pinned; without memory no leaf changes, nothing outside the request does, the list stays in order unless the request is fragile, and the half-done list is what a fragile one leaves |
| `GuestMemory.Vm.constructor` | core/gpa_space.c:38-61 | starts in the initial state of a run |
| `GuestMemory.Vm.AdjustBitmap` | core/gpa_space.c:373-405 | the bitmap grows, keeping the bits it had; refused exactly for sizes it cannot have, without memory exactly if it has to grow and none is left |
| `GuestMemory.Vm.ProtectRange` | core/gpa_space.c:483-544 | refuses exactly empty ranges, odd permissions and pages beyond the bitmap; otherwise changes exactly the pages asked for and drops their leaves when protecting |
| `GuestMemory.Vm.PinFor` | core/ept2.c:132-149 | pins the chunk of an access, keeping the invariant; fails, changing nothing, exactly if it is not pinned and cannot be |
| `GuestMemory.Vm.FillFor` | core/ept2.c:151-180 | maps the part of the slot in the chunk, all of it exactly if all its tables can be had, and never finds a different leaf there |
| `GuestMemory.Vm.HandleViolation` | core/ept2.c:75-180 | each answer has its exact condition: device access, protected page, bad access, handled, no memory (the chunk cannot be pinned or a table of the window cannot be had); an access that is handled has its leaf; the tree is never found to disagree; the invariant is kept |
| `GuestMemory.Vm.GetPfn` | core/gpa_space.c:321-371 | the frame of a page is the one the EPT has or would get, pinned; none exactly if nothing is mapped or the chunk cannot be pinned |
| `GuestMemory.Vm.MapRange` | core/memslot.c:158-308 | a proper mapping request that succeeds is one step of a run; the others are refused or out of memory exactly as the mapping is |
| `GuestMemory.Vm.SetRam` | core/memory.c:100-155 | the bitmap is grown before the mapping, so no mapped page is ever beyond it; success of a proper request is those two steps and keeps the invariant; of any other request, and where memory runs out, the exact conditions of the mapping hold; refused exactly for requests that are malformed, too far up or bad, and out of memory exactly if less is left than bitmap, slots and block need |
| `GuestMemory.Vm.HandleMisconfiguration` | core/ept2.c:272-297 | the number of leaves fixed or not fixable; finds nothing to fix in a coherent tree |
| `GuestMemory.Vm.AddRam` | core/memory.c:39-67 | adding a RAM block is a step of a run; no memory exactly if none is left, refused exactly for empty and overlapping blocks |
| `GuestMemory.PageInChunk` | core/gpa_space.c:346-370 | the page of a slot lies in its chunk at its offset |
| `GuestMemory.PagePfn` | core/gpa_space.c:346-370 | the frame computed for one page is its translation and agrees with a leaf that is present |
| `Runs.WindowFills` | core/ept2.c:151-169 | the entries created after a violation are the one-page translations of exactly the pages of the slot in the chunk |
| `Runs.FillKeeps` | core/ept2.c:151-180 | creating them keeps coherence and can find no different leaf |
| `Runs.FixChangesNothing` | core/ept2.c:188-263 | fixing a coherent leaf changes nothing |
| `Runs.MapKeeps` | core/memslot.c:158-308 | a mapping request keeps the whole invariant; that the EPT still agrees follows from what was reported, dropped and counted |
| `Runs.NextKeeps` | core/ept2.c:75-180 | so does every step: adding RAM, growing the bitmap, pinning, filling, protecting, fixing |
| `Runs.RunKeeps` | core/memslot.c:158-308 | the invariant holds in every state of every run |
| `Runs.TakesKeeps` | core/ept2.c:75-180 | an operation that takes several steps keeps the invariant at each of them |
| `Runs.SameMeaningSameList` | core/memslot.c:436-456 | two runs, whatever their requests, that end with the same translation end with the same slot list up to other flag bits |
| `Runs.LeafMeans` | core/ept2.c:75-180 | a present leaf has a slot, the pinned frame behind it and the slot's write permission; its block is referred to |
| `Runs.GrowSeals` | core/gpa_space.c:373-405 | new bytes of the bitmap say nothing about mapped pages |
| `Runs.FillSeals` | core/ept2.c:129-169 | filling a window of a tight slot reaches no protected page |
| `Runs.TightFrame` | core/gpa_space.c:464-481 | pages of a tight slot in one chunk that can be pinned share a 2 MB frame of guest memory |
| `Runs.NextSeals` | core/gpa_space.c:464-544 | while slots are tight no step gives a protected page a leaf |
| `Runs.RunSeals` | core/gpa_space.c:464-544 | nor does any run |
| `Runs.AlignedRunSeals` | core/gpa_space.c:464-481 | it is enough that guest and block addresses of requests agree modulo 2 MB |
| `Limits.SwallowedKeepsBlock` | core/memslot.c:515-517 | an input for which a successful request leaves its whole range on the old block |
| `Limits.SnugIffFramed` | core/gpa_space.c:464-481 | the address test is exact: a slot is snug if and only if pages in one chunk share a 2 MB frame of guest memory |
| `Limits.AcrossFrames` | core/gpa_space.c:464-481 | a slot that is not snug has two pages in one chunk on either side of a frame boundary |
| `Limits.FillLeaks` | core/ept2.c:129-169 | with one of them protected, a violation at the other maps it |
| `Limits.UntightLeaks` | core/ept2.c:129-169 | the converse of RunSeals: from every state a run can reach in which a slot is not tight, protecting, pinning and one violation end with a protected page in the EPT |
| `Limits.SkewedLeaks` | core/ept2.c:129-169 | a run from the initial state that ends with a protected page in the EPT |
| `Limits.OverlapInside` | core/memslot.c:530-543 | a list and a request for which the third allocation failing leaves overlapping slots |
| `Limits.FragileFails` | core/memslot.c:158-308 | for every fragile request on a block there is, a number of allocations with which the call ends with overlapping slots |
| `Limits.StrandedLeaf` | core/memslot.c:262-307 | an unmapping of two slots whose second copy cannot be had leaves a leaf of the first without a slot, on a page that is no longer pinned |
| `Limits.UntoldLeaf` | core/memslot.c:515-517 | a mapping over two slots, the second of its own type: however it succeeds, a leaf of the second stays, its range is on the first slot's block and its page is unpinned |
| `Limits.UntoldState` | core/memslot.c:515-517 | a state with the whole invariant, and a request that fits its block, for which that happens |
| `EptTree.WalkReaches` | core/ept_tree.c:630-670 | a walk from the root reaches the leaf entry of a gfn |
| `EptTree.NoneBelow` | core/ept_tree.c:630-670 | where a table is missing the gfn is not mapped |
| `EptTree.GraftCharts` | core/ept_tree.c:295-391 | linking a new table keeps the tree a tree |
| `EptTree.GraftKeeps` | core/ept_tree.c:295-391 | and changes no leaf |
| `EptTree.WriteChanges` | core/ept_tree.c:404-464 | writing an entry changes that gfn and no other |
| `EptTree.SlotOwner` | core/ept_tree.c:104-145 | a cache slot belongs to one table only |
| `EptTree.CacheGrows` | core/ept_tree.c:104-145 | each cache slot holds the very table a walk from the root reaches |
| `EptTree.Carry` | core/ept_tree.c:560-604 | the tables kept for the next gfn are the right ones for it |
| `EptTree.TableEnd` | core/ept_tree.c:466-604 | the entries filled in one go share a leaf table |
| `EptTree.OnPaths` | core/ept_tree.c:484-604 | a table leads into a range of gfns exactly if it is on the way from the root to one of them |
| `EptTree.PagesTaken` | core/ept_tree.c:466-604 | the pages taken for a range that is filled are as many as tables were missing on those ways |
| `EptTree.Tree.constructor` | core/ept_tree.c:147-190 | an empty tree |
| `EptTree.Tree.GetNextTable` | core/ept_tree.c:273-392 | returns the table a walk would reach, with no leaf changed; a missing one is created, for one page, exactly if asked and a page is left |
| `EptTree.Tree.CreateEntries` | core/ept_tree.c:466-604 | terminates; every gfn of the range then resolves from the root to its frame, no other gfn changes; counts the leaves that were missing; takes exactly one page for each table missing on the range; stops early only at a different leaf or, with fewer pages left than that, at a gfn without a table |
| `EptTree.Tree.GetEntry` | core/ept_tree.c:606-628 | what is read through the cache is what a walk from the root gives |
| `EptTree.Tree.InvalidateEntry` | core/ept_tree.c:672-709 | clears one leaf and says whether it was there |
| `EptTree.Tree.InvalidateEntries` | core/ept_tree.c:711-735 | clears exactly the range, counts the leaves that went, and asks for a flush exactly if there were any |
| `EptTree.LeavesFilled` | core/ept_tree.c:466-604 | filling the tree is filling the map of leaves |
| `EptTree.LeavesCleared` | core/ept_tree.c:711-735 | clearing the tree is clearing the map of leaves |
| `EpteBits.FixEpte` | core/ept2.c:188-263 | an entry that is not present is left alone, a leaf outside all slots is cleared, any other entry gets its slot's permissions, loses every reserved bit and keeps its frame and accessed flag; an error is counted, and nothing done, exactly where the frame would change |
| `EpteBits.FixedMemType` | core/ept2.c:228-229 | a fixed leaf is write-back exactly if the lowest bit of its memory type was clear |
| `EpteBits.FixKeepsGoodLeaf` | core/ept2.c:188-263 | a leaf that agrees with its slot is kept, and is no error, exactly if its frame number is below 2^24 |
| `EpteBits.FixedLeafMeans` | core/ept2.c:188-263 | a fixed leaf has exactly its slot's permissions and no reserved bit |
| `EpteBits.LeafPfn` | core/ept_tree.c:484-545 | the frame number is read back as written |
| `TableProtocol.NextKeeps` | core/ept_tree.c:295-391 | every step, also a failed allocation, keeps one owner, at most one page, and a cache and an entry that hold no other; a published entry is final |
| `TableProtocol.RunKeeps` | core/ept_tree.c:295-391 | in every state of every run of any number of threads, with any pattern of failed allocations |
| `TableProtocol.OneTable` | core/ept_tree.c:295-391 | all who come away with a table have the same one, the only page allocated |
| `TableProtocol.Settled` | core/ept_tree.c:295-391 | once published the entry never changes, in any run |
| `TableProtocol.UseExact` | core/ept_tree.c:371-388 | a waiting thread comes away with the one table or, exactly if the entry is not published and the cache not filled, with something that is none |
| `TableProtocol.DoneHasTable` | core/ept_tree.c:295-391 | unless an allocation has failed before, whoever is done has the published table |
| `TableProtocol.CanGoOn` | core/ept_tree.c:371-388 | once the table is published every thread that is not done can make a step |
| `TableProtocol.GoesOn` | core/ept_tree.c:371-388 | and each of its steps takes it nearer to its end, where it has that table: nobody waits for more than four |
| `TableProtocol.FailureBreaks` | core/ept_tree.c:340-391 | with or without a place in the cache, one failed allocation is enough for a run in which a thread takes something that is no table |
| `PinProtocol.NextKeeps` | core/ramblock.c:319-405 | one owner at a time; a published chunk stays |
| `PinProtocol.SomeOwner` | core/ramblock.c:319-405 | while the bit is set and no chunk is there, some thread is at it: nobody waits in vain |
| `PinProtocol.RunKeeps` | core/ramblock.c:319-405 | in every state of every run, with any pattern of pin failures |
| `PinProtocol.OneChunk` | core/ramblock.c:319-405 | at most one chunk is published, whoever gets one gets that one, and it covers exactly its part of the block |
| `PinProtocol.DoneHasChunk` | core/ramblock.c:319-405 | unless a pin has failed before, whoever is done has the published chunk |
| `PinProtocol.CanGoOn` | core/ramblock.c:360-405 | once the chunk is published every thread that is not done can make a step |
| `PinProtocol.GoesOn` | core/ramblock.c:360-405 | and each of its steps takes it nearer to its end, where it has that chunk |
| `Emulator.Context.constructor` | core/emulate.c:1117-1299 | a decoded instruction can be emulated from its start |
| `Emulator.Context.GprRead` | core/emulate.c:313-326 | reads through the cache what the registers hold |
| `Emulator.Context.GprWrite` | core/emulate.c:328-340 | writes the bytes asked for and keeps the others |
| `Emulator.Context.CacheFlush` | core/emulate.c:354-363 | the registers become what the emulator saw |
| `Emulator.Context.CacheInvalidate` | core/emulate.c:365-369 | loses nothing where nothing waits to be written |
| `Emulator.Context.ReadMemory` | core/vcpu.c:2289-2316 | a device is asked, or memory is read byte by byte through the translation, or the access fails |
| `Emulator.Context.WriteMemory` | core/vcpu.c:2327-2355 | a device is told, or memory is written byte by byte through the translation, or the access fails |
| `Emulator.Context.OperandRead` | core/emulate.c:500-537 | the source is loaded as the interpreter would; after an exit its answer is used, and it is not asked twice |
| `Emulator.Context.Handle` | core/emulate.c:1035-1058 | what the interpreter computes, with the flags written back as they were read; that this is the copy, the zero extension or the sign extension is stated by `Moves.MovzxMeans` and `Moves.MovsxMeans` |
| `Emulator.Context.OperandWrite` | core/emulate.c:539-578 | the result is stored as the interpreter would; after an exit it is not stored twice |
| `Emulator.Context.DecodeOperands` | core/emulate.c:706-730 | the operands of the next repetition come from the registers as they then are |
| `Emulator.Context.Round` | core/emulate.c:1301-1411 | one round, or the part of it up to a device access, leaves the end result of the instruction what it was and less to do |
| `Emulator.Context.EmulateInsn` | core/emulate.c:1301-1411 | each entry ends the instruction as the interpreter does, or stops at a device access from which it can go on; the cache is empty then |
| `Emulator.Context.Drive` | core/vcpu.c:1792-1806 | over any number of exits and re-entries: same device accesses in the same order, same registers, flags and memory as the direct interpreter; the instruction pointer moves once |
| `Emulator.CountDown` | core/emulate.c:1369-1400 | a repetition takes one off the count in the bytes the address size selects |
| `Emulator.RepRounds` | core/emulate.c:1301-1400 | a repeated instruction that finishes has made exactly as many rounds as those bytes said |
| `Moves.MovsxMeans` | core/emulate.c:1048-1058 | the result of a sign extension is the same signed number as the source, in the size of the operand |
| `Moves.MovzxMeans` | core/emulate.c:1035-1047 | the result of a move or zero extension is the unsigned number of the source |
| `Moves.PutBytes` | core/emulate.c:328-340 | writing n bytes of a register changes exactly those bytes, or byte 1 for AH to BH |
| `Moves.GetBytes` | core/emulate.c:313-326 | reading n bytes of a register gives exactly those bytes |
| `Moves.StoreRegMeans` | core/emulate.c:539-578 | the result goes to the destination register, byte by byte, and to no other; a 32-bit result clears the upper half |
| `Moves.LinearMeans` | core/emulate.c:391-427 | the linear address is the offset, cut to the address size, plus the segment base, modulo 2^20 or 2^32; in 64-bit mode only FS and GS have a base, and bits 47 to 63 are all alike |
| `Moves.BackwardMeans` | core/emulate.c:1369-1376 | string instructions go down exactly if bit 10 of the flags is set |
| `Moves.AdvanceMeans` | core/emulate.c:1369-1378 | their index registers move by the operand size, up or down, and the count goes down by one, each modulo 2^64; no other register changes |
| `Moves.LoadReaches` | core/vcpu.c:2289-2316 | a load succeeds exactly if every byte can be reached |
| `Moves.LoadMeans` | core/vcpu.c:2289-2316 | byte k of what is loaded is the byte k places up, least significant first |
| `Moves.StoreReaches` | core/vcpu.c:2327-2355 | a store succeeds exactly if every byte can be reached, and reaches nothing new |
| `Moves.StoreMeans` | core/vcpu.c:2327-2355 | each place holds the byte stored last there, least significant byte first |
| `Moves.StoreElsewhere` | core/vcpu.c:2327-2355 | no other byte changes |
| `Moves.RegisterMove` | core/emulate.c:1035-1058 | from start to end, a move between registers gives the destination the extended number of the source, in exactly the bytes of the operand, and changes nothing else |
| `PageWalker.IndicesAgree` | core/page_walker.c:124-166 | the bit fields of the address are the indices of paging |
| `PageWalker.RightsAgree` | core/page_walker.c:306-406 | the checks entry by entry are one check of the conjunction of all rights |
| `PageWalker.Walker.UpdateMarks` | core/page_walker.c:457-559 | marks exactly the entries met that can be marked: accessed all, and dirty the one that maps the page written to |
| `PageWalker.MarkOne` | core/page_walker.c:457-476 | one exchange marks its entry exactly if the 32 bits after the value are zero, and an entry taken to have been marked before has been, or is missed |
| `PageWalker.MarkedOnly` | core/page_walker.c:457-559 | marks change nothing but accessed and dirty bits |
| `PageWalker.TouchedIs` | core/page_walker.c:478-559 | the entries marked are those of the walk from the root, in each mode |
| `PageWalker.Walker.WalkAbove` | core/page_walker.c:599-706 | the levels above the directory find the directory, the large page or the fault of the lookup |
| `PageWalker.Walker.WalkBelow` | core/page_walker.c:708-805 | the directory and the table find the page, its size and its rights, or the fault |
| `PageWalker.Walker.Walk` | core/page_walker.c:561-853 | the fault code, the guest-physical address and the page size are those of the lookup with the source's own tests; accessed and dirty bits of the entries on its way are set where the exchange can succeed, nothing else changes, and nothing at all on a fault |
| `PageWalker.ClearedExactly` | core/page_walker.c:222-304 | the four tests of the source find every reserved bit of the SDM formats except exactly the overlooked ones |
| `PageWalker.FollowedIsPaging` | core/page_walker.c:561-853 | from any table on, the lookup is recursive paging if and only if it does not go past an overlooked bit without meeting one that is tested |
| `PageWalker.FoundIsPaging` | core/page_walker.c:561-853 | the same for the whole walk (sections 4.3 to 4.5 of the Intel SDM, volume 3A) |
| `PageWalker.NothingOverlooked` | core/page_walker.c:561-853 | in particular where none of those bits is set in any table |
| `PageWalker.Pml4SizeBitSlips` | core/page_walker.c:222-232 | a PML4 entry with bit 7 set that leads the walker to a page where paging has a reserved-bit fault |
| `PageWalker.PointerSizeBitSlips` | core/page_walker.c:217-258 | a PAE directory pointer with bit 7 set that it takes for a page of 1 GB |
| `PageWords.WordOfEntry` | core/page_walker.c:38-75 | the fields of an entry are all the bits of its word |
| `PageWords.FrameMeans` | core/page_walker.c:408-417 | the frame of a 64-bit entry is its word with everything but bits 12 to 51 cleared |
| `PageWords.FrameMeans32` | core/page_walker.c:419-422 | the frame of a 32-bit entry is its word with everything but bits 12 to 31 cleared |
| `PageWords.FourLevels` | core/page_walker.c:561-853 | four-level paging on words: which words are read, from CR3 down, and the address, size and rights of the page of 4 KB, 2 MB or 1 GB (section 4.5 of the Intel SDM, volume 3A) |
| `PageWords.PaeLevels` | core/page_walker.c:561-853 | the same for PAE paging (section 4.4) |
| `PageWords.TwoLevels` | core/page_walker.c:561-853 | the same for 32-bit paging with pages of 4 KB and 4 MB (section 4.3) |
| `PageWords.CodeMeans` | core/include/page_walker.h:53-62 | the value returned has the bits of a page-fault error code for what was found and asked (section 4.7), but never the one for a fetch; zero exactly where a page permits the access |
| `GuestCopy.MappedIs` | core/gpa_space.c:150-203 | the length mapped at once is positive, no more than asked for, and inside the slot |
| `GuestCopy.MapRange` | core/gpa_space.c:130-203 | what is mapped at once is one piece of host memory at the translation of each byte; refused exactly where nothing is mapped, and without memory exactly where the host grants no pin or no mapping |
| `GuestCopy.ReadsBack` | core/gpa_space.c:243-286 | a stored byte is the one read |
| `GuestCopy.StoredElsewhere` | core/gpa_space.c:243-286 | no other byte of host memory changes |
| `GuestCopy.RunInPage` | core/mmio.c:126-140 | up to the end of the page a piece of physical memory is one of virtual memory |
| `GuestCopy.NextPiece` | core/mmio.c:95-140 | the next piece of a copy is not empty, does not cross a page, slot or chunk edge; a page fault exactly where there is no translation, and a panic exactly where memory is not there or the host does not grant it |
| `GuestCopy.ReadVirtual` | core/mmio.c:142-193 | however far the copy gets, byte i comes from the translation of addr + i; it stops short only for a page fault, at the address reported, or an address that really cannot be reached |
| `GuestCopy.WriteVirtual` | core/mmio.c:195-243 | however far the copy gets, exactly the bytes up to there have been written, each to its translation; it stops short only for a page fault, read-only memory or an address that really cannot be reached |
| `GuestCopy.RoundTrip` | core/mmio.c:142-243 | what was written is read back if and only if bytes that meet in host memory are equal |
| `Interrupts.HighestVector` | core/intr_exc.c:42-63 | highest bit of the highest word that is not zero is the highest vector |
| `Interrupts.SetBit` | core/intr_exc.c:65-78 | setting a bit adds that vector and no other |
| `Interrupts.ClearBit` | core/intr_exc.c:83-93 | clearing it removes that vector and no other |
| `Interrupts.Vcpu.GetPending` | core/intr_exc.c:42-63 | the highest pending vector, none exactly if none is pending |
| `Interrupts.Vcpu.SetPending` | core/intr_exc.c:65-78 | adds the vector; the counter stays the number of set bits |
| `Interrupts.Vcpu.Acknowledge` | core/intr_exc.c:83-93 | removes it; the counter stays the number of set bits |
| `Interrupts.Vcpu.Raise` | core/vcpu.c:4200-4204 | a raised vector is pending, or one with the vector that was |
| `Interrupts.Vcpu.InjectInterrupt` | core/intr_exc.c:165-179 | the highest pending vector moves to the entry field exactly if the guest can take one and no event is there; while vectors remain, interrupt-window exiting is on in the cached controls and in the VMCS |
| `Interrupts.Vcpu.WritePageFault` | core/cpu.c:320-343 | a page fault that waits is written to the field, over no interrupt |
| `Interrupts.Vcpu.LoadDirty` | core/vcpu.c:1109-1173 | the VMCS has what is cached, and no blocking by STI while interrupts are off |
| `Interrupts.Vcpu.Prepare` | core/cpu.c:364-396 | at VM entry a new interrupt is in the field exactly if something is pending, no event is under way and the guest, as its VMCS says, can take one, and it is the highest; one left by a failed entry stays; whatever is left pending has the window on in both places |
| `Interrupts.StaleInterrupt` | core/cpu.c:397-405 | an interrupt left by a failed entry that the guest cannot take any more |
| `Interrupts.Vcpu.Deliver` | core/cpu.c:397-417 | the event in the field reaches the guest once |
| `Interrupts.Vcpu.ReadState` | core/cpu.c:431-434 | flags and blocking are those the guest left |
| `Interrupts.Vcpu.HandleVectoring` | core/intr_exc.c:142-160 | an interrupt whose delivery was cut short is pending again |
| `Interrupts.Vcpu.RunGuest` | core/cpu.c:397-432 | an injected interrupt is delivered once or pending again, and still in the field if the entry failed |
| `Interrupts.Vcpu.InjectException` | core/intr_exc.c:202-247 | an exception displaces no interrupt |
| `Interrupts.Vcpu.Act` | core/vcpu.c:2504-2513 | what exit handlers do keeps interrupts conserved and the cached state ahead of the VMCS only where it is marked dirty |
| `Interrupts.Vcpu.HandleExit` | core/vcpu.c:1830-1844 | what a whole handler comes to; an event counts as injected afterwards exactly if an action has injected one |
| `Interrupts.Vcpu.Execute` | core/cpu.c:345-460 | every run of the loop ends in the state, and with the sequence of deliveries, that its exits determine; each raising of any vector is pending, in the entry field, delivered or merged with one pending, and never two of these |
| `Interrupts.TurnDelivers` | core/cpu.c:364-417 | in one turn an interrupt is delivered exactly if its delivery is not cut short and one was left in the field or one is pending, the guest takes interrupts and no event is under way; it is the highest, and no longer pending |
| `Interrupts.HighestFirst` | core/cpu.c:345-460 | in every run those delivered are the highest of those pending, from the highest down, and all others are still there |
| `Interrupts.QuietRun` | core/cpu.c:345-460 | n turns in which the guest takes interrupts and no handler injects an event deliver n of them, until none is left |
| `Interrupts.InjectedBy` | core/vcpu.c:1830-1844 | the flag that holds interrupts back is cleared at each exit, and set again only by an injected event |
| `ControlRegs.Cr0Visible` | core/vcpu.c:1984-2060 | after the fields are written the guest reads the hypervisor's CR0, for all values and all legal fixed bits with PE allowed, with or without unrestricted guest |
| `ControlRegs.Cr4Visible` | core/vcpu.c:1998-2066 | the same for CR4 |
| `ControlRegs.PeMustBeAllowed` | core/vcpu.c:1984-2020 | PE has to be allowed, exactly for guests that set it |
| `ControlRegs.Cr0Enters` | core/vcpu.c:1984-1992 | the CR0 written obeys the fixed bits but for PE and PG; it obeys those exactly if the guest has set the ones that are fixed |
| `ControlRegs.Cr4Enters` | core/vcpu.c:1998-2004 | the CR4 written obeys the fixed bits |
| `ControlRegs.MovedVisible` | core/vcpu.c:2008-2022 | a guest write that does not exit is read as written |
| `ControlRegs.FixedBitsExit` | core/vcpu.c:2008-2022 | a fixed bit other than PE never moves without an exit |
| `ControlRegs.Vcpu.WriteRegisters` | core/vcpu.c:1973-2066 | the guest then reads what the hypervisor keeps |
| `ControlRegs.Vcpu.ReadRegisters` | core/cpu.c:194-215 | the hypervisor then keeps what the guest reads |
| `ControlRegs.Vcpu.MovToCr0` | core/vcpu.c:2566-2692 | whether the processor does it alone or the hypervisor emulates it, the guest then reads what it wrote and CR4 as before; refused exactly for paging without protected mode and long mode without PAE |
| `ControlRegs.Vcpu.MovToCr4` | core/vcpu.c:2566-2692 | the same for CR4; refused exactly for clearing PAE in long mode |

## Left out

- Concurrency beyond the two protocols: memory operations happen one at a time, as under the locks of the callers; a vector is raised between two runs of the loop.
- The host: whether memory can be had, pinned or mapped comes in as a count or an input, and the frames a pin yields are arbitrary; how the host decides is not modelled.
- Machine integers: addresses, gfns and counts are natural numbers, so `base + npages` does not overflow; wrap-around is modelled in the emulator's registers and, as bit-vectors, in EPT entries, bitmap bytes and control registers.
- GpaSpaces.GpaSpace.SetMapping: after a return for lack of memory the EPT is only claimed to agree where no leaf is in the range of the request, because what becomes of the others depends on how far the request got.
- GuestMemory.Vm.SetRam: a mapping whose host range is not whole pages of one block, or that is not faithful, is not claimed to be a step of a run, because `ramblock_find` looks at the first byte only and a swallowed slot keeps its block; nor is a request that runs out of memory.
- GuestMemory.Vm.HandleMisconfiguration: entries above the leaf, which the tree model only has in good shape, are not visited.
- Runs.MapKeeps: that the slot list stays canonical is taken from the step, where `GpaSpaces.GpaSpace.UpdateList` has proved it of the list surgery.
- GuestMemory.Vm.HandleViolation: guest read, write and fetch of the violation are reduced to the write bit, because no other bit is looked at after the permissions.
- Broadcasts: host addresses in reports of added ranges, and the report an unmapping of nothing makes, because no listener uses them.
- EptTree.Tree.CreateEntries: failures to map a table into the kernel are not modelled, nor is the flush that `inveptPending` asks for.
- Emulator.Context.EmulateInsn: covers MOV, MOVZX, MOVSX and the string moves with or without REP; opcode and ModRM decoding, other instructions and instruction fetch are not modelled, and operations that read, change and write a device operand are left out because they do not resume the way moves do.
- Emulator.Context.ReadMemory: an access that fails stands for every fault; the translation is fixed while an instruction is emulated.
- PageWalker.Walker.UpdateMarks: the exchange is one step and the guest does not change its tables during a walk, so an exchange that fails because of another processor is not covered.
- GuestCopy.ReadVirtual: the translation is fixed during a copy, so a guest that copies over its own page tables is not covered; the return value for each flag follows from the ending; unmapping failures, which the source ignores, are not modelled.
- Interrupts: a word of the bitmap is the set of its bits; NMIs, double faults and the flag that tells the user when to send the next interrupt are not modelled.
- ControlRegs.Vcpu.MovToCr0: CR3, page-directory pointers, EFER, CLTS and LMSW are not modelled.
- Spin-loop timeouts, memory quotas, logging, the instruction-fetch cache, `hva_list`, CPUID, MSRs, host state, and everything outside `core/`.
