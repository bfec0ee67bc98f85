module GpaSpaces {
  import opened Memslots
  import opened Surgery
  import opened Updates
  import opened Broadcasts
  import opened Ramblocks
  import opened Leaves
  import opened Coherence
  import opened Windows
  import opened Runs

  datatype Errno = OK | EINVAL | ENOMEM | EEXIST | EACCES | EFAULT

  /** How far a request has got: slots lie ahead of it, the next one lies past its end, it is finished, or memory has
      run out. */
  datatype Progress = Ahead | Past | Finished | OutOfMemory

  class GpaSpace {
    var slots: seq<Slot>
    var counts: map<BlockId, int>
    var blocks: map<BlockId, Block>
    var order: seq<BlockId>
    var leaves: map<nat, Leaf>
    /** How many allocations will still succeed. A request ends with the first that does not, so a number stands for
        every way in which memory can run out. */
    var memory: nat

    /** Every block is counted as often as it is referred to. */
    ghost predicate Balanced(snapshot: seq<Slot>, local: multiset<BlockId>)
      reads this`counts, this`blocks, this`slots
    {
      Tally(counts, blocks, slots, snapshot, local)
    }

    constructor ()
      ensures slots == [] && counts == map[] && blocks == map[] && order == [] && leaves == map[]
    {
      slots, counts, blocks, order, leaves, memory := [], map[], map[], [], map[], *;
    }

    /** hax_vmalloc */
    method Alloc() returns (ok: bool)
      modifies this`memory
      ensures Spent(ok, old(memory), 1, memory)
    {
      ok := memory > 0;
      if ok {
        memory := memory - 1;
      }
    }

    // ---- Reference counts -----------------------------------------------------------------

    method Ref(b: BlockId)
      requires b in counts
      modifies this`counts
      ensures counts == old(counts)[b := old(counts)[b] + 1]
    {
      counts := counts[b := counts[b] + 1];
    }

    function RamNow(): Ram
      reads this`counts, this`blocks, this`order
    {
      Ram(counts, blocks, order)
    }

    method Deref(b: BlockId)
      requires b in counts && b in blocks
      modifies this`counts, this`blocks, this`order
      ensures RamNow() == DerefRam(old(RamNow()), b)
    {
      if counts[b] <= 0 {
        return;
      }
      counts := counts[b := counts[b] - 1];
      if counts[b] == 0 {
        if blocks[b].standalone {
          counts, blocks, order := counts - {b}, blocks - {b}, Without(order, b);
        } else {
          blocks := blocks[b := blocks[b].(chunks := map[])];
        }
      }
    }

    // ---- Edits of the list, each keeping the counts ---------------------------------------

    method Insert(i: nat, s: Slot, ghost snapshot: seq<Slot>, ghost local: multiset<BlockId>) returns (ok: bool)
      requires i <= |slots| && s.block in counts && Balanced(snapshot, local)
      modifies this`slots, this`counts, this`memory
      ensures Balanced(snapshot, local) && Spent(ok, old(memory), 1, memory)
      ensures slots == if ok then old(slots)[..i] + [s] + old(slots)[i..] else old(slots)
    {
      ok := Alloc();
      if ok {
        Ref(s.block);
        slots := slots[..i] + [s] + slots[i..];
        TallyInsert(old(counts), blocks, old(slots), i, s, snapshot, local, counts, slots);
      }
    }

    method Delete(i: nat, ghost snapshot: seq<Slot>, ghost local: multiset<BlockId>)
      requires i < |slots| && Balanced(snapshot, local) && Kept(slots[i].block, snapshot, local)
      modifies this`slots, this`counts, this`blocks, this`order
      ensures Balanced(snapshot, local) && blocks == old(blocks) && order == old(order)
      ensures slots == old(slots)[..i] + old(slots)[i + 1..]
    {
      var s := slots[i];
      KeptTwice(counts, blocks, slots, i, snapshot, local);
      slots := slots[..i] + slots[i + 1..];
      Deref(s.block);
      TallyDelete(old(counts), blocks, old(slots), i, snapshot, local, counts, slots);
    }

    method Edit(i: nat, s: Slot, ghost snapshot: seq<Slot>, ghost local: multiset<BlockId>)
      requires i < |slots| && s.block == slots[i].block && Balanced(snapshot, local)
      modifies this`slots
      ensures Balanced(snapshot, local)
      ensures slots == old(slots)[i := s]
    {
      slots := slots[i := s];
      TallyEdit(counts, blocks, old(slots), i, s, snapshot, local, slots);
    }

    /** memslot_move: the slot gives up its block and takes over another one. */
    method Move(i: nat, s: Slot, ghost snapshot: seq<Slot>, ghost local: multiset<BlockId>)
      requires i < |slots| && Balanced(snapshot, local)
      requires Kept(slots[i].block, snapshot, local) && s.block in counts
      modifies this`slots, this`counts, this`blocks, this`order
      ensures Balanced(snapshot, local) && blocks == old(blocks) && order == old(order)
      ensures slots == old(slots)[i := s]
    {
      KeptTwice(counts, blocks, slots, i, snapshot, local);
      Deref(slots[i].block);
      ghost var counts1 := counts;
      slots := slots[i := s];
      Ref(s.block);
      TallyMove(old(counts), blocks, old(slots), i, s, snapshot, local, counts1, counts, slots);
    }

    // ---- The primary node -----------------------------------------------------------------

    method ProcessStartDiffType(d: Slot, i: nat, ghost snapshot: seq<Slot>, ghost local: multiset<BlockId>)
      returns (ret: Errno, insert: bool)
      requires i < |slots| && slots[i].npages > 0 && d.npages > 0
      requires d.base <= slots[i].End() && !SameType(d, slots[i])
      requires Balanced(snapshot, local) && d.block in counts && slots[i].block in counts
      modifies this`slots, this`counts, this`memory
      ensures Balanced(snapshot, local)
      ensures ret != OK ==> ret == ENOMEM
      ensures ret == OK ==>
                && insert == (old(slots)[i].base < d.base && old(slots)[i].End() <= d.End())
                && slots == old(slots)[..i] + StartDiff(d, old(slots)[i]) + old(slots)[i + 1..]
      ensures ret != OK ==> slots == old(slots) || (Splits(d, old(slots)[i]) && slots == Split(old(slots), d, i))
      ensures Spent(ret == OK, old(memory), StartNeeds(d, old(slots)[i], true), memory)
      ensures Splits(d, old(slots)[i]) && old(memory) == 1 ==> ret != OK && slots == Split(old(slots), d, i)
    {
      var ok := true;
      var s := slots[i];
      insert := false;
      if d.End() <= s.base {
        // (1)(2)
        ok := Insert(i, d, snapshot, local);
      } else if d.base <= s.base {
        // (3)(4)(5)(6)(7)(8)
        ok := CoverFront(d, i, snapshot, local);
      } else {
        // (9)(10)(11)(12)
        if d.End() >= s.End() {
          // (10)(11)(12)
          insert := true;
        }
        if d.base < s.End() {
          // (9)(10)(11)
          ok := CoverRear(d, i, snapshot, local);
        }
      }
      if !ok {
        return ENOMEM, insert;
      }
      return OK, insert;
    }

    method CoverFront(d: Slot, i: nat, ghost snapshot: seq<Slot>, ghost local: multiset<BlockId>) returns (ok: bool)
      requires i < |slots| && d.base <= slots[i].base < d.End()
      requires Balanced(snapshot, local) && d.block in counts
      modifies this`slots, this`counts, this`memory
      ensures Balanced(snapshot, local)
      ensures ok ==> slots == old(slots)[..i] + StartDiff(d, old(slots)[i]) + old(slots)[i + 1..]
      ensures !ok ==> slots == old(slots)
      ensures Spent(ok, old(memory), if d.End() < old(slots)[i].End() then 1 else 0, memory)
    {
      ok := true;
      if d.End() < slots[i].End() {
        // (3)(6)
        ok := Insert(i, d, snapshot, local);
        if ok {
          Edit(i + 1, OverlapFront(d, slots[i + 1]), snapshot, local);
        }
      } else {
        // (4)(5)(7)(8)
        Edit(i, Union(d, slots[i]), snapshot, local);
        Edit(i, slots[i].(flags := d.flags), snapshot, local);
      }
    }

    method CoverRear(d: Slot, i: nat, ghost snapshot: seq<Slot>, ghost local: multiset<BlockId>) returns (ok: bool)
      requires i < |slots| && slots[i].base < d.base < slots[i].End()
      requires Balanced(snapshot, local) && d.block in counts && slots[i].block in counts
      modifies this`slots, this`counts, this`memory
      ensures Balanced(snapshot, local)
      ensures ok ==> slots == old(slots)[..i] + StartDiff(d, old(slots)[i]) + old(slots)[i + 1..]
      ensures !ok ==> d.End() < old(slots)[i].End() && slots == if old(memory) == 1 then Split(old(slots), d, i) else old(slots)
      ensures Spent(ok, old(memory), if d.End() < old(slots)[i].End() then 2 else 0, memory)
    {
      ok := true;
      if d.End() < slots[i].End() {
        // (9)
        ok := InsertBoth(i + 1, d, OverlapFront(d, slots[i]), snapshot, local);
        if !ok {
          return;
        }
      }
      Edit(i, OverlapRear(d, slots[i]), snapshot, local);
    }

    /** The two insertions of case (9); when the second fails, the first stays. */
    method InsertBoth(i: nat, d: Slot, rest: Slot, ghost snapshot: seq<Slot>, ghost local: multiset<BlockId>) returns (ok: bool)
      requires i <= |slots| && d.block in counts && rest.block in counts && Balanced(snapshot, local)
      modifies this`slots, this`counts, this`memory
      ensures Balanced(snapshot, local) && Spent(ok, old(memory), 2, memory)
      ensures ok ==> slots == old(slots)[..i] + [d, rest] + old(slots)[i..]
      ensures !ok ==> slots == if old(memory) == 1 then old(slots)[..i] + [d] + old(slots)[i..] else old(slots)
    {
      ok := Insert(i, d, snapshot, local);
      if ok {
        assert counts.Keys == old(counts).Keys;
        ok := Insert(i + 1, rest, snapshot, local);
      }
    }

    method ProcessStartSameType(d: Slot, i: nat, ghost snapshot: seq<Slot>, ghost local: multiset<BlockId>) returns (ret: Errno)
      requires i < |slots| && SameType(d, slots[i])
      requires Balanced(snapshot, local) && d.block in counts
      modifies this`slots, this`counts, this`memory
      ensures Balanced(snapshot, local)
      ensures ret != OK ==> ret == ENOMEM
      ensures ret == OK ==>
                slots == old(slots)[..i] + StartSame(d, old(slots)[i]) + old(slots)[i + 1..]
      ensures ret != OK ==> slots == old(slots)
      ensures Spent(ret == OK, old(memory), StartNeeds(d, old(slots)[i], true), memory)
    {
      var s := slots[i];
      if d.End() < s.base {
        // (1)
        var ok := Insert(i, d, snapshot, local);
        if !ok {
          return ENOMEM;
        }
        return OK;
      }
      if d.base >= s.base && d.End() <= s.End() {
        // (6)(7)(9)(10)
        return OK;
      }
      // (2)(3)(4)(5)(8)(11)(12)
      Edit(i, Union(d, s), snapshot, local);
      return OK;
    }

    method ProcessStartInvalid(d: Slot, i: nat, ghost snapshot: seq<Slot>, ghost local: multiset<BlockId>) returns (ret: Errno)
      requires i < |slots| && slots[i].npages > 0 && d.npages > 0 && d.base <= slots[i].End()
      requires Balanced(snapshot, local) && slots[i].block in counts
      requires d.base < slots[i].End() ==> Kept(slots[i].block, snapshot, local)
      modifies this`slots, this`counts, this`blocks, this`order, this`memory
      ensures Balanced(snapshot, local)
      ensures blocks == old(blocks) && order == old(order)
      ensures ret != OK ==> ret == ENOMEM
      ensures ret == OK ==>
                slots == old(slots)[..i] + StartInvalid(d, old(slots)[i]) + old(slots)[i + 1..]
      ensures ret != OK ==> slots == old(slots)
      ensures Spent(ret == OK, old(memory), StartNeeds(d, old(slots)[i], false), memory)
    {
      var s := slots[i];
      if d.End() <= s.base || d.base == s.End() {
        // (1)(2)(12)
        return OK;
      }
      if d.base <= s.base {
        // (3)(4)(5)(6)(7)(8)
        if d.End() < s.End() {
          // (3)(6)
          Edit(i, OverlapFront(d, s), snapshot, local);
        } else {
          // (4)(5)(7)(8)
          Delete(i, snapshot, local);
        }
      } else {
        // (9)(10)(11)
        ret := ClipPrimary(d, i, snapshot, local);
        return;
      }
      return OK;
    }

    method ClipPrimary(d: Slot, i: nat, ghost snapshot: seq<Slot>, ghost local: multiset<BlockId>) returns (ret: Errno)
      requires i < |slots| && d.npages > 0 && slots[i].base < d.base < slots[i].End()
      requires Balanced(snapshot, local) && slots[i].block in counts
      modifies this`slots, this`counts, this`memory
      ensures Balanced(snapshot, local)
      ensures ret != OK ==> ret == ENOMEM
      ensures ret == OK ==>
                slots == old(slots)[..i] + StartInvalid(d, old(slots)[i]) + old(slots)[i + 1..]
      ensures ret != OK ==> slots == old(slots)
      ensures Spent(ret == OK, old(memory), StartNeeds(d, old(slots)[i], false), memory)
    {
      var s := slots[i];
      ghost var s0 := slots;
      if d.End() < s.End() {
        // (9)
        var ok := Insert(i + 1, OverlapFront(d, s), snapshot, local);
        if !ok {
          return ENOMEM;
        }
        assert slots[i] == s;
      }
      Edit(i, OverlapRear(d, slots[i]), snapshot, local);
      Clipped(s0, i, OverlapRear(d, s), if d.End() < s.End() then OverlapFront(d, s) else s, d.End() < s.End(), slots);
      return OK;
    }

    // ---- The last node --------------------------------------------------------------------

    method ProcessEndDiffType(d: Slot, i: nat, insert: bool, ghost snapshot: seq<Slot>, ghost local: multiset<BlockId>)
      returns (ret: Errno)
      requires 0 < i < |slots| && EndReady(d, slots[i - 1], slots[i], insert)
      requires Balanced(snapshot, local) && d.block in counts
      requires d.End() == slots[i].End() ==> Kept(slots[i].block, snapshot, local)
      modifies this`slots, this`counts, this`blocks, this`order, this`memory
      ensures Balanced(snapshot, local)
      ensures blocks == old(blocks) && order == old(order)
      ensures ret != OK ==> ret == ENOMEM
      ensures ret == OK ==>
                slots == old(slots)[..i - 1] + EndDiff(d, old(slots)[i - 1], old(slots)[i], insert)
                         + old(slots)[i + 1..]
      ensures ret != OK ==> insert && slots == old(slots)[i := Trimmed(d, old(slots)[i])]
      ensures Spent(ret == OK, old(memory), if insert && d.End() < old(slots)[i].End() then 1 else 0, memory)
    {
      ret := OK;
      if d.End() < slots[i].End() {
        // [1][2]
        ret := TrimLast(d, i, insert, snapshot, local);
      } else if insert {
        // [3]
        Move(i, d, snapshot, local);
      } else {
        Delete(i, snapshot, local);
      }
    }

    method TrimLast(d: Slot, i: nat, insert: bool, ghost snapshot: seq<Slot>, ghost local: multiset<BlockId>)
      returns (ret: Errno)
      requires 0 < i < |slots| && EndReady(d, slots[i - 1], slots[i], insert) && d.End() < slots[i].End()
      requires Balanced(snapshot, local) && d.block in counts
      modifies this`slots, this`counts, this`memory
      ensures Balanced(snapshot, local)
      ensures ret != OK ==> ret == ENOMEM
      ensures ret == OK ==>
                slots == old(slots)[..i - 1] + EndDiff(d, old(slots)[i - 1], old(slots)[i], insert)
                         + old(slots)[i + 1..]
      ensures ret != OK ==> insert && slots == old(slots)[i := Trimmed(d, old(slots)[i])]
      ensures Spent(ret == OK, old(memory), if insert then 1 else 0, memory)
    {
      var e := slots[i];
      if d.End() > e.base {
        // [2]
        Edit(i, OverlapFront(d, e), snapshot, local);
      }
      ghost var trimmed := slots;
      if insert {
        var ok := Insert(i, d, snapshot, local);
        if !ok {
          return ENOMEM;
        }
      }
      TrimSplice(old(slots), trimmed, slots, i, d, insert);
      return OK;
    }

    method ProcessEndSameType(d: Slot, i: nat, insert: bool, ghost snapshot: seq<Slot>, ghost local: multiset<BlockId>)
      requires 0 < i < |slots| && EndReady(d, slots[i - 1], slots[i], insert)
      requires Balanced(snapshot, local)
      requires d.End() == slots[i].End() ==> Kept(slots[i].block, snapshot, local)
      requires !insert ==> Kept(slots[i - 1].block, snapshot, local)
      modifies this`slots, this`counts, this`blocks, this`order
      ensures Balanced(snapshot, local)
      ensures blocks == old(blocks) && order == old(order)
      ensures slots == old(slots)[..i - 1] + EndSame(d, old(slots)[i - 1], old(slots)[i], insert)
                       + old(slots)[i + 1..]
    {
      if d.End() == slots[i].End() && !insert {
        // [3], and the request is already in place
        Delete(i, snapshot, local);
        return;
      }
      // [1][2], or [3] with the request still to come
      var prev := slots[i - 1];
      Edit(i, Union(if SameType(d, prev) then prev else d, slots[i]), snapshot, local);
      if !insert {
        Delete(i - 1, snapshot, local);
      }
    }

    method ProcessEndInvalid(d: Slot, i: nat, ghost snapshot: seq<Slot>, ghost local: multiset<BlockId>)
      requires i < |slots| && slots[i].base <= d.End() <= slots[i].End()
      requires Balanced(snapshot, local)
      requires d.End() > slots[i].base ==> Kept(slots[i].block, snapshot, local)
      requires slots[i].npages > 0
      modifies this`slots, this`counts, this`blocks, this`order
      ensures Balanced(snapshot, local)
      ensures blocks == old(blocks) && order == old(order)
      ensures slots == old(slots)[..i] + EndInvalid(d, old(slots)[i]) + old(slots)[i + 1..]
    {
      var e := slots[i];
      if d.End() == e.base {
        // [1]
        return;
      }
      if d.End() < e.End() {
        // [2]
        Edit(i, OverlapFront(d, e), snapshot, local);
      } else {
        // [3]
        Delete(i, snapshot, local);
      }
    }


    // ---- One request over the whole list --------------------------------------------------

    /** Copies a slot to the snapshot, which takes a reference of its own. */
    method Enqueue(snapshot: seq<Slot>, s: Slot, ghost local: multiset<BlockId>)
      returns (ok: bool, snapshot': seq<Slot>)
      requires s.block in counts && Balanced(snapshot, local)
      modifies this`counts, this`memory
      ensures Balanced(snapshot', local) && Spent(ok, old(memory), 1, memory)
      ensures snapshot' == if ok then snapshot + [s] else snapshot
    {
      snapshot' := snapshot;
      ok := Alloc();
      if ok {
        Ref(s.block);
        snapshot' := snapshot + [s];
        TallyEnqueue(old(counts), blocks, slots, s, snapshot, local, counts, snapshot');
      }
    }

    method ProcessStart(d: Slot, valid: bool, i: nat, ghost snapshot: seq<Slot>, ghost local: multiset<BlockId>)
      returns (ret: Errno, insert: bool)
      requires i < |slots| && slots[i].npages > 0 && d.npages > 0 && d.base <= slots[i].End()
      requires Balanced(snapshot, local) && slots[i].block in counts && (valid ==> d.block in counts)
      requires d.base < slots[i].End() ==> Kept(slots[i].block, snapshot, local)
      modifies this`slots, this`counts, this`blocks, this`order, this`memory
      ensures Balanced(snapshot, local) && blocks == old(blocks) && order == old(order)
      ensures ret != OK ==> ret == ENOMEM
      ensures ret == OK ==>
                && slots == old(slots)[..i] + StartMid(d, old(slots)[i], valid) + old(slots)[i + 1..]
                && insert == StartInsert(d, old(slots)[i], valid)
      ensures ret != OK ==> slots == old(slots) || (valid && Splits(d, old(slots)[i]) && slots == Split(old(slots), d, i))
      ensures Spent(ret == OK, old(memory), StartNeeds(d, old(slots)[i], valid), memory)
      ensures valid && Splits(d, old(slots)[i]) && old(memory) == 1 ==> ret != OK && slots == Split(old(slots), d, i)
    {
      insert := false;
      if !valid {
        ret := ProcessStartInvalid(d, i, snapshot, local);
      } else if SameType(d, slots[i]) {
        ret := ProcessStartSameType(d, i, snapshot, local);
      } else {
        ret, insert := ProcessStartDiffType(d, i, snapshot, local);
      }
    }

    /** Copies the primary node to the snapshot, unless the request starts right after it. */
    method EnqueuePrimary(d: Slot, i: nat, ghost local: multiset<BlockId>) returns (ok: bool, snapshot: seq<Slot>)
      requires i < |slots| && Balanced([], local)
      modifies this`counts, this`memory
      ensures Balanced(snapshot, local) && slots[i].block in counts && counts.Keys == old(counts).Keys
      ensures Spent(ok, old(memory), CopyNeeds(d.base < slots[i].End()), memory)
      ensures ok ==> snapshot == if d.base < slots[i].End() then [slots[i]] else []
      ensures ok && d.base < slots[i].End() ==> Kept(slots[i].block, snapshot, local)
    {
      ok, snapshot := true, [];
      var src := slots[i];
      InCounts(counts, blocks, slots, i, local);
      if d.base < src.End() {
        ok, snapshot := Enqueue(snapshot, src, local);
        if ok {
          RefsMember(snapshot, 0);
        }
      }
    }

    method ReachPrimary(d: Slot, valid: bool, i: nat, ghost local: multiset<BlockId>)
      returns (ret: Errno, snapshot: seq<Slot>, insert: bool, ghost mid: seq<Slot>)
      requires Ordered(slots) && d.npages > 0 && IsPrimary(slots, d, i)
      requires Balanced([], local) && (valid ==> d.block in counts)
      modifies this`slots, this`counts, this`blocks, this`order, this`memory
      ensures Balanced(snapshot, local) && blocks == old(blocks) && order == old(order)
      ensures ret != OK ==> ret == ENOMEM
      ensures ret == OK ==>
                Started(old(slots), slots, d, valid, i, insert, mid, snapshot) && mid == StartMid(d, old(slots)[i], valid)
      ensures ret != OK ==> slots == old(slots) || (valid && Splits(d, old(slots)[i]) && slots == Split(old(slots), d, i))
      ensures Spent(ret == OK, old(memory), CopyNeeds(d.base < old(slots)[i].End()) + StartNeeds(d, old(slots)[i], valid), memory)
      ensures ret == OK ==> insert == StartInsert(d, old(slots)[i], valid)
      ensures valid && Splits(d, old(slots)[i]) && old(memory) == 2 ==> ret != OK && slots == Split(old(slots), d, i)
    {
      insert := false;
      ghost var s0 := slots;
      mid := StartMid(d, slots[i], valid);
      var ok;
      ok, snapshot := EnqueuePrimary(d, i, local);
      if !ok {
        ret := ENOMEM;
        return;
      }
      ret, insert := ProcessStart(d, valid, i, snapshot, local);
      if ret == OK {
        StartResult(s0, slots, d, valid, i, insert, mid, snapshot);
      }
    }

    method ProcessEndMapping(d: Slot, i: nat, insert: bool, ghost snapshot: seq<Slot>, ghost local: multiset<BlockId>,
                             ghost s0: seq<Slot>, ghost p: nat, ghost k: nat, ghost y: Slot)
      returns (ret: Errno)
      requires Ordered(s0) && d.npages > 0 && IsLast(s0, d, p, k)
      requires Underway(s0, slots, d, true, p, k, insert, [y]) && i == p + 1
      requires Balanced(snapshot, local) && d.block in counts && d.block in local
      requires d.End() > s0[k].base ==> Kept(s0[k].block, snapshot, local)
      requires d.base < s0[p].End() ==> Kept(s0[p].block, snapshot, local)
      modifies this`slots, this`counts, this`blocks, this`order, this`memory
      ensures Balanced(snapshot, local) && blocks == old(blocks) && order == old(order)
      ensures ret != OK ==> ret == ENOMEM
      ensures ret == OK ==> Updated(s0, slots, d, true)
      ensures ret != OK ==> Abandoned(s0, slots, d, true)
      ensures Spent(ret == OK, old(memory), LastNeeds(d, s0[k], insert), memory)
    {
      ghost var e := s0[k];
      assert slots[i] == e && slots[i - 1] == y && slots[i + 1..] == s0[k + 1..] && slots[..i - 1] == s0[..p];
      ReadyForEnd(s0, d, p, k, insert, y);
      ret := OK;
      if SameType(d, slots[i]) {
        ProcessEndSameType(d, i, insert, snapshot, local);
        EndSameOk(d, y, e, insert);
        FinishAtEnd(s0, d, p, k, insert, y, EndSame(d, y, e, insert));
      } else {
        ghost var now := slots;
        ret := ProcessEndDiffType(d, i, insert, snapshot, local);
        if ret == OK {
          EndDiffOk(d, y, e, insert);
          FinishAtEnd(s0, d, p, k, insert, y, EndDiff(d, y, e, insert));
        } else {
          TrimmedAbandoned(s0, d, p, k, y, now, i, slots);
        }
      }
    }

    method ProcessEnd(d: Slot, valid: bool, i: nat, insert: bool, ghost snapshot: seq<Slot>, ghost local: multiset<BlockId>,
                      ghost s0: seq<Slot>, ghost p: nat, ghost k: nat, ghost mid: seq<Slot>)
      returns (ret: Errno)
      requires Ordered(s0) && d.npages > 0 && IsLast(s0, d, p, k)
      requires Underway(s0, slots, d, valid, p, k, insert, mid) && i == p + |mid|
      requires Balanced(snapshot, local) && (valid ==> d.block in counts && d.block in local)
      requires d.End() > s0[k].base ==> Kept(s0[k].block, snapshot, local)
      requires d.base < s0[p].End() ==> Kept(s0[p].block, snapshot, local)
      modifies this`slots, this`counts, this`blocks, this`order, this`memory
      ensures Balanced(snapshot, local) && blocks == old(blocks) && order == old(order)
      ensures ret != OK ==> ret == ENOMEM
      ensures ret == OK ==> Updated(s0, slots, d, valid)
      ensures ret != OK ==> Abandoned(s0, slots, d, valid)
      ensures Spent(ret == OK, old(memory), LastNeeds(d, s0[k], insert), memory)
    {
      if valid {
        assert mid == [mid[0]];
        ret := ProcessEndMapping(d, i, insert, snapshot, local, s0, p, k, mid[0]);
      } else {
        ret := OK;
        LastIsAfterStart(s0, d, p, k);
        CursorAt(s0, slots, p, k, mid);
        ghost var now := slots;
        ProcessEndInvalid(d, i, snapshot, local);
        UnmapAtLast(s0, now, slots, d, p, k, mid);
      }
    }

    /** Copies a later node to the snapshot, if the request overlaps it. */
    method CopyLater(d: Slot, i: nat, snapshot0: seq<Slot>, ghost local: multiset<BlockId>,
                     ghost s0: seq<Slot>, ghost p: nat, ghost k: nat)
      returns (ok: bool, snapshot: seq<Slot>)
      requires i < |slots| && p < k < |s0| && slots[i] == s0[k] && Balanced(snapshot0, local)
      requires snapshot0 == s0[FirstReached(s0, d, p)..k]
      modifies this`counts, this`memory
      ensures Balanced(snapshot, local) && counts.Keys == old(counts).Keys
      ensures Spent(ok, old(memory), CopyNeeds(s0[k].base < d.End()), memory)
      ensures ok ==> snapshot == CopiedUpTo(s0, d, p, k)
      ensures ok && d.End() > s0[k].base ==> Kept(s0[k].block, snapshot, local)
      ensures ok && d.base < s0[p].End() ==> Kept(s0[p].block, snapshot, local)
    {
      ok, snapshot := true, snapshot0;
      var src := slots[i];
      RefsMember(slots, i);
      if d.End() > src.base {
        ok, snapshot := Enqueue(snapshot, src, local);
        SnapshotGrows(s0, FirstReached(s0, d, p), k);
      }
      if ok {
        SnapshotHolds(s0, FirstReached(s0, d, p), p, k, d, snapshot);
      }
    }

    /** What becomes of a later node once it is copied. */
    method RewriteLater(d: Slot, valid: bool, i: nat, insert: bool, snapshot: seq<Slot>, ghost local: multiset<BlockId>,
                        ghost s0: seq<Slot>, ghost p: nat, ghost k: nat, ghost mid: seq<Slot>)
      returns (ret: Errno, inner: bool)
      requires Ordered(s0) && d.npages > 0 && k < |s0| && s0[k].base <= d.End()
      requires Underway(s0, slots, d, valid, p, k, insert, mid) && i == p + |mid|
      requires Balanced(snapshot, local) && (valid ==> d.block in counts && d.block in local)
      requires d.End() > s0[k].base ==> Kept(s0[k].block, snapshot, local)
      requires d.base < s0[p].End() ==> Kept(s0[p].block, snapshot, local)
      modifies this`slots, this`counts, this`blocks, this`order, this`memory
      ensures Balanced(snapshot, local) && blocks == old(blocks) && order == old(order)
      ensures ret != OK ==> ret == ENOMEM && Abandoned(s0, slots, d, valid)
      ensures ret == OK && inner ==> Underway(s0, slots, d, valid, p, k + 1, insert, mid) && d.End() > s0[k].base
      ensures ret == OK && !inner ==> Updated(s0, slots, d, valid) && IsLast(s0, d, p, k)
      ensures inner == IsInner(s0, k, d) && Spent(ret == OK, old(memory), if inner then 0 else LastNeeds(d, s0[k], insert), memory)
    {
      CursorFacts(s0, slots, d, valid, p, k, insert, mid);
      ret, inner := OK, IsInner(slots, i, d);
      if inner {
        Delete(i, snapshot, local);
      } else {
        ret := ProcessEnd(d, valid, i, insert, snapshot, local, s0, p, k, mid);
      }
    }

    method ReachLater(d: Slot, valid: bool, i: nat, insert: bool, snapshot0: seq<Slot>,
                      ghost local: multiset<BlockId>,
                      ghost s0: seq<Slot>, ghost p: nat, ghost k: nat, ghost mid: seq<Slot>)
      returns (at: Progress, snapshot: seq<Slot>, ghost next: nat)
      requires Ordered(s0) && d.npages > 0 && k < |s0| && s0[k].base <= d.End()
      requires Underway(s0, slots, d, valid, p, k, insert, mid) && i == p + |mid|
      requires Balanced(snapshot0, local)
      requires valid ==> d.block in counts && d.block in local
      requires snapshot0 == s0[FirstReached(s0, d, p)..k]
      modifies this`slots, this`counts, this`blocks, this`order, this`memory
      ensures Balanced(snapshot, local) && blocks == old(blocks) && order == old(order) && at != Past
      ensures Standing(at, s0, slots, d, valid, p, next, insert, mid, snapshot) && next == if at == Ahead then k + 1 else k
      ensures old(memory) == 0 && s0[k].base < d.End() ==> at == OutOfMemory && slots == old(slots)
      ensures Paid(at, s0, d, k, insert, old(memory), memory, next)
    {
      next := k;
      CursorAt(s0, slots, p, k, mid);
      var ok;
      ok, snapshot := CopyLater(d, i, snapshot0, local, s0, p, k);
      if !ok {
        at := OutOfMemory;
        GivenUp(s0, slots, d, valid, p, k, insert, mid);
        return;
      }
      var ret, inner := RewriteLater(d, valid, i, insert, snapshot, local, s0, p, k, mid);
      at, next := if ret != OK then OutOfMemory else if inner then Ahead else Finished, if ret == OK && inner then k + 1 else k;
      if at == Finished {
        ReachedAtLast(s0, d, p, k);
      }
    }

    method InsertRequest(i: nat, d: Slot, ghost snapshot: seq<Slot>, ghost local: multiset<BlockId>) returns (ret: Errno)
      requires i <= |slots| && d.block in counts && Balanced(snapshot, local)
      modifies this`slots, this`counts, this`memory
      ensures Balanced(snapshot, local)
      ensures ret != OK ==> ret == ENOMEM
      ensures ret == OK ==> slots == old(slots)[..i] + [d] + old(slots)[i..]
      ensures ret != OK ==> slots == old(slots)
      ensures Spent(ret == OK, old(memory), 1, memory)
    {
      var ok := Insert(i, d, snapshot, local);
      ret := if ok then OK else ENOMEM;
    }

    /** The request lies after every slot. */
    method AddBeyond(d: Slot, valid: bool, ghost snapshot: seq<Slot>, ghost local: multiset<BlockId>) returns (ret: Errno)
      requires Ordered(slots) && d.npages > 0 && Balanced(snapshot, local) && (valid ==> d.block in counts)
      requires forall i :: 0 <= i < |slots| ==> slots[i].End() < d.base
      modifies this`slots, this`counts, this`memory
      ensures Balanced(snapshot, local)
      ensures ret != OK ==> ret == ENOMEM && slots == old(slots)
      ensures ret == OK ==> Updated(old(slots), slots, d, valid)
      ensures Spent(ret == OK, old(memory), CopyNeeds(valid), memory)
    {
      FinishBeyond(slots, d, valid);
      ret := OK;
      if valid {
        ret := InsertRequest(|slots|, d, snapshot, local);
        assert ret == OK ==> slots == old(slots) + [d];
      } else {
        assert slots == slots + [];
      }
    }

    /** No last node: what is left is to put the request before the slot at `todo`, if at all. */
    method AddBefore(d: Slot, valid: bool, insert: bool, todo: nat, ghost snapshot: seq<Slot>, ghost local: multiset<BlockId>,
                     ghost s0: seq<Slot>, ghost p: nat, ghost k: nat, ghost mid: seq<Slot>)
      returns (ret: Errno)
      requires Ordered(s0) && d.npages > 0 && k + todo == |s0|
      requires Underway(s0, slots, d, valid, p, k, insert, mid)
      requires k < |s0| ==> d.End() < s0[k].base
      requires Balanced(snapshot, local) && (valid ==> d.block in counts)
      modifies this`slots, this`counts, this`memory
      ensures Balanced(snapshot, local)
      ensures ret != OK ==> ret == ENOMEM && Abandoned(s0, slots, d, valid)
      ensures ret == OK ==> Updated(s0, slots, d, valid)
      ensures Spent(ret == OK, old(memory), CopyNeeds(insert), memory)
    {
      CursorEnd(s0, slots, p, k, mid);
      if insert {
        ret := InsertPending(d, |slots| - todo, snapshot, local, s0, p, k, mid);
      } else {
        ret := OK;
        WithRequest(s0, slots, d, valid, p, k, insert, mid);
      }
    }

    /** The request is put at its place. */
    method InsertPending(d: Slot, i: nat, ghost snapshot: seq<Slot>, ghost local: multiset<BlockId>,
                         ghost s0: seq<Slot>, ghost p: nat, ghost k: nat, ghost mid: seq<Slot>)
      returns (ret: Errno)
      requires Ordered(s0) && d.npages > 0 && k <= |s0| && Underway(s0, slots, d, true, p, k, true, mid)
      requires k < |s0| ==> d.End() < s0[k].base
      requires i <= |slots| && i == |slots| - (|s0| - k) && Balanced(snapshot, local) && d.block in counts
      modifies this`slots, this`counts, this`memory
      ensures Balanced(snapshot, local)
      ensures ret != OK ==> ret == ENOMEM && Abandoned(s0, slots, d, true)
      ensures ret == OK ==> Updated(s0, slots, d, true)
      ensures Spent(ret == OK, old(memory), 1, memory)
    {
      WithRequest(s0, slots, d, true, p, k, true, mid);
      GivenUp(s0, slots, d, true, p, k, true, mid);
      ret := InsertRequest(i, d, snapshot, local);
    }

    /** One turn of the loop over the slots after the primary node. */
    method SweepTurn(d: Slot, valid: bool, insert: bool, snapshot0: seq<Slot>, todo: nat, ghost local: multiset<BlockId>,
                     ghost s0: seq<Slot>, ghost p: nat, ghost k: nat, ghost mid: seq<Slot>)
      returns (at: Progress, snapshot: seq<Slot>, ghost next: nat)
      requires Ordered(s0) && d.npages > 0 && k + todo == |s0| && todo > 0 && p < |s0|
      requires Standing(Ahead, s0, slots, d, valid, p, k, insert, mid, snapshot0)
      requires Balanced(snapshot0, local) && (valid ==> d.block in counts && d.block in local)
      modifies this`slots, this`counts, this`blocks, this`order, this`memory
      ensures Balanced(snapshot, local) && blocks == old(blocks) && order == old(order)
      ensures Standing(at, s0, slots, d, valid, p, next, insert, mid, snapshot) && next == if at == Ahead then k + 1 else k
      ensures old(memory) == 0 && s0[k].base < d.End() ==> at == OutOfMemory && slots == old(slots)
      ensures Paid(at, s0, d, k, insert, old(memory), memory, next)
    {
      var i := |slots| - todo;
      CursorAt(s0, slots, p, k, mid);
      if d.End() < slots[i].base {
        at, snapshot, next := Past, snapshot0, k;
      } else {
        at, snapshot, next := ReachLater(d, valid, i, insert, snapshot0, local, s0, p, k, mid);
      }
    }

    /** The slots after the primary node: `todo` of them are left, counted from the end of the list.
        The surgery never touches what lies beyond the current slot, so the successor saved by the
        safe iteration is always at `todo - 1`. */
    method SweepLater(d: Slot, valid: bool, insert: bool, snapshot0: seq<Slot>, todo0: nat, ghost local: multiset<BlockId>,
                      ghost s0: seq<Slot>, ghost p: nat, ghost k0: nat, ghost mid: seq<Slot>)
      returns (at: Progress, snapshot: seq<Slot>, todo: nat, ghost k: nat)
      requires Ordered(s0) && d.npages > 0 && k0 + todo0 == |s0| && p < |s0|
      requires Standing(Ahead, s0, slots, d, valid, p, k0, insert, mid, snapshot0)
      requires Balanced(snapshot0, local) && (valid ==> d.block in counts && d.block in local)
      modifies this`slots, this`counts, this`blocks, this`order, this`memory
      ensures Balanced(snapshot, local) && blocks == old(blocks) && order == old(order)
      ensures Standing(at, s0, slots, d, valid, p, k, insert, mid, snapshot) && k + todo == |s0|
      ensures at == Ahead ==> k == |s0|
      ensures old(memory) == 0 && k0 < |s0| && s0[k0].base < d.End() ==> at == OutOfMemory && slots == old(slots)
      ensures Paid(at, s0, d, k0, insert, old(memory), memory, k)
    {
      ghost var blocked := memory == 0 && k0 < |s0| && s0[k0].base < d.End();
      at, snapshot, todo, k := Ahead, snapshot0, todo0, k0;
      while todo > 0 && at == Ahead
        invariant Balanced(snapshot, local) && blocks == old(blocks) && order == old(order)
        invariant Standing(at, s0, slots, d, valid, p, k, insert, mid, snapshot) && k + todo == |s0|
        invariant blocked ==> slots == old(slots) && if at == Ahead then k == k0 && memory == 0 else at == OutOfMemory
        invariant Paid(at, s0, d, k0, insert, old(memory), memory, k)
        decreases todo, at == Ahead
      {
        ghost var was, now := k, memory;
        at, snapshot, k := SweepTurn(d, valid, insert, snapshot, todo, local, s0, p, k, mid);
        PaidOn(at, s0, d, k0, was, k, insert, old(memory), now, memory);
        if at == Ahead {
          todo := todo - 1;
        }
      }
    }

    /** The rest of the list, once the primary node is dealt with. */
    method Sweep(d: Slot, valid: bool, insert: bool, snapshot0: seq<Slot>, todo0: nat, ghost local: multiset<BlockId>,
                 ghost s0: seq<Slot>, ghost p: nat, ghost k0: nat, ghost mid: seq<Slot>)
      returns (ret: Errno, snapshot: seq<Slot>, ghost b: nat)
      requires Ordered(s0) && d.npages > 0 && k0 + todo0 == |s0| && p < |s0|
      requires Standing(Ahead, s0, slots, d, valid, p, k0, insert, mid, snapshot0)
      requires Balanced(snapshot0, local) && (valid ==> d.block in counts && d.block in local)
      modifies this`slots, this`counts, this`blocks, this`order, this`memory
      ensures Balanced(snapshot, local) && blocks == old(blocks) && order == old(order)
      ensures Answered(ret, s0, slots, d, valid, FirstReached(s0, d, p), b, snapshot)
      ensures old(memory) == 0 && k0 < |s0| && s0[k0].base < d.End() ==> ret != OK && slots == old(slots)
      ensures Spent(ret == OK, old(memory), LaterNeeds(s0, d, k0, insert), memory)
    {
      var at, todo;
      ghost var k;
      at, snapshot, todo, k := SweepLater(d, valid, insert, snapshot0, todo0, local, s0, p, k0, mid);
      ret, b := if at == OutOfMemory then ENOMEM else OK, k;
      if at == Finished {
        b := ReachedEnd(s0, d, k);
      } else if at != OutOfMemory {
        ReachedToEnd(s0, d, p, k);
        ret := AddBefore(d, valid, insert, todo, snapshot, local, s0, p, k, mid);
      }
    }

    /** The first slot that ends at or after the start of the request. */
    method FindPrimary(d: Slot) returns (i: nat)
      ensures i == Primary(slots, d) <= |slots| && (forall j :: 0 <= j < i ==> slots[j].End() < d.base)
      ensures i < |slots| ==> IsPrimary(slots, d, i)
    {
      i := 0;
      while i < |slots| && d.base > slots[i].End()
        invariant i <= |slots|
        invariant forall j :: 0 <= j < i ==> slots[j].End() < d.base
      {
        i := i + 1;
      }
      PrimaryIsFirst(slots, d, i);
    }

    /** The list part of memslot_set_mapping: find the primary node, rewrite it, then go on with the
        slots after it. */
    method UpdateList(d: Slot, valid: bool, ghost local: multiset<BlockId>)
      returns (ret: Errno, snapshot: seq<Slot>, ghost a: nat, ghost b: nat)
      requires Ordered(slots) && d.npages > 0
      requires Balanced([], local) && (valid ==> d.block in counts && d.block in local)
      modifies this`slots, this`counts, this`blocks, this`order, this`memory
      ensures Balanced(snapshot, local) && blocks == old(blocks) && order == old(order)
      ensures Answered(ret, old(slots), slots, d, valid, a, b, snapshot)
      ensures Charged(ret, old(slots), d, valid, old(memory), memory, slots)
    {
      var i := FindPrimary(d);
      if i == |slots| {
        snapshot, a, b := [], i, i;
        ret := AddBeyond(d, valid, snapshot, local);
        BeyondAnswers(ret, old(slots), slots, d, valid, i, old(memory), memory);
      } else {
        ret, snapshot, a, b := UpdateFrom(d, valid, i, local);
      }
    }

    method UpdateFrom(d: Slot, valid: bool, i: nat, ghost local: multiset<BlockId>)
      returns (ret: Errno, snapshot: seq<Slot>, ghost a: nat, ghost b: nat)
      requires Ordered(slots) && d.npages > 0 && IsPrimary(slots, d, i) && i == Primary(slots, d)
      requires Balanced([], local) && (valid ==> d.block in counts && d.block in local)
      modifies this`slots, this`counts, this`blocks, this`order, this`memory
      ensures Balanced(snapshot, local) && blocks == old(blocks) && order == old(order)
      ensures Answered(ret, old(slots), slots, d, valid, a, b, snapshot)
      ensures Charged(ret, old(slots), d, valid, old(memory), memory, slots)
    {
      ghost var s0, m0 := slots, memory;
      var processing := d.End() >= slots[i].End();
      var todo := |slots| - i - 1;
      var insert;
      ghost var mid;
      ret, snapshot, insert, mid := ReachPrimary(d, valid, i, local);
      ghost var ok, m1, now := ret == OK, memory, slots;
      a, b := i, i + 1;
      if ret != OK {
        SplitElsewhere(s0, d, i);
      }
      if ret == OK && processing {
        a := FirstReached(s0, d, i);
        ret, snapshot, b := Sweep(d, valid, insert, snapshot, todo, local, s0, i, i + 1, mid);
      }
      ChargedFrom(ret, s0, d, valid, i, m0, ok, m1, now, memory, slots);
    }

    // ---- Telling the listeners ------------------------------------------------------------

    /** ept_handle_mapping_removed and ept_handle_mapping_changed */
    method Invalidate(start: nat, npages: int)
      modifies this`leaves
      ensures leaves == ClearRange(old(leaves), start, npages)
    {
      leaves := map g | g in leaves && !(start <= g < start + npages) :: leaves[g];
    }

    /** mapping_calc_change and mapping_notify_listeners for one snapshotted slot. */
    method TellListeners(d: Slot, valid: bool, uva: nat, s: Slot, terminal: bool, holeStart: nat, events: seq<Event>)
      returns (events': seq<Event>)
      requires s.block in blocks
      modifies this`leaves
      ensures Listening(RamNow(), leaves, events')
              == Told(Listening(RamNow(), old(leaves), events), d, valid, uva, s, terminal, holeStart)
    {
      var hole := HoleEvents(d, s, valid, terminal, holeStart);
      var own := SlotEvents(d, s, valid, terminal, blocks[s.block].baseUva, uva);
      if own != [] {
        Invalidate(own[0].start, own[0].npages);
      }
      events' := events + hole + own;
    }

    /** memslot_delete of a copy: not before the leaves that only its reference holds are gone. */
    method ReleaseCopy(b: BlockId, ghost s0: seq<Slot>)
      requires b in counts && b in blocks && counts.Keys == blocks.Keys
      requires MayRelease(s0, Listening(RamNow(), leaves, []), b)
      modifies this`counts, this`blocks, this`order
      ensures RamNow() == DerefRam(old(RamNow()), b)
      ensures old(Coherent(s0, blocks, leaves)) ==> Coherent(s0, blocks, leaves)
    {
      ghost var t := Listening(RamNow(), leaves, []);
      Deref(b);
      if Coherent(s0, t.ram.blocks, leaves) {
        ReleasedCoherent(s0, t, b, Listening(RamNow(), leaves, []));
      }
    }

    /** One turn of the broadcast: tell about a snapshotted slot, then give up the copy. */
    method BroadcastSlot(d: Slot, valid: bool, uva: nat, s: Slot, terminal: bool, holeStart: nat, events: seq<Event>, ghost s0: seq<Slot>)
      returns (events': seq<Event>)
      requires s.block in counts && s.block in blocks && counts.Keys == blocks.Keys
      requires MayRelease(s0, Told(Listening(RamNow(), leaves, events), d, valid, uva, s, terminal, holeStart), s.block)
      modifies this`counts, this`blocks, this`order, this`leaves
      ensures Listening(RamNow(), leaves, events')
              == TellSlot(Listening(old(RamNow()), old(leaves), events), d, valid, uva, s, terminal, holeStart)
    {
      events' := TellListeners(d, valid, uva, s, terminal, holeStart, events);
      ReleaseCopy(s.block, s0);
    }

    method BroadcastSnapshot(d: Slot, valid: bool, uva: nat, snapshot: seq<Slot>, ghost t0: Listening, ghost s0: seq<Slot>)
      returns (events: seq<Event>)
      requires snapshot != [] && t0 == Listening(RamNow(), leaves, [])
      requires forall j :: 0 <= j < |snapshot| ==> BlockThere(t0, d, valid, uva, snapshot, j)
      requires forall j :: 0 <= j < |snapshot| ==> TurnHeld(t0, d, valid, uva, snapshot, s0, j)
      modifies this`counts, this`blocks, this`order, this`leaves
      ensures var t := TellUpTo(t0, d, valid, uva, snapshot, |snapshot|);
              Listening(RamNow(), leaves, events) == t.(events := t.events + RestEvents(d, valid, snapshot[|snapshot| - 1].End()))
    {
      events := [];
      var holeStart := d.base;
      var j := 0;
      while j < |snapshot|
        invariant j <= |snapshot| && holeStart == if j == 0 then d.base else snapshot[j - 1].End()
        invariant Listening(RamNow(), leaves, events) == TellUpTo(t0, d, valid, uva, snapshot, j)
      {
        var s, terminal, next := snapshot[j], j == 0 || j == |snapshot| - 1, j + 1;
        ghost var t := Listening(RamNow(), leaves, events);
        TurnReady(t0, d, valid, uva, snapshot, s0, j, s, terminal, holeStart, t);
        TellNext(t0, d, valid, uva, snapshot, next, s, terminal, holeStart, t, TellUpTo(t0, d, valid, uva, snapshot, next));
        events := BroadcastSlot(d, valid, uva, s, terminal, holeStart, events, s0);
        holeStart, j := s.End(), next;
      }
      if valid && holeStart < d.End() {
        events := events + [Added(holeStart, d.End() - holeStart)];
      }
    }

    /** mapping_broadcast */
    method Broadcast(d: Slot, valid: bool, uva: nat, snapshot: seq<Slot>,
                     ghost s0: seq<Slot>, ghost a: nat, ghost b: nat, ghost local: multiset<BlockId>)
      returns (events: seq<Event>)
      requires Ordered(s0) && Snapshotted(s0, d, a, b, snapshot) && d.npages > 0
      requires PointUpdate(s0, slots, d, Outcome(s0, d, valid)) && (valid ==> d.block in local)
      requires Sound(RamNow(), slots, snapshot, local)
      modifies this`counts, this`blocks, this`order, this`leaves
      ensures Settles(s0, slots, d, valid, uva, local, old(blocks), old(leaves), RamNow(), leaves, events)
    {
      ghost var t0 := Listening(RamNow(), leaves, []);
      if snapshot == [] {
        events := [Added(d.base, d.npages)];
        ToldNothing(s0, d, valid, a, blocks, uva);
      } else {
        TellInAll(t0, d, valid, uva, snapshot, slots, local);
        TellHeldAll(t0, d, valid, uva, snapshot, slots, local, s0, a, b);
        events := BroadcastSnapshot(d, valid, uva, snapshot, t0, s0);
        ghost var t := Listening(RamNow(), leaves, events);
        TellSettles(t0, t, d, valid, uva, snapshot, slots, local, s0, a, b);
        TellTells(t0, t, d, valid, uva, snapshot, slots, local, s0, a, b);
      }
    }

    // ---- RAM blocks -----------------------------------------------------------------------

    /** ramblock_find */
    method FindBlock(uva: nat) returns (b: BlockId)
      requires Sound(RamNow(), slots, [], multiset{})
      modifies this`counts
      ensures b == NO_BLOCK ==> !Contains(blocks, uva) && counts == old(counts)
      ensures b != NO_BLOCK ==>
                && b in blocks && blocks[b].baseUva <= uva < blocks[b].End()
                && Sound(RamNow(), slots, [], multiset{b})
    {
      var i := 0;
      while i < |order|
        invariant i <= |order|
        invariant forall j :: 0 <= j < i ==> blocks[order[j]].End() <= uva
      {
        b := order[i];
        if blocks[b].baseUva > uva {
          break;
        }
        if uva < blocks[b].End() {
          Ref(b);
          RefSound(old(RamNow()), b, slots, RamNow());
          return;
        }
        i := i + 1;
      }
      NotListed(order, blocks, i, uva);
      b := NO_BLOCK;
    }

    /** Where ramblock_add puts a block, if it overlaps none. */
    method PlaceBlock(baseUva: nat, size: nat) returns (ok: bool, i: nat)
      requires Listed(order, blocks) && size > 0
      ensures ok <==> !Overlaps(blocks, baseUva, size)
      ensures ok ==>
                && i <= |order|
                && (forall j :: 0 <= j < i ==> blocks[order[j]].End() <= baseUva)
                && (forall j :: i <= j < |order| ==> baseUva + size <= blocks[order[j]].baseUva)
    {
      i := 0;
      while i < |order|
        invariant i <= |order|
        invariant forall j :: 0 <= j < i ==> blocks[order[j]].End() <= baseUva
      {
        var b := order[i];
        if baseUva + size <= blocks[b].baseUva {
          break;
        }
        if baseUva < blocks[b].End() {
          ok := false;
          return;
        }
        i := i + 1;
      }
      ok := true;
      ClearOf(order, blocks, i, baseUva, size);
    }

    /** ramblock_add */
    method AddBlock(baseUva: nat, size: nat, id: BlockId) returns (ret: Errno)
      requires Sound(RamNow(), slots, [], multiset{}) && size > 0
      requires id !in blocks && id != NO_BLOCK
      modifies this`counts, this`blocks, this`order, this`memory
      ensures Sound(RamNow(), slots, [], multiset{})
      ensures ret != OK ==> RamNow() == old(RamNow())
      ensures ret == EINVAL ==> Overlaps(old(blocks), baseUva, size)
      ensures ret == OK ==>
                && !Overlaps(old(blocks), baseUva, size)
                && blocks == old(blocks)[id := Block(baseUva, size, map[], false)] && counts == old(counts)[id := 0]
      ensures ret == OK || ret == EINVAL || ret == ENOMEM
      ensures ret == ENOMEM <==> old(memory) == 0
      ensures ret != ENOMEM ==> memory == old(memory) - 1
    {
      var got := Alloc();
      if !got {
        return ENOMEM;
      }
      var ok, i := PlaceBlock(baseUva, size);
      if !ok {
        return EINVAL;
      }
      ghost var r := RamNow();
      var block := Block(baseUva, size, map[], false);
      counts, blocks, order := counts[id := 0], blocks[id := block], order[..i] + [id] + order[i..];
      ghost var r' := RamNow();
      AddSound(r, i, id, block, slots, r');
      return OK;
    }

    /** A "disposable" block for a stand-alone mapping, with its first reference. */
    method AddStandalone(baseUva: nat, size: nat, id: BlockId) returns (ret: Errno)
      requires Sound(RamNow(), slots, [], multiset{}) && size > 0
      requires id !in blocks && id != NO_BLOCK
      modifies this`counts, this`blocks, this`order, this`memory
      ensures ret != OK ==> RamNow() == old(RamNow()) && (ret == EINVAL || ret == ENOMEM)
      ensures ret == EINVAL ==> Overlaps(old(blocks), baseUva, size)
      ensures ret == OK ==>
                && !Overlaps(old(blocks), baseUva, size)
                && blocks == old(blocks)[id := Block(baseUva, size, map[], true)]
                && Sound(RamNow(), slots, [], multiset{id})
      ensures ret == ENOMEM <==> old(memory) == 0
      ensures ret == OK ==> memory == old(memory) - 1
    {
      ret := AddBlock(baseUva, size, id);
      if ret == OK {
        UpdateTwice(old(blocks), id, blocks[id], blocks[id].(standalone := true));
        MarkStandalone(id);
      }
    }

    method MarkStandalone(id: BlockId)
      requires Sound(RamNow(), slots, [], multiset{}) && id in blocks && counts[id] == 0
      modifies this`counts, this`blocks
      ensures blocks == old(blocks)[id := old(blocks)[id].(standalone := true)]
      ensures Sound(RamNow(), slots, [], multiset{id})
    {
      ghost var r := RamNow();
      blocks := blocks[id := blocks[id].(standalone := true)];
      Ref(id);
      ghost var r' := RamNow();
      MarkSound(r, id, slots, r');
    }

    method AcquireNew(uva: nat, size: nat, id: BlockId) returns (ret: Errno)
      requires Sound(RamNow(), slots, [], multiset{}) && size > 0
      requires id !in blocks && id != NO_BLOCK
      modifies this`counts, this`blocks, this`order, this`memory
      ensures Obtained(ret, old(RamNow()), RamNow(), slots, uva, size, true, id, id)
      ensures ret == ENOMEM <==> old(memory) == 0
      ensures ret == OK ==> memory == old(memory) - 1
    {
      ret := AddStandalone(uva, size, id);
      if ret == OK {
        AcquiredNew(old(blocks), blocks, uva, size, id);
      }
    }

    method AcquireFound(uva: nat, size: nat, ghost id: BlockId) returns (ret: Errno, block: BlockId)
      requires Sound(RamNow(), slots, [], multiset{})
      modifies this`counts
      ensures Obtained(ret, old(RamNow()), RamNow(), slots, uva, size, false, id, block)
      ensures ret == if Contains(old(blocks), uva) then OK else EINVAL
    {
      block := FindBlock(uva);
      ret := if block == NO_BLOCK then EINVAL else OK;
      if ret == OK {
        AcquiredFound(blocks, uva, size, id, block);
      }
    }

    /** The block a valid mapping is made from, with a reference taken: a new one for a stand-alone
        mapping, otherwise the one that contains its address. */
    method AcquireBlock(uva: nat, size: nat, standalone: bool, id: BlockId) returns (ret: Errno, block: BlockId)
      requires Sound(RamNow(), slots, [], multiset{}) && size > 0
      requires id !in blocks && id != NO_BLOCK
      modifies this`counts, this`blocks, this`order, this`memory
      ensures Obtained(ret, old(RamNow()), RamNow(), slots, uva, size, standalone, id, block)
      ensures !standalone ==> ret == if Contains(old(blocks), uva) then OK else EINVAL
      ensures ret == ENOMEM <==> standalone && old(memory) == 0
      ensures ret == OK ==> memory == if standalone then old(memory) - 1 else old(memory)
    {
      block := id;
      if standalone {
        ret := AcquireNew(uva, size, id);
      } else {
        ret, block := AcquireFound(uva, size, id);
      }
    }

    /** memslot_list_clear */
    method ClearSnapshot(snapshot: seq<Slot>)
      requires Sound(RamNow(), slots, snapshot, multiset{})
      modifies this`counts, this`blocks, this`order
      ensures Sound(RamNow(), slots, [], multiset{})
      ensures Dropped(old(blocks), blocks, counts) && NoMore(old(counts), counts)
    {
      var j := 0;
      while j < |snapshot|
        invariant j <= |snapshot|
        invariant Sound(RamNow(), slots, snapshot[j..], multiset{})
        invariant Dropped(old(blocks), blocks, counts) && NoMore(old(counts), counts)
      {
        ghost var r, rest := RamNow(), snapshot[j..];
        RefsMember(rest, 0);
        Deref(snapshot[j].block);
        ghost var r' := RamNow();
        DerefHead(r, r', slots, rest, multiset{});
        DerefDrops(r, rest[0].block, r');
        DroppedTrans(old(blocks), r.blocks, r'.blocks, r.counts, r'.counts);
        assert rest[1..] == snapshot[j + 1..];
        j := j + 1;
      }
    }

    // ---- Pinning and mapping pages ----------------------------------------------------------

    /** ramblock_get_chunk with alloc set, as one caller at a time sees it; `pins` says whether the host can pin the
        memory of the chunk. */
    method GetChunk(b: BlockId, offset: nat, pins: bool) returns (ok: bool)
      requires b in blocks && b in counts && counts[b] > 0
      modifies this`blocks
      ensures ok <==> offset < old(blocks)[b].size && CanPin(old(blocks)[b], offset / CHUNK_SIZE, pins)
      ensures !ok ==> blocks == old(blocks)
      ensures ok ==> b in blocks && offset < blocks[b].size && offset / CHUNK_SIZE in blocks[b].chunks
      ensures blocks != old(blocks) ==>
                && b in blocks && offset / CHUNK_SIZE in blocks[b].chunks
                && Pinned(old(RamNow()), b, offset / CHUNK_SIZE, blocks[b].chunks[offset / CHUNK_SIZE], RamNow())
    {
      var block := blocks[b];
      if offset >= block.size {
        return false;
      }
      var index := offset / CHUNK_SIZE;
      if index in block.chunks {
        return true;
      }
      var baseUva := block.baseUva + index * CHUNK_SIZE;
      var size := ChunkSize(block.size, index);
      if !pins || baseUva % PAGE_SIZE != 0 || size % PAGE_SIZE != 0 {
        return false;
      }
      var npages := size / PAGE_SIZE;
      assert |seq(npages, i => 0)| == npages;
      var pfns: seq<nat> :| |pfns| == npages;
      var chunk := Chunk(baseUva, size, pfns);
      blocks := blocks[b := block.(chunks := block.chunks[index := chunk])];
      return true;
    }

    /** ept_tree_create_entries: stops where a table cannot be had or a different entry exists; `tables` are the tables,
        by the 512 pages they map, that are there or can be made. */
    method CreateEntries(start: nat, pfns: seq<nat>, writable: bool, tables: set<nat>)
      returns (ret: Errno, created: nat, ghost n: nat)
      modifies this`leaves
      ensures n <= |pfns| && leaves == Filled(old(leaves), start, pfns, writable, n)
      ensures ret == OK ==> n == |pfns| && created == Missing(old(leaves), start, n) && TablesFor(start, n, tables)
      ensures ret == ENOMEM ==> n < |pfns| && TableOf(start + n) !in tables
      ensures ret == EEXIST ==> n < |pfns| && Clash(old(leaves), start + n, Leaf(pfns[n], writable))
      ensures ret == OK || ret == EEXIST || ret == ENOMEM
    {
      var i := 0;
      created, n := 0, 0;
      while i < |pfns|
        invariant n == i <= |pfns| && TablesFor(start, n, tables)
        invariant leaves == Filled(old(leaves), start, pfns, writable, n)
        invariant created == Missing(old(leaves), start, n)
      {
        var g := start + i;
        var leaf := Leaf(pfns[i], writable);
        FilledAt(old(leaves), start, pfns, writable, n, g);
        if i == 0 || g % 512 == 0 {
          if TableOf(g) !in tables {
            return ENOMEM, created, n;
          }
        } else {
          SameTable(start, n, tables, g);
        }
        if Clash(leaves, g, leaf) {
          return EEXIST, created, n;
        }
        if g !in leaves {
          created := created + 1;
        }
        leaves := leaves[g := leaf];
        i, n := i + 1, n + 1;
      }
      ret := OK;
    }

    // ---- A request from beginning to end --------------------------------------------------

    /** Once the list is updated listeners are told, unless an empty list was to be unmapped. */
    method Announce(d: Slot, valid: bool, uva: nat, snapshot: seq<Slot>, silent: bool,
                    ghost s0: seq<Slot>, ghost a: nat, ghost b: nat, ghost local: multiset<BlockId>)
      returns (events: seq<Event>)
      requires Ordered(s0) && d.npages > 0 && Sound(RamNow(), slots, snapshot, local) && (valid ==> d.block in local)
      requires Updated(s0, slots, d, valid) && Snapshotted(s0, d, a, b, snapshot) && silent == (s0 == [] && !valid)
      modifies this`counts, this`blocks, this`order, this`leaves
      ensures Settles(s0, slots, d, valid, uva, local, old(blocks), old(leaves), RamNow(), leaves, events)
    {
      if silent {
        events := [];
        ToldSilently(d, blocks, uva);
      } else {
        events := Broadcast(d, valid, uva, snapshot, s0, a, b, local);
      }
    }

    /** The reference the request itself held is given up at last. */
    method GiveUp(b: BlockId, ghost snapshot: seq<Slot>)
      requires Sound(RamNow(), slots, snapshot, multiset{b})
      modifies this`counts, this`blocks, this`order
      ensures Sound(RamNow(), slots, snapshot, multiset{})
      ensures Dropped(old(blocks), blocks, counts) && NoMore(old(counts), counts)
    {
      ghost var r := RamNow();
      assert Refs(slots, b) + Refs(snapshot, b) + multiset{b}[b] > 0;
      Deref(b);
      ghost var r' := RamNow();
      DerefDrops(r, b, r');
      assert multiset{} + multiset{b} == multiset{b};
      DerefSound(r, b, r', slots, snapshot, multiset{});
    }

    /** The end of memslot_set_mapping: listeners are told if the list was updated; then the request's own reference and
        what is left of the snapshot are given up. */
    method Conclude(ret: Errno, d: Slot, valid: bool, uva: nat, snapshot: seq<Slot>, silent: bool,
                    ghost s0: seq<Slot>, ghost a: nat, ghost b: nat, ghost local: multiset<BlockId>)
      returns (events: seq<Event>)
      requires Ordered(s0) && d.npages > 0 && local == if valid then multiset{d.block} else multiset{}
      requires Sound(RamNow(), slots, snapshot, local)
      requires Answered(ret, s0, slots, d, valid, a, b, snapshot) && silent == (s0 == [] && !valid)
      modifies this`counts, this`blocks, this`order, this`leaves
      ensures Sound(RamNow(), slots, [], multiset{})
      ensures Ended(ret, s0, old(blocks), old(leaves), d, valid, uva, slots, RamNow(), leaves, events)
    {
      events := [];
      ghost var blocks0, leaves0 := blocks, leaves;
      var rest := if ret == OK then [] else snapshot;
      if ret == OK {
        events := Announce(d, valid, uva, snapshot, silent, s0, a, b, local);
      }
      ghost var ram := RamNow();
      if valid {
        GiveUp(d.block, rest);
      }
      ghost var ram' := RamNow();
      if ret == OK {
        PerformedAfter(s0, slots, d, valid, uva, local, blocks0, leaves0, ram, leaves, events, ram');
      } else {
        Withdraw(snapshot, blocks0);
      }
    }

    /** The list part, with all that the end of the request needs. */
    method Revise(d: Slot, valid: bool, ghost local: multiset<BlockId>)
      returns (ret: Errno, snapshot: seq<Slot>, ghost a: nat, ghost b: nat)
      requires Ordered(slots) && d.npages > 0 && local == if valid then multiset{d.block} else multiset{}
      requires Sound(RamNow(), slots, [], local) && (valid ==> d.block in counts)
      modifies this`slots, this`counts, this`blocks, this`order, this`memory
      ensures Sound(RamNow(), slots, snapshot, local) && blocks == old(blocks)
      ensures Answered(ret, old(slots), slots, d, valid, a, b, snapshot)
      ensures Charged(ret, old(slots), d, valid, old(memory), memory, slots)
    {
      ret, snapshot, a, b := UpdateList(d, valid, local);
    }

    /** A request whose block, if it has one, is referred to: the rest of memslot_set_mapping. */
    method Perform(d: Slot, valid: bool, uva: nat, ghost local: multiset<BlockId>) returns (ret: Errno, events: seq<Event>)
      requires Ordered(slots) && d.npages > 0 && local == if valid then multiset{d.block} else multiset{}
      requires Sound(RamNow(), slots, [], local) && (valid ==> d.block in counts)
      modifies this
      ensures Sound(RamNow(), slots, [], multiset{})
      ensures ret == OK || ret == ENOMEM
      ensures Ended(ret, old(slots), old(blocks), old(leaves), d, valid, uva, slots, RamNow(), leaves, events)
      ensures Charged(ret, old(slots), d, valid, old(memory), memory, slots)
    {
      var silent := slots == [] && !valid;
      ghost var s0, a, b := slots, 0, 0;
      var snapshot;
      ret, snapshot, a, b := Revise(d, valid, local);
      events := Conclude(ret, d, valid, uva, snapshot, silent, s0, a, b, local);
    }

    /** A request that failed gives up its snapshot. */
    method Withdraw(snapshot: seq<Slot>, ghost blocks0: map<BlockId, Block>)
      requires Sound(RamNow(), slots, snapshot, multiset{}) && Dropped(blocks0, blocks, counts)
      modifies this`counts, this`blocks, this`order
      ensures Sound(RamNow(), slots, [], multiset{}) && Dropped(blocks0, blocks, counts)
    {
      ghost var r := RamNow();
      ClearSnapshot(snapshot);
      DroppedTrans(blocks0, r.blocks, blocks, r.counts, counts);
    }

    /** The request, once its block is known and referred to. */
    method MapTo(start: nat, npages: nat, uva: nat, flags: Flags, block: BlockId, ghost blocks0: map<BlockId, Block>)
      returns (ret: Errno, events: seq<Event>, ghost d: Slot)
      requires Grown(blocks0, blocks)
      requires Ordered(slots) && npages > 0 && (flags.invalid ==> block == NO_BLOCK)
      requires Sound(RamNow(), slots, [], if flags.invalid then multiset{} else multiset{block})
      requires !flags.invalid ==> block in blocks && blocks[block].baseUva <= uva < blocks[block].End()
      modifies this
      ensures Sound(RamNow(), slots, [], multiset{})
      ensures Requested(d, start, npages, uva, flags, old(blocks))
      ensures ret == OK || ret == ENOMEM
      ensures Concluded(ret, old(slots), blocks0, old(leaves), d, !flags.invalid, slots, blocks, leaves)
      ensures ret == OK ==>
                Performed(old(slots), old(blocks), old(leaves), d, !flags.invalid, uva, slots, RamNow(), leaves, events)
      ensures Charged(ret, old(slots), d, !flags.invalid, old(memory), memory, slots)
    {
      ghost var s0, blocks1, leaves0 := slots, blocks, leaves;
      var valid := !flags.invalid;
      var offset := if valid then uva - blocks[block].baseUva else 0;
      var dest := Slot(start, npages, block, offset, flags);
      d := dest;
      ghost var local := if valid then multiset{block} else multiset{};
      ret, events := Perform(dest, valid, uva, local);
      ConcludedAfter(ret, s0, blocks0, blocks1, leaves0, d, valid, uva, slots, RamNow(), leaves, events);
    }

    /** The block of a request, with a reference taken; none for an unmapping. */
    method AcquireFor(npages: nat, uva: nat, flags: Flags, id: BlockId) returns (ret: Errno, block: BlockId)
      requires Sound(RamNow(), slots, [], multiset{}) && npages > 0
      requires id !in blocks && id != NO_BLOCK
      modifies this`counts, this`blocks, this`order, this`memory
      ensures ret == OK || ret == EINVAL || ret == ENOMEM
      ensures ret == EINVAL <==> Bad(old(blocks), npages, uva, flags, old(memory))
      ensures ret == ENOMEM <==> old(memory) < BlockNeeds(flags)
      ensures ret != OK ==> RamNow() == old(RamNow())
      ensures ret == OK ==>
                && Sound(RamNow(), slots, [], if flags.invalid then multiset{} else multiset{block})
                && memory == old(memory) - BlockNeeds(flags) && Grown(old(blocks), blocks)
                && (if flags.invalid then block == NO_BLOCK else block in blocks && blocks[block].baseUva <= uva < blocks[block].End())
                && (BlockNeeds(flags) == 0 ==> blocks == old(blocks))
    {
      if flags.invalid {
        ret, block := OK, NO_BLOCK;
      } else {
        var size := npages * PAGE_SIZE;
        ret, block := AcquireBlock(uva, size, flags.standalone, id);
      }
    }

    /** memslot_set_mapping. `id` names the block record a stand-alone mapping allocates; `d` is the
        request as a slot and `blocks1` the blocks once its own block is there. */
    method SetMapping(start: nat, npages: nat, uva: nat, flags: Flags, id: BlockId)
      returns (ret: Errno, events: seq<Event>, ghost d: Slot, ghost blocks1: map<BlockId, Block>)
      requires Ordered(slots) && Sound(RamNow(), slots, [], multiset{})
      requires id !in blocks && id != NO_BLOCK
      modifies this
      ensures Sound(RamNow(), slots, [], multiset{})
      ensures ret == OK || ret == EINVAL || ret == ENOMEM
      ensures ret == EINVAL ==> slots == old(slots) && RamNow() == old(RamNow()) && leaves == old(leaves)
      ensures ret == EINVAL <==> Bad(old(blocks), npages, uva, flags, old(memory))
      ensures ret == ENOMEM <==> ret != EINVAL && old(memory) < Needs(old(slots), d, !flags.invalid) + BlockNeeds(flags)
      ensures old(memory) >= |old(slots)| + 3 ==> ret != ENOMEM
      ensures Concluded(ret, old(slots), old(blocks), old(leaves), d, !flags.invalid, slots, blocks, leaves)
      ensures ret != EINVAL && old(memory) >= BlockNeeds(flags) ==>
                && npages > 0 && Meant(d, start, npages, uva, flags, old(blocks), blocks1)
                && Charged(ret, old(slots), d, !flags.invalid, old(memory) - BlockNeeds(flags), memory, slots)
      ensures ret == OK ==>
                Performed(old(slots), blocks1, old(leaves), d, !flags.invalid, uva, slots, RamNow(), leaves, events)
    {
      if npages == 0 {
        d, events, blocks1 := Slot(start, npages, NO_BLOCK, 0, flags), [], blocks;
        ret := EINVAL;
        return;
      }
      ret, events, d, blocks1 := MapPages(start, npages, uva, flags, id);
      NeedsBound(old(slots), d, !flags.invalid);
    }

    method MapPages(start: nat, npages: nat, uva: nat, flags: Flags, id: BlockId)
      returns (ret: Errno, events: seq<Event>, ghost d: Slot, ghost blocks1: map<BlockId, Block>)
      requires Ordered(slots) && Sound(RamNow(), slots, [], multiset{}) && npages > 0
      requires id !in blocks && id != NO_BLOCK
      modifies this
      ensures Sound(RamNow(), slots, [], multiset{})
      ensures ret == EINVAL <==> Bad(old(blocks), npages, uva, flags, old(memory))
      ensures Concluded(ret, old(slots), old(blocks), old(leaves), d, !flags.invalid, slots, blocks, leaves)
      ensures Carried(ret, old(slots), old(RamNow()), old(leaves), old(memory), start, npages, uva, flags, d, blocks1,
                      slots, RamNow(), leaves, memory, events)
    {
      d, events, blocks1 := Slot(start, npages, NO_BLOCK, 0, flags), [], blocks;
      var block;
      ret, block := AcquireFor(npages, uva, flags, id);
      if ret != OK {
        NothingDone(ret, slots, blocks, leaves, d, !flags.invalid);
        return;
      }
      ghost var left := memory;
      blocks1 := blocks;
      ret, events, d := MapTo(start, npages, uva, flags, block, old(blocks));
      CarriedBy(ret, old(slots), old(RamNow()), old(leaves), old(memory), start, npages, uva, flags, d, blocks1,
                slots, RamNow(), leaves, memory, events, left);
    }
  }

  /** A chunk is pinned, or can be. */
  predicate CanPin(block: Block, index: nat, pins: bool) {
    index in block.chunks || (pins && Pinnable(block, index))
  }

  /** The table that maps a page. */
  function TableOf(g: nat): nat {
    g / 512
  }

  /** The tables for n pages from `start` are among those. */
  ghost predicate TablesFor(start: nat, n: nat, tables: set<nat>) {
    forall g: nat :: start <= g < start + n ==> TableOf(g) in tables
  }

  lemma SameTable(start: nat, n: nat, tables: set<nat>, g: nat)
    requires TablesFor(start, n, tables) && n > 0 && g == start + n && g % 512 != 0
    ensures TableOf(g) in tables
  {
    assert TableOf(g - 1) == TableOf(g);
  }

  /** The requests that are refused: for no page, for an address that is in no block or, once there is memory for it, for a
      block of its own that overlaps another. */
  ghost predicate Bad(blocks: map<BlockId, Block>, npages: nat, uva: nat, flags: Flags, memory: nat) {
    || npages == 0
    || (!flags.invalid && if flags.standalone then memory > 0 && Overlaps(blocks, uva, npages * PAGE_SIZE) else !Contains(blocks, uva))
  }

  /** What a request takes of the memory there is, and what it leaves of the list when the first allocation after an edit
      fails. */
  ghost predicate Charged(ret: Errno, s0: seq<Slot>, d: Slot, valid: bool, before: nat, after: nat, now: seq<Slot>) {
    var cut := Cut(s0, d, valid) && before == CutAfter(s0, d);
    match ret
    case OK => Spent(true, before, Needs(s0, d, valid), after) && !cut
    case _ => Spent(false, before, Needs(s0, d, valid), after) && (cut ==> now == HalfDone(s0, d, valid))
  }

  /** A stand-alone mapping takes a block of its own. */
  function BlockNeeds(flags: Flags): nat {
    if !flags.invalid && flags.standalone then 1 else 0
  }

  /** How much of the memory that the slots from `k` on need has been used once those before `next` are dealt with. */
  ghost predicate Paid(at: Progress, s0: seq<Slot>, d: Slot, k: nat, insert: bool, before: nat, after: nat, next: nat) {
    && k <= |s0| && next <= |s0|
    && var needs := LaterNeeds(s0, d, k, insert);
       match at
       case Ahead => before + LaterNeeds(s0, d, next, insert) == after + needs
       case Past => before + CopyNeeds(insert) == after + needs
       case Finished => before == after + needs
       case OutOfMemory => before < needs
  }

  lemma PaidOn(at: Progress, s0: seq<Slot>, d: Slot, k0: nat, k: nat, next: nat, insert: bool, m0: nat, m1: nat, m2: nat)
    requires Paid(Ahead, s0, d, k0, insert, m0, m1, k) && Paid(at, s0, d, k, insert, m1, m2, next)
    ensures Paid(at, s0, d, k0, insert, m0, m2, next)
  {
  }

  /** The block of a valid mapping: a new one for a stand-alone mapping, otherwise the one that contains its address. */
  ghost predicate Acquired(blocks0: map<BlockId, Block>, blocks: map<BlockId, Block>, uva: nat, size: nat, standalone: bool,
                           id: BlockId, block: BlockId)
  {
    && Grown(blocks0, blocks)
    && block in blocks && block != NO_BLOCK && blocks[block].baseUva <= uva < blocks[block].End()
    && if standalone then !Overlaps(blocks0, uva, size) && block == id else Contains(blocks0, uva) && blocks == blocks0
  }

  /** What looking for that block answers. */
  ghost predicate Obtained(ret: Errno, r: Ram, r': Ram, slots: seq<Slot>, uva: nat, size: nat, standalone: bool,
                           id: BlockId, block: BlockId)
  {
    match ret
    case OK => Sound(r', slots, [], multiset{block}) && Acquired(r.blocks, r'.blocks, uva, size, standalone, id, block)
    case EINVAL => r' == r && if standalone then Overlaps(r.blocks, uva, size) else !Contains(r.blocks, uva)
    case ENOMEM => r' == r
    case _ => false
  }

  lemma AcquiredNew(blocks0: map<BlockId, Block>, blocks: map<BlockId, Block>, uva: nat, size: nat, id: BlockId)
    requires id !in blocks0 && id != NO_BLOCK && size > 0 && !Overlaps(blocks0, uva, size)
    requires blocks == blocks0[id := Block(uva, size, map[], true)]
    ensures Acquired(blocks0, blocks, uva, size, true, id, id)
  {
  }

  lemma AcquiredFound(blocks: map<BlockId, Block>, uva: nat, size: nat, id: BlockId, block: BlockId)
    requires block in blocks && block != NO_BLOCK && blocks[block].baseUva <= uva < blocks[block].End()
    ensures Acquired(blocks, blocks, uva, size, false, id, block) && Contains(blocks, uva)
  {
  }

  /** What a request means for the EPT, whatever it asks for: where it succeeds, exactly when the EPT still follows the map
      and is on pinned pages; where memory runs out, that nothing outside its range has changed. */
  ghost predicate Concluded(ret: Errno, s0: seq<Slot>, blocks0: map<BlockId, Block>, leaves0: map<nat, Leaf>, d: Slot, valid: bool,
                            slots: seq<Slot>, blocks: map<BlockId, Block>, leaves: map<nat, Leaf>)
  {
    match ret
    case OK => Coherent(s0, blocks0, leaves0) ==> Agrees(s0, leaves0, d, valid, slots, blocks, leaves)
    case ENOMEM =>
      && leaves == leaves0 && Abandoned(s0, slots, d, valid)
      && (Coherent(s0, blocks0, leaves0) && Spared(d, leaves0) ==> Coherent(slots, blocks, leaves))
    case _ => true
  }

  /** The request as a slot, and the blocks once its own is there. */
  ghost predicate Meant(d: Slot, start: nat, npages: nat, uva: nat, flags: Flags, blocks0: map<BlockId, Block>,
                        blocks1: map<BlockId, Block>) {
    && Requested(d, start, npages, uva, flags, blocks1) && Grown(blocks0, blocks1)
    && (BlockNeeds(flags) == 0 ==> blocks1 == blocks0)
  }

  /** How far a request got: refused; without memory for its block or for a slot; carried out. */
  ghost predicate Carried(ret: Errno, s0: seq<Slot>, ram0: Ram, leaves0: map<nat, Leaf>, memory0: nat,
                          start: nat, npages: nat, uva: nat, flags: Flags, d: Slot, blocks1: map<BlockId, Block>,
                          slots: seq<Slot>, ram: Ram, leaves: map<nat, Leaf>, memory: nat, events: seq<Event>)
  {
    var left := memory0 - BlockNeeds(flags);
    match ret
    case OK =>
      && left >= 0 && Meant(d, start, npages, uva, flags, ram0.blocks, blocks1)
      && Charged(ret, s0, d, !flags.invalid, left, memory, slots)
      && Performed(s0, blocks1, leaves0, d, !flags.invalid, uva, slots, ram, leaves, events)
    case ENOMEM =>
      left >= 0 ==>
        && Meant(d, start, npages, uva, flags, ram0.blocks, blocks1)
        && Charged(ret, s0, d, !flags.invalid, left, memory, slots)
    case EINVAL => slots == s0 && ram == ram0 && leaves == leaves0
    case _ => false
  }

  lemma CarriedBy(ret: Errno, s0: seq<Slot>, ram0: Ram, leaves0: map<nat, Leaf>, memory0: nat,
                  start: nat, npages: nat, uva: nat, flags: Flags, d: Slot, blocks1: map<BlockId, Block>,
                  slots: seq<Slot>, ram: Ram, leaves: map<nat, Leaf>, memory: nat, events: seq<Event>, left: nat)
    requires (ret == OK || ret == ENOMEM) && left == memory0 - BlockNeeds(flags)
    requires Meant(d, start, npages, uva, flags, ram0.blocks, blocks1) && Charged(ret, s0, d, !flags.invalid, left, memory, slots)
    requires ret == OK ==> Performed(s0, blocks1, leaves0, d, !flags.invalid, uva, slots, ram, leaves, events)
    ensures Carried(ret, s0, ram0, leaves0, memory0, start, npages, uva, flags, d, blocks1, slots, ram, leaves, memory, events)
  {
  }

  lemma BeyondAnswers(ret: Errno, s0: seq<Slot>, slots: seq<Slot>, d: Slot, valid: bool, i: nat, before: nat, after: nat)
    requires Ordered(s0) && d.npages > 0 && i == |s0| == Primary(s0, d) && (ret == OK || ret == ENOMEM)
    requires forall k :: 0 <= k < |s0| ==> s0[k].End() < d.base
    requires if ret == OK then Updated(s0, slots, d, valid) else slots == s0
    requires Spent(ret == OK, before, CopyNeeds(valid), after)
    ensures Answered(ret, s0, slots, d, valid, i, i, []) && Charged(ret, s0, d, valid, before, after, slots)
  {
  }

  /** Inserting behind a slot and then changing it puts both in its place. */
  lemma Clipped(s0: seq<Slot>, i: nat, rear: Slot, front: Slot, both: bool, slots: seq<Slot>)
    requires i < |s0|
    requires slots == (if both then s0[..i + 1] + [front] + s0[i + 1..] else s0)[i := rear]
    ensures slots == s0[..i] + (if both then [rear, front] else [rear]) + s0[i + 1..]
  {
  }

  lemma NothingDone(ret: Errno, slots: seq<Slot>, blocks: map<BlockId, Block>, leaves: map<nat, Leaf>, d: Slot, valid: bool)
    requires ret != OK && Ordered(slots) && d.npages > 0
    ensures Concluded(ret, slots, blocks, leaves, d, valid, slots, blocks, leaves)
  {
  }

  /** What is left of leaves and blocks at the end of a request. */
  ghost predicate Ended(ret: Errno, s0: seq<Slot>, blocks0: map<BlockId, Block>, leaves0: map<nat, Leaf>, d: Slot, valid: bool, uva: nat,
                        slots: seq<Slot>, ram: Ram, leaves: map<nat, Leaf>, events: seq<Event>)
  {
    match ret
    case OK => Performed(s0, blocks0, leaves0, d, valid, uva, slots, ram, leaves, events)
    case _ => leaves == leaves0 && Abandoned(s0, slots, d, valid) && Dropped(blocks0, ram.blocks, ram.counts)
  }

  lemma ConcludedAfter(ret: Errno, s0: seq<Slot>, blocks0: map<BlockId, Block>, blocks1: map<BlockId, Block>, leaves0: map<nat, Leaf>,
                       d: Slot, valid: bool, uva: nat, slots: seq<Slot>, ram: Ram, leaves: map<nat, Leaf>, events: seq<Event>)
    requires Grown(blocks0, blocks1) && d.npages > 0 && Sound(ram, slots, [], multiset{})
    requires Ended(ret, s0, blocks1, leaves0, d, valid, uva, slots, ram, leaves, events)
    ensures Concluded(ret, s0, blocks0, leaves0, d, valid, slots, ram.blocks, leaves)
  {
    if Coherent(s0, blocks0, leaves0) {
      GrowKeepsLeaves(s0, leaves0, blocks0, blocks1);
      if ret == OK {
        AgreesAfter(s0, blocks1, leaves0, d, valid, uva, slots, ram, leaves, events);
      } else if Spared(d, leaves) {
        AbandonedCoherent(s0, slots, d, blocks1, ram, leaves);
      }
    }
  }

  /** The request a call makes, once its block is known. */
  ghost predicate Requested(d: Slot, start: nat, npages: nat, uva: nat, flags: Flags, blocks: map<BlockId, Block>) {
    && d.base == start && d.npages == npages && d.flags == flags
    && (flags.invalid ==> d.block == NO_BLOCK)
    && (!flags.invalid ==> d.block in blocks && blocks[d.block].baseUva + d.offset == uva && d.offset < blocks[d.block].size)
  }

  /** What is left of the last node when the request before it cannot be inserted. */
  function Trimmed(d: Slot, e: Slot): Slot
    requires e.base <= d.End() <= e.End()
  {
    if d.End() > e.base then OverlapFront(d, e) else e
  }

  lemma TrimmedAbandoned(s0: seq<Slot>, d: Slot, p: nat, k: nat, y: Slot, now: seq<Slot>, i: nat, after: seq<Slot>)
    requires Ordered(s0) && d.npages > 0 && IsPrimary(s0, d, p) && IsLast(s0, d, p, k) && d.End() < s0[k].End()
    requires StartLeft(d, s0[p], true, true, [y]) && s0[k].base <= d.End()
    requires now == s0[..p] + [y] + s0[k..] && i == p + 1 && after == now[i := Trimmed(d, s0[k])]
    ensures Abandoned(s0, after, d, true)
  {
    var f := Trimmed(d, s0[k]);
    TrimmedOrdered(s0, d, p, k, y, f);
    TrimmedElsewhere(s0, d, p, k, y, f);
    assert after == s0[..p] + [y, f] + s0[k + 1..];
  }

  lemma TrimmedOrdered(s0: seq<Slot>, d: Slot, p: nat, k: nat, y: Slot, f: Slot)
    requires Ordered(s0) && d.npages > 0 && IsPrimary(s0, d, p) && IsLast(s0, d, p, k)
    requires StartLeft(d, s0[p], true, true, [y]) && d.End() == f.base < f.End() == s0[k].End()
    ensures Ordered(s0[..p] + [y, f] + s0[k + 1..])
  {
    LastIsAfterStart(s0, d, p, k);
    assert [y][0] == y;
    RewriteOrdered(s0, [y, f], p, k + 1, s0[p].base, s0[k].End());
  }

  /** A request that stops while it is under way: the list is in order if it still has to be inserted or is an unmapping;
      otherwise it is one that stretches its primary node. */
  lemma GivenUp(s0: seq<Slot>, now: seq<Slot>, d: Slot, valid: bool, p: nat, k: nat, insert: bool, mid: seq<Slot>)
    requires Ordered(s0) && Underway(s0, now, d, valid, p, k, insert, mid)
    requires insert || (k < |s0| && s0[k].base < d.End())
    ensures Abandoned(s0, now, d, valid)
  {
    UnderwayElsewhere(s0, d, valid, p, k, insert, mid);
    if insert || !valid {
      forall i | k <= i < |s0| ensures s0[p].End() <= s0[i].base {
      }
      RewriteOrdered(s0, mid, p, k, s0[p].base, s0[p].End());
    } else {
      PrimaryIsFirst(s0, d, p);
      assert s0[p + 1].base <= s0[k].base;
    }
  }

  /** The list after the first of the two insertions of case (9). */
  function Split(s0: seq<Slot>, d: Slot, i: nat): seq<Slot>
    requires i < |s0|
  {
    s0[..i + 1] + [d] + s0[i + 1..]
  }

  /** The memory and the list after a request, from what the primary node and the slots after it took. */
  lemma ChargedFrom(ret: Errno, s0: seq<Slot>, d: Slot, valid: bool, p: nat, m0: nat, ok: bool, m1: nat, mid: seq<Slot>,
                    m2: nat, now: seq<Slot>)
    requires p == Primary(s0, d) < |s0|
    requires Spent(ok, m0, CopyNeeds(d.base < s0[p].End()) + StartNeeds(d, s0[p], valid), m1)
    requires valid && Splits(d, s0[p]) && m0 == 2 ==> !ok && mid == Split(s0, d, p)
    requires ok && s0[p].End() <= d.End() ==>
               && mid == s0[..p] + StartMid(d, s0[p], valid) + s0[p + 1..]
               && Spent(ret == OK, m1, LaterNeeds(s0, d, p + 1, StartInsert(d, s0[p], valid)), m2)
               && (m1 == 0 && p + 1 < |s0| && s0[p + 1].base < d.End() ==> ret != OK && now == mid)
    requires !ok || d.End() < s0[p].End() ==> ok == (ret == OK) && m2 == m1 && now == mid
    ensures Charged(ret, s0, d, valid, m0, m2, now)
  {
  }

  /** One past the last slot that overlaps the request, when the one at `k` is the last it meets. */
  ghost function ReachedEnd(s0: seq<Slot>, d: Slot, k: nat): nat
    requires k < |s0|
  {
    if d.End() > s0[k].base then k + 1 else k
  }

  /** The list and the snapshot as a request leaves them when the slots before `k` are dealt with. */
  ghost predicate Standing(at: Progress, s0: seq<Slot>, now: seq<Slot>, d: Slot, valid: bool, p: nat, k: nat,
                           insert: bool, mid: seq<Slot>, snapshot: seq<Slot>)
    requires p < |s0|
  {
    match at
    case Ahead =>
      Underway(s0, now, d, valid, p, k, insert, mid) && snapshot == s0[FirstReached(s0, d, p)..k]
    case Past =>
      && Underway(s0, now, d, valid, p, k, insert, mid) && snapshot == s0[FirstReached(s0, d, p)..k]
      && (k < |s0| ==> d.End() < s0[k].base)
    case Finished =>
      && k < |s0| && Updated(s0, now, d, valid)
      && Snapshotted(s0, d, FirstReached(s0, d, p), ReachedEnd(s0, d, k), snapshot)
    case OutOfMemory =>
      Abandoned(s0, now, d, valid)
  }

  /** What the list part of a request answers. */
  ghost predicate Answered(ret: Errno, s0: seq<Slot>, now: seq<Slot>, d: Slot, valid: bool, a: nat, b: nat, snapshot: seq<Slot>) {
    match ret
    case OK => Updated(s0, now, d, valid) && Snapshotted(s0, d, a, b, snapshot)
    case ENOMEM => Abandoned(s0, now, d, valid)
    case _ => false
  }

  /** The snapshot once the slot at `k` has been looked at. */
  ghost function CopiedUpTo(s0: seq<Slot>, d: Slot, p: nat, k: nat): seq<Slot>
    requires p < k < |s0|
  {
    if d.End() > s0[k].base then s0[FirstReached(s0, d, p)..k + 1] else s0[FirstReached(s0, d, p)..k]
  }

  lemma TrimSplice(s0: seq<Slot>, trimmed: seq<Slot>, after: seq<Slot>, i: nat, d: Slot, insert: bool)
    requires 0 < i < |s0| && EndReady(d, s0[i - 1], s0[i], insert) && d.End() < s0[i].End()
    requires trimmed == if d.End() > s0[i].base then s0[i := OverlapFront(d, s0[i])] else s0
    requires after == if insert then trimmed[..i] + [d] + trimmed[i..] else trimmed
    ensures after == s0[..i - 1] + EndDiff(d, s0[i - 1], s0[i], insert) + s0[i + 1..]
  {
    var f := OverlapFront(d, s0[i]);
    assert d.End() == s0[i].base ==> f == s0[i];
    assert trimmed == s0[..i - 1] + [s0[i - 1], f] + s0[i + 1..];
    assert trimmed[..i] == s0[..i - 1] + [s0[i - 1]] && trimmed[i..] == [f] + s0[i + 1..];
  }

  lemma UpdateTwice(blocks: map<BlockId, Block>, id: BlockId, first: Block, second: Block)
    ensures blocks[id := first][id := second] == blocks[id := second]
  {
  }

  lemma NotListed(order: seq<BlockId>, blocks: map<BlockId, Block>, i: nat, uva: nat)
    requires Listed(order, blocks) && i <= |order|
    requires forall j :: 0 <= j < i ==> blocks[order[j]].End() <= uva
    requires i < |order| ==> uva < blocks[order[i]].baseUva
    ensures !Contains(blocks, uva)
  {
    forall b | b in blocks ensures !(blocks[b].baseUva <= uva < blocks[b].End()) {
      var j :| 0 <= j < |order| && order[j] == b;
      assert j > i ==> blocks[order[i]].End() <= blocks[order[j]].baseUva;
    }
  }

  lemma ClearOf(order: seq<BlockId>, blocks: map<BlockId, Block>, i: nat, baseUva: nat, size: nat)
    requires Listed(order, blocks) && i <= |order|
    requires forall j :: 0 <= j < i ==> blocks[order[j]].End() <= baseUva
    requires i < |order| ==> baseUva + size <= blocks[order[i]].baseUva
    ensures forall j :: i <= j < |order| ==> baseUva + size <= blocks[order[j]].baseUva
    ensures !Overlaps(blocks, baseUva, size)
  {
    forall j | i <= j < |order| ensures baseUva + size <= blocks[order[j]].baseUva {
      assert j > i ==> blocks[order[i]].End() <= blocks[order[j]].baseUva;
    }
    forall b | b in blocks ensures !(baseUva < blocks[b].End() && blocks[b].baseUva < baseUva + size) {
      var j :| 0 <= j < |order| && order[j] == b;
    }
  }

  /** How the list stands while the request is under way: the primary node is rewritten to `mid`,
      the covered slots up to `k` are gone, the rest is untouched. */
  ghost predicate Underway(s0: seq<Slot>, now: seq<Slot>, d: Slot, valid: bool,
                           p: nat, k: nat, insert: bool, mid: seq<Slot>)
  {
    && IsPrimary(s0, d, p) && Inner(s0, d, p, k) && StartLeft(d, s0[p], valid, insert, mid)
    && now == s0[..p] + mid + s0[k..]
  }

  /** Where the primary node leaves the request: done, when it ends inside that node, or under way. */
  ghost predicate Started(s0: seq<Slot>, now: seq<Slot>, d: Slot, valid: bool, p: nat, insert: bool, mid: seq<Slot>, snapshot: seq<Slot>)
    requires p < |s0|
  {
    if d.End() < s0[p].End() then Updated(s0, now, d, valid) && Snapshotted(s0, d, p, p + 1, snapshot)
    else Underway(s0, now, d, valid, p, p + 1, insert, mid) && snapshot == s0[FirstReached(s0, d, p)..p + 1]
  }

  lemma StartResult(s0: seq<Slot>, now: seq<Slot>, d: Slot, valid: bool, p: nat, insert: bool, mid: seq<Slot>, snapshot: seq<Slot>)
    requires Ordered(s0) && d.npages > 0 && IsPrimary(s0, d, p)
    requires mid == StartMid(d, s0[p], valid) && insert == StartInsert(d, s0[p], valid)
    requires now == s0[..p] + mid + s0[p + 1..]
    requires snapshot == if d.base < s0[p].End() then [s0[p]] else []
    ensures Started(s0, now, d, valid, p, insert, mid, snapshot)
  {
    StartMidOk(d, s0[p], valid);
    if d.End() < s0[p].End() {
      FinishAtStart(s0, d, valid, p, mid);
      ReachedAtStart(s0, d, p);
    }
  }

  lemma InCounts(counts: map<BlockId, int>, blocks: map<BlockId, Block>, slots: seq<Slot>, i: nat, local: multiset<BlockId>)
    requires Tally(counts, blocks, slots, [], local) && i < |slots|
    ensures slots[i].block in counts
  {
    RefsMember(slots, i);
    assert Refs(slots, slots[i].block) + Refs([], slots[i].block) + local[slots[i].block] > 0;
  }

  lemma AtCursor(l: seq<Slot>, mid: seq<Slot>, r: seq<Slot>)
    requires r != []
    ensures var now := l + mid + r; var i := |l| + |mid|;
            now[..i] == l + mid && now[i] == r[0] && now[i + 1..] == r[1..]
  {
  }

  lemma CursorAt(s0: seq<Slot>, now: seq<Slot>, p: nat, k: nat, mid: seq<Slot>)
    requires p <= k < |s0| && now == s0[..p] + mid + s0[k..]
    ensures |now| - (|s0| - k) == p + |mid| < |now|
    ensures now[p + |mid|] == s0[k]
  {
  }

  lemma CursorEnd(s0: seq<Slot>, now: seq<Slot>, p: nat, k: nat, mid: seq<Slot>)
    requires p <= k <= |s0| && now == s0[..p] + mid + s0[k..]
    ensures |s0| - k <= |now|
  {
  }

  lemma WithRequest(s0: seq<Slot>, now: seq<Slot>, d: Slot, valid: bool,
                    p: nat, k: nat, insert: bool, mid: seq<Slot>)
    requires Ordered(s0) && d.npages > 0 && Underway(s0, now, d, valid, p, k, insert, mid)
    requires k < |s0| ==> d.End() < s0[k].base
    ensures |s0| - k <= |now|
    ensures var i := |now| - (|s0| - k);
            Updated(s0, if insert then now[..i] + [d] + now[i..] else now, d, valid)
  {
    FinishPastEnd(s0, d, valid, p, k, insert, mid);
    var l, r := s0[..p] + mid, s0[k..];
    var i := |now| - (|s0| - k);
    assert now[..i] == l && now[i..] == r;
    assert l + [d] + r == s0[..p] + (mid + [d]) + r;
  }

  lemma CursorFacts(s0: seq<Slot>, now: seq<Slot>, d: Slot, valid: bool, p: nat, k: nat, insert: bool, mid: seq<Slot>)
    requires Ordered(s0) && k < |s0| && s0[k].base <= d.End() && d.npages > 0
    requires Underway(s0, now, d, valid, p, k, insert, mid)
    ensures var i := p + |mid|;
            && i < |now| && now[i] == s0[k]
            && IsInner(now, i, d) == IsInner(s0, k, d)
            && (IsInner(now, i, d) ==>
                  && d.End() > s0[k].base
                  && Underway(s0, now[..i] + now[i + 1..], d, valid, p, k + 1, insert, mid))
            && (!IsInner(now, i, d) ==> IsLast(s0, d, p, k) && d.End() <= s0[k].End())
  {
    AtCursor(s0[..p], mid, s0[k..]);
    var i := p + |mid|;
    assert s0[k].npages > 0;
    assert k + 1 < |s0| ==> now[i + 1] == s0[k + 1];
    assert now[..i] + now[i + 1..] == s0[..p] + mid + s0[k + 1..];
  }

  lemma UnmapAtLast(s0: seq<Slot>, now: seq<Slot>, after: seq<Slot>, d: Slot, p: nat, k: nat, mid: seq<Slot>)
    requires Ordered(s0) && d.npages > 0 && IsLast(s0, d, p, k)
    requires Underway(s0, now, d, false, p, k, false, mid)
    requires s0[k].base <= d.End() <= s0[k].End()
    requires var i := p + |mid|;
             i < |now| && after == now[..i] + EndInvalid(d, s0[k]) + now[i + 1..]
    ensures Updated(s0, after, d, false)
  {
    FinishAtEndInvalid(s0, d, p, k, mid);
    UnmapSplice(s0, now, p, k, mid, EndInvalid(d, s0[k]));
  }

  lemma UnmapSplice(s0: seq<Slot>, now: seq<Slot>, p: nat, k: nat, mid: seq<Slot>, t: seq<Slot>)
    requires p <= k < |s0| && now == s0[..p] + mid + s0[k..]
    ensures now[..p + |mid|] + t + now[p + |mid| + 1..] == s0[..p] + (mid + t) + s0[k + 1..]
  {
    var l, r := s0[..p], s0[k + 1..];
    AtCursor(l, mid, s0[k..]);
    assert s0[k..][1..] == r;
    assert (l + mid) + t + r == l + (mid + t) + r;
  }

  lemma SnapshotGrows(s0: seq<Slot>, a: nat, k: nat)
    requires a <= k < |s0|
    ensures s0[a..k] + [s0[k]] == s0[a..k + 1]
  {
  }

  lemma SnapshotHolds(s0: seq<Slot>, a: nat, p: nat, k: nat, d: Slot, snapshot: seq<Slot>)
    requires p < k < |s0| && a == FirstReached(s0, d, p)
    requires snapshot == if d.End() > s0[k].base then s0[a..k + 1] else s0[a..k]
    ensures d.End() > s0[k].base ==> Refs(snapshot, s0[k].block) > 0
    ensures d.base < s0[p].End() ==> Refs(snapshot, s0[p].block) > 0
  {
    if d.End() > s0[k].base {
      RefsMember(snapshot, k - a);
    }
    if d.base < s0[p].End() {
      RefsMember(snapshot, 0);
    }
  }

  lemma ReadyForEnd(s0: seq<Slot>, d: Slot, p: nat, k: nat, insert: bool, y: Slot)
    requires Ordered(s0) && d.npages > 0 && IsPrimary(s0, d, p) && IsLast(s0, d, p, k)
    requires StartLeft(d, s0[p], true, insert, [y])
    ensures EndReady(d, y, s0[k], insert)
    ensures !insert ==> y.block == d.block || (Swallows(d, s0[p]) && y.block == s0[p].block)
  {
    LastIsAfterStart(s0, d, p, k);
    assert [y][0] == y;
    SameTypeIsSameKind(d, y);
    SameTypeIsSameKind(d, s0[p]);
  }

  /** The first slot that overlaps the request or follows it, given the primary node. */
  ghost function FirstReached(s0: seq<Slot>, d: Slot, p: nat): nat
    requires p < |s0|
  {
    if d.base < s0[p].End() then p else p + 1
  }

  lemma ReachedUpTo(s0: seq<Slot>, d: Slot, p: nat, a: nat, b: nat)
    requires Ordered(s0) && IsPrimary(s0, d, p) && p < b <= |s0| && d.npages > 0
    requires a == FirstReached(s0, d, p)
    requires forall i :: p < i < b ==> s0[i].base < d.End()
    requires b < |s0| ==> d.End() <= s0[b].base
    ensures Reached(s0, d, a, b)
  {
    forall i | b <= i < |s0| ensures d.End() <= s0[i].base {
      assert i > b ==> s0[b].End() <= s0[i].base;
    }
    forall i | a <= i < b ensures d.base < s0[i].End() {
      assert i > p ==> s0[p].End() <= s0[i].base && s0[i].npages > 0;
    }
  }

  lemma InnerStartsBefore(s0: seq<Slot>, d: Slot, p: nat, k: nat)
    requires Ordered(s0) && Inner(s0, d, p, k)
    ensures forall i :: p < i < k ==> s0[i].base < d.End()
  {
    forall i | p < i < k ensures s0[i].base < d.End() {
      assert s0[i].npages > 0;
    }
  }

  lemma ReachedAtStart(s0: seq<Slot>, d: Slot, p: nat)
    requires Ordered(s0) && IsPrimary(s0, d, p) && d.npages > 0 && d.End() < s0[p].End()
    ensures Reached(s0, d, p, p + 1)
  {
    assert p + 1 < |s0| ==> s0[p].End() <= s0[p + 1].base;
    ReachedUpTo(s0, d, p, p, p + 1);
  }

  lemma ReachedToEnd(s0: seq<Slot>, d: Slot, p: nat, k: nat)
    requires Ordered(s0) && IsPrimary(s0, d, p) && Inner(s0, d, p, k) && d.npages > 0
    requires k < |s0| ==> d.End() < s0[k].base
    ensures Reached(s0, d, FirstReached(s0, d, p), k)
  {
    InnerStartsBefore(s0, d, p, k);
    ReachedUpTo(s0, d, p, FirstReached(s0, d, p), k);
  }

  lemma ReachedAtLast(s0: seq<Slot>, d: Slot, p: nat, k: nat)
    requires Ordered(s0) && IsPrimary(s0, d, p) && Inner(s0, d, p, k) && d.npages > 0
    requires k < |s0| && s0[k].base <= d.End() <= s0[k].End()
    ensures Reached(s0, d, FirstReached(s0, d, p), ReachedEnd(s0, d, k))
  {
    InnerStartsBefore(s0, d, p, k);
    assert k + 1 < |s0| ==> s0[k].End() <= s0[k + 1].base;
    ReachedUpTo(s0, d, p, FirstReached(s0, d, p), if d.End() > s0[k].base then k + 1 else k);
  }

}
