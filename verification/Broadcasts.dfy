/**
 What the listeners of the memory map are told after a request: which ranges were added, removed or
 changed. Each snapshotted slot gives at most one notice for the gap before it and one for itself.
 */
module Broadcasts {
  import opened Memslots
  import opened Surgery
  import opened Ramblocks

  datatype Event =
    | Added(start: nat, npages: int)
    | Removed(start: nat, npages: int, oldUva: int, oldFlags: Flags)
    | Changed(start: nat, npages: int, oldUva: int, oldFlags: Flags, newUva: int, newFlags: Flags)
  {
    function End(): int {
      start + npages
    }

    predicate Has(g: nat) {
      start <= g < start + npages
    }
  }

  /** The slots s0[a..b] that are snapshotted: all that overlap the request, and possibly a primary
      node that lies wholly after it. */
  ghost predicate Reached(s0: seq<Slot>, d: Slot, a: nat, b: nat) {
    && a <= b <= |s0|
    && (forall i :: 0 <= i < a ==> s0[i].End() <= d.base)
    && (forall i :: b <= i < |s0| ==> d.End() <= s0[i].base)
    && (forall i :: a <= i < b ==> d.base < s0[i].End())
    && (forall i :: a < i < b ==> s0[i].base < d.End())
  }

  ghost predicate Snapshotted(s0: seq<Slot>, d: Slot, a: nat, b: nat, snapshot: seq<Slot>) {
    Reached(s0, d, a, b) && snapshot == s0[a..b]
  }

  /** A gfn whose old translation the request does away with. */
  ghost predicate Stale(s0: seq<Slot>, d: Slot, valid: bool, g: nat) {
    && d.Covers(g)
    && KindAt(s0, g).Some?
    && (valid ==> KindAt(s0, g) != Some(d.Kind()))
  }

  ghost predicate Dirty(events: seq<Event>, g: nat) {
    exists i :: 0 <= i < |events| && !events[i].Added? && events[i].Has(g)
  }

  ghost predicate Fresh(events: seq<Event>, g: nat) {
    exists i :: 0 <= i < |events| && events[i].Added? && events[i].Has(g)
  }

  /** Nonempty, in ascending order, disjoint, between two bounds. */
  ghost predicate Ascending(events: seq<Event>, lo: nat, hi: nat) {
    && (forall i :: 0 <= i < |events| ==> events[i].npages > 0 && lo <= events[i].start && events[i].End() <= hi)
    && (forall i, j :: 0 <= i < j < |events| ==> events[i].End() <= events[j].start)
  }

  // ---- What one snapshotted slot gives rise to ------------------------------------------------

  /** mapping_intersect */
  function Clip(d: Slot, start: nat, end: nat): (nat, int) {
    (Max(start, d.base), Min(end, d.End()) - Max(start, d.base))
  }

  /** mapping_is_changed */
  predicate IsChanged(d: Slot, s: Slot, valid: bool, terminal: bool) {
    && (valid ==> !SameType(d, s))
    && (terminal ==> d.End() > s.base && d.base < s.End())
  }

  /** The gap before the slot, as mapping_calc_change computes it. */
  function HoleEvents(d: Slot, s: Slot, valid: bool, terminal: bool, holeStart: nat): seq<Event> {
    if valid && s.base > holeStart then
      if terminal then
        var (start, npages) := Clip(d, holeStart, s.base);
        [Added(start, npages)]
      else [Added(holeStart, s.base - holeStart)]
    else []
  }

  /** The slot itself, as mapping_calc_change computes it. */
  function SlotEvents(d: Slot, s: Slot, valid: bool, terminal: bool, blockUva: nat, uva: nat): seq<Event> {
    if IsChanged(d, s, valid, terminal) then
      var (start, npages) := if terminal then Clip(d, s.base, s.End()) else (s.base, s.npages);
      var oldUva := blockUva + s.offset + (if d.base > s.base then (d.base - s.base) * PAGE_SIZE else 0);
      var newUva := uva + (if d.base < s.base then (s.base - d.base) * PAGE_SIZE else 0);
      if valid then [Changed(start, npages, oldUva, s.flags, newUva, d.flags)]
      else [Removed(start, npages, oldUva, s.flags)]
    else []
  }

  /** The uvas an event carries are those of its first page. */
  ghost predicate Truthful(e: Event, s0: seq<Slot>, d: Slot, blocks: map<BlockId, Block>, uva: nat) {
    !e.Added? ==>
      && KindAt(s0, e.start).Some?
      && (var t := TargetOf(KindAt(s0, e.start).value, e.start);
          e.oldUva == BaseUva(blocks, t.block) + t.offset && e.oldFlags.readonly == t.readonly)
      && (e.Changed? ==> e.newUva == uva + (e.start - d.base) * PAGE_SIZE && e.newFlags == d.flags)
  }

  // ---- Where the slots of the snapshot lie ----------------------------------------------------

  /** Where the gap before s0[i] starts. */
  function HoleStart(s0: seq<Slot>, d: Slot, a: nat, i: nat): nat
    requires i <= |s0|
  {
    if i <= a then d.base else s0[i - 1].End()
  }

  lemma BetweenSlots(s0: seq<Slot>, d: Slot, a: nat, b: nat, i: nat, g: nat)
    requires Ordered(s0) && Reached(s0, d, a, b) && a <= i < b
    requires HoleStart(s0, d, a, i) <= g < s0[i].End()
    ensures KindAt(s0, g) == if s0[i].base <= g then Some(s0[i].Kind()) else None
  {
    if s0[i].base <= g {
      KindAtIndex(s0, i, g);
    } else {
      forall j | 0 <= j < |s0| ensures !s0[j].Covers(g) {
        if j < a {
          assert s0[j].End() <= d.base;
        } else if j < i - 1 {
          assert s0[j].End() <= s0[i - 1].base;
        } else if j > i {
          assert s0[i].End() <= s0[j].base;
        }
      }
      KindAtNone(s0, g);
    }
  }

  lemma BeyondSlots(s0: seq<Slot>, d: Slot, a: nat, b: nat, g: nat)
    requires Ordered(s0) && Reached(s0, d, a, b)
    requires HoleStart(s0, d, a, b) <= g < d.End()
    ensures KindAt(s0, g) == None
  {
    forall j | 0 <= j < |s0| ensures !s0[j].Covers(g) {
      if j < a {
        assert s0[j].End() <= d.base;
      } else if j < b - 1 {
        assert s0[j].End() <= s0[b - 1].base;
      }
    }
    KindAtNone(s0, g);
  }

  /** An inner slot of the snapshot lies inside the request; a first or last one may stick out. */
  lemma SlotPlace(s0: seq<Slot>, d: Slot, a: nat, b: nat, i: nat)
    requires Ordered(s0) && Reached(s0, d, a, b) && a <= i < b && d.npages > 0
    ensures HoleStart(s0, d, a, i) <= s0[i].End() && d.base <= HoleStart(s0, d, a, i) < d.End()
    ensures i > a ==> d.base <= s0[i].base < d.End() && HoleStart(s0, d, a, i) <= s0[i].base
    ensures i < b - 1 ==> s0[i].End() < d.End()
  {
    if i > a {
      assert s0[i - 1].End() <= s0[i].base;
      assert d.base < s0[i - 1].End();
    }
    if i < b - 1 {
      assert s0[i].End() <= s0[i + 1].base;
    }
  }

  lemma HoleStep(s0: seq<Slot>, d: Slot, valid: bool, a: nat, b: nat, i: nat, hole: seq<Event>)
    requires Ordered(s0) && Reached(s0, d, a, b) && a <= i < b && d.npages > 0
    requires hole == HoleEvents(d, s0[i], valid, i == a || i == b - 1, HoleStart(s0, d, a, i))
    ensures Ascending(hole, HoleStart(s0, d, a, i), Min(Max(s0[i].base, HoleStart(s0, d, a, i)), d.End()))
    ensures forall g: nat :: !Dirty(hole, g)
    ensures forall g: nat :: Fresh(hole, g) <==>
              valid && HoleStart(s0, d, a, i) <= g < s0[i].base && d.Covers(g)
  {
    SlotPlace(s0, d, a, b, i);
    if valid && s0[i].base > HoleStart(s0, d, a, i) {
      forall g: nat ensures Fresh(hole, g) <==> HoleStart(s0, d, a, i) <= g < s0[i].base && d.Covers(g) {
        assert Fresh(hole, g) <==> hole[0].Has(g);
      }
    }
  }

  lemma SlotStep(s0: seq<Slot>, d: Slot, valid: bool, a: nat, b: nat, i: nat, blocks: map<BlockId, Block>, uva: nat, own: seq<Event>)
    requires Ordered(s0) && Reached(s0, d, a, b) && a <= i < b && d.npages > 0
    requires own == SlotEvents(d, s0[i], valid, i == a || i == b - 1, BaseUva(blocks, s0[i].block), uva)
    ensures |own| <= 1
    ensures own != [] ==> own[0].start == Max(s0[i].base, d.base) && own[0].End() == Min(s0[i].End(), d.End())
                          && own[0].npages > 0 && Truthful(own[0], s0, d, blocks, uva) && !own[0].Added?
    ensures own != [] <==> (valid ==> !SameType(d, s0[i])) && s0[i].base < d.End()
  {
    SlotPlace(s0, d, a, b, i);
    if own != [] {
      KindAtIndex(s0, i, own[0].start);
    }
  }

  // ---- The whole broadcast --------------------------------------------------------------------

  /** What the notices tell once the snapshot is done up to s0[i]. */
  ghost predicate ToldUpTo(events: seq<Event>, s0: seq<Slot>, d: Slot, valid: bool, hi: nat, blocks: map<BlockId, Block>, uva: nat) {
    && Ascending(events, d.base, Min(hi, d.End()))
    && (forall g: nat :: Dirty(events, g) <==> g < hi && Stale(s0, d, valid, g))
    && (valid ==> forall g: nat :: Fresh(events, g) <==> g < hi && d.Covers(g) && KindAt(s0, g) == None)
    && (forall e :: e in events ==> Truthful(e, s0, d, blocks, uva))
  }

  lemma DirtyConcat(a: seq<Event>, b: seq<Event>, g: nat)
    ensures Dirty(a + b, g) <==> Dirty(a, g) || Dirty(b, g)
    ensures Fresh(a + b, g) <==> Fresh(a, g) || Fresh(b, g)
  {
    var c := a + b;
    if Dirty(a, g) {
      var i :| 0 <= i < |a| && !a[i].Added? && a[i].Has(g);
      assert c[i] == a[i];
    }
    if Dirty(b, g) {
      var i :| 0 <= i < |b| && !b[i].Added? && b[i].Has(g);
      assert c[|a| + i] == b[i];
    }
    if Fresh(a, g) {
      var i :| 0 <= i < |a| && a[i].Added? && a[i].Has(g);
      assert c[i] == a[i];
    }
    if Fresh(b, g) {
      var i :| 0 <= i < |b| && b[i].Added? && b[i].Has(g);
      assert c[|a| + i] == b[i];
    }
  }

  lemma AscendingConcat(a: seq<Event>, b: seq<Event>, lo: nat, mid: nat, hi: nat)
    requires lo <= mid <= hi && Ascending(a, lo, mid) && Ascending(b, mid, hi)
    ensures Ascending(a + b, lo, hi)
  {
    var c := a + b;
    forall i, j | 0 <= i < j < |c| ensures c[i].End() <= c[j].start {
      if i < |a| && |a| <= j {
        assert c[i] == a[i] && c[j] == b[j - |a|];
      }
    }
  }

  /** One turn of the broadcast loop. */
  lemma ToldStep(events: seq<Event>, s0: seq<Slot>, d: Slot, valid: bool, a: nat, b: nat, i: nat,
                 blocks: map<BlockId, Block>, uva: nat, hole: seq<Event>, own: seq<Event>)
    requires Ordered(s0) && Reached(s0, d, a, b) && a <= i < b && d.npages > 0
    requires ToldUpTo(events, s0, d, valid, HoleStart(s0, d, a, i), blocks, uva)
    requires hole == HoleEvents(d, s0[i], valid, i == a || i == b - 1, HoleStart(s0, d, a, i))
    requires own == SlotEvents(d, s0[i], valid, i == a || i == b - 1, BaseUva(blocks, s0[i].block), uva)
    ensures ToldUpTo(events + hole + own, s0, d, valid, s0[i].End(), blocks, uva)
  {
    ToldStepOrder(events, s0, d, valid, a, b, i, blocks, uva, hole, own);
    ToldStepMeaning(events, s0, d, valid, a, b, i, blocks, uva, hole, own);
  }

  lemma ToldStepOrder(events: seq<Event>, s0: seq<Slot>, d: Slot, valid: bool, a: nat, b: nat, i: nat,
                      blocks: map<BlockId, Block>, uva: nat, hole: seq<Event>, own: seq<Event>)
    requires Ordered(s0) && Reached(s0, d, a, b) && a <= i < b && d.npages > 0
    requires Ascending(events, d.base, Min(HoleStart(s0, d, a, i), d.End()))
    requires forall e :: e in events ==> Truthful(e, s0, d, blocks, uva)
    requires hole == HoleEvents(d, s0[i], valid, i == a || i == b - 1, HoleStart(s0, d, a, i))
    requires own == SlotEvents(d, s0[i], valid, i == a || i == b - 1, BaseUva(blocks, s0[i].block), uva)
    ensures Ascending(events + hole + own, d.base, Min(s0[i].End(), d.End()))
    ensures forall e :: e in events + hole + own ==> Truthful(e, s0, d, blocks, uva)
  {
    var lo := HoleStart(s0, d, a, i);
    var mid := Min(Max(s0[i].base, lo), d.End());
    SlotPlace(s0, d, a, b, i);
    HoleStep(s0, d, valid, a, b, i, hole);
    SlotStep(s0, d, valid, a, b, i, blocks, uva, own);
    AscendingConcat(events, hole, d.base, lo, mid);
    AscendingConcat(events + hole, own, d.base, mid, Min(s0[i].End(), d.End()));
  }

  lemma ToldStepMeaning(events: seq<Event>, s0: seq<Slot>, d: Slot, valid: bool, a: nat, b: nat, i: nat,
                        blocks: map<BlockId, Block>, uva: nat, hole: seq<Event>, own: seq<Event>)
    requires Ordered(s0) && Reached(s0, d, a, b) && a <= i < b && d.npages > 0
    requires ToldUpTo(events, s0, d, valid, HoleStart(s0, d, a, i), blocks, uva)
    requires hole == HoleEvents(d, s0[i], valid, i == a || i == b - 1, HoleStart(s0, d, a, i))
    requires own == SlotEvents(d, s0[i], valid, i == a || i == b - 1, BaseUva(blocks, s0[i].block), uva)
    ensures forall g: nat :: Dirty(events + hole + own, g) <==> g < s0[i].End() && Stale(s0, d, valid, g)
    ensures valid ==> forall g: nat :: Fresh(events + hole + own, g) <==>
              g < s0[i].End() && d.Covers(g) && KindAt(s0, g) == None
  {
    var lo := HoleStart(s0, d, a, i);
    SlotPlace(s0, d, a, b, i);
    HoleStep(s0, d, valid, a, b, i, hole);
    SlotStep(s0, d, valid, a, b, i, blocks, uva, own);
    SameTypeIsSameKind(d, s0[i]);
    forall g: nat
      ensures Dirty(events + hole + own, g) <==> g < s0[i].End() && Stale(s0, d, valid, g)
      ensures valid ==> (Fresh(events + hole + own, g) <==> g < s0[i].End() && d.Covers(g) && KindAt(s0, g) == None)
    {
      DirtyConcat(events + hole, own, g);
      DirtyConcat(events, hole, g);
      assert Dirty(own, g) <==> own != [] && own[0].Has(g);
      if lo <= g < s0[i].End() {
        BetweenSlots(s0, d, a, b, i, g);
      }
    }
  }

  /** At most one notice of a turn makes listeners drop translations, and it comes last. */
  lemma DirtyNotice(s0: seq<Slot>, d: Slot, valid: bool, a: nat, b: nat, i: nat,
                    blocks: map<BlockId, Block>, uva: nat, hole: seq<Event>, own: seq<Event>)
    requires Ordered(s0) && Reached(s0, d, a, b) && a <= i < b && d.npages > 0
    requires hole == HoleEvents(d, s0[i], valid, i == a || i == b - 1, HoleStart(s0, d, a, i))
    requires own == SlotEvents(d, s0[i], valid, i == a || i == b - 1, BaseUva(blocks, s0[i].block), uva)
    ensures forall g: nat :: !Dirty(hole, g)
    ensures |own| <= 1 && (own != [] ==> !own[0].Added?)
  {
    HoleStep(s0, d, valid, a, b, i, hole);
    SlotStep(s0, d, valid, a, b, i, blocks, uva, own);
  }

  /** What is left of the request after the last snapshotted slot. */
  function RestEvents(d: Slot, valid: bool, holeStart: nat): seq<Event> {
    if valid && holeStart < d.End() then [Added(holeStart, d.End() - holeStart)] else []
  }

  lemma ToldRest(events: seq<Event>, s0: seq<Slot>, d: Slot, valid: bool, a: nat, b: nat,
                 blocks: map<BlockId, Block>, uva: nat, rest: seq<Event>)
    requires Ordered(s0) && Reached(s0, d, a, b) && d.npages > 0
    requires d.base <= HoleStart(s0, d, a, b)
    requires ToldUpTo(events, s0, d, valid, HoleStart(s0, d, a, b), blocks, uva)
    requires rest == RestEvents(d, valid, HoleStart(s0, d, a, b))
    ensures ToldUpTo(events + rest, s0, d, valid, d.End(), blocks, uva)
  {
    var hi := HoleStart(s0, d, a, b);
    AscendingConcat(events, rest, d.base, Min(hi, d.End()), d.End());
    forall g: nat
      ensures Dirty(events + rest, g) <==> g < d.End() && Stale(s0, d, valid, g)
      ensures valid ==> (Fresh(events + rest, g) <==> g < d.End() && d.Covers(g) && KindAt(s0, g) == None)
    {
      DirtyConcat(events, rest, g);
      assert Fresh(rest, g) <==> rest != [] && rest[0].Has(g);
      if hi <= g < d.End() {
        BeyondSlots(s0, d, a, b, g);
      }
    }
  }

  /** The request meets no slot. */
  lemma ToldNothing(s0: seq<Slot>, d: Slot, valid: bool, a: nat, blocks: map<BlockId, Block>, uva: nat)
    requires Ordered(s0) && Reached(s0, d, a, a) && d.npages > 0
    ensures ToldUpTo([Added(d.base, d.npages)], s0, d, valid, d.End(), blocks, uva)
    ensures forall g: nat :: !Dirty([Added(d.base, d.npages)], g)
  {
    var events := [Added(d.base, d.npages)];
    forall g: nat ensures d.Covers(g) ==> KindAt(s0, g) == None {
      if d.Covers(g) {
        BeyondSlots(s0, d, a, a, g);
      }
    }
    forall g: nat ensures Fresh(events, g) <==> d.Covers(g) {
      assert Fresh(events, g) <==> events[0].Has(g);
    }
  }

  /** Nothing is mapped, and nothing is asked for. */
  lemma ToldSilently(d: Slot, blocks: map<BlockId, Block>, uva: nat)
    ensures ToldUpTo([], [], d, false, d.End(), blocks, uva)
  {
  }
}
