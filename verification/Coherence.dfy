/**
 The EPT as a cache of the memory map: what its leaves must agree with, and which blocks they need
 pinned.
 */
module Coherence {
  import opened Memslots
  import opened Surgery
  import opened Updates
  import opened Broadcasts
  import opened Ramblocks
  import opened Leaves

  /** What the one-page translation of a gfn gives. */
  function LeafAt(slots: seq<Slot>, blocks: map<BlockId, Block>, g: nat): Option<Leaf> {
    match KindAt(slots, g)
    case None => None
    case Some(k) =>
      var t := TargetOf(k, g);
      match PfnAt(blocks, t.block, t.offset)
      case None => None
      case Some(pfn) => Some(Leaf(pfn, !t.readonly))
  }

  /** Every present leaf is the translation of its gfn; in particular its page is pinned. */
  ghost predicate Coherent(slots: seq<Slot>, blocks: map<BlockId, Block>, leaves: map<nat, Leaf>) {
    forall g :: g in leaves ==> LeafAt(slots, blocks, g) == Some(leaves[g])
  }

  /** The blocks that leaves point into are referred to. */
  ghost predicate Held(slots: seq<Slot>, leaves: map<nat, Leaf>, counts: map<BlockId, int>) {
    forall g :: g in leaves && KindAt(slots, g).Some? ==>
      var b := KindAt(slots, g).value.block; b in counts && counts[b] > 0
  }

  /** The leaves that survive the notices. */
  ghost predicate Purged(leaves0: map<nat, Leaf>, leaves: map<nat, Leaf>, events: seq<Event>) {
    && (forall g: nat :: g in leaves <==> g in leaves0 && !Dirty(events, g))
    && (forall g: nat :: g in leaves ==> leaves[g] == leaves0[g])
  }

  function Invalidated(leaves: map<nat, Leaf>, own: seq<Event>): map<nat, Leaf> {
    if own == [] then leaves else ClearRange(leaves, own[0].start, own[0].npages)
  }

  lemma PurgeStep(leaves0: map<nat, Leaf>, leaves: map<nat, Leaf>, leaves': map<nat, Leaf>,
                  events: seq<Event>, hole: seq<Event>, own: seq<Event>)
    requires Purged(leaves0, leaves, events)
    requires forall g: nat :: !Dirty(hole, g)
    requires |own| <= 1 && (own != [] ==> !own[0].Added?)
    requires leaves' == Invalidated(leaves, own)
    ensures Purged(leaves0, leaves', events + hole + own)
  {
    forall g: nat ensures Dirty(events + hole + own, g) <==> Dirty(events, g) || (own != [] && own[0].Has(g)) {
      DirtyConcat(events + hole, own, g);
      DirtyConcat(events, hole, g);
      assert Dirty(own, g) <==> own != [] && own[0].Has(g);
    }
  }

  lemma DropKeepsLeaves(slots: seq<Slot>, leaves: map<nat, Leaf>, counts: map<BlockId, int>,
                        blocks0: map<BlockId, Block>, blocks: map<BlockId, Block>)
    requires Coherent(slots, blocks0, leaves) && Held(slots, leaves, counts)
    requires counts.Keys == blocks.Keys && Dropped(blocks0, blocks, counts)
    ensures Coherent(slots, blocks, leaves)
  {
    forall g | g in leaves ensures LeafAt(slots, blocks, g) == Some(leaves[g]) {
      assert LeafAt(slots, blocks0, g) == Some(leaves[g]);
      var b := KindAt(slots, g).value.block;
      assert b in counts && counts[b] > 0;
      assert blocks[b] == blocks0[b];
    }
  }

  // ---- While listeners are being told -----------------------------------------------------------

  /** Half way through a broadcast, the leaves that the request does away with are gone below `hi`. */
  ghost predicate Swept(s0: seq<Slot>, d: Slot, valid: bool, hi: nat, leaves: map<nat, Leaf>) {
    forall g: nat :: g in leaves ==> !(g < hi && Stale(s0, d, valid, g))
  }

  lemma SweptAfter(s0: seq<Slot>, d: Slot, valid: bool, hi: nat, blocks0: map<BlockId, Block>, uva: nat,
                   leaves0: map<nat, Leaf>, leaves: map<nat, Leaf>, events: seq<Event>)
    requires ToldUpTo(events, s0, d, valid, hi, blocks0, uva) && Purged(leaves0, leaves, events)
    ensures Swept(s0, d, valid, hi, leaves)
  {
    forall g: nat | g in leaves ensures !(g < hi && Stale(s0, d, valid, g)) {
      assert !Dirty(events, g);
    }
  }

  /** Every leaf still there is held: outside the request by the new list, behind the cursor by the
      request itself, ahead of it by the snapshot. */
  lemma HeldMidway(s0: seq<Slot>, slots: seq<Slot>, d: Slot, valid: bool, a: nat, b: nat, i: nat,
                   leaves: map<nat, Leaf>, counts: map<BlockId, int>, local: multiset<BlockId>)
    requires Ordered(s0) && Reached(s0, d, a, b) && a <= i <= b && d.npages > 0
    requires PointUpdate(s0, slots, d, Outcome(s0, d, valid))
    requires Counted(counts, slots, s0[i..b], local) && (valid ==> d.block in local)
    requires Swept(s0, d, valid, HoleStart(s0, d, a, i), leaves)
    ensures Held(s0, leaves, counts)
  {
    forall g | g in leaves && KindAt(s0, g).Some?
      ensures var c := KindAt(s0, g).value.block; c in counts && counts[c] > 0
    {
      var c := KindAt(s0, g).value.block;
      if !d.Covers(g) {
        assert KindAt(slots, g) == KindAt(s0, g);
        var j := KindAtSome(slots, g);
        RefsMember(slots, j);
      } else if g >= HoleStart(s0, d, a, i) {
        var j := KindAtSome(s0, g);
        AheadOfCursor(s0, d, a, b, i, j, g);
        assert s0[i..b][j - i] == s0[j];
        RefsMember(s0[i..b], j - i);
      } else {
        assert !Stale(s0, d, valid, g);
      }
      assert Refs(slots, c) + Refs(s0[i..b], c) + local[c] > 0;
    }
  }

  lemma AheadOfCursor(s0: seq<Slot>, d: Slot, a: nat, b: nat, i: nat, j: nat, g: nat)
    requires Ordered(s0) && Reached(s0, d, a, b) && a <= i <= b
    requires j < |s0| && s0[j].Covers(g) && d.Covers(g) && g >= HoleStart(s0, d, a, i)
    ensures i <= j < b
  {
  }

  // ---- The broadcast as a whole -----------------------------------------------------------------

  datatype Listening = Listening(ram: Ram, leaves: map<nat, Leaf>, events: seq<Event>)

  /** The first half of a turn of the broadcast: listeners are told about a snapshotted slot. */
  function Told(t: Listening, d: Slot, valid: bool, uva: nat, s: Slot, terminal: bool, holeStart: nat): Listening {
    var hole := HoleEvents(d, s, valid, terminal, holeStart);
    var own := SlotEvents(d, s, valid, terminal, BaseUva(t.ram.blocks, s.block), uva);
    t.(leaves := Invalidated(t.leaves, own), events := t.events + hole + own)
  }

  /** The second half: the copy is given up. */
  function Released(t: Listening, b: BlockId): Listening {
    t.(ram := DerefRam(t.ram, b))
  }

  function TellSlot(t: Listening, d: Slot, valid: bool, uva: nat, s: Slot, terminal: bool, holeStart: nat): Listening {
    Released(Told(t, d, valid, uva, s, terminal, holeStart), s.block)
  }

  /** A reference may be given up when every leaf that is present is in a block that is referred to even without it. */
  ghost predicate MayRelease(s0: seq<Slot>, t: Listening, b: BlockId) {
    Held(s0, t.leaves, Released(t, b).ram.counts)
  }

  /** Telling only drops leaves. */
  lemma ToldCoherent(s0: seq<Slot>, t: Listening, d: Slot, valid: bool, uva: nat, s: Slot, terminal: bool, holeStart: nat, t': Listening)
    requires Coherent(s0, t.ram.blocks, t.leaves) && t' == Told(t, d, valid, uva, s, terminal, holeStart)
    ensures Coherent(s0, t'.ram.blocks, t'.leaves)
  {
    forall g | g in t'.leaves ensures LeafAt(s0, t'.ram.blocks, g) == Some(t'.leaves[g]) {
      assert g in t.leaves && LeafAt(s0, t.ram.blocks, g) == Some(t.leaves[g]);
    }
  }

  /** Giving up a reference that may be given up leaves every leaf on a pinned page. */
  lemma ReleasedCoherent(s0: seq<Slot>, t: Listening, b: BlockId, t': Listening)
    requires t.ram.counts.Keys == t.ram.blocks.Keys && Coherent(s0, t.ram.blocks, t.leaves)
    requires MayRelease(s0, t, b) && t' == Released(t, b)
    ensures Coherent(s0, t'.ram.blocks, t'.leaves)
  {
    DerefDrops(t.ram, b, t'.ram);
    DerefSettles(t.ram, b, t'.ram);
    DropKeepsLeaves(s0, t.leaves, t'.ram.counts, t.ram.blocks, t'.ram.blocks);
  }

  function TellUpTo(t0: Listening, d: Slot, valid: bool, uva: nat, snapshot: seq<Slot>, j: nat): Listening
    requires j <= |snapshot|
  {
    if j == 0 then t0
    else
      TellSlot(TellUpTo(t0, d, valid, uva, snapshot, j - 1), d, valid, uva,
               snapshot[j - 1], j == 1 || j == |snapshot|, if j == 1 then d.base else snapshot[j - 2].End())
  }

  lemma {:induction false} TellSound(t0: Listening, d: Slot, valid: bool, uva: nat, snapshot: seq<Slot>, j: nat,
                                     slots: seq<Slot>, local: multiset<BlockId>, t': Listening)
    requires j <= |snapshot| && Sound(t0.ram, slots, snapshot, local) && t' == TellUpTo(t0, d, valid, uva, snapshot, j)
    ensures Sound(t'.ram, slots, snapshot[j..], local)
  {
    if j == 0 {
      assert snapshot[0..] == snapshot;
    } else {
      var k, rest, left := j - 1, snapshot[j - 1..], snapshot[j..];
      var t := TellUpTo(t0, d, valid, uva, snapshot, k);
      TellSound(t0, d, valid, uva, snapshot, k, slots, local, t);
      assert rest[1..] == left && rest[0] == snapshot[k];
      DerefHead(t.ram, t'.ram, slots, rest, local);
    }
  }

  lemma {:induction false} TellDrops(t0: Listening, d: Slot, valid: bool, uva: nat, snapshot: seq<Slot>, j: nat, t': Listening)
    requires j <= |snapshot| && t0.ram.counts.Keys == t0.ram.blocks.Keys && t' == TellUpTo(t0, d, valid, uva, snapshot, j)
    ensures t'.ram.counts.Keys == t'.ram.blocks.Keys && Dropped(t0.ram.blocks, t'.ram.blocks, t'.ram.counts)
  {
    if j > 0 {
      var t := TellUpTo(t0, d, valid, uva, snapshot, j - 1);
      TellDrops(t0, d, valid, uva, snapshot, j - 1, t);
      DerefDrops(t.ram, snapshot[j - 1].block, t'.ram);
      DerefSettles(t.ram, snapshot[j - 1].block, t'.ram);
      DroppedTrans(t0.ram.blocks, t.ram.blocks, t'.ram.blocks, t.ram.counts, t'.ram.counts);
    }
  }

  /** A block the rest of the snapshot refers to is still where it was. */
  ghost predicate BaseStays(t0: Listening, d: Slot, valid: bool, uva: nat, snapshot: seq<Slot>, j: nat)
    requires j < |snapshot|
  {
    BaseUva(TellUpTo(t0, d, valid, uva, snapshot, j).ram.blocks, snapshot[j].block) == BaseUva(t0.ram.blocks, snapshot[j].block)
  }

  /** A block the rest of the snapshot refers to is still there. */
  ghost predicate BlockThere(t0: Listening, d: Slot, valid: bool, uva: nat, snapshot: seq<Slot>, j: nat)
    requires j < |snapshot|
  {
    var t := TellUpTo(t0, d, valid, uva, snapshot, j);
    snapshot[j].block in t.ram.counts && t.ram.counts.Keys == t.ram.blocks.Keys
  }

  lemma TellInBlocks(t0: Listening, d: Slot, valid: bool, uva: nat, snapshot: seq<Slot>, j: nat,
                     slots: seq<Slot>, local: multiset<BlockId>)
    requires j < |snapshot| && Sound(t0.ram, slots, snapshot, local)
    ensures BlockThere(t0, d, valid, uva, snapshot, j)
  {
    var t, rest := TellUpTo(t0, d, valid, uva, snapshot, j), snapshot[j..];
    TellSound(t0, d, valid, uva, snapshot, j, slots, local, t);
    RefsMember(rest, 0);
    assert Refs(slots, rest[0].block) + Refs(rest, rest[0].block) + local[rest[0].block] > 0;
  }

  lemma TellInAll(t0: Listening, d: Slot, valid: bool, uva: nat, snapshot: seq<Slot>, slots: seq<Slot>, local: multiset<BlockId>)
    requires Sound(t0.ram, slots, snapshot, local)
    ensures forall j :: 0 <= j < |snapshot| ==> BlockThere(t0, d, valid, uva, snapshot, j)
  {
    forall j | 0 <= j < |snapshot| ensures BlockThere(t0, d, valid, uva, snapshot, j) {
      TellInBlocks(t0, d, valid, uva, snapshot, j, slots, local);
    }
  }

  lemma TellBase(t0: Listening, d: Slot, valid: bool, uva: nat, snapshot: seq<Slot>, j: nat,
                 slots: seq<Slot>, local: multiset<BlockId>)
    requires j < |snapshot| && Sound(t0.ram, slots, snapshot, local)
    ensures BaseStays(t0, d, valid, uva, snapshot, j)
  {
    var t := TellUpTo(t0, d, valid, uva, snapshot, j);
    TellInBlocks(t0, d, valid, uva, snapshot, j, slots, local);
    TellDrops(t0, d, valid, uva, snapshot, j, t);
  }

  /** A turn, in terms of the list instead of the snapshot. */
  lemma TellArgs(t0: Listening, d: Slot, valid: bool, uva: nat, snapshot: seq<Slot>, j: nat,
                 s0: seq<Slot>, a: nat, b: nat, i: nat, lo: nat, t: Listening, t': Listening)
    requires 0 < j <= |snapshot| && a <= b <= |s0| && snapshot == s0[a..b] && i == a + j - 1 && lo == HoleStart(s0, d, a, i)
    requires t == TellUpTo(t0, d, valid, uva, snapshot, j - 1) && t' == TellUpTo(t0, d, valid, uva, snapshot, j)
    ensures t' == TellSlot(t, d, valid, uva, s0[i], i == a || i == b - 1, lo)
  {
    var s, terminal, start := snapshot[j - 1], j == 1 || j == |snapshot|, if j == 1 then d.base else snapshot[j - 2].End();
    TellNext(t0, d, valid, uva, snapshot, j, s, terminal, start, t, t');
    assert s == s0[i] && terminal == (i == a || i == b - 1) && start == lo;
  }

  lemma TellNext(t0: Listening, d: Slot, valid: bool, uva: nat, snapshot: seq<Slot>, j: nat,
                 s: Slot, terminal: bool, start: nat, t: Listening, t': Listening)
    requires 0 < j <= |snapshot| && s == snapshot[j - 1] && terminal == (j == 1 || j == |snapshot|)
    requires start == if j == 1 then d.base else snapshot[j - 2].End()
    requires t == TellUpTo(t0, d, valid, uva, snapshot, j - 1) && t' == TellUpTo(t0, d, valid, uva, snapshot, j)
    ensures t' == TellSlot(t, d, valid, uva, s, terminal, start)
  {
  }

  lemma {:induction false} TellTold(t0: Listening, d: Slot, valid: bool, uva: nat, snapshot: seq<Slot>, j: nat,
                                    s0: seq<Slot>, a: nat, b: nat, hi: nat, t': Listening)
    requires j <= |snapshot| && t0.events == [] && t' == TellUpTo(t0, d, valid, uva, snapshot, j)
    requires forall i :: 0 <= i < j ==> BaseStays(t0, d, valid, uva, snapshot, i)
    requires Ordered(s0) && Snapshotted(s0, d, a, b, snapshot) && d.npages > 0 && hi == HoleStart(s0, d, a, a + j)
    ensures ToldUpTo(t'.events, s0, d, valid, hi, t0.ram.blocks, uva)
    ensures Purged(t0.leaves, t'.leaves, t'.events)
  {
    if j > 0 {
      var i, k := a + j - 1, j - 1;
      var t := TellUpTo(t0, d, valid, uva, snapshot, k);
      var lo := HoleStart(s0, d, a, i);
      TellTold(t0, d, valid, uva, snapshot, k, s0, a, b, lo, t);
      assert BaseStays(t0, d, valid, uva, snapshot, k);
      TellToldStep(t0, d, valid, uva, snapshot, j, k, s0, a, b, i, lo, hi, t, t');
    }
  }

  lemma TellToldStep(t0: Listening, d: Slot, valid: bool, uva: nat, snapshot: seq<Slot>, j: nat, k: nat,
                     s0: seq<Slot>, a: nat, b: nat, i: nat, lo: nat, hi: nat, t: Listening, t': Listening)
    requires 0 < j <= |snapshot| && k == j - 1
    requires Ordered(s0) && Snapshotted(s0, d, a, b, snapshot) && d.npages > 0
    requires i == a + k && lo == HoleStart(s0, d, a, i) && hi == HoleStart(s0, d, a, i + 1)
    requires BaseUva(t.ram.blocks, s0[i].block) == BaseUva(t0.ram.blocks, s0[i].block)
    requires t == TellUpTo(t0, d, valid, uva, snapshot, k) && t' == TellUpTo(t0, d, valid, uva, snapshot, j)
    requires ToldUpTo(t.events, s0, d, valid, lo, t0.ram.blocks, uva) && Purged(t0.leaves, t.leaves, t.events)
    ensures ToldUpTo(t'.events, s0, d, valid, hi, t0.ram.blocks, uva) && Purged(t0.leaves, t'.leaves, t'.events)
  {
    TellArgs(t0, d, valid, uva, snapshot, j, s0, a, b, i, lo, t, t');
    TellTurn(t, t', s0, d, valid, a, b, i, lo, hi, t0.ram.blocks, uva, t0.leaves);
  }

  lemma TellTurn(t: Listening, t': Listening, s0: seq<Slot>, d: Slot, valid: bool, a: nat, b: nat, i: nat, lo: nat, hi: nat,
                 blocks0: map<BlockId, Block>, uva: nat, leaves0: map<nat, Leaf>)
    requires Ordered(s0) && Reached(s0, d, a, b) && a <= i < b && d.npages > 0
    requires lo == HoleStart(s0, d, a, i) && hi == s0[i].End()
    requires ToldUpTo(t.events, s0, d, valid, lo, blocks0, uva) && Purged(leaves0, t.leaves, t.events)
    requires BaseUva(t.ram.blocks, s0[i].block) == BaseUva(blocks0, s0[i].block)
    requires t' == TellSlot(t, d, valid, uva, s0[i], i == a || i == b - 1, lo)
    ensures ToldUpTo(t'.events, s0, d, valid, hi, blocks0, uva) && Purged(leaves0, t'.leaves, t'.events)
  {
    var hole := HoleEvents(d, s0[i], valid, i == a || i == b - 1, lo);
    var own := SlotEvents(d, s0[i], valid, i == a || i == b - 1, BaseUva(blocks0, s0[i].block), uva);
    DirtyNotice(s0, d, valid, a, b, i, blocks0, uva, hole, own);
    ToldStep(t.events, s0, d, valid, a, b, i, blocks0, uva, hole, own);
    PurgeStep(leaves0, t.leaves, t'.leaves, t.events, hole, own);
  }

  lemma TellTellsUpTo(t0: Listening, d: Slot, valid: bool, uva: nat, snapshot: seq<Slot>, j: nat,
                      slots: seq<Slot>, local: multiset<BlockId>, s0: seq<Slot>, a: nat, b: nat, hi: nat, t: Listening)
    requires j <= |snapshot| && Sound(t0.ram, slots, snapshot, local) && t0.events == []
    requires Ordered(s0) && Snapshotted(s0, d, a, b, snapshot) && d.npages > 0
    requires t == TellUpTo(t0, d, valid, uva, snapshot, j) && hi == HoleStart(s0, d, a, a + j)
    ensures ToldUpTo(t.events, s0, d, valid, hi, t0.ram.blocks, uva)
    ensures Purged(t0.leaves, t.leaves, t.events)
  {
    forall i | 0 <= i < j ensures BaseStays(t0, d, valid, uva, snapshot, i) {
      TellBase(t0, d, valid, uva, snapshot, i, slots, local);
    }
    TellTold(t0, d, valid, uva, snapshot, j, s0, a, b, hi, t);
  }

  /** Between the halves of turn j: listeners know about the slot, its copy is still there. */
  function Midway(t0: Listening, d: Slot, valid: bool, uva: nat, snapshot: seq<Slot>, j: nat): Listening
    requires j < |snapshot|
  {
    Told(TellUpTo(t0, d, valid, uva, snapshot, j), d, valid, uva, snapshot[j], j == 0 || j == |snapshot| - 1,
         if j == 0 then d.base else snapshot[j - 1].End())
  }

  /** At that moment the copy may be given up. */
  ghost predicate TurnHeld(t0: Listening, d: Slot, valid: bool, uva: nat, snapshot: seq<Slot>, s0: seq<Slot>, j: nat)
    requires j < |snapshot|
  {
    MayRelease(s0, Midway(t0, d, valid, uva, snapshot, j), snapshot[j].block)
  }

  lemma TellHeld(t0: Listening, d: Slot, valid: bool, uva: nat, snapshot: seq<Slot>, j: nat,
                 slots: seq<Slot>, local: multiset<BlockId>, s0: seq<Slot>, a: nat, b: nat)
    requires j < |snapshot| && Sound(t0.ram, slots, snapshot, local) && t0.events == []
    requires Ordered(s0) && Snapshotted(s0, d, a, b, snapshot) && d.npages > 0
    requires PointUpdate(s0, slots, d, Outcome(s0, d, valid)) && (valid ==> d.block in local)
    ensures TurnHeld(t0, d, valid, uva, snapshot, s0, j)
  {
    var k, i := j + 1, a + j + 1;
    var hi, t, t' := HoleStart(s0, d, a, i), TellUpTo(t0, d, valid, uva, snapshot, j), TellUpTo(t0, d, valid, uva, snapshot, k);
    var start := if j == 0 then d.base else snapshot[j - 1].End();
    TellNext(t0, d, valid, uva, snapshot, k, snapshot[j], j == 0 || j == |snapshot| - 1, start, t, t');
    HeldAfter(t0, d, valid, uva, snapshot, k, slots, local, s0, a, b, i, hi, t');
  }

  /** After a number of turns every leaf that is present is in a block that is referred to. */
  lemma HeldAfter(t0: Listening, d: Slot, valid: bool, uva: nat, snapshot: seq<Slot>, k: nat,
                  slots: seq<Slot>, local: multiset<BlockId>, s0: seq<Slot>, a: nat, b: nat, i: nat, hi: nat, t: Listening)
    requires k <= |snapshot| && Sound(t0.ram, slots, snapshot, local) && t0.events == []
    requires Ordered(s0) && Snapshotted(s0, d, a, b, snapshot) && d.npages > 0
    requires PointUpdate(s0, slots, d, Outcome(s0, d, valid)) && (valid ==> d.block in local)
    requires i == a + k && hi == HoleStart(s0, d, a, i) && t == TellUpTo(t0, d, valid, uva, snapshot, k)
    ensures Held(s0, t.leaves, t.ram.counts)
  {
    TellTellsUpTo(t0, d, valid, uva, snapshot, k, slots, local, s0, a, b, hi, t);
    SweptAfter(s0, d, valid, hi, t0.ram.blocks, uva, t0.leaves, t.leaves, t.events);
    TellSound(t0, d, valid, uva, snapshot, k, slots, local, t);
    var rest := snapshot[k..];
    assert rest == s0[i..b];
    HeldMidway(s0, slots, d, valid, a, b, i, t.leaves, t.ram.counts, local);
  }

  /** What the turn needs, in terms of the state it starts in. */
  lemma TurnReady(t0: Listening, d: Slot, valid: bool, uva: nat, snapshot: seq<Slot>, s0: seq<Slot>, j: nat,
                  s: Slot, terminal: bool, start: nat, t: Listening)
    requires j < |snapshot| && BlockThere(t0, d, valid, uva, snapshot, j) && TurnHeld(t0, d, valid, uva, snapshot, s0, j)
    requires s == snapshot[j] && terminal == (j == 0 || j == |snapshot| - 1)
    requires start == (if j == 0 then d.base else snapshot[j - 1].End()) && t == TellUpTo(t0, d, valid, uva, snapshot, j)
    ensures s.block in t.ram.counts && t.ram.counts.Keys == t.ram.blocks.Keys
    ensures MayRelease(s0, Told(t, d, valid, uva, s, terminal, start), s.block)
  {
  }

  lemma TellHeldAll(t0: Listening, d: Slot, valid: bool, uva: nat, snapshot: seq<Slot>,
                    slots: seq<Slot>, local: multiset<BlockId>, s0: seq<Slot>, a: nat, b: nat)
    requires Sound(t0.ram, slots, snapshot, local) && t0.events == []
    requires Ordered(s0) && Snapshotted(s0, d, a, b, snapshot) && d.npages > 0
    requires PointUpdate(s0, slots, d, Outcome(s0, d, valid)) && (valid ==> d.block in local)
    ensures forall j :: 0 <= j < |snapshot| ==> TurnHeld(t0, d, valid, uva, snapshot, s0, j)
  {
    forall j | 0 <= j < |snapshot| ensures TurnHeld(t0, d, valid, uva, snapshot, s0, j) {
      TellHeld(t0, d, valid, uva, snapshot, j, slots, local, s0, a, b);
    }
  }

  /** No moment of a broadcast leaves a leaf without its pinned page, neither between two turns nor between the
      halves of one: the last reference to a block goes only when no leaf points into it. */
  lemma {:induction false} TellCoherent(t0: Listening, d: Slot, valid: bool, uva: nat, snapshot: seq<Slot>, j: nat,
                                        slots: seq<Slot>, local: multiset<BlockId>, s0: seq<Slot>, a: nat, b: nat, t: Listening)
    requires j <= |snapshot| && Sound(t0.ram, slots, snapshot, local) && t0.events == []
    requires Ordered(s0) && Snapshotted(s0, d, a, b, snapshot) && d.npages > 0
    requires PointUpdate(s0, slots, d, Outcome(s0, d, valid)) && (valid ==> d.block in local)
    requires Coherent(s0, t0.ram.blocks, t0.leaves) && t == TellUpTo(t0, d, valid, uva, snapshot, j)
    ensures Coherent(s0, t.ram.blocks, t.leaves)
    ensures j < |snapshot| ==> var told := Midway(t0, d, valid, uva, snapshot, j); Coherent(s0, told.ram.blocks, told.leaves)
  {
    if j > 0 {
      var k := j - 1;
      var before := TellUpTo(t0, d, valid, uva, snapshot, k);
      TellCoherent(t0, d, valid, uva, snapshot, k, slots, local, s0, a, b, before);
      TellHeld(t0, d, valid, uva, snapshot, k, slots, local, s0, a, b);
      TellDrops(t0, d, valid, uva, snapshot, k, before);
      TurnCoherent(t0, d, valid, uva, snapshot, s0, k, j, t);
    }
    if j < |snapshot| {
      ToldCoherent(s0, t, d, valid, uva, snapshot[j], j == 0 || j == |snapshot| - 1,
                   if j == 0 then d.base else snapshot[j - 1].End(), Midway(t0, d, valid, uva, snapshot, j));
    }
  }

  /** The second half of a turn. */
  lemma TurnCoherent(t0: Listening, d: Slot, valid: bool, uva: nat, snapshot: seq<Slot>, s0: seq<Slot>, k: nat, j: nat, t: Listening)
    requires j == k + 1 <= |snapshot| && t == TellUpTo(t0, d, valid, uva, snapshot, j) && TurnHeld(t0, d, valid, uva, snapshot, s0, k)
    requires var told := Midway(t0, d, valid, uva, snapshot, k);
             told.ram.counts.Keys == told.ram.blocks.Keys && Coherent(s0, told.ram.blocks, told.leaves)
    ensures Coherent(s0, t.ram.blocks, t.leaves)
  {
    var told := Midway(t0, d, valid, uva, snapshot, k);
    assert t == Released(told, snapshot[k].block);
    ReleasedCoherent(s0, told, snapshot[k].block, t);
  }

  // ---- A request from beginning to end ----------------------------------------------------------

  /** Blocks may be added, with nothing pinned, but those there are stay as they are. */
  ghost predicate Grown(blocks: map<BlockId, Block>, blocks': map<BlockId, Block>) {
    && (forall b :: b in blocks ==> b in blocks' && blocks'[b] == blocks[b])
    && (forall b :: b in blocks' && b !in blocks ==> blocks'[b].chunks == map[])
  }

  /** A new block does not disturb the translations there are. */
  lemma GrowKeepsLeaves(slots: seq<Slot>, leaves: map<nat, Leaf>, blocks: map<BlockId, Block>, blocks': map<BlockId, Block>)
    requires Coherent(slots, blocks, leaves) && Grown(blocks, blocks')
    ensures Coherent(slots, blocks', leaves)
  {
    forall g | g in leaves ensures LeafAt(slots, blocks', g) == Some(leaves[g]) {
      assert LeafAt(slots, blocks, g) == Some(leaves[g]);
    }
  }

  /** The list holds the blocks of whatever it translates. */
  lemma HeldByList(slots: seq<Slot>, leaves: map<nat, Leaf>, counts: map<BlockId, int>, snapshot: seq<Slot>, local: multiset<BlockId>)
    requires Counted(counts, slots, snapshot, local)
    ensures Held(slots, leaves, counts)
  {
    forall g | g in leaves && KindAt(slots, g).Some?
      ensures var b := KindAt(slots, g).value.block; b in counts && counts[b] > 0
    {
      var j := KindAtSome(slots, g);
      RefsMember(slots, j);
      assert Refs(slots, slots[j].block) + Refs(snapshot, slots[j].block) + local[slots[j].block] > 0;
    }
  }

  /** What a request that succeeds has told, dropped and kept. */
  ghost predicate Settles(s0: seq<Slot>, slots: seq<Slot>, d: Slot, valid: bool, uva: nat, local: multiset<BlockId>,
                          blocks0: map<BlockId, Block>, leaves0: map<nat, Leaf>, ram: Ram, leaves: map<nat, Leaf>, events: seq<Event>)
  {
    && Sound(ram, slots, [], local)
    && Dropped(blocks0, ram.blocks, ram.counts)
    && ToldUpTo(events, s0, d, valid, d.End(), blocks0, uva)
    && Purged(leaves0, leaves, events)
    && (Coherent(s0, blocks0, leaves0) ==> Coherent(s0, ram.blocks, leaves))
  }

  lemma TellSettles(t0: Listening, t: Listening, d: Slot, valid: bool, uva: nat, snapshot: seq<Slot>,
                    slots: seq<Slot>, local: multiset<BlockId>, s0: seq<Slot>, a: nat, b: nat)
    requires snapshot != [] && Sound(t0.ram, slots, snapshot, local) && t0.events == []
    requires Ordered(s0) && Snapshotted(s0, d, a, b, snapshot) && d.npages > 0
    requires PointUpdate(s0, slots, d, Outcome(s0, d, valid)) && (valid ==> d.block in local)
    requires var t1 := TellUpTo(t0, d, valid, uva, snapshot, |snapshot|);
             t == t1.(events := t1.events + RestEvents(d, valid, snapshot[|snapshot| - 1].End()))
    ensures Sound(t.ram, slots, [], local) && Dropped(t0.ram.blocks, t.ram.blocks, t.ram.counts)
    ensures Coherent(s0, t0.ram.blocks, t0.leaves) ==> Coherent(s0, t.ram.blocks, t.leaves)
  {
    var t1 := TellUpTo(t0, d, valid, uva, snapshot, |snapshot|);
    TellSound(t0, d, valid, uva, snapshot, |snapshot|, slots, local, t1);
    TellDrops(t0, d, valid, uva, snapshot, |snapshot|, t1);
    if Coherent(s0, t0.ram.blocks, t0.leaves) {
      TellCoherent(t0, d, valid, uva, snapshot, |snapshot|, slots, local, s0, a, b, t1);
    }
  }

  lemma TellTells(t0: Listening, t: Listening, d: Slot, valid: bool, uva: nat, snapshot: seq<Slot>,
                  slots: seq<Slot>, local: multiset<BlockId>, s0: seq<Slot>, a: nat, b: nat)
    requires snapshot != [] && Sound(t0.ram, slots, snapshot, local) && t0.events == []
    requires Ordered(s0) && Snapshotted(s0, d, a, b, snapshot) && d.npages > 0
    requires var t1 := TellUpTo(t0, d, valid, uva, snapshot, |snapshot|);
             t == t1.(events := t1.events + RestEvents(d, valid, snapshot[|snapshot| - 1].End()))
    ensures ToldUpTo(t.events, s0, d, valid, d.End(), t0.ram.blocks, uva) && Purged(t0.leaves, t.leaves, t.events)
  {
    var t1 := TellUpTo(t0, d, valid, uva, snapshot, |snapshot|);
    var hi := s0[b - 1].End();
    TellTellsUpTo(t0, d, valid, uva, snapshot, |snapshot|, slots, local, s0, a, b, hi, t1);
    TellRest(t1.events, t1.leaves, s0, d, valid, a, b, hi, t0.ram.blocks, uva, t0.leaves, t.events);
  }

  lemma TellRest(events: seq<Event>, leaves: map<nat, Leaf>, s0: seq<Slot>, d: Slot, valid: bool, a: nat, b: nat, hi: nat,
                 blocks0: map<BlockId, Block>, uva: nat, leaves0: map<nat, Leaf>, events': seq<Event>)
    requires Ordered(s0) && Reached(s0, d, a, b) && a < b && d.npages > 0 && hi == s0[b - 1].End()
    requires ToldUpTo(events, s0, d, valid, hi, blocks0, uva) && Purged(leaves0, leaves, events)
    requires events' == events + RestEvents(d, valid, hi)
    ensures ToldUpTo(events', s0, d, valid, d.End(), blocks0, uva) && Purged(leaves0, leaves, events')
  {
    var rest := RestEvents(d, valid, hi);
    assert HoleStart(s0, d, a, b) == hi;
    ToldRest(events, s0, d, valid, a, b, blocks0, uva, rest);
    forall g: nat ensures Dirty(events', g) <==> Dirty(events, g) {
      DirtyConcat(events, rest, g);
    }
  }

  /** A request that succeeds: a point update of the map; listeners learn exactly what changed; only the
      leaves they were told about are gone; blocks that are referred to keep their chunks. */
  ghost predicate Performed(s0: seq<Slot>, blocks0: map<BlockId, Block>, leaves0: map<nat, Leaf>, d: Slot, valid: bool, uva: nat,
                            slots: seq<Slot>, ram: Ram, leaves: map<nat, Leaf>, events: seq<Event>)
  {
    && Updated(s0, slots, d, valid)
    && ToldUpTo(events, s0, d, valid, d.End(), blocks0, uva)
    && Purged(leaves0, leaves, events)
    && Dropped(blocks0, ram.blocks, ram.counts)
  }

  /** A leaf in the range of a mapping that nobody is told about, because it already has the type asked for. */
  ghost predicate Untold(s0: seq<Slot>, d: Slot, leaves: map<nat, Leaf>) {
    exists g :: g in leaves && d.Covers(g) && KindAt(s0, g) == Some(d.Kind())
  }

  /** After a mapping its block is still named by the list: by the range itself, or outside it as before. */
  ghost predicate StillNamed(s0: seq<Slot>, d: Slot) {
    || EffectiveKind(s0, d).block == d.block
    || exists g: nat :: !d.Covers(g) && KindAt(s0, g).Some? && KindAt(s0, g).value.block == d.block
  }

  /** The leaves left follow the new map exactly if the mapping took effect as asked or left none untold. */
  lemma FollowsIff(s0: seq<Slot>, blocks0: map<BlockId, Block>, leaves0: map<nat, Leaf>, d: Slot, uva: nat,
                   slots: seq<Slot>, ram: Ram, leaves: map<nat, Leaf>, events: seq<Event>)
    requires Performed(s0, blocks0, leaves0, d, true, uva, slots, ram, leaves, events) && Coherent(s0, blocks0, leaves0)
    ensures (forall g :: g in leaves ==> KindAt(slots, g) == KindAt(s0, g)) <==> Faithful(s0, d) || !Untold(s0, d, leaves0)
  {
    EffectiveIsRequested(s0, d);
    if g :| g in leaves0 && d.Covers(g) && KindAt(s0, g) == Some(d.Kind()) {
      assert g in leaves;
    }
    forall g | g in leaves && d.Covers(g) ensures KindAt(s0, g) == Some(d.Kind()) {
      assert LeafAt(s0, blocks0, g) == Some(leaves0[g]);
      assert !Stale(s0, d, true, g);
    }
  }

  /** Every leaf left is still on its pinned page exactly if none is untold or the mapping's block is still named; what
      a caller can tell before the call. */
  lemma PinnedIff(s0: seq<Slot>, blocks0: map<BlockId, Block>, leaves0: map<nat, Leaf>, d: Slot, uva: nat,
                  slots: seq<Slot>, ram: Ram, leaves: map<nat, Leaf>, events: seq<Event>)
    requires Performed(s0, blocks0, leaves0, d, true, uva, slots, ram, leaves, events) && Coherent(s0, blocks0, leaves0)
    requires d.npages > 0 && Sound(ram, slots, [], multiset{})
    ensures Coherent(s0, ram.blocks, leaves) <==> !Untold(s0, d, leaves0) || StillNamed(s0, d)
  {
    NamedIff(s0, slots, d, ram.counts);
    if Untold(s0, d, leaves0) && !StillNamed(s0, d) {
      LeftBehind(s0, blocks0, leaves0, d, uva, slots, ram, leaves, events);
    } else {
      LeavesHeld(s0, blocks0, leaves0, d, uva, slots, ram, leaves, events);
      forall g | g in leaves ensures LeafAt(s0, blocks0, g) == Some(leaves[g]) {
        assert g in leaves0;
      }
      DropKeepsLeaves(s0, leaves, ram.counts, blocks0, ram.blocks);
    }
  }

  /** An untold leaf stays, though the last reference to its block is gone. */
  lemma LeftBehind(s0: seq<Slot>, blocks0: map<BlockId, Block>, leaves0: map<nat, Leaf>, d: Slot, uva: nat,
                   slots: seq<Slot>, ram: Ram, leaves: map<nat, Leaf>, events: seq<Event>)
    requires Performed(s0, blocks0, leaves0, d, true, uva, slots, ram, leaves, events) && Untold(s0, d, leaves0)
    requires Sound(ram, slots, [], multiset{}) && !(d.block in ram.counts && ram.counts[d.block] > 0)
    ensures exists g :: g in leaves && d.Covers(g) && LeafAt(s0, ram.blocks, g) == None
  {
    var g :| g in leaves0 && d.Covers(g) && KindAt(s0, g) == Some(d.Kind());
    assert g in leaves;
    assert LeafAt(s0, ram.blocks, g) == None;
  }

  /** The mapping's block is referred to afterwards exactly if the old list and the request say it is named. */
  lemma NamedIff(s0: seq<Slot>, slots: seq<Slot>, d: Slot, counts: map<BlockId, int>)
    requires Updated(s0, slots, d, true) && d.npages > 0 && Counted(counts, slots, [], multiset{})
    ensures StillNamed(s0, d) <==> d.block in counts && counts[d.block] > 0
  {
    assert d.Covers(d.base) && KindAt(slots, d.base) == Some(EffectiveKind(s0, d));
    forall g: nat | KindAt(slots, g).Some? && KindAt(slots, g).value.block == d.block
      ensures d.block in counts && counts[d.block] > 0
    {
      var j := KindAtSome(slots, g);
      RefsMember(slots, j);
      assert Refs(slots, d.block) + Refs([], d.block) + multiset{}[d.block] > 0;
    }
    if d.block in counts && counts[d.block] > 0 {
      var j := RefsSome(slots, d.block);
      KindAtIndex(slots, j, slots[j].base);
      assert !d.Covers(slots[j].base) ==> KindAt(s0, slots[j].base) == Some(slots[j].Kind());
    }
  }

  lemma LeavesHeld(s0: seq<Slot>, blocks0: map<BlockId, Block>, leaves0: map<nat, Leaf>, d: Slot, uva: nat,
                   slots: seq<Slot>, ram: Ram, leaves: map<nat, Leaf>, events: seq<Event>)
    requires Performed(s0, blocks0, leaves0, d, true, uva, slots, ram, leaves, events) && Sound(ram, slots, [], multiset{})
    requires (d.block in ram.counts && ram.counts[d.block] > 0) || !Untold(s0, d, leaves0)
    ensures Held(s0, leaves, ram.counts)
  {
    HeldByList(slots, leaves, ram.counts, [], multiset{});
    forall g | g in leaves && KindAt(s0, g).Some?
      ensures var b := KindAt(s0, g).value.block; b in ram.counts && ram.counts[b] > 0
    {
      if d.Covers(g) {
        assert !Stale(s0, d, true, g);
      } else {
        assert KindAt(slots, g) == KindAt(s0, g);
      }
    }
  }

  /** Listeners are told exactly what changed if an unmapping or a mapping took effect as asked; otherwise exactly if the
      range held neither the type asked for nor the one it got. */
  lemma ReportsIff(s0: seq<Slot>, blocks0: map<BlockId, Block>, leaves0: map<nat, Leaf>, d: Slot, valid: bool, uva: nat,
                   slots: seq<Slot>, ram: Ram, leaves: map<nat, Leaf>, events: seq<Event>)
    requires Performed(s0, blocks0, leaves0, d, valid, uva, slots, ram, leaves, events)
    ensures (forall g: nat :: Dirty(events, g) <==> KindAt(s0, g).Some? && KindAt(slots, g) != KindAt(s0, g)) <==>
            || (valid ==> Faithful(s0, d))
            || forall g: nat :: d.Covers(g) ==> KindAt(s0, g) != Some(d.Kind()) && KindAt(s0, g) != Some(EffectiveKind(s0, d))
  {
    if valid {
      EffectiveIsRequested(s0, d);
    }
    forall g: nat
      ensures Dirty(events, g) <==> Stale(s0, d, valid, g)
      ensures KindAt(slots, g) == if d.Covers(g) then Outcome(s0, d, valid) else KindAt(s0, g)
    {
    }
    if valid && !Faithful(s0, d) {
      if g: nat :| d.Covers(g) && (KindAt(s0, g) == Some(d.Kind()) || KindAt(s0, g) == Some(EffectiveKind(s0, d))) {
        assert !(Dirty(events, g) <==> KindAt(s0, g).Some? && KindAt(slots, g) != KindAt(s0, g));
      }
    }
  }

  /** So where the new map is followed, the leaves agree with it and are on pinned pages. */
  lemma RequestCoherent(s0: seq<Slot>, blocks0: map<BlockId, Block>, leaves0: map<nat, Leaf>, d: Slot, valid: bool, uva: nat,
                        slots: seq<Slot>, ram: Ram, leaves: map<nat, Leaf>, events: seq<Event>)
    requires Performed(s0, blocks0, leaves0, d, valid, uva, slots, ram, leaves, events) && Coherent(s0, blocks0, leaves0)
    requires (valid ==> Faithful(s0, d) || !Untold(s0, d, leaves0)) && d.npages > 0 && Sound(ram, slots, [], multiset{})
    ensures Coherent(slots, ram.blocks, leaves)
  {
    if valid {
      FollowsIff(s0, blocks0, leaves0, d, uva, slots, ram, leaves, events);
    }
    forall g | g in leaves ensures LeafAt(slots, blocks0, g) == Some(leaves[g]) {
      assert g in leaves0 && LeafAt(s0, blocks0, g) == Some(leaves[g]);
      assert !Stale(s0, d, valid, g);
      assert KindAt(slots, g) == KindAt(s0, g);
    }
    HeldByList(slots, leaves, ram.counts, [], multiset{});
    DropKeepsLeaves(slots, leaves, ram.counts, blocks0, ram.blocks);
  }

  /** What a request that succeeds means for an EPT that agreed with the map before. */
  ghost predicate Agrees(s0: seq<Slot>, leaves0: map<nat, Leaf>, d: Slot, valid: bool,
                         slots: seq<Slot>, blocks: map<BlockId, Block>, leaves: map<nat, Leaf>)
  {
    && ((valid ==> Faithful(s0, d) || !Untold(s0, d, leaves0)) ==> Coherent(slots, blocks, leaves))
    && (valid ==>
          ((forall g :: g in leaves ==> KindAt(slots, g) == KindAt(s0, g)) <==> Faithful(s0, d) || !Untold(s0, d, leaves0)))
    && (valid ==> (Coherent(s0, blocks, leaves) <==> !Untold(s0, d, leaves0) || StillNamed(s0, d)))
  }

  lemma AgreesAfter(s0: seq<Slot>, blocks0: map<BlockId, Block>, leaves0: map<nat, Leaf>, d: Slot, valid: bool, uva: nat,
                    slots: seq<Slot>, ram: Ram, leaves: map<nat, Leaf>, events: seq<Event>)
    requires Performed(s0, blocks0, leaves0, d, valid, uva, slots, ram, leaves, events) && Coherent(s0, blocks0, leaves0)
    requires d.npages > 0 && Sound(ram, slots, [], multiset{})
    ensures Agrees(s0, leaves0, d, valid, slots, ram.blocks, leaves)
  {
    if valid ==> Faithful(s0, d) || !Untold(s0, d, leaves0) {
      RequestCoherent(s0, blocks0, leaves0, d, valid, uva, slots, ram, leaves, events);
    }
    if valid {
      FollowsIff(s0, blocks0, leaves0, d, uva, slots, ram, leaves, events);
      PinnedIff(s0, blocks0, leaves0, d, uva, slots, ram, leaves, events);
    }
  }

  /** No leaf is in the range of the request. */
  ghost predicate Spared(d: Slot, leaves: map<nat, Leaf>) {
    forall g :: g in leaves ==> !d.Covers(g)
  }

  /** A request that runs out of memory, and so tells nobody, does no harm to leaves outside its range. */
  lemma AbandonedCoherent(s0: seq<Slot>, slots: seq<Slot>, d: Slot, blocks0: map<BlockId, Block>, ram: Ram, leaves: map<nat, Leaf>)
    requires Coherent(s0, blocks0, leaves) && Elsewhere(s0, slots, d) && Spared(d, leaves)
    requires Sound(ram, slots, [], multiset{}) && Dropped(blocks0, ram.blocks, ram.counts)
    ensures Coherent(slots, ram.blocks, leaves)
  {
    forall g | g in leaves ensures LeafAt(slots, blocks0, g) == Some(leaves[g]) {
      assert LeafAt(s0, blocks0, g) == Some(leaves[g]) && !d.Covers(g);
      assert KindAt(slots, g) == KindAt(s0, g);
    }
    HeldByList(slots, leaves, ram.counts, [], multiset{});
    DropKeepsLeaves(slots, leaves, ram.counts, blocks0, ram.blocks);
  }

  lemma PerformedAfter(s0: seq<Slot>, slots: seq<Slot>, d: Slot, valid: bool, uva: nat, local: multiset<BlockId>,
                       blocks0: map<BlockId, Block>, leaves0: map<nat, Leaf>, ram: Ram, leaves: map<nat, Leaf>, events: seq<Event>,
                       ram': Ram)
    requires Settles(s0, slots, d, valid, uva, local, blocks0, leaves0, ram, leaves, events)
    requires Updated(s0, slots, d, valid) && d.npages > 0
    requires Sound(ram', slots, [], multiset{}) && Dropped(ram.blocks, ram'.blocks, ram'.counts) && NoMore(ram.counts, ram'.counts)
    ensures Performed(s0, blocks0, leaves0, d, valid, uva, slots, ram', leaves, events)
  {
    DroppedTrans(blocks0, ram.blocks, ram'.blocks, ram.counts, ram'.counts);
  }
}
