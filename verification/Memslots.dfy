/**
 The guest-physical memory map: a sorted list of slots, each sending a run of guest frame
 numbers (gfns) to consecutive pages of a RAM block.

 Two slots have the same "kind" when they would send any gfn to the same byte of the same block
 with the same access; the kind is what a gfn's translation comes down to.
 */
module Memslots {

  const PAGE_SIZE: nat := 4096

  datatype Option<+T> = None | Some(value: T)

  type BlockId = nat

  /** What an unmapping request carries in place of a block. */
  const NO_BLOCK: BlockId := 0

  datatype Flags = Flags(readonly: bool, standalone: bool, invalid: bool, others: nat)

  datatype Kind = KindOf(block: BlockId, delta: int, readonly: bool)

  /** Where one guest page goes: a byte offset in a block, and whether it may be written. */
  datatype Target = Target(block: BlockId, offset: int, readonly: bool)

  datatype Slot = Slot(base: nat, npages: nat, block: BlockId, offset: nat, flags: Flags) {
    function End(): nat {
      base + npages
    }

    predicate Covers(g: nat) {
      base <= g < base + npages
    }

    function Kind(): Kind {
      KindOf(block, offset - base * PAGE_SIZE, flags.readonly)
    }
  }

  function TargetOf(k: Kind, g: nat): Target {
    Target(k.block, k.delta + g * PAGE_SIZE, k.readonly)
  }

  /** The type test the list surgery uses, as the source writes it. */
  predicate SameType(d: Slot, s: Slot) {
    && d.block == s.block
    && d.offset - s.offset == (d.base - s.base) * PAGE_SIZE
    && d.flags.readonly == s.flags.readonly
  }

  /** The list invariant: no empty slot, sorted, disjoint. */
  ghost predicate Ordered(slots: seq<Slot>) {
    && (forall i :: 0 <= i < |slots| ==> slots[i].npages > 0)
    && (forall i, j :: 0 <= i < j < |slots| ==> slots[i].End() <= slots[j].base)
  }

  /** No two touching slots have the same kind. */
  ghost predicate Canonical(slots: seq<Slot>) {
    forall i, j :: 0 <= i && j == i + 1 && j < |slots| && slots[i].End() == slots[j].base
      ==> slots[i].Kind() != slots[j].Kind()
  }

  /** The translation of a gfn. */
  function KindAt(slots: seq<Slot>, g: nat): Option<Kind> {
    if slots == [] then None
    else if slots[0].Covers(g) then Some(slots[0].Kind())
    else KindAt(slots[1..], g)
  }

  /** How many slots of the list name a block. */
  function Refs(slots: seq<Slot>, b: BlockId): nat {
    if slots == [] then 0 else (if slots[0].block == b then 1 else 0) + Refs(slots[1..], b)
  }

  // ---- Kinds and translations -------------------------------------------------------------

  lemma SameTypeIsSameKind(d: Slot, s: Slot)
    ensures SameType(d, s) <==> d.Kind() == s.Kind()
  {
  }

  /** Machine words: the subtractions and the shift wrap at 64 bits, but cannot be fooled by it
      for frame numbers below 2^31 and block offsets below 2^63. */
  lemma SameTypeInWords(d: Slot, s: Slot)
    requires d.base < 0x8000_0000 && s.base < 0x8000_0000
    requires d.offset < 0x8000_0000_0000_0000 && s.offset < 0x8000_0000_0000_0000
    ensures (d.offset - s.offset) % 0x1_0000_0000_0000_0000
         == ((d.base - s.base) * PAGE_SIZE) % 0x1_0000_0000_0000_0000
       <==> d.offset - s.offset == (d.base - s.base) * PAGE_SIZE
  {
  }

  // ---- Reading a list ---------------------------------------------------------------------

  lemma {:induction false} KindAtConcat(a: seq<Slot>, b: seq<Slot>, g: nat)
    ensures KindAt(a + b, g) == if KindAt(a, g).Some? then KindAt(a, g) else KindAt(b, g)
  {
    if a == [] {
      assert a + b == b;
    } else {
      assert (a + b)[1..] == a[1..] + b;
      KindAtConcat(a[1..], b, g);
    }
  }

  lemma {:induction false} KindAtNone(slots: seq<Slot>, g: nat)
    requires forall i :: 0 <= i < |slots| ==> !slots[i].Covers(g)
    ensures KindAt(slots, g) == None
  {
    if slots != [] {
      KindAtNone(slots[1..], g);
    }
  }

  lemma {:induction false} KindAtSome(slots: seq<Slot>, g: nat) returns (i: nat)
    requires KindAt(slots, g).Some?
    ensures i < |slots| && slots[i].Covers(g) && KindAt(slots, g) == Some(slots[i].Kind())
  {
    if slots[0].Covers(g) {
      i := 0;
    } else {
      i := KindAtSome(slots[1..], g);
      i := i + 1;
    }
  }

  lemma {:induction false} KindAtIndex(slots: seq<Slot>, i: nat, g: nat)
    requires Ordered(slots) && i < |slots| && slots[i].Covers(g)
    ensures KindAt(slots, g) == Some(slots[i].Kind())
  {
    if i > 0 {
      assert slots[0].End() <= slots[i].base;
      OrderedTail(slots);
      KindAtIndex(slots[1..], i - 1, g);
    }
  }

  lemma OrderedTail(slots: seq<Slot>)
    requires Ordered(slots) && slots != []
    ensures Ordered(slots[1..])
    ensures forall g: nat :: g < slots[0].End() ==> KindAt(slots[1..], g) == None
  {
    forall i, j | 0 <= i < j < |slots[1..]| ensures slots[1..][i].End() <= slots[1..][j].base {
      assert slots[i + 1].End() <= slots[j + 1].base;
    }
    forall g: nat | g < slots[0].End() ensures KindAt(slots[1..], g) == None {
      forall i | 0 <= i < |slots[1..]| ensures !slots[1..][i].Covers(g) {
        assert slots[0].End() <= slots[i + 1].base;
      }
      KindAtNone(slots[1..], g);
    }
  }

  lemma {:induction false} RefsConcat(s: seq<Slot>, t: seq<Slot>, b: BlockId)
    ensures Refs(s + t, b) == Refs(s, b) + Refs(t, b)
  {
    if s == [] {
      assert s + t == t;
    } else {
      assert (s + t)[1..] == s[1..] + t;
      RefsConcat(s[1..], t, b);
    }
  }

  lemma {:induction false} RefsSome(slots: seq<Slot>, b: BlockId) returns (i: nat)
    requires Refs(slots, b) > 0
    ensures i < |slots| && slots[i].block == b
  {
    if slots[0].block == b {
      i := 0;
    } else {
      i := RefsSome(slots[1..], b);
      i := i + 1;
    }
  }

  lemma {:induction false} RefsMember(slots: seq<Slot>, i: nat)
    requires i < |slots|
    ensures Refs(slots, slots[i].block) > 0
  {
    if i > 0 {
      RefsMember(slots[1..], i - 1);
    }
  }

  /** memslot_find: the slot that covers a gfn, by a walk that stops at the first slot past it. */
  method Find(slots: seq<Slot>, g: nat) returns (r: Option<nat>)
    requires Ordered(slots)
    ensures r.Some? ==> r.value < |slots| && slots[r.value].Covers(g)
    ensures r.None? <==> KindAt(slots, g).None?
    ensures r.Some? ==> KindAt(slots, g) == Some(slots[r.value].Kind())
  {
    var i := 0;
    while i < |slots|
      invariant 0 <= i <= |slots|
      invariant forall j :: 0 <= j < i ==> !slots[j].Covers(g)
    {
      if slots[i].base > g {
        break;
      }
      if g < slots[i].base + slots[i].npages {
        KindAtIndex(slots, i, g);
        return Some(i);
      }
      i := i + 1;
    }
    KindAtNone(slots, g);
    return None;
  }

  // ---- Canonical lists are determined by what they mean -------------------------------------

  /** Equal but for the flag bits that do not bear on translation. */
  predicate Alike(s: Slot, t: Slot) {
    s.base == t.base && s.npages == t.npages && s.Kind() == t.Kind()
  }

  ghost predicate SameMeaning(s: seq<Slot>, t: seq<Slot>) {
    forall g :: KindAt(s, g) == KindAt(t, g)
  }

  lemma FirstSlotsAgree(s: seq<Slot>, t: seq<Slot>)
    requires Ordered(s) && Ordered(t) && SameMeaning(s, t)
    requires s != [] && t != []
    ensures s[0].base == t[0].base && s[0].Kind() == t[0].Kind()
  {
    KindAtIndex(s, 0, s[0].base);
    KindAtIndex(t, 0, t[0].base);
    var i := KindAtSome(t, s[0].base);
    var j := KindAtSome(s, t[0].base);
  }

  /** The first slot of `s` cannot stop short of that of `t`. */
  lemma FirstSlotNoShorter(s: seq<Slot>, t: seq<Slot>)
    requires Ordered(s) && Ordered(t) && SameMeaning(s, t) && Canonical(s)
    requires s != [] && t != []
    ensures s[0].End() >= t[0].End()
  {
    FirstSlotsAgree(s, t);
    if s[0].End() < t[0].End() {
      var g := s[0].End();
      KindAtIndex(t, 0, g);
      var i := KindAtSome(s, g);
      assert false;
    }
  }

  lemma SameMeaningTail(s: seq<Slot>, t: seq<Slot>)
    requires Ordered(s) && Ordered(t) && SameMeaning(s, t)
    requires s != [] && t != [] && Alike(s[0], t[0])
    ensures SameMeaning(s[1..], t[1..])
  {
    OrderedTail(s);
    OrderedTail(t);
    forall g ensures KindAt(s[1..], g) == KindAt(t[1..], g) {
      assert KindAt(s, g) == KindAt(t, g);
    }
  }

  lemma CanonicalTail(s: seq<Slot>)
    requires Canonical(s) && s != []
    ensures Canonical(s[1..])
  {
    forall i, j | 0 <= i && j == i + 1 && j < |s[1..]| && s[1..][i].End() == s[1..][j].base
      ensures s[1..][i].Kind() != s[1..][j].Kind()
    {
      assert s[i + 1].Kind() != s[j + 1].Kind();
    }
  }

  /** Two histories that leave the same translation leave the same list. */
  lemma {:induction false} CanonicalIsUnique(s: seq<Slot>, t: seq<Slot>)
    requires Ordered(s) && Canonical(s)
    requires Ordered(t) && Canonical(t)
    requires SameMeaning(s, t)
    ensures |s| == |t|
    ensures forall i :: 0 <= i < |s| ==> Alike(s[i], t[i])
  {
    if s == [] {
      if t != [] {
        KindAtIndex(t, 0, t[0].base);
        assert false;
      }
    } else if t == [] {
      KindAtIndex(s, 0, s[0].base);
      assert false;
    } else {
      FirstSlotsAgree(s, t);
      FirstSlotNoShorter(s, t);
      FirstSlotNoShorter(t, s);
      SameMeaningTail(s, t);
      OrderedTail(s);
      OrderedTail(t);
      CanonicalTail(s);
      CanonicalTail(t);
      CanonicalIsUnique(s[1..], t[1..]);
      forall i | 0 <= i < |s| ensures Alike(s[i], t[i]) {
        if i > 0 {
          assert s[i] == s[1..][i - 1] && t[i] == t[1..][i - 1];
        }
      }
    }
  }
}
