/** EPT entries as 64-bit words, and what the misconfiguration handler does to one. */
module EpteBits {
  const PERM_RWX: bv64 := 0x7
  const PERM_RX: bv64 := 0x5
  const MEMTYPE_WB: bv64 := 0x6

  function Perm(value: bv64): bv64 {
    value & 0x7
  }

  /** Bits 51..12. */
  function Pfn(value: bv64): bv64 {
    (value >> 12) & 0xff_ffff_ffff
  }

  /** The leaf entry that ept_tree_create_entries writes. */
  function LeafValue(pfn: bv64, writable: bool): bv64 {
    (if writable then PERM_RWX else PERM_RX) | (MEMTYPE_WB << 3) | (pfn << 12)
  }

  /** The bits fix_epte keeps: permissions, the frame number up to 36 address bits, the accessed flag
      and, in a leaf, the memory type. */
  function Preserved(leaf: bool): bv64 {
    PERM_RWX | (((1 << 24) - 1) << 12) | (1 << 8) | if leaf then 0x7 << 3 else 0
  }

  /** What fix_epte would make of a present entry. */
  function Fixed(value: bv64, leaf: bool, mapped: bool, readonly: bool): bv64 {
    if leaf && !mapped then 0
    else
      var v := value | PERM_RWX;
      var w := if leaf then (if mapped && readonly then v & !(PERM_RWX ^ PERM_RX) else v) | (MEMTYPE_WB << 3) else v;
      w & Preserved(leaf)
  }

  /** Bits 5..3. */
  function MemType(value: bv64): bv64 {
    (value >> 3) & 0x7
  }

  /** What a present entry should look like: the permissions of its slot in a leaf and all of them above, and none of
      the bits that are reserved or that nobody sets. */
  predicate WellFormed(value: bv64, leaf: bool, readonly: bool) {
    Perm(value) == (if leaf && readonly then PERM_RX else PERM_RWX) && value & !Preserved(leaf) == 0
  }

  /** fix_epte. An entry that is not present is left alone; a leaf outside all slots is cleared; every other entry is
      made well-formed, with the frame and the accessed flag it had. Only where that would change the frame an error is
      counted and nothing is done: for a leaf outside all slots, or a frame beyond 36 address bits. */
  method FixEpte(value: bv64, leaf: bool, mapped: bool, readonly: bool) returns (after: bv64, misconfigured: bool, error: bool)
    ensures misconfigured <==> error || after != value
    ensures error <==> Perm(value) != 0 && (if leaf && !mapped then Pfn(value) != 0 else Pfn(value) & 0xff_ffff != Pfn(value))
    ensures error || Perm(value) == 0 ==> after == value
    ensures !error && Perm(value) != 0 && leaf && !mapped ==> after == 0
    ensures !error && Perm(value) != 0 && !(leaf && !mapped) ==>
              WellFormed(after, leaf, readonly) && Pfn(after) == Pfn(value) && after & 0x100 == value & 0x100
    ensures !error && Perm(value) != 0 && leaf && mapped ==>
              MemType(after) == if value & 0x8 == 0 then MEMTYPE_WB else 0x7
  {
    after, misconfigured, error := value, false, false;
    if Perm(value) == 0 {
      return;
    }
    var fixed := Fixed(value, leaf, mapped, readonly);
    if !(leaf && !mapped) {
      FixedPfn(value, leaf, mapped, readonly);
      FixedForm(value, leaf, mapped, readonly);
    }
    if leaf && mapped {
      FixedMemType(value, readonly);
    }
    if value != fixed {
      misconfigured := true;
      if Pfn(value) != Pfn(fixed) {
        error := true;
      } else {
        after := fixed;
      }
    }
  }

  lemma FixedPfn(value: bv64, leaf: bool, mapped: bool, readonly: bool)
    requires !(leaf && !mapped)
    ensures Pfn(Fixed(value, leaf, mapped, readonly)) == Pfn(value) & 0xff_ffff
  {
    PreservedBits();
  }

  lemma FixedForm(value: bv64, leaf: bool, mapped: bool, readonly: bool)
    requires !(leaf && !mapped)
    ensures WellFormed(Fixed(value, leaf, mapped, readonly), leaf, readonly)
    ensures Fixed(value, leaf, mapped, readonly) & 0x100 == value & 0x100
  {
    PreservedBits();
  }

  /** The memory type is not set to write-back but joined with it: a type with its lowest bit set becomes 7, which is
      reserved. */
  lemma FixedMemType(value: bv64, readonly: bool)
    ensures MemType(Fixed(value, true, true, readonly)) == if value & 0x8 == 0 then MEMTYPE_WB else 0x7
  {
    PreservedBits();
  }

  lemma PreservedBits()
    ensures Preserved(true) == 0xf_ffff_f13f && Preserved(false) == 0xf_ffff_f107
  {
  }

  /** Fixing keeps a good leaf but for the frame bits beyond 36 address bits. */
  lemma GoodLeafMasked(pfn: bv64, writable: bool)
    requires pfn <= 0xff_ffff_ffff
    ensures Fixed(LeafValue(pfn, writable), true, true, !writable) == LeafValue(pfn & 0xff_ffff, writable)
  {
    PreservedBits();
  }

  lemma LeafPfn(pfn: bv64, writable: bool)
    requires pfn <= 0xff_ffff_ffff
    ensures Pfn(LeafValue(pfn, writable)) == pfn
  {
  }

  lemma LowFrame(pfn: bv64)
    ensures pfn & 0xff_ffff == pfn <==> pfn < 0x100_0000
    ensures pfn & 0xff_ffff <= 0xff_ffff_ffff
  {
  }

  /** A leaf that agrees with its slot is left as it is; it is reported as an error exactly when its
      frame lies beyond 36 address bits. */
  lemma FixKeepsGoodLeaf(pfn: bv64, writable: bool)
    requires pfn <= 0xff_ffff_ffff
    ensures var v, f := LeafValue(pfn, writable), Fixed(LeafValue(pfn, writable), true, true, !writable);
            && (f == v <==> pfn < 0x100_0000)
            && (Pfn(f) == Pfn(v) <==> pfn < 0x100_0000)
  {
    GoodLeafMasked(pfn, writable);
    LowFrame(pfn);
    LeafPfn(pfn, writable);
    LeafPfn(pfn & 0xff_ffff, writable);
  }

  /** A fixed leaf has exactly the permissions its slot gives and no reserved bit set. */
  lemma FixedLeafMeans(value: bv64, readonly: bool)
    ensures var f := Fixed(value, true, true, readonly);
            && Perm(f) == (if readonly then PERM_RX else PERM_RWX)
            && f & !0xf_ffff_f000 & !0x13f == 0
            && f >> 12 == (value >> 12) & 0xff_ffff
  {
  }
}
