/**
 Page-table entries as the words they are, and paging in each mode as arithmetic on those words: which words are read,
 and which address and rights come out.
 */
module PageWords {
  import opened Memslots
  import opened PageWalker

  const TOP52: nat := 0x10_0000_0000_0000

  /** The fields of an entry of 64 bits, or of 32 where all above is zero. */
  function EntryOf(w: nat): Entry {
    Entry(w % 2 == 1, Set(w, 2), Set(w, 4), Set(w, 0x20), Set(w, 0x40), Set(w, 0x80), Set(w, 0x100),
          w / 8 % 4 + w / 0x200 % 8 * 4, w / 0x1000 % 0x10_0000, w / 0x1_0000_0000 % 0x10_0000,
          w / TOP52 % 0x800, Set(w, 0x8000_0000_0000_0000))
  }

  /** Whether a bit is set, given what it is worth. */
  predicate Set(w: nat, worth: nat)
    requires worth > 0
  {
    w / worth % 2 == 1
  }

  function Worth(bit: bool, worth: nat): nat {
    if bit then worth else 0
  }

  function WordOf(e: Entry): nat {
    Worth(e.present, 1) + Worth(e.writable, 2) + Worth(e.user, 4) + e.rest % 4 * 8
    + Worth(e.accessed, 0x20) + Worth(e.dirty, 0x40) + Worth(e.big, 0x80) + Worth(e.global, 0x100) + e.rest / 4 * 0x200
    + e.low * 0x1000 + e.high * 0x1_0000_0000 + e.avl * TOP52 + Worth(e.noExec, 0x8000_0000_0000_0000)
  }

  lemma Next(w: nat, worth: nat, count: nat, next: nat)
    requires worth > 0 && count > 0 && next == worth * count
    ensures w / worth == count * (w / next) + w / worth % count
  {
    var q := w / worth;
    DivModOf(w, worth);
    DivModOf(q, count);
    Distributes(q / count * count, q % count, worth);
    Regroup(q / count, count, worth);
    AtLeast(q % count, count - 1, worth);
    Distributes(count, 1, worth);
    DivModIs(w, next, q / count, q % count * worth + w % worth);
  }

  /** The fields are all there is to a word. */
  lemma WordOfEntry(w: nat)
    requires w < 0x1_0000_0000_0000_0000
    ensures WordOf(EntryOf(w)) == w
  {
    LowBits(w);
    HighBits(w);
  }

  /** A bit is split off from what is above it. */
  lemma Split(w: nat, worth: nat, next: nat, up: nat, rest: nat)
    requires worth > 0 && next == worth * 2 && up == w / worth * worth && rest == w / next * next
    ensures up == Worth(Set(w, worth), worth) + rest
  {
    SplitMany(w, worth, 2, next, up, rest);
  }

  lemma SplitMany(w: nat, worth: nat, count: nat, next: nat, up: nat, rest: nat)
    requires worth > 0 && count > 0 && next == worth * count && up == w / worth * worth && rest == w / next * next
    ensures up == w / worth % count * worth + rest
  {
    var q, r, m := w / worth, w / next, w / worth % count;
    Next(w, worth, count, next);
    Distributes(count * r, m, worth);
    Regroup(r, count, worth);
  }

  lemma LowBits(w: nat)
    ensures w == Worth(w % 2 == 1, 1) + Worth(Set(w, 2), 2) + Worth(Set(w, 4), 4) + w / 8 % 4 * 8 + Worth(Set(w, 0x20), 0x20)
                 + Worth(Set(w, 0x40), 0x40) + Worth(Set(w, 0x80), 0x80) + Worth(Set(w, 0x100), 0x100) + w / 0x200 % 8 * 0x200
                 + w / 0x1000 * 0x1000
  {
    var r5, r9 := w / 0x20 * 0x20, w / 0x200 * 0x200;
    Bits0To4(w, r5);
    Bits5To8(w, r5, r9);
    SplitMany(w, 0x200, 8, 0x1000, r9, w / 0x1000 * 0x1000);
  }

  lemma Bits0To4(w: nat, r5: nat)
    requires r5 == w / 0x20 * 0x20
    ensures w == Worth(w % 2 == 1, 1) + Worth(Set(w, 2), 2) + Worth(Set(w, 4), 4) + w / 8 % 4 * 8 + r5
  {
    var r1, r2, r3 := w / 2 * 2, w / 4 * 4, w / 8 * 8;
    Split(w, 2, 4, r1, r2);
    Split(w, 4, 8, r2, r3);
    SplitMany(w, 8, 4, 0x20, r3, r5);
  }

  lemma Bits5To8(w: nat, r5: nat, r9: nat)
    requires r5 == w / 0x20 * 0x20 && r9 == w / 0x200 * 0x200
    ensures r5 == Worth(Set(w, 0x20), 0x20) + Worth(Set(w, 0x40), 0x40) + Worth(Set(w, 0x80), 0x80)
                  + Worth(Set(w, 0x100), 0x100) + r9
  {
    var r6, r7, r8 := w / 0x40 * 0x40, w / 0x80 * 0x80, w / 0x100 * 0x100;
    Split(w, 0x20, 0x40, r5, r6);
    Split(w, 0x40, 0x80, r6, r7);
    Split(w, 0x80, 0x100, r7, r8);
    Split(w, 0x100, 0x200, r8, r9);
  }

  lemma HighBits(w: nat)
    requires w < 0x1_0000_0000_0000_0000
    ensures w / 0x1000 * 0x1000 == w / 0x1000 % 0x10_0000 * 0x1000 + w / 0x1_0000_0000 % 0x10_0000 * 0x1_0000_0000
                                   + w / TOP52 % 0x800 * TOP52 + Worth(Set(w, 0x8000_0000_0000_0000), 0x8000_0000_0000_0000)
  {
    Next(w, 0x1000, 0x10_0000, 0x1_0000_0000);
    Next(w, 0x1_0000_0000, 0x10_0000, TOP52);
    Next(w, TOP52, 0x800, 0x8000_0000_0000_0000);
    assert w / 0x8000_0000_0000_0000 < 2;
  }

  // ---- Frames ------------------------------------------------------------------------------------

  /** A word with everything but bits 12 to 51 cleared. */
  function Phys(w: nat): nat {
    w % TOP52 / 0x1000 * 0x1000
  }

  /** The frame of an entry of 64 bits is bits 12 to 51 of its word. */
  lemma FrameMeans(w: nat)
    ensures Frame(EntryOf(w), true) == Phys(w)
  {
    Field(w, 0x1000, 0x100_0000_0000, TOP52);
    var q := w / 0x1000;
    Field(w, 0x1000, 0x10_0000, 0x1_0000_0000);
    Next(w, 0x1000, 0x10_0000, 0x1_0000_0000);
    Field(q, 0x10_0000, 0x10_0000, 0x100_0000_0000);
    LowPart(q, 0x10_0000, 0x10_0000, 0x100_0000_0000);
    DivModOf(q % 0x100_0000_0000, 0x10_0000);
    Quotients(w, 0x1000, 0x10_0000, 0x1_0000_0000);
  }

  lemma Quotients(w: nat, a: nat, b: nat, c: nat)
    requires a > 0 && b > 0 && c == a * b
    ensures w / a / b == w / c
  {
    Next(w, a, b, c);
    DivModIs(w / a, b, w / c, w / a % b);
  }

  /** The frame of an entry of 32 bits is bits 12 to 31 of its word. */
  lemma FrameMeans32(w: nat)
    requires w < 0x1_0000_0000
    ensures Frame(EntryOf(w), false) == w / 0x1000 * 0x1000
  {
    var q := w / 0x1000;
    DivModIs(q, 0x10_0000, 0, q);
  }

  // ---- Paging on words ---------------------------------------------------------------------------

  type Words = map<nat, nat>

  function Decoded(words: Words): Tables {
    map a | a in words :: EntryOf(words[a])
  }

  /** A word that a walk goes on with or ends with. */
  ghost predicate Good(c: Config, level: nat, w: nat) {
    && w < (if c.pae then 0x1_0000_0000_0000_0000 else 0x1_0000_0000)
    && w % 2 == 1 && !Reserved(c, level, EntryOf(w))
  }

  /** Entry number `va / unit % count` of a table of entries of `width` bytes is that word. */
  ghost predicate Holds(words: Words, table: nat, va: nat, unit: nat, count: nat, width: nat, w: nat)
    requires unit > 0 && count > 0
  {
    var at := table + va / unit % count * width;
    at in words && words[at] == w
  }

  /** The byte of a page that an address falls on. */
  function In(frame: nat, size: nat, va: nat): nat
    requires size > 0
  {
    frame / size * size + va % size
  }

  /** One level of paging with entries of 64 bits. */
  lemma Step(words: Words, c: Config, level: nat, table: nat, va: nat, rights: Rights, unit: nat, w: nat)
    requires c.pae && 1 <= level <= 4 && unit == Span(c, level)
    requires Good(c, level, w) && Holds(words, table, va, unit, Entries(c, level), 8, w)
    ensures var r := Both(rights, Allowed(c, level, EntryOf(w)));
            Paging(Decoded(words), c, level, table, va, rights) ==
            if MapsPage(c, level, EntryOf(w)) then Page(In(Phys(w), unit, va), unit, r)
            else Paging(Decoded(words), c, level - 1, Phys(w), va, r)
  {
    FrameMeans(w);
    assert Decoded(words)[EntryAt(c, level, table, va)] == EntryOf(w);
  }

  /** One level of paging with entries of 32 bits. */
  lemma Step32(words: Words, c: Config, level: nat, table: nat, va: nat, rights: Rights, unit: nat, w: nat, f: nat)
    requires !c.pae && 1 <= level <= 2 && unit == Span(c, level) && f == w / 0x1000 * 0x1000
    requires Good(c, level, w) && Holds(words, table, va, unit, 1024, 4, w)
    ensures var r := Both(rights, Allowed(c, level, EntryOf(w)));
            Paging(Decoded(words), c, level, table, va, rights) ==
            if MapsPage(c, level, EntryOf(w)) then Page(In(f, unit, va), unit, r)
            else Paging(Decoded(words), c, level - 1, f, va, r)
  {
    FrameMeans32(w);
    assert Decoded(words)[EntryAt(c, level, table, va)] == EntryOf(w);
  }

  /** The rights that entries give together: bits 1 and 2 of all of them, and bit 63 of none. */
  function Together(w4: nat, w3: nat, w2: nat, w1: nat): Rights {
    Rights(Set(w4, 2) && Set(w3, 2) && Set(w2, 2) && Set(w1, 2), Set(w4, 4) && Set(w3, 4) && Set(w2, 4) && Set(w1, 4),
           !Set(w4, 0x8000_0000_0000_0000) && !Set(w3, 0x8000_0000_0000_0000) && !Set(w2, 0x8000_0000_0000_0000)
           && !Set(w1, 0x8000_0000_0000_0000))
  }

  /** The directory and the table, with entries of 64 bits. */
  lemma LastTwo(words: Words, c: Config, va: nat, rights: Rights, table: nat, w2: nat, w1: nat)
    requires c.pae && Holds(words, table, va, 0x20_0000, 512, 8, w2) && Good(c, 2, w2)
    requires !Set(w2, 0x80) ==> Holds(words, Phys(w2), va, 0x1000, 512, 8, w1) && Good(c, 1, w1)
    ensures var r := Both(rights, Allowed(c, 2, EntryOf(w2)));
            Paging(Decoded(words), c, 2, table, va, rights) ==
            if Set(w2, 0x80) then Page(In(Phys(w2), 0x20_0000, va), 0x20_0000, r)
            else Page(Phys(w1) + va % 0x1000, 0x1000, Both(r, Allowed(c, 1, EntryOf(w1))))
  {
    Step(words, c, 2, table, va, rights, 0x20_0000, w2);
    if !Set(w2, 0x80) {
      Step(words, c, 1, Phys(w2), va, Both(rights, Allowed(c, 2, EntryOf(w2))), 0x1000, w1);
      DivModIs(Phys(w1), 0x1000, w1 % TOP52 / 0x1000, 0);
    }
  }

  /** Four-level paging (section 4.5 of the SDM): nine bits of the address for each level, from bit 47 down; a page of 1 GB
      or 2 MB where bit 7 of the pointer or of the directory entry is set, otherwise one of 4 KB. */
  lemma FourLevels(words: Words, c: Config, va: nat, w4: nat, w3: nat, w2: nat, w1: nat)
    requires Legal(c) && c.pae && c.lme
    requires Holds(words, c.cr3 / 0x1000 * 0x1000, va, 0x80_0000_0000, 512, 8, w4) && Good(c, 4, w4)
    requires Holds(words, Phys(w4), va, 0x4000_0000, 512, 8, w3) && Good(c, 3, w3)
    requires !Set(w3, 0x80) ==> Holds(words, Phys(w3), va, 0x20_0000, 512, 8, w2) && Good(c, 2, w2)
    requires !Set(w3, 0x80) && !Set(w2, 0x80) ==> Holds(words, Phys(w2), va, 0x1000, 512, 8, w1) && Good(c, 1, w1)
    ensures Paging(Decoded(words), c, Top(c), Root(c), va, ALL) ==
            if Set(w3, 0x80) then Page(In(Phys(w3), 0x4000_0000, va), 0x4000_0000, Together(w4, w3, w3, w3))
            else if Set(w2, 0x80) then Page(In(Phys(w2), 0x20_0000, va), 0x20_0000, Together(w4, w3, w2, w2))
            else Page(Phys(w1) + va % 0x1000, 0x1000, Together(w4, w3, w2, w1))
  {
    var r4 := Both(ALL, Allowed(c, 4, EntryOf(w4)));
    Step(words, c, 4, Root(c), va, ALL, 0x80_0000_0000, w4);
    Step(words, c, 3, Phys(w4), va, r4, 0x4000_0000, w3);
    if !Set(w3, 0x80) {
      LastTwo(words, c, va, Both(r4, Allowed(c, 3, EntryOf(w3))), Phys(w3), w2, w1);
    }
  }

  /** PAE paging (section 4.4): bits 30 and 31 of the address select one of four pointers, which carry no rights, in a
      table that is aligned to 32 bytes. */
  lemma PaeLevels(words: Words, c: Config, va: nat, w3: nat, w2: nat, w1: nat)
    requires Legal(c) && c.pae && !c.lme
    requires Holds(words, c.cr3 / 0x20 * 0x20, va, 0x4000_0000, 4, 8, w3) && Good(c, 3, w3)
    requires Holds(words, Phys(w3), va, 0x20_0000, 512, 8, w2) && Good(c, 2, w2)
    requires !Set(w2, 0x80) ==> Holds(words, Phys(w2), va, 0x1000, 512, 8, w1) && Good(c, 1, w1)
    ensures Paging(Decoded(words), c, Top(c), Root(c), va, ALL) ==
            if Set(w2, 0x80) then Page(In(Phys(w2), 0x20_0000, va), 0x20_0000, Together(w2, w2, w2, w2))
            else Page(Phys(w1) + va % 0x1000, 0x1000, Together(w2, w2, w2, w1))
  {
    Step(words, c, 3, Root(c), va, ALL, 0x4000_0000, w3);
    LastTwo(words, c, va, ALL, Phys(w3), w2, w1);
  }

  /** 32-bit paging (section 4.3): ten bits of the address for each level, entries of four bytes, and pages of 4 MB where
      they are enabled and bit 7 is set. */
  lemma TwoLevels(words: Words, c: Config, va: nat, w2: nat, f2: nat, w1: nat, f1: nat)
    requires Legal(c) && !c.pae && f2 == w2 / 0x1000 * 0x1000 && f1 == w1 / 0x1000 * 0x1000
    requires Holds(words, c.cr3 / 0x1000 * 0x1000, va, 0x40_0000, 1024, 4, w2) && Good(c, 2, w2)
    requires !(c.pse && Set(w2, 0x80)) ==> Holds(words, f2, va, 0x1000, 1024, 4, w1) && Good(c, 1, w1)
    ensures Paging(Decoded(words), c, Top(c), Root(c), va, ALL) ==
            if c.pse && Set(w2, 0x80) then Page(In(f2, 0x40_0000, va), 0x40_0000, Together(w2, w2, w2, w2))
            else Page(f1 + va % 0x1000, 0x1000, Together(w2, w2, w2, w1))
  {
    Step32(words, c, 2, Root(c), va, ALL, 0x40_0000, w2, f2);
    if !(c.pse && Set(w2, 0x80)) {
      Step32(words, c, 1, f2, va, Both(ALL, Allowed(c, 2, EntryOf(w2))), 0x1000, w1, f1);
      DivModIs(f1, 0x1000, w1 / 0x1000, 0);
    }
  }

  // ---- The value returned ------------------------------------------------------------------------

  const TF_FAILED: nat := 0x8000_0000
  const TF_PROTECT: nat := 1
  const TF_WRITE: nat := 2
  const TF_USER: nat := 4
  const TF_RSVD: nat := 8

  /** What pw_perform_page_walk returns. */
  function Code(f: Fault, a: Access): nat {
    var access := Worth(a.write, TF_WRITE) + Worth(a.user, TF_USER);
    match f
    case OK => 0
    case FAILED => TF_FAILED
    case ABSENT => TF_FAILED + access
    case RESERVED => TF_FAILED + TF_PROTECT + TF_RSVD + access
    case PROTECTED => TF_FAILED + TF_PROTECT + access
  }

  /** The low bits are the error code of a page fault (section 4.7): bit 0 is set unless a translation was missing, bits 1
      and 2 say what the access was, bit 3 is set for a reserved bit; and there is no fault exactly where a page is found
      and permits the access. Bit 4, which is to tell a fetch, is never set. */
  lemma CodeMeans(l: Lookup, c: Config, a: Access)
    ensures var code := Code(Verdict(l, c, a), a);
            && (code == 0 <==> l.Page? && Permits(c, l.rights, a))
            && (code != 0 ==> Set(code, TF_FAILED))
            && (code % 2 == 1 <==> l.ReservedSet? || (l.Page? && !Permits(c, l.rights, a)))
            && (Set(code, TF_RSVD) <==> l.ReservedSet?) && !Set(code, 0x10)
            && (code != 0 && !l.Unmapped? ==> Set(code, TF_WRITE) == a.write && Set(code, TF_USER) == a.user)
            && (l.Unmapped? ==> code == TF_FAILED)
  {
  }
}
