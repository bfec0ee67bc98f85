/**
 The walk of the guest's own page tables, in 32-bit, PAE and four-level paging, against a recursive
 definition of paging as in sections 4.3 to 4.5 of the Intel SDM, volume 3A.
 */
module PageWalker {
  import opened Memslots

  /** An entry of a table, by its bit fields. Bits 12 to 31 are `low` and bits 32 to 51 `high`, both part of
      the frame address; `big` is bit 7 and `global` bit 8; `avl` are bits 52 to 62; `rest` are the remaining
      bits. In 32-bit paging all above bit 31 is zero. */
  datatype Entry = Entry(present: bool, writable: bool, user: bool, accessed: bool, dirty: bool, big: bool, global: bool,
                         rest: nat, low: nat, high: nat, avl: nat, noExec: bool)

  const NOTHING: Entry := Entry(false, false, false, false, false, false, false, 0, 0, 0, 0, false)

  /** Guest memory that can be mapped, as entries by address. */
  type Tables = map<nat, Entry>

  /** The control bits that select and qualify paging; frame bits from `highLimit` up do not exist; `gbPages` says
      that the processor has pages of 1 GB. */
  datatype Config = Config(cr3: nat, pae: bool, lme: bool, nxe: bool, wp: bool, pse: bool, highLimit: nat, gbPages: bool)

  predicate Legal(c: Config) {
    (c.lme ==> c.pae) && c.highLimit > 0
  }

  /** pw_retrieve_phys_addr */
  function Frame(e: Entry, pae: bool): nat {
    if pae then e.high * 0x1_0000_0000 + e.low * 0x1000 else e.low * 0x1000
  }

  // ---- Paging, recursively -----------------------------------------------------------------------

  /** The levels: 4 is the PML4, 3 the page-directory pointers, 2 the directory, 1 the table. */
  function Top(c: Config): nat {
    if !c.pae then 2 else if c.lme then 4 else 3
  }

  function Root(c: Config): nat {
    if c.pae && !c.lme then c.cr3 / 0x20 * 0x20 else c.cr3 / 0x1000 * 0x1000
  }

  /** How many bytes an entry of that level covers. */
  function Span(c: Config, level: nat): (r: nat)
    ensures r > 0
  {
    if level == 1 then 0x1000
    else if level == 2 then (if c.pae then 0x20_0000 else 0x40_0000)
    else if level == 3 then 0x4000_0000
    else 0x80_0000_0000
  }

  /** How many entries a table of that level has. */
  function Entries(c: Config, level: nat): (r: nat)
    ensures r > 0
  {
    if !c.pae then 1024 else if level == 3 && !c.lme then 4 else 512
  }

  function EntryAt(c: Config, level: nat, table: nat, va: nat): nat {
    table + va / Span(c, level) % Entries(c, level) * (if c.pae then 8 else 4)
  }

  /** Whether an entry maps a page rather than pointing to a table. */
  predicate MapsPage(c: Config, level: nat, e: Entry) {
    level == 1 || (e.big && ((level == 2 && (c.pae || c.pse)) || (level == 3 && c.lme)))
  }

  /** Whether a reserved bit is set, as the formats in those sections have it, on a processor without 36-bit
      page-size extension: address bits beyond the width; execute-disable where it is not enabled; with PAE all
      bits above the address; the size bit where there is no such size; the low address bits of a large page; and
      in the pointers of PAE paging bits 1, 2 and 5 to 8. */
  predicate Reserved(c: Config, level: nat, e: Entry) {
    if !c.pae then level == 2 && MapsPage(c, level, e) && e.low % 0x400 / 2 != 0
    else
      || e.high >= c.highLimit
      || (e.noExec && !c.nxe)
      || (!c.lme && e.avl != 0)
      || (level == 4 && e.big)
      || (level == 3 && c.lme && e.big && (!c.gbPages || e.low % 0x4_0000 / 2 != 0))
      || (level == 3 && !c.lme && (e.noExec || e.writable || e.user || e.accessed || e.dirty || e.big || e.global))
      || (level == 2 && e.big && e.low % 0x200 / 2 != 0)
  }

  datatype Rights = Rights(write: bool, user: bool, exec: bool)

  const ALL: Rights := Rights(true, true, true)

  /** What an entry allows; the pointers of PAE paging carry no rights. */
  function Allowed(c: Config, level: nat, e: Entry): Rights {
    if level == 3 && !c.lme then ALL else Rights(e.writable, e.user, !e.noExec)
  }

  function Both(a: Rights, b: Rights): Rights {
    Rights(a.write && b.write, a.user && b.user, a.exec && b.exec)
  }

  /** What one entry comes to: out of reach, not present, with a reserved bit set, mapping a page, or
      pointing to a table. */
  datatype Seen = Gone | Absent | Bad | Maps(e: Entry) | Points(e: Entry)

  function Examine(tables: Tables, c: Config, level: nat, at: nat): Seen {
    if at !in tables then Gone
    else
      var e := tables[at];
      if !e.present then Absent
      else if Reserved(c, level, e) then Bad
      else if MapsPage(c, level, e) then Maps(e)
      else Points(e)
  }

  datatype Lookup = Page(gpa: nat, size: nat, rights: Rights) | NotPresent | ReservedSet | Unmapped

  /** A page: its frame, and the offset of the address in it. */
  function PageOf(c: Config, level: nat, e: Entry, va: nat, rights: Rights): Lookup {
    Page(Frame(e, c.pae) / Span(c, level) * Span(c, level) + va % Span(c, level), Span(c, level), rights)
  }

  /** The walk from a table of that level on, with the rights gathered so far. */
  function Paging(tables: Tables, c: Config, level: nat, table: nat, va: nat, rights: Rights): Lookup
    decreases level
  {
    if level == 0 then Unmapped
    else
      match Examine(tables, c, level, EntryAt(c, level, table, va))
      case Gone => Unmapped
      case Absent => NotPresent
      case Bad => ReservedSet
      case Maps(e) => PageOf(c, level, e, va, Both(rights, Allowed(c, level, e)))
      case Points(e) => Paging(tables, c, level - 1, Frame(e, c.pae), va, Both(rights, Allowed(c, level, e)))
  }

  /** What an access asks for. */
  datatype Access = Access(write: bool, user: bool, fetch: bool)

  /** Whether the rights of a page suffice: a supervisor writes where it likes unless write protection is
      on, and fetching is only restricted where execution can be disabled. */
  predicate Permits(c: Config, r: Rights, a: Access) {
    && (a.write ==> r.write || (!a.user && !c.wp))
    && (a.user ==> r.user)
    && (a.fetch && c.pae && c.nxe ==> r.exec)
  }

  datatype Fault = OK | FAILED | ABSENT | RESERVED | PROTECTED

  /** What a walk reports. */
  function Verdict(l: Lookup, c: Config, a: Access): Fault {
    match l
    case Unmapped => FAILED
    case NotPresent => ABSENT
    case ReservedSet => RESERVED
    case Page(_, _, r) => if Permits(c, r, a) then OK else PROTECTED
  }

  // ---- As the source computes it -----------------------------------------------------------------

  /** pw_retrieve_indices: fields of the address, those of the lower levels from its low 32 bits. */
  function Indices(va: nat, c: Config): (nat, nat, nat, nat) {
    var low := va % 0x1_0000_0000;
    if c.pae then
      (va % 0x1_0000_0000_0000 / 0x80_0000_0000,
       if c.lme then va % 0x80_0000_0000 / 0x4000_0000 else low / 0x4000_0000,
       low % 0x4000_0000 / 0x20_0000, low % 0x20_0000 / 0x1000)
    else (0, 0, low / 0x40_0000, low % 0x40_0000 / 0x1000)
  }

  lemma Distributes(x: int, y: int, m: int)
    ensures (x + y) * m == x * m + y * m && (x - y) * m == x * m - y * m
  {
  }

  lemma AtLeast(x: int, y: int, m: int)
    requires x <= y && m >= 0
    ensures x * m <= y * m
  {
    Distributes(y, x, m);
  }

  lemma Regroup(x: int, n: int, s: int)
    ensures x * n * s == x * (s * n)
  {
  }

  lemma DivModOf(a: int, m: int)
    requires m > 0
    ensures a == a / m * m + a % m && 0 <= a % m < m
  {
  }

  lemma DivModIs(a: int, m: int, k: int, y: int)
    requires m > 0 && a == k * m + y && 0 <= y < m
    ensures a / m == k && a % m == y
  {
    var q := a / m;
    DivModOf(a, m);
    if q > k {
      AtLeast(k + 1, q, m);
      Distributes(k, 1, m);
    } else if q < k {
      AtLeast(q + 1, k, m);
      Distributes(q, 1, m);
    }
  }

  /** A field of an address can be cut out from either side. */
  lemma Field(va: nat, s: nat, n: nat, c: nat)
    requires s > 0 && n > 0 && c == s * n
    ensures va % c / s == va / s % n
  {
    var q, r := va / s, va % s;
    var hi, x := q / n, q % n;
    DivModOf(va, s);
    DivModOf(q, n);
    Distributes(hi * n, x, s);
    Regroup(hi, n, s);
    var y := x * s + r;
    AtLeast(x, n - 1, s);
    Distributes(n, 1, s);
    assert n * s == c;
    DivModIs(va, c, hi, y);
    DivModIs(y, s, x, r);
  }

  lemma LowPart(va: nat, m: nat, n: nat, c: nat)
    requires m > 0 && n > 0 && c == m * n
    ensures va % c % m == va % m
  {
    var q, y := va / c, va % c;
    var k := y / m;
    DivModOf(va, c);
    DivModOf(y, m);
    Distributes(q * n, k, m);
    Regroup(q, n, m);
    DivModIs(va, m, q * n + k, y % m);
  }

  /** The source's indices are those of paging. */
  lemma IndicesAgree(va: nat, c: Config)
    ensures var (i4, i3, i2, i1) := Indices(va, c);
            && (c.pae && c.lme ==> i4 == va / Span(c, 4) % Entries(c, 4))
            && (c.pae ==> i3 == va / Span(c, 3) % Entries(c, 3))
            && i2 == va / Span(c, 2) % Entries(c, 2) && i1 == va / Span(c, 1) % Entries(c, 1)
  {
    Field(va, 0x80_0000_0000, 512, 0x1_0000_0000_0000);
    Field(va, 0x4000_0000, 512, 0x80_0000_0000);
    Field(va, 0x4000_0000, 4, 0x1_0000_0000);
    Field(va, 0x20_0000, 512, 0x4000_0000);
    Field(va, 0x1000, 512, 0x20_0000);
    Field(va, 0x40_0000, 1024, 0x1_0000_0000);
    Field(va, 0x1000, 1024, 0x40_0000);
    LowPart(va, 0x4000_0000, 4, 0x1_0000_0000);
    LowPart(va, 0x20_0000, 2048, 0x1_0000_0000);
    LowPart(va, 0x40_0000, 1024, 0x1_0000_0000);
  }

  /** pw_is_big_page_pde */
  predicate BigPage(e: Entry, c: Config) {
    e.big && (c.lme || c.pae || c.pse)
  }

  /** pw_are_reserved_bits_in_pml4te_cleared */
  predicate Pml4teCleared(e: Entry, c: Config)
    requires Legal(c)
  {
    if e.high / c.highLimit != 0 then false
    else if !c.nxe && e.noExec then false
    else true
  }

  /** pw_are_reserved_bits_in_pdpte_cleared */
  predicate PdpteCleared(e: Entry, c: Config)
    requires Legal(c)
  {
    if e.high / c.highLimit != 0 then false
    else if !c.lme then !(e.avl != 0 || e.noExec || e.writable || e.user)
    else if !c.nxe && e.noExec then false
    else !(e.big && e.low / 2 % 0x2_0000 != 0)
  }

  /** pw_are_reserved_bits_in_pde_cleared */
  predicate PdeCleared(e: Entry, c: Config)
    requires Legal(c)
  {
    if c.pae then
      if e.high / c.highLimit != 0 then false
      else if !c.nxe && e.noExec then false
      else if !c.lme && e.avl != 0 then false
      else !(BigPage(e, c) && e.low / 2 % 0x100 != 0)
    else !(BigPage(e, c) && e.low / 2 % 0x200 != 0)
  }

  /** pw_are_reserved_bits_in_pte_cleared */
  predicate PteCleared(e: Entry, c: Config)
    requires Legal(c)
  {
    if !c.pae then true
    else if e.high / c.highLimit != 0 then false
    else if !c.lme && e.avl != 0 then false
    else !(!c.nxe && e.noExec)
  }

  predicate Cleared(level: nat, e: Entry, c: Config)
    requires Legal(c)
  {
    if level == 4 then Pml4teCleared(e, c)
    else if level == 3 then PdpteCleared(e, c)
    else if level == 2 then PdeCleared(e, c)
    else PteCleared(e, c)
  }

  /** Where the walker stops going down: pw_is_1gb_page_pdpte at level 3, pw_is_big_page_pde at level 2. */
  predicate StopsAt(level: nat, e: Entry, c: Config) {
    level == 1 || (level == 2 && BigPage(e, c)) || (level == 3 && e.big)
  }

  /** What the walker takes one entry for. */
  function Taken(tables: Tables, c: Config, level: nat, at: nat): Seen
    requires Legal(c)
  {
    if at !in tables then Gone
    else if !tables[at].present then Absent
    else if !Cleared(level, tables[at], c) then Bad
    else if StopsAt(level, tables[at], c) then Maps(tables[at])
    else Points(tables[at])
  }

  /** What the walker finds from a table of that level on. */
  function Followed(tables: Tables, c: Config, level: nat, table: nat, va: nat, rights: Rights): Lookup
    requires Legal(c)
    decreases level
  {
    if level == 0 then Unmapped
    else
      match Taken(tables, c, level, EntryAt(c, level, table, va))
      case Gone => Unmapped
      case Absent => NotPresent
      case Bad => ReservedSet
      case Maps(e) => PageOf(c, level, e, va, Both(rights, Allowed(c, level, e)))
      case Points(e) => Followed(tables, c, level - 1, Frame(e, c.pae), va, Both(rights, Allowed(c, level, e)))
  }

  /** The addresses of the entries it meets. */
  function Trail(tables: Tables, c: Config, level: nat, table: nat, va: nat): seq<nat>
    requires Legal(c)
    decreases level
  {
    if level == 0 then []
    else
      var at := EntryAt(c, level, table, va);
      var taken := Taken(tables, c, level, at);
      if taken.Points? then [at] + Trail(tables, c, level - 1, Frame(taken.e, c.pae), va) else [at]
  }

  function Found(tables: Tables, c: Config, va: nat): Lookup
    requires Legal(c)
  {
    Followed(tables, c, Top(c), Root(c), va, ALL)
  }

  /** pw_is_write_access_permitted; entries that the walk did not get to are zero. */
  predicate WritePermitted(pml4te: Entry, pdpte: Entry, pde: Entry, pte: Entry, user: bool, c: Config) {
    if !user && !c.wp then true
    else if c.lme && (!pml4te.writable || !pdpte.writable) then false
    else if pdpte.big then true
    else if !pde.writable then false
    else BigPage(pde, c) || pte.writable
  }

  /** pw_is_user_access_permitted */
  predicate UserPermitted(pml4te: Entry, pdpte: Entry, pde: Entry, pte: Entry, c: Config) {
    if c.lme && (!pml4te.user || !pdpte.user) then false
    else if pdpte.big then true
    else if !pde.user then false
    else BigPage(pde, c) || pte.user
  }

  /** pw_is_fetch_access_permitted */
  predicate FetchPermitted(pml4te: Entry, pdpte: Entry, pde: Entry, pte: Entry, c: Config) {
    if c.lme && (pml4te.noExec || pdpte.noExec) then false
    else if pdpte.big then true
    else if pde.noExec then false
    else BigPage(pde, c) || !pte.noExec
  }

  predicate Permitted(pml4te: Entry, pdpte: Entry, pde: Entry, pte: Entry, c: Config, a: Access) {
    && (a.write ==> WritePermitted(pml4te, pdpte, pde, pte, a.user, c))
    && (a.user ==> UserPermitted(pml4te, pdpte, pde, pte, c))
    && (c.pae && c.nxe && a.fetch ==> FetchPermitted(pml4te, pdpte, pde, pte, c))
  }

  // ---- Accessed and dirty bits -------------------------------------------------------------------

  /** Nothing but accessed and dirty bits differs. */
  ghost predicate OnlyMarks(before: Tables, after: Tables) {
    before.Keys == after.Keys && forall a :: a in before ==> Unmarked(after[a]) == Unmarked(before[a])
  }

  function Unmarked(e: Entry): Entry {
    e.(accessed := false, dirty := false)
  }

  /** The 64 bits at an address are those of a 32-bit value. */
  predicate Narrow(tables: Tables, c: Config, at: nat)
    requires at in tables
  {
    if c.pae then tables[at].high == 0 && tables[at].avl == 0 && !tables[at].noExec
    else at + 4 in tables && tables[at + 4] == NOTHING
  }

  /** The tables with some entries marked as accessed, and of these some as dirty: those that can be. */
  ghost function Marked(tables: Tables, c: Config, accessed: set<nat>, dirty: set<nat>): Tables {
    map a | a in tables ::
      if a in accessed && Narrow(tables, c, a) then tables[a].(accessed := true, dirty := tables[a].dirty || a in dirty)
      else tables[a]
  }

  lemma MarkedOnly(tables: Tables, c: Config, accessed: set<nat>, dirty: set<nat>)
    ensures OnlyMarks(tables, Marked(tables, c, accessed, dirty))
  {
  }

  /** Marks do not change which entries can be marked. */
  lemma NarrowStays(tables: Tables, c: Config, accessed: set<nat>, at: nat)
    requires at in tables && forall a :: a in accessed ==> a in tables && tables[a].present
    ensures Narrow(Marked(tables, c, accessed, {}), c, at) <==> Narrow(tables, c, at)
  {
  }

  /** What one exchange does. */
  ghost function Exchanged(tables: Tables, c: Config, at: nat, before: Entry, after: Entry): Tables {
    if at in tables && tables[at] == before && Narrow(tables, c, at) then tables[at := after] else tables
  }

  /** One more entry; `again` says that it is taken to have been marked before. */
  lemma MarkOne(tables: Tables, c: Config, accessed: set<nat>, at: nat, e: Entry, again: bool, dirties: bool, after: Tables)
    requires at in tables && tables[at] == e && e.present && (forall a :: a in accessed ==> a in tables && tables[a].present)
    requires at in accessed ==> again
    requires after == Exchanged(Marked(tables, c, accessed, {}), c, at, if again then e.(accessed := true) else e,
                                e.(accessed := true, dirty := e.dirty || dirties))
    ensures after == Marked(tables, c, if again && !e.accessed then accessed else accessed + {at}, if dirties then {at} else {})
  {
    NarrowStays(tables, c, accessed, at);
  }

  /** The entry was read there. */
  ghost predicate Read(tables: Tables, at: Option<nat>, e: Entry) {
    at.Some? && at.value in tables && tables[at.value] == e && e.present
  }

  ghost function Of(at: Option<nat>): set<nat> {
    if at.Some? then {at.value} else {}
  }

  /** The entries that are marked: all that the walk has met but the pointer of PAE paging; and where such a pointer, not
      marked yet, is met again as an entry of a lower level, the source takes it to have been marked, and misses it. */
  ghost function Touched(tables: Tables, c: Config, p4: Option<nat>, p3: Option<nat>, p2: Option<nat>, p1: Option<nat>): set<nat> {
    if c.lme then Of(p4) + Of(p3) + Of(p2) + Of(p1)
    else set a | a in Of(p2) + Of(p1) && !(Some(a) == p3 && a in tables && !tables[a].accessed)
  }

  /** The same, of the whole walk. */
  ghost function Accessed(tables: Tables, c: Config, trail: seq<nat>): set<nat> {
    if !c.pae || c.lme || trail == [] then set a | a in trail
    else set a | a in trail[1..] && !(a == trail[0] && a in tables && !tables[a].accessed)
  }

  /** The entry that maps a page written to, unless the page has 1 GB. */
  ghost function Dirtied(c: Config, trail: seq<nat>, write: bool): set<nat> {
    if write && trail != [] && |trail| >= Top(c) - 1 then {trail[|trail| - 1]} else {}
  }

  /** What was read above the directory. */
  ghost predicate ReadAbove(tables: Tables, c: Config, va: nat, p4: Option<nat>, e4: Entry, p3: Option<nat>, e3: Entry, table: nat)
    requires Legal(c)
  {
    if !c.pae then p4 == None && p3 == None && e3 == NOTHING && table == Root(c)
    else
      && (if c.lme then p4 == Some(EntryAt(c, 4, Root(c), va)) && Taken(tables, c, 4, p4.value) == Points(e4) else p4 == None)
      && p3 == Some(EntryAt(c, 3, if c.lme then Frame(e4, true) else Root(c), va))
      && Taken(tables, c, 3, p3.value) == (if e3.big then Maps(e3) else Points(e3)) && table == Frame(e3, true)
  }

  /** And from the directory down. */
  ghost predicate ReadBelow(tables: Tables, c: Config, va: nat, table: nat, p2: Option<nat>, e2: Entry, p1: Option<nat>, e1: Entry)
    requires Legal(c)
  {
    && p2 == Some(EntryAt(c, 2, table, va))
    && if BigPage(e2, c) then p1 == None && Taken(tables, c, 2, p2.value) == Maps(e2)
       else
         && Taken(tables, c, 2, p2.value) == Points(e2)
         && p1 == Some(EntryAt(c, 1, Frame(e2, c.pae), va)) && Taken(tables, c, 1, p1.value) == Maps(e1)
  }

  /** And altogether. */
  ghost predicate ReadAll(tables: Tables, c: Config, va: nat, p4: Option<nat>, e4: Entry, p3: Option<nat>, e3: Entry, table: nat,
                          p2: Option<nat>, e2: Entry, p1: Option<nat>, e1: Entry)
    requires Legal(c)
  {
    && ReadAbove(tables, c, va, p4, e4, p3, e3, table)
    && if e3.big then p2 == None && p1 == None else ReadBelow(tables, c, va, table, p2, e2, p1, e1)
  }

  lemma TrailBelow(tables: Tables, c: Config, va: nat, table: nat, p2: Option<nat>, e2: Entry, p1: Option<nat>, e1: Entry)
    requires Legal(c) && ReadBelow(tables, c, va, table, p2, e2, p1, e1)
    ensures Trail(tables, c, 2, table, va) == if p1.Some? then [p2.value, p1.value] else [p2.value]
  {
    if p1.Some? {
      assert Trail(tables, c, 1, Frame(e2, c.pae), va) == [p1.value];
    }
  }

  lemma TrailAbove(tables: Tables, c: Config, va: nat, p4: Option<nat>, e4: Entry, p3: Option<nat>, e3: Entry, table: nat, rest: seq<nat>)
    requires Legal(c) && ReadAbove(tables, c, va, p4, e4, p3, e3, table)
    requires rest == if e3.big then [] else Trail(tables, c, 2, table, va)
    ensures Trail(tables, c, Top(c), Root(c), va) ==
            (if !c.pae then [] else if c.lme then [p4.value, p3.value] else [p3.value]) + rest
  {
    if c.pae {
      var top := if c.lme then Frame(e4, true) else Root(c);
      assert Trail(tables, c, 3, top, va) == [p3.value] + rest;
    }
  }

  /** What is marked, in terms of the walk. */
  lemma TouchedIs(tables: Tables, c: Config, va: nat, p4: Option<nat>, e4: Entry, p3: Option<nat>, e3: Entry, table: nat,
                  p2: Option<nat>, e2: Entry, p1: Option<nat>, e1: Entry, write: bool, trail: seq<nat>)
    requires Legal(c) && ReadAll(tables, c, va, p4, e4, p3, e3, table, p2, e2, p1, e1)
    requires trail == Trail(tables, c, Top(c), Root(c), va)
    ensures Touched(tables, c, p4, p3, p2, p1) == Accessed(tables, c, trail)
    ensures (if write then Of(if p1.Some? then p1 else p2) else {}) == Dirtied(c, trail, write)
  {
    var rest := if e3.big then [] else Trail(tables, c, 2, table, va);
    if !e3.big {
      TrailBelow(tables, c, va, table, p2, e2, p1, e1);
    }
    TrailAbove(tables, c, va, p4, e4, p3, e3, table, rest);
  }

  // ---- The walk ----------------------------------------------------------------------------------

  class Walker {
    var tables: Tables

    /** Reads an entry and looks at its presence, reserved bits and size. */
    method Look(c: Config, level: nat, table: nat, index: nat, ghost va: nat) returns (seen: Seen, at: nat)
      requires Legal(c) && index == va / Span(c, level) % Entries(c, level)
      ensures at == EntryAt(c, level, table, va) && seen == Taken(tables, c, level, at)
    {
      at := table + index * (if c.pae then 8 else 4);
      if at !in tables {
        return Gone, at;
      }
      var e := tables[at];
      if !e.present {
        return Absent, at;
      }
      if !Cleared(level, e, c) {
        return Bad, at;
      }
      seen := if StopsAt(level, e, c) then Maps(e) else Points(e);
    }

    /** pw_update_ad_bits_in_entry: a 64-bit compare-and-exchange with 32-bit values, which succeeds only
        where the 32 bits after those of the entry are zero. */
    method Mark(c: Config, at: nat, before: Entry, after: Entry)
      requires c.pae ==> before.high == after.high && before.avl == after.avl && before.noExec == after.noExec
      modifies this
      ensures tables == Exchanged(old(tables), c, at, before, after)
    {
      if before != after && at in tables && tables[at] == before {
        var zeroes := if c.pae then before.high == 0 && before.avl == 0 && !before.noExec
                      else at + 4 in tables && tables[at + 4] == NOTHING;
        if zeroes {
          tables := tables[at := after];
        }
      }
    }

    /** One entry: accessed, and dirty if the access writes to the page it maps. */
    method MarkEntry(c: Config, at: nat, e: Entry, again: bool, dirties: bool, ghost before: Tables, ghost accessed: set<nat>)
      returns (ghost accessed': set<nat>)
      requires tables == Marked(before, c, accessed, {}) && at in before && before[at] == e && e.present
      requires (forall a :: a in accessed ==> a in before && before[a].present) && (at in accessed ==> again)
      modifies this
      ensures accessed' == if again && !e.accessed then accessed else accessed + {at}
      ensures tables == Marked(before, c, accessed', if dirties then {at} else {})
    {
      Mark(c, at, if again then e.(accessed := true) else e, e.(accessed := true, dirty := e.dirty || dirties));
      MarkOne(before, c, accessed, at, e, again, dirties, tables);
      accessed' := if again && !e.accessed then accessed else accessed + {at};
    }

    /** pw_update_ad_bits; an entry that has just been marked at an earlier level counts as accessed. A page of 1 GB is
        never marked as dirty. */
    method UpdateMarks(c: Config, write: bool, p4: Option<nat>, e4: Entry, p3: Option<nat>, e3: Entry,
                       p2: Option<nat>, e2: Entry, p1: Option<nat>, e1: Entry)
      requires if c.lme then Read(tables, p4, e4) && Read(tables, p3, e3) else p4 == None && (p3.Some? ==> Read(tables, p3, e3))
      requires if e3.big then p2 == None else Read(tables, p2, e2)
      requires if e3.big || BigPage(e2, c) then p1 == None else Read(tables, p1, e1)
      modifies this
      ensures tables == Marked(old(tables), c, Touched(old(tables), c, p4, p3, p2, p1),
                               if write then Of(if p1.Some? then p1 else p2) else {})
    {
      ghost var before := tables;
      ghost var accessed := {};
      assert tables == Marked(before, c, {}, {});
      if c.lme {
        accessed := MarkEntry(c, p4.value, e4, false, false, before, accessed);
        accessed := MarkEntry(c, p3.value, e3, p4 == p3, false, before, accessed);
        assert accessed == Of(p4) + Of(p3);
      }
      if e3.big {
        return;
      }
      MarkBelow(c, write, p4, p3, p2, e2, p1, e1, before, accessed);
    }

    method MarkBelow(c: Config, write: bool, p4: Option<nat>, p3: Option<nat>, p2: Option<nat>, e2: Entry,
                     p1: Option<nat>, e1: Entry, ghost before: Tables, ghost above: set<nat>)
      requires tables == Marked(before, c, above, {}) && above == (if c.lme then Of(p4) + Of(p3) else {})
      requires if c.lme then p4.Some? && p3.Some? else p4 == None
      requires forall a :: a in above ==> a in before && before[a].present
      requires Read(before, p2, e2) && if BigPage(e2, c) then p1 == None else Read(before, p1, e1)
      modifies this
      ensures tables == Marked(before, c, Touched(before, c, p4, p3, p2, p1),
                               if write then Of(if p1.Some? then p1 else p2) else {})
    {
      var big := BigPage(e2, c);
      ghost var accessed := MarkEntry(c, p2.value, e2, p4 == p2 || p3 == p2, big && write, before, above);
      assert accessed == Touched(before, c, p4, p3, p2, None);
      if !big {
        accessed := MarkEntry(c, p1.value, e1, p4 == p1 || p3 == p1 || p2 == p1, write, before, accessed);
        assert accessed == Touched(before, c, p4, p3, p2, p1);
      }
    }

    /** The levels above the directory: where the directory is, or what went wrong. */
    method WalkAbove(c: Config, va: nat) returns (fault: Fault, p4: Option<nat>, e4: Entry, p3: Option<nat>, e3: Entry, table: nat)
      requires Legal(c)
      ensures fault != OK ==> forall a :: Verdict(Found(tables, c, va), c, a) == fault
      ensures fault == OK && !e3.big ==> Found(tables, c, va) == Followed(tables, c, 2, table, va, Above(c, e4, e3))
      ensures fault == OK && e3.big ==> c.pae && Found(tables, c, va) == PageOf(c, 3, e3, va, Above(c, e4, e3))
      ensures fault == OK ==> ReadAbove(tables, c, va, p4, e4, p3, e3, table)
    {
      var (i4, i3, i2, i1) := Indices(va, c);
      IndicesAgree(va, c);
      p4, e4, p3, e3, table := None, NOTHING, None, NOTHING, Root(c);
      fault := OK;
      if !c.pae {
        return;
      }
      var seen, at;
      if c.lme {
        seen, at := Look(c, 4, table, i4, va);
        if !seen.Points? {
          fault := FaultOf(seen);
          return;
        }
        p4, e4, table := Some(at), seen.e, Frame(seen.e, true);
      }
      seen, at := Look(c, 3, table, i3, va);
      if seen.Maps? || seen.Points? {
        p3, e3, table := Some(at), seen.e, Frame(seen.e, true);
      } else {
        fault := FaultOf(seen);
      }
    }

    /** pw_perform_page_walk */
    method Walk(c: Config, va: nat, a: Access, setMarks: bool) returns (fault: Fault, gpa: nat, size: nat)
      requires Legal(c)
      modifies this
      ensures fault == Verdict(Found(old(tables), c, va), c, a)
      ensures fault == OK ==> Found(old(tables), c, va).Page?
                              && gpa == Found(old(tables), c, va).gpa && size == Found(old(tables), c, va).size
      ensures var trail := Trail(old(tables), c, Top(c), Root(c), va);
              tables == if fault == OK && setMarks
                        then Marked(old(tables), c, Accessed(old(tables), c, trail), Dirtied(c, trail, a.write)) else old(tables)
    {
      var p4, e4, p3, e3, p2, e2, p1, e1;
      ghost var table;
      fault, gpa, size, p4, e4, p3, e3, table, p2, e2, p1, e1 := Search(c, va, a);
      if fault == OK && setMarks {
        MarkTrail(c, va, a.write, p4, e4, p3, e3, table, p2, e2, p1, e1);
      }
    }

    /** The walk without its marks. */
    method Search(c: Config, va: nat, a: Access)
      returns (fault: Fault, gpa: nat, size: nat, p4: Option<nat>, e4: Entry, p3: Option<nat>, e3: Entry, ghost directory: nat,
               p2: Option<nat>, e2: Entry, p1: Option<nat>, e1: Entry)
      requires Legal(c)
      ensures fault == Verdict(Found(tables, c, va), c, a)
      ensures fault == OK ==> Found(tables, c, va).Page?
                              && gpa == Found(tables, c, va).gpa && size == Found(tables, c, va).size
      ensures fault == OK ==> ReadAll(tables, c, va, p4, e4, p3, e3, directory, p2, e2, p1, e1)
    {
      gpa, size := 0, 0;
      p2, e2, p1, e1 := None, NOTHING, None, NOTHING;
      var table;
      fault, p4, e4, p3, e3, table := WalkAbove(c, va);
      directory := table;
      if fault != OK {
        return;
      }
      if e3.big {
        gpa, size := Frame(e3, true) / 0x4000_0000 * 0x4000_0000 + va % 0x4000_0000, 0x4000_0000;
      } else {
        fault, p2, e2, p1, e1, gpa, size := WalkBelow(c, va, table, Above(c, e4, e3));
        if fault != OK {
          return;
        }
      }
      RightsAgree(c, e4, e3, e2, e1, a);
      if !Permitted(e4, e3, e2, e1, c, a) {
        fault := PROTECTED;
      }
    }

    method MarkTrail(c: Config, ghost va: nat, write: bool, p4: Option<nat>, e4: Entry, p3: Option<nat>, e3: Entry, ghost table: nat,
                     p2: Option<nat>, e2: Entry, p1: Option<nat>, e1: Entry)
      requires Legal(c) && ReadAll(tables, c, va, p4, e4, p3, e3, table, p2, e2, p1, e1)
      modifies this
      ensures var trail := Trail(old(tables), c, Top(c), Root(c), va);
              tables == Marked(old(tables), c, Accessed(old(tables), c, trail), Dirtied(c, trail, write))
    {
      TouchedIs(tables, c, va, p4, e4, p3, e3, table, p2, e2, p1, e1, write, Trail(tables, c, Top(c), Root(c), va));
      UpdateMarks(c, write, p4, e4, p3, e3, p2, e2, p1, e1);
    }

    /** The directory and, unless it maps a large page, the table below it. */
    method WalkBelow(c: Config, va: nat, directory: nat, ghost rights: Rights)
      returns (fault: Fault, p2: Option<nat>, e2: Entry, p1: Option<nat>, e1: Entry, gpa: nat, size: nat)
      requires Legal(c)
      ensures fault != OK ==> forall a :: Verdict(Followed(tables, c, 2, directory, va, rights), c, a) == fault
      ensures fault == OK ==> Followed(tables, c, 2, directory, va, rights) == Page(gpa, size, Below(c, rights, e2, e1))
      ensures fault == OK ==> ReadBelow(tables, c, va, directory, p2, e2, p1, e1)
    {
      var (i4, i3, i2, i1) := Indices(va, c);
      IndicesAgree(va, c);
      p2, e2, p1, e1, gpa, size := None, NOTHING, None, NOTHING, 0, 0;
      fault := OK;
      var seen, at := Look(c, 2, directory, i2, va);
      if !(seen.Maps? || seen.Points?) {
        fault := FaultOf(seen);
        return;
      }
      p2, e2 := Some(at), seen.e;
      if BigPage(e2, c) {
        if c.pae {
          gpa, size := Frame(e2, true) / 0x20_0000 * 0x20_0000 + va % 0x20_0000, 0x20_0000;
        } else {
          gpa, size := Frame(e2, false) / 0x40_0000 * 0x40_0000 + va % 0x40_0000, 0x40_0000;
        }
        return;
      }
      var table := Frame(e2, c.pae);
      seen, at := Look(c, 1, table, i1, va);
      if !seen.Maps? {
        fault := FaultOf(seen);
        return;
      }
      p1, e1 := Some(at), seen.e;
      FrameAligned(e1, c.pae);
      size := 0x1000;
      gpa := Frame(e1, c.pae) + va % 0x1000;
    }
  }

  function FaultOf(seen: Seen): Fault {
    match seen
    case Gone => FAILED
    case Absent => ABSENT
    case Bad => RESERVED
    case _ => OK
  }

  /** The rights the levels above the directory give. */
  function Above(c: Config, e4: Entry, e3: Entry): Rights {
    if c.lme then Both(Both(ALL, Allowed(c, 4, e4)), Allowed(c, 3, e3)) else ALL
  }

  /** And those from the directory down. */
  function Below(c: Config, rights: Rights, e2: Entry, e1: Entry): Rights {
    if BigPage(e2, c) then Both(rights, Allowed(c, 2, e2)) else Both(Both(rights, Allowed(c, 2, e2)), Allowed(c, 1, e1))
  }

  lemma FrameAligned(e: Entry, pae: bool)
    ensures Frame(e, pae) / 0x1000 * 0x1000 == Frame(e, pae)
  {
  }

  function Granted(c: Config, e4: Entry, e3: Entry, e2: Entry, e1: Entry): Rights {
    if e3.big then Above(c, e4, e3) else Below(c, Above(c, e4, e3), e2, e1)
  }

  lemma WriteAgrees(c: Config, e4: Entry, e3: Entry, e2: Entry, e1: Entry, user: bool)
    ensures WritePermitted(e4, e3, e2, e1, user, c) <==> Granted(c, e4, e3, e2, e1).write || (!user && !c.wp)
  {
  }

  lemma UserAgrees(c: Config, e4: Entry, e3: Entry, e2: Entry, e1: Entry)
    ensures UserPermitted(e4, e3, e2, e1, c) <==> Granted(c, e4, e3, e2, e1).user
  {
  }

  lemma FetchAgrees(c: Config, e4: Entry, e3: Entry, e2: Entry, e1: Entry)
    ensures FetchPermitted(e4, e3, e2, e1, c) <==> Granted(c, e4, e3, e2, e1).exec
  {
  }

  /** The source's checks entry by entry are a check of the rights all entries give together. */
  lemma RightsAgree(c: Config, e4: Entry, e3: Entry, e2: Entry, e1: Entry, a: Access)
    ensures Permitted(e4, e3, e2, e1, c, a) <==> Permits(c, Granted(c, e4, e3, e2, e1), a)
  {
    WriteAgrees(c, e4, e3, e2, e1, a.user);
    UserAgrees(c, e4, e3, e2, e1);
    FetchAgrees(c, e4, e3, e2, e1);
  }

  // ---- Where the walk is paging ------------------------------------------------------------------

  /** A reserved bit that the walker does not look at: the size bit of a PML4 entry, bits 5 to 8 of a pointer of PAE
      paging, and the size bit of a pointer on a processor without pages of 1 GB. */
  predicate Overlooked(c: Config, level: nat, e: Entry) {
    && c.pae
    && (|| (level == 4 && e.big)
        || (level == 3 && !c.lme && (e.accessed || e.dirty || e.big || e.global))
        || (level == 3 && c.lme && e.big && !c.gbPages))
  }

  /** The four functions of the source find every reserved bit but those. */
  lemma ClearedExactly(c: Config, level: nat, e: Entry)
    requires Legal(c) && 1 <= level <= Top(c)
    ensures Reserved(c, level, e) <==> !Cleared(level, e, c) || Overlooked(c, level, e)
  {
    AboveLimit(e.high, c.highLimit);
    Field(e.low, 2, 0x200, 0x400);
    Field(e.low, 2, 0x2_0000, 0x4_0000);
    Field(e.low, 2, 0x100, 0x200);
  }

  lemma AboveLimit(high: nat, limit: nat)
    requires limit > 0
    ensures high / limit != 0 <==> high >= limit
  {
    DivModOf(high, limit);
    if high / limit != 0 {
      AtLeast(1, high / limit, limit);
    }
  }

  /** What an entry is in paging, given what the walker takes it for. */
  lemma TakenIs(tables: Tables, c: Config, level: nat, at: nat)
    requires Legal(c) && 1 <= level <= Top(c)
    ensures var taken := Taken(tables, c, level, at);
            Examine(tables, c, level, at) ==
            if (taken.Maps? || taken.Points?) && Overlooked(c, level, tables[at]) then Bad else taken
  {
    if at in tables {
      ClearedExactly(c, level, tables[at]);
    }
  }

  /** The walk from a table on goes past a reserved bit it does not look at, and meets none that it does look at. */
  predicate Slips(tables: Tables, c: Config, level: nat, table: nat, va: nat, slipped: bool)
    requires Legal(c)
    decreases level
  {
    if level == 0 then slipped
    else
      match Taken(tables, c, level, EntryAt(c, level, table, va))
      case Gone => slipped
      case Absent => slipped
      case Bad => false
      case Maps(e) => slipped || Overlooked(c, level, e)
      case Points(e) => Slips(tables, c, level - 1, Frame(e, c.pae), va, slipped || Overlooked(c, level, e))
  }

  /** Once past such a bit, only another reserved bit gives the answer of paging. */
  lemma {:induction false} SlippedOn(tables: Tables, c: Config, level: nat, table: nat, va: nat, rights: Rights)
    requires Legal(c) && level <= Top(c)
    ensures Followed(tables, c, level, table, va, rights) == ReservedSet <==> !Slips(tables, c, level, table, va, true)
  {
    if level > 0 {
      var taken := Taken(tables, c, level, EntryAt(c, level, table, va));
      if taken.Points? {
        SlippedOn(tables, c, level - 1, Frame(taken.e, c.pae), va, Both(rights, Allowed(c, level, taken.e)));
      }
    }
  }

  lemma {:induction false} FollowedIsPaging(tables: Tables, c: Config, level: nat, table: nat, va: nat, rights: Rights)
    requires Legal(c) && level <= Top(c)
    ensures Followed(tables, c, level, table, va, rights) == Paging(tables, c, level, table, va, rights) <==>
            !Slips(tables, c, level, table, va, false)
  {
    if level > 0 {
      var at := EntryAt(c, level, table, va);
      var taken := Taken(tables, c, level, at);
      TakenIs(tables, c, level, at);
      if taken.Points? {
        var next, rights' := Frame(taken.e, c.pae), Both(rights, Allowed(c, level, taken.e));
        if Overlooked(c, level, taken.e) {
          SlippedOn(tables, c, level - 1, next, va, rights');
        } else {
          FollowedIsPaging(tables, c, level - 1, next, va, rights');
        }
      }
    }
  }

  /** The walker does paging exactly where its walk does not go past a reserved bit that it does not look at. */
  lemma FoundIsPaging(tables: Tables, c: Config, va: nat)
    requires Legal(c)
    ensures Found(tables, c, va) == Paging(tables, c, Top(c), Root(c), va, ALL) <==>
            !Slips(tables, c, Top(c), Root(c), va, false)
  {
    FollowedIsPaging(tables, c, Top(c), Root(c), va, ALL);
  }

  /** In particular where none of those bits is set anywhere. */
  lemma {:induction false} NothingOverlooked(tables: Tables, c: Config, level: nat, table: nat, va: nat)
    requires Legal(c) && level <= Top(c)
    requires forall at, l :: at in tables && 1 <= l <= Top(c) ==> !Overlooked(c, l, tables[at])
    ensures !Slips(tables, c, level, table, va, false)
  {
    if level > 0 {
      var taken := Taken(tables, c, level, EntryAt(c, level, table, va));
      if taken.Points? {
        NothingOverlooked(tables, c, level - 1, Frame(taken.e, c.pae), va);
      }
    }
  }

  const BIG: Entry := NOTHING.(present := true, big := true)

  /** A PML4 entry with bit 7 set, which is reserved, leads the walker to a page. */
  lemma Pml4SizeBitSlips(c: Config, tables: Tables)
    requires c == Config(0x1000, true, true, true, true, true, 1, true)
    requires tables == map[0x1000 := BIG.(low := 2), 0x2000 := BIG]
    ensures Paging(tables, c, 4, 0x1000, 0, ALL) == ReservedSet
    ensures Found(tables, c, 0) == Page(0, 0x4000_0000, Rights(false, false, true))
  {
    var r := Rights(false, false, true);
    Pml4Points(c, tables, tables[0x1000], r);
    PointerMaps(c, tables, r);
  }

  lemma Pml4Points(c: Config, tables: Tables, e: Entry, r: Rights)
    requires Legal(c) && c.lme && r == Rights(false, false, true)
    requires 0x1000 in tables && tables[0x1000] == e && e == BIG.(low := 2)
    ensures Paging(tables, c, 4, 0x1000, 0, ALL) == ReservedSet
    ensures Followed(tables, c, 4, 0x1000, 0, ALL) == Followed(tables, c, 3, 0x2000, 0, r)
  {
    assert EntryAt(c, 4, 0x1000, 0) == 0x1000;
    AboveLimit(0, c.highLimit);
    assert Taken(tables, c, 4, 0x1000) == Points(e) && Examine(tables, c, 4, 0x1000) == Bad;
    assert Frame(e, true) == 0x2000 && Both(ALL, Allowed(c, 4, e)) == r;
  }

  lemma PointerMaps(c: Config, tables: Tables, r: Rights)
    requires Legal(c) && c.lme && r == Rights(false, false, true) && 0x2000 in tables && tables[0x2000] == BIG
    ensures Followed(tables, c, 3, 0x2000, 0, r) == Page(0, 0x4000_0000, r)
  {
    assert EntryAt(c, 3, 0x2000, 0) == 0x2000;
    AboveLimit(0, c.highLimit);
    assert Taken(tables, c, 3, 0x2000) == Maps(BIG);
  }

  /** A pointer of PAE paging with bit 7 set, which is reserved, is taken for a page of 1 GB. */
  lemma PointerSizeBitSlips()
    ensures var c := Config(0, true, false, true, true, true, 1, true);
            var tables := map[0 := BIG];
            && Legal(c) && Paging(tables, c, 3, 0, 0, ALL) == ReservedSet
            && Found(tables, c, 0) == Page(0, 0x4000_0000, ALL)
  {
    var c := Config(0, true, false, true, true, true, 1, true);
    assert EntryAt(c, 3, 0, 0) == 0;
  }
}
