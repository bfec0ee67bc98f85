/**
 The four-level EPT, as tables in page frames linked by frame number, with a small cache of tables that
 are used often. The tree is shown to be a map from gfns to leaves, however it is walked.
 */
module EptTree {
  import opened Memslots
  import opened Leaves

  const TABLE_SIZE: nat := 512
  const GFN_LIMIT: nat := 0x10_0000_0000

  const LEVEL_PT: nat := 0
  const LEVEL_PD: nat := 1
  const LEVEL_PDPT: nat := 2
  const LEVEL_PML4: nat := 3

  /** An entry of a table: all zeroes, or present and pointing to a frame. */
  datatype Epte = Zero | Present(pfn: nat, writable: bool)

  /** A table of the tree: its level, and the gfn bits above those that index it. */
  datatype Place = Place(level: nat, prefix: nat)

  // ---- Indices ---------------------------------------------------------------------------------

  /** How many gfns an entry of that level covers. */
  function Span(level: nat): (r: nat)
    requires level <= 4
    ensures r > 0
  {
    if level == 0 then 1 else if level == 1 then 0x200 else if level == 2 then 0x4_0000
    else if level == 3 then 0x800_0000 else 0x10_0000_0000
  }

  /** The index of a gfn in a table of that level. */
  function Index(g: nat, level: nat): (r: nat)
    requires level <= 3
    ensures r < TABLE_SIZE
  {
    g / Span(level) % TABLE_SIZE
  }

  function PlaceOf(g: nat, level: nat): Place
    requires level <= 3
  {
    Place(level, g / Span(level + 1))
  }

  function Child(p: Place, index: nat): Place
    requires p.level > 0
  {
    Place(p.level - 1, p.prefix * TABLE_SIZE + index)
  }

  function Parent(p: Place): Place {
    Place(p.level + 1, p.prefix / TABLE_SIZE)
  }

  lemma SpanOfTables(g: nat)
    ensures g / 0x200 / 512 == g / 0x4_0000
  {
  }

  lemma SpanOfDirectories(g: nat)
    ensures g / 0x4_0000 / 512 == g / 0x800_0000
  {
  }

  lemma SpanOfPointers(g: nat)
    ensures g / 0x800_0000 / 512 == g / 0x10_0000_0000
  {
  }

  lemma PlaceBelow(g: nat, level: nat)
    requires 1 <= level <= 3
    ensures PlaceOf(g, level - 1) == Child(PlaceOf(g, level), Index(g, level))
    ensures Parent(PlaceOf(g, level - 1)) == PlaceOf(g, level)
  {
    SpanOfTables(g);
    SpanOfDirectories(g);
    SpanOfPointers(g);
    var x := g / Span(level);
    assert x / 512 == g / Span(level + 1);
    assert x == x / 512 * 512 + x % 512;
  }

  lemma RootPlace(g: nat)
    requires g < GFN_LIMIT
    ensures PlaceOf(g, LEVEL_PML4) == Place(3, 0)
  {
  }

  // ---- The shape of the tree -------------------------------------------------------------------

  type Tables = map<nat, seq<Epte>>

  /** Where each table is. */
  type Atlas = map<Place, nat>

  /** Every table is where the atlas says, and an entry above the leaves leads to the table the atlas
      has for it, or is zero when there is none. */
  ghost predicate Charted(tables: Tables, atlas: Atlas) {
    && Place(3, 0) in atlas
    && (forall p :: p in atlas ==> p.level <= 3 && atlas[p] in tables && |tables[atlas[p]]| == TABLE_SIZE)
    && (forall p :: p in atlas && p.level < 3 ==> Parent(p) in atlas)
    && (forall p, q :: p in atlas && q in atlas && atlas[p] == atlas[q] ==> p == q)
    && (forall p, i :: p in atlas && p.level > 0 && 0 <= i < TABLE_SIZE ==> Linked(tables, atlas, p, i))
  }

  ghost predicate Linked(tables: Tables, atlas: Atlas, p: Place, i: nat)
    requires p in atlas && p.level > 0 && atlas[p] in tables && i < |tables[atlas[p]]|
  {
    match tables[atlas[p]][i]
    case Zero => Child(p, i) !in atlas
    case Present(pfn, _) => Child(p, i) in atlas && atlas[Child(p, i)] == pfn
  }

  /** The leaf entry of a gfn. */
  ghost function Entry(tables: Tables, atlas: Atlas, g: nat): Epte {
    var p := PlaceOf(g, LEVEL_PT);
    if p in atlas && atlas[p] in tables && Index(g, LEVEL_PT) < |tables[atlas[p]]| then tables[atlas[p]][Index(g, LEVEL_PT)] else Zero
  }

  /** The tree as a map. */
  ghost function LeavesOf(tables: Tables, atlas: Atlas): map<nat, Leaf> {
    map g: nat | g < GFN_LIMIT && Entry(tables, atlas, g).Present? ::
      Leaf(Entry(tables, atlas, g).pfn, Entry(tables, atlas, g).writable)
  }

  /** The walk the processor makes: from the root, one table after another. */
  ghost function WalkFrom(tables: Tables, table: nat, g: nat, level: nat): Epte
    requires level <= 3
    decreases level
  {
    if table !in tables || |tables[table]| != TABLE_SIZE then Zero
    else
      var e := tables[table][Index(g, level)];
      if level == 0 || e.Zero? then e else WalkFrom(tables, e.pfn, g, level - 1)
  }

  lemma {:induction false} WalkReaches(tables: Tables, atlas: Atlas, g: nat, level: nat)
    requires Charted(tables, atlas) && level <= 3 && PlaceOf(g, level) in atlas
    ensures WalkFrom(tables, atlas[PlaceOf(g, level)], g, level) == Entry(tables, atlas, g)
  {
    if level > 0 {
      var p, i := PlaceOf(g, level), Index(g, level);
      assert Linked(tables, atlas, p, i);
      PlaceBelow(g, level);
      if tables[atlas[p]][i].Present? {
        WalkReaches(tables, atlas, g, level - 1);
      } else {
        NoneBelow(tables, atlas, g, level - 1);
      }
    }
  }

  /** Where a table is missing, so are those below it. */
  lemma {:induction false} NoneBelow(tables: Tables, atlas: Atlas, g: nat, level: nat)
    requires Charted(tables, atlas) && level <= 3 && PlaceOf(g, level) !in atlas
    ensures PlaceOf(g, LEVEL_PT) !in atlas && Entry(tables, atlas, g) == Zero
  {
    if level > 0 {
      PlaceBelow(g, level);
      NoneBelow(tables, atlas, g, level - 1);
    }
  }

  // ---- Adding a table ---------------------------------------------------------------------------

  /** A new table, all zeroes, linked from entry i of the table at p. */
  ghost predicate Grafted(tables: Tables, atlas: Atlas, p: Place, i: nat, pfn: nat, tables': Tables, atlas': Atlas) {
    && p in atlas && p.level > 0 && i < TABLE_SIZE && atlas[p] in tables && i < |tables[atlas[p]]|
    && pfn !in tables && tables[atlas[p]][i] == Zero
    && tables' == tables[pfn := seq(TABLE_SIZE, _ => Zero)][atlas[p] := tables[atlas[p]][i := Present(pfn, true)]]
    && atlas' == atlas[Child(p, i) := pfn]
  }

  lemma GraftLinked(tables: Tables, atlas: Atlas, p: Place, i: nat, pfn: nat, tables': Tables, atlas': Atlas, q: Place, j: nat)
    requires Charted(tables, atlas) && Grafted(tables, atlas, p, i, pfn, tables', atlas')
    requires q in atlas' && q.level > 0 && j < TABLE_SIZE
    ensures atlas'[q] in tables' && |tables'[atlas'[q]]| == TABLE_SIZE && Linked(tables', atlas', q, j)
  {
    assert Linked(tables, atlas, p, i);
    if q == Child(p, i) {
      assert Parent(Child(q, j)) == q;
    } else {
      assert Linked(tables, atlas, q, j);
      if Child(q, j) == Child(p, i) {
        assert q == p && j == i;
      }
    }
  }

  lemma GraftCharts(tables: Tables, atlas: Atlas, p: Place, i: nat, pfn: nat, tables': Tables, atlas': Atlas)
    requires Charted(tables, atlas) && Grafted(tables, atlas, p, i, pfn, tables', atlas')
    ensures Charted(tables', atlas')
  {
    forall q, j | q in atlas' && q.level > 0 && 0 <= j < TABLE_SIZE ensures Linked(tables', atlas', q, j) {
      GraftLinked(tables, atlas, p, i, pfn, tables', atlas', q, j);
    }
    assert Parent(Child(p, i)) == p;
    assert Linked(tables, atlas, p, i);
  }

  /** A new table changes no leaf. */
  lemma GraftKeeps(tables: Tables, atlas: Atlas, p: Place, i: nat, pfn: nat, tables': Tables, atlas': Atlas, g: nat)
    requires Charted(tables, atlas) && Grafted(tables, atlas, p, i, pfn, tables', atlas')
    ensures Entry(tables', atlas', g) == Entry(tables, atlas, g)
  {
    assert Linked(tables, atlas, p, i);
  }

  // ---- Changing a leaf --------------------------------------------------------------------------

  ghost predicate Written(tables: Tables, atlas: Atlas, g: nat, e: Epte, tables': Tables) {
    var p, i := PlaceOf(g, LEVEL_PT), Index(g, LEVEL_PT);
    && p in atlas && atlas[p] in tables && i < |tables[atlas[p]]|
    && tables' == tables[atlas[p] := tables[atlas[p]][i := e]]
  }

  lemma WriteCharts(tables: Tables, atlas: Atlas, g: nat, e: Epte, tables': Tables)
    requires Charted(tables, atlas) && Written(tables, atlas, g, e, tables')
    ensures Charted(tables', atlas)
  {
    var p := PlaceOf(g, LEVEL_PT);
    forall q, j | q in atlas && q.level > 0 && 0 <= j < TABLE_SIZE ensures Linked(tables', atlas, q, j) {
      assert Linked(tables, atlas, q, j);
    }
  }

  /** Writing the entry of a gfn changes what that gfn maps to and nothing else. */
  lemma WriteChanges(tables: Tables, atlas: Atlas, g: nat, e: Epte, tables': Tables, h: nat)
    requires Charted(tables, atlas) && Written(tables, atlas, g, e, tables')
    ensures Entry(tables', atlas, h) == if h == g then e else Entry(tables, atlas, h)
  {
    var p, q := PlaceOf(g, LEVEL_PT), PlaceOf(h, LEVEL_PT);
    if q in atlas && atlas[q] == atlas[p] {
      assert q == p;
      if Index(h, LEVEL_PT) == Index(g, LEVEL_PT) {
        assert g == g / 512 * 512 + g % 512 && h == h / 512 * 512 + h % 512;
      }
    }
  }

  // ---- Tables used often ------------------------------------------------------------------------

  const FREQ_COUNT: nat := 10

  /** ept_tree_get_freq_page: which cache slot a table has, if any. */
  function FreqSlot(g: nat, level: nat): (r: Option<nat>)
    ensures r.Some? ==> r.value < FREQ_COUNT
  {
    if level == LEVEL_PML4 then Some(0)
    else if level == LEVEL_PDPT then (if g / Span(3) == 0 then Some(1) else None)
    else if level == LEVEL_PD then (if g / Span(2) < FREQ_COUNT - 2 then Some(2 + g / Span(2)) else None)
    else None
  }

  /** Each cache slot holds the very table a walk from the root would reach. */
  ghost predicate Cached(freq: seq<Option<nat>>, atlas: Atlas) {
    && |freq| == FREQ_COUNT
    && (forall g: nat, level :: g < GFN_LIMIT && 0 <= level <= 3 && FreqSlot(g, level).Some? ==>
          freq[FreqSlot(g, level).value] == At(atlas, PlaceOf(g, level)))
  }

  function At(atlas: Atlas, p: Place): Option<nat> {
    if p in atlas then Some(atlas[p]) else None
  }

  /** A slot belongs to one table only. */
  lemma SlotOwner(g: nat, level: nat, h: nat, level': nat)
    requires g < GFN_LIMIT && h < GFN_LIMIT && level <= 3 && level' <= 3
    requires FreqSlot(g, level).Some? && FreqSlot(g, level) == FreqSlot(h, level')
    ensures PlaceOf(g, level) == PlaceOf(h, level')
  {
  }

  lemma CacheGrows(freq: seq<Option<nat>>, atlas: Atlas, g: nat, level: nat, pfn: nat, freq': seq<Option<nat>>, atlas': Atlas)
    requires Cached(freq, atlas) && g < GFN_LIMIT && level <= 3
    requires atlas' == atlas[PlaceOf(g, level) := pfn]
    requires freq' == if FreqSlot(g, level).Some? then freq[FreqSlot(g, level).value := Some(pfn)] else freq
    ensures Cached(freq', atlas')
  {
    forall h: nat, level' | h < GFN_LIMIT && 0 <= level' <= 3 && FreqSlot(h, level').Some?
      ensures freq'[FreqSlot(h, level').value] == At(atlas', PlaceOf(h, level'))
    {
      if PlaceOf(g, level) == PlaceOf(h, level') {
        SamePlaceSameSlot(g, level, h, level');
      } else if FreqSlot(g, level) == FreqSlot(h, level') {
        SlotOwner(g, level, h, level');
      }
    }
  }

  /** A table of zeroes at `pfn`, linked from entry i of `table`. */
  function Link(tables: Tables, table: nat, i: nat, pfn: nat): Tables
    requires table in tables && i < |tables[table]|
  {
    tables[pfn := seq(TABLE_SIZE, _ => Zero)][table := tables[table][i := Present(pfn, true)]]
  }

  function Remember(freq: seq<Option<nat>>, slot: Option<nat>, pfn: nat): seq<Option<nat>>
    requires slot.Some? ==> slot.value < |freq|
  {
    if slot.Some? then freq[slot.value := Some(pfn)] else freq
  }

  lemma GraftAll(tables: Tables, atlas: Atlas, freq: seq<Option<nat>>, g: nat, level: nat, below: nat, pfn: nat,
                 tables': Tables, atlas': Atlas, freq': seq<Option<nat>>)
    requires Charted(tables, atlas) && Cached(freq, atlas) && g < GFN_LIMIT && 1 <= level <= 3 && below == level - 1
    requires PlaceOf(g, level) in atlas && pfn !in tables
    requires var table := atlas[PlaceOf(g, level)];
             && tables[table][Index(g, level)] == Zero
             && tables' == Link(tables, table, Index(g, level), pfn)
    requires atlas' == atlas[PlaceOf(g, below) := pfn] && freq' == Remember(freq, FreqSlot(g, below), pfn)
    ensures Charted(tables', atlas') && Cached(freq', atlas') && atlas'[Place(3, 0)] == atlas[Place(3, 0)]
    ensures forall p :: p in atlas ==> p in atlas' && atlas'[p] == atlas[p]
    ensures forall h: nat :: Entry(tables', atlas', h) == Entry(tables, atlas, h)
    ensures PlaceOf(g, below) !in atlas
  {
    var p, i := PlaceOf(g, level), Index(g, level);
    PlaceBelow(g, level);
    assert Linked(tables, atlas, p, i);
    assert Grafted(tables, atlas, p, i, pfn, tables', atlas');
    GraftCharts(tables, atlas, p, i, pfn, tables', atlas');
    CacheGrows(freq, atlas, g, below, pfn, freq', atlas');
    forall h: nat ensures Entry(tables', atlas', h) == Entry(tables, atlas, h) {
      GraftKeeps(tables, atlas, p, i, pfn, tables', atlas', h);
    }
  }

  lemma SamePlaceSameSlot(g: nat, level: nat, h: nat, level': nat)
    requires g < GFN_LIMIT && h < GFN_LIMIT && level <= 3 && level' <= 3
    requires PlaceOf(g, level) == PlaceOf(h, level')
    ensures FreqSlot(g, level) == FreqSlot(h, level')
  {
  }

  lemma {:induction false} FreshNat(s: set<nat>) returns (n: nat)
    ensures n !in s && forall x :: x in s ==> x < n
  {
    if s == {} {
      n := 0;
    } else {
      var x :| x in s;
      var m := FreshNat(s - {x});
      n := if m > x then m else x + 1;
      assert forall y :: y in s ==> y == x || y in s - {x};
    }
  }

  // ---- Filling a range --------------------------------------------------------------------------

  /** The first n entries of a range have been created, and nothing else has changed. */
  ghost predicate Filling(tables0: Tables, atlas0: Atlas, tables: Tables, atlas: Atlas,
                          start: nat, pfns: seq<nat>, writable: bool, n: nat)
    requires n <= |pfns|
  {
    forall h: nat :: Entry(tables, atlas, h) ==
                     if start <= h < start + n then Present(pfns[h - start], writable) else Entry(tables0, atlas0, h)
  }

  lemma FillingStep(tables0: Tables, atlas0: Atlas, tables: Tables, atlas: Atlas, start: nat, pfns: seq<nat>, writable: bool,
                    n: nat, g: nat, tables': Tables, n': nat)
    requires Charted(tables, atlas) && n < |pfns| && g == start + n && n' == n + 1
    requires Filling(tables0, atlas0, tables, atlas, start, pfns, writable, n)
    requires Written(tables, atlas, g, Present(pfns[n], writable), tables')
    ensures Charted(tables', atlas) && Filling(tables0, atlas0, tables', atlas, start, pfns, writable, n')
  {
    WriteCharts(tables, atlas, g, Present(pfns[n], writable), tables');
    forall h: nat
      ensures Entry(tables', atlas, h) ==
              if start <= h < start + n' then Present(pfns[h - start], writable) else Entry(tables0, atlas0, h)
    {
      WriteChanges(tables, atlas, g, Present(pfns[n], writable), tables', h);
    }
  }

  lemma FillingKept(tables0: Tables, atlas0: Atlas, tables: Tables, atlas: Atlas, tables': Tables, atlas': Atlas,
                    start: nat, pfns: seq<nat>, writable: bool, n: nat)
    requires n <= |pfns| && Filling(tables0, atlas0, tables, atlas, start, pfns, writable, n)
    requires forall h: nat :: Entry(tables', atlas', h) == Entry(tables, atlas, h)
    ensures Filling(tables0, atlas0, tables', atlas', start, pfns, writable, n)
  {
  }

  lemma LeavesFilled(tables0: Tables, atlas0: Atlas, tables: Tables, atlas: Atlas, start: nat, pfns: seq<nat>, writable: bool, n: nat)
    requires n <= |pfns| && start + n <= GFN_LIMIT
    requires Filling(tables0, atlas0, tables, atlas, start, pfns, writable, n)
    ensures LeavesOf(tables, atlas) == Filled(LeavesOf(tables0, atlas0), start, pfns, writable, n)
  {
    var before, after := LeavesOf(tables0, atlas0), LeavesOf(tables, atlas);
    var filled := Filled(before, start, pfns, writable, n);
    forall h: nat
      ensures h in after <==> h in filled
      ensures h in after ==> after[h] == filled[h]
    {
      FilledAt(before, start, pfns, writable, n, h);
    }
  }

  // ---- The tree itself --------------------------------------------------------------------------

  class Tree {
    var tables: Tables
    var root: nat
    var freq: seq<Option<nat>>
    var inveptPending: bool
    /** How many pages for tables can still be had. */
    var pages: nat
    ghost var atlas: Atlas

    ghost predicate Valid()
      reads this
    {
      Charted(tables, atlas) && Cached(freq, atlas) && atlas[Place(3, 0)] == root
    }

    /** ept_tree_init */
    constructor (pfn: nat)
      ensures Valid() && !inveptPending && forall g: nat :: Entry(tables, atlas, g) == Zero
    {
      tables := map[pfn := seq(TABLE_SIZE, _ => Zero)];
      root, inveptPending, pages := pfn, false, *;
      freq := seq(FREQ_COUNT, i => if i == 0 then Some(pfn) else None);
      atlas := map[Place(3, 0) := pfn];
    }

    /** ept_tree_alloc_page: a page that is not a table yet. */
    method AllocPage() returns (pfn: nat)
      requires pages > 0
      modifies this`pages
      ensures pfn !in tables && pages == old(pages) - 1
    {
      pages := pages - 1;
      ghost var unused := FreshNat(tables.Keys);
      pfn :| pfn !in tables;
    }

    /** A new table below an entry that is zero. */
    method AddTable(g: nat, level: nat, table: nat) returns (pfn: nat)
      requires Valid() && g < GFN_LIMIT && 1 <= level <= 3
      requires PlaceOf(g, level) in atlas && table == atlas[PlaceOf(g, level)]
      requires tables[table][Index(g, level)] == Zero && pages > 0
      modifies this`tables, this`atlas, this`freq, this`pages
      ensures Valid() && PlaceOf(g, level - 1) in atlas && atlas[PlaceOf(g, level - 1)] == pfn
      ensures Extended(old(atlas), atlas, PlaceOf(g, level - 1), old(pages), pages)
      ensures forall p :: p in old(atlas) ==> p in atlas && atlas[p] == old(atlas)[p]
      ensures forall h: nat :: Entry(tables, atlas, h) == Entry(old(tables), old(atlas), h)
    {
      pfn := AllocPage();
      LinkTable(g, level, level - 1, table, pfn);
      ExtendedBy(old(atlas), PlaceOf(g, level - 1), pfn, atlas, old(pages), pages);
    }

    method LinkTable(g: nat, level: nat, below: nat, table: nat, pfn: nat)
      requires Valid() && g < GFN_LIMIT && 1 <= level <= 3 && below == level - 1
      requires PlaceOf(g, level) in atlas && table == atlas[PlaceOf(g, level)]
      requires tables[table][Index(g, level)] == Zero && pfn !in tables
      modifies this`tables, this`atlas, this`freq
      ensures Valid() && PlaceOf(g, below) !in old(atlas) && atlas == old(atlas)[PlaceOf(g, below) := pfn]
      ensures forall h: nat :: Entry(tables, atlas, h) == Entry(old(tables), old(atlas), h)
    {
      var cache := Remember(freq, FreqSlot(g, below), pfn);
      var linked := Link(tables, table, Index(g, level), pfn);
      ghost var chart := atlas[PlaceOf(g, below) := pfn];
      GraftAll(tables, atlas, freq, g, level, below, pfn, linked, chart, cache);
      Install(linked, chart, cache);
    }

    method Install(linked: Tables, ghost chart: Atlas, cache: seq<Option<nat>>)
      requires Charted(linked, chart) && Cached(cache, chart) && chart[Place(3, 0)] == root
      modifies this`tables, this`atlas, this`freq
      ensures Valid() && tables == linked && atlas == chart && freq == cache
    {
      freq, tables, atlas := cache, linked, chart;
    }

    /** ept_tree_get_next_table */
    method GetNextTable(g: nat, level: nat, table: nat, create: bool) returns (next: Option<nat>)
      requires Valid() && g < GFN_LIMIT && 1 <= level <= 3
      requires PlaceOf(g, level) in atlas && table == atlas[PlaceOf(g, level)]
      modifies this`tables, this`atlas, this`freq, this`pages
      ensures Valid() && (next.Some? ==> At(atlas, PlaceOf(g, level - 1)) == next)
      ensures Fetched(old(atlas), atlas, old(pages), pages, PlaceOf(g, level - 1), create, next)
      ensures next.None? ==> PlaceOf(g, LEVEL_PT) !in atlas && Entry(tables, atlas, g) == Zero
      ensures forall p :: p in old(atlas) ==> p in atlas && atlas[p] == old(atlas)[p]
      ensures forall h: nat :: Entry(tables, atlas, h) == Entry(old(tables), old(atlas), h)
      ensures !create ==> tables == old(tables) && atlas == old(atlas) && freq == old(freq)
    {
      ghost var p, i := PlaceOf(g, level), Index(g, level);
      PlaceBelow(g, level);
      assert Linked(tables, atlas, p, i);
      var e := tables[table][Index(g, level)];
      if e.Zero? {
        if !create || pages == 0 {
          NoneBelow(tables, atlas, g, level - 1);
          return None;
        }
        var pfn := AddTable(g, level, table);
        return Some(pfn);
      }
      var slot := FreqSlot(g, level - 1);
      if slot.Some? {
        return freq[slot.value];
      }
      return Some(e.pfn);
    }

    /** One compare-and-exchange of a leaf entry: it stays as it is when it is not zero. */
    method PutEntry(pt: nat, g: nat, pte: Epte) returns (was: Epte)
      requires Charted(tables, atlas) && At(atlas, PlaceOf(g, LEVEL_PT)) == Some(pt)
      modifies this`tables
      ensures was == Entry(old(tables), atlas, g)
      ensures if was == Zero || was == pte then Written(old(tables), atlas, g, pte, tables) else tables == old(tables)
    {
      was := tables[pt][Index(g, LEVEL_PT)];
      if was == Zero {
        tables := tables[pt := tables[pt][Index(g, LEVEL_PT) := pte]];
      } else if was == pte {
        assert tables[pt][Index(g, LEVEL_PT) := pte] == tables[pt];
      }
    }

    /** The innermost loop of ept_tree_create_entries: the entries of one leaf table, from the n0-th of
        the range to the one before the end-th. */
    method FillTable(pt: nat, n0: nat, end: nat, start: nat, pfns: seq<nat>, writable: bool, count: nat,
                     ghost tables0: Tables, ghost atlas0: Atlas, ghost leaves0: map<nat, Leaf>)
      returns (ok: bool, created: nat, n: nat, g: nat)
      requires Charted(tables, atlas) && n0 < end <= |pfns| && Mirrors(leaves0, tables0, atlas0)
      requires forall g: nat :: start + n0 <= g < start + end ==> At(atlas, PlaceOf(g, LEVEL_PT)) == Some(pt)
      requires Filling(tables0, atlas0, tables, atlas, start, pfns, writable, n0)
      requires count == Missing(leaves0, start, n0) && start + |pfns| <= GFN_LIMIT
      modifies this`tables
      ensures Charted(tables, atlas) && n0 <= n <= end
      ensures Filling(tables0, atlas0, tables, atlas, start, pfns, writable, n)
      ensures created == Missing(leaves0, start, n)
      ensures g == start + n && (ok ==> n == end)
      ensures !ok ==> n < end && Clash(leaves0, g, Leaf(pfns[n], writable))
    {
      n, created, g := n0, count, start + n0;
      while n < end
        invariant Charted(tables, atlas) && n0 <= n <= end && g == start + n
        invariant Filling(tables0, atlas0, tables, atlas, start, pfns, writable, n)
        invariant created == Missing(leaves0, start, n)
      {
        ghost var before := tables;
        var pte := Present(pfns[n], writable);
        var was := PutEntry(pt, g, pte);
        assert was == Entry(tables0, atlas0, g);
        ClashIff(leaves0, tables0, atlas0, g, pfns[n], writable);
        if was != Zero && was != pte {
          return false, created, n, g;
        }
        if was == Zero {
          created := created + 1;
        }
        var next := n + 1;
        MissingStep(leaves0, start, n, g, next);
        FillingStep(tables0, atlas0, before, atlas, start, pfns, writable, n, g, tables, next);
        n, g := next, g + 1;
      }
      ok := true;
    }

    /** Fetches the tables that lead to a gfn, from level `from` down; those above are known. `tally` says what was there
        before the request. */
    method FetchTables(g: nat, from: nat, pdpt0: nat, pd0: nat, ghost tally: Tally) returns (pdpt: nat, pd: nat, pt: Option<nat>)
      requires Valid() && g < GFN_LIMIT && Known(atlas, g, from, pdpt0, pd0)
      requires tally.start <= g <= tally.last && Laid(tally, atlas, pages)
      modifies this`tables, this`atlas, this`freq, this`pages
      ensures Valid() && forall h: nat :: Entry(tables, atlas, h) == Entry(old(tables), old(atlas), h)
      ensures Laid(tally, atlas, pages)
      ensures pt == At(atlas, PlaceOf(g, LEVEL_PT)) && (pt.None? ==> pages == 0)
      ensures pt.Some? ==> At(atlas, PlaceOf(g, LEVEL_PDPT)) == Some(pdpt) && At(atlas, PlaceOf(g, LEVEL_PD)) == Some(pd)
    {
      var dir;
      pt := None;
      pdpt, dir := FetchDirectory(g, from, pdpt0, pd0, tally);
      pd := if dir.Some? then dir.value else pd0;
      if dir.Some? {
        pt := FetchTable(g, LEVEL_PD, pd, tally);
      }
    }

    method FetchDirectory(g: nat, from: nat, pdpt0: nat, pd0: nat, ghost tally: Tally) returns (pdpt: nat, pd: Option<nat>)
      requires Valid() && g < GFN_LIMIT && Known(atlas, g, from, pdpt0, pd0)
      requires tally.start <= g <= tally.last && Laid(tally, atlas, pages)
      modifies this`tables, this`atlas, this`freq, this`pages
      ensures Valid() && forall h: nat :: Entry(tables, atlas, h) == Entry(old(tables), old(atlas), h)
      ensures Laid(tally, atlas, pages)
      ensures if pd.Some? then At(atlas, PlaceOf(g, LEVEL_PDPT)) == Some(pdpt) && At(atlas, PlaceOf(g, LEVEL_PD)) == pd
              else pages == 0 && PlaceOf(g, LEVEL_PT) !in atlas
    {
      pdpt, pd := pdpt0, Some(pd0);
      if from >= LEVEL_PDPT {
        var pointers := FetchPointers(g, from, pdpt0, tally);
        pd := None;
        if pointers.Some? {
          pdpt := pointers.value;
          pd := FetchTable(g, LEVEL_PDPT, pdpt, tally);
        }
      }
    }

    method FetchPointers(g: nat, from: nat, pdpt0: nat, ghost tally: Tally) returns (pdpt: Option<nat>)
      requires Valid() && g < GFN_LIMIT && (from < 3 ==> At(atlas, PlaceOf(g, LEVEL_PDPT)) == Some(pdpt0))
      requires tally.start <= g <= tally.last && Laid(tally, atlas, pages) && from <= 3
      modifies this`tables, this`atlas, this`freq, this`pages
      ensures Valid() && forall h: nat :: Entry(tables, atlas, h) == Entry(old(tables), old(atlas), h)
      ensures Laid(tally, atlas, pages)
      ensures if pdpt.Some? then At(atlas, PlaceOf(g, LEVEL_PDPT)) == pdpt else pages == 0 && PlaceOf(g, LEVEL_PT) !in atlas
    {
      pdpt := Some(pdpt0);
      if from == LEVEL_PML4 {
        RootPlace(g);
        pdpt := FetchTable(g, LEVEL_PML4, root, tally);
      }
    }

    /** One of them; without it the gfn has no leaf table either. */
    method FetchTable(g: nat, level: nat, table: nat, ghost tally: Tally) returns (next: Option<nat>)
      requires Valid() && g < GFN_LIMIT && 1 <= level <= 3
      requires PlaceOf(g, level) in atlas && table == atlas[PlaceOf(g, level)]
      requires tally.start <= g <= tally.last && Laid(tally, atlas, pages)
      modifies this`tables, this`atlas, this`freq, this`pages
      ensures Valid() && forall h: nat :: Entry(tables, atlas, h) == Entry(old(tables), old(atlas), h)
      ensures forall p :: p in old(atlas) ==> p in atlas && atlas[p] == old(atlas)[p]
      ensures Laid(tally, atlas, pages)
      ensures if next.Some? then At(atlas, PlaceOf(g, level - 1)) == next else pages == 0 && PlaceOf(g, LEVEL_PT) !in atlas
    {
      next := GetNextTable(g, level, table, true);
      LaidOn(tally, old(atlas), atlas, old(pages), pages, PlaceOf(g, level - 1), g, next);
    }

    /** ept_tree_create_entries; `g` is the first gfn it did not get to. */
    method CreateEntries(start: nat, pfns: seq<nat>, writable: bool) returns (r: Creation, g: nat, ghost n: nat)
      requires Valid() && |pfns| > 0 && start + |pfns| <= GFN_LIMIT
      modifies this`tables, this`atlas, this`freq, this`pages
      ensures Valid() && n <= |pfns| && g == start + n
      ensures r == NoMemory ==> n < |pfns| && PlaceOf(g, LEVEL_PT) !in old(atlas) && old(pages) < Lacking(old(atlas), start, |pfns|)
      ensures r.Created? ==> old(pages) - pages == Lacking(old(atlas), start, |pfns|)
      ensures r == Exists ==> 0 <= old(pages) - pages <= Lacking(old(atlas), start, |pfns|)
      ensures LeavesOf(tables, atlas) == Filled(old(LeavesOf(tables, atlas)), start, pfns, writable, n)
      ensures r.Created? ==> n == |pfns| && r.count == Missing(old(LeavesOf(tables, atlas)), start, n)
      ensures r == Exists ==> n < |pfns| && Clash(old(LeavesOf(tables, atlas)), g, Leaf(pfns[n], writable))
    {
      ghost var tables0, atlas0, leaves0 := tables, atlas, LeavesOf(tables, atlas);
      LeavesMirror(tables, atlas);
      ghost var tally := Tally(atlas, pages, start, start + |pfns| - 1);
      r, n, g := FillRange(start, pfns, writable, tables0, atlas0, leaves0, tally);
      if r.Created? {
        TablesThere(tables0, atlas0, tables, atlas, start, pfns, writable);
      }
      PagesTaken(tally, tables, atlas, pages, g, r, |pfns|);
      LeavesFilled(tables0, atlas0, tables, atlas, start, pfns, writable, n);
    }

    /** The loop of ept_tree_create_entries. `from` is the level of the highest table left behind. */
    method FillRange(start: nat, pfns: seq<nat>, writable: bool,
                     ghost tables0: Tables, ghost atlas0: Atlas, ghost leaves0: map<nat, Leaf>, ghost tally: Tally)
      returns (r: Creation, ghost n: nat, g: nat)
      requires Valid() && |pfns| > 0 && start + |pfns| <= GFN_LIMIT && tables == tables0 && atlas == atlas0
      requires Mirrors(leaves0, tables0, atlas0) && tally == Tally(atlas, pages, start, start + |pfns| - 1)
      modifies this`tables, this`atlas, this`freq, this`pages
      ensures Valid() && n <= |pfns| && Filling(tables0, atlas0, tables, atlas, start, pfns, writable, n)
      ensures Laid(tally, atlas, pages) && (r == NoMemory ==> n < |pfns| && pages == 0 && PlaceOf(g, LEVEL_PT) !in atlas)
      ensures r.Created? ==> n == |pfns| && r.count == Missing(leaves0, start, n)
      ensures g == start + n && (r == Exists ==> n < |pfns| && Clash(leaves0, g, Leaf(pfns[n], writable)))
    {
      var from, i, pdpt, pd, created := LEVEL_PML4, 0, 0, 0, 0;
      r, g := Created(0), start;
      while i < |pfns| && r.Created?
        invariant Valid() && i <= |pfns| && g == start + i
        invariant i < |pfns| && r.Created? ==> Known(atlas, g, from, pdpt, pd)
        invariant Filling(tables0, atlas0, tables, atlas, start, pfns, writable, i)
        invariant created == Missing(leaves0, start, i)
        invariant Laid(tally, atlas, pages) && (r == NoMemory ==> i < |pfns| && pages == 0 && PlaceOf(g, LEVEL_PT) !in atlas)
        invariant r == Exists ==> i < |pfns| && Clash(leaves0, g, Leaf(pfns[i], writable))
        decreases |pfns| - i, r.Created?
      {
        r, created, i, g, pdpt, pd, from := FillTurn(i, g, from, pdpt, pd, start, pfns, writable, created, tables0, atlas0, leaves0, tally);
      }
      r, n := if r.Created? then Created(created) else r, i;
    }

    /** One turn of that loop: the tables that lead to a gfn, then the entries of its leaf table. */
    method FillTurn(i0: nat, g0: nat, from0: nat, pdpt0: nat, pd0: nat, start: nat, pfns: seq<nat>, writable: bool, count: nat,
                    ghost tables0: Tables, ghost atlas0: Atlas, ghost leaves0: map<nat, Leaf>, ghost tally: Tally)
      returns (r: Creation, created: nat, i: nat, g: nat, pdpt: nat, pd: nat, from: nat)
      requires Valid() && i0 < |pfns| && g0 == start + i0 && start + |pfns| <= GFN_LIMIT && Known(atlas, g0, from0, pdpt0, pd0)
      requires Filling(tables0, atlas0, tables, atlas, start, pfns, writable, i0)
      requires Mirrors(leaves0, tables0, atlas0) && count == Missing(leaves0, start, i0)
      requires tally.start == start && tally.last == start + |pfns| - 1 && Laid(tally, atlas, pages)
      modifies this`tables, this`atlas, this`freq, this`pages
      ensures Valid() && i0 <= i <= |pfns| && g == start + i && (r.Created? ==> i0 < i)
      ensures Filling(tables0, atlas0, tables, atlas, start, pfns, writable, i)
      ensures Laid(tally, atlas, pages) && (r == NoMemory ==> i < |pfns| && pages == 0 && PlaceOf(g, LEVEL_PT) !in atlas)
      ensures created == Missing(leaves0, start, i)
      ensures r.Created? && i < |pfns| ==> Known(atlas, g, from, pdpt, pd)
      ensures r == Exists ==> i < |pfns| && Clash(leaves0, g, Leaf(pfns[i], writable))
    {
      r, created, i, g, from := NoMemory, count, i0, g0, from0;
      var pt;
      pdpt, pd, pt := FetchNext(i0, g0, from0, pdpt0, pd0, start, pfns, writable, tables0, atlas0, tally);
      if pt.Some? {
        var ok;
        ok, created, i, g, from := FillNext(pt.value, i0, g0, pdpt, pd, start, pfns, writable, count, tables0, atlas0, leaves0);
        r := if ok then Created(created) else Exists;
      }
    }

    /** The tables for one turn of that loop; what was filled stays so. */
    method FetchNext(ghost i: nat, g: nat, from: nat, pdpt0: nat, pd0: nat, ghost start: nat, ghost pfns: seq<nat>, ghost writable: bool,
                     ghost tables0: Tables, ghost atlas0: Atlas, ghost tally: Tally)
      returns (pdpt: nat, pd: nat, pt: Option<nat>)
      requires Valid() && g < GFN_LIMIT && Known(atlas, g, from, pdpt0, pd0)
      requires tally.start <= g <= tally.last && Laid(tally, atlas, pages)
      requires i <= |pfns| && Filling(tables0, atlas0, tables, atlas, start, pfns, writable, i)
      modifies this`tables, this`atlas, this`freq, this`pages
      ensures Valid() && Laid(tally, atlas, pages) && Filling(tables0, atlas0, tables, atlas, start, pfns, writable, i)
      ensures pt == At(atlas, PlaceOf(g, LEVEL_PT)) && (pt.None? ==> pages == 0)
      ensures pt.Some? ==> At(atlas, PlaceOf(g, LEVEL_PDPT)) == Some(pdpt) && At(atlas, PlaceOf(g, LEVEL_PD)) == Some(pd)
    {
      ghost var tables1, atlas1 := tables, atlas;
      pdpt, pd, pt := FetchTables(g, from, pdpt0, pd0, tally);
      FillingKept(tables0, atlas0, tables1, atlas1, tables, atlas, start, pfns, writable, i);
    }

    /** One turn of that loop, once there are tables: the entries of one leaf table. */
    method FillNext(pt: nat, i0: nat, g0: nat, pdpt: nat, pd: nat, start: nat, pfns: seq<nat>, writable: bool, count: nat,
                    ghost tables0: Tables, ghost atlas0: Atlas, ghost leaves0: map<nat, Leaf>)
      returns (ok: bool, created: nat, i: nat, g: nat, from: nat)
      requires Charted(tables, atlas) && i0 < |pfns| && g0 == start + i0 && start + |pfns| <= GFN_LIMIT
      requires At(atlas, PlaceOf(g0, LEVEL_PDPT)) == Some(pdpt) && At(atlas, PlaceOf(g0, LEVEL_PD)) == Some(pd)
      requires At(atlas, PlaceOf(g0, LEVEL_PT)) == Some(pt)
      requires Filling(tables0, atlas0, tables, atlas, start, pfns, writable, i0)
      requires Mirrors(leaves0, tables0, atlas0) && count == Missing(leaves0, start, i0)
      modifies this`tables
      ensures Charted(tables, atlas) && i0 <= i <= |pfns| && g == start + i
      ensures Filling(tables0, atlas0, tables, atlas, start, pfns, writable, i)
      ensures created == Missing(leaves0, start, i) && (ok ==> i0 < i)
      ensures ok && i < |pfns| ==> Known(atlas, g, from, pdpt, pd)
      ensures !ok ==> i < |pfns| && Clash(leaves0, g, Leaf(pfns[i], writable))
    {
      var end := TableEnd(g0, start, |pfns|);
      ok, created, i, g := FillTable(pt, i0, end, start, pfns, writable, count, tables0, atlas0, leaves0);
      from := Carry(g0, g);
      if ok && i < |pfns| {
        CarryKnows(atlas, g0, g, from, pdpt, pd);
      }
    }

    /** ept_tree_walk with a visitor that reads the leaf: what it finds is what a walk from the root
        gives, with or without the cache. */
    method FindLeafTable(g: nat) returns (pt: Option<nat>)
      requires Valid() && g < GFN_LIMIT
      modifies this`tables, this`atlas, this`freq, this`pages
      ensures Valid() && tables == old(tables) && atlas == old(atlas) && freq == old(freq) && pages == old(pages)
      ensures pt == At(atlas, PlaceOf(g, LEVEL_PT))
      ensures pt.None? ==> Entry(tables, atlas, g) == Zero
    {
      RootPlace(g);
      var level, table := LEVEL_PML4, root;
      while level > LEVEL_PT
        invariant 0 <= level <= 3 && At(atlas, PlaceOf(g, level)) == Some(table)
        invariant Valid() && tables == old(tables) && atlas == old(atlas) && freq == old(freq) && pages == old(pages)
      {
        var below := level - 1;
        var next := GetNextTable(g, level, table, false);
        if next.None? {
          return None;
        }
        table, level := next.value, below;
      }
      pt := Some(table);
    }

    /** ept_tree_get_entry */
    method GetEntry(g: nat) returns (e: Epte)
      requires Valid() && g < GFN_LIMIT
      modifies this`tables, this`atlas, this`freq, this`pages
      ensures Valid() && tables == old(tables) && atlas == old(atlas) && freq == old(freq) && pages == old(pages)
      ensures e == WalkFrom(tables, root, g, LEVEL_PML4) == Entry(tables, atlas, g)
    {
      RootPlace(g);
      WalkReaches(tables, atlas, g, LEVEL_PML4);
      var pt := FindLeafTable(g);
      e := if pt.None? then Zero else tables[pt.value][Index(g, LEVEL_PT)];
    }

    /** ept_tree_invalidate_entry */
    method InvalidateEntry(g: nat) returns (modified: bool)
      requires Valid() && g < GFN_LIMIT
      modifies this`tables, this`atlas, this`freq, this`pages
      ensures Valid() && pages == old(pages) && modified == Entry(old(tables), old(atlas), g).Present?
      ensures forall h: nat :: Entry(tables, atlas, h) == if h == g then Zero else Entry(old(tables), old(atlas), h)
    {
      var pt := FindLeafTable(g);
      modified := false;
      if pt.Some? && tables[pt.value][Index(g, LEVEL_PT)] != Zero {
        ghost var before := tables;
        tables := tables[pt.value := tables[pt.value][Index(g, LEVEL_PT) := Zero]];
        modified := true;
        WriteCharts(before, atlas, g, Zero, tables);
        forall h: nat ensures Entry(tables, atlas, h) == if h == g then Zero else Entry(before, atlas, h) {
          WriteChanges(before, atlas, g, Zero, tables, h);
        }
      }
    }

    /** ept_tree_invalidate_entries */
    method InvalidateEntries(start: nat, npages: nat) returns (modified: nat)
      requires Valid() && start + npages <= GFN_LIMIT
      modifies this
      ensures Valid() && pages == old(pages) && LeavesOf(tables, atlas) == ClearRange(old(LeavesOf(tables, atlas)), start, npages)
      ensures inveptPending == (old(inveptPending) || modified > 0)
      ensures modified + Missing(old(LeavesOf(tables, atlas)), start, npages) == npages
    {
      ghost var tables0, atlas0, leaves0 := tables, atlas, LeavesOf(tables, atlas);
      LeavesMirror(tables, atlas);
      modified := ClearEntries(start, npages, tables0, atlas0, leaves0);
      if modified > 0 {
        inveptPending := true;
      }
      LeavesCleared(tables0, atlas0, tables, atlas, start, npages);
    }

    method ClearEntries(start: nat, npages: nat, ghost tables0: Tables, ghost atlas0: Atlas, ghost leaves0: map<nat, Leaf>)
      returns (modified: nat)
      requires Valid() && start + npages <= GFN_LIMIT && tables == tables0 && atlas == atlas0
      requires Mirrors(leaves0, tables0, atlas0)
      modifies this`tables, this`atlas, this`freq, this`pages
      ensures Valid() && pages == old(pages) && Clearing(tables0, atlas0, tables, atlas, start, npages)
      ensures modified + Missing(leaves0, start, npages) == npages
    {
      modified := 0;
      var i, g := 0, start;
      while i < npages
        invariant Valid() && pages == old(pages) && i <= npages && g == start + i
        invariant Clearing(tables0, atlas0, tables, atlas, start, i)
        invariant modified + Missing(leaves0, start, i) == i
      {
        var was := InvalidateEntry(g);
        ClashIff(leaves0, tables0, atlas0, g, 0, false);
        if was {
          modified := modified + 1;
        }
        var next := i + 1;
        MissingStep(leaves0, start, i, g, next);
        i, g := next, g + 1;
      }
    }
  }

  ghost predicate Clearing(tables0: Tables, atlas0: Atlas, tables: Tables, atlas: Atlas, start: nat, n: nat) {
    forall h: nat :: Entry(tables, atlas, h) == if start <= h < start + n then Zero else Entry(tables0, atlas0, h)
  }

  lemma LeavesCleared(tables0: Tables, atlas0: Atlas, tables: Tables, atlas: Atlas, start: nat, n: nat)
    requires start + n <= GFN_LIMIT && Clearing(tables0, atlas0, tables, atlas, start, n)
    ensures LeavesOf(tables, atlas) == ClearRange(LeavesOf(tables0, atlas0), start, n)
  {
  }

  datatype Creation = Created(count: nat) | Exists | NoMemory

  // ---- How many pages that takes ----------------------------------------------------------------

  /** What asking for a table does: one that is there is found; one that is not takes a page, if it may and there is one. */
  ghost predicate Fetched(atlas0: Atlas, atlas: Atlas, pages0: nat, pages: nat, p: Place, create: bool, next: Option<nat>) {
    if p in atlas0 || !create then atlas == atlas0 && pages == pages0 && (next.Some? <==> p in atlas0)
    else if pages0 == 0 then atlas == atlas0 && pages == 0 && next.None?
    else Extended(atlas0, atlas, p, pages0, pages) && next.Some?
  }

  /** One table more, and one page less. */
  ghost predicate Extended(atlas0: Atlas, atlas: Atlas, p: Place, pages0: nat, pages: nat) {
    && |atlas| == |atlas0| + 1 && pages == pages0 - 1
    && (forall q :: q in atlas <==> q in atlas0 || q == p)
  }

  lemma ExtendedBy(atlas0: Atlas, p: Place, pfn: nat, atlas: Atlas, pages0: nat, pages: nat)
    requires p !in atlas0 && atlas == atlas0[p := pfn] && pages == pages0 - 1
    ensures Extended(atlas0, atlas, p, pages0, pages)
  {
  }

  /** What was there when a range was asked for: the tables, the pages, and the gfns of the range. */
  datatype Tally = Tally(atlas: Atlas, pages: nat, start: nat, last: nat)

  /** A table below the root that leads into a range of gfns. */
  predicate Leads(p: Place, start: nat, last: nat) {
    p.level <= 2 && start / Span(p.level + 1) <= p.prefix <= last / Span(p.level + 1)
  }

  /** No tables were added but some that lead into the range, and each has taken a page. */
  ghost predicate Laid(tally: Tally, atlas: Atlas, pages: nat) {
    && tally.atlas.Keys <= atlas.Keys
    && (forall p :: p in atlas && p !in tally.atlas ==> Leads(p, tally.start, tally.last))
    && tally.pages + |tally.atlas| == pages + |atlas|
  }

  lemma LaidOn(tally: Tally, before: Atlas, atlas: Atlas, left: nat, pages: nat, p: Place, g: nat, next: Option<nat>)
    requires p.level <= 2 && p == PlaceOf(g, p.level) && tally.start <= g <= tally.last && Laid(tally, before, left)
    requires Fetched(before, atlas, left, pages, p, true, next)
    ensures Laid(tally, atlas, pages) && (next.None? ==> pages == 0)
  {
    OnTheWay(g, p.level, tally.start, tally.last);
  }

  lemma OnTheWay(g: nat, level: nat, start: nat, last: nat)
    requires level <= 2 && start <= g <= last
    ensures Leads(PlaceOf(g, level), start, last)
  {
  }

  /** The tables below the root that lead to a gfn of a range. */
  ghost function Paths(start: nat, n: nat): set<Place> {
    set h: nat, level: nat | start <= h < start + n && level <= 2 :: PlaceOf(h, level)
  }

  /** How many of them are not there. */
  ghost function Lacking(atlas: Atlas, start: nat, n: nat): nat {
    |Paths(start, n) - atlas.Keys|
  }

  /** A table leads into a range exactly if it leads to some gfn of it. */
  lemma OnPaths(start: nat, n: nat, last: nat, p: Place)
    requires n > 0 && last == start + n - 1
    ensures p in Paths(start, n) <==> Leads(p, start, last)
  {
    if Leads(p, start, last) {
      var g := FirstOf(p, start, last);
      assert p == PlaceOf(g, p.level);
    }
    if h: nat, level: nat :| start <= h < start + n && level <= 2 && p == PlaceOf(h, level) {
      OnTheWay(h, level, start, last);
    }
  }

  /** The first gfn of the range that a table leads to. */
  lemma FirstOf(p: Place, start: nat, last: nat) returns (g: nat)
    requires Leads(p, start, last) && start <= last
    ensures start <= g <= last && PlaceOf(g, p.level) == p
  {
    var span := Span(p.level + 1);
    if p.prefix == start / span {
      g := start;
    } else {
      g := p.prefix * span;
      assert g / span == p.prefix;
    }
  }

  /** Where a leaf table is, so are those above it. */
  lemma AllAbove(tables: Tables, atlas: Atlas, g: nat, level: nat)
    requires Charted(tables, atlas) && level <= 2 && PlaceOf(g, LEVEL_PT) in atlas
    ensures PlaceOf(g, level) in atlas
  {
    PlaceBelow(g, LEVEL_PD);
    PlaceBelow(g, LEVEL_PDPT);
  }

  lemma AllThere(tables: Tables, atlas: Atlas, start: nat, n: nat)
    requires Charted(tables, atlas) && forall h: nat :: start <= h < start + n ==> PlaceOf(h, LEVEL_PT) in atlas
    ensures Paths(start, n) <= atlas.Keys
  {
    forall h: nat, level: nat | start <= h < start + n && level <= 2 ensures PlaceOf(h, level) in atlas {
      AllAbove(tables, atlas, h, level);
    }
  }

  /** Where leaves are there are leaf tables. */
  lemma TablesThere(tables0: Tables, atlas0: Atlas, tables: Tables, atlas: Atlas, start: nat, pfns: seq<nat>, writable: bool)
    requires Filling(tables0, atlas0, tables, atlas, start, pfns, writable, |pfns|)
    ensures forall h: nat :: start <= h < start + |pfns| ==> PlaceOf(h, LEVEL_PT) in atlas
  {
    forall h: nat | start <= h < start + |pfns| ensures PlaceOf(h, LEVEL_PT) in atlas {
      assert Entry(tables, atlas, h) == Present(pfns[h - start], writable);
    }
  }

  lemma AddedOnPaths(tally: Tally, atlas: Atlas, pages: nat, n: nat)
    requires Laid(tally, atlas, pages) && n > 0 && tally.last == tally.start + n - 1
    ensures atlas.Keys - tally.atlas.Keys <= Paths(tally.start, n) - tally.atlas.Keys
  {
    forall p | p in atlas && p !in tally.atlas ensures p in Paths(tally.start, n) {
      OnPaths(tally.start, n, tally.last, p);
    }
  }

  /** All that was lacking has been added, one page each; or there were fewer pages than that. */
  lemma PagesTaken(tally: Tally, tables: Tables, atlas: Atlas, pages: nat, g: nat, r: Creation, n: nat)
    requires Charted(tables, atlas) && Laid(tally, atlas, pages) && n > 0 && tally.last == tally.start + n - 1
    requires r == NoMemory ==> tally.start <= g <= tally.last && pages == 0 && PlaceOf(g, LEVEL_PT) !in atlas
    requires r.Created? ==> forall h: nat :: tally.start <= h < tally.start + n ==> PlaceOf(h, LEVEL_PT) in atlas
    ensures r.Created? ==> tally.pages - pages == Lacking(tally.atlas, tally.start, n)
    ensures 0 <= tally.pages - pages <= Lacking(tally.atlas, tally.start, n)
    ensures r == NoMemory ==> tally.pages < Lacking(tally.atlas, tally.start, n) && PlaceOf(g, LEVEL_PT) !in tally.atlas
  {
    var added, all := atlas.Keys - tally.atlas.Keys, Paths(tally.start, n) - tally.atlas.Keys;
    AddedOnPaths(tally, atlas, pages, n);
    Differ(tally.atlas.Keys, atlas.Keys);
    Differ(added, all);
    if r == NoMemory {
      OnTheWay(g, LEVEL_PT, tally.start, tally.last);
      OnPaths(tally.start, n, tally.last, PlaceOf(g, LEVEL_PT));
      Fewer(added, all, PlaceOf(g, LEVEL_PT));
    } else if r.Created? {
      AllThere(tables, atlas, tally.start, n);
      SameSets(atlas.Keys, tally.atlas.Keys, Paths(tally.start, n));
    }
  }

  lemma SameSets(places: set<Place>, places0: set<Place>, paths: set<Place>)
    requires places - places0 <= paths - places0 && paths <= places
    ensures places - places0 == paths - places0
  {
  }

  lemma Differ(a: set<Place>, b: set<Place>)
    requires a <= b
    ensures |b| == |a| + |b - a|
  {
    assert b == a + (b - a);
  }

  lemma Fewer(a: set<Place>, b: set<Place>, p: Place)
    requires a <= b && p in b && p !in a
    ensures |a| < |b|
  {
    Differ(a, b);
    assert p in b - a;
  }

  /** One past the last entry of the range that is in the same leaf table as gfn g. */
  function TableEnd(g: nat, start: nat, npages: nat): (end: nat)
    requires start <= g < start + npages
    ensures g - start < end <= npages
    ensures forall h: nat :: g <= h < start + end ==> PlaceOf(h, LEVEL_PT) == PlaceOf(g, LEVEL_PT)
    ensures end < npages ==> start + end == (g / TABLE_SIZE + 1) * TABLE_SIZE
  {
    var last := start + npages - 1;
    (if last / TABLE_SIZE > g / TABLE_SIZE then g / TABLE_SIZE * TABLE_SIZE + TABLE_SIZE - 1 else last) - start + 1
  }

  /** The goto at the end of ept_tree_create_entries: which tables still serve for the next gfn. */
  function Carry(g: nat, next: nat): (from: nat)
    ensures 1 <= from <= 3
    ensures next == (g / TABLE_SIZE + 1) * TABLE_SIZE ==>
              && (from < 3 ==> PlaceOf(next, LEVEL_PDPT) == PlaceOf(g, LEVEL_PDPT))
              && (from < 2 ==> PlaceOf(next, LEVEL_PD) == PlaceOf(g, LEVEL_PD))
  {
    SpanOfTables(g);
    SpanOfTables(next);
    SpanOfDirectories(g);
    SpanOfDirectories(next);
    NoCarry(g / 0x200, next / 0x200);
    NoCarry(g / 0x4_0000, next / 0x4_0000);
    if Index(next, LEVEL_PD) != 0 then LEVEL_PD
    else if Index(next, LEVEL_PDPT) != 0 then LEVEL_PDPT
    else LEVEL_PML4
  }

  /** The tables on the way to a gfn, above level `from`, are known. */
  ghost predicate Known(atlas: Atlas, g: nat, from: nat, pdpt: nat, pd: nat) {
    && 1 <= from <= 3
    && (from < 3 ==> At(atlas, PlaceOf(g, LEVEL_PDPT)) == Some(pdpt))
    && (from < 2 ==> At(atlas, PlaceOf(g, LEVEL_PD)) == Some(pd))
  }

  lemma CarryKnows(atlas: Atlas, g: nat, next: nat, from: nat, pdpt: nat, pd: nat)
    requires At(atlas, PlaceOf(g, LEVEL_PDPT)) == Some(pdpt) && At(atlas, PlaceOf(g, LEVEL_PD)) == Some(pd)
    requires next == (g / TABLE_SIZE + 1) * TABLE_SIZE && from == Carry(g, next)
    ensures Known(atlas, next, from, pdpt, pd)
  {
  }

  lemma NoCarry(x: nat, y: nat)
    ensures x / 512 == y / 512 || (y == x + 1 ==> y % 512 == 0 && y / 512 == x / 512 + 1)
  {
  }

  /** The map and the tree say the same. */
  ghost predicate Mirrors(leaves: map<nat, Leaf>, tables: Tables, atlas: Atlas) {
    forall g: nat :: g < GFN_LIMIT ==>
      match Entry(tables, atlas, g)
      case Zero => g !in leaves
      case Present(pfn, writable) => g in leaves && leaves[g] == Leaf(pfn, writable)
  }

  lemma ClashIff(leaves: map<nat, Leaf>, tables: Tables, atlas: Atlas, g: nat, pfn: nat, writable: bool)
    requires Mirrors(leaves, tables, atlas) && g < GFN_LIMIT
    ensures g in leaves <==> Entry(tables, atlas, g) != Zero
    ensures Clash(leaves, g, Leaf(pfn, writable)) <==>
            Entry(tables, atlas, g) != Zero && Entry(tables, atlas, g) != Present(pfn, writable)
  {
  }

  lemma MissingStep(leaves: map<nat, Leaf>, start: nat, n: nat, g: nat, next: nat)
    requires g == start + n && next == n + 1
    ensures Missing(leaves, start, next) == Missing(leaves, start, n) + if g in leaves then 0 else 1
  {
  }

  lemma LeavesMirror(tables: Tables, atlas: Atlas)
    ensures Mirrors(LeavesOf(tables, atlas), tables, atlas)
  {
  }
}
