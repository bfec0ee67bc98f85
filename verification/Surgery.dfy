/**
 What one mapping request does to the slot list: the elementary edits of a slot, and the meaning
 of the two places where the list is rewritten, the first slot the request reaches (the primary
 node) and the last one.
 */
module Surgery {
  import opened Memslots

  function Min(a: int, b: int): int {
    if a < b then a else b
  }

  function Max(a: int, b: int): int {
    if a > b then a else b
  }

  // ---- Edits of one slot ------------------------------------------------------------------

  /** memslot_union: `s` stretched over `d`; its block and flags stay. */
  function Union(d: Slot, s: Slot): Slot {
    var base := Min(s.base, d.base);
    Slot(base, Max(s.End(), d.End()) - base, s.block, Min(s.offset, d.offset), s.flags)
  }

  /** memslot_overlap_front: `d` cuts off the front of `s`. */
  function OverlapFront(d: Slot, s: Slot): Slot
    requires s.base <= d.End() <= s.End()
  {
    Slot(d.End(), s.End() - d.End(), s.block, s.offset + (d.End() - s.base) * PAGE_SIZE, s.flags)
  }

  /** memslot_overlap_rear: `d` cuts off the rear of `s`. */
  function OverlapRear(d: Slot, s: Slot): Slot
    requires s.base <= d.base
  {
    s.(npages := d.base - s.base)
  }

  lemma UnionOfSameType(d: Slot, s: Slot)
    requires SameType(d, s)
    ensures Union(d, s).Kind() == d.Kind()
  {
  }

  // ---- Meaning of a request ---------------------------------------------------------------

  /** After the request, `d` translates by `k` and every other gfn as before. */
  ghost predicate PointUpdate(before: seq<Slot>, after: seq<Slot>, d: Slot, k: Option<Kind>) {
    forall g: nat :: KindAt(after, g) == if d.Covers(g) then k else KindAt(before, g)
  }

  ghost predicate Within(slots: seq<Slot>, lo: int, hi: int) {
    forall i :: 0 <= i < |slots| ==> lo <= slots[i].base && slots[i].End() <= hi
  }

  /** The first slot that ends at or after the request's start. */
  function Primary(slots: seq<Slot>, d: Slot): (p: nat)
    ensures p <= |slots|
    ensures forall i :: 0 <= i < p ==> slots[i].End() < d.base
    ensures p < |slots| ==> d.base <= slots[p].End()
  {
    if slots == [] || d.base <= slots[0].End() then 0 else 1 + Primary(slots[1..], d)
  }

  /** Cases (4)(5)(7)(8) of the source's figure: the request covers a primary node of another
      type, which is then stretched but keeps its block. */
  predicate Swallows(d: Slot, s: Slot) {
    !SameType(d, s) && d.base <= s.base && s.End() <= d.End()
  }

  function Swallowed(d: Slot, s: Slot): Slot {
    Union(d, s).(flags := d.flags)
  }

  /** A slot of the request's own type that reaches past its end absorbs the whole request. */
  predicate Rescued(slots: seq<Slot>, d: Slot) {
    exists j :: 0 <= j < |slots| && SameType(d, slots[j]) && slots[j].base <= d.End() < slots[j].End()
  }

  /** When the list surgery does what was asked; a caller can tell before asking. */
  predicate Faithful(slots: seq<Slot>, d: Slot) {
    var p := Primary(slots, d);
    p < |slots| && Swallows(d, slots[p]) ==>
      || (slots[p].block == d.block && d.offset <= slots[p].offset)
      || Rescued(slots, d)
  }

  /** The kind the request's range really gets. */
  function EffectiveKind(slots: seq<Slot>, d: Slot): Kind {
    var p := Primary(slots, d);
    if p < |slots| && Swallows(d, slots[p]) && !Rescued(slots, d)
    then Swallowed(d, slots[p]).Kind()
    else d.Kind()
  }

  lemma EffectiveIsRequested(slots: seq<Slot>, d: Slot)
    ensures EffectiveKind(slots, d) == d.Kind() <==> Faithful(slots, d)
  {
  }

  lemma {:induction false} PrimaryIsFirst(slots: seq<Slot>, d: Slot, p: nat)
    requires p <= |slots|
    requires forall i :: 0 <= i < p ==> slots[i].End() < d.base
    requires p < |slots| ==> d.base <= slots[p].End()
    ensures Primary(slots, d) == p
  {
    if p > 0 {
      forall i | 0 <= i < p - 1 ensures slots[1..][i].End() < d.base {
        assert slots[i + 1].End() < d.base;
      }
      PrimaryIsFirst(slots[1..], d, p - 1);
    }
  }

  // ---- Ordered lists, piece by piece --------------------------------------------------------

  lemma OrderedSlice(s: seq<Slot>, i: nat, j: nat)
    requires Ordered(s) && i <= j <= |s|
    ensures Ordered(s[i..j])
  {
    var t := s[i..j];
    forall a, b | 0 <= a < b < |t| ensures t[a].End() <= t[b].base {
      assert s[i + a].End() <= s[i + b].base;
    }
  }

  lemma OrderedJoin(a: seq<Slot>, b: seq<Slot>, m: nat)
    requires Ordered(a) && Ordered(b)
    requires forall i :: 0 <= i < |a| ==> a[i].End() <= m
    requires forall i :: 0 <= i < |b| ==> m <= b[i].base
    ensures Ordered(a + b)
  {
  }

  /** A list is canonical exactly when no slot could be longer. */
  ghost predicate Maximal(slots: seq<Slot>, s: Slot) {
    KindAt(slots, s.End()) != Some(s.Kind())
  }

  lemma KindAtEnd(slots: seq<Slot>, i: nat)
    requires Ordered(slots) && i < |slots|
    ensures KindAt(slots, slots[i].End()) ==
            if i + 1 < |slots| && slots[i + 1].base == slots[i].End() then Some(slots[i + 1].Kind()) else None
  {
    var g := slots[i].End();
    if i + 1 < |slots| && slots[i + 1].base == g {
      KindAtIndex(slots, i + 1, g);
    } else {
      forall j | 0 <= j < |slots| ensures !slots[j].Covers(g) {
        if j > i + 1 {
          assert slots[i].End() <= slots[i + 1].base && slots[i + 1].End() <= slots[j].base;
          assert slots[i + 1].npages > 0;
        }
      }
      KindAtNone(slots, g);
    }
  }

  lemma CanonicalIsMaximal(slots: seq<Slot>)
    requires Ordered(slots)
    ensures Canonical(slots) <==> forall i :: 0 <= i < |slots| ==> Maximal(slots, slots[i])
  {
    if Canonical(slots) {
      forall i | 0 <= i < |slots| ensures Maximal(slots, slots[i]) {
        KindAtEnd(slots, i);
        var j := i + 1;
        assert j < |slots| && slots[i].End() == slots[j].base ==> slots[i].Kind() != slots[j].Kind();
      }
    }
    if forall i :: 0 <= i < |slots| ==> Maximal(slots, slots[i]) {
      forall i, j | 0 <= i && j == i + 1 && j < |slots| && slots[i].End() == slots[j].base
        ensures slots[i].Kind() != slots[j].Kind()
      {
        KindAtEnd(slots, i);
        assert Maximal(slots, slots[i]);
      }
    }
  }

  // ---- Replacing the middle of a list ---------------------------------------------------------

  lemma ReplaceMiddle(l: seq<Slot>, x: seq<Slot>, y: seq<Slot>, r: seq<Slot>, d: Slot, k: Option<Kind>)
    requires PointUpdate(x, y, d, k)
    requires forall i :: 0 <= i < |l| ==> l[i].End() <= d.base
    requires forall i :: 0 <= i < |r| ==> d.End() <= r[i].base
    ensures PointUpdate(l + x + r, l + y + r, d, k)
  {
    forall g: nat
      ensures KindAt(l + y + r, g) == if d.Covers(g) then k else KindAt(l + x + r, g)
    {
      KindAtConcat(l + x, r, g);
      KindAtConcat(l, x, g);
      KindAtConcat(l + y, r, g);
      KindAtConcat(l, y, g);
      if d.Covers(g) {
        KindAtNone(l, g);
        KindAtNone(r, g);
      }
    }
  }

  /** Why a slot of the rewritten part cannot be extended, in terms of the old list. */
  ghost predicate Tidy(before: seq<Slot>, f: Slot, d: Slot, k: Option<Kind>) {
    || (f.End() == d.base && k != Some(f.Kind()))
    || (!d.Covers(f.End()) && KindAt(before, f.End()) != Some(f.Kind()))
  }

  lemma CanonicalAfter(before: seq<Slot>, l: seq<Slot>, y: seq<Slot>, r: seq<Slot>, d: Slot, k: Option<Kind>)
    requires Ordered(before) && Canonical(before) && d.npages > 0
    requires Ordered(l + y + r) && PointUpdate(before, l + y + r, d, k)
    requires forall i :: 0 <= i < |l| ==> l[i] in before && l[i].End() < d.base
    requires forall i :: 0 <= i < |r| ==> r[i] in before && d.End() <= r[i].base
    requires forall i :: 0 <= i < |y| ==> Tidy(before, y[i], d, k)
    ensures Canonical(l + y + r)
  {
    var after := l + y + r;
    CanonicalIsMaximal(before);
    forall i | 0 <= i < |after| ensures Maximal(after, after[i]) {
      var s := after[i];
      assert KindAt(after, s.End()) == if d.Covers(s.End()) then k else KindAt(before, s.End());
      if i < |l| {
        assert s == l[i];
      } else if i < |l| + |y| {
        assert s == y[i - |l|];
      } else {
        assert s == r[i - |l| - |y|];
      }
    }
    CanonicalIsMaximal(after);
  }

  // ---- The primary node and the last node --------------------------------------------------

  function Asked(d: Slot, valid: bool): Option<Kind> {
    if valid then Some(d.Kind()) else None
  }

  /** The kind the range has once the primary node is dealt with. */
  function StartKind(d: Slot, s: Slot): Kind {
    if Swallows(d, s) then Swallowed(d, s).Kind() else d.Kind()
  }

  ghost predicate TidyStart(s: Slot, f: Slot, d: Slot, k: Option<Kind>) {
    || (f.End() == d.base && k != Some(f.Kind()))
    || (f.End() == d.End() < s.End() && KindAt([s], d.End()) != Some(f.Kind()))
    || (f.End() == s.End() && f.Kind() == s.Kind() && d.End() <= s.End())
  }

  /** The request ends inside the primary node `s`, and `mid` in its place puts all of it right. */
  ghost predicate StartDone(d: Slot, s: Slot, valid: bool, mid: seq<Slot>) {
    && Ordered(mid)
    && Within(mid, Min(d.base, s.base), s.End())
    && PointUpdate([s], mid, d, Asked(d, valid))
    && forall i :: 0 <= i < |mid| ==> TidyStart(s, mid[i], d, Asked(d, valid))
  }

  /** The request reaches the end of `s`: `mid` is at most one slot, which already stands for the
      request, or for what precedes it (`insert`, or an unmapping). */
  predicate StartLeft(d: Slot, s: Slot, valid: bool, insert: bool, mid: seq<Slot>) {
    && |mid| <= 1
    && (valid ==> |mid| == 1)
    && (insert ==> valid && !SameType(d, s))
    && (mid == [] ==> d.base <= s.base)
    && (|mid| == 1 ==>
          && mid[0].npages > 0
          && if valid && !insert
             then
               && mid[0].base == Min(d.base, s.base) && mid[0].End() == d.End()
               && mid[0].Kind() == StartKind(d, s) && (SameType(d, s) || Swallows(d, s))
             else
               && mid[0].base == s.base < d.base && mid[0].End() == d.base
               && mid[0].Kind() == s.Kind())
  }

  /** The kind the range has once the last node `e` is dealt with; `y` precedes it. */
  function EndKind(d: Slot, y: Slot, e: Slot, insert: bool): Kind {
    if insert || (SameType(d, e) && d.End() < e.End()) then d.Kind() else y.Kind()
  }

  ghost predicate TidyEnd(y: Slot, e: Slot, f: Slot, d: Slot, insert: bool) {
    || (insert && f == y)
    || (f.End() == d.End() && f.Kind() == EndKind(d, y, e, insert) && (d.End() < e.End() ==> !SameType(d, e)))
    || (f.End() == e.End() && f.Kind() == e.Kind())
  }

  /** `fin` takes the place of the last node `e` and of the slot `y` before it. */
  ghost predicate EndOk(d: Slot, y: Slot, e: Slot, insert: bool, fin: seq<Slot>) {
    && Ordered(fin)
    && Within(fin, y.base, e.End())
    && (forall g: nat :: KindAt(fin, g) ==
          if d.Covers(g) then Some(EndKind(d, y, e, insert))
          else if g < d.base then KindAt([y], g) else KindAt([e], g))
    && (forall i :: 0 <= i < |fin| ==> TidyEnd(y, e, fin[i], d, insert))
  }

  // ---- Reading short lists --------------------------------------------------------------------

  lemma KindAt1(a: Slot, g: nat)
    ensures KindAt([a], g) == if a.Covers(g) then Some(a.Kind()) else None
  {
    assert [a][1..] == [];
  }

  lemma KindAt2(a: Slot, b: Slot, g: nat)
    ensures KindAt([a, b], g) == if a.Covers(g) then Some(a.Kind()) else KindAt([b], g)
  {
    assert [a, b][1..] == [b];
  }

  lemma KindAt3(a: Slot, b: Slot, c: Slot, g: nat)
    ensures KindAt([a, b, c], g) == if a.Covers(g) then Some(a.Kind()) else KindAt([b, c], g)
  {
    assert [a, b, c][1..] == [b, c];
  }

  // ---- The primary node, case by case -----------------------------------------------------------

  /** memslot_process_start_diff_type, seen as what takes the place of the primary node. */
  function StartDiff(d: Slot, s: Slot): seq<Slot>
    requires d.base <= s.End()
  {
    if d.End() <= s.base then [d, s]
    else if d.base <= s.base then
      if d.End() < s.End() then [d, OverlapFront(d, s)] else [Swallowed(d, s)]
    else if d.End() < s.End() then [OverlapRear(d, s), d, OverlapFront(d, s)]
    else [OverlapRear(d, s)]
  }

  lemma StartDiffOk(d: Slot, s: Slot)
    requires d.npages > 0 && s.npages > 0 && d.base <= s.End() && !SameType(d, s)
    ensures d.End() < s.End() ==> StartDone(d, s, true, StartDiff(d, s))
    ensures s.End() <= d.End() ==> StartLeft(d, s, true, s.base < d.base, StartDiff(d, s))
  {
    if d.End() <= s.base {
      StartBefore(d, s);
    } else if d.End() < s.End() {
      if d.base <= s.base {
        StartFront(d, s);
      } else {
        StartInside(d, s);
      }
    }
  }

  lemma StartBefore(d: Slot, s: Slot)
    requires d.npages > 0 && s.npages > 0 && d.End() <= s.base && (d.End() == s.base ==> !SameType(d, s))
    ensures StartDone(d, s, true, [d, s])
  {
    KindAt1(s, d.End());
    forall g: nat ensures KindAt([d, s], g) == if d.Covers(g) then Some(d.Kind()) else KindAt([s], g) {
      KindAt2(d, s, g);
    }
  }

  lemma StartFront(d: Slot, s: Slot)
    requires d.base <= s.base < d.End() < s.End() && !SameType(d, s)
    ensures StartDone(d, s, true, [d, OverlapFront(d, s)])
  {
    var t := OverlapFront(d, s);
    KindAt1(s, d.End());
    forall g: nat ensures KindAt([d, t], g) == if d.Covers(g) then Some(d.Kind()) else KindAt([s], g) {
      KindAt1(s, g);
      KindAt1(t, g);
      KindAt2(d, t, g);
    }
  }

  lemma StartInside(d: Slot, s: Slot)
    requires d.npages > 0 && s.base < d.base && d.End() < s.End() && !SameType(d, s)
    ensures StartDone(d, s, true, [OverlapRear(d, s), d, OverlapFront(d, s)])
  {
    var r, t := OverlapRear(d, s), OverlapFront(d, s);
    KindAt1(s, d.End());
    forall g: nat ensures KindAt([r, d, t], g) == if d.Covers(g) then Some(d.Kind()) else KindAt([s], g) {
      KindAt1(s, g);
      KindAt1(t, g);
      KindAt2(d, t, g);
      KindAt3(r, d, t, g);
    }
  }

  function StartSame(d: Slot, s: Slot): seq<Slot> {
    if d.End() < s.base then [d, s]
    else if s.base <= d.base && d.End() <= s.End() then [s]
    else [Union(d, s)]
  }

  lemma StartSameOk(d: Slot, s: Slot)
    requires d.npages > 0 && s.npages > 0 && d.base <= s.End() && SameType(d, s)
    ensures d.End() < s.End() ==> StartDone(d, s, true, StartSame(d, s))
    ensures s.End() <= d.End() ==> StartLeft(d, s, true, false, StartSame(d, s))
  {
    UnionOfSameType(d, s);
    if d.End() < s.base {
      StartBefore(d, s);
    } else if s.base <= d.base && d.End() < s.End() {
      StartKept(d, s);
    } else if d.End() < s.End() {
      StartUnion(d, s);
    }
  }

  lemma StartKept(d: Slot, s: Slot)
    requires d.npages > 0 && SameType(d, s) && s.base <= d.base && d.End() <= s.End()
    ensures StartDone(d, s, true, [s])
  {
    forall g: nat ensures KindAt([s], g) == if d.Covers(g) then Some(d.Kind()) else KindAt([s], g) {
      KindAt1(s, g);
    }
  }

  lemma StartUnion(d: Slot, s: Slot)
    requires d.npages > 0 && s.npages > 0 && SameType(d, s)
    requires d.base < s.base <= d.End() < s.End()
    ensures StartDone(d, s, true, [Union(d, s)])
  {
    var u := Union(d, s);
    UnionOfSameType(d, s);
    forall g: nat ensures KindAt([u], g) == if d.Covers(g) then Some(d.Kind()) else KindAt([s], g) {
      KindAt1(s, g);
      KindAt1(u, g);
    }
  }

  function StartInvalid(d: Slot, s: Slot): seq<Slot>
    requires d.base <= s.End()
  {
    if d.End() <= s.base || d.base == s.End() then [s]
    else if d.base <= s.base then
      if d.End() < s.End() then [OverlapFront(d, s)] else []
    else if d.End() < s.End() then [OverlapRear(d, s), OverlapFront(d, s)]
    else [OverlapRear(d, s)]
  }

  lemma StartInvalidOk(d: Slot, s: Slot)
    requires d.npages > 0 && s.npages > 0 && d.base <= s.End()
    ensures d.End() < s.End() ==> StartDone(d, s, false, StartInvalid(d, s))
    ensures s.End() <= d.End() ==> StartLeft(d, s, false, false, StartInvalid(d, s))
  {
    if d.End() <= s.base {
      StartClear(d, s);
    } else if d.End() < s.End() {
      if d.base <= s.base {
        StartClip(d, s);
      } else {
        StartHole(d, s);
      }
    }
  }

  lemma StartClear(d: Slot, s: Slot)
    requires d.npages > 0 && s.npages > 0 && d.End() <= s.base
    ensures StartDone(d, s, false, [s])
  {
    forall g: nat ensures KindAt([s], g) == if d.Covers(g) then None else KindAt([s], g) {
      KindAt1(s, g);
    }
  }

  lemma StartClip(d: Slot, s: Slot)
    requires d.base <= s.base < d.End() < s.End()
    ensures StartDone(d, s, false, [OverlapFront(d, s)])
  {
    forall g: nat ensures KindAt([OverlapFront(d, s)], g) == if d.Covers(g) then None else KindAt([s], g) {
      KindAt1(s, g);
      KindAt1(OverlapFront(d, s), g);
    }
  }

  lemma StartHole(d: Slot, s: Slot)
    requires d.npages > 0 && s.base < d.base && d.End() < s.End()
    ensures StartDone(d, s, false, [OverlapRear(d, s), OverlapFront(d, s)])
  {
    var r, t := OverlapRear(d, s), OverlapFront(d, s);
    forall g: nat ensures KindAt([r, t], g) == if d.Covers(g) then None else KindAt([s], g) {
      KindAt1(s, g);
      KindAt1(t, g);
      KindAt2(r, t, g);
    }
  }

  function StartMid(d: Slot, s: Slot, valid: bool): seq<Slot>
    requires d.base <= s.End()
  {
    if !valid then StartInvalid(d, s) else if SameType(d, s) then StartSame(d, s) else StartDiff(d, s)
  }

  predicate StartInsert(d: Slot, s: Slot, valid: bool) {
    valid && !SameType(d, s) && s.base < d.base && s.End() <= d.End()
  }

  lemma StartMidOk(d: Slot, s: Slot, valid: bool)
    requires d.npages > 0 && s.npages > 0 && d.base <= s.End()
    ensures d.End() < s.End() ==> StartDone(d, s, valid, StartMid(d, s, valid))
    ensures s.End() <= d.End() ==> StartLeft(d, s, valid, StartInsert(d, s, valid), StartMid(d, s, valid))
  {
    if !valid {
      StartInvalidOk(d, s);
    } else if SameType(d, s) {
      StartSameOk(d, s);
    } else {
      StartDiffOk(d, s);
    }
  }

  // ---- The last node, case by case ----------------------------------------------------------------

  /** How the list stands when the last node `e` is reached: the slot `y` before it either ends
      where the request starts (`insert`) or already stands for the request. */
  predicate EndReady(d: Slot, y: Slot, e: Slot, insert: bool) {
    && d.npages > 0 && y.npages > 0 && e.npages > 0
    && d.base <= e.base <= d.End() <= e.End()
    && (insert ==> y.End() == d.base && !SameType(d, y))
    && (!insert ==> y.base <= d.base && y.End() == d.End() && (SameType(d, y) || y.base == d.base))
  }

  function EndDiff(d: Slot, y: Slot, e: Slot, insert: bool): seq<Slot>
    requires EndReady(d, y, e, insert)
  {
    if d.End() < e.End() then
      if insert then [y, d, OverlapFront(d, e)] else [y, OverlapFront(d, e)]
    else if insert then [y, d]
    else [y]
  }

  lemma EndDiffOk(d: Slot, y: Slot, e: Slot, insert: bool)
    requires EndReady(d, y, e, insert) && !SameType(d, e)
    ensures EndOk(d, y, e, insert, EndDiff(d, y, e, insert))
  {
    var fin := EndDiff(d, y, e, insert);
    forall g: nat
      ensures KindAt(fin, g) == if d.Covers(g) then Some(EndKind(d, y, e, insert))
                                else if g < d.base then KindAt([y], g) else KindAt([e], g)
    {
      KindAt1(y, g);
      KindAt1(d, g);
      KindAt1(e, g);
      KindAt1(OverlapFront(d, e), g);
      KindAt2(y, d, g);
      KindAt2(d, OverlapFront(d, e), g);
      KindAt2(y, OverlapFront(d, e), g);
      KindAt3(y, d, OverlapFront(d, e), g);
    }
  }

  function EndSame(d: Slot, y: Slot, e: Slot, insert: bool): seq<Slot> {
    if d.End() == e.End() && !insert then [y]
    else
      var u := Union(if SameType(d, y) then y else d, e);
      if insert then [y, u] else [u]
  }

  lemma EndSameOk(d: Slot, y: Slot, e: Slot, insert: bool)
    requires EndReady(d, y, e, insert) && SameType(d, e)
    ensures EndOk(d, y, e, insert, EndSame(d, y, e, insert))
  {
    var fin := EndSame(d, y, e, insert);
    UnionOfSameType(d, e);
    if SameType(d, y) {
      UnionOfSameType(y, e);
    }
    forall g: nat
      ensures KindAt(fin, g) == if d.Covers(g) then Some(EndKind(d, y, e, insert))
                                else if g < d.base then KindAt([y], g) else KindAt([e], g)
    {
      KindAt1(y, g);
      KindAt1(e, g);
      KindAt1(Union(d, e), g);
      KindAt1(Union(y, e), g);
      KindAt2(y, Union(d, e), g);
    }
  }

  /** memslot_process_end_invalid: only `e` changes. */
  function EndInvalid(d: Slot, e: Slot): seq<Slot>
    requires e.base <= d.End() <= e.End()
  {
    if d.End() < e.End() then [OverlapFront(d, e)] else []
  }

  lemma EndInvalidOk(d: Slot, e: Slot)
    requires e.npages > 0 && d.base <= e.base <= d.End() <= e.End()
    ensures PointUpdate([e], EndInvalid(d, e), d, None)
  {
    forall g: nat ensures KindAt(EndInvalid(d, e), g) == if d.Covers(g) then None else KindAt([e], g) {
      KindAt1(e, g);
      KindAt1(OverlapFront(d, e), g);
    }
  }
}
