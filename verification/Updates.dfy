/**
 What a whole mapping request does to the list, put together from what happens at the primary node,
 at the slots the request covers, and at the last node.
 */
module Updates {
  import opened Memslots
  import opened Surgery

  function Outcome(s0: seq<Slot>, d: Slot, valid: bool): Option<Kind> {
    if valid then Some(EffectiveKind(s0, d)) else None
  }

  /** The contract of a mapping request that succeeds. */
  ghost predicate Updated(s0: seq<Slot>, after: seq<Slot>, d: Slot, valid: bool) {
    && Ordered(after)
    && PointUpdate(s0, after, d, Outcome(s0, d, valid))
    && (Canonical(s0) && (valid ==> Faithful(s0, d)) ==> Canonical(after))
  }

  /** The request is a point update exactly when it is faithful. */
  lemma PointUpdateIffFaithful(s0: seq<Slot>, after: seq<Slot>, d: Slot)
    requires d.npages > 0 && Updated(s0, after, d, true)
    ensures PointUpdate(s0, after, d, Some(d.Kind())) <==> Faithful(s0, d)
  {
    EffectiveIsRequested(s0, d);
    assert KindAt(after, d.base) == Some(EffectiveKind(s0, d));
    assert d.Covers(d.base);
  }

  ghost predicate IsPrimary(s0: seq<Slot>, d: Slot, p: nat) {
    && p < |s0| && d.base <= s0[p].End()
    && forall i :: 0 <= i < p ==> s0[i].End() < d.base
  }

  lemma EffectiveAt(s0: seq<Slot>, d: Slot, p: nat)
    requires IsPrimary(s0, d, p)
    ensures EffectiveKind(s0, d) ==
            if Swallows(d, s0[p]) && !Rescued(s0, d) then Swallowed(d, s0[p]).Kind() else d.Kind()
  {
    PrimaryIsFirst(s0, d, p);
  }

  /** The slot of the primary node alone decides what lies between the request's start and its own end. */
  lemma AtPrimary(s0: seq<Slot>, d: Slot, p: nat, g: nat)
    requires Ordered(s0) && p < |s0|
    requires forall i :: 0 <= i < p ==> s0[i].End() < d.base
    requires d.base <= g < s0[p].End()
    ensures KindAt(s0, g) == KindAt([s0[p]], g)
  {
    KindAt1(s0[p], g);
    if s0[p].Covers(g) {
      KindAtIndex(s0, p, g);
    } else {
      forall i | 0 <= i < |s0| ensures !s0[i].Covers(g) {
        assert i > p ==> s0[p].End() <= s0[i].base;
      }
      KindAtNone(s0, g);
    }
  }

  /** Rewriting s0[p..q] to `y`, with everything outside clear of the request. */
  lemma Rewrite(s0: seq<Slot>, y: seq<Slot>, d: Slot, p: nat, q: nat, lo: nat, hi: nat, k: Option<Kind>)
    requires Ordered(s0) && Ordered(y) && p <= q <= |s0|
    requires Within(y, lo, hi)
    requires forall i :: 0 <= i < p ==> s0[i].End() <= lo && s0[i].End() < d.base
    requires forall i :: q <= i < |s0| ==> hi <= s0[i].base && d.End() <= s0[i].base
    requires lo <= hi
    requires PointUpdate(s0[p..q], y, d, k)
    ensures Ordered(s0[..p] + y + s0[q..])
    ensures PointUpdate(s0, s0[..p] + y + s0[q..], d, k)
  {
    var l, x, r := s0[..p], s0[p..q], s0[q..];
    assert s0 == l + x + r;
    ReplaceMiddle(l, x, y, r, d, k);
    RewriteOrdered(s0, y, p, q, lo, hi);
  }

  lemma RewriteOrdered(s0: seq<Slot>, y: seq<Slot>, p: nat, q: nat, lo: nat, hi: nat)
    requires Ordered(s0) && Ordered(y) && p <= q <= |s0| && Within(y, lo, hi) && lo <= hi
    requires forall i :: 0 <= i < p ==> s0[i].End() <= lo
    requires forall i :: q <= i < |s0| ==> hi <= s0[i].base
    ensures Ordered(s0[..p] + y + s0[q..])
  {
    var l, r := s0[..p], s0[q..];
    OrderedSlice(s0, 0, p);
    OrderedSlice(s0, q, |s0|);
    OrderedJoin(l, y, lo);
    var front := l + y;
    assert forall i :: 0 <= i < |front| ==> front[i].End() <= hi;
    OrderedJoin(front, r, hi);
  }

  lemma RewriteCanonical(s0: seq<Slot>, y: seq<Slot>, d: Slot, p: nat, q: nat, k: Option<Kind>)
    requires Ordered(s0) && Canonical(s0) && d.npages > 0 && p <= q <= |s0|
    requires Ordered(s0[..p] + y + s0[q..]) && PointUpdate(s0, s0[..p] + y + s0[q..], d, k)
    requires forall i :: 0 <= i < p ==> s0[i].End() < d.base
    requires forall i :: q <= i < |s0| ==> d.End() <= s0[i].base
    requires forall i :: 0 <= i < |y| ==> Tidy(s0, y[i], d, k)
    ensures Canonical(s0[..p] + y + s0[q..])
  {
    CanonicalAfter(s0, s0[..p], y, s0[q..], d, k);
  }

  /** The gap a rewrite of s0[p..] may use on its left. */
  lemma LeftGap(s0: seq<Slot>, d: Slot, p: nat)
    requires Ordered(s0) && IsPrimary(s0, d, p)
    ensures forall i :: 0 <= i < p ==> s0[i].End() <= Min(d.base, s0[p].base)
  {
    forall i | 0 <= i < p ensures s0[i].End() <= Min(d.base, s0[p].base) {
      assert s0[i].End() <= s0[p].base;
    }
  }

  lemma Conclude(s0: seq<Slot>, y: seq<Slot>, d: Slot, valid: bool, p: nat, q: nat, hi: nat)
    requires Ordered(s0) && Ordered(y) && IsPrimary(s0, d, p) && p <= q <= |s0| && d.npages > 0
    requires Within(y, Min(d.base, s0[p].base), hi) && d.End() <= hi
    requires forall i :: q <= i < |s0| ==> hi <= s0[i].base
    requires PointUpdate(s0[p..q], y, d, Outcome(s0, d, valid))
    requires Canonical(s0) && (valid ==> Faithful(s0, d)) ==>
               forall i :: 0 <= i < |y| ==> Tidy(s0, y[i], d, Outcome(s0, d, valid))
    ensures Updated(s0, s0[..p] + y + s0[q..], d, valid)
  {
    LeftGap(s0, d, p);
    Rewrite(s0, y, d, p, q, Min(d.base, s0[p].base), hi, Outcome(s0, d, valid));
    if Canonical(s0) && (valid ==> Faithful(s0, d)) {
      RewriteCanonical(s0, y, d, p, q, Outcome(s0, d, valid));
    }
  }

  // ---- The request ends inside its primary node -------------------------------------------------

  lemma FinishAtStart(s0: seq<Slot>, d: Slot, valid: bool, p: nat, mid: seq<Slot>)
    requires Ordered(s0) && d.npages > 0 && IsPrimary(s0, d, p)
    requires StartDone(d, s0[p], valid, mid) && d.End() < s0[p].End()
    ensures Updated(s0, s0[..p] + mid + s0[p + 1..], d, valid)
  {
    assert s0[p..p + 1] == [s0[p]];
    EffectiveAt(s0, d, p);
    if Canonical(s0) {
      forall i | 0 <= i < |mid| ensures Tidy(s0, mid[i], d, Asked(d, valid)) {
        LiftTidyStart(s0, d, p, mid[i], Asked(d, valid));
      }
    }
    Conclude(s0, mid, d, valid, p, p + 1, s0[p].End());
  }

  lemma LiftTidyStart(s0: seq<Slot>, d: Slot, p: nat, f: Slot, k: Option<Kind>)
    requires Ordered(s0) && Canonical(s0) && p < |s0|
    requires forall i :: 0 <= i < p ==> s0[i].End() < d.base
    requires d.npages > 0 && TidyStart(s0[p], f, d, k)
    ensures Tidy(s0, f, d, k)
  {
    CanonicalIsMaximal(s0);
    assert Maximal(s0, s0[p]);
    if f.End() == d.End() < s0[p].End() {
      AtPrimary(s0, d, p, d.End());
    }
  }

  // ---- The request runs past its primary node ---------------------------------------------------

  /** The slots strictly between the primary node and `k` end within the request. */
  ghost predicate Inner(s0: seq<Slot>, d: Slot, p: nat, k: nat) {
    && p < k <= |s0|
    && s0[p].End() <= d.End()
    && forall j :: p < j < k ==> s0[j].End() <= d.End()
  }

  lemma BelowRequest(s0: seq<Slot>, d: Slot, p: nat, q: nat, g: nat)
    requires Ordered(s0) && p < q <= |s0| && d.base <= s0[p].End() && g < d.base
    ensures KindAt(s0[p..q], g) == KindAt([s0[p]], g)
  {
    var x := s0[p..q];
    assert x == [s0[p]] + x[1..];
    KindAtConcat([s0[p]], x[1..], g);
    forall i | 0 <= i < |x[1..]| ensures !x[1..][i].Covers(g) {
      assert s0[p].End() <= s0[p + 1 + i].base;
    }
    KindAtNone(x[1..], g);
  }

  lemma AboveRequest(s0: seq<Slot>, d: Slot, p: nat, k: nat, g: nat)
    requires Inner(s0, d, p, k) && d.End() <= g
    ensures KindAt(s0[p..k], g) == None
  {
    forall i | 0 <= i < k - p ensures !s0[p..k][i].Covers(g) {
      assert s0[p..k][i] == s0[p + i];
    }
    KindAtNone(s0[p..k], g);
  }

  lemma AboveRequestAtLast(s0: seq<Slot>, d: Slot, p: nat, k: nat, g: nat)
    requires Inner(s0, d, p, k) && k < |s0| && d.End() <= g
    ensures KindAt(s0[p..k + 1], g) == KindAt([s0[k]], g)
  {
    AboveRequest(s0, d, p, k, g);
    assert s0[p..k + 1] == s0[p..k] + [s0[k]];
    KindAtConcat(s0[p..k], [s0[k]], g);
  }

  /** No last node: the request ends before the next slot, or after all of them. */
  lemma PastEndMeaning(s0: seq<Slot>, d: Slot, valid: bool, p: nat, k: nat, insert: bool, mid: seq<Slot>)
    requires Ordered(s0) && d.npages > 0 && IsPrimary(s0, d, p)
    requires StartLeft(d, s0[p], valid, insert, mid) && Inner(s0, d, p, k)
    requires k < |s0| ==> d.End() < s0[k].base
    ensures PointUpdate(s0[p..k], if insert then mid + [d] else mid, d, Outcome(s0, d, valid))
  {
    var y := if insert then mid + [d] else mid;
    NotRescued(s0, d, p, k);
    EffectiveAt(s0, d, p);
    forall g: nat
      ensures KindAt(y, g) == if d.Covers(g) then Outcome(s0, d, valid) else KindAt(s0[p..k], g)
    {
      KindAt1(s0[p], g);
      KindAt1(d, g);
      KindAtConcat(mid, [d], g);
      if valid {
        assert mid == [mid[0]];
        KindAt1(mid[0], g);
      }
      if g < d.base {
        BelowRequest(s0, d, p, k, g);
      } else if d.End() <= g {
        AboveRequest(s0, d, p, k, g);
      }
    }
  }

  lemma NotRescued(s0: seq<Slot>, d: Slot, p: nat, k: nat)
    requires Ordered(s0) && IsPrimary(s0, d, p) && Inner(s0, d, p, k)
    requires k < |s0| ==> d.End() < s0[k].base
    ensures !Rescued(s0, d)
  {
    forall j | 0 <= j < |s0| ensures !(s0[j].base <= d.End() < s0[j].End()) {
      if j < p {
        assert s0[j].End() < d.base;
      } else if j > k {
        assert s0[k].End() <= s0[j].base;
      }
    }
  }

  lemma FinishPastEnd(s0: seq<Slot>, d: Slot, valid: bool, p: nat, k: nat, insert: bool, mid: seq<Slot>)
    requires Ordered(s0) && d.npages > 0 && IsPrimary(s0, d, p)
    requires StartLeft(d, s0[p], valid, insert, mid) && Inner(s0, d, p, k)
    requires k < |s0| ==> d.End() < s0[k].base
    ensures Updated(s0, s0[..p] + (if insert then mid + [d] else mid) + s0[k..], d, valid)
  {
    var y := if insert then mid + [d] else mid;
    PastEndMeaning(s0, d, valid, p, k, insert, mid);
    forall i | k <= i < |s0| ensures d.End() <= s0[i].base {
      assert i > k ==> s0[k].End() <= s0[i].base;
    }
    if insert {
      OrderedJoin(mid, [d], d.base);
    }
    if Canonical(s0) && (valid ==> Faithful(s0, d)) {
      PastEndTidy(s0, d, valid, p, k, insert, mid);
    }
    Conclude(s0, y, d, valid, p, k, d.End());
  }

  lemma PastEndTidy(s0: seq<Slot>, d: Slot, valid: bool, p: nat, k: nat, insert: bool, mid: seq<Slot>)
    requires Ordered(s0) && d.npages > 0 && IsPrimary(s0, d, p)
    requires StartLeft(d, s0[p], valid, insert, mid) && Inner(s0, d, p, k)
    requires k < |s0| ==> d.End() < s0[k].base
    requires Canonical(s0) && (valid ==> Faithful(s0, d))
    ensures var y := if insert then mid + [d] else mid;
            forall i :: 0 <= i < |y| ==> Tidy(s0, y[i], d, Outcome(s0, d, valid))
  {
    EffectiveIsRequested(s0, d);
    FreeAtEnd(s0, d, p, k);
    var y := if insert then mid + [d] else mid;
    forall i | 0 <= i < |y| ensures Tidy(s0, y[i], d, Outcome(s0, d, valid)) {
      if !valid {
        LiftTidyStart(s0, d, p, mid[i], None);
      }
    }
  }

  lemma FreeAtEnd(s0: seq<Slot>, d: Slot, p: nat, k: nat)
    requires Ordered(s0) && IsPrimary(s0, d, p) && Inner(s0, d, p, k)
    requires k < |s0| ==> d.End() < s0[k].base
    ensures KindAt(s0, d.End()) == None
  {
    forall j | 0 <= j < |s0| ensures !s0[j].Covers(d.End()) {
      if j < p {
        assert s0[j].End() < d.base;
      } else if j > k {
        assert s0[k].End() <= s0[j].base;
      }
    }
    KindAtNone(s0, d.End());
  }

  /** The request lies after every slot. */
  lemma FinishBeyond(s0: seq<Slot>, d: Slot, valid: bool)
    requires Ordered(s0) && d.npages > 0
    requires forall i :: 0 <= i < |s0| ==> s0[i].End() < d.base
    ensures Updated(s0, s0 + (if valid then [d] else []), d, valid)
  {
    var y := if valid then [d] else [];
    var n := |s0|;
    PrimaryIsFirst(s0, d, n);
    forall g: nat ensures KindAt(y, g) == if d.Covers(g) then Outcome(s0, d, valid) else KindAt(s0[n..n], g) {
      KindAt1(d, g);
    }
    Rewrite(s0, y, d, n, n, d.base, d.End(), Outcome(s0, d, valid));
    assert s0[..n] + y + s0[n..] == s0 + y;
    if Canonical(s0) {
      KindAtNone(s0, d.End());
      RewriteCanonical(s0, y, d, n, n, Outcome(s0, d, valid));
    }
  }

  // ---- The last node ------------------------------------------------------------------------------

  /** memslot_is_inner: a later slot the request covers, or one that ends with it and is followed
      by a touching slot of the request's type. */
  predicate IsInner(s0: seq<Slot>, k: nat, d: Slot)
    requires k < |s0|
  {
    || d.End() > s0[k].End()
    || (d.End() == s0[k].End() && k + 1 < |s0| && d.End() == s0[k + 1].base && SameType(d, s0[k + 1]))
  }

  ghost predicate IsLast(s0: seq<Slot>, d: Slot, p: nat, k: nat) {
    && Inner(s0, d, p, k) && k < |s0|
    && s0[k].base <= d.End() && !IsInner(s0, k, d)
  }

  lemma LastIsAfterStart(s0: seq<Slot>, d: Slot, p: nat, k: nat)
    requires Ordered(s0) && IsPrimary(s0, d, p) && IsLast(s0, d, p, k)
    ensures d.base <= s0[k].base <= d.End() <= s0[k].End()
    ensures forall i :: k < i < |s0| ==> s0[k].End() <= s0[i].base
  {
    assert s0[p].End() <= s0[k].base;
  }

  lemma EndKindIsEffective(s0: seq<Slot>, d: Slot, p: nat, k: nat, insert: bool, y: Slot)
    requires Ordered(s0) && IsPrimary(s0, d, p) && IsLast(s0, d, p, k) && d.npages > 0
    requires StartLeft(d, s0[p], true, insert, [y])
    ensures EndKind(d, y, s0[k], insert) == EffectiveKind(s0, d)
  {
    LastIsAfterStart(s0, d, p, k);
    EffectiveAt(s0, d, p);
    if Swallows(d, s0[p]) {
      if SameType(d, s0[k]) && d.End() < s0[k].End() {
        assert Rescued(s0, d);
      } else {
        forall j | 0 <= j < |s0| ensures !(SameType(d, s0[j]) && s0[j].base <= d.End() < s0[j].End()) {
          if j < p {
            assert s0[j].End() < d.base;
          } else if j > k + 1 {
            assert s0[k].End() <= s0[k + 1].base && s0[k + 1].npages > 0 && s0[k + 1].End() <= s0[j].base;
          } else if j == k + 1 {
            assert s0[k].End() <= s0[j].base;
          }
        }
        assert !Rescued(s0, d);
      }
    }
  }

  lemma EndMeaning(s0: seq<Slot>, d: Slot, p: nat, k: nat, insert: bool, y: Slot, fin: seq<Slot>)
    requires Ordered(s0) && d.npages > 0 && IsPrimary(s0, d, p) && IsLast(s0, d, p, k)
    requires StartLeft(d, s0[p], true, insert, [y]) && EndOk(d, y, s0[k], insert, fin)
    ensures PointUpdate(s0[p..k + 1], fin, d, Some(EffectiveKind(s0, d)))
  {
    EndKindIsEffective(s0, d, p, k, insert, y);
    forall g: nat
      ensures KindAt(fin, g) == if d.Covers(g) then Some(EffectiveKind(s0, d)) else KindAt(s0[p..k + 1], g)
    {
      KindAt1(s0[p], g);
      KindAt1(y, g);
      if g < d.base {
        BelowRequest(s0, d, p, k + 1, g);
      } else if d.End() <= g {
        AboveRequestAtLast(s0, d, p, k, g);
      }
    }
  }

  lemma FinishAtEnd(s0: seq<Slot>, d: Slot, p: nat, k: nat, insert: bool, y: Slot, fin: seq<Slot>)
    requires Ordered(s0) && d.npages > 0 && IsPrimary(s0, d, p) && IsLast(s0, d, p, k)
    requires StartLeft(d, s0[p], true, insert, [y]) && EndOk(d, y, s0[k], insert, fin)
    ensures Updated(s0, s0[..p] + fin + s0[k + 1..], d, true)
  {
    EndMeaning(s0, d, p, k, insert, y, fin);
    LastIsAfterStart(s0, d, p, k);
    if Canonical(s0) && Faithful(s0, d) {
      forall i | 0 <= i < |fin| ensures Tidy(s0, fin[i], d, Some(EffectiveKind(s0, d))) {
        LiftTidyEnd(s0, d, p, k, insert, y, fin[i]);
      }
    }
    assert y.base == [y][0].base;
    Conclude(s0, fin, d, true, p, k + 1, s0[k].End());
  }

  lemma LiftTidyEnd(s0: seq<Slot>, d: Slot, p: nat, k: nat, insert: bool, y: Slot, f: Slot)
    requires Ordered(s0) && Canonical(s0) && Faithful(s0, d)
    requires d.npages > 0 && IsPrimary(s0, d, p) && IsLast(s0, d, p, k)
    requires StartLeft(d, s0[p], true, insert, [y]) && TidyEnd(y, s0[k], f, d, insert)
    ensures Tidy(s0, f, d, Some(EffectiveKind(s0, d)))
  {
    EffectiveIsRequested(s0, d);
    EndKindIsEffective(s0, d, p, k, insert, y);
    LastIsAfterStart(s0, d, p, k);
    CanonicalIsMaximal(s0);
    assert Maximal(s0, s0[k]);
    KindAtEnd(s0, k);
    if d.End() < s0[k].End() {
      KindAtIndex(s0, k, d.End());
    }
  }

  lemma EndInvalidMeaning(s0: seq<Slot>, d: Slot, p: nat, k: nat, mid: seq<Slot>)
    requires Ordered(s0) && d.npages > 0 && IsPrimary(s0, d, p) && IsLast(s0, d, p, k)
    requires StartLeft(d, s0[p], false, false, mid)
    requires d.base <= s0[k].base <= d.End() <= s0[k].End()
    ensures PointUpdate(s0[p..k + 1], mid + EndInvalid(d, s0[k]), d, None)
  {
    var t := EndInvalid(d, s0[k]);
    EndInvalidOk(d, s0[k]);
    forall g: nat ensures KindAt(mid + t, g) == if d.Covers(g) then None else KindAt(s0[p..k + 1], g) {
      KindAt1(s0[p], g);
      KindAt1(s0[k], g);
      KindAtConcat(mid, t, g);
      if g < d.base {
        BelowRequest(s0, d, p, k + 1, g);
      } else if d.End() <= g {
        AboveRequestAtLast(s0, d, p, k, g);
      }
    }
  }

  lemma EndInvalidTidy(s0: seq<Slot>, d: Slot, p: nat, k: nat, mid: seq<Slot>)
    requires Ordered(s0) && Canonical(s0) && d.npages > 0 && IsPrimary(s0, d, p) && IsLast(s0, d, p, k)
    requires StartLeft(d, s0[p], false, false, mid)
    requires d.base <= s0[k].base <= d.End() <= s0[k].End()
    ensures var y := mid + EndInvalid(d, s0[k]);
            forall i :: 0 <= i < |y| ==> Tidy(s0, y[i], d, None)
  {
    var y := mid + EndInvalid(d, s0[k]);
    CanonicalIsMaximal(s0);
    assert Maximal(s0, s0[k]);
    forall i | 0 <= i < |y| ensures Tidy(s0, y[i], d, None) {
      if i < |mid| {
        LiftTidyStart(s0, d, p, mid[i], None);
      }
    }
  }

  lemma FinishAtEndInvalid(s0: seq<Slot>, d: Slot, p: nat, k: nat, mid: seq<Slot>)
    requires Ordered(s0) && d.npages > 0 && IsPrimary(s0, d, p) && IsLast(s0, d, p, k)
    requires StartLeft(d, s0[p], false, false, mid)
    requires s0[k].base <= d.End() <= s0[k].End()
    ensures Updated(s0, s0[..p] + (mid + EndInvalid(d, s0[k])) + s0[k + 1..], d, false)
  {
    LastIsAfterStart(s0, d, p, k);
    EndInvalidMeaning(s0, d, p, k, mid);
    if Canonical(s0) {
      EndInvalidTidy(s0, d, p, k, mid);
    }
    OrderedJoin(mid, EndInvalid(d, s0[k]), d.base);
    Conclude(s0, mid + EndInvalid(d, s0[k]), d, false, p, k + 1, s0[k].End());
  }

  // ---- How much memory a request takes ----------------------------------------------------------

  /** How many slots the handler of the primary node allocates. */
  function StartNeeds(d: Slot, s: Slot, valid: bool): nat {
    if !valid then (if s.base < d.base && d.End() < s.End() then 1 else 0)
    else if SameType(d, s) then (if d.End() < s.base then 1 else 0)
    else if Splits(d, s) then 2
    else if d.base <= s.base && d.End() < s.End() then 1
    else 0
  }

  /** The handler of the last node: one, where a request that is still to come is put before what is left of it. */
  function LastNeeds(d: Slot, e: Slot, insert: bool): nat {
    if insert && !SameType(d, e) && d.End() < e.End() then 1 else 0
  }

  /** A slot that the request overlaps is copied to the snapshot. */
  function CopyNeeds(overlaps: bool): nat {
    if overlaps then 1 else 0
  }

  /** The slots from `k` on: a copy of each that the request overlaps, and the request where it is still to come. */
  function LaterNeeds(s0: seq<Slot>, d: Slot, k: nat, insert: bool): nat
    requires k <= |s0|
    decreases |s0| - k
  {
    if k == |s0| || d.End() < s0[k].base then CopyNeeds(insert)
    else CopyNeeds(s0[k].base < d.End()) + if IsInner(s0, k, d) then LaterNeeds(s0, d, k + 1, insert) else LastNeeds(d, s0[k], insert)
  }

  /** All allocations of a request; a caller can count them before asking. */
  function Needs(s0: seq<Slot>, d: Slot, valid: bool): nat {
    var p := Primary(s0, d);
    if p == |s0| then CopyNeeds(valid)
    else
      CopyNeeds(d.base < s0[p].End()) + StartNeeds(d, s0[p], valid)
      + if s0[p].End() <= d.End() then LaterNeeds(s0, d, p + 1, StartInsert(d, s0[p], valid)) else 0
  }

  /** At most one copy of every slot and two new ones. */
  lemma NeedsBound(s0: seq<Slot>, d: Slot, valid: bool)
    ensures Needs(s0, d, valid) <= |s0| + 2
  {
    var p := Primary(s0, d);
    if p < |s0| && s0[p].End() <= d.End() {
      LaterBound(s0, d, p + 1, StartInsert(d, s0[p], valid));
    }
  }

  lemma {:induction false} LaterBound(s0: seq<Slot>, d: Slot, k: nat, insert: bool)
    requires k <= |s0|
    ensures LaterNeeds(s0, d, k, insert) <= |s0| - k + 1
    decreases |s0| - k
  {
    if k < |s0| && s0[k].base <= d.End() && IsInner(s0, k, d) {
      LaterBound(s0, d, k + 1, insert);
    }
  }

  /** What is to be allocated is: the request has its memory exactly if there is enough, and takes no more. */
  predicate Spent(ok: bool, before: nat, needs: nat, after: nat) {
    ok == (before >= needs) && (ok ==> after == before - needs)
  }

  // ---- A request that is given up half way ------------------------------------------------------

  /** Case (9) of the figure: the request lies strictly inside a primary node of another type, which takes two
      insertions. */
  predicate Splits(d: Slot, s: Slot) {
    !SameType(d, s) && s.base < d.base && d.End() < s.End()
  }

  /** The primary node is stretched over the whole request before the slots it will cover are gone. */
  predicate Stretches(s0: seq<Slot>, d: Slot, p: nat)
    requires p < |s0|
  {
    && s0[p].End() <= d.End() && (SameType(d, s0[p]) || d.base <= s0[p].base)
    && p + 1 < |s0| && s0[p + 1].base < d.End()
  }

  /** The requests that may leave overlapping slots when memory runs out; a caller can tell before asking. */
  predicate Fragile(s0: seq<Slot>, d: Slot, valid: bool) {
    var p := Primary(s0, d);
    valid && p < |s0| && (Splits(d, s0[p]) || Stretches(s0, d, p))
  }

  /** Nothing outside the request translates differently. */
  ghost predicate Elsewhere(s0: seq<Slot>, now: seq<Slot>, d: Slot) {
    forall g: nat :: !d.Covers(g) ==> KindAt(now, g) == KindAt(s0, g)
  }

  /** What a request that runs out of memory leaves. */
  ghost predicate Abandoned(s0: seq<Slot>, now: seq<Slot>, d: Slot, valid: bool) {
    (Ordered(now) || Fragile(s0, d, valid)) && Elsewhere(s0, now, d)
  }

  lemma ElsewhereMiddle(l: seq<Slot>, x: seq<Slot>, y: seq<Slot>, r: seq<Slot>, d: Slot)
    requires Elsewhere(x, y, d)
    ensures Elsewhere(l + x + r, l + y + r, d)
  {
    forall g: nat | !d.Covers(g) ensures KindAt(l + y + r, g) == KindAt(l + x + r, g) {
      KindAtConcat(l + x, r, g);
      KindAtConcat(l, x, g);
      KindAtConcat(l + y, r, g);
      KindAtConcat(l, y, g);
    }
  }

  /** Not while the request is under way, whether or not the list is in order. */
  lemma UnderwayElsewhere(s0: seq<Slot>, d: Slot, valid: bool, p: nat, k: nat, insert: bool, mid: seq<Slot>)
    requires Ordered(s0) && IsPrimary(s0, d, p) && Inner(s0, d, p, k) && StartLeft(d, s0[p], valid, insert, mid)
    ensures Elsewhere(s0, s0[..p] + mid + s0[k..], d)
  {
    forall g: nat | !d.Covers(g) ensures KindAt(mid, g) == KindAt(s0[p..k], g) {
      KindAt1(s0[p], g);
      if mid != [] {
        assert mid == [mid[0]];
        KindAt1(mid[0], g);
        SameTypeIsSameKind(d, s0[p]);
      }
      if g < d.base {
        BelowRequest(s0, d, p, k, g);
      } else {
        AboveRequest(s0, d, p, k, g);
      }
    }
    ElsewhereMiddle(s0[..p], s0[p..k], mid, s0[k..], d);
    assert s0 == s0[..p] + s0[p..k] + s0[k..];
  }

  /** Nor when the last node has been cut but the request could not be put before it. */
  lemma TrimmedElsewhere(s0: seq<Slot>, d: Slot, p: nat, k: nat, y: Slot, f: Slot)
    requires Ordered(s0) && IsPrimary(s0, d, p) && IsLast(s0, d, p, k) && StartLeft(d, s0[p], true, true, [y])
    requires d.npages > 0 && f.Kind() == s0[k].Kind() && f.base == d.End() && f.End() == s0[k].End()
    ensures Elsewhere(s0, s0[..p] + [y, f] + s0[k + 1..], d)
  {
    LastIsAfterStart(s0, d, p, k);
    forall g: nat | !d.Covers(g) ensures KindAt([y, f], g) == KindAt(s0[p..k + 1], g) {
      assert [y, f] == [y] + [f];
      KindAtConcat([y], [f], g);
      KindAt1(y, g);
      KindAt1(f, g);
      if g < d.base {
        BelowRequest(s0, d, p, k + 1, g);
        KindAt1(s0[p], g);
      } else {
        AboveRequestAtLast(s0, d, p, k, g);
        KindAt1(s0[k], g);
      }
    }
    ElsewhereMiddle(s0[..p], s0[p..k + 1], [y, f], s0[k + 1..], d);
    assert s0 == s0[..p] + s0[p..k + 1] + s0[k + 1..];
  }

  /** Nor after the first of the two insertions of case (9). */
  lemma SplitElsewhere(s0: seq<Slot>, d: Slot, p: nat)
    requires p < |s0|
    ensures Elsewhere(s0, s0[..p + 1] + [d] + s0[p + 1..], d)
  {
    forall g: nat | !d.Covers(g) ensures KindAt([d], g) == KindAt([], g) {
      KindAt1(d, g);
    }
    ElsewhereMiddle(s0[..p + 1], [], [d], s0[p + 1..], d);
    assert s0 == s0[..p + 1] + [] + s0[p + 1..];
  }

  /** The request goes on to a slot after the primary node, of which a copy has to be taken. */
  predicate Halts(s0: seq<Slot>, d: Slot, p: nat)
    requires p < |s0|
  {
    s0[p].End() <= d.End() && p + 1 < |s0| && s0[p + 1].base < d.End()
  }

  /** The requests that need an allocation after the list has been edited for the first time. */
  predicate Cut(s0: seq<Slot>, d: Slot, valid: bool) {
    var p := Primary(s0, d);
    p < |s0| && ((valid && Splits(d, s0[p])) || Halts(s0, d, p))
  }

  /** How many allocations there are before that one. */
  function CutAfter(s0: seq<Slot>, d: Slot): nat {
    var p := Primary(s0, d);
    if p == |s0| then 0 else if d.End() < s0[p].End() then 2 else if d.base < s0[p].End() then 1 else 0
  }

  /** What such a request leaves when that one fails. */
  function HalfDone(s0: seq<Slot>, d: Slot, valid: bool): seq<Slot>
    requires Cut(s0, d, valid)
  {
    var p := Primary(s0, d);
    if d.End() < s0[p].End() then s0[..p + 1] + [d] + s0[p + 1..]
    else s0[..p] + StartMid(d, s0[p], valid) + s0[p + 1..]
  }

  /** It has overlapping slots exactly for the fragile requests, whatever the list. */
  lemma FragileIff(s0: seq<Slot>, d: Slot, valid: bool)
    requires Ordered(s0) && d.npages > 0 && Cut(s0, d, valid)
    ensures !Ordered(HalfDone(s0, d, valid)) <==> Fragile(s0, d, valid)
  {
    var p, l := Primary(s0, d), HalfDone(s0, d, valid);
    var mid, insert := StartMid(d, s0[p], valid), StartInsert(d, s0[p], valid);
    if d.End() < s0[p].End() {
      assert l[p] == s0[p] && l[p + 1] == d;
    } else {
      StartMidOk(d, s0[p], valid);
      assert StartLeft(d, s0[p], valid, insert, mid);
      if valid && !insert {
        assert l[p] == mid[0] && l[p + 1] == s0[p + 1];
      } else {
        RewriteOrdered(s0, mid, p, p + 1, s0[p].base, s0[p].End());
      }
    }
  }
}
