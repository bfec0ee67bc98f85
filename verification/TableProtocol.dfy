/**
 Any number of threads asking for the same missing EPT table at once. One of them claims the entry with
 a sentinel, makes the table, fills the cache of tables used often, and publishes it; the others wait.
 Each load, store and compare-and-exchange of the entry is one step.
 */
module TableProtocol {
  import opened Memslots

  /** The non-leaf entry: zero, the sentinel INVALID_EPTE, or pointing to a table. */
  datatype Epte = Zero | Sentinel | Present(pfn: nat)

  datatype Pc =
    | Start
    | Claimed
    | Allocated(page: nat)
    | Filled(page: nat)
    | Spinning
    | Left
    | Ready
    | Done(result: Result)

  /** What a thread comes away with: a table; nothing, because a table could not be made; or something that is no
      table, because there was none when it looked. */
  datatype Result = Table(pfn: nat) | Refused | Stray

  /** `slot` says that the table has a place in the cache of tables used often; `pages` are the frames
      allocated for it so far. */
  datatype State = State(entry: Epte, slot: bool, cache: Option<nat>, pages: seq<nat>, threads: map<nat, Pc>)

  ghost predicate Init(s: State) {
    s.entry == Zero && s.cache == None && s.pages == [] && forall t :: t in s.threads ==> s.threads[t] == Start
  }

  datatype Action = Claim | Allocate(page: nat) | Fail | FillCache | Publish | Spin | Check | Use

  /** One step of thread t. */
  ghost predicate Next(s: State, s': State, t: nat, a: Action) {
    && t in s.threads
    && (match a
        case Claim =>
          && s.threads[t] == Start
          && s' == if s.entry == Zero then s.(entry := Sentinel, threads := s.threads[t := Claimed])
                   else s.(threads := s.threads[t := Spinning])
        case Allocate(page) =>
          && s.threads[t] == Claimed && page !in s.pages
          && s' == s.(pages := s.pages + [page], threads := s.threads[t := Allocated(page)])
        case Fail =>
          && s.threads[t] == Claimed
          && s' == s.(entry := Zero, threads := s.threads[t := Done(Refused)])
        case FillCache =>
          && s.threads[t].Allocated?
          && s' == s.(cache := if s.slot then Some(s.threads[t].page) else s.cache,
                      threads := s.threads[t := Filled(s.threads[t].page)])
        case Publish =>
          && s.threads[t].Filled?
          && s' == s.(entry := Present(s.threads[t].page), threads := s.threads[t := Done(Table(s.threads[t].page))])
        case Spin =>
          && s.threads[t] == Spinning
          && s' == if s.entry == Sentinel then s else s.(threads := s.threads[t := Left])
        case Check =>
          && s.threads[t] == Left
          && s' == s.(threads := s.threads[t := if s.entry == Zero then Done(Refused) else Ready])
        case Use =>
          && s.threads[t] == Ready
          && s' == s.(threads := s.threads[t := Done(Usable(s))]))
  }

  /** What a waiting thread takes for the table: the cached address, or the frame the entry points to; the sentinel
      and zero point to none. */
  function Usable(s: State): Result {
    if s.slot then (if s.cache.Some? then Table(s.cache.value) else Stray)
    else if s.entry.Present? then Table(s.entry.pfn) else Stray
  }

  predicate Owner(pc: Pc) {
    pc.Claimed? || pc.Allocated? || pc.Filled?
  }

  // ---- Every run, whether or not allocations fail ------------------------------------------------

  /** Where a thread can be: an owner holds the sentinel, and any table somebody came away with is the one page. */
  ghost predicate Fits(s: State, pc: Pc) {
    match pc
    case Claimed => s.entry == Sentinel && s.pages == []
    case Allocated(page) => s.entry == Sentinel && s.pages == [page]
    case Filled(page) => s.entry == Sentinel && s.pages == [page] && (s.slot ==> s.cache == Some(page))
    case Done(result) => result.Table? ==> s.pages == [result.pfn]
    case _ => true
  }

  ghost predicate Inv(s: State) {
    && (forall t :: t in s.threads ==> Fits(s, s.threads[t]))
    && (forall t, u :: t in s.threads && u in s.threads && Owner(s.threads[t]) && Owner(s.threads[u]) ==> t == u)
    && (s.entry == Sentinel ==> exists t :: t in s.threads && Owner(s.threads[t]))
    && (s.entry == Zero ==> s.pages == [])
    && (s.entry.Present? ==> s.pages == [s.entry.pfn] && (s.slot ==> s.cache == Some(s.entry.pfn)))
    && (s.cache.Some? ==> s.pages == [s.cache.value])
  }

  /** An entry goes from zero to the sentinel, from there to a table or, when it cannot be made, back; a table stays. */
  predicate Onward(e: Epte, e': Epte, a: Action) {
    || e' == e
    || (e == Zero && e' == Sentinel)
    || (e == Sentinel && e'.Present?)
    || (e == Sentinel && e' == Zero && a == Fail)
  }

  lemma NextKeeps(s: State, s': State, t: nat, a: Action)
    requires Inv(s) && Next(s, s', t, a)
    ensures Inv(s') && Onward(s.entry, s'.entry, a) && s'.slot == s.slot
    ensures s'.pages == s.pages || (s.pages == [] && |s'.pages| == 1)
  {
    assert Fits(s, s.threads[t]);
    forall u | u in s'.threads ensures Fits(s', s'.threads[u]) {
      if u != t {
        assert Fits(s, s.threads[u]);
      }
    }
    if s'.entry == Sentinel {
      var o := SentinelOwner(s, s', t, a);
    }
  }

  lemma SentinelOwner(s: State, s': State, t: nat, a: Action) returns (o: nat)
    requires Inv(s) && Next(s, s', t, a) && s'.entry == Sentinel
    ensures o in s'.threads && Owner(s'.threads[o])
  {
    if s.entry == Sentinel {
      o :| o in s.threads && Owner(s.threads[o]);
    } else {
      o := t;
    }
  }

  ghost predicate Run(ss: seq<State>, ts: seq<nat>, acts: seq<Action>) {
    && |ss| == |ts| + 1 && |acts| == |ts| && Init(ss[0])
    && forall i :: 0 <= i < |ts| ==> Next(ss[i], ss[i + 1], ts[i], acts[i])
  }

  /** In every state of every run at most one page has been allocated, the cache and the entry hold no other, and
      whoever has come away with a table has that one. */
  lemma {:induction false} RunKeeps(ss: seq<State>, ts: seq<nat>, acts: seq<Action>, n: nat)
    requires Run(ss, ts, acts) && n < |ss|
    ensures Inv(ss[n])
  {
    if n > 0 {
      RunKeeps(ss, ts, acts, n - 1);
      NextKeeps(ss[n - 1], ss[n], ts[n - 1], acts[n - 1]);
    }
  }

  /** A table is the same for all. */
  lemma OneTable(s: State, t: nat, u: nat)
    requires Inv(s) && t in s.threads && u in s.threads && s.threads[t].Done? && s.threads[u].Done?
    requires s.threads[t].result.Table? && s.threads[u].result.Table?
    ensures s.threads[t] == s.threads[u] && s.pages == [s.threads[t].result.pfn]
    ensures s.entry.Present? ==> s.entry.pfn == s.threads[t].result.pfn
  {
    assert Fits(s, s.threads[t]) && Fits(s, s.threads[u]);
  }

  /** Once published, the entry never changes again. */
  lemma {:induction false} Settled(ss: seq<State>, ts: seq<nat>, acts: seq<Action>, i: nat, j: nat)
    requires Run(ss, ts, acts) && i <= j < |ss| && ss[i].entry.Present?
    ensures ss[j].entry == ss[i].entry
  {
    if i < j {
      Settled(ss, ts, acts, i, j - 1);
      RunKeeps(ss, ts, acts, j - 1);
      NextKeeps(ss[j - 1], ss[j], ts[j - 1], acts[j - 1]);
    }
  }

  /** A waiting thread that goes on comes away with the one table or, exactly if the entry is not published and the
      cache not filled at that moment, with something that is none. */
  lemma UseExact(s: State, s': State, t: nat)
    requires Inv(s) && Next(s, s', t, Use)
    ensures s'.threads[t].Done? && !s'.threads[t].result.Refused?
    ensures s'.threads[t].result == Stray <==> !(s.entry.Present? || (s.slot && s.cache.Some?))
    ensures s'.threads[t].result.Table? ==> s.pages == [s'.threads[t].result.pfn]
  {
  }

  // ---- Runs without a failed allocation ----------------------------------------------------------

  /** Where no allocation has failed, nobody goes on before the table is published. */
  ghost predicate Calm(s: State, pc: Pc) {
    match pc
    case Spinning => s.entry != Zero
    case Left => s.entry.Present?
    case Ready => s.entry.Present?
    case Done(result) => s.entry.Present? && result == Table(s.entry.pfn)
    case _ => true
  }

  ghost predicate AllCalm(s: State) {
    forall t :: t in s.threads ==> Calm(s, s.threads[t])
  }

  lemma NextCalm(s: State, s': State, t: nat, a: Action)
    requires Inv(s) && AllCalm(s) && Next(s, s', t, a) && a != Fail
    ensures AllCalm(s')
  {
    assert Calm(s, s.threads[t]) && Fits(s, s.threads[t]);
    forall u | u in s'.threads ensures Calm(s', s'.threads[u]) {
      if u != t {
        assert Calm(s, s.threads[u]);
      }
    }
  }

  lemma {:induction false} RunCalm(ss: seq<State>, ts: seq<nat>, acts: seq<Action>, n: nat)
    requires Run(ss, ts, acts) && n < |ss| && Fail !in acts[..n]
    ensures AllCalm(ss[n])
  {
    if n > 0 {
      var k := n - 1;
      assert acts[..n] == acts[..k] + [acts[k]];
      RunCalm(ss, ts, acts, k);
      RunKeeps(ss, ts, acts, k);
      NextCalm(ss[k], ss[n], ts[k], acts[k]);
    }
  }

  /** Unless an allocation has failed before, whoever is done has the published table. */
  lemma DoneHasTable(ss: seq<State>, ts: seq<nat>, acts: seq<Action>, n: nat, t: nat)
    requires Run(ss, ts, acts) && n < |ss| && t in ss[n].threads && ss[n].threads[t].Done?
    ensures Fail in acts[..n] || (ss[n].entry.Present? && ss[n].threads[t].result == Table(ss[n].entry.pfn))
  {
    if Fail !in acts[..n] {
      RunCalm(ss, ts, acts, n);
      assert Calm(ss[n], ss[n].threads[t]);
    }
  }

  // ---- Progress ----------------------------------------------------------------------------------

  /** How many steps a thread has to make once the table is published. */
  function StepsLeft(pc: Pc): nat {
    match pc
    case Done(_) => 0
    case Ready => 1
    case Left => 2
    case Spinning => 3
    case _ => 4
  }

  /** Once the table is published every thread can go on, */
  lemma CanGoOn(s: State, t: nat) returns (s': State, a: Action)
    requires Inv(s) && s.entry.Present? && t in s.threads && !s.threads[t].Done?
    ensures Next(s, s', t, a)
  {
    assert Fits(s, s.threads[t]);
    match s.threads[t]
    case Start => a, s' := Claim, s.(threads := s.threads[t := Spinning]);
    case Spinning => a, s' := Spin, s.(threads := s.threads[t := Left]);
    case Left => a, s' := Check, s.(threads := s.threads[t := Ready]);
    case Ready => a, s' := Use, s.(threads := s.threads[t := Done(Usable(s))]);
  }

  /** and each of its steps takes it nearer to its end, where it has the table. */
  lemma GoesOn(s: State, s': State, t: nat, a: Action)
    requires Inv(s) && s.entry.Present? && Next(s, s', t, a)
    ensures StepsLeft(s'.threads[t]) < StepsLeft(s.threads[t])
    ensures s'.threads[t].Done? ==> s'.threads[t].result == Table(s.entry.pfn)
  {
    assert Fits(s, s.threads[t]);
  }

  // ---- Runs with one -----------------------------------------------------------------------------

  lemma OneMore(ss: seq<State>, ts: seq<nat>, acts: seq<Action>, s: State, s': State, t: nat, a: Action)
    requires Run(ss, ts, acts) && ss[|ss| - 1] == s && Next(s, s', t, a)
    ensures Run(ss + [s'], ts + [t], acts + [a])
  {
    var ss', ts', acts' := ss + [s'], ts + [t], acts + [a];
    forall i | 0 <= i < |ts'| ensures Next(ss'[i], ss'[i + 1], ts'[i], acts'[i]) {
      if i < |ts| {
        assert Next(ss[i], ss[i + 1], ts[i], acts[i]);
      }
    }
  }

  /** And one failure is enough: a waiting thread leaves its loop, finds the entry claimed again by a third thread,
      and comes away with something that is no table, whether or not the table has a place in the cache. */
  lemma FailureBreaks(slot: bool) returns (ss: seq<State>, ts: seq<nat>, acts: seq<Action>)
    ensures Run(ss, ts, acts) && acts == [Claim, Claim, Fail, Spin, Claim, Check, Use]
    ensures var s := ss[|ss| - 1]; s.slot == slot && s.pages == [] && 2 in s.threads && s.threads[2] == Done(Stray)
  {
    var s0 := State(Zero, slot, None, [], map[1 := Start, 2 := Start, 3 := Start]);
    var s1 := s0.(entry := Sentinel, threads := s0.threads[1 := Claimed]);
    var s2 := s1.(threads := s1.threads[2 := Spinning]);
    var s3 := s2.(entry := Zero, threads := s2.threads[1 := Done(Refused)]);
    OneMore([s0], [], [], s0, s1, 1, Claim);
    OneMore([s0] + [s1], [] + [1], [] + [Claim], s1, s2, 2, Claim);
    OneMore([s0] + [s1] + [s2], [] + [1] + [2], [] + [Claim] + [Claim], s2, s3, 1, Fail);
    ss, ts, acts := [s0] + [s1] + [s2] + [s3], [] + [1] + [2] + [1], [] + [Claim] + [Claim] + [Fail];
    ss, ts, acts := StrayAfter(ss, ts, acts, s3);
  }

  lemma StrayAfter(ss: seq<State>, ts: seq<nat>, acts: seq<Action>, s3: State)
    returns (ss': seq<State>, ts': seq<nat>, acts': seq<Action>)
    requires Run(ss, ts, acts) && ss[|ss| - 1] == s3 && s3.entry == Zero && s3.cache == None
    requires 2 in s3.threads && 3 in s3.threads && s3.threads[2] == Spinning && s3.threads[3] == Start
    ensures Run(ss', ts', acts') && acts' == acts + [Spin, Claim, Check, Use]
    ensures var s := ss'[|ss'| - 1]; s.slot == s3.slot && s.pages == s3.pages && 2 in s.threads && s.threads[2] == Done(Stray)
  {
    var s4 := s3.(threads := s3.threads[2 := Left]);
    var s5 := s4.(entry := Sentinel, threads := s4.threads[3 := Claimed]);
    var s6 := s5.(threads := s5.threads[2 := Ready]);
    var s7 := s6.(threads := s6.threads[2 := Done(Stray)]);
    OneMore(ss, ts, acts, s3, s4, 2, Spin);
    OneMore(ss + [s4], ts + [2], acts + [Spin], s4, s5, 3, Claim);
    OneMore(ss + [s4] + [s5], ts + [2] + [3], acts + [Spin] + [Claim], s5, s6, 2, Check);
    OneMore(ss + [s4] + [s5] + [s6], ts + [2] + [3] + [2], acts + [Spin] + [Claim] + [Check], s6, s7, 2, Use);
    ss', ts', acts' := ss + [s4] + [s5] + [s6] + [s7], ts + [2] + [3] + [2] + [2], acts + [Spin] + [Claim] + [Check] + [Use];
    assert acts' == acts + [Spin, Claim, Check, Use];
  }
}
