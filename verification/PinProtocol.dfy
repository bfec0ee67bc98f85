/**
 Any number of threads asking for the same chunk of a RAM block at once, with pinning failing however it
 likes. A bit says that some thread is pinning the chunk or has pinned it; each test-and-set, load and
 store is one step.
 */
module PinProtocol {
  import opened Memslots
  import opened Surgery
  import opened Ramblocks
  import opened Windows

  datatype Pc =
    | Start
    | Pinning
    | Pinned(chunk: Chunk)
    | Unpinned
    | Waiting
    | Testing
    | Reading
    | Done(result: Option<Chunk>)

  /** What the threads share: the chunk's bit, its place in the array, and the chunks published so far. */
  datatype State = State(bit: bool, chunk: Option<Chunk>, published: seq<Chunk>, threads: map<nat, Pc>)

  ghost predicate Init(s: State) {
    !s.bit && s.chunk == None && s.published == [] && forall t :: t in s.threads ==> s.threads[t] == Start
  }

  datatype Action = Take | Pin(c: Chunk) | Fail | Clear | Publish | Look | Test | Read

  /** One step of thread t asking for the chunk with that index. */
  ghost predicate Next(block: Block, index: nat, s: State, s': State, t: nat, a: Action) {
    && t in s.threads
    && (match a
        case Take =>
          && s.threads[t] == Start
          && s' == s.(bit := true, threads := s.threads[t := if s.bit then Waiting else Pinning])
        case Pin(c) =>
          && s.threads[t] == Pinning
          && c.baseUva == block.baseUva + index * CHUNK_SIZE && c.size == ChunkSize(block.size, index)
          && s' == s.(threads := s.threads[t := Pinned(c)])
        case Fail =>
          && s.threads[t] == Pinning
          && s' == s.(threads := s.threads[t := Unpinned])
        case Clear =>
          && s.threads[t] == Unpinned
          && s' == s.(bit := false, threads := s.threads[t := Done(None)])
        case Publish =>
          && s.threads[t].Pinned?
          && s' == s.(chunk := Some(s.threads[t].chunk), published := s.published + [s.threads[t].chunk],
                      threads := s.threads[t := Reading])
        case Look =>
          && s.threads[t] == Waiting
          && s' == s.(threads := s.threads[t := if s.chunk.Some? then Reading else Testing])
        case Test =>
          && s.threads[t] == Testing
          && s' == s.(threads := s.threads[t := if s.bit then Waiting else Done(None)])
        case Read =>
          && s.threads[t] == Reading
          && s' == s.(threads := s.threads[t := Done(s.chunk)]))
  }

  predicate Owner(pc: Pc) {
    pc.Pinning? || pc.Pinned? || pc.Unpinned?
  }

  /** The chunk covers its part of the block: from index * 2 MB to the next boundary or the end. */
  ghost predicate Covers(block: Block, index: nat, c: Chunk) {
    && c.baseUva == block.baseUva + index * CHUNK_SIZE
    && c.baseUva + c.size == block.baseUva + Min((index + 1) * CHUNK_SIZE, block.size)
  }

  ghost predicate Fits(block: Block, index: nat, s: State, pc: Pc) {
    match pc
    case Pinning => s.bit && s.chunk == None
    case Pinned(c) => s.bit && s.chunk == None && Covers(block, index, c)
    case Unpinned => s.bit && s.chunk == None
    case Reading => s.chunk.Some?
    case Done(result) => result.Some? ==> result == s.chunk
    case _ => true
  }

  ghost predicate Inv(block: Block, index: nat, s: State) {
    && (forall t :: t in s.threads ==> Fits(block, index, s, s.threads[t]))
    && (forall t, u :: t in s.threads && u in s.threads && Owner(s.threads[t]) && Owner(s.threads[u]) ==> t == u)
    && (match s.chunk
        case None => s.published == []
        case Some(c) => s.bit && s.published == [c] && Covers(block, index, c))
    && (s.bit && s.chunk == None ==> exists t :: t in s.threads && Owner(s.threads[t]))
  }

  lemma NextKeeps(block: Block, index: nat, s: State, s': State, t: nat, a: Action)
    requires index * CHUNK_SIZE < block.size && Inv(block, index, s) && Next(block, index, s, s', t, a)
    ensures Inv(block, index, s')
    ensures s.chunk.Some? ==> s'.chunk == s.chunk
  {
    assert Fits(block, index, s, s.threads[t]);
    ChunkReaches(block.size, index);
    forall u | u in s'.threads ensures Fits(block, index, s', s'.threads[u]) {
      if u != t {
        assert Fits(block, index, s, s.threads[u]);
      }
    }
    if s'.bit && s'.chunk == None {
      SomeOwner(block, index, s, s', t, a);
    }
  }

  /** While the bit is set and no chunk is there, some thread is still at it. */
  lemma SomeOwner(block: Block, index: nat, s: State, s': State, t: nat, a: Action)
    requires Inv(block, index, s) && Next(block, index, s, s', t, a) && s'.bit && s'.chunk == None
    ensures exists u :: u in s'.threads && Owner(s'.threads[u])
  {
    if s.bit {
      var u :| u in s.threads && Owner(s.threads[u]);
      assert u in s'.threads;
      if u == t {
        assert Owner(s'.threads[t]);
      }
    } else {
      assert Owner(s'.threads[t]);
    }
  }

  ghost predicate Run(block: Block, index: nat, ss: seq<State>, ts: seq<nat>, acts: seq<Action>) {
    && |ss| == |ts| + 1 && |acts| == |ts| && Init(ss[0])
    && forall i :: 0 <= i < |ts| ==> Next(block, index, ss[i], ss[i + 1], ts[i], acts[i])
  }

  lemma {:induction false} RunKeeps(block: Block, index: nat, ss: seq<State>, ts: seq<nat>, acts: seq<Action>, n: nat)
    requires index * CHUNK_SIZE < block.size && Run(block, index, ss, ts, acts) && n < |ss|
    ensures Inv(block, index, ss[n])
  {
    if n > 0 {
      RunKeeps(block, index, ss, ts, acts, n - 1);
      NextKeeps(block, index, ss[n - 1], ss[n], ts[n - 1], acts[n - 1]);
    }
  }

  /** At most one chunk is ever published, whoever gets one gets that one, and it covers exactly its
      part of the block. */
  lemma OneChunk(block: Block, index: nat, ss: seq<State>, ts: seq<nat>, acts: seq<Action>, n: nat, t: nat)
    requires index * CHUNK_SIZE < block.size && Run(block, index, ss, ts, acts) && n < |ss|
    requires t in ss[n].threads && ss[n].threads[t].Done? && ss[n].threads[t].result.Some?
    ensures ss[n].published == [ss[n].threads[t].result.value] && ss[n].chunk == ss[n].threads[t].result
    ensures Covers(block, index, ss[n].threads[t].result.value)
  {
    RunKeeps(block, index, ss, ts, acts, n);
    assert Fits(block, index, ss[n], ss[n].threads[t]);
  }

  // ---- Runs without a failed pin -----------------------------------------------------------------

  /** Where no pin has failed, whoever waits finds the bit set, and nobody is done without the chunk. */
  ghost predicate Calm(s: State, pc: Pc) {
    match pc
    case Unpinned => false
    case Waiting => s.bit
    case Testing => s.bit
    case Done(result) => result.Some?
    case _ => true
  }

  ghost predicate AllCalm(s: State) {
    forall t :: t in s.threads ==> Calm(s, s.threads[t])
  }

  lemma NextCalm(block: Block, index: nat, s: State, s': State, t: nat, a: Action)
    requires Inv(block, index, s) && AllCalm(s) && Next(block, index, s, s', t, a) && a != Fail
    ensures AllCalm(s')
  {
    assert Calm(s, s.threads[t]) && Fits(block, index, s, s.threads[t]);
    forall u | u in s'.threads ensures Calm(s', s'.threads[u]) {
      if u != t {
        assert Calm(s, s.threads[u]);
      }
    }
  }

  lemma {:induction false} RunCalm(block: Block, index: nat, ss: seq<State>, ts: seq<nat>, acts: seq<Action>, n: nat)
    requires index * CHUNK_SIZE < block.size && Run(block, index, ss, ts, acts) && n < |ss| && Fail !in acts[..n]
    ensures AllCalm(ss[n])
  {
    if n > 0 {
      var k := n - 1;
      assert acts[..n] == acts[..k] + [acts[k]];
      RunCalm(block, index, ss, ts, acts, k);
      RunKeeps(block, index, ss, ts, acts, k);
      NextCalm(block, index, ss[k], ss[n], ts[k], acts[k]);
    }
  }

  /** Unless a pin has failed before, whoever is done has the published chunk. */
  lemma DoneHasChunk(block: Block, index: nat, ss: seq<State>, ts: seq<nat>, acts: seq<Action>, n: nat, t: nat)
    requires index * CHUNK_SIZE < block.size && Run(block, index, ss, ts, acts) && n < |ss|
    requires t in ss[n].threads && ss[n].threads[t].Done?
    ensures Fail in acts[..n] || (ss[n].chunk.Some? && ss[n].threads[t].result == ss[n].chunk)
  {
    if Fail !in acts[..n] {
      RunCalm(block, index, ss, ts, acts, n);
      RunKeeps(block, index, ss, ts, acts, n);
      assert Calm(ss[n], ss[n].threads[t]) && Fits(block, index, ss[n], ss[n].threads[t]);
    }
  }

  // ---- Progress ----------------------------------------------------------------------------------

  /** How many steps a thread has to make once the chunk is published. */
  function StepsLeft(pc: Pc): nat {
    match pc
    case Done(_) => 0
    case Reading => 1
    case Waiting => 2
    case _ => 3
  }

  /** Once the chunk is published every thread can go on, */
  lemma CanGoOn(block: Block, index: nat, s: State, t: nat) returns (s': State, a: Action)
    requires Inv(block, index, s) && s.chunk.Some? && t in s.threads && !s.threads[t].Done?
    ensures Next(block, index, s, s', t, a)
  {
    assert Fits(block, index, s, s.threads[t]);
    match s.threads[t]
    case Start => a, s' := Take, s.(bit := true, threads := s.threads[t := Waiting]);
    case Waiting => a, s' := Look, s.(threads := s.threads[t := Reading]);
    case Testing => a, s' := Test, s.(threads := s.threads[t := Waiting]);
    case Reading => a, s' := Read, s.(threads := s.threads[t := Done(s.chunk)]);
  }

  /** and each of its steps takes it nearer to its end, where it has the chunk. */
  lemma GoesOn(block: Block, index: nat, s: State, s': State, t: nat, a: Action)
    requires Inv(block, index, s) && s.chunk.Some? && Next(block, index, s, s', t, a)
    ensures StepsLeft(s'.threads[t]) < StepsLeft(s.threads[t])
    ensures s'.threads[t].Done? ==> s'.threads[t].result == s.chunk
  {
    assert Fits(block, index, s, s.threads[t]);
  }
}
