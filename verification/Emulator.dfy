/**
 The instruction emulator for the MOV family, with or without REP. It reads and writes registers through
 a cache, and leaves at every access to a device, to be entered again when the device has answered. It is
 shown to do what a direct interpreter does that has no cache and gets its answers at once.
 */
module Emulator {
  import opened Memslots

  type Word = x: nat | x < 0x1_0000_0000_0000_0000

  const RAX: nat := 0
  const RCX: nat := 1
  const RSI: nat := 6
  const RDI: nat := 7

  // ---- Bytes of a word ---------------------------------------------------------------------------

  predicate IsSize(n: nat) {
    n == 1 || n == 2 || n == 4 || n == 8
  }

  /** How many values n bytes have. */
  function Range(n: nat): (r: nat)
    requires IsSize(n)
    ensures 256 <= r <= 0x1_0000_0000_0000_0000
  {
    if n == 1 then 0x100 else if n == 2 then 0x1_0000 else if n == 4 then 0x1_0000_0000 else 0x1_0000_0000_0000_0000
  }

  /** Copying n bytes out of a word, from its second byte when `high` is set. */
  function Get(w: Word, n: nat, high: bool): Word
    requires IsSize(n)
  {
    if high then w / 0x100 % 0x100 else w % Range(n)
  }

  /** n bytes of a number. */
  function Low(x: nat, n: nat): (r: Word)
    requires IsSize(n)
    ensures r < Range(n)
  {
    x % Range(n)
  }

  /** Copying n bytes into a word. */
  function Put(w: Word, n: nat, v: Word, high: bool): Word
    requires IsSize(n)
  {
    PutFits(w, n, v);
    if high then w - w / 0x100 % 0x100 * 0x100 + v % 0x100 * 0x100 else w - w % Range(n) + v % Range(n)
  }

  lemma PutFits(w: Word, n: nat, v: Word)
    requires IsSize(n)
    ensures 0 <= w - w / 0x100 % 0x100 * 0x100 + v % 0x100 * 0x100 < 0x1_0000_0000_0000_0000
    ensures 0 <= w - w % Range(n) + v % Range(n) < 0x1_0000_0000_0000_0000
  {
    var q, r := w / Range(n), w % Range(n);
    assert n == 1 ==> w == q * 0x100 + r;
    assert n == 2 ==> w == q * 0x1_0000 + r;
    assert n == 4 ==> w == q * 0x1_0000_0000 + r;
    var h, l := w / 0x100, w % 0x100;
    assert w == h * 0x100 + l && h == h / 0x100 * 0x100 + h % 0x100;
  }

  /** Adding with wrap-around. */
  function Plus(w: Word, k: int): Word {
    (w + k) % 0x1_0000_0000_0000_0000
  }

  // ---- Instructions ------------------------------------------------------------------------------

  datatype Handler = Mov | Movzx | Movsx

  /** Where an operand is. The effective address of a string operand is decoded anew from RDI or RSI for
      each repetition; any other is known once the instruction is decoded. */
  datatype Operand =
    | Reg(index: nat, high: bool)
    | Imm(imm: Word)
    | Mem(ea: Word, seg: nat)
    | StringDi
    | StringSi(override: nat)

  datatype Insn = Insn(handler: Handler, dst: Operand, src: Operand, operandSize: nat, srcSize: nat, addressSize: nat,
                       rep: bool, twoMem: bool)

  /** What decoding guarantees: sizes are sizes, registers exist, a high byte is one byte, and only string
      instructions repeat. */
  predicate WellFormed(i: Insn) {
    && IsSize(i.operandSize) && IsSize(i.srcSize) && IsSize(i.addressSize) && i.addressSize != 1
    && (i.handler == Mov ==> i.srcSize == i.operandSize)
    && (i.dst.Reg? ==> i.dst.index < 16 && (i.dst.high ==> i.operandSize == 1))
    && (i.src.Reg? ==> i.src.index < 16 && (i.src.high ==> i.srcSize == 1))
    && !i.dst.Imm? && !i.dst.StringSi? && !i.src.StringDi?
    && (i.rep ==> i.handler == Mov && (i.dst == StringDi || i.dst == Reg(RAX, false)) && (i.src.StringSi? || i.src == Reg(RAX, false)))
  }

  datatype Mode = Real | Prot16 | Prot32 | Prot64

  const SEG_ES: nat := 4
  const SEG_FS: nat := 5
  const SEG_GS: nat := 6

  /** What stays fixed while an instruction is emulated: the mode, segment bases, the guest's flags, the
      translation of linear addresses, and what a device answers to the k-th access. */
  datatype World = World(mode: Mode, base: nat -> Word, flags: Word,
                         translate: Word -> Word, device: Word -> bool, exitGpa: Word, answer: nat -> Word)

  /** The direction flag. */
  predicate Backward(flags: Word) {
    flags / 0x400 % 2 == 1
  }

  /** get_linear_address */
  function Linear(w: World, addressSize: nat, ea: Word, seg: nat): Word
    requires IsSize(addressSize)
  {
    var addr := Get(ea, addressSize, false);
    match w.mode
    case Prot64 =>
      var a := if seg == SEG_FS || seg == SEG_GS then Plus(addr, w.base(seg)) else addr;
      Canonical(a)
    case Real => Plus(addr, w.base(seg)) % 0x10_0000
    case _ => Plus(addr, w.base(seg)) % 0x1_0000_0000
  }

  /** Sign extension from bit 47. */
  function Canonical(a: Word): Word {
    var low := a % 0x1_0000_0000_0000;
    if low < 0x8000_0000_0000 then low else low + 0xffff_0000_0000_0000
  }

  type Memory = map<Word, nat>

  /** Guest memory, a byte at a time, little end first, each at the translation of its own address; None when some
      byte cannot be reached. */
  function Load(mem: Memory, w: World, la: Word, n: nat): Option<nat>
    decreases n
  {
    if n == 0 then Some(0)
    else if w.translate(la) !in mem then None
    else
      match Load(mem, w, Plus(la, 1), n - 1)
      case None => None
      case Some(rest) => Some(mem[w.translate(la)] % 0x100 + 0x100 * rest)
  }

  function Store(mem: Memory, w: World, la: Word, n: nat, v: nat): Option<Memory>
    decreases n
  {
    if n == 0 then Some(mem)
    else if w.translate(la) !in mem then None
    else Store(mem[w.translate(la) := v % 0x100], w, Plus(la, 1), n - 1, v / 0x100)
  }

  datatype Access = ReadFrom(pa: Word, n: nat) | WriteTo(pa: Word, n: nat, v: Word)

  // ---- The direct interpreter --------------------------------------------------------------------

  /** The machine: registers, memory, and the device accesses made so far. */
  datatype Machine = Machine(regs: seq<Word>, mem: Memory, trace: seq<Access>)

  datatype Final = Finished(machine: Machine) | Faulted(machine: Machine)

  /** How many repetitions are left. */
  function Count(i: Insn, regs: seq<Word>): nat
    requires WellFormed(i) && |regs| == 16
  {
    if i.rep then Get(regs[RCX], i.addressSize, false) else 1
  }

  /** The value an instruction stores, from the value it loads. */
  function Result(i: Insn, v: Word): Word
    requires WellFormed(i)
  {
    match i.handler
    case Mov => Get(v, i.operandSize, false)
    case Movzx => Get(v, i.srcSize, false)
    case Movsx =>
      var extension := if v / (Range(i.srcSize) / 2) % 2 == 1 then 0xffff_ffff_ffff_ffff else 0;
      Put(Put(0, i.operandSize, extension, false), i.srcSize, v, false)
  }

  function EaOf(i: Insn, op: Operand, regs: seq<Word>): Word
    requires WellFormed(i) && |regs| == 16
  {
    match op
    case Mem(ea, _) => ea
    case StringDi => Get(regs[RDI], i.addressSize, false)
    case StringSi(_) => Get(regs[RSI], i.addressSize, false)
    case _ => 0
  }

  function SegOf(op: Operand): nat {
    match op
    case Mem(_, seg) => seg
    case StringDi => SEG_ES
    case StringSi(seg) => seg
    case _ => 0
  }

  predicate InMemory(op: Operand) {
    op.Mem? || op.StringDi? || op.StringSi?
  }

  /** The physical address of a memory access, and whether a device is there. Only repeated instructions
      and those with two memory operands need a translation. */
  function Reach(i: Insn, w: World, la: Word): (Word, bool) {
    if i.twoMem || i.rep then (w.translate(la), w.device(w.translate(la))) else (w.exitGpa, true)
  }

  function LinearOf(i: Insn, w: World, op: Operand, regs: seq<Word>): Word
    requires WellFormed(i) && |regs| == 16
  {
    Linear(w, i.addressSize, EaOf(i, op, regs), SegOf(op))
  }

  function StoreReg(i: Insn, regs: seq<Word>, v: Word): seq<Word>
    requires WellFormed(i) && i.dst.Reg? && |regs| == 16
  {
    regs[i.dst.index := Put(regs[i.dst.index], if i.operandSize == 4 then 8 else i.operandSize, v, i.dst.high)]
  }

  /** String pointers move on, and a repetition is counted. */
  function Advance(i: Insn, w: World, regs: seq<Word>): seq<Word>
    requires WellFormed(i) && |regs| == 16
  {
    var step: int := if Backward(w.flags) then 0 - i.operandSize else i.operandSize;
    var r1 := if i.dst.StringDi? then regs[RDI := Plus(regs[RDI], step)] else regs;
    var r2 := if i.src.StringSi? then r1[RSI := Plus(r1[RSI], step)] else r1;
    if i.rep then r2[RCX := Plus(r2[RCX], -1)] else r2
  }

  /** A count that is not zero goes down by one. */
  lemma CountDown(i: Insn, w: World, regs: seq<Word>)
    requires WellFormed(i) && |regs| == 16 && i.rep && Count(i, regs) > 0
    ensures Count(i, Advance(i, w, regs)) == Count(i, regs) - 1
  {
    var c := regs[RCX];
    assert c > 0;
    assert Plus(c, -1) == c - 1;
    assert Advance(i, w, regs)[RCX] == c - 1;
    LessOne(c, i.addressSize);
  }

  lemma LessOne(c: Word, n: nat)
    requires IsSize(n) && c % Range(n) > 0
    ensures (c - 1) % Range(n) == c % Range(n) - 1
  {
  }

  /** What loading the source comes to: a value, a question to a device, or a fault. */
  datatype Loaded = Value(v: Word) | Asked(access: Access) | Missing

  function LoadSource(i: Insn, w: World, m: Machine): Loaded
    requires WellFormed(i) && |m.regs| == 16
  {
    if i.src.Imm? then Value(i.src.imm)
    else if i.src.Reg? then Value(Get(m.regs[i.src.index], i.srcSize, i.src.high))
    else
      var la := LinearOf(i, w, i.src, m.regs);
      var (pa, device) := Reach(i, w, la);
      if device then Asked(ReadFrom(pa, i.srcSize))
      else
        match Load(m.mem, w, la, i.srcSize)
        case None => Missing
        case Some(v) => Value(Low(v, i.srcSize))
  }

  /** What storing the result comes to. */
  datatype Stored = Kept(machine: Machine) | Sent(access: Access) | Refused

  function StoreResult(i: Insn, w: World, m: Machine, x: Word): (r: Stored)
    requires WellFormed(i) && |m.regs| == 16
    ensures r.Kept? ==> |r.machine.regs| == 16 && (i.rep ==> r.machine.regs[RCX] == m.regs[RCX])
  {
    if i.dst.Reg? then Kept(m.(regs := StoreReg(i, m.regs, x)))
    else
      var la := LinearOf(i, w, i.dst, m.regs);
      var (pa, device) := Reach(i, w, la);
      if device then Sent(WriteTo(pa, i.operandSize, x))
      else
        match Store(m.mem, w, la, i.operandSize, x)
        case None => Refused
        case Some(mem) => Kept(m.(mem := mem))
  }

  function Tell(m: Machine, a: Access): Machine {
    m.(trace := m.trace + [a])
  }

  /** From the start of a round. */
  ghost function FromStart(i: Insn, w: World, m: Machine): Final
    requires WellFormed(i) && |m.regs| == 16
    decreases Count(i, m.regs), 3
  {
    if i.rep && Count(i, m.regs) == 0 then Finished(m)
    else
      match LoadSource(i, w, m)
      case Value(v) => AfterRead(i, w, m, v)
      case Asked(a) => AfterRead(i, w, Tell(m, a), Get(w.answer(|m.trace|), i.srcSize, false))
      case Missing => Faulted(m)
  }

  /** From where the source is known. */
  ghost function AfterRead(i: Insn, w: World, m: Machine, v: Word): Final
    requires WellFormed(i) && |m.regs| == 16 && (i.rep ==> Count(i, m.regs) > 0)
    decreases Count(i, m.regs), 2
  {
    match StoreResult(i, w, m, Result(i, v))
    case Kept(m') => AfterWrite(i, w, m')
    case Sent(a) => AfterWrite(i, w, Tell(m, a))
    case Refused => Faulted(m)
  }

  /** From where the result is stored. */
  ghost function AfterWrite(i: Insn, w: World, m: Machine): Final
    requires WellFormed(i) && |m.regs| == 16 && (i.rep ==> Count(i, m.regs) > 0)
    decreases Count(i, m.regs), 1
  {
    var m' := m.(regs := Advance(i, w, m.regs));
    if i.rep then
      CountDown(i, w, m.regs);
      FromStart(i, w, m')
    else Finished(m')
  }

  // ---- The register cache ------------------------------------------------------------------------

  /** The registers as the emulator sees them. */
  ghost function ViewOf(regs: seq<Word>, cache: seq<Word>, cached: set<nat>): (view: seq<Word>)
    requires |regs| == |cache| == 16
    ensures |view| == 16
  {
    seq(16, k requires 0 <= k < 16 => if k in cached then cache[k] else regs[k])
  }

  /** Operands are decoded from the registers as they are, and hold no more bytes than they should. */
  ghost predicate Fitting(i: Insn, view: seq<Word>, srcValue: Word, srcEa: Word, dstValue: Word, dstEa: Word)
    requires WellFormed(i) && |view| == 16
  {
    && srcEa == EaOf(i, i.src, view) && dstEa == EaOf(i, i.dst, view)
    && (i.src.Imm? ==> srcValue == i.src.imm)
    && (!i.src.Imm? ==> srcValue < Range(i.srcSize))
    && (i.handler == Mov ==> dstValue < Range(i.operandSize))
  }

  datatype Status = CONTINUE | EXIT_MMIO | ERROR

  class Context {
    const insn: Insn
    const world: World
    var regs: seq<Word>
    var flags: Word
    var mem: Memory
    var trace: seq<Access>
    var advanced: nat
    var cache: seq<Word>
    var cacheR: set<nat>
    var cacheW: set<nat>
    var srcValue: Word
    var srcEa: Word
    var srcPending: bool
    var srcFinished: bool
    var dstValue: Word
    var dstEa: Word
    var dstPending: bool
    var dstFinished: bool
    var finished: bool
    var rflags: Word

    /** A decoded instruction, about to be emulated for the first time. */
    constructor (insn: Insn, world: World, regs: seq<Word>, mem: Memory, trace: seq<Access>)
      requires WellFormed(insn) && |regs| == 16
      ensures this.insn == insn && this.world == world
      ensures this.regs == regs && this.mem == mem && this.trace == trace && advanced == 0 && flags == world.flags && !finished
      ensures WellFormed(insn) && Resumable() && Now() == Machine(regs, mem, trace) && Outlook() == FromStart(insn, world, Now())
    {
      this.insn, this.world, this.regs, this.mem, this.trace := insn, world, regs, mem, trace;
      advanced, finished, flags, rflags := 0, false, world.flags, 0;
      cache, cacheR, cacheW := seq(16, _ => 0), {}, {};
      srcValue, srcEa, srcPending, srcFinished := if insn.src.Imm? then insn.src.imm else 0, EaOf(insn, insn.src, regs), false, false;
      dstValue, dstEa, dstPending, dstFinished := 0, EaOf(insn, insn.dst, regs), false, false;
      new;
      assert View() == regs;
    }

    ghost predicate CacheOk()
      reads this`regs, this`cache, this`cacheR, this`cacheW
    {
      && |regs| == |cache| == 16 && cacheW <= cacheR
      && (forall k :: k in cacheR ==> k < 16)
      && (forall k :: k in cacheR && k !in cacheW ==> cache[k] == regs[k])
    }

    ghost function View(): seq<Word>
      requires |regs| == |cache| == 16
      reads this`regs, this`cache, this`cacheR
    {
      ViewOf(regs, cache, cacheR)
    }

    method Fetch(index: nat)
      requires CacheOk() && index < 16
      modifies this`cache, this`cacheR
      ensures CacheOk() && View() == old(View()) && index in cacheR && cache[index] == View()[index]
    {
      if index !in cacheR {
        cache := cache[index := regs[index]];
        cacheR := cacheR + {index};
      }
    }

    /** gpr_read_shifted */
    method GprRead(index: nat, n: nat, high: bool) returns (v: Word)
      requires CacheOk() && index < 16 && IsSize(n)
      modifies this`cache, this`cacheR
      ensures CacheOk() && View() == old(View()) && v == Get(View()[index], n, high)
    {
      Fetch(index);
      v := Get(cache[index], n, high);
    }

    /** gpr_write_shifted */
    method GprWrite(index: nat, n: nat, v: Word, high: bool)
      requires CacheOk() && index < 16 && IsSize(n)
      modifies this`cache, this`cacheR, this`cacheW
      ensures CacheOk() && View() == old(View())[index := Put(old(View())[index], n, v, high)]
    {
      Fetch(index);
      cacheW := cacheW + {index};
      cache := cache[index := Put(cache[index], n, v, high)];
    }

    /** gpr_cache_flush */
    method CacheFlush()
      requires CacheOk()
      modifies this`regs, this`cacheW
      ensures CacheOk() && View() == old(View()) == regs && cacheW == {}
    {
      ghost var view := View();
      var k := 0;
      while k < 16
        invariant k <= 16 && |regs| == 16 && cacheW == old(cacheW)
        invariant forall j :: 0 <= j < 16 ==> regs[j] == if j < k then view[j] else old(regs)[j]
      {
        if k in cacheW {
          regs := regs[k := cache[k]];
        }
        k := k + 1;
      }
      cacheW := {};
      assert regs == view;
    }

    /** gpr_cache_invalidate: harmless when nothing waits to be written. */
    method CacheInvalidate()
      requires CacheOk()
      modifies this`cacheR, this`cacheW
      ensures CacheOk() && cacheR == {} && cacheW == {} && View() == regs
      ensures old(cacheW) == {} ==> View() == old(View())
    {
      assert cacheW == {} ==> View() == regs;
      cacheR, cacheW := {}, {};
      assert View() == regs;
    }

    // ---- Where an instruction stands -------------------------------------------------------

    ghost function Now(): Machine
      requires |regs| == |cache| == 16
      reads this`regs, this`cache, this`cacheR, this`mem, this`trace
    {
      Machine(View(), mem, trace)
    }

    ghost predicate Decoded()
      requires WellFormed(insn)
      reads this`regs, this`cache, this`cacheR, this`cacheW, this`srcValue, this`srcEa, this`dstValue, this`dstEa
    {
      CacheOk() && Fitting(insn, View(), srcValue, srcEa, dstValue, dstEa)
    }

    /** An instruction can be entered at the start of a round, when a device has answered a read, or when
        a write to a device is done. Nothing waits in the cache. */
    ghost predicate Resumable()
      requires WellFormed(insn)
      reads this`regs, this`cache, this`cacheR, this`cacheW, this`mem, this`trace, this`srcValue, this`srcEa, this`dstValue, this`dstEa,
            this`srcPending, this`srcFinished, this`dstPending, this`dstFinished
    {
      && Decoded() && cacheW == {} && !dstFinished
      && (srcPending && !srcFinished ==> InMemory(insn.src) && |trace| > 0 && (insn.rep ==> Count(insn, View()) > 0))
      && (dstPending ==> InMemory(insn.dst) && srcFinished && (insn.rep ==> Count(insn, View()) > 0))
      && (srcFinished ==> dstPending)
    }

    /** How the instruction ends, from where it stands. */
    ghost function Outlook(): Final
      requires WellFormed(insn) && Resumable()
      reads this`regs, this`cache, this`cacheR, this`cacheW, this`mem, this`trace, this`srcValue, this`srcEa, this`dstValue, this`dstEa,
            this`srcPending, this`srcFinished, this`dstPending, this`dstFinished
    {
      if dstPending then AfterWrite(insn, world, Now())
      else if srcPending then AfterRead(insn, world, Now(), Answer())
      else FromStart(insn, world, Now())
    }

    /** vcpu_read_memory */
    method ReadMemory(la: Word) returns (rc: Status, v: Word)
      requires CacheOk() && WellFormed(insn)
      modifies this`trace
      ensures var (pa, device) := Reach(insn, world, la);
              if device then rc == EXIT_MMIO && trace == old(trace) + [ReadFrom(pa, insn.srcSize)]
              else
                && trace == old(trace)
                && match Load(mem, world, la, insn.srcSize)
                   case None => rc == ERROR
                   case Some(x) => rc == CONTINUE && v == Low(x, insn.srcSize)
    {
      v := 0;
      var translated := insn.twoMem || insn.rep;
      var pa := if translated then world.translate(la) else world.exitGpa;
      if !translated || world.device(pa) {
        trace := trace + [ReadFrom(pa, insn.srcSize)];
        return EXIT_MMIO, v;
      }
      match Load(mem, world, la, insn.srcSize)
      case None => rc := ERROR;
      case Some(x) =>
        rc, v := CONTINUE, Low(x, insn.srcSize);
    }

    /** What the device said to the last access. */
    ghost function Answer(): Word
      requires WellFormed(insn) && |trace| > 0
      reads this`trace
    {
      Get(world.answer(|trace| - 1), insn.srcSize, false)
    }

    /** operand_read for the source. */
    method OperandRead() returns (rc: Status)
      requires WellFormed(insn) && Decoded() && (!srcFinished && srcPending ==> InMemory(insn.src) && |trace| > 0)
      modifies this`cache, this`cacheR, this`trace, this`srcValue, this`srcPending, this`srcFinished
      ensures Decoded() && View() == old(View())
      ensures rc == CONTINUE ==> srcFinished && trace == old(trace) && srcPending == old(srcPending)
      ensures old(srcFinished) ==> rc == CONTINUE && srcValue == old(srcValue)
      ensures !old(srcFinished) && old(srcPending) ==> rc == CONTINUE && srcValue == Answer()
      ensures !old(srcFinished) && !old(srcPending) ==>
                match LoadSource(insn, world, old(Now()))
                case Value(v) => rc == CONTINUE && srcValue == v
                case Asked(a) => rc == EXIT_MMIO && InMemory(insn.src) && srcPending && !srcFinished && trace == old(trace) + [a]
                case Missing => rc == ERROR && trace == old(trace)
    {
      if srcFinished {
        return CONTINUE;
      }
      if insn.src.Imm? {
        rc := CONTINUE;
      } else if insn.src.Reg? {
        srcValue := GprRead(insn.src.index, insn.srcSize, insn.src.high);
        rc := CONTINUE;
      } else {
        rc := ReadSource();
      }
      if rc == CONTINUE {
        srcFinished := true;
      } else {
        srcPending := true;
      }
    }

    method ReadSource() returns (rc: Status)
      requires WellFormed(insn) && Decoded() && InMemory(insn.src) && (srcPending ==> |trace| > 0)
      modifies this`trace, this`srcValue
      ensures Decoded()
      ensures rc == CONTINUE ==> trace == old(trace)
      ensures srcPending ==> rc == CONTINUE && srcValue == Answer()
      ensures !srcPending ==>
                match LoadSource(insn, world, old(Now()))
                case Value(v) => rc == CONTINUE && srcValue == v
                case Asked(a) => rc == EXIT_MMIO && trace == old(trace) + [a]
                case Missing => rc == ERROR && trace == old(trace)
    {
      if srcPending {
        // vcpu_read_memory_post
        var answer := world.answer(|trace| - 1);
        PutWhole(srcValue, insn.srcSize, answer);
        srcValue := Put(srcValue, insn.srcSize, answer, false);
        return CONTINUE;
      }
      var v;
      var la := Linear(world, insn.addressSize, srcEa, SegOf(insn.src));
      rc, v := ReadMemory(la);
      if rc == CONTINUE {
        PutWhole(srcValue, insn.srcSize, v);
        srcValue := Put(srcValue, insn.srcSize, v, false);
      }
    }

    /** em_mov, em_movzx or em_movsx; then the flags are written back. */
    method Handle()
      requires WellFormed(insn) && (insn.handler == Mov ==> dstValue < Range(insn.operandSize))
      modifies this`dstValue, this`flags
      ensures dstValue == Result(insn, srcValue) && flags == rflags
      ensures insn.handler == Mov ==> dstValue < Range(insn.operandSize)
    {
      flags := rflags;
      match insn.handler
      case Mov =>
        PutWhole(dstValue, insn.operandSize, srcValue);
        dstValue := Put(dstValue, insn.operandSize, srcValue, false);
      case Movzx =>
        PutWhole(0, insn.srcSize, srcValue);
        dstValue := Put(0, insn.srcSize, srcValue, false);
      case Movsx =>
        var extension := 0;
        if srcValue / (Range(insn.srcSize) / 2) % 2 == 1 {
          extension := 0xffff_ffff_ffff_ffff;
        }
        dstValue := Put(0, insn.operandSize, extension, false);
        dstValue := Put(dstValue, insn.srcSize, srcValue, false);
    }

    /** The handler leaves the operands decoded. */
    method HandleDecoded()
      requires WellFormed(insn) && Decoded()
      modifies this`dstValue, this`flags
      ensures Decoded() && Now() == old(Now()) && dstValue == Result(insn, srcValue) && flags == rflags
    {
      Handle();
    }

    /** vcpu_write_memory */
    method WriteMemory(la: Word, v: Word) returns (rc: Status)
      requires WellFormed(insn)
      modifies this`trace, this`mem
      ensures var (pa, device) := Reach(insn, world, la);
              if device then rc == EXIT_MMIO && trace == old(trace) + [WriteTo(pa, insn.operandSize, v)] && mem == old(mem)
              else
                && trace == old(trace)
                && match Store(old(mem), world, la, insn.operandSize, v)
                   case None => rc == ERROR && mem == old(mem)
                   case Some(m) => rc == CONTINUE && mem == m
    {
      var translated := insn.twoMem || insn.rep;
      var pa := if translated then world.translate(la) else world.exitGpa;
      if !translated || world.device(pa) {
        trace := trace + [WriteTo(pa, insn.operandSize, v)];
        return EXIT_MMIO;
      }
      match Store(mem, world, la, insn.operandSize, v)
      case None => rc := ERROR;
      case Some(m) =>
        rc, mem := CONTINUE, m;
    }

    /** operand_write for the destination. */
    method OperandWrite() returns (rc: Status)
      requires WellFormed(insn) && Decoded() && !dstFinished && (dstPending ==> InMemory(insn.dst))
      modifies this`cache, this`cacheR, this`cacheW, this`trace, this`mem, this`dstPending, this`dstFinished
      ensures CacheOk() && (rc == CONTINUE ==> dstFinished)
      ensures rc != CONTINUE ==> View() == old(View()) && cacheW == old(cacheW) && !dstFinished
      ensures old(dstPending) ==> rc == CONTINUE && Now() == old(Now())
      ensures !old(dstPending) ==>
                match StoreResult(insn, world, old(Now()), dstValue)
                case Kept(m) => rc == CONTINUE && Now() == m
                case Sent(a) => rc == EXIT_MMIO && InMemory(insn.dst) && dstPending && Now() == Tell(old(Now()), a)
                case Refused => rc == ERROR && Now() == old(Now())
    {
      if insn.dst.Reg? {
        var n := if insn.operandSize == 4 then 8 else insn.operandSize;
        GprWrite(insn.dst.index, n, dstValue, insn.dst.high);
        rc := CONTINUE;
      } else if dstPending {
        rc := CONTINUE;
      } else {
        var la := Linear(world, insn.addressSize, dstEa, SegOf(insn.dst));
        rc := WriteMemory(la, dstValue);
      }
      if rc == CONTINUE {
        dstFinished := true;
      } else {
        dstPending := true;
      }
    }

    /** register_add */
    method RegisterAdd(index: nat, addend: int)
      requires CacheOk() && index < 16
      modifies this`cache, this`cacheR, this`cacheW
      ensures CacheOk() && View() == old(View())[index := Plus(old(View())[index], addend)]
    {
      var value := GprRead(index, 8, false);
      GprWrite(index, 8, Plus(value, addend), false);
      PutAll(old(View())[index], Plus(value, addend));
    }

    method AdvanceRegisters()
      requires CacheOk() && WellFormed(insn) && rflags == world.flags
      modifies this`cache, this`cacheR, this`cacheW
      ensures CacheOk() && View() == Advance(insn, world, old(View()))
    {
      var step: int := if Backward(rflags) then 0 - insn.operandSize else insn.operandSize;
      if insn.dst.StringDi? {
        RegisterAdd(RDI, step);
      }
      if insn.src.StringSi? {
        RegisterAdd(RSI, step);
      }
      if insn.rep {
        RegisterAdd(RCX, -1);
      }
    }

    /** decode_operands, for the next repetition. */
    method DecodeOperands()
      requires CacheOk() && WellFormed(insn) && insn.rep
      requires srcValue < Range(insn.srcSize) && dstValue < Range(insn.operandSize)
      modifies this`cache, this`cacheR, this`srcEa, this`dstEa, this`srcPending, this`srcFinished, this`dstPending, this`dstFinished
      ensures Decoded() && View() == old(View()) && !srcPending && !srcFinished && !dstPending && !dstFinished
    {
      var di, si := 0, 0;
      if insn.dst.StringDi? {
        di := GprRead(RDI, insn.addressSize, false);
      }
      if insn.src.StringSi? {
        si := GprRead(RSI, insn.addressSize, false);
      }
      srcEa, srcPending, srcFinished := si, false, false;
      dstEa, dstPending, dstFinished := di, false, false;
    }

    // ---- em_emulate_insn ------------------------------------------------------------------

    /** Loads the source, as far as devices allow; `end` is how the instruction ends. */
    method ExecuteRead(ghost end: Final, ghost left: nat) returns (rc: Status)
      requires WellFormed(insn) && Resumable() && (insn.rep ==> Count(insn, View()) > 0) && end == Outlook() && left == Left()
      modifies this`cache, this`cacheR, this`trace, this`srcValue, this`srcPending, this`srcFinished
      ensures Decoded() && View() == old(View())
      ensures rc == CONTINUE ==> srcFinished
      ensures rc == CONTINUE && dstPending ==> end == AfterWrite(insn, world, Now())
      ensures rc == CONTINUE && !dstPending ==> end == AfterRead(insn, world, Now(), srcValue)
      ensures rc == EXIT_MMIO ==> Resumable() && Outlook() == end && Left() < left
      ensures rc == CONTINUE ==> Left() <= left
      ensures rc == ERROR ==> end == Faulted(Now())
    {
      if !srcFinished && !srcPending {
        ghost var m := Now();
        ghost var l := LoadSource(insn, world, m);
        StartIs(insn, world, m, l, end);
        rc := ReadFresh(end, m, l);
      } else {
        rc := OperandRead();
      }
    }

    /** Loads the source at the start of a round. */
    method ReadFresh(ghost end: Final, ghost m: Machine, ghost l: Loaded) returns (rc: Status)
      requires WellFormed(insn) && Decoded() && (insn.rep ==> Count(insn, View()) > 0)
      requires !srcFinished && !srcPending && m == Now() && l == LoadSource(insn, world, m)
      requires l.Value? ==> end == AfterRead(insn, world, m, l.v)
      requires l.Asked? ==> end == AfterRead(insn, world, Tell(m, l.access), Get(world.answer(|m.trace|), insn.srcSize, false))
      requires l.Missing? ==> end == Faulted(m)
      modifies this`cache, this`cacheR, this`trace, this`srcValue, this`srcPending, this`srcFinished
      ensures Decoded() && View() == old(View())
      ensures rc == CONTINUE ==> srcFinished && !srcPending && end == AfterRead(insn, world, Now(), srcValue)
      ensures rc == EXIT_MMIO ==> InMemory(insn.src) && srcPending && !srcFinished && |trace| > 0
      ensures rc == EXIT_MMIO ==> end == AfterRead(insn, world, Now(), Answer())
      ensures rc == ERROR ==> end == Faulted(Now())
    {
      rc := OperandRead();
      if rc == EXIT_MMIO {
        assert Now() == Tell(m, l.access);
      } else {
        assert Now() == m;
      }
    }

    /** Computes and stores the result, as far as devices allow. */
    method ExecuteWrite(ghost end: Final, ghost left: nat) returns (rc: Status)
      requires WellFormed(insn) && Decoded() && cacheW == {} && srcFinished && !dstFinished && (insn.rep ==> Count(insn, View()) > 0)
      requires dstPending ==> InMemory(insn.dst) && end == AfterWrite(insn, world, Now())
      requires !dstPending ==> end == AfterRead(insn, world, Now(), srcValue)
      requires Left() <= left && rflags == flags == world.flags
      modifies this`cache, this`cacheR, this`cacheW, this`trace, this`mem, this`dstValue, this`dstPending, this`dstFinished,
               this`flags
      ensures CacheOk() && flags == world.flags
      ensures rc == CONTINUE ==> (insn.rep ==> View()[RCX] == old(View())[RCX] && dstValue < Range(insn.operandSize))
      ensures rc == CONTINUE ==> end == AfterWrite(insn, world, Now())
      ensures rc == EXIT_MMIO ==> Resumable() && Outlook() == end && Left() < left
      ensures rc == CONTINUE ==> 3 * Count(insn, View()) <= left
      ensures rc == ERROR ==> cacheW == {} && end == Faulted(Now())
    {
      ghost var m, v := Now(), srcValue;
      HandleDecoded();
      ghost var r := StoreResult(insn, world, m, dstValue);
      if !dstPending {
        ReadIs(insn, world, m, v, r);
      }
      rc := OperandWrite();
    }

    /** How far a round has got: less as it goes on. */
    ghost function Stage(): nat
      reads this`srcPending, this`dstPending
    {
      if dstPending then 0 else if srcPending then 1 else 2
    }

    /** The end of a round: registers move on and, for a repetition, operands are decoded again. */
    method FinishRound(ghost end: Final, ghost left: nat) returns (again: bool)
      requires CacheOk() && WellFormed(insn) && (insn.rep ==> Count(insn, View()) > 0) && end == AfterWrite(insn, world, Now())
      requires insn.rep ==> srcValue < Range(insn.srcSize) && dstValue < Range(insn.operandSize)
      requires 3 * Count(insn, View()) <= left && rflags == world.flags
      modifies this`regs, this`cache, this`cacheR, this`cacheW, this`srcEa, this`srcPending, this`srcFinished,
               this`dstEa, this`dstPending, this`dstFinished
      ensures CacheOk() && again == insn.rep
      ensures again ==> Resumable() && Outlook() == end && Left() < left
      ensures !again ==> end == Finished(Now())
    {
      ghost var m := Now();
      WriteIs(insn, world, m);
      AdvanceRegisters();
      ghost var m' := m.(regs := Advance(insn, world, m.regs));
      assert Now() == m';
      again := insn.rep;
      if insn.rep {
        DecodeOperands();
        CacheFlush();
        assert Now() == m';
      }
    }

    /** Whether a repeated instruction has no round left. */
    method CountedOut(ghost end: Final, ghost left: nat) returns (over: bool)
      requires WellFormed(insn) && Resumable() && end == Outlook() && left == Left()
      modifies this`cache, this`cacheR
      ensures Resumable() && Outlook() == end && View() == old(View()) && Left() == left
      ensures over ==> end == Finished(Now())
      ensures !over && insn.rep ==> Count(insn, View()) > 0
    {
      over := false;
      if insn.rep {
        ghost var m := Now();
        var count := GprRead(RCX, insn.addressSize, false);
        assert Now() == m;
        if count == 0 {
          NoMoreRounds(insn, world, m);
          over := true;
        }
      }
    }

    /** One round, from `restart` to the next: whether there is another one. */
    method Round(ghost end: Final, ghost left: nat) returns (rc: Status, again: bool)
      requires WellFormed(insn) && Resumable() && end == Outlook() && left == Left() && flags == world.flags
      modifies this`regs, this`cache, this`cacheR, this`cacheW, this`trace, this`mem, this`srcValue, this`srcEa, this`srcPending,
               this`srcFinished, this`dstValue, this`dstEa, this`dstPending, this`dstFinished,
               this`flags, this`rflags
      ensures CacheOk() && flags == world.flags && (again ==> rc == CONTINUE)
      ensures again ==> Resumable() && Outlook() == end && Left() < left
      ensures rc == CONTINUE && !again ==> end == Finished(Now())
      ensures rc == EXIT_MMIO ==> Resumable() && Outlook() == end && Left() < left
      ensures rc == ERROR ==> cacheW == {} && end == Faulted(Now())
    {
      again := false;
      var over := CountedOut(end, left);
      if over {
        return CONTINUE, false;
      }
      rflags := flags;
      rc, again := ReadAndStore(end, left);
    }

    /** The round, when there is one. */
    method ReadAndStore(ghost end: Final, ghost left: nat) returns (rc: Status, again: bool)
      requires WellFormed(insn) && Resumable() && end == Outlook() && left == Left() && rflags == flags == world.flags
      requires insn.rep ==> Count(insn, View()) > 0
      modifies this`regs, this`cache, this`cacheR, this`cacheW, this`trace, this`mem, this`srcValue, this`srcEa, this`srcPending,
               this`srcFinished, this`dstValue, this`dstEa, this`dstPending, this`dstFinished, this`flags
      ensures CacheOk() && flags == world.flags && (again ==> rc == CONTINUE)
      ensures again ==> Resumable() && Outlook() == end && Left() < left
      ensures rc == CONTINUE && !again ==> end == Finished(Now())
      ensures rc == EXIT_MMIO ==> Resumable() && Outlook() == end && Left() < left
      ensures rc == ERROR ==> cacheW == {} && end == Faulted(Now())
    {
      again := false;
      rc := ExecuteRead(end, left);
      if rc == CONTINUE {
        rc, again := StoreAndAdvance(end, left);
      }
    }

    /** The round, once the source is loaded. */
    method StoreAndAdvance(ghost end: Final, ghost left: nat) returns (rc: Status, again: bool)
      requires WellFormed(insn) && Decoded() && cacheW == {} && srcFinished && !dstFinished && (insn.rep ==> Count(insn, View()) > 0)
      requires dstPending ==> InMemory(insn.dst) && end == AfterWrite(insn, world, Now())
      requires !dstPending ==> end == AfterRead(insn, world, Now(), srcValue)
      requires Left() <= left && rflags == flags == world.flags
      modifies this`regs, this`cache, this`cacheR, this`cacheW, this`trace, this`mem, this`srcEa, this`srcPending,
               this`srcFinished, this`dstValue, this`dstEa, this`dstPending, this`dstFinished, this`flags
      ensures CacheOk() && flags == world.flags && (again ==> rc == CONTINUE)
      ensures again ==> Resumable() && Outlook() == end && Left() < left
      ensures rc == CONTINUE && !again ==> end == Finished(Now())
      ensures rc == EXIT_MMIO ==> Resumable() && Outlook() == end && Left() < left
      ensures rc == ERROR ==> cacheW == {} && end == Faulted(Now())
    {
      again := false;
      rc := ExecuteWrite(end, left);
      if rc == CONTINUE {
        again := FinishRound(end, left);
      }
    }

    /** Round after round, until there is no other or a device is needed. */
    method Rounds(ghost end: Final, ghost left: nat) returns (rc: Status)
      requires WellFormed(insn) && Resumable() && end == Outlook() && left == Left() && flags == world.flags
      modifies this`regs, this`cache, this`cacheR, this`cacheW, this`trace, this`mem, this`srcValue, this`srcEa, this`srcPending,
               this`srcFinished, this`dstValue, this`dstEa, this`dstPending, this`dstFinished,
               this`flags, this`rflags
      ensures CacheOk() && flags == world.flags
      ensures rc == CONTINUE ==> end == Finished(Now())
      ensures rc == EXIT_MMIO ==> Resumable() && Outlook() == end && Left() < left
      ensures rc == ERROR ==> cacheW == {} && end == Faulted(Now())
    {
      var again := true;
      rc := CONTINUE;
      while again
        invariant CacheOk() && flags == world.flags
        invariant again ==> rc == CONTINUE && Resumable() && Outlook() == end && Left() <= left
        invariant !again && rc == CONTINUE ==> end == Finished(Now())
        invariant !again && rc == EXIT_MMIO ==> Resumable() && Outlook() == end && Left() < left
        invariant !again && rc == ERROR ==> cacheW == {} && end == Faulted(Now())
        decreases again, if again then Left() else 0
      {
        rc, again := Round(end, Left());
      }
    }

    /** Leaving for a device drops the cache, in which nothing waits. */
    method Suspend(ghost end: Final, ghost left: nat)
      requires WellFormed(insn) && Resumable() && end == Outlook() && left == Left()
      modifies this`cacheR, this`cacheW
      ensures cacheR == {} && Resumable() && Outlook() == end && Left() == left
    {
      ghost var m := Now();
      CacheInvalidate();
      assert Now() == m;
    }

    /** The end: the instruction pointer moves on and the cache is written back. */
    method Complete(ghost end: Final)
      requires CacheOk() && end == Finished(Now())
      modifies this`regs, this`cacheR, this`cacheW, this`finished, this`advanced
      ensures cacheR == {} && cacheW == {} && finished && advanced == old(advanced) + 1
      ensures end == Finished(Machine(regs, mem, trace))
    {
      finished := true;
      advanced := advanced + 1;
      CacheFlush();
      CacheInvalidate();
    }

    method GiveUp(ghost end: Final)
      requires CacheOk() && cacheW == {} && end == Faulted(Now())
      modifies this`cacheR, this`cacheW
      ensures cacheR == {} && cacheW == {} && end == Faulted(Machine(regs, mem, trace))
    {
      CacheInvalidate();
    }

    /** The end of an entry: finished, waiting for a device, or given up. */
    method Leave(rc: Status, ghost end: Final, ghost left: nat)
      requires WellFormed(insn) && CacheOk() && !finished
      requires rc == CONTINUE ==> end == Finished(Now())
      requires rc == EXIT_MMIO ==> Resumable() && Outlook() == end && Left() < left
      requires rc == ERROR ==> cacheW == {} && end == Faulted(Now())
      modifies this`regs, this`cacheR, this`cacheW, this`finished, this`advanced
      ensures cacheR == {} && cacheW == {}
      ensures rc == CONTINUE ==> finished && advanced == old(advanced) + 1 && end == Finished(Machine(regs, mem, trace))
      ensures rc == EXIT_MMIO ==> !finished && advanced == old(advanced) && Resumable() && Outlook() == end && Left() < left
      ensures rc == ERROR ==> !finished && advanced == old(advanced) && end == Faulted(Machine(regs, mem, trace))
    {
      if rc == CONTINUE {
        Complete(end);
      } else if rc == EXIT_MMIO {
        Suspend(end, Left());
      } else {
        GiveUp(end);
      }
    }

    /** em_emulate_insn. Entered anew after each access to a device, until it is finished. */
    method EmulateInsn(ghost end: Final, ghost left: nat) returns (rc: Status)
      requires WellFormed(insn) && Resumable() && end == Outlook() && left == Left() && flags == world.flags && !finished
      modifies this
      ensures cacheR == {} && cacheW == {} && flags == world.flags
      ensures rc == CONTINUE ==> finished && advanced == old(advanced) + 1 && end == Finished(Machine(regs, mem, trace))
      ensures rc == EXIT_MMIO ==> !finished && advanced == old(advanced) && Resumable() && Outlook() == end && Left() < left
      ensures rc == ERROR ==> !finished && advanced == old(advanced) && end == Faulted(Machine(regs, mem, trace))
    {
      rc := Rounds(end, left);
      Leave(rc, end, left);
    }

    /** How much is left to do, in accesses. */
    ghost function Left(): nat
      requires WellFormed(insn) && |regs| == |cache| == 16
      reads this`regs, this`cache, this`cacheR, this`srcPending, this`dstPending
    {
      3 * Count(insn, View()) + Stage()
    }

    /** What a vcpu does with an instruction: run the emulator, let user space serve the access, run it
        again, and so on. All in all that is the direct interpreter. */
    method Drive() returns (ok: bool)
      requires WellFormed(insn) && Resumable() && !srcPending && !dstPending && flags == world.flags && !finished
      modifies this
      ensures flags == world.flags
      ensures ok ==> FromStart(insn, world, old(Now())) == Finished(Machine(regs, mem, trace)) && advanced == old(advanced) + 1
      ensures !ok ==> FromStart(insn, world, old(Now())) == Faulted(Machine(regs, mem, trace)) && advanced == old(advanced)
    {
      ghost var end := Outlook();
      var rc := EXIT_MMIO;
      while rc == EXIT_MMIO
        invariant flags == world.flags
        invariant rc == EXIT_MMIO ==> Resumable() && !finished && Outlook() == end && advanced == old(advanced)
        invariant rc == CONTINUE ==> end == Finished(Machine(regs, mem, trace)) && advanced == old(advanced) + 1
        invariant rc == ERROR ==> end == Faulted(Machine(regs, mem, trace)) && advanced == old(advanced)
        decreases if rc == EXIT_MMIO then 1 else 0, if rc == EXIT_MMIO then Left() else 0
      {
        rc := EmulateInsn(end, Left());
      }
      ok := rc == CONTINUE;
    }
  }

  lemma NoMoreRounds(i: Insn, w: World, m: Machine)
    requires WellFormed(i) && |m.regs| == 16 && i.rep && Count(i, m.regs) == 0
    ensures FromStart(i, w, m) == Finished(m)
  {
  }

  lemma WriteIs(i: Insn, w: World, m: Machine)
    requires WellFormed(i) && |m.regs| == 16 && (i.rep ==> Count(i, m.regs) > 0)
    ensures !i.rep ==> AfterWrite(i, w, m) == Finished(m.(regs := Advance(i, w, m.regs)))
    ensures i.rep ==> AfterWrite(i, w, m) == FromStart(i, w, m.(regs := Advance(i, w, m.regs)))
    ensures i.rep ==> Count(i, Advance(i, w, m.regs)) == Count(i, m.regs) - 1
  {
    if i.rep {
      CountDown(i, w, m.regs);
    }
  }

  /** n rounds take n off the whole count register and move the string pointers by n operands. */
  ghost predicate Moved(i: Insn, w: World, regs: seq<Word>, regs': seq<Word>, n: nat) {
    var step: int := if Backward(w.flags) then 0 - i.operandSize else i.operandSize;
    && |regs| == |regs'| == 16 && regs'[RCX] == regs[RCX] - n
    && regs'[RDI] == (if i.dst.StringDi? then Plus(regs[RDI], n * step) else regs[RDI])
    && regs'[RSI] == (if i.src.StringSi? then Plus(regs[RSI], n * step) else regs[RSI])
  }

  lemma MovedOneMore(i: Insn, w: World, regs: seq<Word>, regs1: seq<Word>, regs2: seq<Word>, regs': seq<Word>, n: nat, k: nat)
    requires WellFormed(i) && i.rep && |regs| == |regs1| == 16 && n == k + 1 && regs[RCX] > 0
    requires regs1[RCX] == regs[RCX] && regs1[RDI] == regs[RDI] && regs1[RSI] == regs[RSI]
    requires regs2 == Advance(i, w, regs1) && Moved(i, w, regs2, regs', k)
    ensures Moved(i, w, regs, regs', n)
  {
    var step: int := if Backward(w.flags) then 0 - i.operandSize else i.operandSize;
    AdvanceAt(i, w, regs1, step);
    OneStepMore(regs[RDI], step, k, n);
    OneStepMore(regs[RSI], step, k, n);
  }

  lemma AdvanceAt(i: Insn, w: World, regs: seq<Word>, step: int)
    requires WellFormed(i) && i.rep && |regs| == 16 && regs[RCX] > 0
    requires step == if Backward(w.flags) then 0 - i.operandSize else i.operandSize
    ensures var regs' := Advance(i, w, regs);
            && |regs'| == 16 && regs'[RCX] == regs[RCX] - 1
            && regs'[RDI] == (if i.dst.StringDi? then Plus(regs[RDI], step) else regs[RDI])
            && regs'[RSI] == (if i.src.StringSi? then Plus(regs[RSI], step) else regs[RSI])
  {
    assert Plus(regs[RCX], -1) == regs[RCX] - 1;
  }

  lemma OneStepMore(x: Word, step: int, k: nat, n: nat)
    requires n == k + 1
    ensures Plus(Plus(x, step), k * step) == Plus(x, n * step)
  {
    var far := k * step;
    assert n * step == step + far;
    PlusPlus(x, step, far);
  }

  /** A repeated instruction that finishes has made exactly as many rounds as the count register said, in
      the bytes that the address size selects. */
  lemma {:induction false} RepRounds(i: Insn, w: World, m: Machine, end: Final, n: nat)
    requires WellFormed(i) && |m.regs| == 16 && i.rep && end == FromStart(i, w, m) && end.Finished? && n == Count(i, m.regs)
    ensures Moved(i, w, m.regs, end.machine.regs, n)
    decreases n
  {
    if n == 0 {
      NoMoreRounds(i, w, m);
    } else {
      var k := n - 1;
      var m1, m2 := OneRound(i, w, m, end);
      RepRounds(i, w, m2, end, k);
      MovedOneMore(i, w, m.regs, m1.regs, m2.regs, end.machine.regs, n, k);
    }
  }

  /** A round: the machine once the result is stored, and at the start of the next one. */
  lemma OneRound(i: Insn, w: World, m: Machine, end: Final) returns (m1: Machine, m2: Machine)
    requires WellFormed(i) && |m.regs| == 16 && i.rep && Count(i, m.regs) > 0 && end == FromStart(i, w, m) && end.Finished?
    ensures |m1.regs| == |m2.regs| == 16 && m.regs[RCX] > 0 && m1.regs[RCX] == m.regs[RCX] && m1.regs[RDI] == m.regs[RDI] && m1.regs[RSI] == m.regs[RSI]
    ensures m2.regs == Advance(i, w, m1.regs) && Count(i, m2.regs) == Count(i, m.regs) - 1 && end == FromStart(i, w, m2)
  {
    CountNotZero(i, m.regs);
    m1 := AfterOne(i, w, m, end);
    m2 := NextRound(i, w, m1, end);
  }

  lemma CountNotZero(i: Insn, regs: seq<Word>)
    requires WellFormed(i) && |regs| == 16 && i.rep && Count(i, regs) > 0
    ensures regs[RCX] > 0
  {
  }

  lemma NextRound(i: Insn, w: World, m1: Machine, end: Final) returns (m2: Machine)
    requires WellFormed(i) && |m1.regs| == 16 && i.rep && Count(i, m1.regs) > 0 && end == AfterWrite(i, w, m1)
    ensures |m2.regs| == 16 && m2.regs == Advance(i, w, m1.regs)
    ensures Count(i, m2.regs) == Count(i, m1.regs) - 1 && end == FromStart(i, w, m2)
  {
    WriteIs(i, w, m1);
    m2 := m1.(regs := Advance(i, w, m1.regs));
  }

  /** The machine once a round has stored its result. */
  lemma AfterOne(i: Insn, w: World, m: Machine, end: Final) returns (m1: Machine)
    requires WellFormed(i) && |m.regs| == 16 && i.rep && Count(i, m.regs) > 0 && end == FromStart(i, w, m) && end.Finished?
    ensures |m1.regs| == 16 && m1.regs[RCX] == m.regs[RCX] && m1.regs[RDI] == m.regs[RDI] && m1.regs[RSI] == m.regs[RSI]
    ensures Count(i, m1.regs) == Count(i, m.regs) && end == AfterWrite(i, w, m1)
  {
    var l := LoadSource(i, w, m);
    StartIs(i, w, m, l, end);
    var v := if l.Value? then l.v else Get(w.answer(|m.trace|), i.srcSize, false);
    var m0 := if l.Asked? then Tell(m, l.access) else m;
    var r := StoreResult(i, w, m0, Result(i, v));
    ReadIs(i, w, m0, v, r);
    m1 := if r.Sent? then Tell(m0, r.access) else if r.Kept? then r.machine else m0;
  }

  lemma PlusPlus(x: Word, a: int, b: int)
    ensures Plus(Plus(x, a), b) == Plus(x, a + b)
  {
    var k := 0x1_0000_0000_0000_0000;
    var q := (x + a) / k;
    assert Plus(x, a) == x + a - q * k;
    assert x + a - q * k + b == x + (a + b) - q * k;
    ModShift(x + (a + b), q);
  }

  lemma ModShift(y: int, q: int)
    ensures (y - q * 0x1_0000_0000_0000_0000) % 0x1_0000_0000_0000_0000 == y % 0x1_0000_0000_0000_0000
  {
  }

  lemma StartIs(i: Insn, w: World, m: Machine, l: Loaded, end: Final)
    requires WellFormed(i) && |m.regs| == 16 && (i.rep ==> Count(i, m.regs) > 0)
    requires l == LoadSource(i, w, m) && end == FromStart(i, w, m)
    ensures l.Value? ==> end == AfterRead(i, w, m, l.v)
    ensures l.Asked? ==> end == AfterRead(i, w, Tell(m, l.access), Get(w.answer(|m.trace|), i.srcSize, false))
    ensures l.Missing? ==> end == Faulted(m)
  {
  }

  lemma ReadIs(i: Insn, w: World, m: Machine, v: Word, r: Stored)
    requires WellFormed(i) && |m.regs| == 16 && (i.rep ==> Count(i, m.regs) > 0) && r == StoreResult(i, w, m, Result(i, v))
    ensures r.Kept? ==> AfterRead(i, w, m, v) == AfterWrite(i, w, r.machine)
    ensures r.Sent? ==> AfterRead(i, w, m, v) == AfterWrite(i, w, Tell(m, r.access))
    ensures r.Refused? ==> AfterRead(i, w, m, v) == Faulted(m)
  {
  }

  lemma PutAll(w: Word, v: Word)
    ensures Put(w, 8, v, false) == v && Get(v, 8, false) == v
  {
  }

  /** Copying all the bytes a small word has. */
  lemma PutWhole(w: Word, n: nat, v: Word)
    requires IsSize(n) && w < Range(n)
    ensures Put(w, n, v, false) == Get(v, n, false) < Range(n)
    ensures v < Range(n) ==> Put(w, n, v, false) == v
  {
  }
}
