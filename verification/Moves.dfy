/**
 What the definitions that the emulator and the direct interpreter share compute, as numbers and as bytes: the
 extension of a value, the address of an operand, the order of bytes in memory, and the parts of a register.
 */
module Moves {
  import opened Memslots
  import opened Emulator

  // ---- Division ----------------------------------------------------------------------------------

  lemma DivIs(x: int, a: int, q: int, r: int)
    requires a > 0 && x == a * q + r && 0 <= r < a
    ensures x / a == q && x % a == r
  {
    var d := x / a - q;
    assert x == a * (x / a) + x % a;
    assert a * d == a * (x / a) - a * q;
    assert a * d == r - x % a && a * -d == -(a * d);
    if d >= 1 {
      AtLeast(a, d);
    } else if d <= -1 {
      AtLeast(a, -d);
    }
  }

  lemma AtLeast(a: int, d: int)
    requires a > 0 && d >= 1
    ensures a * d >= a
  {
    assert a * d == a * (d - 1) + a;
  }

  /** Cutting a number changes it by a multiple. */
  lemma Cut(x: nat, a: nat)
    requires a > 0
    ensures (x % a - x) % a == 0
  {
    var q := x / a;
    assert x == a * q + x % a;
    assert x % a - x == a * -q + 0;
    DivIs(x % a - x, a, -q, 0);
  }

  /** A number in parts: what is above a * b, what is between, and what is below a. */
  lemma Parts(x: nat, a: nat, b: nat)
    requires a > 0 && b > 0 && a * b > 0
    ensures x / (a * b) == x / a / b
    ensures x % (a * b) == x / a % b * a + x % a
    ensures x % (a * b) / a == x / a % b && x % (a * b) % a == x % a
  {
    var y, l := x / a, x % a;
    var q, m := y / b, y % b;
    assert x == a * y + l && y == b * q + m;
    Distribute(a, b, q, m);
    Below(a, b, m, l);
    DivIs(x, a * b, q, a * m + l);
    DivIs(a * m + l, a, m, l);
  }

  lemma Distribute(a: int, b: int, q: int, m: int)
    ensures a * (b * q + m) == (a * b) * q + a * m
  {
  }

  lemma Below(a: int, b: int, m: int, l: int)
    requires a > 0 && 0 <= m < b && 0 <= l < a
    ensures 0 <= a * m + l < a * b
  {
    AtLeast(a, b - m);
    assert a * (b - m) == a * b - a * m;
  }

  // ---- Values ------------------------------------------------------------------------------------

  /** n bytes read as a number in two's complement. */
  function Signed(x: nat, n: nat): int
    requires IsSize(n) && x < Range(n)
  {
    if x < Range(n) / 2 then x else x - Range(n)
  }

  /** MOVSX keeps the number that the source bytes are in two's complement. */
  lemma MovsxMeans(i: Insn, v: Word)
    requires WellFormed(i) && i.handler == Movsx && i.srcSize <= i.operandSize
    ensures Result(i, v) < Range(i.operandSize)
    ensures Signed(Result(i, v), i.operandSize) == Signed(v % Range(i.srcSize), i.srcSize)
  {
    var half, low := Range(i.srcSize) / 2, v % Range(i.srcSize);
    TopBit(v, i.srcSize);
    Filled(i.operandSize, i.srcSize, if low >= half then 0xffff_ffff_ffff_ffff else 0, v, low);
  }

  /** The test of the source is the top bit of its bytes. */
  lemma TopBit(v: Word, n: nat)
    requires IsSize(n)
    ensures v / (Range(n) / 2) % 2 == 1 <==> v % Range(n) >= Range(n) / 2
  {
    var half := Range(n) / 2;
    assert half * 2 == Range(n);
    Parts(v, half, 2);
    assert v / half % 2 * half + v % half == v % Range(n);
  }

  lemma Filled(n: nat, k: nat, extension: Word, v: Word, low: Word)
    requires IsSize(n) && IsSize(k) && k <= n && (extension == 0 || extension == 0xffff_ffff_ffff_ffff) && low == v % Range(k)
    ensures Put(Put(0, n, extension, false), k, v, false) == if extension == 0 then low else Range(n) - Range(k) + low
  {
    var x := Put(0, n, extension, false);
    assert x == if extension == 0 then 0 else Range(n) - 1;
    assert x % Range(k) == if extension == 0 then 0 else Range(k) - 1;
  }

  /** MOVZX and MOV keep the number that the source bytes are without a sign. */
  lemma MovzxMeans(i: Insn, v: Word)
    requires WellFormed(i) && i.handler != Movsx && i.srcSize <= i.operandSize
    ensures Result(i, v) < Range(i.operandSize) && Result(i, v) == v % Range(i.srcSize)
  {
  }

  // ---- Bytes -------------------------------------------------------------------------------------

  function Pow256(k: nat): (r: nat)
    ensures r > 0
  {
    if k == 0 then 1 else 0x100 * Pow256(k - 1)
  }

  /** Byte k of a number, counted from the little end. */
  function Byte(x: int, k: nat): int {
    x / Pow256(k) % 0x100
  }

  lemma {:induction false} PowAdd(a: nat, b: nat)
    ensures Pow256(a + b) == Pow256(a) * Pow256(b)
  {
    if a > 0 {
      PowAdd(a - 1, b);
      assert Pow256(a + b) == 0x100 * (Pow256(a - 1) * Pow256(b));
    }
  }

  lemma RangeIs(n: nat)
    requires IsSize(n)
    ensures Range(n) == Pow256(n)
  {
    assert Pow256(1) == 0x100 && Pow256(2) == 0x1_0000;
    PowAdd(2, 2);
    PowAdd(4, 4);
  }

  /** Above n bytes, the bytes of the quotient. */
  lemma ByteHigh(x: nat, n: nat, k: nat)
    ensures Byte(x, n + k) == Byte(x / Pow256(n), k)
  {
    PowAdd(n, k);
    Parts(x, Pow256(n), Pow256(k));
  }

  /** Below n bytes, the bytes of the remainder. */
  lemma ByteLow(x: nat, n: nat, k: nat)
    requires k < n
    ensures Byte(x % Pow256(n), k) == Byte(x, k)
  {
    var a, b := Pow256(k), Pow256(n - k);
    PowAdd(k, n - k);
    Parts(x, a, b);
    assert b == 0x100 * Pow256(n - k - 1);
    Parts(x / a, 0x100, Pow256(n - k - 1));
  }

  /** A number below 256^n has no bytes from n on. */
  lemma ByteNone(x: nat, n: nat, k: nat)
    requires x < Pow256(n)
    ensures Byte(x, n + k) == 0
  {
    ByteHigh(x, n, k);
    DivIs(x, Pow256(n), 0, x);
    DivIs(0, Pow256(k), 0, 0);
  }

  /** Copying into a word changes the bytes asked for and no other. */
  lemma PutBytes(w: Word, n: nat, v: Word, high: bool, k: nat)
    requires IsSize(n) && (high ==> n == 1)
    ensures Byte(Put(w, n, v, high), k) ==
            if high then (if k == 1 then Byte(v, 0) else Byte(w, k)) else if k < n then Byte(v, k) else Byte(w, k)
  {
    if high {
      PutHigh(w, v, k);
    } else {
      RangeIs(n);
      var p, x := Pow256(n), Put(w, n, v, false);
      assert w == p * (w / p) + w % p;
      DivIs(x, p, w / p, v % p);
      if k < n {
        ByteLow(x, n, k);
        ByteLow(v, n, k);
      } else {
        ByteHigh(x, n, k - n);
        ByteHigh(w, n, k - n);
      }
    }
  }

  lemma PutHigh(w: Word, v: Word, k: nat)
    ensures Byte(Put(w, 1, v, true), k) == if k == 1 then Byte(v, 0) else Byte(w, k)
  {
    var x, y := Put(w, 1, v, true), w / 0x100;
    var h, m, l := y / 0x100, y % 0x100, w % 0x100;
    assert w == 0x100 * y + l && y == 0x100 * h + m;
    var y' := 0x100 * h + v % 0x100;
    assert x == 0x100 * y' + l;
    DivIs(x, 0x100, y', l);
    DivIs(y', 0x100, h, v % 0x100);
    assert Pow256(0) == 1 && Pow256(1) == 0x100;
    if k >= 2 {
      Shifted(x, k - 2);
      Shifted(w, k - 2);
    } else if k == 1 {
      ByteHigh(x, 1, 0);
    }
  }

  lemma Shifted(x: nat, k: nat)
    ensures Byte(x, k + 2) == Byte(x / 0x100 / 0x100, k)
  {
    assert Pow256(1) == 0x100;
    ByteHigh(x, 1, k + 1);
    ByteHigh(x / 0x100, 1, k);
  }

  /** What is read of a register are its bytes, with zeroes above. */
  lemma GetBytes(w: Word, n: nat, high: bool, k: nat)
    requires IsSize(n) && (high ==> n == 1)
    ensures Byte(Get(w, n, high), k) == if k < n then Byte(w, if high then 1 else k) else 0
  {
    RangeIs(n);
    var x := Get(w, n, high);
    assert Pow256(0) == 1 && Pow256(1) == 0x100;
    if k >= n {
      ByteNone(x, n, k - n);
    } else if !high {
      ByteLow(w, n, k);
    }
  }

  /** A register that is written keeps the bytes above the operand, except that four bytes are written as eight; every
      other register stays as it is. */
  lemma StoreRegMeans(i: Insn, regs: seq<Word>, v: Word, r: nat, k: nat)
    requires WellFormed(i) && i.dst.Reg? && |regs| == 16 && r < 16 && k < 8
    ensures var after := StoreReg(i, regs, v);
            |after| == 16 &&
            Byte(after[r], k) ==
              if r != i.dst.index then Byte(regs[r], k)
              else if i.dst.high then (if k == 1 then Byte(v, 0) else Byte(regs[r], k))
              else if i.operandSize >= 4 || k < i.operandSize then Byte(v, k) else Byte(regs[r], k)
  {
    PutBytes(regs[i.dst.index], if i.operandSize == 4 then 8 else i.operandSize, v, i.dst.high, k);
  }

  // ---- Addresses ---------------------------------------------------------------------------------

  /** Adding wraps around at 2^64. */
  lemma PlusMeans(w: Word, k: int)
    ensures (Plus(w, k) - (w + k)) % 0x1_0000_0000_0000_0000 == 0
  {
  }

  /** The sum of offset and segment base, cut to 20 or 32 bits; in 64-bit mode only FS and GS have a base, and bits 47 to
      63 of the address are all alike. */
  lemma LinearMeans(w: World, addressSize: nat, ea: Word, seg: nat)
    requires IsSize(addressSize)
    ensures var la, offset := Linear(w, addressSize, ea, seg), ea % Range(addressSize);
            match w.mode
            case Real => la < 0x10_0000 && (la - (offset + w.base(seg))) % 0x10_0000 == 0
            case Prot16 => la < 0x1_0000_0000 && (la - (offset + w.base(seg))) % 0x1_0000_0000 == 0
            case Prot32 => la < 0x1_0000_0000 && (la - (offset + w.base(seg))) % 0x1_0000_0000 == 0
            case Prot64 =>
              && (la < 0x8000_0000_0000 || la >= 0xffff_8000_0000_0000)
              && (la - (offset + if seg == SEG_FS || seg == SEG_GS then w.base(seg) else 0)) % 0x1_0000_0000_0000 == 0
  {
    var offset := ea % Range(addressSize);
    match w.mode
    case Prot64 =>
      var base := if seg == SEG_FS || seg == SEG_GS then w.base(seg) else 0;
      PlusNothing(offset);
      CutCanonical(offset + base, Plus(offset, base));
    case _ =>
      CutSum(offset + w.base(seg), Plus(offset, w.base(seg)));
  }

  lemma CutSum(sum: nat, a: Word)
    requires a == sum % 0x1_0000_0000_0000_0000
    ensures (a % 0x10_0000 - sum) % 0x10_0000 == 0 && (a % 0x1_0000_0000 - sum) % 0x1_0000_0000 == 0
  {
    Parts(sum, 0x10_0000, 0x1000_0000_0000);
    Cut(sum, 0x10_0000);
    Parts(sum, 0x1_0000_0000, 0x1_0000_0000);
    Cut(sum, 0x1_0000_0000);
  }

  lemma CutCanonical(sum: nat, a: Word)
    requires a == sum % 0x1_0000_0000_0000_0000
    ensures Emulator.Canonical(a) < 0x8000_0000_0000 || Emulator.Canonical(a) >= 0xffff_8000_0000_0000
    ensures (Emulator.Canonical(a) - sum) % 0x1_0000_0000_0000 == 0
  {
  }

  /** The direction flag is bit 10. */
  lemma BackwardMeans(flags: Word)
    ensures Backward(flags) <==> flags % 0x800 >= 0x400
  {
    Parts(flags, 0x400, 2);
  }

  // ---- Memory ------------------------------------------------------------------------------------

  lemma PlusPlus(la: Word, k: nat)
    ensures Plus(Plus(la, 1), k) == Plus(la, k + 1)
  {
  }

  lemma PlusNothing(la: Word)
    ensures Plus(la, 0) == la
  {
  }

  /** Where byte k of an operand at a linear address is. */
  function At(w: World, la: Word, k: nat): Word {
    w.translate(Plus(la, k))
  }

  ghost predicate Reachable(mem: Memory, w: World, la: Word, n: nat) {
    forall k: nat :: k < n ==> At(w, la, k) in mem
  }

  lemma ReachableRest(mem: Memory, w: World, la: Word, n: nat)
    requires n > 0
    ensures Reachable(mem, w, la, n) <==> w.translate(la) in mem && Reachable(mem, w, Plus(la, 1), n - 1)
  {
    PlusNothing(la);
    forall k: nat ensures At(w, Plus(la, 1), k) == At(w, la, k + 1) {
      PlusPlus(la, k);
    }
    if w.translate(la) in mem && Reachable(mem, w, Plus(la, 1), n - 1) {
      forall k: nat | k < n ensures At(w, la, k) in mem {
        if k > 0 {
          assert At(w, Plus(la, 1), k - 1) in mem;
        } else {
          assert At(w, la, 0) == w.translate(la);
        }
      }
    }
    if Reachable(mem, w, la, n) {
      assert At(w, la, 0) in mem;
      forall k: nat | k < n - 1 ensures At(w, Plus(la, 1), k) in mem {
        assert At(w, la, k + 1) in mem;
      }
    }
  }

  /** A load fails exactly if some byte cannot be reached. */
  lemma {:induction false} LoadReaches(mem: Memory, w: World, la: Word, n: nat)
    ensures Load(mem, w, la, n).Some? <==> Reachable(mem, w, la, n)
    decreases n
  {
    if n > 0 {
      ReachableRest(mem, w, la, n);
      LoadReaches(mem, w, Plus(la, 1), n - 1);
    }
  }

  /** Byte k of what is loaded is the byte at the translation of the k-th address, and there are no others. */
  lemma {:induction false} LoadMeans(mem: Memory, w: World, la: Word, n: nat, k: nat)
    requires Load(mem, w, la, n).Some?
    ensures var x := Load(mem, w, la, n).value;
            if k < n then At(w, la, k) in mem && Byte(x, k) == mem[At(w, la, k)] % 0x100 else Byte(x, k) == 0
    decreases n
  {
    var x := Load(mem, w, la, n).value;
    if n == 0 {
      DivIs(0, Pow256(k), 0, 0);
    } else {
      var rest, b := Load(mem, w, Plus(la, 1), n - 1).value, mem[w.translate(la)] % 0x100;
      PlusNothing(la);
      FirstByte(x, b, rest);
      if k > 0 {
        LoadMeans(mem, w, Plus(la, 1), n - 1, k - 1);
        PlusPlus(la, k - 1);
        NextByte(x, b, rest, k - 1);
      }
    }
  }

  lemma FirstByte(x: nat, b: nat, rest: nat)
    requires x == b + 0x100 * rest && b < 0x100
    ensures Byte(x, 0) == b
  {
    assert Pow256(0) == 1;
  }

  lemma NextByte(x: nat, b: nat, rest: nat, k: nat)
    requires x == b + 0x100 * rest && b < 0x100
    ensures Byte(x, k + 1) == Byte(rest, k)
  {
    assert Pow256(1) == 0x100;
    DivIs(x, 0x100, rest, b);
    ByteHigh(x, 1, k);
  }

  /** A store fails exactly if some byte cannot be reached. */
  lemma {:induction false} StoreReaches(mem: Memory, w: World, la: Word, n: nat, v: nat)
    ensures Store(mem, w, la, n, v).Some? <==> Reachable(mem, w, la, n)
    ensures Store(mem, w, la, n, v).Some? ==> Store(mem, w, la, n, v).value.Keys == mem.Keys
    decreases n
  {
    if n > 0 {
      ReachableRest(mem, w, la, n);
      if w.translate(la) in mem {
        var mem1 := mem[w.translate(la) := v % 0x100];
        assert mem1.Keys == mem.Keys;
        StoreReaches(mem1, w, Plus(la, 1), n - 1, v / 0x100);
        assert Reachable(mem1, w, Plus(la, 1), n - 1) <==> Reachable(mem, w, Plus(la, 1), n - 1);
      }
    }
  }

  /** No byte changes but those at the translations of the operand's addresses. */
  lemma {:induction false} StoreElsewhere(mem: Memory, w: World, la: Word, n: nat, v: nat, a: Word)
    requires Store(mem, w, la, n, v).Some? && a in mem && forall k: nat :: k < n ==> At(w, la, k) != a
    ensures a in Store(mem, w, la, n, v).value && Store(mem, w, la, n, v).value[a] == mem[a]
    decreases n
  {
    if n > 0 {
      PlusNothing(la);
      assert At(w, la, 0) != a;
      forall k: nat | k < n - 1 ensures At(w, Plus(la, 1), k) != a {
        PlusPlus(la, k);
        assert At(w, la, k + 1) != a;
      }
      StoreElsewhere(mem[w.translate(la) := v % 0x100], w, Plus(la, 1), n - 1, v / 0x100, a);
    }
  }

  /** Byte k of what is stored is at the translation of the k-th address, unless a later byte has the same. */
  lemma {:induction false} StoreMeans(mem: Memory, w: World, la: Word, n: nat, v: nat, k: nat)
    requires Store(mem, w, la, n, v).Some? && k < n && forall j: nat :: k < j < n ==> At(w, la, j) != At(w, la, k)
    ensures var mem' := Store(mem, w, la, n, v).value; At(w, la, k) in mem' && mem'[At(w, la, k)] == Byte(v, k)
    decreases n
  {
    var mem1, rest := mem[w.translate(la) := v % 0x100], v / 0x100;
    PlusNothing(la);
    if k == 0 {
      forall j: nat | j < n - 1 ensures At(w, Plus(la, 1), j) != At(w, la, 0) {
        PlusPlus(la, j);
        assert At(w, la, j + 1) != At(w, la, 0);
      }
      StoreElsewhere(mem1, w, Plus(la, 1), n - 1, rest, At(w, la, 0));
      FirstByte(v, v % 0x100, rest);
    } else {
      PlusPlus(la, k - 1);
      forall j: nat | k - 1 < j < n - 1 ensures At(w, Plus(la, 1), j) != At(w, Plus(la, 1), k - 1) {
        PlusPlus(la, j);
        assert At(w, la, j + 1) != At(w, la, k);
      }
      StoreMeans(mem1, w, Plus(la, 1), n - 1, rest, k - 1);
      NextByte(v, v % 0x100, rest, k - 1);
    }
  }

  // ---- Strings -----------------------------------------------------------------------------------

  /** String pointers move up by the size of the operand, or down if the direction flag is set; the count of a repeated
      instruction goes down by one; no other register changes. */
  lemma AdvanceMeans(i: Insn, w: World, regs: seq<Word>, r: nat)
    requires WellFormed(i) && |regs| == 16 && r < 16
    ensures var after := Advance(i, w, regs);
            var step: int := if w.flags % 0x800 >= 0x400 then 0 - i.operandSize else i.operandSize;
            var moved: int := if r == RDI && i.dst.StringDi? then step else if r == RSI && i.src.StringSi? then step
                              else if r == RCX && i.rep then -1 else 0;
            |after| == 16 && (after[r] - (regs[r] + moved)) % 0x1_0000_0000_0000_0000 == 0
  {
    BackwardMeans(w.flags);
    var step: int := if Backward(w.flags) then 0 - i.operandSize else i.operandSize;
    PlusMeans(regs[r], step);
    PlusMeans(regs[r], -1);
  }

  // ---- A whole instruction -----------------------------------------------------------------------

  /** A move between registers: the bytes that the destination ends with, and that nothing else changes. */
  lemma RegisterMove(i: Insn, w: World, m: Machine, x: Word, r: nat, k: nat)
    requires WellFormed(i) && |m.regs| == 16 && !i.rep && i.src.Reg? && i.dst.Reg? && i.srcSize <= i.operandSize
    requires x == Get(m.regs[i.src.index], i.srcSize, i.src.high) && r < 16 && k < 8
    ensures FromStart(i, w, m).Finished? && |FromStart(i, w, m).machine.regs| == 16
    ensures FromStart(i, w, m).machine == m.(regs := FromStart(i, w, m).machine.regs)
    ensures Result(i, x) < Range(i.operandSize)
    ensures if i.handler == Movsx then Signed(Result(i, x), i.operandSize) == Signed(x % Range(i.srcSize), i.srcSize)
            else Result(i, x) == x % Range(i.srcSize)
    ensures Byte(FromStart(i, w, m).machine.regs[r], k) ==
              if r != i.dst.index then Byte(m.regs[r], k)
              else if i.dst.high then (if k == 1 then Byte(Result(i, x), 0) else Byte(m.regs[r], k))
              else if i.operandSize >= 4 || k < i.operandSize then Byte(Result(i, x), k) else Byte(m.regs[r], k)
  {
    if i.handler == Movsx {
      MovsxMeans(i, x);
    } else {
      MovzxMeans(i, x);
    }
    StoreRegMeans(i, m.regs, Result(i, x), r, k);
    RegisterMoveIs(i, w, m, x);
  }

  lemma RegisterMoveIs(i: Insn, w: World, m: Machine, x: Word)
    requires WellFormed(i) && |m.regs| == 16 && !i.rep && i.src.Reg? && i.dst.Reg?
    requires x == Get(m.regs[i.src.index], i.srcSize, i.src.high)
    ensures FromStart(i, w, m) == Finished(m.(regs := StoreReg(i, m.regs, Result(i, x))))
  {
    var m' := m.(regs := StoreReg(i, m.regs, Result(i, x)));
    assert StoreResult(i, w, m, Result(i, x)) == Kept(m');
    assert LoadSource(i, w, m) == Value(x);
    assert FromStart(i, w, m) == AfterRead(i, w, m, x);
    assert AfterRead(i, w, m, x) == AfterWrite(i, w, m');
    assert AfterWrite(i, w, m') == Finished(m'.(regs := Advance(i, w, m'.regs)));
  }
}
