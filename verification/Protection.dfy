/** The protection bitmap: one bit for each guest page frame, changed a block of bits at a time. */
module Protection {
  import opened Ramblocks

  /** Bit j of a byte. */
  predicate BitOf(byte: bv8, j: bv8)
    requires j < 8
  {
    (byte >> j) & 1 == 1
  }

  /** set_bits_in_byte, with its mask. Only the low eight bits of the mask matter, so byte arithmetic
      gives what the source computes in wider words. */
  function SetBitsInByte(byte: bv8, start: bv8, nbits: bv8, on: bool): bv8
    requires start < 8 && nbits <= 8 && start + nbits <= 8
  {
    var mask: bv8 := (((1 as bv8) << nbits) - 1) << start;
    if on then byte | mask else byte & !mask
  }

  lemma SetsThoseBits(byte: bv8, start: bv8, nbits: bv8, on: bool, j: bv8)
    requires start < 8 && nbits <= 8 && start + nbits <= 8 && j < 8
    ensures BitOf(SetBitsInByte(byte, start, nbits, on), j) <==> if start <= j < start + nbits then on else BitOf(byte, j)
  {
  }

  lemma WholeByte(j: bv8)
    requires j < 8
    ensures BitOf(0xff, j) && !BitOf(0, j)
  {
  }

  /** Small numbers keep their order as bytes. */
  lemma SmallOrder(i: nat, j: nat)
    requires i <= 8 && j <= 8
    ensures i as bv8 <= j as bv8 <==> i <= j
    ensures i < 8 ==> i as bv8 < 8
  {
  }

  lemma SmallSum(i: nat, j: nat)
    requires i + j <= 8
    ensures i as bv8 + j as bv8 == (i + j) as bv8
  {
  }

  /** Bits lo to lo + n - 1 of a byte. */
  function SetBits(byte: bv8, lo: nat, n: nat, on: bool): bv8
    requires lo < 8 && lo + n <= 8
  {
    SmallOrder(lo, 8);
    SmallOrder(n, 8);
    SmallSum(lo, n);
    SmallOrder(lo + n, 8);
    SetBitsInByte(byte, lo as bv8, n as bv8, on)
  }

  predicate BitIn(byte: bv8, j: nat)
    requires j < 8
  {
    SmallOrder(j, 8);
    BitOf(byte, j as bv8)
  }

  lemma SetBitsAt(byte: bv8, lo: nat, n: nat, on: bool, j: nat)
    requires lo < 8 && lo + n <= 8 && j < 8
    ensures BitIn(SetBits(byte, lo, n, on), j) <==> if lo <= j < lo + n then on else BitIn(byte, j)
  {
    SmallOrder(lo, 8);
    SmallOrder(n, 8);
    SmallOrder(j, 8);
    SmallSum(lo, n);
    SmallOrder(lo + n, 8);
    SmallOrder(lo, j);
    SmallOrder(lo + n, j);
    SetsThoseBits(byte, lo as bv8, n as bv8, on, j as bv8);
  }

  lemma WholeByteAt(j: nat)
    requires j < 8
    ensures BitIn(0xff, j) && !BitIn(0, j)
  {
    SmallOrder(j, 8);
    WholeByte(j as bv8);
  }

  /** Whether the bit of a gfn is set. */
  predicate Bit(bytes: seq<bv8>, g: nat)
    requires g < 8 * |bytes|
  {
    BitIn(bytes[g / 8], g % 8)
  }

  /** Byte i once bits start to start + nbits - 1 are set or cleared. */
  function ByteAfter(byte: bv8, i: nat, start: nat, nbits: nat, on: bool): bv8
    requires nbits > 0
  {
    var first, last := start / 8, (start + nbits - 1) / 8;
    var lo, hi := start % 8, (start + nbits - 1) % 8;
    if i < first || last < i then byte
    else if first == last then SetBits(byte, lo, nbits, on)
    else if i == first then SetBits(byte, lo, 8 - lo, on)
    else if i == last then SetBits(byte, 0, hi + 1, on)
    else if on then 0xff else 0
  }

  lemma ByteAfterBit(byte: bv8, i: nat, start: nat, nbits: nat, on: bool, j: nat)
    requires nbits > 0 && j < 8
    ensures BitIn(ByteAfter(byte, i, start, nbits, on), j) <==>
            if start <= 8 * i + j < start + nbits then on else BitIn(byte, j)
  {
    var first, last := start / 8, (start + nbits - 1) / 8;
    var lo, hi := start % 8, (start + nbits - 1) % 8;
    if i < first || last < i {
    } else if first == last {
      SetBitsAt(byte, lo, nbits, on, j);
    } else if i == first {
      SetBitsAt(byte, lo, 8 - lo, on, j);
    } else if i == last {
      SetBitsAt(byte, 0, hi + 1, on, j);
    } else {
      WholeByteAt(j);
    }
  }

  /** set_bit_block changes exactly the bits asked for. */
  method SetBitBlock(bitmap: array<bv8>, start: nat, nbits: nat, on: bool)
    requires nbits > 0 && start + nbits <= 8 * bitmap.Length
    modifies bitmap
    ensures forall g: nat :: g < 8 * bitmap.Length ==>
              (Bit(bitmap[..], g) <==> if start <= g < start + nbits then on else Bit(old(bitmap[..]), g))
  {
    var first, last := start / 8, (start + nbits - 1) / 8;
    var lo, hi := start % 8, (start + nbits - 1) % 8;
    ghost var before := bitmap[..];
    if first == last {
      bitmap[first] := SetBits(bitmap[first], lo, nbits, on);
    } else {
      bitmap[first] := SetBits(bitmap[first], lo, 8 - lo, on);
      for i := first + 1 to last
        invariant forall k :: 0 <= k < i ==> bitmap[k] == ByteAfter(before[k], k, start, nbits, on)
        invariant forall k :: i <= k < bitmap.Length ==> bitmap[k] == before[k]
      {
        bitmap[i] := if on then 0xff else 0;
      }
      bitmap[last] := SetBits(bitmap[last], 0, hi + 1, on);
    }
    forall g: nat | g < 8 * bitmap.Length
      ensures Bit(bitmap[..], g) <==> if start <= g < start + nbits then on else Bit(before, g)
    {
      assert bitmap[g / 8] == ByteAfter(before[g / 8], g / 8, start, nbits, on);
      ByteAfterBit(before[g / 8], g / 8, start, nbits, on, g % 8);
    }
  }

  /** gpa_space_is_page_protected */
  predicate PageProtected(bytes: seq<bv8>, endGfn: nat, g: nat)
    requires endGfn <= 8 * |bytes|
  {
    g < endGfn && Bit(bytes, g)
  }

  /** gpa_space_is_chunk_protected: the first protected page of the frame around a gfn, if there is one. */
  method ChunkProtected(bitmap: array<bv8>, endGfn: nat, g: nat) returns (found: bool, fault: nat)
    requires endGfn <= 8 * bitmap.Length
    ensures found ==> fault / CHUNK_PAGES == g / CHUNK_PAGES && PageProtected(bitmap[..], endGfn, fault)
    ensures forall h: nat :: h / CHUNK_PAGES == g / CHUNK_PAGES && (!found || h < fault) ==> !PageProtected(bitmap[..], endGfn, h)
  {
    var start := g / CHUNK_PAGES * CHUNK_PAGES;
    fault := start;
    while fault < start + CHUNK_PAGES
      invariant start <= fault <= start + CHUNK_PAGES
      invariant forall h: nat :: start <= h < fault ==> !PageProtected(bitmap[..], endGfn, h)
    {
      if fault < endGfn && BitIn(bitmap[fault / 8], fault % 8) {
        return true, fault;
      }
      fault := fault + 1;
    }
    found := false;
  }

  /** The protected gfns. */
  function Guarded(bytes: seq<bv8>, endGfn: nat): set<nat>
    requires endGfn <= 8 * |bytes|
  {
    set g: nat | g < endGfn && PageProtected(bytes, endGfn, g)
  }

  /** gpa_space_prot_bitmap_size */
  function BitmapSize(npages: nat): nat {
    if npages >= 0x8000_0000 then 0 else (npages + 7) / 8 + 8
  }
}
