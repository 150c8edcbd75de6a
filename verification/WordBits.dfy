/** The bits of words and blocks, by number. */
module WordBits {
  import opened ByteBits
  import opened DesLocal

  /** Bit i of a byte, the leftmost first. */
  function ByteBit(b: Byte, i: nat): bool
    requires i < 8
  {
    match i
    case 0 => b & 0x80 != 0 case 1 => b & 0x40 != 0 case 2 => b & 0x20 != 0 case 3 => b & 0x10 != 0
    case 4 => b & 0x08 != 0 case 5 => b & 0x04 != 0 case 6 => b & 0x02 != 0 case _ => b & 0x01 != 0
  }

  /** Bit n of a word, the least significant first. */
  function Bit(w: Word, n: nat): bool
    requires n < 32
  {
    ByteBit(L2c(w)[n / 8], 7 - n % 8)
  }

  /** The 64 bits of a block in the order of its bytes, the leftmost bit of each first. */
  function BlockBits(b: Block): (r: seq<bool>)
    ensures |r| == 64
  {
    seq(64, k requires 0 <= k < 64 => BlockBit(b, k))
  }

  function BlockBit(b: Block, k: nat): bool
    requires k < 64
  {
    if k < 32 then Bit(b.l, 8 * (k / 8) + 7 - k % 8) else Bit(b.r, 8 * (k / 8 - 4) + 7 - k % 8)
  }

  lemma BlockBitsAreByteBits(b: Block, k: nat)
    requires k < 64
    ensures BlockBits(b)[k] == BitAt(Store(b), k)
  {
    hide L2c, Has, Probe, Bit;
    var y, i := k / 8, k % 8;
    if k < 32 {
      assert Store(b)[y] == L2c(b.l)[y];
      BitIsByteBit(b.l, y, i);
    } else {
      assert Store(b)[y] == L2c(b.r)[y - 4];
      BitIsByteBit(b.r, y - 4, i);
    }
  }

  lemma BitIsByteBit(w: Word, y: nat, i: nat)
    requires y < 4 && i < 8
    ensures Bit(w, 8 * y + 7 - i) == Has(L2c(w)[y], Probe(i))
  {
    hide L2c, Has, Probe, ByteBit;
    ByteBitHas(L2c(w)[y], i);
  }

  lemma ByteBitHas(b: Byte, i: nat)
    requires i < 8
    ensures ByteBit(b, i) == Has(b, Probe(i))
  {
  }

  // ---------- The mask of each bit ----------

  lemma ByteDigits(b: Byte)
    ensures ByteBit(b, 0) == (b & 0x80 != 0) && ByteBit(b, 1) == (b & 0x40 != 0)
    ensures ByteBit(b, 2) == (b & 0x20 != 0) && ByteBit(b, 3) == (b & 0x10 != 0)
    ensures ByteBit(b, 4) == (b & 0x08 != 0) && ByteBit(b, 5) == (b & 0x04 != 0)
    ensures ByteBit(b, 6) == (b & 0x02 != 0) && ByteBit(b, 7) == (b & 0x01 != 0)
  {
  }

  lemma ByteBitXor(a: Byte, b: Byte, i: nat)
    requires i < 8
    ensures ByteBit(a ^ b, i) == (ByteBit(a, i) != ByteBit(b, i))
  {
    hide ByteBit;
    ByteDigits(a);
    ByteDigits(b);
    ByteDigits(a ^ b);
    match i
    case 0 => case 1 => case 2 => case 3 => case 4 => case 5 => case 6 => case _ =>
  }

  lemma Digits0(w: Word)
    ensures Bit(w, 0) == (w & 0x00000001 != 0) && Bit(w, 1) == (w & 0x00000002 != 0)
    ensures Bit(w, 2) == (w & 0x00000004 != 0) && Bit(w, 3) == (w & 0x00000008 != 0)
    ensures Bit(w, 4) == (w & 0x00000010 != 0) && Bit(w, 5) == (w & 0x00000020 != 0)
    ensures Bit(w, 6) == (w & 0x00000040 != 0) && Bit(w, 7) == (w & 0x00000080 != 0)
  {
    hide ByteBit;
    ByteDigits(L2c(w)[0]);
  }

  lemma Digits1(w: Word)
    ensures Bit(w, 8) == (w & 0x00000100 != 0) && Bit(w, 9) == (w & 0x00000200 != 0)
    ensures Bit(w, 10) == (w & 0x00000400 != 0) && Bit(w, 11) == (w & 0x00000800 != 0)
    ensures Bit(w, 12) == (w & 0x00001000 != 0) && Bit(w, 13) == (w & 0x00002000 != 0)
    ensures Bit(w, 14) == (w & 0x00004000 != 0) && Bit(w, 15) == (w & 0x00008000 != 0)
  {
    hide ByteBit;
    ByteDigits(L2c(w)[1]);
  }

  lemma Digits2(w: Word)
    ensures Bit(w, 16) == (w & 0x00010000 != 0) && Bit(w, 17) == (w & 0x00020000 != 0)
    ensures Bit(w, 18) == (w & 0x00040000 != 0) && Bit(w, 19) == (w & 0x00080000 != 0)
    ensures Bit(w, 20) == (w & 0x00100000 != 0) && Bit(w, 21) == (w & 0x00200000 != 0)
    ensures Bit(w, 22) == (w & 0x00400000 != 0) && Bit(w, 23) == (w & 0x00800000 != 0)
  {
    hide ByteBit;
    ByteDigits(L2c(w)[2]);
  }

  lemma Digits3(w: Word)
    ensures Bit(w, 24) == (w & 0x01000000 != 0) && Bit(w, 25) == (w & 0x02000000 != 0)
    ensures Bit(w, 26) == (w & 0x04000000 != 0) && Bit(w, 27) == (w & 0x08000000 != 0)
    ensures Bit(w, 28) == (w & 0x10000000 != 0) && Bit(w, 29) == (w & 0x20000000 != 0)
    ensures Bit(w, 30) == (w & 0x40000000 != 0) && Bit(w, 31) == (w & 0x80000000 != 0)
  {
    hide ByteBit;
    ByteDigits(L2c(w)[3]);
  }

  lemma Digits(w: Word)
    ensures Bit(w, 0) == (w & 0x00000001 != 0) && Bit(w, 1) == (w & 0x00000002 != 0)
    ensures Bit(w, 2) == (w & 0x00000004 != 0) && Bit(w, 3) == (w & 0x00000008 != 0)
    ensures Bit(w, 4) == (w & 0x00000010 != 0) && Bit(w, 5) == (w & 0x00000020 != 0)
    ensures Bit(w, 6) == (w & 0x00000040 != 0) && Bit(w, 7) == (w & 0x00000080 != 0)
    ensures Bit(w, 8) == (w & 0x00000100 != 0) && Bit(w, 9) == (w & 0x00000200 != 0)
    ensures Bit(w, 10) == (w & 0x00000400 != 0) && Bit(w, 11) == (w & 0x00000800 != 0)
    ensures Bit(w, 12) == (w & 0x00001000 != 0) && Bit(w, 13) == (w & 0x00002000 != 0)
    ensures Bit(w, 14) == (w & 0x00004000 != 0) && Bit(w, 15) == (w & 0x00008000 != 0)
    ensures Bit(w, 16) == (w & 0x00010000 != 0) && Bit(w, 17) == (w & 0x00020000 != 0)
    ensures Bit(w, 18) == (w & 0x00040000 != 0) && Bit(w, 19) == (w & 0x00080000 != 0)
    ensures Bit(w, 20) == (w & 0x00100000 != 0) && Bit(w, 21) == (w & 0x00200000 != 0)
    ensures Bit(w, 22) == (w & 0x00400000 != 0) && Bit(w, 23) == (w & 0x00800000 != 0)
    ensures Bit(w, 24) == (w & 0x01000000 != 0) && Bit(w, 25) == (w & 0x02000000 != 0)
    ensures Bit(w, 26) == (w & 0x04000000 != 0) && Bit(w, 27) == (w & 0x08000000 != 0)
    ensures Bit(w, 28) == (w & 0x10000000 != 0) && Bit(w, 29) == (w & 0x20000000 != 0)
    ensures Bit(w, 30) == (w & 0x40000000 != 0) && Bit(w, 31) == (w & 0x80000000 != 0)
  {
    hide Bit;
    Digits0(w);
    Digits1(w);
    Digits2(w);
    Digits3(w);
  }
}
