/** The rounds of lib/crypto/ecb_encrypt.c compute the function f of FIPS PUB 46-3, and so the whole cipher is its. */
module FipsRounds {
  import opened DesLocal
  import opened SpTables
  import opened DEncrypt
  import opened WordBits
  import opened FipsPermutations
  import Fips46

  // ---------- Indices ----------

  /** The index whose bits are a block B, the lowest bit first. */
  function Index(b1: bool, b2: bool, b3: bool, b4: bool, b5: bool, b6: bool): bv6 {
    (if b1 then 1 else 0) | (if b2 then 2 else 0) | (if b3 then 4 else 0) |
    (if b4 then 8 else 0) | (if b5 then 16 else 0) | (if b6 then 32 else 0)
  }

  lemma XorBit(a: Word, b: Word, n: nat)
    requires n < 32
    ensures Bit(Xor(a, b), n) == (Bit(a, n) != Bit(b, n))
  {
    hide ByteBit, L2c, Xor;
    XorBytes(a, b);
    ByteBitXor(L2c(a)[n / 8], L2c(b)[n / 8], 7 - n % 8);
  }

  lemma XorBytes(a: Word, b: Word)
    ensures forall y | 0 <= y < 4 :: L2c(Xor(a, b))[y] == L2c(a)[y] ^ L2c(b)[y]
  {
  }

  lemma EvenIndex(x: Word)
    ensures Sixes(x) == Quad(
              Index(Bit(x, 0), Bit(x, 1), Bit(x, 2), Bit(x, 3), Bit(x, 4), Bit(x, 5)),
              Index(Bit(x, 8), Bit(x, 9), Bit(x, 10), Bit(x, 11), Bit(x, 12), Bit(x, 13)),
              Index(Bit(x, 16), Bit(x, 17), Bit(x, 18), Bit(x, 19), Bit(x, 20), Bit(x, 21)),
              Index(Bit(x, 24), Bit(x, 25), Bit(x, 26), Bit(x, 27), Bit(x, 28), Bit(x, 29)))
  {
    hide Bit;
    Digits(x);
  }

  lemma OddIndex(x: Word)
    ensures Sixes((x >> 4) + (x << 28)) == Quad(
              Index(Bit(x, 4), Bit(x, 5), Bit(x, 6), Bit(x, 7), Bit(x, 8), Bit(x, 9)),
              Index(Bit(x, 12), Bit(x, 13), Bit(x, 14), Bit(x, 15), Bit(x, 16), Bit(x, 17)),
              Index(Bit(x, 20), Bit(x, 21), Bit(x, 22), Bit(x, 23), Bit(x, 24), Bit(x, 25)),
              Index(Bit(x, 28), Bit(x, 29), Bit(x, 30), Bit(x, 31), Bit(x, 0), Bit(x, 1)))
  {
    hide Bit;
    Digits(x);
  }

  // ---------- The function f ----------

  lemma EByGroups(i: nat)
    requires i < 48
    ensures Fips46.E(i + 1) % 32 == (4 * (i / 6) + i % 6) % 32
  {
  }

  lemma PlaceByGroups(i: nat)
    requires i < 48
    ensures (4 * (i / 6) + i % 6) % 32 == Place(i)
  {
  }

  /** The block B that indexes selection function j. */
  function MixedIndex(x: Fips46.Bits, j: nat): bv6
    requires |x| == 48 && 1 <= j <= 8
  {
    var o := 6 * (j - 1);
    Index(x[o], x[o + 1], x[o + 2], x[o + 3], x[o + 4], x[o + 5])
  }

  lemma KeyBitsAt(w: (Word, Word), i: nat)
    requires i < 48
    ensures KeyBits(w)[i] == Bit(if i % 12 < 6 then w.0 else w.1, Place(i))
  {
    hide Bit;
  }

  lemma MixedIndex1(w: (Word, Word))
    ensures MixedIndex(KeyBits(w), 1) ==
            Index(Bit(w.0, 0), Bit(w.0, 1), Bit(w.0, 2), Bit(w.0, 3), Bit(w.0, 4), Bit(w.0, 5))
  {
    hide Bit, Index, KeyBits;
    KeyBitsAt(w, 0); KeyBitsAt(w, 1); KeyBitsAt(w, 2);
    KeyBitsAt(w, 3); KeyBitsAt(w, 4); KeyBitsAt(w, 5);
  }

  lemma MixedIndex2(w: (Word, Word))
    ensures MixedIndex(KeyBits(w), 2) ==
            Index(Bit(w.1, 4), Bit(w.1, 5), Bit(w.1, 6), Bit(w.1, 7), Bit(w.1, 8), Bit(w.1, 9))
  {
    hide Bit, Index, KeyBits;
    KeyBitsAt(w, 6); KeyBitsAt(w, 7); KeyBitsAt(w, 8);
    KeyBitsAt(w, 9); KeyBitsAt(w, 10); KeyBitsAt(w, 11);
  }

  lemma MixedIndex3(w: (Word, Word))
    ensures MixedIndex(KeyBits(w), 3) ==
            Index(Bit(w.0, 8), Bit(w.0, 9), Bit(w.0, 10), Bit(w.0, 11), Bit(w.0, 12), Bit(w.0, 13))
  {
    hide Bit, Index, KeyBits;
    KeyBitsAt(w, 12); KeyBitsAt(w, 13); KeyBitsAt(w, 14);
    KeyBitsAt(w, 15); KeyBitsAt(w, 16); KeyBitsAt(w, 17);
  }

  lemma MixedIndex4(w: (Word, Word))
    ensures MixedIndex(KeyBits(w), 4) ==
            Index(Bit(w.1, 12), Bit(w.1, 13), Bit(w.1, 14), Bit(w.1, 15), Bit(w.1, 16), Bit(w.1, 17))
  {
    hide Bit, Index, KeyBits;
    KeyBitsAt(w, 18); KeyBitsAt(w, 19); KeyBitsAt(w, 20);
    KeyBitsAt(w, 21); KeyBitsAt(w, 22); KeyBitsAt(w, 23);
  }

  lemma MixedIndex5(w: (Word, Word))
    ensures MixedIndex(KeyBits(w), 5) ==
            Index(Bit(w.0, 16), Bit(w.0, 17), Bit(w.0, 18), Bit(w.0, 19), Bit(w.0, 20), Bit(w.0, 21))
  {
    hide Bit, Index, KeyBits;
    KeyBitsAt(w, 24); KeyBitsAt(w, 25); KeyBitsAt(w, 26);
    KeyBitsAt(w, 27); KeyBitsAt(w, 28); KeyBitsAt(w, 29);
  }

  lemma MixedIndex6(w: (Word, Word))
    ensures MixedIndex(KeyBits(w), 6) ==
            Index(Bit(w.1, 20), Bit(w.1, 21), Bit(w.1, 22), Bit(w.1, 23), Bit(w.1, 24), Bit(w.1, 25))
  {
    hide Bit, Index, KeyBits;
    KeyBitsAt(w, 30); KeyBitsAt(w, 31); KeyBitsAt(w, 32);
    KeyBitsAt(w, 33); KeyBitsAt(w, 34); KeyBitsAt(w, 35);
  }

  lemma MixedIndex7(w: (Word, Word))
    ensures MixedIndex(KeyBits(w), 7) ==
            Index(Bit(w.0, 24), Bit(w.0, 25), Bit(w.0, 26), Bit(w.0, 27), Bit(w.0, 28), Bit(w.0, 29))
  {
    hide Bit, Index, KeyBits;
    KeyBitsAt(w, 36); KeyBitsAt(w, 37); KeyBitsAt(w, 38);
    KeyBitsAt(w, 39); KeyBitsAt(w, 40); KeyBitsAt(w, 41);
  }

  lemma MixedIndex8(w: (Word, Word))
    ensures MixedIndex(KeyBits(w), 8) ==
            Index(Bit(w.1, 28), Bit(w.1, 29), Bit(w.1, 30), Bit(w.1, 31), Bit(w.1, 0), Bit(w.1, 1))
  {
    hide Bit, Index, KeyBits;
    KeyBitsAt(w, 42); KeyBitsAt(w, 43); KeyBitsAt(w, 44);
    KeyBitsAt(w, 45); KeyBitsAt(w, 46); KeyBitsAt(w, 47);
  }

  /** The indices of the even tables are B1, B3, B5 and B7. */
  lemma EvenIndicesAre(w: (Word, Word))
    ensures var x := KeyBits(w);
            Sixes(w.0) == Quad(MixedIndex(x, 1), MixedIndex(x, 3), MixedIndex(x, 5), MixedIndex(x, 7))
  {
    hide Bit, Index, MixedIndex, KeyBits, Sixes;
    EvenIndex(w.0);
    MixedIndex1(w);
    MixedIndex3(w);
    MixedIndex5(w);
    MixedIndex7(w);
  }

  /** The indices of the odd tables, from the second word rotated by four. */
  function OddSixes(w: Word): Quad {
    Sixes((w >> 4) + (w << 28))
  }

  /** They are B2, B4, B6 and B8. */
  lemma OddIndicesAre(w: (Word, Word))
    ensures var x := KeyBits(w);
            OddSixes(w.1) == Quad(MixedIndex(x, 2), MixedIndex(x, 4), MixedIndex(x, 6), MixedIndex(x, 8))
  {
    hide Bit, Index, MixedIndex, KeyBits, Sixes;
    OddIndex(w.1);
    MixedIndex2(w);
    MixedIndex4(w);
    MixedIndex6(w);
    MixedIndex8(w);
  }

  /** What the eight tables make of two words. */
  function Joined(w: (Word, Word)): Word {
    SpOr(Sixes(w.0), OddSixes(w.1))
  }

  /** Each table's bits come through the joining unchanged. */
  lemma JoinedBits(b: Nibble1, d: Nibble3, f: Nibble5, h: Nibble7, a: Nibble0, c: Nibble2, e: Nibble4, g: Nibble6)
    ensures var w := Or8(b, d, f, h, a, c, e, g);
            && w & 0x80820200 == a && w & 0x10042004 == b && w & 0x41010040 == c && w & 0x04100402 == d
            && w & 0x02004108 == e && w & 0x20080810 == f && w & 0x00401081 == g && w & 0x08208020 == h
  {
  }

  lemma SpOrHas0(u: Quad, t: Quad)
    ensures var w, s := SpOr(u, t), Sp0(u.a);
            && (w & 0x00000200 != 0) == (s & 0x00000200 != 0)
            && (w & 0x00020000 != 0) == (s & 0x00020000 != 0)
            && (w & 0x00800000 != 0) == (s & 0x00800000 != 0)
            && (w & 0x80000000 != 0) == (s & 0x80000000 != 0)
  {
    hide Or8, Sp0, Sp1, Sp2, Sp3, Sp4, Sp5, Sp6, Sp7;
    JoinedBits(Sp1(t.a), Sp3(t.b), Sp5(t.c), Sp7(t.d), Sp0(u.a), Sp2(u.b), Sp4(u.c), Sp6(u.d));
  }

  lemma SpOrHas1(u: Quad, t: Quad)
    ensures var w, s := SpOr(u, t), Sp1(t.a);
            && (w & 0x00002000 != 0) == (s & 0x00002000 != 0)
            && (w & 0x10000000 != 0) == (s & 0x10000000 != 0)
            && (w & 0x00000004 != 0) == (s & 0x00000004 != 0)
            && (w & 0x00040000 != 0) == (s & 0x00040000 != 0)
  {
    hide Or8, Sp0, Sp1, Sp2, Sp3, Sp4, Sp5, Sp6, Sp7;
    JoinedBits(Sp1(t.a), Sp3(t.b), Sp5(t.c), Sp7(t.d), Sp0(u.a), Sp2(u.b), Sp4(u.c), Sp6(u.d));
  }

  lemma SpOrHas2(u: Quad, t: Quad)
    ensures var w, s := SpOr(u, t), Sp2(u.b);
            && (w & 0x01000000 != 0) == (s & 0x01000000 != 0)
            && (w & 0x00010000 != 0) == (s & 0x00010000 != 0)
            && (w & 0x40000000 != 0) == (s & 0x40000000 != 0)
            && (w & 0x00000040 != 0) == (s & 0x00000040 != 0)
  {
    hide Or8, Sp0, Sp1, Sp2, Sp3, Sp4, Sp5, Sp6, Sp7;
    JoinedBits(Sp1(t.a), Sp3(t.b), Sp5(t.c), Sp7(t.d), Sp0(u.a), Sp2(u.b), Sp4(u.c), Sp6(u.d));
  }

  lemma SpOrHas3(u: Quad, t: Quad)
    ensures var w, s := SpOr(u, t), Sp3(t.b);
            && (w & 0x04000000 != 0) == (s & 0x04000000 != 0)
            && (w & 0x00100000 != 0) == (s & 0x00100000 != 0)
            && (w & 0x00000400 != 0) == (s & 0x00000400 != 0)
            && (w & 0x00000002 != 0) == (s & 0x00000002 != 0)
  {
    hide Or8, Sp0, Sp1, Sp2, Sp3, Sp4, Sp5, Sp6, Sp7;
    JoinedBits(Sp1(t.a), Sp3(t.b), Sp5(t.c), Sp7(t.d), Sp0(u.a), Sp2(u.b), Sp4(u.c), Sp6(u.d));
  }

  lemma SpOrHas4(u: Quad, t: Quad)
    ensures var w, s := SpOr(u, t), Sp4(u.c);
            && (w & 0x00000100 != 0) == (s & 0x00000100 != 0)
            && (w & 0x00004000 != 0) == (s & 0x00004000 != 0)
            && (w & 0x02000000 != 0) == (s & 0x02000000 != 0)
            && (w & 0x00000008 != 0) == (s & 0x00000008 != 0)
  {
    hide Or8, Sp0, Sp1, Sp2, Sp3, Sp4, Sp5, Sp6, Sp7;
    JoinedBits(Sp1(t.a), Sp3(t.b), Sp5(t.c), Sp7(t.d), Sp0(u.a), Sp2(u.b), Sp4(u.c), Sp6(u.d));
  }

  lemma SpOrHas5(u: Quad, t: Quad)
    ensures var w, s := SpOr(u, t), Sp5(t.c);
            && (w & 0x00000010 != 0) == (s & 0x00000010 != 0)
            && (w & 0x20000000 != 0) == (s & 0x20000000 != 0)
            && (w & 0x00000800 != 0) == (s & 0x00000800 != 0)
            && (w & 0x00080000 != 0) == (s & 0x00080000 != 0)
  {
    hide Or8, Sp0, Sp1, Sp2, Sp3, Sp4, Sp5, Sp6, Sp7;
    JoinedBits(Sp1(t.a), Sp3(t.b), Sp5(t.c), Sp7(t.d), Sp0(u.a), Sp2(u.b), Sp4(u.c), Sp6(u.d));
  }

  lemma SpOrHas6(u: Quad, t: Quad)
    ensures var w, s := SpOr(u, t), Sp6(u.d);
            && (w & 0x00000001 != 0) == (s & 0x00000001 != 0)
            && (w & 0x00001000 != 0) == (s & 0x00001000 != 0)
            && (w & 0x00400000 != 0) == (s & 0x00400000 != 0)
            && (w & 0x00000080 != 0) == (s & 0x00000080 != 0)
  {
    hide Or8, Sp0, Sp1, Sp2, Sp3, Sp4, Sp5, Sp6, Sp7;
    JoinedBits(Sp1(t.a), Sp3(t.b), Sp5(t.c), Sp7(t.d), Sp0(u.a), Sp2(u.b), Sp4(u.c), Sp6(u.d));
  }

  lemma SpOrHas7(u: Quad, t: Quad)
    ensures var w, s := SpOr(u, t), Sp7(t.d);
            && (w & 0x00000020 != 0) == (s & 0x00000020 != 0)
            && (w & 0x08000000 != 0) == (s & 0x08000000 != 0)
            && (w & 0x00008000 != 0) == (s & 0x00008000 != 0)
            && (w & 0x00200000 != 0) == (s & 0x00200000 != 0)
  {
    hide Or8, Sp0, Sp1, Sp2, Sp3, Sp4, Sp5, Sp6, Sp7;
    JoinedBits(Sp1(t.a), Sp3(t.b), Sp5(t.c), Sp7(t.d), Sp0(u.a), Sp2(u.b), Sp4(u.c), Sp6(u.d));
  }

  /** The four bits that S1 selects, where P puts them. */
  lemma Sp0IsS1(x: Fips46.Bits)
    requires |x| == 48
    ensures var s := Sp0(MixedIndex(x, 1));
            && (s & 0x00000200 != 0) == (Fips46.Selection(x, 1) & 8 != 0)
            && (s & 0x00020000 != 0) == (Fips46.Selection(x, 1) & 4 != 0)
            && (s & 0x00800000 != 0) == (Fips46.Selection(x, 1) & 2 != 0)
            && (s & 0x80000000 != 0) == (Fips46.Selection(x, 1) & 1 != 0)
  {
    hide Fips46.S2, Fips46.S3, Fips46.S4, Fips46.S5, Fips46.S6, Fips46.S7, Fips46.S8;
  }

  /** The four bits that S2 selects, where P puts them. */
  lemma Sp1IsS2(x: Fips46.Bits)
    requires |x| == 48
    ensures var s := Sp1(MixedIndex(x, 2));
            && (s & 0x00002000 != 0) == (Fips46.Selection(x, 2) & 8 != 0)
            && (s & 0x10000000 != 0) == (Fips46.Selection(x, 2) & 4 != 0)
            && (s & 0x00000004 != 0) == (Fips46.Selection(x, 2) & 2 != 0)
            && (s & 0x00040000 != 0) == (Fips46.Selection(x, 2) & 1 != 0)
  {
    hide Fips46.S1, Fips46.S3, Fips46.S4, Fips46.S5, Fips46.S6, Fips46.S7, Fips46.S8;
  }

  /** The four bits that S3 selects, where P puts them. */
  lemma Sp2IsS3(x: Fips46.Bits)
    requires |x| == 48
    ensures var s := Sp2(MixedIndex(x, 3));
            && (s & 0x01000000 != 0) == (Fips46.Selection(x, 3) & 8 != 0)
            && (s & 0x00010000 != 0) == (Fips46.Selection(x, 3) & 4 != 0)
            && (s & 0x40000000 != 0) == (Fips46.Selection(x, 3) & 2 != 0)
            && (s & 0x00000040 != 0) == (Fips46.Selection(x, 3) & 1 != 0)
  {
    hide Fips46.S1, Fips46.S2, Fips46.S4, Fips46.S5, Fips46.S6, Fips46.S7, Fips46.S8;
  }

  /** The four bits that S4 selects, where P puts them. */
  lemma Sp3IsS4(x: Fips46.Bits)
    requires |x| == 48
    ensures var s := Sp3(MixedIndex(x, 4));
            && (s & 0x04000000 != 0) == (Fips46.Selection(x, 4) & 8 != 0)
            && (s & 0x00100000 != 0) == (Fips46.Selection(x, 4) & 4 != 0)
            && (s & 0x00000400 != 0) == (Fips46.Selection(x, 4) & 2 != 0)
            && (s & 0x00000002 != 0) == (Fips46.Selection(x, 4) & 1 != 0)
  {
    hide Fips46.S1, Fips46.S2, Fips46.S3, Fips46.S5, Fips46.S6, Fips46.S7, Fips46.S8;
  }

  /** The four bits that S5 selects, where P puts them. */
  lemma Sp4IsS5(x: Fips46.Bits)
    requires |x| == 48
    ensures var s := Sp4(MixedIndex(x, 5));
            && (s & 0x00000100 != 0) == (Fips46.Selection(x, 5) & 8 != 0)
            && (s & 0x00004000 != 0) == (Fips46.Selection(x, 5) & 4 != 0)
            && (s & 0x02000000 != 0) == (Fips46.Selection(x, 5) & 2 != 0)
            && (s & 0x00000008 != 0) == (Fips46.Selection(x, 5) & 1 != 0)
  {
    hide Fips46.S1, Fips46.S2, Fips46.S3, Fips46.S4, Fips46.S6, Fips46.S7, Fips46.S8;
  }

  /** The four bits that S6 selects, where P puts them. */
  lemma Sp5IsS6(x: Fips46.Bits)
    requires |x| == 48
    ensures var s := Sp5(MixedIndex(x, 6));
            && (s & 0x00000010 != 0) == (Fips46.Selection(x, 6) & 8 != 0)
            && (s & 0x20000000 != 0) == (Fips46.Selection(x, 6) & 4 != 0)
            && (s & 0x00000800 != 0) == (Fips46.Selection(x, 6) & 2 != 0)
            && (s & 0x00080000 != 0) == (Fips46.Selection(x, 6) & 1 != 0)
  {
    hide Fips46.S1, Fips46.S2, Fips46.S3, Fips46.S4, Fips46.S5, Fips46.S7, Fips46.S8;
  }

  /** The four bits that S7 selects, where P puts them. */
  lemma Sp6IsS7(x: Fips46.Bits)
    requires |x| == 48
    ensures var s := Sp6(MixedIndex(x, 7));
            && (s & 0x00000001 != 0) == (Fips46.Selection(x, 7) & 8 != 0)
            && (s & 0x00001000 != 0) == (Fips46.Selection(x, 7) & 4 != 0)
            && (s & 0x00400000 != 0) == (Fips46.Selection(x, 7) & 2 != 0)
            && (s & 0x00000080 != 0) == (Fips46.Selection(x, 7) & 1 != 0)
  {
    hide Fips46.S1, Fips46.S2, Fips46.S3, Fips46.S4, Fips46.S5, Fips46.S6, Fips46.S8;
  }

  /** The four bits that S8 selects, where P puts them. */
  lemma Sp7IsS8(x: Fips46.Bits)
    requires |x| == 48
    ensures var s := Sp7(MixedIndex(x, 8));
            && (s & 0x00000020 != 0) == (Fips46.Selection(x, 8) & 8 != 0)
            && (s & 0x08000000 != 0) == (Fips46.Selection(x, 8) & 4 != 0)
            && (s & 0x00008000 != 0) == (Fips46.Selection(x, 8) & 2 != 0)
            && (s & 0x00200000 != 0) == (Fips46.Selection(x, 8) & 1 != 0)
  {
    hide Fips46.S1, Fips46.S2, Fips46.S3, Fips46.S4, Fips46.S5, Fips46.S6, Fips46.S7;
  }

  lemma RoundGroup1(w: (Word, Word))
    ensures var v, s := Joined(w), Fips46.Selection(KeyBits(w), 1);
            && Bit(v, 9) == Fips46.BitOf4(s, 1)
            && Bit(v, 17) == Fips46.BitOf4(s, 2)
            && Bit(v, 23) == Fips46.BitOf4(s, 3)
            && Bit(v, 31) == Fips46.BitOf4(s, 4)
  {
    hide Bit, SpOr, MixedIndex, Sixes, OddSixes, KeyBits, Sp0, Fips46.Selection;
    Digits1(Joined(w));
    Digits2(Joined(w));
    Digits3(Joined(w));
    EvenIndicesAre(w);
    SpOrHas0(Sixes(w.0), OddSixes(w.1));
    Sp0IsS1(KeyBits(w));
  }

  lemma RoundGroup2(w: (Word, Word))
    ensures var v, s := Joined(w), Fips46.Selection(KeyBits(w), 2);
            && Bit(v, 13) == Fips46.BitOf4(s, 1)
            && Bit(v, 28) == Fips46.BitOf4(s, 2)
            && Bit(v, 2) == Fips46.BitOf4(s, 3)
            && Bit(v, 18) == Fips46.BitOf4(s, 4)
  {
    hide Bit, SpOr, MixedIndex, Sixes, OddSixes, KeyBits, Sp1, Fips46.Selection;
    Digits0(Joined(w));
    Digits1(Joined(w));
    Digits2(Joined(w));
    Digits3(Joined(w));
    OddIndicesAre(w);
    SpOrHas1(Sixes(w.0), OddSixes(w.1));
    Sp1IsS2(KeyBits(w));
  }

  lemma RoundGroup3(w: (Word, Word))
    ensures var v, s := Joined(w), Fips46.Selection(KeyBits(w), 3);
            && Bit(v, 24) == Fips46.BitOf4(s, 1)
            && Bit(v, 16) == Fips46.BitOf4(s, 2)
            && Bit(v, 30) == Fips46.BitOf4(s, 3)
            && Bit(v, 6) == Fips46.BitOf4(s, 4)
  {
    hide Bit, SpOr, MixedIndex, Sixes, OddSixes, KeyBits, Sp2, Fips46.Selection;
    Digits0(Joined(w));
    Digits2(Joined(w));
    Digits3(Joined(w));
    EvenIndicesAre(w);
    SpOrHas2(Sixes(w.0), OddSixes(w.1));
    Sp2IsS3(KeyBits(w));
  }

  lemma RoundGroup4(w: (Word, Word))
    ensures var v, s := Joined(w), Fips46.Selection(KeyBits(w), 4);
            && Bit(v, 26) == Fips46.BitOf4(s, 1)
            && Bit(v, 20) == Fips46.BitOf4(s, 2)
            && Bit(v, 10) == Fips46.BitOf4(s, 3)
            && Bit(v, 1) == Fips46.BitOf4(s, 4)
  {
    hide Bit, SpOr, MixedIndex, Sixes, OddSixes, KeyBits, Sp3, Fips46.Selection;
    Digits0(Joined(w));
    Digits1(Joined(w));
    Digits2(Joined(w));
    Digits3(Joined(w));
    OddIndicesAre(w);
    SpOrHas3(Sixes(w.0), OddSixes(w.1));
    Sp3IsS4(KeyBits(w));
  }

  lemma RoundGroup5(w: (Word, Word))
    ensures var v, s := Joined(w), Fips46.Selection(KeyBits(w), 5);
            && Bit(v, 8) == Fips46.BitOf4(s, 1)
            && Bit(v, 14) == Fips46.BitOf4(s, 2)
            && Bit(v, 25) == Fips46.BitOf4(s, 3)
            && Bit(v, 3) == Fips46.BitOf4(s, 4)
  {
    hide Bit, SpOr, MixedIndex, Sixes, OddSixes, KeyBits, Sp4, Fips46.Selection;
    Digits0(Joined(w));
    Digits1(Joined(w));
    Digits3(Joined(w));
    EvenIndicesAre(w);
    SpOrHas4(Sixes(w.0), OddSixes(w.1));
    Sp4IsS5(KeyBits(w));
  }

  lemma RoundGroup6(w: (Word, Word))
    ensures var v, s := Joined(w), Fips46.Selection(KeyBits(w), 6);
            && Bit(v, 4) == Fips46.BitOf4(s, 1)
            && Bit(v, 29) == Fips46.BitOf4(s, 2)
            && Bit(v, 11) == Fips46.BitOf4(s, 3)
            && Bit(v, 19) == Fips46.BitOf4(s, 4)
  {
    hide Bit, SpOr, MixedIndex, Sixes, OddSixes, KeyBits, Sp5, Fips46.Selection;
    Digits0(Joined(w));
    Digits1(Joined(w));
    Digits2(Joined(w));
    Digits3(Joined(w));
    OddIndicesAre(w);
    SpOrHas5(Sixes(w.0), OddSixes(w.1));
    Sp5IsS6(KeyBits(w));
  }

  lemma RoundGroup7(w: (Word, Word))
    ensures var v, s := Joined(w), Fips46.Selection(KeyBits(w), 7);
            && Bit(v, 0) == Fips46.BitOf4(s, 1)
            && Bit(v, 12) == Fips46.BitOf4(s, 2)
            && Bit(v, 22) == Fips46.BitOf4(s, 3)
            && Bit(v, 7) == Fips46.BitOf4(s, 4)
  {
    hide Bit, SpOr, MixedIndex, Sixes, OddSixes, KeyBits, Sp6, Fips46.Selection;
    Digits0(Joined(w));
    Digits1(Joined(w));
    Digits2(Joined(w));
    EvenIndicesAre(w);
    SpOrHas6(Sixes(w.0), OddSixes(w.1));
    Sp6IsS7(KeyBits(w));
  }

  lemma RoundGroup8(w: (Word, Word))
    ensures var v, s := Joined(w), Fips46.Selection(KeyBits(w), 8);
            && Bit(v, 5) == Fips46.BitOf4(s, 1)
            && Bit(v, 27) == Fips46.BitOf4(s, 2)
            && Bit(v, 15) == Fips46.BitOf4(s, 3)
            && Bit(v, 21) == Fips46.BitOf4(s, 4)
  {
    hide Bit, SpOr, MixedIndex, Sixes, OddSixes, KeyBits, Sp7, Fips46.Selection;
    Digits0(Joined(w));
    Digits1(Joined(w));
    Digits2(Joined(w));
    Digits3(Joined(w));
    OddIndicesAre(w);
    SpOrHas7(Sixes(w.0), OddSixes(w.1));
    Sp7IsS8(KeyBits(w));
  }

  lemma FBitQuarter1(x: Fips46.Bits)
    requires |x| == 48
    ensures Fips46.FBit(x, 1) == Fips46.BitOf4(Fips46.Selection(x, 4), 4)
    ensures Fips46.FBit(x, 2) == Fips46.BitOf4(Fips46.Selection(x, 2), 3)
    ensures Fips46.FBit(x, 3) == Fips46.BitOf4(Fips46.Selection(x, 5), 4)
    ensures Fips46.FBit(x, 4) == Fips46.BitOf4(Fips46.Selection(x, 6), 1)
    ensures Fips46.FBit(x, 5) == Fips46.BitOf4(Fips46.Selection(x, 8), 1)
    ensures Fips46.FBit(x, 6) == Fips46.BitOf4(Fips46.Selection(x, 3), 4)
    ensures Fips46.FBit(x, 7) == Fips46.BitOf4(Fips46.Selection(x, 7), 4)
    ensures Fips46.FBit(x, 8) == Fips46.BitOf4(Fips46.Selection(x, 5), 1)
  {
    hide Fips46.Selection, Fips46.BitOf4;
  }

  lemma RoundQuarter1(w: (Word, Word), n: nat)
    requires 0 <= n < 8
    ensures Bit(Joined(w), (n + 1) % 32) == Fips46.FBit(KeyBits(w), n + 1)
  {
    hide Bit, Joined, KeyBits, Fips46.FBit, Fips46.Selection, Fips46.BitOf4;
    FBitQuarter1(KeyBits(w));
    RoundGroup2(w);
    RoundGroup3(w);
    RoundGroup4(w);
    RoundGroup5(w);
    RoundGroup6(w);
    RoundGroup7(w);
    RoundGroup8(w);
    match n
    case 0 => case 1 => case 2 => case 3 => case 4 => case 5 => case 6 => case _ =>
  }

  lemma FBitQuarter2(x: Fips46.Bits)
    requires |x| == 48
    ensures Fips46.FBit(x, 9) == Fips46.BitOf4(Fips46.Selection(x, 1), 1)
    ensures Fips46.FBit(x, 10) == Fips46.BitOf4(Fips46.Selection(x, 4), 3)
    ensures Fips46.FBit(x, 11) == Fips46.BitOf4(Fips46.Selection(x, 6), 3)
    ensures Fips46.FBit(x, 12) == Fips46.BitOf4(Fips46.Selection(x, 7), 2)
    ensures Fips46.FBit(x, 13) == Fips46.BitOf4(Fips46.Selection(x, 2), 1)
    ensures Fips46.FBit(x, 14) == Fips46.BitOf4(Fips46.Selection(x, 5), 2)
    ensures Fips46.FBit(x, 15) == Fips46.BitOf4(Fips46.Selection(x, 8), 3)
    ensures Fips46.FBit(x, 16) == Fips46.BitOf4(Fips46.Selection(x, 3), 2)
  {
    hide Fips46.Selection, Fips46.BitOf4;
  }

  lemma RoundQuarter2(w: (Word, Word), n: nat)
    requires 8 <= n < 16
    ensures Bit(Joined(w), (n + 1) % 32) == Fips46.FBit(KeyBits(w), n + 1)
  {
    hide Bit, Joined, KeyBits, Fips46.FBit, Fips46.Selection, Fips46.BitOf4;
    FBitQuarter2(KeyBits(w));
    RoundGroup1(w);
    RoundGroup2(w);
    RoundGroup3(w);
    RoundGroup4(w);
    RoundGroup5(w);
    RoundGroup6(w);
    RoundGroup7(w);
    RoundGroup8(w);
    match n
    case 8 => case 9 => case 10 => case 11 => case 12 => case 13 => case 14 => case _ =>
  }

  lemma FBitQuarter3(x: Fips46.Bits)
    requires |x| == 48
    ensures Fips46.FBit(x, 17) == Fips46.BitOf4(Fips46.Selection(x, 1), 2)
    ensures Fips46.FBit(x, 18) == Fips46.BitOf4(Fips46.Selection(x, 2), 4)
    ensures Fips46.FBit(x, 19) == Fips46.BitOf4(Fips46.Selection(x, 6), 4)
    ensures Fips46.FBit(x, 20) == Fips46.BitOf4(Fips46.Selection(x, 4), 2)
    ensures Fips46.FBit(x, 21) == Fips46.BitOf4(Fips46.Selection(x, 8), 4)
    ensures Fips46.FBit(x, 22) == Fips46.BitOf4(Fips46.Selection(x, 7), 3)
    ensures Fips46.FBit(x, 23) == Fips46.BitOf4(Fips46.Selection(x, 1), 3)
    ensures Fips46.FBit(x, 24) == Fips46.BitOf4(Fips46.Selection(x, 3), 1)
  {
    hide Fips46.Selection, Fips46.BitOf4;
  }

  lemma RoundQuarter3(w: (Word, Word), n: nat)
    requires 16 <= n < 24
    ensures Bit(Joined(w), (n + 1) % 32) == Fips46.FBit(KeyBits(w), n + 1)
  {
    hide Bit, Joined, KeyBits, Fips46.FBit, Fips46.Selection, Fips46.BitOf4;
    FBitQuarter3(KeyBits(w));
    RoundGroup1(w);
    RoundGroup2(w);
    RoundGroup3(w);
    RoundGroup4(w);
    RoundGroup6(w);
    RoundGroup7(w);
    RoundGroup8(w);
    match n
    case 16 => case 17 => case 18 => case 19 => case 20 => case 21 => case 22 => case _ =>
  }

  lemma FBitQuarter4(x: Fips46.Bits)
    requires |x| == 48
    ensures Fips46.FBit(x, 25) == Fips46.BitOf4(Fips46.Selection(x, 5), 3)
    ensures Fips46.FBit(x, 26) == Fips46.BitOf4(Fips46.Selection(x, 4), 1)
    ensures Fips46.FBit(x, 27) == Fips46.BitOf4(Fips46.Selection(x, 8), 2)
    ensures Fips46.FBit(x, 28) == Fips46.BitOf4(Fips46.Selection(x, 2), 2)
    ensures Fips46.FBit(x, 29) == Fips46.BitOf4(Fips46.Selection(x, 6), 2)
    ensures Fips46.FBit(x, 30) == Fips46.BitOf4(Fips46.Selection(x, 3), 3)
    ensures Fips46.FBit(x, 31) == Fips46.BitOf4(Fips46.Selection(x, 1), 4)
    ensures Fips46.FBit(x, 32) == Fips46.BitOf4(Fips46.Selection(x, 7), 1)
  {
    hide Fips46.Selection, Fips46.BitOf4;
  }

  lemma RoundQuarter4(w: (Word, Word), n: nat)
    requires 24 <= n < 32
    ensures Bit(Joined(w), (n + 1) % 32) == Fips46.FBit(KeyBits(w), n + 1)
  {
    hide Bit, Joined, KeyBits, Fips46.FBit, Fips46.Selection, Fips46.BitOf4;
    FBitQuarter4(KeyBits(w));
    RoundGroup1(w);
    RoundGroup2(w);
    RoundGroup3(w);
    RoundGroup4(w);
    RoundGroup5(w);
    RoundGroup6(w);
    RoundGroup7(w);
    RoundGroup8(w);
    match n
    case 24 => case 25 => case 26 => case 27 => case 28 => case 29 => case 30 => case _ =>
  }

  /** What the tables make of two words is P of the selections from their 48 bits. */
  lemma JoinedIsSelected(w: (Word, Word))
    ensures HalfBits(Joined(w)) == Fips46.Selected(KeyBits(w))
  {
    hide Bit, Joined, KeyBits, Fips46.FBit;
    forall n | 0 <= n < 32
      ensures HalfBits(Joined(w))[n] == Fips46.Selected(KeyBits(w))[n]
    {
      if n < 8 {
        RoundQuarter1(w, n);
      } else if n < 16 {
        RoundQuarter2(w, n);
      } else if n < 24 {
        RoundQuarter3(w, n);
      } else {
        RoundQuarter4(w, n);
      }
    }
  }

  lemma RoundIsJoined(r: Word, k: (Word, Word))
    ensures RoundF(r, k.0, k.1) == Joined((Xor(r, k.0), Xor(r, k.1)))
  {
    hide Sixes, SpOr;
  }

  /** The bit of R that E selects for place i is where the two words have it. */
  lemma ExpandedAt(r: Word, i: nat)
    requires i < 48
    ensures Fips46.Expanded(HalfBits(r))[i] == Bit(r, Place(i))
  {
    hide Bit, Place, Fips46.E;
    EByGroups(i);
    PlaceByGroups(i);
  }

  /** R^s[S] and R^s[S+1] hold E(R) xor K. */
  lemma WordsHoldMixed(r: Word, k: (Word, Word))
    ensures KeyBits((Xor(r, k.0), Xor(r, k.1))) == Fips46.Xored(Fips46.Expanded(HalfBits(r)), KeyBits(k))
  {
    hide Bit, Xor, HalfBits, Place, Fips46.Expanded;
    var w, e := (Xor(r, k.0), Xor(r, k.1)), Fips46.Expanded(HalfBits(r));
    forall i | 0 <= i < 48
      ensures KeyBits(w)[i] == Fips46.Xored(e, KeyBits(k))[i]
    {
      ExpandedAt(r, i);
      XorBit(r, if i % 12 < 6 then k.0 else k.1, Place(i));
    }
  }

  /** The table lookups of D_ENCRYPT are f, for every half and every pair of schedule words. */
  lemma RoundIsF(r: Word, k: (Word, Word))
    ensures HalfBits(RoundF(r, k.0, k.1)) == Fips46.F(HalfBits(r), KeyBits(k))
  {
    hide RoundF, Joined, HalfBits, KeyBits, Fips46.Selected, Fips46.Expanded, Fips46.Xored;
    RoundIsJoined(r, k);
    JoinedIsSelected((Xor(r, k.0), Xor(r, k.1)));
    WordsHoldMixed(r, k);
  }
}
