/** The permutations of lib/crypto/ecb_encrypt.c and lib/crypto/set_key.c are those of FIPS PUB 46-3. */
module FipsPermutations {
  import opened DesLocal
  import opened Feistel
  import opened SetKey
  import opened SkTables
  import opened WordBits
  import Fips46

  // ---------- Initial permutation ----------

  /** A half of the state between the rotations: bit n of the standard is bit n modulo 32 of the word. */
  function HalfBits(w: Word): (r: Fips46.Bits)
    ensures |r| == 32
  {
    seq(32, i requires 0 <= i < 32 => Bit(w, (i + 1) % 32))
  }

  lemma IpL0(b: Block, i: nat)
    requires 0 <= i < 8
    ensures Bit(RotateIn(Ip(b)).l, (i + 1) % 32) == BlockBit(b, Fips46.IP(i + 1) - 1)
  {
    hide Bit;
    Digits(b.l);
    Digits(b.r);
    Digits0(RotateIn(Ip(b)).l);
    Digits1(RotateIn(Ip(b)).l);
    match i
    case 0 => case 1 => case 2 => case 3 => case 4 => case 5 => case 6 => case _ =>
  }

  lemma IpL1(b: Block, i: nat)
    requires 8 <= i < 16
    ensures Bit(RotateIn(Ip(b)).l, (i + 1) % 32) == BlockBit(b, Fips46.IP(i + 1) - 1)
  {
    hide Bit;
    Digits(b.l);
    Digits(b.r);
    Digits1(RotateIn(Ip(b)).l);
    Digits2(RotateIn(Ip(b)).l);
    match i
    case 8 => case 9 => case 10 => case 11 => case 12 => case 13 => case 14 => case _ =>
  }

  lemma IpL2(b: Block, i: nat)
    requires 16 <= i < 24
    ensures Bit(RotateIn(Ip(b)).l, (i + 1) % 32) == BlockBit(b, Fips46.IP(i + 1) - 1)
  {
    hide Bit;
    Digits(b.l);
    Digits(b.r);
    Digits2(RotateIn(Ip(b)).l);
    Digits3(RotateIn(Ip(b)).l);
    match i
    case 16 => case 17 => case 18 => case 19 => case 20 => case 21 => case 22 => case _ =>
  }

  lemma IpL3(b: Block, i: nat)
    requires 24 <= i < 32
    ensures Bit(RotateIn(Ip(b)).l, (i + 1) % 32) == BlockBit(b, Fips46.IP(i + 1) - 1)
  {
    hide Bit;
    Digits(b.l);
    Digits(b.r);
    Digits3(RotateIn(Ip(b)).l);
    Digits0(RotateIn(Ip(b)).l);
    match i
    case 24 => case 25 => case 26 => case 27 => case 28 => case 29 => case 30 => case _ =>
  }

  lemma IpR0(b: Block, i: nat)
    requires 0 <= i < 8
    ensures Bit(RotateIn(Ip(b)).r, (i + 1) % 32) == BlockBit(b, Fips46.IP(i + 33) - 1)
  {
    hide Bit;
    Digits(b.l);
    Digits(b.r);
    Digits0(RotateIn(Ip(b)).r);
    Digits1(RotateIn(Ip(b)).r);
    match i
    case 0 => case 1 => case 2 => case 3 => case 4 => case 5 => case 6 => case _ =>
  }

  lemma IpR1(b: Block, i: nat)
    requires 8 <= i < 16
    ensures Bit(RotateIn(Ip(b)).r, (i + 1) % 32) == BlockBit(b, Fips46.IP(i + 33) - 1)
  {
    hide Bit;
    Digits(b.l);
    Digits(b.r);
    Digits1(RotateIn(Ip(b)).r);
    Digits2(RotateIn(Ip(b)).r);
    match i
    case 8 => case 9 => case 10 => case 11 => case 12 => case 13 => case 14 => case _ =>
  }

  lemma IpR2(b: Block, i: nat)
    requires 16 <= i < 24
    ensures Bit(RotateIn(Ip(b)).r, (i + 1) % 32) == BlockBit(b, Fips46.IP(i + 33) - 1)
  {
    hide Bit;
    Digits(b.l);
    Digits(b.r);
    Digits2(RotateIn(Ip(b)).r);
    Digits3(RotateIn(Ip(b)).r);
    match i
    case 16 => case 17 => case 18 => case 19 => case 20 => case 21 => case 22 => case _ =>
  }

  lemma IpR3(b: Block, i: nat)
    requires 24 <= i < 32
    ensures Bit(RotateIn(Ip(b)).r, (i + 1) % 32) == BlockBit(b, Fips46.IP(i + 33) - 1)
  {
    hide Bit;
    Digits(b.l);
    Digits(b.r);
    Digits3(RotateIn(Ip(b)).r);
    Digits0(RotateIn(Ip(b)).r);
    match i
    case 24 => case 25 => case 26 => case 27 => case 28 => case 29 => case 30 => case _ =>
  }

  /** IP and the rotation after it are the initial permutation. */
  lemma IpIsInitialPermutation(b: Block)
    ensures var x := RotateIn(Ip(b));
            HalfBits(x.l) + HalfBits(x.r) == Fips46.InitiallyPermuted(BlockBits(b))
  {
    hide Bit, BlockBit, Ip, RotateIn, Fips46.IP;
    var x := RotateIn(Ip(b));
    forall i | 0 <= i < 32
      ensures HalfBits(x.l)[i] == BlockBit(b, Fips46.IP(i + 1) - 1)
      ensures HalfBits(x.r)[i] == BlockBit(b, Fips46.IP(i + 33) - 1)
    {
      if i < 8 {
        IpL0(b, i);
        IpR0(b, i);
      } else if i < 16 {
        IpL1(b, i);
        IpR1(b, i);
      } else if i < 24 {
        IpL2(b, i);
        IpR2(b, i);
      } else {
        IpL3(b, i);
        IpR3(b, i);
      }
    }
  }

  // ---------- Permuted choice 1 ----------

  /** A register of the key schedule, below 2^28. */
  function RegisterBits(w: Word): (r: Fips46.Bits)
    ensures |r| == 28
  {
    seq(28, i requires 0 <= i < 28 => Bit(w, i))
  }

  lemma Pc1C0(key: Block, i: nat)
    requires 0 <= i < 8
    ensures Bit(Pc1(key).c, i) == BlockBit(key, Fips46.PC1(i + 1) - 1)
  {
    hide Bit;
    Digits(key.l);
    Digits(key.r);
    Digits0(Pc1(key).c);
    match i
    case 0 => case 1 => case 2 => case 3 => case 4 => case 5 => case 6 => case _ =>
  }

  lemma Pc1C1(key: Block, i: nat)
    requires 8 <= i < 16
    ensures Bit(Pc1(key).c, i) == BlockBit(key, Fips46.PC1(i + 1) - 1)
  {
    hide Bit;
    Digits(key.l);
    Digits(key.r);
    Digits1(Pc1(key).c);
    match i
    case 8 => case 9 => case 10 => case 11 => case 12 => case 13 => case 14 => case _ =>
  }

  lemma Pc1C2(key: Block, i: nat)
    requires 16 <= i < 24
    ensures Bit(Pc1(key).c, i) == BlockBit(key, Fips46.PC1(i + 1) - 1)
  {
    hide Bit;
    Digits(key.l);
    Digits(key.r);
    Digits2(Pc1(key).c);
    match i
    case 16 => case 17 => case 18 => case 19 => case 20 => case 21 => case 22 => case _ =>
  }

  lemma Pc1C3(key: Block, i: nat)
    requires 24 <= i < 28
    ensures Bit(Pc1(key).c, i) == BlockBit(key, Fips46.PC1(i + 1) - 1)
  {
    hide Bit;
    Digits(key.l);
    Digits(key.r);
    Digits3(Pc1(key).c);
    match i
    case 24 => case 25 => case 26 => case _ =>
  }

  lemma Pc1D0(key: Block, i: nat)
    requires 0 <= i < 8
    ensures Bit(Pc1(key).d, i) == BlockBit(key, Fips46.PC1(i + 29) - 1)
  {
    hide Bit;
    Digits(key.l);
    Digits(key.r);
    Digits0(Pc1(key).d);
    match i
    case 0 => case 1 => case 2 => case 3 => case 4 => case 5 => case 6 => case _ =>
  }

  lemma Pc1D1(key: Block, i: nat)
    requires 8 <= i < 16
    ensures Bit(Pc1(key).d, i) == BlockBit(key, Fips46.PC1(i + 29) - 1)
  {
    hide Bit;
    Digits(key.l);
    Digits(key.r);
    Digits1(Pc1(key).d);
    match i
    case 8 => case 9 => case 10 => case 11 => case 12 => case 13 => case 14 => case _ =>
  }

  lemma Pc1D2(key: Block, i: nat)
    requires 16 <= i < 24
    ensures Bit(Pc1(key).d, i) == BlockBit(key, Fips46.PC1(i + 29) - 1)
  {
    hide Bit;
    Digits(key.l);
    Digits(key.r);
    Digits2(Pc1(key).d);
    match i
    case 16 => case 17 => case 18 => case 19 => case 20 => case 21 => case 22 => case _ =>
  }

  lemma Pc1D3(key: Block, i: nat)
    requires 24 <= i < 28
    ensures Bit(Pc1(key).d, i) == BlockBit(key, Fips46.PC1(i + 29) - 1)
  {
    hide Bit;
    Digits(key.l);
    Digits(key.r);
    Digits3(Pc1(key).d);
    match i
    case 24 => case 25 => case 26 => case _ =>
  }

  /** The swap-xor steps of des_set_key are permuted choice 1. */
  lemma Pc1IsChoice1(key: Block)
    ensures RegisterBits(Pc1(key).c) == Fips46.C(BlockBits(key), 0)
    ensures RegisterBits(Pc1(key).d) == Fips46.D(BlockBits(key), 0)
  {
    hide Bit, BlockBit, Pc1, Fips46.PC1;
    forall i | 0 <= i < 28
      ensures Bit(Pc1(key).c, i) == BlockBit(key, Fips46.PC1(i + 1) - 1)
      ensures Bit(Pc1(key).d, i) == BlockBit(key, Fips46.PC1(i + 29) - 1)
    {
      if i < 8 {
        Pc1C0(key, i);
        Pc1D0(key, i);
      } else if i < 16 {
        Pc1C1(key, i);
        Pc1D1(key, i);
      } else if i < 24 {
        Pc1C2(key, i);
        Pc1D2(key, i);
      } else {
        Pc1C3(key, i);
        Pc1D3(key, i);
      }
    }
  }

  // ---------- Left shifts ----------

  lemma Turn1Low(w: Word, i: nat)
    requires w & !MASK28 == 0 && 0 <= i < 14
    ensures Bit(Turn1(w), i) == Bit(w, (i + 1) % 28)
  {
    hide Bit;
    Digits(w);
    Digits(Turn1(w));
    match i
    case 0 => case 1 => case 2 => case 3 => case 4 => case 5 => case 6 => case 7 =>
    case 8 => case 9 => case 10 => case 11 => case 12 => case _ =>
  }

  lemma Turn1High(w: Word, i: nat)
    requires w & !MASK28 == 0 && 14 <= i < 28
    ensures Bit(Turn1(w), i) == Bit(w, (i + 1) % 28)
  {
    hide Bit;
    Digits(w);
    Digits(Turn1(w));
    match i
    case 14 => case 15 => case 16 => case 17 => case 18 => case 19 => case 20 => case 21 =>
    case 22 => case 23 => case 24 => case 25 => case 26 => case _ =>
  }

  lemma Turn2Low(w: Word, i: nat)
    requires w & !MASK28 == 0 && 0 <= i < 14
    ensures Bit(Turn2(w), i) == Bit(w, (i + 2) % 28)
  {
    hide Bit;
    Digits(w);
    Digits(Turn2(w));
    match i
    case 0 => case 1 => case 2 => case 3 => case 4 => case 5 => case 6 => case 7 =>
    case 8 => case 9 => case 10 => case 11 => case 12 => case _ =>
  }

  lemma Turn2High(w: Word, i: nat)
    requires w & !MASK28 == 0 && 14 <= i < 28
    ensures Bit(Turn2(w), i) == Bit(w, (i + 2) % 28)
  {
    hide Bit;
    Digits(w);
    Digits(Turn2(w));
    match i
    case 14 => case 15 => case 16 => case 17 => case 18 => case 19 => case 20 => case 21 =>
    case 22 => case 23 => case 24 => case 25 => case 26 => case _ =>
  }

  lemma ShiftedAt(c: Fips46.Bits, m: nat, i: nat)
    requires |c| == 28 && m < 28 && i < 28
    ensures Fips46.ShiftedLeft(c, m)[i] == c[(i + m) % 28]
  {
  }

  lemma TurnIsLeftShift(w: Word)
    requires w & !MASK28 == 0
    ensures RegisterBits(Turn1(w)) == Fips46.ShiftedLeft(RegisterBits(w), 1)
    ensures RegisterBits(Turn2(w)) == Fips46.ShiftedLeft(RegisterBits(w), 2)
  {
    hide Bit, Turn1, Turn2;
    forall i | 0 <= i < 28
      ensures Bit(Turn1(w), i) == Bit(w, (i + 1) % 28)
      ensures Bit(Turn2(w), i) == Bit(w, (i + 2) % 28)
    {
      if i < 14 {
        Turn1Low(w, i);
        Turn2Low(w, i);
      } else {
        Turn1High(w, i);
        Turn2High(w, i);
      }
    }
    forall i | 0 <= i < 28
      ensures RegisterBits(Turn1(w))[i] == Fips46.ShiftedLeft(RegisterBits(w), 1)[i]
      ensures RegisterBits(Turn2(w))[i] == Fips46.ShiftedLeft(RegisterBits(w), 2)[i]
    {
      ShiftedAt(RegisterBits(w), 1, i);
      ShiftedAt(RegisterBits(w), 2, i);
    }
  }

  // ---------- Permuted choice 2 ----------

  /** Where bit i of a 48-bit block is in its word: groups of six, in turn from the first word and from the second. */
  function Place(i: nat): (n: nat)
    requires i < 48
    ensures n < 32
  {
    (8 * (i / 12) + if i % 12 < 6 then i % 12 else i % 12 - 2) % 32
  }

  function KeyBit(k: (Word, Word), i: nat): bool
    requires i < 48
  {
    Bit(if i % 12 < 6 then k.0 else k.1, Place(i))
  }

  function KeyBits(k: (Word, Word)): (r: Fips46.Bits)
    ensures |r| == 48
  {
    seq(48, i requires 0 <= i < 48 => KeyBit(k, i))
  }

  function RegistersBit(h: Halves, k: nat): bool
    requires k < 56
  {
    if k < 28 then Bit(h.c, k) else Bit(h.d, k - 28)
  }

  lemma Pc2First1(h: Halves)
    ensures (SubKey(h).0 & 0x00000001 != 0) == (h.c & 0x00002000 != 0)
    ensures (SubKey(h).0 & 0x00000002 != 0) == (h.c & 0x00010000 != 0)
    ensures (SubKey(h).0 & 0x00000004 != 0) == (h.c & 0x00000400 != 0)
  {
    hide Skb0, Skb1, Skb2, Skb3, Skb4, Skb5, Skb6, Skb7;
  }

  lemma Pc2Last1(h: Halves)
    ensures (SubKey(h).0 & 0x00000008 != 0) == (h.c & 0x00800000 != 0)
    ensures (SubKey(h).0 & 0x00000010 != 0) == (h.c & 0x00000001 != 0)
    ensures (SubKey(h).0 & 0x00000020 != 0) == (h.c & 0x00000010 != 0)
  {
    hide Skb0, Skb1, Skb2, Skb3, Skb4, Skb5, Skb6, Skb7;
  }

  lemma Pc2Group1(h: Halves, i: nat)
    requires 0 <= i < 6
    ensures KeyBit(SubKey(h), i) == RegistersBit(h, Fips46.PC2(i + 1) - 1)
  {
    hide Bit, SubKey;
    Digits(h.c);
    Digits0(SubKey(h).0);
    Pc2First1(h);
    Pc2Last1(h);
    match i
    case 0 => case 1 => case 2 => case 3 => case 4 => case _ =>
  }

  lemma Pc2First2(h: Halves)
    ensures (SubKey(h).1 & 0x00000010 != 0) == (h.c & 0x00000004 != 0)
    ensures (SubKey(h).1 & 0x00000020 != 0) == (h.c & 0x08000000 != 0)
    ensures (SubKey(h).1 & 0x00000040 != 0) == (h.c & 0x00004000 != 0)
  {
    hide Skb0, Skb1, Skb2, Skb3, Skb4, Skb5, Skb6, Skb7;
  }

  lemma Pc2Last2(h: Halves)
    ensures (SubKey(h).1 & 0x00000080 != 0) == (h.c & 0x00000020 != 0)
    ensures (SubKey(h).1 & 0x00000100 != 0) == (h.c & 0x00100000 != 0)
    ensures (SubKey(h).1 & 0x00000200 != 0) == (h.c & 0x00000200 != 0)
  {
    hide Skb0, Skb1, Skb2, Skb3, Skb4, Skb5, Skb6, Skb7;
  }

  lemma Pc2Group2(h: Halves, i: nat)
    requires 6 <= i < 12
    ensures KeyBit(SubKey(h), i) == RegistersBit(h, Fips46.PC2(i + 1) - 1)
  {
    hide Bit, SubKey;
    Digits(h.c);
    Digits0(SubKey(h).1);
    Digits1(SubKey(h).1);
    Pc2First2(h);
    Pc2Last2(h);
    match i
    case 6 => case 7 => case 8 => case 9 => case 10 => case _ =>
  }

  lemma Pc2First3(h: Halves)
    ensures (SubKey(h).0 & 0x00000100 != 0) == (h.c & 0x00400000 != 0)
    ensures (SubKey(h).0 & 0x00000200 != 0) == (h.c & 0x00040000 != 0)
    ensures (SubKey(h).0 & 0x00000400 != 0) == (h.c & 0x00000800 != 0)
  {
    hide Skb0, Skb1, Skb2, Skb3, Skb4, Skb5, Skb6, Skb7;
  }

  lemma Pc2Last3(h: Halves)
    ensures (SubKey(h).0 & 0x00000800 != 0) == (h.c & 0x00000008 != 0)
    ensures (SubKey(h).0 & 0x00001000 != 0) == (h.c & 0x02000000 != 0)
    ensures (SubKey(h).0 & 0x00002000 != 0) == (h.c & 0x00000080 != 0)
  {
    hide Skb0, Skb1, Skb2, Skb3, Skb4, Skb5, Skb6, Skb7;
  }

  lemma Pc2Group3(h: Halves, i: nat)
    requires 12 <= i < 18
    ensures KeyBit(SubKey(h), i) == RegistersBit(h, Fips46.PC2(i + 1) - 1)
  {
    hide Bit, SubKey;
    Digits(h.c);
    Digits1(SubKey(h).0);
    Pc2First3(h);
    Pc2Last3(h);
    match i
    case 12 => case 13 => case 14 => case 15 => case 16 => case _ =>
  }

  lemma Pc2First4(h: Halves)
    ensures (SubKey(h).1 & 0x00001000 != 0) == (h.c & 0x00008000 != 0)
    ensures (SubKey(h).1 & 0x00002000 != 0) == (h.c & 0x00000040 != 0)
    ensures (SubKey(h).1 & 0x00004000 != 0) == (h.c & 0x04000000 != 0)
  {
    hide Skb0, Skb1, Skb2, Skb3, Skb4, Skb5, Skb6, Skb7;
  }

  lemma Pc2Last4(h: Halves)
    ensures (SubKey(h).1 & 0x00008000 != 0) == (h.c & 0x00080000 != 0)
    ensures (SubKey(h).1 & 0x00010000 != 0) == (h.c & 0x00001000 != 0)
    ensures (SubKey(h).1 & 0x00020000 != 0) == (h.c & 0x00000002 != 0)
  {
    hide Skb0, Skb1, Skb2, Skb3, Skb4, Skb5, Skb6, Skb7;
  }

  lemma Pc2Group4(h: Halves, i: nat)
    requires 18 <= i < 24
    ensures KeyBit(SubKey(h), i) == RegistersBit(h, Fips46.PC2(i + 1) - 1)
  {
    hide Bit, SubKey;
    Digits(h.c);
    Digits1(SubKey(h).1);
    Digits2(SubKey(h).1);
    Pc2First4(h);
    Pc2Last4(h);
    match i
    case 18 => case 19 => case 20 => case 21 => case 22 => case _ =>
  }

  lemma Pc2First5(h: Halves)
    ensures (SubKey(h).0 & 0x00010000 != 0) == (h.d & 0x00001000 != 0)
    ensures (SubKey(h).0 & 0x00020000 != 0) == (h.d & 0x00800000 != 0)
    ensures (SubKey(h).0 & 0x00040000 != 0) == (h.d & 0x00000004 != 0)
  {
    hide Skb0, Skb1, Skb2, Skb3, Skb4, Skb5, Skb6, Skb7;
  }

  lemma Pc2Last5(h: Halves)
    ensures (SubKey(h).0 & 0x00080000 != 0) == (h.d & 0x00000100 != 0)
    ensures (SubKey(h).0 & 0x00100000 != 0) == (h.d & 0x00040000 != 0)
    ensures (SubKey(h).0 & 0x00200000 != 0) == (h.d & 0x04000000 != 0)
  {
    hide Skb0, Skb1, Skb2, Skb3, Skb4, Skb5, Skb6, Skb7;
  }

  lemma Pc2Group5(h: Halves, i: nat)
    requires 24 <= i < 30
    ensures KeyBit(SubKey(h), i) == RegistersBit(h, Fips46.PC2(i + 1) - 1)
  {
    hide Bit, SubKey;
    Digits(h.d);
    Digits2(SubKey(h).0);
    Pc2First5(h);
    Pc2Last5(h);
    match i
    case 24 => case 25 => case 26 => case 27 => case 28 => case _ =>
  }

  lemma Pc2First6(h: Halves)
    ensures (SubKey(h).1 & 0x00100000 != 0) == (h.d & 0x00000002 != 0)
    ensures (SubKey(h).1 & 0x00200000 != 0) == (h.d & 0x00000800 != 0)
    ensures (SubKey(h).1 & 0x00400000 != 0) == (h.d & 0x00400000 != 0)
  {
    hide Skb0, Skb1, Skb2, Skb3, Skb4, Skb5, Skb6, Skb7;
  }

  lemma Pc2Last6(h: Halves)
    ensures (SubKey(h).1 & 0x00800000 != 0) == (h.d & 0x00010000 != 0)
    ensures (SubKey(h).1 & 0x01000000 != 0) == (h.d & 0x00000010 != 0)
    ensures (SubKey(h).1 & 0x02000000 != 0) == (h.d & 0x00080000 != 0)
  {
    hide Skb0, Skb1, Skb2, Skb3, Skb4, Skb5, Skb6, Skb7;
  }

  lemma Pc2Group6(h: Halves, i: nat)
    requires 30 <= i < 36
    ensures KeyBit(SubKey(h), i) == RegistersBit(h, Fips46.PC2(i + 1) - 1)
  {
    hide Bit, SubKey;
    Digits(h.d);
    Digits2(SubKey(h).1);
    Digits3(SubKey(h).1);
    Pc2First6(h);
    Pc2Last6(h);
    match i
    case 30 => case 31 => case 32 => case 33 => case 34 => case _ =>
  }

  lemma Pc2First7(h: Halves)
    ensures (SubKey(h).0 & 0x01000000 != 0) == (h.d & 0x00008000 != 0)
    ensures (SubKey(h).0 & 0x02000000 != 0) == (h.d & 0x00100000 != 0)
    ensures (SubKey(h).0 & 0x04000000 != 0) == (h.d & 0x00000400 != 0)
  {
    hide Skb0, Skb1, Skb2, Skb3, Skb4, Skb5, Skb6, Skb7;
  }

  lemma Pc2Last7(h: Halves)
    ensures (SubKey(h).0 & 0x08000000 != 0) == (h.d & 0x08000000 != 0)
    ensures (SubKey(h).0 & 0x10000000 != 0) == (h.d & 0x00000020 != 0)
    ensures (SubKey(h).0 & 0x20000000 != 0) == (h.d & 0x01000000 != 0)
  {
    hide Skb0, Skb1, Skb2, Skb3, Skb4, Skb5, Skb6, Skb7;
  }

  lemma Pc2Group7(h: Halves, i: nat)
    requires 36 <= i < 42
    ensures KeyBit(SubKey(h), i) == RegistersBit(h, Fips46.PC2(i + 1) - 1)
  {
    hide Bit, SubKey;
    Digits(h.d);
    Digits3(SubKey(h).0);
    Pc2First7(h);
    Pc2Last7(h);
    match i
    case 36 => case 37 => case 38 => case 39 => case 40 => case _ =>
  }

  lemma Pc2First8(h: Halves)
    ensures (SubKey(h).1 & 0x10000000 != 0) == (h.d & 0x00020000 != 0)
    ensures (SubKey(h).1 & 0x20000000 != 0) == (h.d & 0x00002000 != 0)
    ensures (SubKey(h).1 & 0x40000000 != 0) == (h.d & 0x00200000 != 0)
  {
    hide Skb0, Skb1, Skb2, Skb3, Skb4, Skb5, Skb6, Skb7;
  }

  lemma Pc2Last8(h: Halves)
    ensures (SubKey(h).1 & 0x80000000 != 0) == (h.d & 0x00000080 != 0)
    ensures (SubKey(h).1 & 0x00000001 != 0) == (h.d & 0x00000001 != 0)
    ensures (SubKey(h).1 & 0x00000002 != 0) == (h.d & 0x00000008 != 0)
  {
    hide Skb0, Skb1, Skb2, Skb3, Skb4, Skb5, Skb6, Skb7;
  }

  lemma Pc2Group8(h: Halves, i: nat)
    requires 42 <= i < 48
    ensures KeyBit(SubKey(h), i) == RegistersBit(h, Fips46.PC2(i + 1) - 1)
  {
    hide Bit, SubKey;
    Digits(h.d);
    Digits3(SubKey(h).1);
    Digits0(SubKey(h).1);
    Pc2First8(h);
    Pc2Last8(h);
    match i
    case 42 => case 43 => case 44 => case 45 => case 46 => case _ =>
  }

  /** The skb lookups and the shuffling of s and t are permuted choice 2. */
  lemma SubKeyIsChoice2(h: Halves)
    ensures KeyBits(SubKey(h)) == Fips46.Chosen2(RegisterBits(h.c) + RegisterBits(h.d))
  {
    hide Bit, SubKey, KeyBit, Fips46.PC2;
    forall i | 0 <= i < 48
      ensures KeyBit(SubKey(h), i) == RegistersBit(h, Fips46.PC2(i + 1) - 1)
    {
      if i < 6 {
        Pc2Group1(h, i);
      } else if i < 12 {
        Pc2Group2(h, i);
      } else if i < 18 {
        Pc2Group3(h, i);
      } else if i < 24 {
        Pc2Group4(h, i);
      } else if i < 30 {
        Pc2Group5(h, i);
      } else if i < 36 {
        Pc2Group6(h, i);
      } else if i < 42 {
        Pc2Group7(h, i);
      } else {
        Pc2Group8(h, i);
      }
    }
  }
}
