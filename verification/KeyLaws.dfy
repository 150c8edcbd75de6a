/** Laws of the key schedule and the cipher together. */
module KeyLaws {
  import opened DesLocal
  import opened Feistel
  import opened SkTables
  import opened DEncrypt
  import opened SetKey

  // ---------- The sixteen rotations total 28 places ----------

  function EightTurns(w: Word): Word {
    Turn2(Turn2(Turn2(Turn2(Turn2(Turn2(Turn1(Turn1(w))))))))
  }

  function LastEightTurns(w: Word): Word {
    Turn1(Turn2(Turn2(Turn2(Turn2(Turn2(Turn2(Turn1(w))))))))
  }

  lemma FullTurn(w: Word)
    requires w & !MASK28 == 0
    ensures LastEightTurns(EightTurns(w)) == w
  {
  }

  lemma TurnedHalfWay(h: Halves)
    ensures Turned(h, 8) == Halves(EightTurns(h.c), EightTurns(h.d))
  {
    hide Turn1, Turn2;
    var h1 := Turned(h, 1);
    assert h1 == Turn(false, h) by { assert Turned(h, 0) == h; }
    assert Turned(h, 2) == Turn(false, h1);
    assert Turned(h, 3) == Turn(true, Turned(h, 2));
    assert Turned(h, 4) == Turn(true, Turned(h, 3));
    assert Turned(h, 5) == Turn(true, Turned(h, 4));
    assert Turned(h, 6) == Turn(true, Turned(h, 5));
    assert Turned(h, 7) == Turn(true, Turned(h, 6));
  }

  lemma TurnedToTheEnd(h: Halves)
    ensures var m := Turned(h, 8); Turned(h, 16) == Halves(LastEightTurns(m.c), LastEightTurns(m.d))
  {
    hide Turn1, Turn2;
    assert Turned(h, 9) == Turn(false, Turned(h, 8));
    assert Turned(h, 10) == Turn(true, Turned(h, 9));
    assert Turned(h, 11) == Turn(true, Turned(h, 10));
    assert Turned(h, 12) == Turn(true, Turned(h, 11));
    assert Turned(h, 13) == Turn(true, Turned(h, 12));
    assert Turned(h, 14) == Turn(true, Turned(h, 13));
    assert Turned(h, 15) == Turn(true, Turned(h, 14));
  }

  /** After the last round the registers hold what PC1 put there. */
  lemma TurnsComeBack(h: Halves)
    requires Below28(h)
    ensures Turned(h, 16) == h
  {
    hide Turned, EightTurns, LastEightTurns;
    TurnedHalfWay(h);
    TurnedToTheEnd(h);
    FullTurn(h.c);
    FullTurn(h.d);
  }

  // ---------- Parity bits ----------

  /** Two words are the same in the bits of a mask. */
  predicate Agree(x: Word, y: Word, m: Word) {
    (x ^ y) & m == 0
  }

  /** Two keys are the same but for the low bit of each byte. */
  predicate SameButParity(key: Block, key': Block) {
    Agree(key.l, key'.l, 0xfefefefe) && Agree(key.r, key'.r, 0xfefefefe)
  }

  // Where the parity bits go, step by step: into d, and out of it with its top byte.

  lemma Parity1(d: Word, c: Word, d': Word, c': Word)
    requires Agree(d, d', 0xfefefefe) && Agree(c, c', 0xfefefefe)
    ensures Agree(PermOp4(d, c).0, PermOp4(d', c').0, 0xeeeeeeee) && PermOp4(d, c).1 == PermOp4(d', c').1
  {
  }

  lemma Parity2(d: Word, d': Word)
    requires Agree(d, d', 0xeeeeeeee)
    ensures Agree(HPermOp(d), HPermOp(d'), 0xaaaaffff)
  {
  }

  lemma Parity3(d: Word, c: Word, d': Word)
    requires Agree(d, d', 0xaaaaffff)
    ensures Agree(PermOp1(d, c).0, PermOp1(d', c).0, 0xaaaaffff) && PermOp1(d, c).1 == PermOp1(d', c).1
  {
  }

  lemma Parity4(c: Word, d: Word, d': Word)
    requires Agree(d, d', 0xaaaaffff)
    ensures Agree(PermOp8(c, d).0, PermOp8(c, d').0, 0xaaffffff) && Agree(PermOp8(c, d).1, PermOp8(c, d').1, 0xaaffffff)
  {
  }

  lemma Parity5(d: Word, c: Word, d': Word, c': Word)
    requires Agree(d, d', 0xaaffffff) && Agree(c, c', 0xaaffffff)
    ensures Agree(PermOp1(d, c).0, PermOp1(d', c').0, 0x00ffffff) && PermOp1(d, c).1 == PermOp1(d', c').1
  {
  }

  lemma Parity6(c: Word, d: Word, d': Word)
    requires Agree(d, d', 0x00ffffff)
    ensures Pc1Split(Block(c, d)) == Pc1Split(Block(c, d'))
  {
    hide Pc1D, Agree;
    SameLowBytes(d, d');
  }

  lemma SameLowBytes(d: Word, d': Word)
    requires Agree(d, d', 0x00ffffff)
    ensures d & 0x000000ff == d' & 0x000000ff && d & 0x0000ff00 == d' & 0x0000ff00 && d & 0x00ff0000 == d' & 0x00ff0000
  {
  }

  lemma Pc1IgnoresParity(key: Block, key': Block)
    requires SameButParity(key, key')
    ensures Pc1(key) == Pc1(key')
  {
    hide Agree, PermOp1, PermOp4, PermOp8, HPermOp, Pc1Split;
    var (d1, c1) := PermOp4(key.r, key.l);
    var (d1', c1') := PermOp4(key'.r, key'.l);
    Parity1(key.r, key.l, key'.r, key'.l);
    var c2, d2, d2' := HPermOp(c1), HPermOp(d1), HPermOp(d1');
    Parity2(d1, d1');
    var (d3, c3) := PermOp1(d2, c2);
    var (d3', c3') := PermOp1(d2', c2);
    Parity3(d2, c2, d2');
    var (c4, d4) := PermOp8(c3, d3);
    var (c4', d4') := PermOp8(c3, d3');
    Parity4(c3, d3, d3');
    Parity5(d4, c4, d4', c4');
    Parity6(PermOp1(d4, c4).1, PermOp1(d4, c4).0, PermOp1(d4', c4').0);
  }

  /** Keys that differ only in parity bits have the same schedule. */
  lemma ScheduleIgnoresParity(key: Block, key': Block)
    requires SameButParity(key, key')
    ensures Schedule(key) == Schedule(key')
  {
    hide Pc1, SameButParity, SubKey, Turned;
    Pc1IgnoresParity(key, key');
    assert forall n | 0 <= n < 16 :: RoundPair(key, n) == RoundPair(key', n);
  }

  // ---------- The complement law ----------

  function Not(w: Word): Word {
    !w
  }

  function NotBlock(b: Block): Block {
    Block(Not(b.l), Not(b.r))
  }

  function Not28(w: Word): Word {
    w ^ MASK28
  }

  function NotHalves(h: Halves): Halves {
    Halves(Not28(h.c), Not28(h.d))
  }

  // PERM_OP and HPERM_OP commute with complement.

  lemma PermOp16Not(a: Word, b: Word)
    ensures PermOp16(Not(a), Not(b)) == (Not(PermOp16(a, b).0), Not(PermOp16(a, b).1))
  {
  }

  lemma PermOp8Not(a: Word, b: Word)
    ensures PermOp8(Not(a), Not(b)) == (Not(PermOp8(a, b).0), Not(PermOp8(a, b).1))
  {
  }

  lemma PermOp4Not(a: Word, b: Word)
    ensures PermOp4(Not(a), Not(b)) == (Not(PermOp4(a, b).0), Not(PermOp4(a, b).1))
  {
  }

  lemma PermOp2Not(a: Word, b: Word)
    ensures PermOp2(Not(a), Not(b)) == (Not(PermOp2(a, b).0), Not(PermOp2(a, b).1))
  {
  }

  lemma PermOp1Not(a: Word, b: Word)
    ensures PermOp1(Not(a), Not(b)) == (Not(PermOp1(a, b).0), Not(PermOp1(a, b).1))
  {
  }

  lemma HPermOpOfComplement(a: Word)
    ensures HPermOp(!a) == !HPermOp(a)
  {
  }

  lemma HPermOpNot(a: Word)
    ensures HPermOp(Not(a)) == Not(HPermOp(a))
  {
    hide HPermOp;
    HPermOpOfComplement(a);
  }

  lemma IpNot(b: Block)
    ensures Ip(NotBlock(b)) == NotBlock(Ip(b))
  {
    hide PermOp1, PermOp2, PermOp4, PermOp8, PermOp16, Not;
    var (r1, l1) := PermOp4(b.r, b.l);
    var (l2, r2) := PermOp16(l1, r1);
    var (r3, l3) := PermOp2(r2, l2);
    var (l4, r4) := PermOp8(l3, r3);
    PermOp4Not(b.r, b.l);
    PermOp16Not(l1, r1);
    PermOp2Not(r2, l2);
    PermOp8Not(l3, r3);
    PermOp1Not(r4, l4);
  }

  lemma FpNot(b: Block)
    ensures Fp(NotBlock(b)) == NotBlock(Fp(b))
  {
    hide PermOp1, PermOp2, PermOp4, PermOp8, PermOp16, Not;
    var (r1, l1) := PermOp1(b.r, b.l);
    var (l2, r2) := PermOp8(l1, r1);
    var (r3, l3) := PermOp2(r2, l2);
    var (l4, r4) := PermOp16(l3, r3);
    PermOp1Not(b.r, b.l);
    PermOp8Not(l1, r1);
    PermOp2Not(r2, l2);
    PermOp16Not(l3, r3);
    PermOp4Not(r4, l4);
  }

  lemma RotationsNot(w: Word)
    ensures Rol1(Not(w)) == Not(Rol1(w)) && Ror1(Not(w)) == Not(Ror1(w))
  {
  }

  lemma XorNot(a: Word, b: Word)
    ensures Xor(Not(a), b) == Not(Xor(a, b))
  {
  }

  lemma Pc1SwapsNot(key: Block)
    ensures Pc1Swaps(NotBlock(key)) == NotBlock(Pc1Swaps(key))
  {
    hide PermOp1, PermOp4, PermOp8, HPermOp, Not;
    var (d1, c1) := PermOp4(key.r, key.l);
    var c2, d2 := HPermOp(c1), HPermOp(d1);
    var (d3, c3) := PermOp1(d2, c2);
    var (c4, d4) := PermOp8(c3, d3);
    PermOp4Not(key.r, key.l);
    HPermOpNot(c1);
    HPermOpNot(d1);
    PermOp1Not(d2, c2);
    PermOp8Not(c3, d3);
    PermOp1Not(d4, c4);
  }

  lemma Pc1SplitNot(b: Block)
    ensures Pc1Split(NotBlock(b)) == NotHalves(Pc1Split(b))
  {
  }

  lemma TurnNot(two: bool, h: Halves)
    requires Below28(h)
    ensures Turn(two, NotHalves(h)) == NotHalves(Turn(two, h))
  {
  }

  lemma {:induction false} TurnedNot(h: Halves, n: nat)
    requires n <= 16 && Below28(h)
    ensures Turned(NotHalves(h), n) == NotHalves(Turned(h, n))
  {
    if n > 0 {
      hide Turn, NotHalves;
      TurnedNot(h, n - 1);
      TurnsStayBelow28(h, n - 1);
      TurnNot(SHIFTS2[n - 1], Turned(h, n - 1));
    }
  }

  function NotQuad(q: Quad): Quad {
    Quad(!q.a, !q.b, !q.c, !q.d)
  }

  lemma IndicesNot(w: Word)
    ensures CIndices(Not28(w)) == NotQuad(CIndices(w)) && DIndices(Not28(w)) == NotQuad(DIndices(w))
  {
  }

  /** The bits of a schedule half that the round function looks at. */
  const LOOKED: Word := 0x3f3f3f3f

  lemma Skb0Not(i: bv6)
    ensures Skb0(!i) == Xor(Skb0(i), 0x20090830) && Skb0(i) & !0x20090830 == 0
  {
    hide Skb0;
  }

  lemma Skb1Not(i: bv6)
    ensures Skb1(!i) == Xor(Skb1(i), 0x12202404) && Skb1(i) & !0x12202404 == 0
  {
    hide Skb1;
  }

  lemma Skb2Not(i: bv6)
    ensures Skb2(!i) == Xor(Skb2(i), 0x09040203) && Skb2(i) & !0x09040203 == 0
  {
    hide Skb2;
  }

  lemma Skb3Not(i: bv6)
    ensures Skb3(!i) == Xor(Skb3(i), 0x04121108) && Skb3(i) & !0x04121108 == 0
  {
    hide Skb3;
  }

  lemma Skb4Not(i: bv6)
    ensures Skb4(!i) == Xor(Skb4(i), 0x30111004) && Skb4(i) & !0x30111004 == 0
  {
    hide Skb4;
  }

  lemma Skb5Not(i: bv6)
    ensures Skb5(!i) == Xor(Skb5(i), 0x0a020409) && Skb5(i) & !0x0a020409 == 0
  {
    hide Skb5;
  }

  lemma Skb6Not(i: bv6)
    ensures Skb6(!i) == Xor(Skb6(i), 0x01280310) && Skb6(i) & !0x01280310 == 0
  {
    hide Skb6;
  }

  lemma Skb7Not(i: bv6)
    ensures Skb7(!i) == Xor(Skb7(i), 0x04042822) && Skb7(i) & !0x04042822 == 0
  {
    hide Skb7;
  }

  /** The masks of the tables of either register are disjoint and make up LOOKED. */
  lemma COr4Not(a: Word, b: Word, c: Word, d: Word)
    requires a & !0x20090830 == 0 && b & !0x12202404 == 0 && c & !0x09040203 == 0 && d & !0x04121108 == 0
    ensures Or4(Xor(a, 0x20090830), Xor(b, 0x12202404), Xor(c, 0x09040203), Xor(d, 0x04121108)) ==
            Xor(Or4(a, b, c, d), LOOKED)
  {
  }

  lemma DOr4Not(a: Word, b: Word, c: Word, d: Word)
    requires a & !0x30111004 == 0 && b & !0x0a020409 == 0 && c & !0x01280310 == 0 && d & !0x04042822 == 0
    ensures Or4(Xor(a, 0x30111004), Xor(b, 0x0a020409), Xor(c, 0x01280310), Xor(d, 0x04042822)) ==
            Xor(Or4(a, b, c, d), LOOKED)
  {
  }

  lemma SWordNot(q: Quad)
    ensures SWord(NotQuad(q)) == Xor(SWord(q), LOOKED)
  {
    hide Skb0, Skb1, Skb2, Skb3, Spread0, Spread1, Spread2, Spread3, Or4, Xor;
    Skb0Not(q.a);
    Skb1Not(q.b);
    Skb2Not(q.c);
    Skb3Not(q.d);
    COr4Not(Skb0(q.a), Skb1(q.b), Skb2(q.c), Skb3(q.d));
  }

  lemma TWordNot(q: Quad)
    ensures TWord(NotQuad(q)) == Xor(TWord(q), LOOKED)
  {
    hide Skb4, Skb5, Skb6, Skb7, Spread4, Spread5, Spread6, Spread7, Or4, Xor;
    Skb4Not(q.a);
    Skb5Not(q.b);
    Skb6Not(q.c);
    Skb7Not(q.d);
    DOr4Not(Skb4(q.a), Skb5(q.b), Skb6(q.c), Skb7(q.d));
  }

  lemma WordsNot(s: Word, t: Word)
    ensures Word0(Xor(s, LOOKED), Xor(t, LOOKED)) == Xor(Word0(s, t), LOOKED)
    ensures Word1(Xor(s, LOOKED), Xor(t, LOOKED)) == Xor(Word1(s, t), 0xf3f3f3f3)
  {
  }

  /** Complementing the registers complements exactly the schedule bits that are looked at. */
  lemma SubKeyNot(h: Halves)
    ensures SubKey(NotHalves(h)) == (Xor(SubKey(h).0, LOOKED), Xor(SubKey(h).1, 0xf3f3f3f3))
  {
    hide CIndices, DIndices, SWord, TWord, Word0, Word1, Xor, Not28, NotQuad;
    IndicesNot(h.c);
    IndicesNot(h.d);
    SWordNot(CIndices(h.c));
    TWordNot(DIndices(h.d));
    WordsNot(SWord(CIndices(h.c)), TWord(DIndices(h.d)));
  }

  lemma RoundPairNot(key: Block, n: nat)
    requires n < 16
    ensures RoundPair(NotBlock(key), n) == (Xor(RoundPair(key, n).0, LOOKED), Xor(RoundPair(key, n).1, 0xf3f3f3f3))
  {
    hide Pc1Swaps, Pc1Split, Turned, SubKey, Xor, NotHalves, NotBlock;
    Pc1SwapsNot(key);
    Pc1SplitNot(Pc1Swaps(key));
    SplitBelow28(Pc1Swaps(key));
    TurnedNot(Pc1(key), n + 1);
    SubKeyNot(Turned(Pc1(key), n + 1));
  }

  lemma RoundFNot(r: Word, k0: Word, k1: Word)
    ensures RoundF(Not(r), Xor(k0, LOOKED), Xor(k1, 0xf3f3f3f3)) == RoundF(r, k0, k1)
  {
    hide SpOr, EvenIndices, OddIndices, Xor, Not;
    RoundIndicesNot(r, k0, k1);
  }

  lemma RoundIndicesNot(r: Word, k0: Word, k1: Word)
    ensures EvenIndices(Not(r), Xor(k0, LOOKED)) == EvenIndices(r, k0)
    ensures OddIndices(Not(r), Xor(k1, 0xf3f3f3f3)) == OddIndices(r, k1)
  {
  }

  lemma {:induction false} RoundsNot(key: Block, encrypt: bool, n: nat, b: Block)
    requires n <= 16
    ensures Rounds(RoundF, Schedule(NotBlock(key)), encrypt, n, NotBlock(b)) ==
            NotBlock(Rounds(RoundF, Schedule(key), encrypt, n, b))
  {
    hide Schedule, RoundPair, RoundF, Xor, Not;
    if n > 0 {
      RoundsNot(key, encrypt, n - 1, b);
      var s := Rounds(RoundF, Schedule(key), encrypt, n - 1, b);
      ScheduleRoundKey(key, encrypt, n - 1);
      ScheduleRoundKey(NotBlock(key), encrypt, n - 1);
      var j := if encrypt then n - 1 else 16 - n;
      RoundPairNot(key, j);
      RoundFNot(s.r, RoundPair(key, j).0, RoundPair(key, j).1);
      XorNot(s.l, RoundF(s.r, RoundPair(key, j).0, RoundPair(key, j).1));
    }
  }

  /**
   For every key and block, the complemented block under the schedule of the
   complemented key is the complemented result, in either direction.
   */
  lemma ComplementLaw(key: Block, encrypt: bool, b: Block)
    ensures Des(RoundF, Schedule(NotBlock(key)), encrypt)(NotBlock(b)) ==
            NotBlock(Des(RoundF, Schedule(key), encrypt)(b))
  {
    hide Ip, Fp, Rol1, Ror1, Rounds, Schedule, RoundF, Not;
    var i := Ip(b);
    var x := Rounds(RoundF, Schedule(key), encrypt, 16, RotateIn(i));
    IpNot(b);
    RotationsNot(i.l);
    RotationsNot(i.r);
    RoundsNot(key, encrypt, 16, RotateIn(i));
    RotationsNot(x.l);
    RotationsNot(x.r);
    FpNot(RotateOut(x));
  }

  // ---------- Keys with uniform halves ----------

  ghost predicate Uniform(w: Word) {
    w == 0 || w == MASK28
  }

  lemma UniformTurns(w: Word)
    requires Uniform(w)
    ensures Turn1(w) == w && Turn2(w) == w
  {
  }

  lemma {:induction false} UniformTurned(h: Halves, n: nat)
    requires n <= 16 && Uniform(h.c) && Uniform(h.d)
    ensures Turned(h, n) == h
  {
    hide Turn1, Turn2, Uniform;
    if n > 0 {
      UniformTurned(h, n - 1);
      UniformTurns(h.c);
      UniformTurns(h.d);
    }
  }

  /** Enciphering with a schedule goes through the rounds of deciphering with the reverse one. */
  lemma {:induction false} SameRounds(f: RoundFn, ks': KeySchedule, ks: KeySchedule, n: nat, b: Block)
    requires n <= 16
    requires forall i | 0 <= i < 16 :: RoundKey(ks', true, i) == RoundKey(ks, false, i)
    ensures Rounds(f, ks', true, n, b) == Rounds(f, ks, false, n, b)
  {
    hide Round, RoundKey;
    if n > 0 {
      SameRounds(f, ks', ks, n - 1, b);
    }
  }

  /**
   When the halves PC1 makes of a key are each all zeros or all ones, all
   sixteen pairs of schedule words are equal and encrypting twice is the identity.
   */
  lemma UniformHalvesInvolution(key: Block, b: Block)
    requires Uniform(Pc1(key).c) && Uniform(Pc1(key).d)
    ensures forall i, j | 0 <= i < 16 && 0 <= j < 16 :: RoundPair(key, i) == RoundPair(key, j)
    ensures var e := Des(RoundF, Schedule(key), true); e(e(b)) == b
  {
    hide Uniform, Pc1, Schedule, SubKey, Ip, Fp, RotateIn, RotateOut, RoundF, Turned;
    var ks := Schedule(key);
    forall i | 0 <= i < 16
      ensures RoundPair(key, i) == SubKey(Pc1(key))
      ensures RoundKey(ks, true, i) == RoundKey(ks, false, i) == SubKey(Pc1(key))
    {
      UniformTurned(Pc1(key), i + 1);
      UniformTurned(Pc1(key), 15 - i + 1);
      ScheduleRoundKey(key, true, i);
      ScheduleRoundKey(key, false, i);
    }
    var c := Cipher(RoundF, ks, true, b);
    SameRounds(RoundF, ks, ks, 16, RotateIn(Ip(c)));
    CipherInverse(RoundF, ks, true, b);
  }
}
