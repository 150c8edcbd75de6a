/** The two forms of D_ENCRYPT, with the library's tables (lib/crypto/ecb_encrypt.c, lib/crypto/spr.h). */
module DEncrypt {
  import opened DesLocal
  import opened Feistel
  import opened SpTables

  function Or8(a: Word, b: Word, c: Word, d: Word, e: Word, f: Word, g: Word, h: Word): Word {
    a | b | c | d | e | f | g | h
  }

  function Sum8(a: Word, b: Word, c: Word, d: Word, e: Word, f: Word, g: Word, h: Word): Word {
    a + b + c + d + e + f + g + h
  }

  /** The eight table entries joined with |: u selects the even tables and t the odd ones. */
  function SpOr(u: Quad, t: Quad): Word {
    Or8(Sp1(t.a), Sp3(t.b), Sp5(t.c), Sp7(t.d), Sp0(u.a), Sp2(u.b), Sp4(u.c), Sp6(u.d))
  }

  /** The same entries joined with + on 32-bit longs. */
  function SpSum(u: Quad, t: Quad): Word {
    Sum8(Sp1(t.a), Sp3(t.b), Sp5(t.c), Sp7(t.d), Sp0(u.a), Sp2(u.b), Sp4(u.c), Sp6(u.d))
  }

  /** The low six bits of each byte. */
  function Sixes(w: Word): Quad {
    Quad(Low6(w), Low6(w >> 8), Low6(w >> 16), Low6(w >> 24))
  }

  /** u=(R^s[S]) and the indices of the even tables. */
  function EvenIndices(r: Word, k0: Word): Quad {
    Sixes(r ^ k0)
  }

  /** t=R^s[S+1], t=((t>>4)+(t<<28)) and the indices of the odd tables. */
  function OddIndices(r: Word, k1: Word): Quad {
    var t := r ^ k1;
    Sixes((t >> 4) + (t << 28))
  }

  /** The value D_ENCRYPT xors into L, original version. */
  function RoundF(r: Word, k0: Word, k1: Word): Word {
    SpOr(EvenIndices(r, k0), OddIndices(r, k1))
  }

  /** The entry that a masked byte offset into a table of 4-byte longs selects. */
  function LongIndex(w: Word): bv6 {
    ((w & 0xfc) >> 2) as bv6
  }

  function Longs(w: Word): Quad {
    Quad(LongIndex(w), LongIndex(w >> 8), LongIndex(w >> 16), LongIndex(w >> 24))
  }

  /** u=((R^s[S])<<2) and the entries its bytes point at. */
  function AltEvenIndices(r: Word, k0: Word): Quad {
    Longs((r ^ k0) << 2)
  }

  /** t=R^s[S+1], t=((t>>2)+(t<<30)) and the entries its bytes point at. */
  function AltOddIndices(r: Word, k1: Word): Quad {
    var t := r ^ k1;
    Longs((t >> 2) + (t << 30))
  }

  /** The value D_ENCRYPT xors into L under ALT_ECB. */
  function AltRoundF(r: Word, k0: Word, k1: Word): Word {
    SpSum(AltEvenIndices(r, k0), AltOddIndices(r, k1))
  }

  lemma SumOfDisjoint(a: Word, b: Word)
    requires a & b == 0
    ensures a + b == a | b
  {
  }

  /** No two of the eight tables share an output bit, so adding their entries cannot carry. */
  lemma NibblesDoNotCarry(a: Nibble0, b: Nibble1, c: Nibble2, d: Nibble3,
                          e: Nibble4, f: Nibble5, g: Nibble6, h: Nibble7)
    ensures Sum8(b, d, f, h, a, c, e, g) == Or8(b, d, f, h, a, c, e, g)
  {
    SumOfDisjoint(b, d);
    SumOfDisjoint(b | d, f);
    SumOfDisjoint(b | d | f, h);
    SumOfDisjoint(b | d | f | h, a);
    SumOfDisjoint(b | d | f | h | a, c);
    SumOfDisjoint(b | d | f | h | a | c, e);
    SumOfDisjoint(b | d | f | h | a | c | e, g);
  }

  lemma SpSumIsSpOr(u: Quad, t: Quad)
    ensures SpSum(u, t) == SpOr(u, t)
  {
    hide Sp0, Sp1, Sp2, Sp3, Sp4, Sp5, Sp6, Sp7, Sum8, Or8;
    NibblesDoNotCarry(Sp0(u.a), Sp1(t.a), Sp2(u.b), Sp3(t.b), Sp4(u.c), Sp5(t.c), Sp6(u.d), Sp7(t.d));
  }

  /** The byte offsets select the same entries as the indices. */
  lemma OffsetsSelectSameEntries(r: Word, k0: Word, k1: Word)
    ensures AltEvenIndices(r, k0) == EvenIndices(r, k0)
    ensures AltOddIndices(r, k1) == OddIndices(r, k1)
  {
  }

  /** Both forms of D_ENCRYPT compute the same round, for every half and every pair of schedule words. */
  lemma AltRoundIsRound(r: Word, k0: Word, k1: Word)
    ensures AltRoundF(r, k0, k1) == RoundF(r, k0, k1)
  {
    hide SpOr, SpSum, EvenIndices, OddIndices, AltEvenIndices, AltOddIndices;
    OffsetsSelectSameEntries(r, k0, k1);
    SpSumIsSpOr(EvenIndices(r, k0), OddIndices(r, k1));
  }

  /** So the cipher is the same function of key and block whichever form it was compiled with. */
  lemma {:induction false} AltRoundsAreRounds(ks: KeySchedule, encrypt: bool, n: nat, b: Block)
    requires n <= 16
    ensures Rounds(AltRoundF, ks, encrypt, n, b) == Rounds(RoundF, ks, encrypt, n, b)
  {
    hide AltRoundF, RoundF, Xor;
    if n > 0 {
      AltRoundsAreRounds(ks, encrypt, n - 1, b);
      var s, k := Rounds(RoundF, ks, encrypt, n - 1, b), RoundKey(ks, encrypt, n - 1);
      AltRoundIsRound(s.r, k.0, k.1);
    }
  }

  lemma AltCipherIsCipher(ks: KeySchedule, encrypt: bool, b: Block)
    ensures Cipher(AltRoundF, ks, encrypt, b) == Cipher(RoundF, ks, encrypt, b)
  {
    hide AltRoundF, RoundF, Rounds, Ip, Fp, RotateIn, RotateOut;
    AltRoundsAreRounds(ks, encrypt, 16, RotateIn(Ip(b)));
  }
}
