/**
 crypt of lib/crypto/fcrypt.c bit by bit: the algorithm of FIPS PUB 46-3 with the bits that E selects
 exchanged by the salt, and the text of the result.
 */
module SaltedDes {
  import opened ByteBits
  import opened DesLocal
  import opened WordBits
  import opened Feistel
  import opened DEncrypt
  import opened SetKey
  import opened Fcrypt
  import opened Crypt
  import opened FipsPermutations
  import opened FipsRounds
  import opened FipsAgreement
  import Fips46

  // ---------- The salted algorithm ----------

  /** Each of the twelve salt bits exchanges one of the first 24 bits that E selects with the one 24 places on. */
  function Exchanged(x: Fips46.Bits, salt: Fips46.Bits): (r: Fips46.Bits)
    requires |x| == 48 && |salt| == 12
    ensures |r| == 48
  {
    seq(48, i requires 0 <= i < 48 => if i % 24 < 12 && salt[i % 24] then x[(i + 24) % 48] else x[i])
  }

  function F(r: Fips46.Bits, k: Fips46.Bits, salt: Fips46.Bits): (y: Fips46.Bits)
    requires |r| == 32 && |k| == 48 && |salt| == 12
    ensures |y| == 32
  {
    Fips46.Selected(Fips46.Xored(Exchanged(Fips46.Expanded(r), salt), k))
  }

  function Iterations(key: Fips46.Bits, salt: Fips46.Bits, n: nat, input: Fips46.Bits): (s: Fips46.LR)
    requires |key| == 64 && |salt| == 12 && n <= 16 && |input| == 64
    ensures |s.l| == 32 && |s.r| == 32
  {
    if n == 0 then
      var b := Fips46.InitiallyPermuted(input);
      Fips46.LR(b[..32], b[32..])
    else
      var s := Iterations(key, salt, n - 1, input);
      Fips46.LR(s.r, Fips46.Xored(s.l, F(s.r, Fips46.K(key, n), salt)))
  }

  function Output(key: Fips46.Bits, salt: Fips46.Bits, input: Fips46.Bits): (output: Fips46.Bits)
    requires |key| == 64 && |salt| == 12 && |input| == 64
    ensures |output| == 64
  {
    var s := Iterations(key, salt, 16, input);
    Fips46.InverselyPermuted(s.r + s.l)
  }

  /** Enciphering 64 zeros n times over. */
  function Repeated(key: Fips46.Bits, salt: Fips46.Bits, n: nat): (output: Fips46.Bits)
    requires |key| == 64 && |salt| == 12
    ensures |output| == 64
  {
    if n == 0 then seq(64, _ => false) else Output(key, salt, Repeated(key, salt, n - 1))
  }

  /** The six bits of the first salt character, the lowest first, and then those of the second. */
  function SaltBits(x: Byte, y: Byte): (salt: Fips46.Bits)
    requires x < 128 && y < 128
    ensures |salt| == 12
  {
    seq(12, i requires 0 <= i < 12 => if i < 6 then ByteBit(con_salt(x), 7 - i) else ByteBit(con_salt(y), 13 - i))
  }

  // ---------- Stirring ----------

  lemma StirredBits0(r: Word, e: Word, n: nat)
    requires e & 0xffff0000 == 0 && n < 8
    ensures Bit(Stir(r, e), n) == if Bit(e, n) then Bit(r, n + 16) else Bit(r, n)
  {
    hide Bit;
    Digits0(r);
    Digits2(r);
    Digits0(e);
    Digits0(Stir(r, e));
    match n
    case 0 => case 1 => case 2 => case 3 => case 4 => case 5 => case 6 => case _ =>
  }

  lemma StirredBits1(r: Word, e: Word, n: nat)
    requires e & 0xffff0000 == 0 && 8 <= n < 16
    ensures Bit(Stir(r, e), n) == if Bit(e, n) then Bit(r, n + 16) else Bit(r, n)
  {
    hide Bit;
    Digits1(r);
    Digits3(r);
    Digits1(e);
    Digits1(Stir(r, e));
    match n
    case 8 => case 9 => case 10 => case 11 => case 12 => case 13 => case 14 => case _ =>
  }

  lemma StirredBits2(r: Word, e: Word, n: nat)
    requires e & 0xffff0000 == 0 && 16 <= n < 24
    ensures Bit(Stir(r, e), n) == if Bit(e, n - 16) then Bit(r, n - 16) else Bit(r, n)
  {
    hide Bit;
    Digits0(r);
    Digits2(r);
    Digits0(e);
    Digits2(Stir(r, e));
    match n
    case 16 => case 17 => case 18 => case 19 => case 20 => case 21 => case 22 => case _ =>
  }

  lemma StirredBits3(r: Word, e: Word, n: nat)
    requires e & 0xffff0000 == 0 && 24 <= n < 32
    ensures Bit(Stir(r, e), n) == if Bit(e, n - 16) then Bit(r, n - 16) else Bit(r, n)
  {
    hide Bit;
    Digits1(r);
    Digits3(r);
    Digits1(e);
    Digits3(Stir(r, e));
    match n
    case 24 => case 25 => case 26 => case 27 => case 28 => case 29 => case 30 => case _ =>
  }

  /** Stirring exchanges the bits n and n+16 that the mask has. */
  lemma StirredBit(r: Word, e: Word, n: nat)
    requires e & 0xffff0000 == 0 && n < 32
    ensures Bit(Stir(r, e), n) == if Bit(e, n % 16) then Bit(r, (n + 16) % 32) else Bit(r, n)
  {
    hide Bit, Stir;
    if n < 8 {
      StirredBits0(r, e, n);
    } else if n < 16 {
      StirredBits1(r, e, n);
    } else if n < 24 {
      StirredBits2(r, e, n);
    } else {
      StirredBits3(r, e, n);
    }
  }

  // ---------- Masks ----------

  lemma Salt0Bits(x: Byte, n: nat)
    requires x < 128 && n < 16
    ensures Bit(Salt0(x), n) == (n < 6 && ByteBit(con_salt(x), 7 - n))
  {
    hide Bit, ByteBit, con_salt;
    Digits0(Salt0(x));
    Digits1(Salt0(x));
    ByteDigits(con_salt(x));
    SaltReadsText(0, x);
    match n
    case 0 => case 1 => case 2 => case 3 => case 4 => case 5 => case 6 => case 7 =>
    case 8 => case 9 => case 10 => case 11 => case 12 => case 13 => case 14 => case _ =>
  }

  lemma Salt1Bits(y: Byte, n: nat)
    requires y < 128 && n < 16
    ensures Bit(Salt1(y), n) == (4 <= n < 10 && ByteBit(con_salt(y), 11 - n))
  {
    hide Bit, ByteBit, con_salt;
    Digits0(Salt1(y));
    Digits1(Salt1(y));
    ByteDigits(con_salt(y));
    SaltReadsText(0, y);
    match n
    case 0 => case 1 => case 2 => case 3 => case 4 => case 5 => case 6 => case 7 =>
    case 8 => case 9 => case 10 => case 11 => case 12 => case 13 => case 14 => case _ =>
  }

  /** At each place of the 48 bits, the mask of its word has the salt bit. */
  lemma MaskAt(x: Byte, y: Byte, i: nat)
    requires x < 128 && y < 128 && i < 48
    ensures Bit(if i % 12 < 6 then Salt0(x) else Salt1(y), Place(i) % 16) == (i % 24 < 12 && SaltBits(x, y)[i % 24])
  {
    hide Bit, ByteBit, con_salt, Salt0, Salt1, Place;
    PlaceInHalf(i);
    if i % 12 < 6 {
      Salt0Bits(x, Place(i) % 16);
    } else {
      Salt1Bits(y, Place(i) % 16);
    }
  }

  // Group q of twelve places takes bits 8q to 8q+9 of both words.

  function InWord(q: nat, m: nat): nat {
    (8 * q + m) % 32
  }

  lemma PlaceOf(i: nat, q: nat, j: nat)
    requires q < 4 && j < 12 && i == 12 * q + j
    ensures Place(i) == InWord(q, if j < 6 then j else j - 2) && i % 12 == j
  {
    assert i / 12 == q && i % 12 == j;
  }

  lemma LowerHalf(q: nat, m: nat)
    requires q < 4 && m < 10
    ensures InWord(q, m) == if q < 3 || m < 8 then 8 * q + m else m - 8
    ensures InWord(q, m) % 16 == if q == 0 || q == 2 then m else if m < 8 then m + 8 else m - 8
  {
    assert InWord(q, m) == if q < 3 || m < 8 then 8 * q + m else m - 8;
    if q == 0 {
    } else if q == 1 {
    } else if q == 2 {
    } else {
    }
  }

  lemma OtherHalf(q: nat, m: nat)
    requires q < 4 && m < 10
    ensures InWord(if q < 2 then q + 2 else q - 2, m) == (InWord(q, m) + 16) % 32
  {
    if q == 0 {
    } else if q == 1 {
    } else if q == 2 {
    } else {
    }
  }

  lemma GroupRest(i: nat, q: nat, j: nat)
    requires q < 4 && j < 12 && i == 12 * q + j
    ensures i % 24 == if q == 0 || q == 2 then j else 12 + j
  {
    if q == 0 {
    } else if q == 1 {
    } else if q == 2 {
    } else {
    }
  }

  lemma GroupAcross(i: nat, q: nat, j: nat)
    requires q < 4 && j < 12 && i == 12 * q + j
    ensures (i + 24) % 48 == 12 * (if q < 2 then q + 2 else q - 2) + j
  {
  }

  /** Where a place of the 48 bits is in the lower or the upper half of its word. */
  lemma PlaceInHalf(i: nat)
    requires i < 48
    ensures i % 24 < 6 ==> i % 12 < 6 && Place(i) % 16 == i % 24
    ensures 6 <= i % 24 < 12 ==> i % 12 >= 6 && Place(i) % 16 == i % 24 - 2
    ensures 12 <= i % 24 < 18 ==> i % 12 < 6 && Place(i) % 16 >= 8
    ensures 18 <= i % 24 ==> i % 12 >= 6 && (Place(i) % 16 >= 12 || Place(i) % 16 < 2)
  {
    hide Place, InWord;
    var q, j := i / 12, i % 12;
    PlaceOf(i, q, j);
    GroupRest(i, q, j);
    LowerHalf(q, if j < 6 then j else j - 2);
  }

  lemma PlaceAcross(i: nat)
    requires i < 48
    ensures Place((i + 24) % 48) == (Place(i) + 16) % 32 && (i + 24) % 48 % 12 == i % 12
  {
    hide Place, InWord;
    var q, j := i / 12, i % 12;
    PlaceOf(i, q, j);
    GroupAcross(i, q, j);
    PlaceOf((i + 24) % 48, if q < 2 then q + 2 else q - 2, j);
    OtherHalf(q, if j < 6 then j else j - 2);
  }

  // ---------- The salted round ----------

  lemma SaltedRoundIsJoined(r: Word, e0: Word, e1: Word, k: (Word, Word))
    ensures SaltedRoundF(e0, e1)(r, k.0, k.1) == Joined((Xor(Stir(r, e0), k.0), Xor(Stir(r, e1), k.1)))
  {
    hide SpOr, Sixes, Stir;
    RotationBySum(Xor(Stir(r, e1), k.1));
  }

  lemma RotationBySum(t: Word)
    ensures (t >> 4) | (t << 28) == (t >> 4) + (t << 28)
  {
  }

  /** The stirred words hold E(R), exchanged by the salt, xor K. */
  lemma StirredWordsHoldMixed(r: Word, x: Byte, y: Byte, k: (Word, Word))
    requires x < 128 && y < 128
    ensures KeyBits((Xor(Stir(r, Salt0(x)), k.0), Xor(Stir(r, Salt1(y)), k.1))) ==
            Fips46.Xored(Exchanged(Fips46.Expanded(HalfBits(r)), SaltBits(x, y)), KeyBits(k))
  {
    hide Bit, Xor, Stir, Salt0, Salt1, SaltBits, HalfBits, Place, Fips46.Expanded;
    var w, e := (Xor(Stir(r, Salt0(x)), k.0), Xor(Stir(r, Salt1(y)), k.1)), Fips46.Expanded(HalfBits(r));
    var s := Exchanged(e, SaltBits(x, y));
    forall i | 0 <= i < 48
      ensures KeyBits(w)[i] == Fips46.Xored(s, KeyBits(k))[i]
    {
      var mask := if i % 12 < 6 then Salt0(x) else Salt1(y);
      MasksAreSmall(x, y);
      ExpandedAt(r, i);
      ExpandedAt(r, (i + 24) % 48);
      PlaceAcross(i);
      MaskAt(x, y, i);
      StirredBit(r, mask, Place(i));
      XorBit(Stir(r, mask), if i % 12 < 6 then k.0 else k.1, Place(i));
    }
  }

  lemma MasksAreSmall(x: Byte, y: Byte)
    requires x < 128 && y < 128
    ensures Salt0(x) & 0xffff0000 == 0 && Salt1(y) & 0xffff0000 == 0
  {
    hide Salt0, Salt1;
    Crypt.SaltBits(x);
    Crypt.SaltBits(y);
    SmallMask(Salt0(x));
    SmallMask(Salt1(y));
  }

  /** The salted D_ENCRYPT is the standard's f with the bits of E exchanged by the two salt characters. */
  lemma SaltedRoundIsF(r: Word, x: Byte, y: Byte, k: (Word, Word))
    requires x < 128 && y < 128
    ensures HalfBits(SaltedRoundF(Salt0(x), Salt1(y))(r, k.0, k.1)) == F(HalfBits(r), KeyBits(k), SaltBits(x, y))
  {
    hide SaltedRoundF, Salt0, Salt1, SaltBits, Joined, Stir, Xor, HalfBits, KeyBits, Exchanged, Fips46.Selected,
      Fips46.Expanded, Fips46.Xored;
    SaltedRoundIsJoined(r, Salt0(x), Salt1(y), k);
    JoinedIsSelected((Xor(Stir(r, Salt0(x)), k.0), Xor(Stir(r, Salt1(y)), k.1)));
    StirredWordsHoldMixed(r, x, y, k);
  }

  // ---------- The salted cipher ----------

  lemma {:induction false} SaltedRoundsAreIterations(key: Block, x: Byte, y: Byte, n: nat, b: Block)
    requires x < 128 && y < 128 && n <= 16
    ensures var s := Rounds(SaltedRoundF(Salt0(x), Salt1(y)), Schedule(key), true, n, RotateIn(Ip(b)));
            Fips46.LR(HalfBits(s.l), HalfBits(s.r)) == Iterations(BlockBits(key), SaltBits(x, y), n, BlockBits(b))
  {
    hide SaltedRoundF, Salt0, Salt1, SaltBits, Schedule, RotateIn, Ip, HalfBits, BlockBits, RoundPair, KeyBits,
      RoundKey, Xor, F, Fips46.K, Fips46.Xored, Fips46.InitiallyPermuted;
    if n == 0 {
      IpIsInitialPermutation(b);
    } else {
      SaltedRoundsAreIterations(key, x, y, n - 1, b);
      var f := SaltedRoundF(Salt0(x), Salt1(y));
      var s, k := Rounds(f, Schedule(key), true, n - 1, RotateIn(Ip(b))), RoundPair(key, n - 1);
      ScheduleRoundKey(key, true, n - 1);
      KeysAre(key, n - 1);
      SaltedRoundIsF(s.r, x, y, k);
      XorHalf(s.l, f(s.r, k.0, k.1));
    }
  }

  lemma SaltedDesIs(key: Block, x: Byte, y: Byte, b: Block)
    requires x < 128 && y < 128
    ensures BlockBits(Des(SaltedRoundF(Salt0(x), Salt1(y)), Schedule(key), true)(b)) ==
            Output(BlockBits(key), SaltBits(x, y), BlockBits(b))
  {
    hide SaltedRoundF, Salt0, Salt1, SaltBits, Schedule, RotateIn, RotateOut, Ip, Fp, Rounds, HalfBits, BlockBits,
      Iterations, Fips46.InverselyPermuted;
    SaltedRoundsAreIterations(key, x, y, 16, b);
    LastStep(Rounds(SaltedRoundF(Salt0(x), Salt1(y)), Schedule(key), true, 16, RotateIn(Ip(b))));
  }

  lemma {:induction false} IteratedIsRepeated(key: Block, x: Byte, y: Byte, n: nat)
    requires x < 128 && y < 128
    ensures BlockBits(Iterated(SaltedRoundF(Salt0(x), Salt1(y)), Schedule(key), n, Block(0, 0))) ==
            Repeated(BlockBits(key), SaltBits(x, y), n)
  {
    hide SaltedRoundF, Salt0, Salt1, SaltBits, Schedule, Des, BlockBits, Output;
    if n == 0 {
      NoBits();
    } else {
      IteratedIsRepeated(key, x, y, n - 1);
      SaltedDesIs(key, x, y, Iterated(SaltedRoundF(Salt0(x), Salt1(y)), Schedule(key), n - 1, Block(0, 0)));
    }
  }

  lemma NoBits()
    ensures BlockBits(Block(0, 0)) == seq(64, _ => false)
  {
    hide Bit;
    Digits(0);
  }

  // ---------- The key ----------

  /** Bit j of key byte i is bit j+1 of character i; the parity places and missing characters are zero. */
  function PasswordBits(buf: seq<Byte>): (key: Fips46.Bits)
    ensures |key| == 64
  {
    seq(64, k requires 0 <= k < 64 => k % 8 < 7 && k / 8 < KeyLength(buf) && ByteBit(buf[k / 8], k % 8 + 1))
  }

  lemma KeyByteBit(buf: seq<Byte>, i: nat, j: nat)
    requires i < 8 && j < 8
    ensures ByteBit(CryptKey(buf)[i], j) == (j < 7 && i < KeyLength(buf) && ByteBit(buf[i], j + 1))
  {
    hide ByteBit, Up, KeyLength;
    if i < KeyLength(buf) {
      UpBit(buf[i], j);
    } else {
      ByteDigits(0);
    }
  }

  lemma UpBit(c: Byte, j: nat)
    requires j < 8
    ensures ByteBit(Up(c), j) == (j < 7 && ByteBit(c, j + 1))
  {
    match j
    case 0 => case 1 => case 2 => case 3 => case 4 => case 5 => case 6 => case _ =>
  }

  lemma KeyIsPasswordBits(buf: seq<Byte>)
    ensures BlockBits(Load(CryptKey(buf))) == PasswordBits(buf)
  {
    hide Load, Store, BlockBit, ByteBit, CryptKey, KeyLength, Has, Probe;
    var key := CryptKey(buf);
    StoreLoad(key);
    forall k | 0 <= k < 64
      ensures BlockBits(Load(key))[k] == PasswordBits(buf)[k]
    {
      BlockBitsAreByteBits(Load(key), k);
      ByteBitHas(key[k / 8], k % 8);
      KeyByteBit(buf, k / 8, k % 8);
    }
  }

  // ---------- The text ----------

  /** The alphabet: a point, a slash, the digits, the capital and the small letters. */
  function Letter(v: nat): (ch: char)
    requires v < 64
  {
    if v < 2 then '.' + v as char
    else if v < 12 then '0' + (v - 2) as char
    else if v < 38 then 'A' + (v - 12) as char
    else 'a' + (v - 38) as char
  }

  /** Six bits as a number, the leftmost most significant. */
  function Value(bits: Fips46.Bits, k: nat): (v: nat)
    requires k + 6 <= |bits|
    ensures v < 64
  {
    (if bits[k] then 32 else 0) + (if bits[k + 1] then 16 else 0) + (if bits[k + 2] then 8 else 0) +
    (if bits[k + 3] then 4 else 0) + (if bits[k + 4] then 2 else 0) + (if bits[k + 5] then 1 else 0)
  }

  lemma CharacterIs(c: Byte, v: nat)
    requires c < 64 && c as int == v
    ensures v < 64 && cov_2char(c) as int == Letter(v) as int
  {
    match c
    case 0 => case 1 => case 2 => case 3 => case 4 => case 5 => case 6 => case 7 =>
    case 8 => case 9 => case 10 => case 11 => case 12 => case 13 => case 14 => case 15 =>
    case 16 => case 17 => case 18 => case 19 => case 20 => case 21 => case 22 => case 23 =>
    case 24 => case 25 => case 26 => case 27 => case 28 => case 29 => case 30 => case 31 =>
    case 32 => case 33 => case 34 => case 35 => case 36 => case 37 => case 38 => case 39 =>
    case 40 => case 41 => case 42 => case 43 => case 44 => case 45 => case 46 => case 47 =>
    case 48 => case 49 => case 50 => case 51 => case 52 => case 53 => case 54 => case 55 =>
    case 56 => case 57 => case 58 => case 59 => case 60 => case 61 => case 62 => case _ =>
  }

  lemma PushValue(c: Byte, bit: bool)
    requires c < 32
    ensures Push(c, bit) as int == 2 * (c as int) + if bit then 1 else 0
  {
    match c
    case 0 => case 1 => case 2 => case 3 => case 4 => case 5 => case 6 => case 7 =>
    case 8 => case 9 => case 10 => case 11 => case 12 => case 13 => case 14 => case 15 =>
    case 16 => case 17 => case 18 => case 19 => case 20 => case 21 => case 22 => case 23 =>
    case 24 => case 25 => case 26 => case 27 => case 28 => case 29 => case 30 => case _ =>
  }

  lemma ThreeBits(bb: seq<Byte>, k: nat)
    requires k + 3 <= 8 * |bb|
    ensures Number(bb, k, 3) < 8
    ensures Number(bb, k, 3) as int ==
            (if BitAt(bb, k) then 4 else 0) + (if BitAt(bb, k + 1) then 2 else 0) + if BitAt(bb, k + 2) then 1 else 0
  {
    hide BitAt, Push;
    NumberBelow(bb, k, 1);
    NumberBelow(bb, k, 2);
    NumberBelow(bb, k, 3);
    PushValue(0, BitAt(bb, k));
    PushValue(Number(bb, k, 1), BitAt(bb, k + 1));
    PushValue(Number(bb, k, 2), BitAt(bb, k + 2));
  }

  lemma SextetIs(bb: seq<Byte>, bits: Fips46.Bits, k: nat)
    requires k + 6 <= |bits| <= 8 * |bb| && forall j | 0 <= j < |bits| :: bits[j] == BitAt(bb, j)
    ensures Sextet(bb, k) as int == Value(bits, k)
  {
    hide BitAt, Push;
    ThreeBits(bb, k);
    NumberBelow(bb, k, 4);
    NumberBelow(bb, k, 5);
    PushValue(Number(bb, k, 3), bits[k + 3]);
    PushValue(Number(bb, k, 4), bits[k + 4]);
    PushValue(Number(bb, k, 5), bits[k + 5]);
  }

  /** Character m of the text stands for bits 6m to 6m+5 of the block and two zeros. */
  lemma TextIs(b: Block, m: nat)
    requires m < 11
    ensures Text(b)[m] as int == Letter(Value(BlockBits(b) + [false, false], 6 * m)) as int
  {
    hide Store, BlockBit, BitAt, Sextet, cov_2char, Letter, Value;
    var bb, bits := Store(b) + [0], BlockBits(b) + [false, false];
    forall j | 0 <= j < 66
      ensures bits[j] == BitAt(bb, j)
    {
      if j < 64 {
        BlockBitsAreByteBits(b, j);
      }
      TrailingBit(Store(b), j);
    }
    SextetIs(bb, bits, 6 * m);
    CharacterIs(Sextet(bb, 6 * m), Value(bits, 6 * m));
  }

  lemma TrailingBit(s: seq<Byte>, j: nat)
    requires |s| == 8 && j < 66
    ensures BitAt(s + [0], j) == (j < 64 && BitAt(s, j))
  {
    hide Has, Probe;
    if j >= 64 {
      NoProbe(j % 8);
    }
  }

  lemma NoProbe(i: nat)
    requires i < 8
    ensures !Has(0, Probe(i))
  {
  }

  // ---------- crypt ----------

  /**
   crypt: the two salt characters, and the text of 25 salted encipherings of
   64 zeros under the bits of the password.
   */
  lemma HashIsStandard(buf: seq<Byte>, x: Byte, y: Byte)
    requires x < 128 && y < 128
    ensures var h := Hash(buf, x, y);
            var bits := Repeated(PasswordBits(buf), SaltBits(x, y), 25) + [false, false];
            && h[0] == x && h[1] == y
            && forall m | 0 <= m < 11 :: h[m + 2] as int == Letter(Value(bits, 6 * m)) as int
  {
    hide SaltedRoundF, Salt0, Salt1, SaltBits, Schedule, Load, CryptKey, Text, Iterated, BlockBits, PasswordBits,
      Repeated, Letter, Value;
    var key := Load(CryptKey(buf));
    var b := Iterated(SaltedRoundF(Salt0(x), Salt1(y)), Schedule(key), 25, Block(0, 0));
    KeyIsPasswordBits(buf);
    IteratedIsRepeated(key, x, y, 25);
    forall m | 0 <= m < 11
      ensures Text(b)[m] as int == Letter(Value(BlockBits(b) + [false, false], 6 * m)) as int
    {
      TextIs(b, m);
    }
  }
}
