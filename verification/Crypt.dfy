/** The Unix password function (crypt of lib/crypto/fcrypt.c): key, salt and the text of the result. */
module Crypt {
  import opened ByteBits
  import opened DesLocal
  import opened SetKey
  import opened Fcrypt

  // ---------- Salt ----------

  /** con_salt: the six bits each of the 128 characters stands for. */
  function con_salt(x: Byte): (v: Byte)
    requires x < 128
  {
    if x < 0x2e then 0
    else if x < 0x3a then x - 0x2e
    else if x < 0x5b then x - 0x35
    else if x < 0x7b then x - 0x3b
    else 0
  }

  /** cov_2char: the character for six bits. */
  function cov_2char(c: Byte): (ch: Byte)
    requires c < 64
  {
    if c < 12 then 0x2e + c else if c < 38 then 0x35 + c else 0x3b + c
  }

  /** Reading a character of a result as salt gives back its six bits, and every salt character stands for six. */
  lemma SaltReadsText(c: Byte, x: Byte)
    requires c < 64 && x < 128
    ensures cov_2char(c) < 128 && con_salt(cov_2char(c)) == c && con_salt(x) < 64
  {
  }

  function Salt0(x: Byte): Word
    requires x < 128
  {
    con_salt(x) as Word
  }

  function Salt1(x: Byte): Word
    requires x < 128
  {
    (con_salt(x) as Word) << 4
  }

  /** The masks of two salt characters lie in bits 0 to 5 and 4 to 9, where stirring is a conditional swap. */
  lemma SaltsSwap(x: Byte, y: Byte, r: Word)
    requires x < 128 && y < 128
    ensures Salt0(x) & !0x3f == 0 && Salt1(y) & !0x3f0 == 0
    ensures Stir(r, Salt0(x)) & Salt0(x) == (r >> 16) & Salt0(x)
    ensures Stir(r, Salt1(y)) & Salt1(y) == (r >> 16) & Salt1(y)
  {
    SaltBits(x);
    SaltBits(y);
    hide con_salt, Salt0, Salt1, Stir;
    SmallMask(Salt0(x));
    SmallMask(Salt1(y));
    StirSwaps(r, Salt0(x));
    StirSwaps(r, Salt1(y));
  }

  lemma SaltBits(x: Byte)
    requires x < 128
    ensures Salt0(x) & !0x3f == 0 && Salt1(x) & !0x3f0 == 0
  {
  }

  lemma SmallMask(e: Word)
    requires e & !0x3f == 0 || e & !0x3f0 == 0
    ensures e & 0xffff0000 == 0
  {
  }

  // ---------- Key ----------

  /** A C string, or at least as much of one as crypt reads. */
  predicate Readable(buf: seq<Byte>) {
    |buf| >= 8 || 0 in buf
  }

  /** How many characters the key takes: up to eight, up to the terminator. */
  function KeyLength(buf: seq<Byte>): (n: nat)
    ensures n <= 8 && n <= |buf|
    ensures forall i | 0 <= i < n :: buf[i] != 0
    ensures Readable(buf) ==> n == 8 || buf[n] == 0
  {
    KeyLengthFrom(buf, 0)
  }

  function KeyLengthFrom(buf: seq<Byte>, i: nat): (n: nat)
    requires i <= 8 && i <= |buf|
    ensures i <= n <= 8 && n <= |buf|
    ensures forall k | i <= k < n :: buf[k] != 0
    ensures n == 8 || n == |buf| || buf[n] == 0
    decreases 8 - i
  {
    if i == 8 || i == |buf| || buf[i] == 0 then i else KeyLengthFrom(buf, i + 1)
  }

  function Up(c: Byte): Byte {
    c << 1
  }

  function CryptKey(buf: seq<Byte>): (key: seq<Byte>)
    ensures |key| == 8
  {
    seq(8, i requires 0 <= i < 8 => if i < KeyLength(buf) then Up(buf[i]) else 0)
  }

  /** Characters past the eighth and the top bit of each make no difference to the key. */
  lemma KeyIgnores(a: seq<Byte>, b: seq<Byte>)
    requires KeyLength(a) == KeyLength(b)
    requires forall i | 0 <= i < KeyLength(a) :: a[i] & 0x7f == b[i] & 0x7f
    ensures CryptKey(a) == CryptKey(b)
  {
    forall i | 0 <= i < KeyLength(a)
      ensures Up(a[i]) == Up(b[i])
    {
      SameLowBits(a[i], b[i]);
    }
    hide Up;
  }

  lemma SameLowBits(a: Byte, b: Byte)
    requires a & 0x7f == b & 0x7f
    ensures Up(a) == Up(b)
  {
  }

  // ---------- Text ----------

  function Push(c: Byte, bit: bool): Byte {
    (c << 1) | if bit then 1 else 0
  }

  /** n bits from bit k on, as a number. */
  function Number(bb: seq<Byte>, k: nat, n: nat): Byte
    requires k + n <= 8 * |bb|
  {
    if n == 0 then 0 else Push(Number(bb, k, n - 1), BitAt(bb, k + n - 1))
  }

  /** A byte that has used up to n bits. */
  predicate Below(c: Byte, n: nat)
    requires n <= 6
  {
    match n
    case 0 => c == 0 case 1 => c < 2 case 2 => c < 4 case 3 => c < 8
    case 4 => c < 16 case 5 => c < 32 case _ => c < 64
  }

  lemma PushBelow(c: Byte, bit: bool, n: nat)
    requires n < 6 && Below(c, n)
    ensures Below(Push(c, bit), n + 1)
  {
  }

  lemma PushInjective(c: Byte, b: bool, c': Byte, b': bool)
    requires c < 32 && c' < 32 && Push(c, b) == Push(c', b')
    ensures c == c' && b == b'
  {
  }

  lemma {:induction false} NumberBelow(bb: seq<Byte>, k: nat, n: nat)
    requires n <= 6 && k + n <= 8 * |bb|
    ensures Below(Number(bb, k, n), n)
  {
    hide Push, Below, BitAt;
    if n == 0 {
      NothingBelow();
    } else {
      NumberBelow(bb, k, n - 1);
      PushBelow(Number(bb, k, n - 1), BitAt(bb, k + n - 1), n - 1);
    }
  }

  lemma NothingBelow()
    ensures Below(0, 0)
  {
  }

  lemma BelowSix(c: Byte, n: nat)
    requires n <= 6 && Below(c, n)
    ensures c < 64 && (n < 6 ==> c < 32)
  {
  }

  /** Six bits as a number. */
  function Sextet(bb: seq<Byte>, k: nat): (c: Byte)
    requires k + 6 <= 8 * |bb|
    ensures c < 64
  {
    NumberBelow(bb, k, 6);
    Number(bb, k, 6)
  }

  /** The eleven characters for two words and two zero bits. */
  function Text(b: Block): (text: seq<Byte>)
    ensures |text| == 11
  {
    var bb := Store(b) + [0];
    seq(11, i requires 0 <= i < 11 => cov_2char(Sextet(bb, 6 * i)))
  }

  lemma {:induction false} SameNumberSameBits(a: seq<Byte>, b: seq<Byte>, k: nat, n: nat)
    requires n <= 6 && k + n <= 8 * |a| && |a| == |b| && Number(a, k, n) == Number(b, k, n)
    ensures forall j | k <= j < k + n :: BitAt(a, j) == BitAt(b, j)
  {
    hide Push, BitAt;
    if n > 0 {
      NumberBelow(a, k, n - 1);
      NumberBelow(b, k, n - 1);
      BelowSix(Number(a, k, n - 1), n - 1);
      BelowSix(Number(b, k, n - 1), n - 1);
      PushInjective(Number(a, k, n - 1), BitAt(a, k + n - 1), Number(b, k, n - 1), BitAt(b, k + n - 1));
      SameNumberSameBits(a, b, k, n - 1);
    }
  }

  lemma CoverInjective(c: Byte, c': Byte)
    requires c < 64 && c' < 64 && cov_2char(c) == cov_2char(c')
    ensures c == c'
  {
  }

  /** The text loses nothing: different results of body have different texts. */
  lemma TextIsInjective(b: Block, b': Block)
    requires Text(b) == Text(b')
    ensures b == b'
  {
    hide Store, Load, Has, Probe, Number, Sextet, cov_2char;
    var a, a' := Store(b) + [0], Store(b') + [0];
    forall k | 0 <= k < 64
      ensures BitAt(a, k) == BitAt(a', k)
    {
      var i := k / 6;
      assert Text(b)[i] == Text(b')[i];
      SameSextetSameBits(a, a', 6 * i);
    }
    forall y | 0 <= y < 8
      ensures Store(b)[y] == Store(b')[y]
    {
      forall i | 0 <= i < 8
        ensures Has(a[y], Probe(i)) == Has(a'[y], Probe(i))
      {
        assert BitAt(a, 8 * y + i) == BitAt(a', 8 * y + i);
      }
      SameProbesSameByte(a[y], a'[y]);
      assert a[y] == Store(b)[y] && a'[y] == Store(b')[y];
    }
    assert Store(b) == Store(b');
    LoadStore(b);
    LoadStore(b');
  }

  lemma SameSextetSameBits(a: seq<Byte>, a': seq<Byte>, k: nat)
    requires |a| == |a'| && k + 6 <= 8 * |a| && cov_2char(Sextet(a, k)) == cov_2char(Sextet(a', k))
    ensures forall j | k <= j < k + 6 :: BitAt(a, j) == BitAt(a', j)
  {
    hide cov_2char, BitAt, Number;
    CoverInjective(Sextet(a, k), Sextet(a', k));
    SameNumberSameBits(a, a', k, 6);
  }

  // ---------- crypt ----------

  /** What crypt returns for a password and two salt characters. */
  function Hash(buf: seq<Byte>, s0: Byte, s1: Byte): (text: seq<Byte>)
    requires s0 < 128 && s1 < 128
    ensures |text| == 13
  {
    [s0, s1] + Text(Iterated(SaltedRoundF(Salt0(s0), Salt1(s1)), Schedule(Load(CryptKey(buf))), 25, Block(0, 0)))
  }

  /** The loop that fills the key. */
  method FillKey(buf: seq<Byte>, key: array<Byte>)
    requires Readable(buf) && key.Length == 8
    modifies key
    ensures key[..] == CryptKey(buf)
  {
    hide Up;
    var i := 0;
    while i < 8
      invariant 0 <= i <= KeyLength(buf)
      invariant forall k | 0 <= k < i :: key[k] == Up(buf[k])
    {
      var c := buf[i];
      if c == 0 {
        break;
      }
      key[i] := Up(c);
      i := i + 1;
    }
    while i < 8
      invariant KeyLength(buf) <= i <= 8
      invariant forall k | 0 <= k < i :: key[k] == CryptKey(buf)[k]
    {
      key[i] := 0;
      i := i + 1;
    }
  }

  /** The inner loop of the encoding: six bits from the place that y and u are at. */
  method TakeSix(bb: seq<Byte>, y0: nat, u0: Byte, ghost k: nat) returns (c: Byte, y: nat, u: Byte)
    requires k + 6 <= 8 * |bb| && y0 == k / 8 && u0 == Probe(k % 8)
    ensures c < 64 && c == Sextet(bb, k) && y == (k + 6) / 8 && u == Probe((k + 6) % 8)
  {
    hide Has, Push, Half, Probe, Below;
    c, y, u := 0, y0, u0;
    Probes();
    for j := 0 to 6
      invariant y == (k + j) / 8 && u == Probe((k + j) % 8)
      invariant c == Number(bb, k, j)
    {
      c := Push(c, Has(bb[y], u));
      ProbeHalves((k + j) % 8);
      u := Half(u);
      if u == 0 {
        y := y + 1;
        u := 0x80;
      }
    }
    assert c == Sextet(bb, k);
  }

  /** The encoding loop: y and u walk over the bits of bb. */
  method Encode(b: Block) returns (text: seq<Byte>)
    ensures text == Text(b)
  {
    hide Store, Probe, Sextet, cov_2char;
    var bb := Store(b) + [0];
    var y, u := 0, 0x80 as Byte;
    Probes();
    text := [];
    for i := 2 to 13
      invariant y == 6 * (i - 2) / 8 && u == Probe(6 * (i - 2) % 8)
      invariant |text| == i - 2 && forall n | 0 <= n < i - 2 :: text[n] == cov_2char(Sextet(bb, 6 * n))
    {
      var c;
      c, y, u := TakeSix(bb, y, u, 6 * (i - 2));
      text := text + [cov_2char(c)];
    }
  }

  /** crypt. A missing salt character is taken to be A, and written to the salt. */
  method Crypt(buf: seq<Byte>, salt: array<Byte>) returns (buff: seq<Byte>)
    requires Readable(buf) && salt.Length >= 2 && salt[0] < 128 && salt[1] < 128
    modifies salt
    ensures salt[0] == (if old(salt[0]) == 0 then 0x41 else old(salt[0]))
    ensures salt[1] == (if old(salt[1]) == 0 then 0x41 else old(salt[1]))
    ensures salt[2..] == old(salt[2..]) && salt[0] < 128 && salt[1] < 128
    ensures buff == Hash(buf, salt[0], salt[1])
  {
    hide Text, Iterated, SaltedRoundF, Schedule, Load, CryptKey, con_salt, Salt0, Salt1;
    if salt[0] == 0 {
      salt[0] := 0x41;
    }
    if salt[1] == 0 {
      salt[1] := 0x41;
    }
    var eswap0, eswap1 := Salt0(salt[0]), Salt1(salt[1]);
    var key := new Byte[8];
    FillKey(buf, key);
    var ks := new Word[32];
    var _ := DesSetKey(key, ks, false, 8);
    var out0, out1 := Body(ks[..], eswap0, eswap1);
    var text := Encode(Block(out0, out1));
    buff := [salt[0], salt[1]] + text;
  }
}
