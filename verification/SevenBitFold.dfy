/** The key made of a password is that of section 6.2 of RFC 3961, but for its key correction. */
module SevenBitFold {
  import opened Blocks
  import opened DesLocal
  import opened WordBits
  import opened OddParity
  import opened PasswordFold
  import opened StringToKey
  import opened Feistel
  import opened DEncrypt
  import opened SetKey
  import opened CbcEncrypt
  import opened CbcCksum

  // ---------- The standard ----------

  /** Eight characters without their top bits; zeros follow the last one. */
  function WithoutTopBits(s: seq<Byte>, q: nat): (r: seq<bool>)
    ensures |r| == 56
  {
    seq(56, k requires 0 <= k < 56 => LowBit(s, q, k))
  }

  /** Bit k of the low seven bits each of eight characters. */
  function LowBit(s: seq<Byte>, q: nat, k: nat): bool {
    ByteBit(ByteAt(s, 8 * q + k / 7), k % 7 + 1)
  }

  function Backwards(bits: seq<bool>): (r: seq<bool>)
    ensures |r| == |bits|
  {
    seq(|bits|, k requires 0 <= k < |bits| => bits[|bits| - 1 - k])
  }

  /** Every other block is taken backwards. */
  function Turned(s: seq<Byte>, q: nat): (r: seq<bool>)
    ensures |r| == 56
  {
    if q % 2 == 0 then WithoutTopBits(s, q) else Backwards(WithoutTopBits(s, q))
  }

  function XorBits(a: seq<bool>, b: seq<bool>): (r: seq<bool>)
    requires |a| == |b|
    ensures |r| == |a|
  {
    seq(|a|, k requires 0 <= k < |a| => a[k] != b[k])
  }

  /** The exclusive or of the first n blocks. */
  function Folded(s: seq<Byte>, n: nat): (r: seq<bool>)
    ensures |r| == 56
  {
    if n == 0 then seq(56, _ => false) else XorBits(Folded(s, n - 1), Turned(s, n - 1))
  }

  /** A key of 56 bits, each seven followed by a bit that makes the parity odd. */
  predicate IsKeyOf(key: seq<Byte>, bits: seq<bool>)
    requires |bits| == 56
  {
    && |key| == 8 && AllOdd(key)
    && forall p, j | 0 <= p < 8 && 0 <= j < 7 :: ByteBit(key[p], j) == bits[7 * p + j]
  }

  // ---------- Bits of the byte operations ----------

  lemma ReversedBit(c: Byte, j: nat)
    requires j < 8
    ensures ByteBit(Reversed(c), j) == ByteBit(c, 7 - j)
  {
    match j
    case 0 => case 1 => case 2 => case 3 => case 4 => case 5 => case 6 => case _ =>
  }

  lemma ShiftedBit(c: Byte, j: nat)
    requires j < 7
    ensures ByteBit(c << 1, j) == ByteBit(c, j + 1)
  {
    match j
    case 0 => case 1 => case 2 => case 3 => case 4 => case 5 => case _ =>
  }

  lemma ParityKeepsBit(b: Byte, j: nat)
    requires j < 7
    ensures ByteBit(odd_parity(b), j) == ByteBit(b, j)
  {
    hide odd_parity;
    SameHighBits(odd_parity(b), b, j);
  }

  lemma SameHighBits(a: Byte, b: Byte, j: nat)
    requires a & 0xfe == b & 0xfe && j < 7
    ensures ByteBit(a, j) == ByteBit(b, j)
  {
    match j
    case 0 => case 1 => case 2 => case 3 => case 4 => case 5 => case _ =>
  }

  /** Seven bits and odd parity determine a byte. */
  lemma SevenBitsDecide(a: Byte, b: Byte)
    requires ParityBit(a) == 1 && ParityBit(b) == 1
    requires forall j | 0 <= j < 7 :: ByteBit(a, j) == ByteBit(b, j)
    ensures a == b
  {
    hide ByteBit, ParityBit;
    ByteDigits(a);
    ByteDigits(b);
    assert ByteBit(a, 0) == ByteBit(b, 0) && ByteBit(a, 1) == ByteBit(b, 1) && ByteBit(a, 2) == ByteBit(b, 2);
    assert ByteBit(a, 3) == ByteBit(b, 3) && ByteBit(a, 4) == ByteBit(b, 4) && ByteBit(a, 5) == ByteBit(b, 5);
    assert ByteBit(a, 6) == ByteBit(b, 6);
    SevenMasksDecide(a, b);
  }

  lemma SevenMasksDecide(a: Byte, b: Byte)
    requires ParityBit(a) == 1 && ParityBit(b) == 1
    requires (a & 0x80 != 0) == (b & 0x80 != 0) && (a & 0x40 != 0) == (b & 0x40 != 0)
    requires (a & 0x20 != 0) == (b & 0x20 != 0) && (a & 0x10 != 0) == (b & 0x10 != 0)
    requires (a & 0x08 != 0) == (b & 0x08 != 0) && (a & 0x04 != 0) == (b & 0x04 != 0)
    requires (a & 0x02 != 0) == (b & 0x02 != 0)
    ensures a == b
  {
  }

  // ---------- The folds agree ----------

  lemma PieceBit(s: seq<Byte>, q: nat, p: nat, j: nat)
    requires p < 8 && j < 7
    ensures ByteBit(PieceByte(s, q, p), j) == Turned(s, q)[7 * p + j]
  {
    hide ByteBit, Reversed, LowBit, ByteAt;
    if q % 2 == 0 {
      ShiftedBit(ByteAt(s, 8 * q + p), j);
      LowBitAt(s, q, p, j);
    } else {
      ReversedBit(ByteAt(s, 8 * q + 7 - p), j);
      LowBitAt(s, q, 7 - p, 6 - j);
    }
  }

  lemma LowBitAt(s: seq<Byte>, q: nat, p: nat, j: nat)
    requires p < 8 && j < 7
    ensures LowBit(s, q, 7 * p + j) == ByteBit(ByteAt(s, 8 * q + p), j + 1)
  {
    hide ByteBit, ByteAt;
    assert (7 * p + j) / 7 == p && (7 * p + j) % 7 == j;
  }

  lemma {:induction false} FoldBit(s: seq<Byte>, n: nat, p: nat, j: nat)
    requires p < 8 && j < 7
    ensures ByteBit(FoldByte(s, n, p), j) == Folded(s, n)[7 * p + j]
  {
    hide ByteBit, PieceByte, Turned, XorByte;
    if n == 0 {
      ByteDigits(0);
    } else {
      FoldBit(s, n - 1, p, j);
      PieceBit(s, n - 1, p, j);
      XorByteBit(FoldByte(s, n - 1, p), PieceByte(s, n - 1, p), j);
    }
  }

  lemma XorByteBit(a: Byte, b: Byte, j: nat)
    requires j < 8
    ensures ByteBit(XorByte(a, b), j) == (ByteBit(a, j) != ByteBit(b, j))
  {
    ByteBitXor(a, b, j);
  }

  /** The folded password is the one key the standard's fold makes of the characters. */
  lemma FoldedKeyIsStandard(str: seq<Byte>, key: seq<Byte>)
    ensures key == FoldedKey(str) <==> IsKeyOf(key, Folded(str, Count(|str|)))
  {
    hide ByteBit, FoldByte, Folded, odd_parity, ParityBit;
    var bits, k := Folded(str, Count(|str|)), FoldedKey(str);
    forall p, j | 0 <= p < 8 && 0 <= j < 7
      ensures ByteBit(k[p], j) == bits[7 * p + j]
    {
      FoldBit(str, Count(|str|), p, j);
      ParityKeepsBit(FanFold(str)[p], j);
    }
    if IsKeyOf(key, bits) {
      forall p | 0 <= p < 8
        ensures key[p] == k[p]
      {
        SevenBitsDecide(key[p], k[p]);
      }
    }
  }

  // ---------- The whole of it ----------

  /** The bits of eight bytes without the parity places. */
  function WithoutParity(s: seq<Byte>): (r: seq<bool>)
    requires |s| == 8
    ensures |r| == 56
  {
    seq(56, k requires 0 <= k < 56 => ByteBit(s[k / 7], k % 7))
  }

  /** Fixing the parity of eight bytes makes the one key of their other bits. */
  lemma OddParityIsKeyOf(s: seq<Byte>, key: seq<Byte>)
    requires |s| == 8
    ensures key == WithOddParity(s) <==> IsKeyOf(key, WithoutParity(s))
  {
    hide ByteBit, odd_parity, ParityBit;
    var k, bits := WithOddParity(s), WithoutParity(s);
    forall p, j | 0 <= p < 8 && 0 <= j < 7
      ensures ByteBit(k[p], j) == bits[7 * p + j]
    {
      assert (7 * p + j) / 7 == p && (7 * p + j) % 7 == j;
      ParityKeepsBit(s[p], j);
    }
    if IsKeyOf(key, bits) {
      forall p | 0 <= p < 8
        ensures key[p] == k[p]
      {
        SevenBitsDecide(key[p], k[p]);
      }
    }
  }

  /**
   des_string_to_key: the last block of the CBC encryption of the string,
   padded with zeros, under the folded key as key and iv, with odd parity; the
   folded key itself when the string is empty.
   */
  lemma StringKeyIsStandard(str: seq<Byte>, folded: seq<Byte>, key: seq<Byte>)
    requires IsKeyOf(folded, Folded(str, Count(|str|)))
    ensures var c := CbcBytes(Des(RoundF, Schedule(Load(folded)), true), Load(folded), str);
            key == StringKey(RoundF, str) <==>
            IsKeyOf(key, WithoutParity(if str == [] then folded else c[|c| - 8..]))
  {
    hide Des, RoundF, Schedule, Load, Store, Cksum, CbcBytes, FoldedKey, WithOddParity, IsKeyOf, WithoutParity;
    FoldedKeyIsStandard(str, folded);
    var e := Des(RoundF, Schedule(Load(folded)), true);
    CksumIsLastBlock(e, Load(folded), str);
    StoreLoad(folded);
    OddParityIsKeyOf(Store(Cksum(e, Load(folded), str)), key);
  }

  /** Only the low seven bits of each character matter to the folded key. */
  lemma TopBitsDoNotMatter(a: seq<Byte>, b: seq<Byte>)
    requires |a| == |b| && forall i | 0 <= i < |a| :: a[i] & 0x7f == b[i] & 0x7f
    ensures FoldedKey(a) == FoldedKey(b)
  {
    hide Folded, IsKeyOf, FoldedKey;
    FoldedIgnores(a, b, Count(|a|));
    FoldedKeyIsStandard(a, FoldedKey(a));
    FoldedKeyIsStandard(b, FoldedKey(a));
  }

  lemma {:induction false} FoldedIgnores(a: seq<Byte>, b: seq<Byte>, n: nat)
    requires |a| == |b| && forall i | 0 <= i < |a| :: a[i] & 0x7f == b[i] & 0x7f
    ensures Folded(a, n) == Folded(b, n)
  {
    hide WithoutTopBits, Backwards, XorBits;
    if n > 0 {
      FoldedIgnores(a, b, n - 1);
      SameWithoutTopBits(a, b, n - 1);
    }
  }

  lemma SameWithoutTopBits(a: seq<Byte>, b: seq<Byte>, q: nat)
    requires |a| == |b| && forall i | 0 <= i < |a| :: a[i] & 0x7f == b[i] & 0x7f
    ensures WithoutTopBits(a, q) == WithoutTopBits(b, q)
  {
    hide LowBit;
    forall k | 0 <= k < 56
      ensures WithoutTopBits(a, q)[k] == WithoutTopBits(b, q)[k]
    {
      SameLowBit(a, b, q, k);
    }
  }

  lemma SameLowBit(a: seq<Byte>, b: seq<Byte>, q: nat, k: nat)
    requires |a| == |b| && forall i | 0 <= i < |a| :: a[i] & 0x7f == b[i] & 0x7f
    ensures LowBit(a, q, k) == LowBit(b, q, k)
  {
    hide ByteBit;
    SameLowBits(ByteAt(a, 8 * q + k / 7), ByteAt(b, 8 * q + k / 7), k % 7 + 1);
  }

  lemma SameLowBits(a: Byte, b: Byte, i: nat)
    requires a & 0x7f == b & 0x7f && 1 <= i < 8
    ensures ByteBit(a, i) == ByteBit(b, i)
  {
    match i
    case 1 => case 2 => case 3 => case 4 => case 5 => case 6 => case _ =>
  }
}
