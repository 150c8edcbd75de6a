/**
 The chaining modes bit by bit: what lib/crypto/cbc_encrypt.c, lib/crypto/pcbc_encrypt.c and the
 code book write, in terms of the algorithm of FIPS PUB 46-3.
 */
module StandardModes {
  import opened ByteBits
  import opened DesLocal
  import opened Blocks
  import opened WordBits
  import opened Feistel
  import opened DEncrypt
  import opened SetKey
  import opened CbcEncrypt
  import opened PcbcEncrypt
  import opened FileCipher
  import opened FipsRounds
  import opened FipsAgreement
  import Fips46

  /** The 64 bits of block i of a byte string, with zeros after its end. */
  function BitsOf(s: seq<Byte>, i: nat): (b: Fips46.Bits)
    ensures |b| == 64
  {
    seq(64, k requires 0 <= k < 64 => 64 * i + k < 8 * |s| && BitAt(s, 64 * i + k))
  }

  /** The exclusive or of two blocks is that of their bits. */
  lemma XorBlockBits(a: Block, b: Block)
    ensures BlockBits(XorBlock(a, b)) == Fips46.Xored(BlockBits(a), BlockBits(b))
  {
    hide Bit, Xor;
    forall k | 0 <= k < 64
      ensures BlockBit(XorBlock(a, b), k) == (BlockBit(a, k) != BlockBit(b, k))
    {
      if k < 32 {
        XorBit(a.l, b.l, 8 * (k / 8) + 7 - k % 8);
      } else {
        XorBit(a.r, b.r, 8 * (k / 8 - 4) + 7 - k % 8);
      }
    }
  }

  // ---------- Bytes and blocks ----------

  lemma BitOfSlice(s: seq<Byte>, t: seq<Byte>, from: nat, k: nat)
    requires k < 8 * |t| && from + |t| <= |s| && s[from..from + |t|] == t
    ensures BitAt(t, k) == BitAt(s, 8 * from + k)
  {
    hide Has, Probe;
    assert (8 * from + k) / 8 == from + k / 8 && (8 * from + k) % 8 == k % 8;
    assert t[k / 8] == s[from..from + |t|][k / 8];
  }

  lemma ZeroHasNone(i: nat)
    requires i < 8
    ensures !Has(0, Probe(i))
  {
  }

  /** A block loaded from a byte string, or from its short end. */
  lemma BlockAtBits(s: seq<Byte>, i: nat)
    requires 8 * i < |s|
    ensures BlockBits(BlockAt(s, i)) == BitsOf(s, i)
  {
    hide Load, Store, C2ln, BitAt, BlockBit;
    var whole := 8 * i + 8 <= |s|;
    var part := if whole then s[8 * i..8 * i + 8] else s[8 * i..];
    var b := part + Zeros(8 - |part|);
    if !whole {
      C2lnPads(part);
    } else {
      assert b == part;
    }
    assert BlockAt(s, i) == Load(b);
    StoreLoad(b);
    forall k | 0 <= k < 64
      ensures BlockBits(Load(b))[k] == BitsOf(s, i)[k]
    {
      BlockBitsAreByteBits(Load(b), k);
      PaddedBit(s, i, part, b, k);
    }
  }

  lemma PaddedBit(s: seq<Byte>, i: nat, part: seq<Byte>, b: seq<Byte>, k: nat)
    requires 8 * i < |s| && k < 64
    requires part == if 8 * i + 8 <= |s| then s[8 * i..8 * i + 8] else s[8 * i..]
    requires b == part + Zeros(8 - |part|)
    ensures BitAt(b, k) == BitsOf(s, i)[k]
  {
    hide Has, Probe;
    if k < 8 * |part| {
      BitOfSlice(b, part, 0, k);
      BitOfSlice(s, part, 8 * i, k);
    } else {
      ZeroHasNone(k % 8);
    }
  }

  lemma StoredBits(bs: seq<Block>, i: nat)
    requires i < |bs|
    ensures BitsOf(FromBlocks(bs), i) == BlockBits(bs[i])
  {
    hide Store, FromBlocks, BitAt, BlockBit;
    FromBlocksAt(bs, i);
    forall k | 0 <= k < 64
      ensures BitsOf(FromBlocks(bs), i)[k] == BlockBits(bs[i])[k]
    {
      BlockBitsAreByteBits(bs[i], k);
      BitOfSlice(FromBlocks(bs), Store(bs[i]), 8 * i, k);
    }
  }

  // ---------- Code book and CBC ----------

  lemma EcbIsStandard(key: Block, encrypt: bool, data: seq<Byte>, i: nat)
    requires i < Count(|data|)
    ensures var c := EcbBytes(Des(RoundF, Schedule(key), encrypt), data);
            BitsOf(c, i) == Fips46.Output(BlockBits(key), encrypt, BitsOf(data, i))
  {
    hide Des, RoundF, Schedule, BlockAt, FromBlocks, BlockBits, BitsOf, Fips46.Output;
    var e, ps := Des(RoundF, Schedule(key), encrypt), ToBlocks(data);
    BlockAtBits(data, i);
    StoredBits(MapBlocks(e, ps), i);
    DesIsFips46(key, encrypt, ps[i]);
  }

  /** Ciphertext block i is the cipher of plaintext block i xor ciphertext block i-1, the first one xor the iv. */
  lemma CbcIsStandard(key: Block, iv: Block, data: seq<Byte>, i: nat)
    requires i < Count(|data|)
    ensures var c := CbcBytes(Des(RoundF, Schedule(key), true), iv, data);
            var previous := if i == 0 then BlockBits(iv) else BitsOf(c, i - 1);
            BitsOf(c, i) == Fips46.Output(BlockBits(key), true, Fips46.Xored(BitsOf(data, i), previous))
  {
    hide Des, RoundF, Schedule, BlockAt, FromBlocks, BlockBits, BitsOf, XorBlock, Cbc, Fips46.Output, Fips46.Xored;
    var e, ps := Des(RoundF, Schedule(key), true), ToBlocks(data);
    var cs := Cbc(e, iv, ps);
    var previous := Chain(iv, cs[..i]);
    CbcAt(e, iv, ps, i);
    StoredBits(cs, i);
    if i > 0 {
      StoredBits(cs, i - 1);
    }
    BlockAtBits(data, i);
    XorBlockBits(ps[i], previous);
    DesIsFips46(key, true, XorBlock(ps[i], previous));
  }

  /** Bit k of plaintext block i is that of the deciphered block xor that of the ciphertext block before. */
  lemma CbcInverseIsStandard(key: Block, iv: Block, c: seq<Byte>, n: nat, i: nat, k: nat)
    requires |c| == 8 * Count(n) && k < 64 && 64 * i + k < 8 * n
    ensures var p := CbcInverseBytes(Des(RoundF, Schedule(key), false), iv, c, n);
            var previous := if i == 0 then BlockBits(iv) else BitsOf(c, i - 1);
            BitAt(p, 64 * i + k) == Fips46.Xored(Fips46.Output(BlockBits(key), false, BitsOf(c, i)), previous)[k]
  {
    hide Des, RoundF, Schedule, Load, C2ln, FromBlocks, BlockBits, BitsOf, BitAt, XorBlock, CbcInverse, Count,
      Fips46.Output, Fips46.Xored;
    var d, cs := Des(RoundF, Schedule(key), false), ToBlocks(c);
    CountBounds(n);
    var ps := CbcInverse(d, iv, cs);
    var previous := Chain(iv, cs[..i]);
    CbcInverseAt(d, iv, cs, i);
    BlockAtBits(c, i);
    if i > 0 {
      BlockAtBits(c, i - 1);
      assert previous == BlockAt(c, i - 1);
    }
    XorBlockBits(d(cs[i]), previous);
    DesIsFips46(key, false, cs[i]);
    StoredBits(ps, i);
    BitOfPrefix(ps, n, i, k);
  }

  lemma BitOfPrefix(ps: seq<Block>, n: nat, i: nat, k: nat)
    requires n <= 8 * |ps| && k < 64 && 64 * i + k < 8 * n
    ensures BitAt(FromBlocks(ps)[..n], 64 * i + k) == BitsOf(FromBlocks(ps), i)[k]
  {
    hide BitAt, FromBlocks;
    BitOfSlice(FromBlocks(ps), FromBlocks(ps)[..n], 0, 64 * i + k);
  }

  // ---------- PCBC ----------

  /** Ciphertext block i is the cipher of plaintext block i xor both blocks before, the first one xor the iv. */
  lemma PcbcIsStandard(key: Block, iv: Block, data: seq<Byte>, i: nat)
    requires i < Count(|data|)
    ensures var c := PcbcBytes(Des(RoundF, Schedule(key), true), iv, data);
            var previous := if i == 0 then BlockBits(iv) else Fips46.Xored(BitsOf(data, i - 1), BitsOf(c, i - 1));
            BitsOf(c, i) == Fips46.Output(BlockBits(key), true, Fips46.Xored(BitsOf(data, i), previous))
  {
    hide Des, RoundF, Schedule, BlockAt, FromBlocks, BlockBits, BitsOf, XorBlock, Pcbc, Fips46.Output, Fips46.Xored;
    var e, ps := Des(RoundF, Schedule(key), true), ToBlocks(data);
    var cs := Pcbc(e, iv, ps);
    var previous := PChain(iv, ps[..i], cs[..i]);
    PcbcAt(e, iv, ps, i);
    StoredBits(cs, i);
    BlockAtBits(data, i);
    if i > 0 {
      StoredBits(cs, i - 1);
      BlockAtBits(data, i - 1);
      XorBlockBits(ps[i - 1], cs[i - 1]);
    }
    XorBlockBits(ps[i], previous);
    DesIsFips46(key, true, XorBlock(ps[i], previous));
  }

  /** Plaintext block i is the deciphered block xor both blocks before, the plaintext one as deciphered. */
  lemma PcbcInverseIsStandard(key: Block, iv: Block, c: seq<Byte>, n: nat, i: nat, k: nat)
    requires |c| == 8 * Count(n) && k < 64 && 64 * i + k < 8 * n
    ensures var p := PcbcInverseBytes(Des(RoundF, Schedule(key), false), iv, c, n);
            var previous := if i == 0 then BlockBits(iv) else Fips46.Xored(BitsOf(p, i - 1), BitsOf(c, i - 1));
            BitAt(p, 64 * i + k) == Fips46.Xored(Fips46.Output(BlockBits(key), false, BitsOf(c, i)), previous)[k]
  {
    hide Des, RoundF, Schedule, Load, C2ln, FromBlocks, BlockBits, BitsOf, BitAt, XorBlock, PcbcInverse, Count,
      Fips46.Output, Fips46.Xored;
    var d, cs := Des(RoundF, Schedule(key), false), ToBlocks(c);
    CountBounds(n);
    var ps := PcbcInverse(d, iv, cs);
    var previous := PChain(iv, ps[..i], cs[..i]);
    PcbcInverseAt(d, iv, cs, i);
    BlockAtBits(c, i);
    if i > 0 {
      BlockAtBits(c, i - 1);
      StoredBits(ps, i - 1);
      WholeBlockOfPrefix(ps, n, i - 1);
      XorBlockBits(ps[i - 1], cs[i - 1]);
    }
    XorBlockBits(d(cs[i]), previous);
    DesIsFips46(key, false, cs[i]);
    StoredBits(ps, i);
    BitOfPrefix(ps, n, i, k);
  }

  lemma WholeBlockOfPrefix(ps: seq<Block>, n: nat, i: nat)
    requires n <= 8 * |ps| && 8 * i + 8 <= n
    ensures BitsOf(FromBlocks(ps)[..n], i) == BitsOf(FromBlocks(ps), i)
  {
    hide BitAt, FromBlocks;
    forall k | 0 <= k < 64
      ensures BitsOf(FromBlocks(ps)[..n], i)[k] == BitsOf(FromBlocks(ps), i)[k]
    {
      BitOfPrefix(ps, n, i, k);
    }
  }

  // ---------- The file encryptor ----------

  /** An encrypted file: the data, filler and count of data bytes, ciphered block by block from a zero iv. */
  lemma FileIsStandard(bflag: bool, key: Block, data: seq<Byte>, filler: seq<Byte>, i: nat)
    requires |filler| == 7 && i <= |data| / 8
    ensures var c := EncryptFile(bflag, Des(RoundF, Schedule(key), true), data, filler);
            var padded := data + filler[..7 - |data| % 8] + [(|data| % 8) as Byte];
            var previous := if bflag || i == 0 then seq(64, _ => false) else BitsOf(c, i - 1);
            && |c| == |data| / 8 * 8 + 8
            && BitsOf(c, i) == Fips46.Output(BlockBits(key), true, Fips46.Xored(BitsOf(padded, i), previous))
  {
    hide Des, RoundF, Schedule, BlockBits, BitsOf, EcbBytes, CbcBytes, Fips46.Output;
    var e := Des(RoundF, Schedule(key), true);
    var padded := data + filler[..7 - |data| % 8] + [(|data| % 8) as Byte];
    assert padded == Padded(data, filler);
    CountSum(|padded|, 0);
    ZeroBits();
    if bflag {
      EcbIsStandard(key, true, padded, i);
      assert Fips46.Xored(BitsOf(padded, i), seq(64, _ => false)) == BitsOf(padded, i);
    } else {
      CbcIsStandard(key, ZERO_IV, padded, i);
    }
  }

  lemma ZeroBits()
    ensures BlockBits(ZERO_IV) == seq(64, _ => false)
  {
    hide Bit;
    Digits(0);
  }
}
