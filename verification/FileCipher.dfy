/** The file encryptor (lib/crypto/des.c): padding, chunks of 8192 bytes, stripping. */
module FileCipher {
  import opened DesLocal
  import opened Blocks
  import opened LengthHeader
  import opened Feistel
  import opened CbcEncrypt

  const BUFSIZE: nat := 8192

  // ---------- Code book over whole blocks ----------

  function MapBlocks(g: Block -> Block, bs: seq<Block>): (cs: seq<Block>)
    ensures |cs| == |bs|
  {
    seq(|bs|, i requires 0 <= i < |bs| => g(bs[i]))
  }

  function EcbBytes(g: Block -> Block, data: seq<Byte>): (c: seq<Byte>)
    ensures |c| == 8 * Count(|data|)
  {
    FromBlocks(MapBlocks(g, ToBlocks(data)))
  }

  lemma EcbBytesConcat(g: Block -> Block, s: seq<Byte>, t: seq<Byte>)
    requires |s| % 8 == 0 && |t| % 8 == 0
    ensures EcbBytes(g, s + t) == EcbBytes(g, s) + EcbBytes(g, t)
  {
    hide ToBlocks, FromBlocks;
    ToBlocksConcat(s, t);
    assert MapBlocks(g, ToBlocks(s) + ToBlocks(t)) == MapBlocks(g, ToBlocks(s)) + MapBlocks(g, ToBlocks(t));
    FromBlocksConcat(MapBlocks(g, ToBlocks(s)), MapBlocks(g, ToBlocks(t)));
  }

  lemma EcbBytesOfBlock(g: Block -> Block, data: seq<Byte>)
    requires |data| == 8
    ensures EcbBytes(g, data) == Store(g(Load(data)))
  {
    hide Load, Store;
    assert data[8 * 0..8 * 0 + 8] == data;
    assert MapBlocks(g, ToBlocks(data)) == [] + [g(Load(data))];
    FromBlocksSnoc([], g(Load(data)));
    EmptyBlocks();
  }

  lemma EcbBytesRoundTrip(e: Block -> Block, d: Block -> Block, data: seq<Byte>)
    requires |data| % 8 == 0 && forall b :: d(e(b)) == b
    ensures EcbBytes(d, EcbBytes(e, data)) == data
  {
    hide ToBlocks, FromBlocks;
    ToFromBlocks(MapBlocks(e, ToBlocks(data)));
    assert MapBlocks(d, MapBlocks(e, ToBlocks(data))) == ToBlocks(data);
    FromToWholeBlocks(data);
  }

  // ---------- Either mode, in one call or in chained calls ----------

  /** The forward cipher of whole blocks: -b selects the code book, otherwise CBC. */
  function EncBytes(bflag: bool, e: Block -> Block, iv: Block, data: seq<Byte>): (c: seq<Byte>)
    ensures |c| == 8 * Count(|data|)
  {
    if bflag then EcbBytes(e, data) else CbcBytes(e, iv, data)
  }

  function DecBytes(bflag: bool, d: Block -> Block, iv: Block, c: seq<Byte>): (data: seq<Byte>)
    ensures |data| == 8 * Count(|c|)
  {
    if bflag then EcbBytes(d, c) else FromBlocks(CbcInverse(d, iv, ToBlocks(c)))
  }

  lemma DecIsEcb(d: Block -> Block, iv: Block, c: seq<Byte>)
    ensures DecBytes(true, d, iv, c) == EcbBytes(d, c)
  {
  }

  lemma DecIsCbcInverse(d: Block -> Block, iv: Block, c: seq<Byte>)
    requires |c| % 8 == 0
    ensures DecBytes(false, d, iv, c) == CbcInverseBytes(d, iv, c, |c|)
  {
    hide CbcInverse, FromBlocks, ToBlocks;
  }

  /** The iv kept for the next chunk: the last ciphertext block so far. */
  function NextIv(iv: Block, c: seq<Byte>): Block {
    if |c| >= 8 then Load(c[|c| - 8..]) else iv
  }

  lemma NextIvOfBlocks(iv: Block, c: seq<Byte>)
    requires |c| % 8 == 0
    ensures NextIv(iv, c) == if c == [] then iv else Load(c[|c| - 8..])
  {
    hide Load;
  }

  lemma NextIvConcat(iv: Block, c: seq<Byte>, c': seq<Byte>)
    requires |c| % 8 == 0 && |c'| % 8 == 0
    ensures NextIv(iv, c + c') == NextIv(NextIv(iv, c), c')
  {
    hide Load;
    if |c'| >= 8 {
      assert (c + c')[|c + c'| - 8..] == c'[|c'| - 8..];
    } else {
      assert c + c' == c;
    }
  }

  /** Chunks chained by NextIv are one call, wherever the boundaries between whole blocks fall. */
  lemma EncBytesConcat(bflag: bool, e: Block -> Block, iv: Block, s: seq<Byte>, t: seq<Byte>)
    requires |s| % 8 == 0 && |t| % 8 == 0
    ensures EncBytes(bflag, e, iv, s + t) ==
            EncBytes(bflag, e, iv, s) + EncBytes(bflag, e, NextIv(iv, EncBytes(bflag, e, iv, s)), t)
  {
    hide EcbBytes, CbcBytes, Load, NextIv;
    if bflag {
      EcbBytesConcat(e, s, t);
    } else {
      NextIvOfBlocks(iv, CbcBytes(e, iv, s));
      CbcBytesConcat(e, iv, s, t);
    }
  }

  lemma DecBytesConcat(bflag: bool, d: Block -> Block, iv: Block, s: seq<Byte>, t: seq<Byte>)
    requires |s| % 8 == 0 && |t| % 8 == 0
    ensures DecBytes(bflag, d, iv, s + t) == DecBytes(bflag, d, iv, s) + DecBytes(bflag, d, NextIv(iv, s), t)
  {
    hide EcbBytes, CbcInverseBytes, DecBytes, Load, NextIv;
    if bflag {
      EcbBytesConcat(d, s, t);
      DecIsEcb(d, iv, s + t);
      DecIsEcb(d, iv, s);
      DecIsEcb(d, NextIv(iv, s), t);
    } else {
      NextIvOfBlocks(iv, s);
      CbcInverseBytesConcat(d, iv, s, t, |t|);
      DecIsCbcInverse(d, iv, s + t);
      DecIsCbcInverse(d, iv, s);
      DecIsCbcInverse(d, NextIv(iv, s), t);
    }
  }

  lemma DecEnc(bflag: bool, e: Block -> Block, d: Block -> Block, iv: Block, data: seq<Byte>)
    requires |data| % 8 == 0 && forall b :: d(e(b)) == b
    ensures DecBytes(bflag, d, iv, EncBytes(bflag, e, iv, data)) == data
  {
    hide EcbBytes, CbcBytes, CbcInverseBytes, DecBytes;
    if bflag {
      EcbBytesRoundTrip(e, d, data);
      DecIsEcb(d, iv, EcbBytes(e, data));
    } else {
      CbcBytesRoundTrip(e, d, iv, data);
      DecIsCbcInverse(d, iv, CbcBytes(e, iv, data));
    }
  }

  // ---------- Padding ----------

  /** Up to seven filler bytes and then the number of data bytes in the last block. */
  function Padding(n: nat, filler: seq<Byte>): (p: seq<Byte>)
    requires |filler| == 7
    ensures (n + |p|) % 8 == 0 && |p| == 8 - n % 8
  {
    filler[..7 - n % 8] + [ByteOf(n % 8)]
  }

  function Padded(data: seq<Byte>, filler: seq<Byte>): (p: seq<Byte>)
    requires |filler| == 7
    ensures |p| % 8 == 0 && |p| >= 8
  {
    data + Padding(|data|, filler)
  }

  /** What the last byte says of a padded plaintext: how much of it to keep, if it can be right. */
  function Strip(padded: seq<Byte>): (n: int)
    requires |padded| >= 8
    ensures n == -1 || 0 <= n < |padded|
  {
    var last := ValueOf(padded[|padded| - 1]);
    if last > 7 then -1 else |padded| - 8 + last
  }

  lemma StripPadding(data: seq<Byte>, filler: seq<Byte>)
    requires |filler| == 7
    ensures Strip(data + Padding(|data|, filler)) == |data|
  {
    hide ByteOf, ValueOf;
    ValueOfByteOf(|data| % 8);
  }

  // ---------- The file round trip ----------

  const ZERO_IV := Block(0, 0)

  function EncryptFile(bflag: bool, e: Block -> Block, data: seq<Byte>, filler: seq<Byte>): (c: seq<Byte>)
    requires |filler| == 7
    ensures |c| % 8 == 0 && |c| >= 8
  {
    var p := Padded(data, filler);
    CountSum(|p|, 0);
    EncBytes(bflag, e, ZERO_IV, p)
  }

  /** The plaintext written, or what was written before the message that the file was not decrypted correctly. */
  datatype Outcome = Decrypted(data: seq<Byte>) | NotDecrypted(written: seq<Byte>)

  /** The last chunk is only written once its last byte has been looked at. */
  function Stripped(padded: seq<Byte>): Outcome
    requires |padded| >= 8
  {
    var n := Strip(padded);
    if n < 0 then NotDecrypted(padded[..(|padded| - 1) / BUFSIZE * BUFSIZE]) else Decrypted(padded[..n])
  }

  function DecryptFile(bflag: bool, d: Block -> Block, c: seq<Byte>): Outcome
    requires |c| % 8 == 0 && |c| >= 8
  {
    Stripped(DecBytes(bflag, d, ZERO_IV, c))
  }

  /**
   What becomes of a deciphered file: its last byte says how many bytes of the last block to keep;
   when it is above 7 all chunks of 8192 bytes but the last one were written, whole.
   */
  lemma DecryptedAsTheLastByteSays(bflag: bool, d: Block -> Block, c: seq<Byte>)
    requires |c| % 8 == 0 && |c| >= 8
    ensures var p, r := DecBytes(bflag, d, ZERO_IV, c), DecryptFile(bflag, d, c);
            var last := p[|p| - 1] as int;
            && |p| == |c|
            && (last <= 7 ==> r == Decrypted(p[..|p| - 8 + last]))
            && (last > 7 ==> r.NotDecrypted? && r.written <= p
                             && |r.written| % 8192 == 0 && |r.written| < |p| <= |r.written| + 8192)
  {
    hide DecBytes;
    CountSum(|c|, 0);
  }

  /** Decrypting an encrypted file returns it, for every byte string, filler, key and mode. */
  lemma FileRoundTrip(bflag: bool, f: RoundFn, ks: KeySchedule, data: seq<Byte>, filler: seq<Byte>)
    requires |filler| == 7
    ensures DecryptFile(bflag, Des(f, ks, false), EncryptFile(bflag, Des(f, ks, true), data, filler)) == Decrypted(data)
  {
    hide EncBytes, DecBytes, Des, Strip, Padding;
    var p := data + Padding(|data|, filler);
    DesInverse(f, ks, true);
    DecEnc(bflag, Des(f, ks, true), Des(f, ks, false), ZERO_IV, p);
    StripPadding(data, filler);
    assert p[..|data|] == data;
  }
}
