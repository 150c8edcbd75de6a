/** doencryption (lib/crypto/des.c): the loops that read, process and write one chunk at a time. */
module DoEncryption {
  import opened DesLocal
  import opened Blocks
  import opened LengthHeader
  import opened Feistel
  import opened EcbEncrypt
  import opened CbcEncrypt
  import opened FileCipher

  /** fread into the static buffer: the next BUFSIZE bytes or what is left; feof once it comes up short. */
  method Fread(file: seq<Byte>, pos: nat, buf: array<Byte>) returns (l: nat, feof: bool)
    requires pos <= |file| && buf.Length == BUFSIZE + 8
    modifies buf
    ensures l == if |file| - pos >= BUFSIZE then BUFSIZE else |file| - pos
    ensures feof <==> l < BUFSIZE
    ensures buf[..l] == file[pos..pos + l]
  {
    l := if |file| - pos >= BUFSIZE then BUFSIZE else |file| - pos;
    for i := 0 to l
      invariant buf[..i] == file[pos..pos + i]
    {
      buf[i] := file[pos + i];
    }
    feof := l < BUFSIZE;
  }

  /** The filler from rand() and the count of data bytes in the last block. */
  method Pad(buf: array<Byte>, n: nat) returns (l: nat, ghost filler: seq<Byte>)
    requires n < BUFSIZE && buf.Length == BUFSIZE + 8
    modifies buf
    ensures |filler| == 7 && l <= BUFSIZE
    ensures buf[..l] == old(buf[..n]) + Padding(n, filler)
  {
    hide ByteOf;
    var last := n % 8;
    var i := 7 - last;
    l := n;
    while i > 0
      invariant 0 <= i <= 7 - last && l == n + 7 - last - i
      invariant buf[..n] == old(buf[..n])
    {
      buf[l] := *;
      l, i := l + 1, i - 1;
    }
    filler := buf[n..l] + Zeros(last);
    buf[l] := ByteOf(last);
    l := l + 1;
    assert buf[..l] == buf[..n] + buf[n..l - 1] + [buf[l - 1]];
    assert filler[..7 - last] == buf[n..l - 1];
  }

  /** The eight bytes at a place of a buffer become the iv. */
  method CopyIv(buf: array<Byte>, at: nat, iv: array<Byte>)
    requires iv.Length == 8 && at + 8 <= buf.Length && iv != buf
    modifies iv
    ensures iv[..] == buf[at..at + 8]
  {
    for i := 0 to 8
      invariant iv[..i] == buf[at..at + i]
    {
      iv[i] := buf[at + i];
    }
  }

  /** The code book loop over a chunk of whole blocks. */
  method EcbChunk(f: RoundFn, ks: KeySchedule, encrypt: bool, buf: array<Byte>, obuf: array<Byte>, l: nat)
    requires l % 8 == 0 && l <= buf.Length && l <= obuf.Length && buf != obuf
    modifies obuf
    ensures obuf[..l] == EcbBytes(Des(f, ks, encrypt), buf[..l])
  {
    hide Load, Store, Des, EcbBytes;
    ghost var g := Des(f, ks, encrypt);
    var i := 0;
    EcbNothing(g);
    while i < l
      invariant 0 <= i <= l && i % 8 == 0
      invariant obuf[..i] == EcbBytes(g, buf[..i])
    {
      ghost var before := obuf[..];
      DesEcbEncrypt(f, buf, obuf, i, ks, encrypt);
      OneMoreBlock(g, buf[..], before, obuf[..], i);
      assert buf[..][..i + 8] == buf[..i + 8] && obuf[..][..i + 8] == obuf[..i + 8];
      i := i + 8;
    }
  }

  lemma OneMoreBlock(g: Block -> Block, buf: seq<Byte>, before: seq<Byte>, after: seq<Byte>, i: nat)
    requires i % 8 == 0 && i + 8 <= |buf| && i + 8 <= |before|
    requires before[..i] == EcbBytes(g, buf[..i])
    requires after == before[..i] + Store(g(Load(buf[i..i + 8]))) + before[i + 8..]
    ensures after[..i + 8] == EcbBytes(g, buf[..i + 8])
  {
    hide Load, Store, EcbBytes;
    EcbBytesConcat(g, buf[..i], buf[i..i + 8]);
    EcbBytesOfBlock(g, buf[i..i + 8]);
    assert buf[..i + 8] == buf[..i] + buf[i..i + 8];
  }

  lemma EcbNothing(g: Block -> Block)
    ensures EcbBytes(g, []) == []
  {
  }

  /** One chunk in the direction asked for; outside the code book the iv becomes the last ciphertext block. */
  method CryptChunk(bflag: bool, f: RoundFn, ks: KeySchedule, encrypt: bool,
                    buf: array<Byte>, obuf: array<Byte>, l: nat, iv: array<Byte>, ghost chain: Block)
    requires l % 8 == 0 && l <= buf.Length && l <= obuf.Length && buf != obuf
    requires iv.Length == 8 && iv != obuf && iv != buf
    requires !bflag ==> Load(iv[..]) == chain
    modifies obuf, iv
    ensures encrypt ==> obuf[..l] == EncBytes(bflag, Des(f, ks, true), chain, buf[..l])
    ensures !encrypt ==> obuf[..l] == DecBytes(bflag, Des(f, ks, false), chain, buf[..l])
    ensures !bflag ==> Load(iv[..]) == NextIv(chain, if encrypt then obuf[..l] else buf[..l])
  {
    hide Load, Des, EcbBytes, CbcBytes, CbcInverseBytes, CbcInverse, DecBytes;
    if bflag {
      DecIsEcb(Des(f, ks, false), chain, buf[..l]);
      EcbChunk(f, ks, encrypt, buf, obuf, l);
    } else {
      DecIsCbcInverse(Des(f, ks, false), chain, buf[..l]);
      DesCbcEncrypt(f, buf, obuf, l, ks, iv, encrypt);
      assert buf[..][..l] == buf[..l] && obuf[..][..l] == obuf[..l];
      if l >= 8 {
        if encrypt {
          CopyIv(obuf, l - 8, iv);
          assert obuf[..l][l - 8..] == obuf[l - 8..l];
        } else {
          CopyIv(buf, l - 8, iv);
          assert buf[..l][l - 8..] == buf[l - 8..l];
        }
      }
    }
  }

  /** An all-zero iv. */
  method ZeroedIv() returns (iv: array<Byte>)
    ensures fresh(iv) && iv.Length == 8 && Load(iv[..]) == ZERO_IV
  {
    iv := new Byte[8](i => 0);
    assert iv[..] == [0, 0, 0, 0, 0, 0, 0, 0];
  }

  // ---------- Encrypting ----------

  lemma SumOfEights(a: nat, b: nat)
    requires a % 8 == 0 && b % 8 == 0
    ensures (a + b) % 8 == 0
  {
  }

  /** What has been read is encrypted, and the next chunk is chained to it. */
  ghost predicate Encrypted(bflag: bool, e: Block -> Block, file: seq<Byte>, pos: nat, out: seq<Byte>, chain: Block) {
    && pos <= |file| && pos % BUFSIZE == 0 && pos % 8 == 0
    && out == EncBytes(bflag, e, ZERO_IV, file[..pos])
    && chain == NextIv(ZERO_IV, out)
  }

  lemma EncryptStart(bflag: bool, e: Block -> Block, file: seq<Byte>)
    ensures Encrypted(bflag, e, file, 0, [], ZERO_IV)
  {
  }

  lemma EncryptStep(bflag: bool, e: Block -> Block, file: seq<Byte>, pos: nat,
                    out: seq<Byte>, chain: Block, chunk: seq<Byte>)
    requires Encrypted(bflag, e, file, pos, out, chain) && pos + BUFSIZE <= |file| && chunk == file[pos..pos + BUFSIZE]
    ensures var c := EncBytes(bflag, e, chain, chunk);
            Encrypted(bflag, e, file, pos + BUFSIZE, out + c, NextIv(chain, c))
  {
    hide EncBytes, NextIv;
    SumOfEights(pos, BUFSIZE);
    assert file[..pos + BUFSIZE] == file[..pos] + chunk;
    EncBytesConcat(bflag, e, ZERO_IV, file[..pos], chunk);
    NextIvConcat(ZERO_IV, out, EncBytes(bflag, e, chain, chunk));
  }

  /** The last chunk is padded as the whole file would be. */
  lemma EncryptEnd(bflag: bool, e: Block -> Block, file: seq<Byte>, pos: nat,
                   out: seq<Byte>, chain: Block, filler: seq<Byte>)
    requires Encrypted(bflag, e, file, pos, out, chain) && |filler| == 7
    ensures out + EncBytes(bflag, e, chain, file[pos..] + Padding(|file| - pos, filler)) ==
            EncryptFile(bflag, e, file, filler)
  {
    hide EncBytes, NextIv, Padding, Load;
    PaddingOfTail(file, pos, filler);
    EncBytesConcat(bflag, e, ZERO_IV, file[..pos], file[pos..] + Padding(|file| - pos, filler));
  }

  lemma PaddingOfTail(file: seq<Byte>, pos: nat, filler: seq<Byte>)
    requires pos <= |file| && pos % BUFSIZE == 0 && |filler| == 7
    ensures file[..pos] + (file[pos..] + Padding(|file| - pos, filler)) == file + Padding(|file|, filler)
  {
    hide ByteOf;
    assert (|file| - pos) % 8 == |file| % 8;
    assert file == file[..pos] + file[pos..];
  }

  /** doencryption with encrypt set: the output is one encryption of the padded file. */
  method EncryptLoop(bflag: bool, f: RoundFn, ks: KeySchedule, file: seq<Byte>)
    returns (out: seq<Byte>, ghost filler: seq<Byte>)
    ensures |filler| == 7
    ensures out == EncryptFile(bflag, Des(f, ks, true), file, filler)
  {
    hide Load, Des, EncBytes, NextIv, Padding, Encrypted, EncryptFile;
    var buf, obuf := new Byte[BUFSIZE + 8](i => 0), new Byte[BUFSIZE + 8](i => 0);
    var iv := ZeroedIv();
    ghost var e, chain := Des(f, ks, true), ZERO_IV;
    var pos := 0;
    out, filler := [], Zeros(7);
    EncryptStart(bflag, e, file);
    while true
      invariant pos <= |file|
      invariant Encrypted(bflag, e, file, pos, out, chain)
      invariant !bflag ==> Load(iv[..]) == chain
      invariant fresh(buf) && fresh(obuf) && fresh(iv)
      decreases |file| - pos
    {
      var num, feof := Fread(file, pos, buf);
      var l := num;
      if feof {
        assert file[pos..pos + l] == file[pos..];
        l, filler := Pad(buf, l);
      }
      ghost var chunk := buf[..l];
      CryptChunk(bflag, f, ks, true, buf, obuf, l, iv, chain);
      if feof {
        EncryptEnd(bflag, e, file, pos, out, chain, filler);
      } else {
        EncryptStep(bflag, e, file, pos, out, chain, chunk);
      }
      out := out + obuf[..l];
      if feof {
        break;
      }
      chain := NextIv(chain, obuf[..l]);
      pos := pos + l;
    }
  }

  // ---------- Decrypting ----------

  ghost predicate Deciphered(bflag: bool, d: Block -> Block, file: seq<Byte>, pos: nat, out: seq<Byte>, chain: Block) {
    && pos <= |file| && pos % BUFSIZE == 0 && pos % 8 == 0
    && out == DecBytes(bflag, d, ZERO_IV, file[..pos])
    && chain == NextIv(ZERO_IV, file[..pos])
  }

  lemma DecryptStart(bflag: bool, d: Block -> Block, file: seq<Byte>)
    ensures Deciphered(bflag, d, file, 0, [], ZERO_IV)
  {
  }

  /** One more chunk, up to the next boundary or the end of the file. */
  lemma DecryptStep(bflag: bool, d: Block -> Block, file: seq<Byte>, pos: nat,
                    out: seq<Byte>, chain: Block, chunk: seq<Byte>)
    requires Deciphered(bflag, d, file, pos, out, chain)
    requires |chunk| % 8 == 0 && pos + |chunk| <= |file| && chunk == file[pos..pos + |chunk|]
    ensures var p, end := out + DecBytes(bflag, d, chain, chunk), pos + |chunk|;
            && p == DecBytes(bflag, d, ZERO_IV, file[..end])
            && (end % BUFSIZE == 0 ==> Deciphered(bflag, d, file, end, p, NextIv(chain, chunk)))
  {
    hide DecBytes, NextIv;
    SumOfEights(pos, |chunk|);
    assert file[..pos + |chunk|] == file[..pos] + chunk;
    DecBytesConcat(bflag, d, ZERO_IV, file[..pos], chunk);
    NextIvConcat(ZERO_IV, file[..pos], chunk);
  }

  /** What is left when the last chunk was full or short is the whole file deciphered. */
  lemma DecryptEnd(bflag: bool, d: Block -> Block, file: seq<Byte>, end: nat, padded: seq<Byte>)
    requires |file| % 8 == 0 && |file| >= 8 && end == |file| && padded == DecBytes(bflag, d, ZERO_IV, file[..end])
    ensures |padded| >= 8 && Stripped(padded) == DecryptFile(bflag, d, file)
  {
    hide DecBytes, Stripped;
    assert file[..end] == file;
  }

  /** The end of the decrypting loop, once the chunk at hand is known to be the last. */
  method StripLast(written: seq<Byte>, obuf: array<Byte>, n: nat) returns (r: Outcome)
    requires |written| % BUFSIZE == 0 && 8 <= n <= BUFSIZE < obuf.Length
    ensures r == Stripped(written + obuf[..n])
  {
    hide ValueOf;
    var l := n;
    ghost var padded := written + obuf[..n];
    var last := ValueOf(obuf[l - 1]);
    if last > 7 {
      assert written == padded[..|written|];
      return NotDecrypted(written);
    }
    l := l - 8 + last;
    assert written + obuf[..l] == padded[..|written| + l];
    return Decrypted(written + obuf[..l]);
  }

  /** Decrypts the chunk at hand and with it the file up to there. */
  method DecryptChunk(bflag: bool, f: RoundFn, ks: KeySchedule, buf: array<Byte>, obuf: array<Byte>, l: nat,
                      iv: array<Byte>, ghost file: seq<Byte>, ghost pos: nat, ghost out: seq<Byte>, ghost chain: Block)
    requires l % 8 == 0 && l <= buf.Length && l <= obuf.Length && buf != obuf
    requires iv.Length == 8 && iv != obuf && iv != buf
    requires Deciphered(bflag, Des(f, ks, false), file, pos, out, chain)
    requires pos + l <= |file| && buf[..l] == file[pos..pos + l]
    requires !bflag ==> Load(iv[..]) == chain
    modifies obuf, iv
    ensures out + obuf[..l] == DecBytes(bflag, Des(f, ks, false), ZERO_IV, file[..pos + l])
    ensures (pos + l) % BUFSIZE == 0 ==>
              Deciphered(bflag, Des(f, ks, false), file, pos + l, out + obuf[..l], NextIv(chain, buf[..l]))
    ensures !bflag ==> Load(iv[..]) == NextIv(chain, buf[..l])
  {
    hide Load, Des, DecBytes, NextIv, Deciphered;
    CryptChunk(bflag, f, ks, false, buf, obuf, l, iv, chain);
    DecryptStep(bflag, Des(f, ks, false), file, pos, out, chain, buf[..l]);
  }

  /** The chunk of l bytes at pos is the next to decrypt of a file of n. */
  predicate AtChunk(n: nat, pos: nat, l: nat) {
    && pos + l <= n && pos % BUFSIZE == 0 && l % 8 == 0
    && 0 < l == if n - pos >= BUFSIZE then BUFSIZE else n - pos
  }

  lemma FirstChunk(n: nat, l: nat)
    requires n % 8 == 0 && n >= 8 && l == if n >= BUFSIZE then BUFSIZE else n
    ensures AtChunk(n, 0, l)
  {
  }

  /** After it comes another one, behind a full chunk, or the end of the file. */
  lemma NextChunk(n: nat, pos: nat, l: nat, ll: nat)
    requires n % 8 == 0 && AtChunk(n, pos, l)
    requires ll == if n - (pos + l) >= BUFSIZE then BUFSIZE else n - (pos + l)
    ensures if ll == 0 then pos + l == n else l == BUFSIZE && AtChunk(n, pos + l, ll)
  {
  }

  /**
   doencryption with encrypt clear, on a file of whole blocks that is not
   empty. Each chunk is held back until the next read shows whether it was
   the last; only the last is stripped.
   */
  method DecryptLoop(bflag: bool, f: RoundFn, ks: KeySchedule, file: seq<Byte>) returns (r: Outcome)
    requires |file| % 8 == 0 && |file| >= 8
    ensures r == DecryptFile(bflag, Des(f, ks, false), file)
  {
    hide Load, Des, DecBytes, NextIv, Stripped, Deciphered, Count, DecryptFile, AtChunk;
    var buf, obuf := new Byte[BUFSIZE + 8](i => 0), new Byte[BUFSIZE + 8](i => 0);
    var iv := ZeroedIv();
    ghost var d, chain := Des(f, ks, false), ZERO_IV;
    var pos, out := 0, [];
    DecryptStart(bflag, d, file);
    var l, feof := Fread(file, 0, buf);
    FirstChunk(|file|, l);
    while true
      invariant 0 <= l <= BUFSIZE && |out| == pos && pos + l <= |file|
      invariant AtChunk(|file|, pos, l)
      invariant buf[..l] == file[pos..pos + l]
      invariant Deciphered(bflag, d, file, pos, out, chain)
      invariant !bflag ==> Load(iv[..]) == chain
      invariant fresh(buf) && fresh(obuf) && fresh(iv)
      decreases |file| - pos
    {
      ghost var chunk := buf[..l];
      ChunkFacts(|file|, pos, l);
      DecryptChunk(bflag, f, ks, buf, obuf, l, iv, file, pos, out, chain);
      var ll;
      ll, feof := Fread(file, pos + l, buf);
      NextChunk(|file|, pos, l, ll);
      if feof && ll == 0 {
        DecryptEnd(bflag, d, file, pos + l, out + obuf[..l]);
        r := StripLast(out, obuf, l);
        return;
      }
      out := out + obuf[..l];
      chain := NextIv(chain, chunk);
      pos := pos + l;
      l := ll;
    }
  }

  lemma ChunkFacts(n: nat, pos: nat, l: nat)
    requires AtChunk(n, pos, l)
    ensures 8 <= l <= BUFSIZE && l % 8 == 0 && pos % BUFSIZE == 0
    ensures l == BUFSIZE ==> (pos + l) % BUFSIZE == 0
  {
  }
}
