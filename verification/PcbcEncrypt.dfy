/** Propagating cipher block chaining (lib/crypto/pcbc_encrypt.c). */
module PcbcEncrypt {
  import opened DesLocal
  import opened Blocks
  import opened Feistel

  /** The chaining value: the last plaintext block xor the last ciphertext block. */
  function PChain(iv: Block, ps: seq<Block>, cs: seq<Block>): Block
    requires |ps| == |cs|
  {
    if ps == [] then iv else XorBlock(ps[|ps| - 1], cs[|cs| - 1])
  }

  function Pcbc(e: Block -> Block, iv: Block, ps: seq<Block>): (cs: seq<Block>)
    ensures |cs| == |ps|
  {
    if ps == [] then []
    else
      var init := ps[..|ps| - 1];
      var cs := Pcbc(e, iv, init);
      cs + [e(XorBlock(ps[|ps| - 1], PChain(iv, init, cs)))]
  }

  function PcbcInverse(d: Block -> Block, iv: Block, cs: seq<Block>): (ps: seq<Block>)
    ensures |ps| == |cs|
  {
    if cs == [] then []
    else
      var init := cs[..|cs| - 1];
      var ps := PcbcInverse(d, iv, init);
      ps + [XorBlock(d(cs[|cs| - 1]), PChain(iv, ps, init))]
  }

  lemma PcbcSnoc(e: Block -> Block, iv: Block, ps: seq<Block>, n: nat)
    requires n < |ps|
    ensures Pcbc(e, iv, ps[..n + 1]) ==
            Pcbc(e, iv, ps[..n]) + [e(XorBlock(ps[n], PChain(iv, ps[..n], Pcbc(e, iv, ps[..n]))))]
  {
    hide XorBlock;
    assert ps[..n + 1][..n] == ps[..n];
  }

  lemma PcbcInverseSnoc(d: Block -> Block, iv: Block, cs: seq<Block>, n: nat)
    requires n < |cs|
    ensures PcbcInverse(d, iv, cs[..n + 1]) ==
            PcbcInverse(d, iv, cs[..n]) + [XorBlock(d(cs[n]), PChain(iv, PcbcInverse(d, iv, cs[..n]), cs[..n]))]
  {
    hide XorBlock;
    assert cs[..n + 1][..n] == cs[..n];
  }

  /** Later plaintext does not change earlier ciphertext. */
  lemma {:induction false} PcbcPrefix(e: Block -> Block, iv: Block, ps: seq<Block>, n: nat)
    requires n <= |ps|
    ensures Pcbc(e, iv, ps)[..n] == Pcbc(e, iv, ps[..n])
    decreases |ps|
  {
    hide XorBlock, PChain;
    if n < |ps| {
      var k := |ps| - 1;
      PcbcPrefix(e, iv, ps[..k], n);
      PcbcSnoc(e, iv, ps, k);
      assert ps[..k + 1] == ps && ps[..k][..n] == ps[..n];
    } else {
      assert ps[..n] == ps;
    }
  }

  lemma {:induction false} PcbcInversePrefix(d: Block -> Block, iv: Block, cs: seq<Block>, n: nat)
    requires n <= |cs|
    ensures PcbcInverse(d, iv, cs)[..n] == PcbcInverse(d, iv, cs[..n])
    decreases |cs|
  {
    hide XorBlock, PChain;
    if n < |cs| {
      var k := |cs| - 1;
      PcbcInversePrefix(d, iv, cs[..k], n);
      PcbcInverseSnoc(d, iv, cs, k);
      assert cs[..k + 1] == cs && cs[..k][..n] == cs[..n];
    } else {
      assert cs[..n] == cs;
    }
  }

  /** What the encrypting loop computes in one round from its chaining value. */
  lemma PcbcAt(e: Block -> Block, iv: Block, ps: seq<Block>, n: nat)
    requires n < |ps|
    ensures var cs := Pcbc(e, iv, ps);
            && cs[n] == e(XorBlock(ps[n], PChain(iv, ps[..n], cs[..n])))
            && PChain(iv, ps[..n + 1], cs[..n + 1]) == XorBlock(ps[n], cs[n])
  {
    hide XorBlock, Pcbc;
    PcbcPrefix(e, iv, ps, n);
    PcbcPrefix(e, iv, ps, n + 1);
    PcbcSnoc(e, iv, ps, n);
  }

  /** And the decrypting loop. */
  lemma PcbcInverseAt(d: Block -> Block, iv: Block, cs: seq<Block>, n: nat)
    requires n < |cs|
    ensures var ps := PcbcInverse(d, iv, cs);
            && ps[n] == XorBlock(d(cs[n]), PChain(iv, ps[..n], cs[..n]))
            && PChain(iv, ps[..n + 1], cs[..n + 1]) == XorBlock(ps[n], cs[n])
  {
    hide XorBlock, PcbcInverse;
    PcbcInversePrefix(d, iv, cs, n);
    PcbcInversePrefix(d, iv, cs, n + 1);
    PcbcInverseSnoc(d, iv, cs, n);
  }

  /** For any block function with a left inverse. */
  lemma {:induction false} PcbcRoundTrip(e: Block -> Block, d: Block -> Block, iv: Block, ps: seq<Block>)
    requires forall b :: d(e(b)) == b
    ensures PcbcInverse(d, iv, Pcbc(e, iv, ps)) == ps
  {
    hide XorBlock, PChain;
    var cs := Pcbc(e, iv, ps);
    if ps != [] {
      var k := |ps| - 1;
      PcbcRoundTrip(e, d, iv, ps[..k]);
      PcbcPrefix(e, iv, ps, k);
      PcbcSnoc(e, iv, ps, k);
      PcbcInverseSnoc(d, iv, cs, k);
      assert cs[..k + 1] == cs && ps[..k + 1] == ps;
      XorBlockTwice(ps[k], PChain(iv, ps[..k], cs[..k]));
    }
  }

  /** At every block boundary the decryptor holds the encryptor's chaining value. */
  lemma PcbcChainsAgree(e: Block -> Block, d: Block -> Block, iv: Block, ps: seq<Block>, n: nat)
    requires forall b :: d(e(b)) == b
    requires n <= |ps|
    ensures var cs := Pcbc(e, iv, ps);
            PChain(iv, PcbcInverse(d, iv, cs[..n]), cs[..n]) == PChain(iv, ps[..n], Pcbc(e, iv, ps[..n]))
  {
    hide XorBlock, PChain;
    PcbcPrefix(e, iv, ps, n);
    PcbcRoundTrip(e, d, iv, ps[..n]);
  }

  /** iv xor the D(c) xor c of all blocks. */
  function ChainFold(d: Block -> Block, iv: Block, cs: seq<Block>): Block {
    if cs == [] then iv
    else
      var c := cs[|cs| - 1];
      XorBlock(ChainFold(d, iv, cs[..|cs| - 1]), XorBlock(d(c), c))
  }

  lemma XorBlockShuffle(x: Block, y: Block, z: Block)
    ensures XorBlock(XorBlock(x, y), z) == XorBlock(y, XorBlock(x, z))
  {
    XorShuffle(x.l, y.l, z.l);
    XorShuffle(x.r, y.r, z.r);
    hide Xor;
  }

  lemma XorShuffle(x: Word, y: Word, z: Word)
    ensures Xor(Xor(x, y), z) == Xor(y, Xor(x, z))
  {
  }

  /** On any ciphertext, honest or not, the decryptor's chaining value is that fold. */
  lemma {:induction false} DecryptorChainIsFold(d: Block -> Block, iv: Block, cs: seq<Block>)
    ensures PChain(iv, PcbcInverse(d, iv, cs), cs) == ChainFold(d, iv, cs)
  {
    hide XorBlock;
    if cs != [] {
      var init, c := cs[..|cs| - 1], cs[|cs| - 1];
      DecryptorChainIsFold(d, iv, init);
      XorBlockShuffle(d(c), ChainFold(d, iv, init), c);
    }
  }

  // ---------- Byte strings ----------

  function PcbcBytes(e: Block -> Block, iv: Block, data: seq<Byte>): (c: seq<Byte>)
    ensures |c| == 8 * Count(|data|)
  {
    FromBlocks(Pcbc(e, iv, ToBlocks(data)))
  }

  function PcbcInverseBytes(d: Block -> Block, iv: Block, c: seq<Byte>, n: nat): (p: seq<Byte>)
    requires |c| == 8 * Count(n)
    ensures |p| == n
  {
    FromBlocks(PcbcInverse(d, iv, ToBlocks(c)))[..n]
  }

  /** Decrypting the ceil(n/8) blocks made from n bytes, with length n, returns the n bytes. */
  lemma PcbcBytesRoundTrip(e: Block -> Block, d: Block -> Block, iv: Block, data: seq<Byte>)
    requires forall b :: d(e(b)) == b
    ensures PcbcInverseBytes(d, iv, PcbcBytes(e, iv, data), |data|) == data
  {
    hide XorBlock, Pcbc, PcbcInverse, Store, Load, C2ln;
    var ps := ToBlocks(data);
    ToFromBlocks(Pcbc(e, iv, ps));
    PcbcRoundTrip(e, d, iv, ps);
    FromToBlocks(data);
  }

  // ---------- des_pcbc_encrypt ----------

  /**
   des_pcbc_encrypt. The output array may be the input array; each side must
   hold whole blocks where the code reads or writes whole blocks.
   */
  method DesPcbcEncrypt(f: RoundFn, input: array<Byte>, output: array<Byte>, length: int, schedule: KeySchedule,
                        ivec: array<Byte>, encrypt: bool)
    requires ivec.Length == 8
    requires encrypt ==> length <= input.Length && 8 * Count(Clamp(length)) <= output.Length
    requires !encrypt ==> 8 * Count(Clamp(length)) <= input.Length && length <= output.Length
    modifies output
    ensures encrypt ==>
              output[..] == PcbcBytes(Des(f, schedule, true), old(Load(ivec[..])), old(input[..])[..Clamp(length)])
                            + old(output[..])[8 * Count(Clamp(length))..]
    ensures !encrypt ==>
              output[..] == PcbcInverseBytes(Des(f, schedule, false), old(Load(ivec[..])),
                                             old(input[..])[..8 * Count(Clamp(length))], Clamp(length))
                            + old(output[..])[Clamp(length)..]
  {
    hide Load, Des, FromBlocks;
    if encrypt {
      PcbcForward(f, input, output, Clamp(length), schedule, ivec);
    } else {
      PcbcBackward(f, input, output, Clamp(length), schedule, ivec);
    }
  }

  method PcbcForward(f: RoundFn, input: array<Byte>, output: array<Byte>, length: nat, schedule: KeySchedule,
                    ivec: array<Byte>)
    requires ivec.Length == 8
    requires length <= input.Length && 8 * Count(length) <= output.Length
    modifies output
    ensures output[..] == PcbcBytes(Des(f, schedule, true), old(Load(ivec[..])), old(input[..])[..length])
                          + old(output[..])[8 * Count(length)..]
  {
    hide Count, Load, Store, Des, XorBlock, ToBlocks, FromBlocks, Pcbc, Ahead, Stored, Written;
    ghost var e := Des(f, schedule, true);
    ghost var data := input[..][..length];
    ghost var original := output[..];
    var iv := Load(ivec[..]);
    var chain := iv;
    var l: int := length;
    ghost var n, ps := 0, ToBlocks(data);
    ghost var cs := Pcbc(e, iv, ps);
    CountBounds(length);
    AheadPrefix(input[..], |data|);
    WrittenNone(cs, original);
    while l > 0
      invariant n <= Count(length) && l == length - 8 * n
      invariant chain == PChain(iv, ps[..n], cs[..n])
      invariant Written(cs, 8 * n, output[..], original)
      invariant Ahead(input[..], data, 8 * n)
    {
      var at := length - l;
      ghost var before, was := output[..], input[..];
      var p := FetchAt(input, at, l, data, n);
      var c := DesPair(f, XorBlock(p, chain), schedule, true);
      PcbcAt(e, iv, ps, n);
      StoreAt(output, at, c);
      AheadAfter(was, input[..], data, at, Store(c));
      assert Store(c)[..8] == Store(c);
      WrittenMore(cs, n, 8, before, output[..], original);
      chain := XorBlock(p, c);
      n, l := n + 1, l - 8;
    }
    WrittenAll(cs, output[..], original);
  }

  method PcbcBackward(f: RoundFn, input: array<Byte>, output: array<Byte>, length: nat, schedule: KeySchedule,
                     ivec: array<Byte>)
    requires ivec.Length == 8
    requires 8 * Count(length) <= input.Length && length <= output.Length
    modifies output
    ensures output[..] == PcbcInverseBytes(Des(f, schedule, false), old(Load(ivec[..])),
                                          old(input[..])[..8 * Count(length)], length)
                          + old(output[..])[length..]
  {
    hide Count, Load, Store, Des, XorBlock, ToBlocks, FromBlocks, PcbcInverse, Ahead, Stored, Written;
    ghost var d := Des(f, schedule, false);
    ghost var data := input[..][..8 * Count(length)];
    ghost var original := output[..];
    var iv := Load(ivec[..]);
    var chain := iv;
    var l: int := length;
    ghost var n, done, cs := 0, 0, ToBlocks(data);
    ghost var ps := PcbcInverse(d, iv, cs);
    CountBounds(length);
    AheadPrefix(input[..], |data|);
    WrittenNone(ps, original);
    while l > 0
      invariant n <= Count(length) && l == length - 8 * n
      invariant done == if l >= 0 then 8 * n else length
      invariant chain == PChain(iv, ps[..n], cs[..n])
      invariant Written(ps, done, output[..], original)
      invariant Ahead(input[..], data, 8 * n)
    {
      var at := length - l;
      ghost var before, was := output[..], input[..];
      var c := FetchAt(input, at, 8 * Count(length) - at, data, n);
      var t := DesPair(f, c, schedule, false);
      var p := XorBlock(t, chain);
      PcbcInverseAt(d, iv, cs, n);
      StoreUpTo(output, at, p, l);
      AheadAfter(was, input[..], data, at, Store(p)[..Width(l)]);
      WrittenMore(ps, n, Width(l), before, output[..], original);
      chain := XorBlock(p, c);
      n, done, l := n + 1, done + Width(l), l - 8;
    }
    WrittenEnd(ps, length, output[..], original);
  }
}
