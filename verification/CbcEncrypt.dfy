/** Cipher block chaining (lib/crypto/cbc_encrypt.c), section 6.2 of NIST SP 800-38A. */
module CbcEncrypt {
  import opened DesLocal
  import opened Blocks
  import opened Feistel

  /** The chaining value after some ciphertext blocks: the last of them, or the initial vector. */
  function Chain(iv: Block, cs: seq<Block>): Block {
    if cs == [] then iv else cs[|cs| - 1]
  }

  function Cbc(e: Block -> Block, iv: Block, ps: seq<Block>): (cs: seq<Block>)
    ensures |cs| == |ps|
  {
    if ps == [] then []
    else
      var cs := Cbc(e, iv, ps[..|ps| - 1]);
      cs + [e(XorBlock(ps[|ps| - 1], Chain(iv, cs)))]
  }

  /** What the encrypting loop computes in one round from its chaining value. */
  lemma {:induction false} CbcAt(e: Block -> Block, iv: Block, ps: seq<Block>, n: nat)
    requires n < |ps|
    ensures var cs := Cbc(e, iv, ps);
            cs[n] == e(XorBlock(ps[n], Chain(iv, cs[..n]))) && Chain(iv, cs[..n + 1]) == cs[n]
  {
    hide XorBlock;
    var k := |ps| - 1;
    var cs := Cbc(e, iv, ps);
    assert cs[..k] == Cbc(e, iv, ps[..k]);
    if n < k {
      CbcAt(e, iv, ps[..k], n);
      assert cs[..k][..n] == cs[..n];
    }
  }

  /** The xor with the chaining value after the block function. */
  function CbcInverse(d: Block -> Block, iv: Block, cs: seq<Block>): (ps: seq<Block>)
    ensures |ps| == |cs|
  {
    seq(|cs|, i requires 0 <= i < |cs| => XorBlock(d(cs[i]), Chain(iv, cs[..i])))
  }

  lemma CbcInverseAt(d: Block -> Block, iv: Block, cs: seq<Block>, n: nat)
    requires n < |cs|
    ensures CbcInverse(d, iv, cs)[n] == XorBlock(d(cs[n]), Chain(iv, cs[..n])) && Chain(iv, cs[..n + 1]) == cs[n]
  {
  }

  /** A plaintext block depends on its own and the preceding ciphertext block only. */
  lemma CbcInverseLocal(d: Block -> Block, iv: Block, cs: seq<Block>, cs': seq<Block>, i: nat)
    requires i < |cs| && i < |cs'| && cs[i] == cs'[i] && (i > 0 ==> cs[i - 1] == cs'[i - 1])
    ensures CbcInverse(d, iv, cs)[i] == CbcInverse(d, iv, cs')[i]
  {
    hide XorBlock;
    assert i > 0 ==> Chain(iv, cs[..i]) == cs[i - 1] && Chain(iv, cs'[..i]) == cs'[i - 1];
  }

  lemma CbcInverseSnoc(d: Block -> Block, iv: Block, cs: seq<Block>, n: nat)
    requires n < |cs|
    ensures CbcInverse(d, iv, cs[..n + 1]) == CbcInverse(d, iv, cs[..n]) + [XorBlock(d(cs[n]), Chain(iv, cs[..n]))]
  {
    hide XorBlock;
    forall i | 0 <= i <= n
      ensures cs[..n + 1][..i] == cs[..i]
      ensures i < n ==> cs[..n][..i] == cs[..i]
    {
    }
  }

  /** For any block function with a left inverse. */
  lemma {:induction false} CbcRoundTrip(e: Block -> Block, d: Block -> Block, iv: Block, ps: seq<Block>)
    requires forall b :: d(e(b)) == b
    ensures CbcInverse(d, iv, Cbc(e, iv, ps)) == ps
  {
    hide XorBlock, CbcInverse;
    var cs := Cbc(e, iv, ps);
    if ps == [] {
      assert CbcInverse(d, iv, cs) == [];
    } else {
      var n := |ps| - 1;
      CbcRoundTrip(e, d, iv, ps[..n]);
      assert cs[..n] == Cbc(e, iv, ps[..n]) && cs[..n + 1] == cs;
      CbcInverseSnoc(d, iv, cs, n);
      XorBlockTwice(ps[n], Chain(iv, cs[..n]));
    }
  }

  /** Two calls, the second started from the last block of the first, are one call. */
  lemma {:induction false} CbcConcat(e: Block -> Block, iv: Block, ps: seq<Block>, qs: seq<Block>)
    ensures Cbc(e, iv, ps + qs) == Cbc(e, iv, ps) + Cbc(e, Chain(iv, Cbc(e, iv, ps)), qs)
  {
    hide XorBlock;
    if qs == [] {
      assert ps + qs == ps;
    } else {
      var init, last := qs[..|qs| - 1], qs[|qs| - 1];
      CbcConcat(e, iv, ps, init);
      assert (ps + qs)[..|ps + qs| - 1] == ps + init;
    }
  }

  lemma {:induction false} CbcInverseConcat(d: Block -> Block, iv: Block, cs: seq<Block>, ds: seq<Block>)
    ensures CbcInverse(d, iv, cs + ds) == CbcInverse(d, iv, cs) + CbcInverse(d, Chain(iv, cs), ds)
  {
    hide XorBlock, CbcInverse;
    if ds == [] {
      assert cs + ds == cs;
    } else {
      var k := |ds| - 1;
      CbcInverseConcat(d, iv, cs, ds[..k]);
      assert (cs + ds)[..|cs| + k] == cs + ds[..k] && (cs + ds)[..|cs| + k + 1] == cs + ds && ds[..k + 1] == ds;
      CbcInverseSnoc(d, iv, cs + ds, |cs| + k);
      CbcInverseSnoc(d, Chain(iv, cs), ds, k);
    }
  }

  // ---------- Byte strings ----------

  function CbcBytes(e: Block -> Block, iv: Block, data: seq<Byte>): (c: seq<Byte>)
    ensures |c| == 8 * Count(|data|)
  {
    FromBlocks(Cbc(e, iv, ToBlocks(data)))
  }

  /** The n plaintext bytes of a whole number of ciphertext blocks. */
  function CbcInverseBytes(d: Block -> Block, iv: Block, c: seq<Byte>, n: nat): (p: seq<Byte>)
    requires |c| == 8 * Count(n)
    ensures |p| == n
  {
    FromBlocks(CbcInverse(d, iv, ToBlocks(c)))[..n]
  }

  /** Decrypting the ceil(n/8) blocks made from n bytes, with length n, returns the n bytes. */
  lemma CbcBytesRoundTrip(e: Block -> Block, d: Block -> Block, iv: Block, data: seq<Byte>)
    requires forall b :: d(e(b)) == b
    ensures CbcInverseBytes(d, iv, CbcBytes(e, iv, data), |data|) == data
  {
    var ps := ToBlocks(data);
    ToFromBlocks(Cbc(e, iv, ps));
    CbcRoundTrip(e, d, iv, ps);
    FromToBlocks(data);
  }

  /** The same on bytes: byte j of the plaintext depends on the ciphertext block it is in and the one before. */
  lemma CbcInverseBytesLocal(d: Block -> Block, iv: Block, c: seq<Byte>, c': seq<Byte>, n: nat, j: nat)
    requires |c| == 8 * Count(n) && |c'| == |c| && j < n
    requires var i := j / 8;
             && c[8 * i..8 * i + 8] == c'[8 * i..8 * i + 8]
             && (i > 0 ==> c[8 * (i - 1)..8 * i] == c'[8 * (i - 1)..8 * i])
    ensures CbcInverseBytes(d, iv, c, n)[j] == CbcInverseBytes(d, iv, c', n)[j]
  {
    hide Load, Store, CbcInverse, FromBlocks, ToBlocks, Count;
    var i, cs, cs' := j / 8, ToBlocks(c), ToBlocks(c');
    CountBounds(n);
    WholeBlockAt(c, i);
    WholeBlockAt(c', i);
    if i > 0 {
      WholeBlockAt(c, i - 1);
      WholeBlockAt(c', i - 1);
    }
    CbcInverseLocal(d, iv, cs, cs', i);
    FromBlocksByte(CbcInverse(d, iv, cs), j);
    FromBlocksByte(CbcInverse(d, iv, cs'), j);
  }

  /** So a change to ciphertext block k changes the plaintext in blocks k and k+1 at most. */
  lemma CbcDamageStaysNear(d: Block -> Block, iv: Block, c: seq<Byte>, c': seq<Byte>, n: nat, k: nat)
    requires |c| == 8 * Count(n) && |c'| == |c|
    requires forall j | 0 <= j < |c| && j / 8 != k :: c[j] == c'[j]
    ensures forall j | 0 <= j < n && j / 8 != k && j / 8 != k + 1 ::
              CbcInverseBytes(d, iv, c, n)[j] == CbcInverseBytes(d, iv, c', n)[j]
  {
    hide CbcInverseBytes;
    forall j | 0 <= j < n && j / 8 != k && j / 8 != k + 1
      ensures CbcInverseBytes(d, iv, c, n)[j] == CbcInverseBytes(d, iv, c', n)[j]
    {
      var i := j / 8;
      forall x | 8 * i <= x < 8 * i + 8
        ensures c[x] == c'[x]
      {
        assert x / 8 == i;
      }
      forall x | i > 0 && 8 * (i - 1) <= x < 8 * i
        ensures c[x] == c'[x]
      {
        assert x / 8 == i - 1;
      }
      CbcInverseBytesLocal(d, iv, c, c', n, j);
    }
  }

  /** The last ciphertext block as bytes, or the initial vector when there is none. */
  lemma ChainBytes(e: Block -> Block, iv: Block, data: seq<Byte>)
    ensures var c := CbcBytes(e, iv, data);
            Store(Chain(iv, Cbc(e, iv, ToBlocks(data)))) == if c == [] then Store(iv) else c[|c| - 8..]
  {
    hide Load, Store, XorBlock, C2ln;
    var cs := Cbc(e, iv, ToBlocks(data));
    if cs != [] {
      FromBlocksAt(cs, |cs| - 1);
    }
  }

  /** Encrypting a string in two calls chained by the last block, the first call on whole blocks. */
  lemma CbcBytesConcat(e: Block -> Block, iv: Block, s: seq<Byte>, t: seq<Byte>)
    requires |s| % 8 == 0
    ensures var c := CbcBytes(e, iv, s);
            CbcBytes(e, iv, s + t) == c + CbcBytes(e, if c == [] then iv else Load(c[|c| - 8..]), t)
  {
    hide Load, Store, XorBlock, ToBlocks, FromBlocks;
    var cs := Cbc(e, iv, ToBlocks(s));
    ToBlocksConcat(s, t);
    CbcConcat(e, iv, ToBlocks(s), ToBlocks(t));
    FromBlocksConcat(cs, Cbc(e, Chain(iv, cs), ToBlocks(t)));
    ChainBytes(e, iv, s);
    LoadStore(Chain(iv, cs));
    if CbcBytes(e, iv, s) == [] {
      assert cs == [];
    }
  }

  /** The same for decryption, where the chain is the last block of the first ciphertext. */
  lemma CbcInverseBytesConcat(d: Block -> Block, iv: Block, s: seq<Byte>, t: seq<Byte>, n: nat)
    requires |s| % 8 == 0 && |t| == 8 * Count(n)
    ensures CbcInverseBytes(d, iv, s + t, |s| + n) ==
            CbcInverseBytes(d, iv, s, |s|) + CbcInverseBytes(d, if s == [] then iv else Load(s[|s| - 8..]), t, n)
  {
    hide Load, Store, XorBlock, CbcInverse, FromBlocks, Count;
    var cs, ds := ToBlocks(s), ToBlocks(t);
    CountSum(|s|, n);
    CountBounds(n);
    ToBlocksConcat(s, t);
    CbcInverseConcat(d, iv, cs, ds);
    FromBlocksConcat(CbcInverse(d, iv, cs), CbcInverse(d, Chain(iv, cs), ds));
    if s != [] {
      var k := |cs| - 1;
      assert s[8 * k..8 * k + 8] == s[|s| - 8..];
    }
  }

  // ---------- des_cbc_encrypt ----------

  /**
   des_cbc_encrypt. The output array may be the input array; each side must
   hold whole blocks where the code reads or writes whole blocks.
   */
  method DesCbcEncrypt(f: RoundFn, input: array<Byte>, output: array<Byte>, length: int, schedule: KeySchedule,
                       ivec: array<Byte>, encrypt: bool)
    requires ivec.Length == 8
    requires encrypt ==> length <= input.Length && 8 * Count(Clamp(length)) <= output.Length
    requires !encrypt ==> 8 * Count(Clamp(length)) <= input.Length && length <= output.Length
    modifies output
    ensures encrypt ==>
              output[..] == CbcBytes(Des(f, schedule, true), old(Load(ivec[..])), old(input[..])[..Clamp(length)])
                            + old(output[..])[8 * Count(Clamp(length))..]
    ensures !encrypt ==>
              output[..] == CbcInverseBytes(Des(f, schedule, false), old(Load(ivec[..])),
                                            old(input[..])[..8 * Count(Clamp(length))], Clamp(length))
                            + old(output[..])[Clamp(length)..]
  {
    hide Load, Des, FromBlocks;
    if encrypt {
      CbcForward(f, input, output, Clamp(length), schedule, ivec);
    } else {
      CbcBackward(f, input, output, Clamp(length), schedule, ivec);
    }
  }

  method CbcForward(f: RoundFn, input: array<Byte>, output: array<Byte>, length: nat, schedule: KeySchedule,
                    ivec: array<Byte>)
    requires ivec.Length == 8
    requires length <= input.Length && 8 * Count(length) <= output.Length
    modifies output
    ensures output[..] == CbcBytes(Des(f, schedule, true), old(Load(ivec[..])), old(input[..])[..length])
                          + old(output[..])[8 * Count(length)..]
  {
    hide Count, Load, Store, Des, XorBlock, ToBlocks, FromBlocks, Cbc, Ahead, Stored, Written;
    ghost var e := Des(f, schedule, true);
    ghost var data := input[..][..length];
    ghost var original := output[..];
    var iv := Load(ivec[..]);
    var chain := iv;
    var l: int := length;
    ghost var n, ps := 0, ToBlocks(data);
    ghost var cs := Cbc(e, iv, ps);
    CountBounds(length);
    AheadPrefix(input[..], |data|);
    WrittenNone(cs, original);
    while l > 0
      invariant n <= Count(length) && l == length - 8 * n
      invariant chain == Chain(iv, cs[..n])
      invariant Written(cs, 8 * n, output[..], original)
      invariant Ahead(input[..], data, 8 * n)
    {
      var at := length - l;
      ghost var before, was := output[..], input[..];
      var p := FetchAt(input, at, l, data, n);
      var c := DesPair(f, XorBlock(p, chain), schedule, true);
      CbcAt(e, iv, ps, n);
      StoreAt(output, at, c);
      AheadAfter(was, input[..], data, at, Store(c));
      assert Store(c)[..8] == Store(c);
      WrittenMore(cs, n, 8, before, output[..], original);
      chain := c;
      n, l := n + 1, l - 8;
    }
    WrittenAll(cs, output[..], original);
  }

  method CbcBackward(f: RoundFn, input: array<Byte>, output: array<Byte>, length: nat, schedule: KeySchedule,
                     ivec: array<Byte>)
    requires ivec.Length == 8
    requires 8 * Count(length) <= input.Length && length <= output.Length
    modifies output
    ensures output[..] == CbcInverseBytes(Des(f, schedule, false), old(Load(ivec[..])),
                                          old(input[..])[..8 * Count(length)], length)
                          + old(output[..])[length..]
  {
    hide Count, Load, Store, Des, XorBlock, ToBlocks, FromBlocks, CbcInverse, Ahead, Stored, Written;
    ghost var d := Des(f, schedule, false);
    ghost var data := input[..][..8 * Count(length)];
    ghost var original := output[..];
    var iv := Load(ivec[..]);
    var chain := iv;
    var l: int := length;
    ghost var n, done, cs := 0, 0, ToBlocks(data);
    ghost var ps := CbcInverse(d, iv, cs);
    CountBounds(length);
    AheadPrefix(input[..], |data|);
    WrittenNone(ps, original);
    while l > 0
      invariant n <= Count(length) && l == length - 8 * n
      invariant done == if l >= 0 then 8 * n else length
      invariant chain == Chain(iv, cs[..n])
      invariant Written(ps, done, output[..], original)
      invariant Ahead(input[..], data, 8 * n)
    {
      var at := length - l;
      ghost var before, was := output[..], input[..];
      var c := FetchAt(input, at, 8 * Count(length) - at, data, n);
      var t := DesPair(f, c, schedule, false);
      var p := XorBlock(t, chain);
      CbcInverseAt(d, iv, cs, n);
      StoreUpTo(output, at, p, l);
      AheadAfter(was, input[..], data, at, Store(p)[..Width(l)]);
      WrittenMore(ps, n, Width(l), before, output[..], original);
      chain := c;
      n, done, l := n + 1, done + Width(l), l - 8;
    }
    WrittenEnd(ps, length, output[..], original);
  }
}
