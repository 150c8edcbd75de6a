/** The CBC checksum (lib/crypto/cbc_cksum.c). */
module CbcCksum {
  import opened DesLocal
  import opened Blocks
  import opened Feistel
  import opened CbcEncrypt

  /** The chaining value left by the whole input. */
  function Cksum(e: Block -> Block, iv: Block, data: seq<Byte>): Block {
    Chain(iv, Cbc(e, iv, ToBlocks(data)))
  }

  /** The checksum is the last block of the CBC encryption, or the initial vector of an empty input. */
  lemma CksumIsLastBlock(e: Block -> Block, iv: Block, data: seq<Byte>)
    ensures var c := CbcBytes(e, iv, data);
            Store(Cksum(e, iv, data)) == if data == [] then Store(iv) else c[|c| - 8..]
  {
    hide Store, Load, XorBlock, C2ln;
    ChainBytes(e, iv, data);
  }

  /** A checksum over a concatenation is a second checksum started from the first. */
  lemma CksumConcat(e: Block -> Block, iv: Block, s: seq<Byte>, t: seq<Byte>)
    requires |s| % 8 == 0
    ensures Cksum(e, iv, s + t) == Cksum(e, Cksum(e, iv, s), t)
  {
    hide Store, Load, XorBlock, C2ln;
    ToBlocksConcat(s, t);
    CbcConcat(e, iv, ToBlocks(s), ToBlocks(t));
  }

  /** des_cbc_cksum; the output array may be the array of the initial vector. */
  method DesCbcCksum(f: RoundFn, input: array<Byte>, output: array<Byte>, length: int, schedule: KeySchedule,
                     ivec: array<Byte>)
    returns (sum: Word)
    requires ivec.Length == 8 && length <= input.Length && output.Length >= 8
    modifies output
    ensures var c := Cksum(Des(f, schedule, true), old(Load(ivec[..])), old(input[..])[..Clamp(length)]);
            Stored(old(output[..]), output[..], 0, Store(c)) && sum == c.r
  {
    hide Load, Store, Des, XorBlock, ToBlocks, Count, Ahead, Stored;
    ghost var e := Des(f, schedule, true);
    ghost var data := input[..][..Clamp(length)];
    ghost var ps := ToBlocks(data);
    var tout := Load(ivec[..]);
    ghost var iv := tout;
    var l := length;
    ghost var n := 0;
    CountBounds(|data|);
    AheadPrefix(input[..], |data|);
    while l > 0
      invariant n <= |ps| && l == length - 8 * n
      invariant length <= 0 ==> n == 0
      invariant tout == Chain(iv, Cbc(e, iv, ps[..n]))
      invariant Ahead(input[..], data, 8 * n)
      invariant output[..] == old(output[..])
    {
      var tin := FetchAt(input, length - l, l, data, n);
      AheadAfter(input[..], input[..], data, 8 * n, []);
      assert ps[..n + 1][..n] == ps[..n];
      tout := DesPair(f, XorBlock(tin, tout), schedule, true);
      n, l := n + 1, l - 8;
    }
    assert ps[..n] == ps;
    StoreAt(output, 0, tout);
    sum := tout.r;
  }
}
