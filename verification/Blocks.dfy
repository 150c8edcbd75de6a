/** Byte strings as sequences of eight-byte blocks, the last one possibly short. */
module Blocks {
  import opened DesLocal

  /** A long length as the loops see it: nothing is done for a negative one. */
  function Clamp(length: int): nat {
    if length < 0 then 0 else length
  }

  /** How many times the loops `for (; l>0; l-=8)` run. */
  function Count(length: nat): nat {
    (length + 7) / 8
  }

  lemma CountSum(n: nat, m: nat)
    requires n % 8 == 0
    ensures n == 8 * Count(n) && Count(n + m) == Count(n) + Count(m)
  {
  }

  lemma CountBounds(length: nat)
    ensures length <= 8 * Count(length) < length + 8
    ensures Count(8 * Count(length)) == Count(length)
  {
  }

  /** Block i of a byte string: c2l twice, or c2ln when fewer than eight bytes are left. */
  function BlockAt(s: seq<Byte>, i: nat): Block
    requires 8 * i < |s|
  {
    if 8 * i + 8 <= |s| then Load(s[8 * i..8 * i + 8]) else C2ln(s[8 * i..])
  }

  function ToBlocks(s: seq<Byte>): (bs: seq<Block>)
    ensures |bs| == Count(|s|)
  {
    seq(Count(|s|), i requires 0 <= i < Count(|s|) => BlockAt(s, i))
  }

  function FromBlocks(bs: seq<Block>): (s: seq<Byte>)
    ensures |s| == 8 * |bs|
  {
    if bs == [] then [] else FromBlocks(bs[..|bs| - 1]) + Store(bs[|bs| - 1])
  }

  lemma EmptyBlocks()
    ensures FromBlocks([]) == []
  {
  }

  lemma FromBlocksSnoc(bs: seq<Block>, b: Block)
    ensures FromBlocks(bs + [b]) == FromBlocks(bs) + Store(b)
  {
    hide Store;
    assert (bs + [b])[..|bs|] == bs;
  }

  lemma {:induction false} FromBlocksConcat(heads: seq<Block>, bs: seq<Block>)
    ensures FromBlocks(heads + bs) == FromBlocks(heads) + FromBlocks(bs)
  {
    hide Store;
    if bs == [] {
      assert heads + bs == heads;
    } else {
      var init, last := bs[..|bs| - 1], bs[|bs| - 1];
      FromBlocksConcat(heads, init);
      assert heads + bs == (heads + init) + [last];
      FromBlocksSnoc(heads + init, last);
    }
  }

  lemma {:induction false} FromBlocksAt(bs: seq<Block>, i: nat)
    requires i < |bs|
    ensures FromBlocks(bs)[8 * i..8 * i + 8] == Store(bs[i])
  {
    hide Store;
    if i < |bs| - 1 {
      FromBlocksAt(bs[..|bs| - 1], i);
    }
  }

  lemma FromBlocksByte(bs: seq<Block>, j: nat)
    requires j < 8 * |bs|
    ensures FromBlocks(bs)[j] == Store(bs[j / 8])[j % 8]
  {
    hide Store, FromBlocks;
    var i := j / 8;
    FromBlocksAt(bs, i);
    assert FromBlocks(bs)[j] == FromBlocks(bs)[8 * i..8 * i + 8][j - 8 * i];
  }

  lemma WholeBlockAt(s: seq<Byte>, i: nat)
    requires |s| % 8 == 0 && 8 * i < |s|
    ensures i < |ToBlocks(s)| && ToBlocks(s)[i] == Load(s[8 * i..8 * i + 8])
  {
    hide Load, C2ln;
  }

  lemma ToFromBlocks(bs: seq<Block>)
    ensures ToBlocks(FromBlocks(bs)) == bs
  {
    hide Load, Store, C2ln;
    var s := FromBlocks(bs);
    forall i | 0 <= i < |bs|
      ensures BlockAt(s, i) == bs[i]
    {
      FromBlocksAt(bs, i);
      LoadStore(bs[i]);
    }
  }

  lemma ToBlocksConcat(s: seq<Byte>, t: seq<Byte>)
    requires |s| % 8 == 0
    ensures ToBlocks(s + t) == ToBlocks(s) + ToBlocks(t)
  {
    hide Load, C2ln;
    var n := |s| / 8;
    forall i | 0 <= i < Count(|s + t|)
      ensures BlockAt(s + t, i) == if i < n then BlockAt(s, i) else BlockAt(t, i - n)
    {
      if i < n {
        assert (s + t)[8 * i..8 * i + 8] == s[8 * i..8 * i + 8];
      } else if 8 * i + 8 <= |s + t| {
        assert (s + t)[8 * i..8 * i + 8] == t[8 * (i - n)..8 * (i - n) + 8];
      } else {
        assert (s + t)[8 * i..] == t[8 * (i - n)..];
      }
    }
  }

  lemma {:induction false} FromToWholeBlocks(s: seq<Byte>)
    requires |s| % 8 == 0
    ensures FromBlocks(ToBlocks(s)) == s
    decreases |s|
  {
    hide Load, Store, C2ln;
    if s != [] {
      var head, last := s[..|s| - 8], s[|s| - 8..];
      assert s == head + last;
      FromToWholeBlocks(head);
      ToBlocksConcat(head, last);
      assert last[8 * 0..8 * 0 + 8] == last;
      assert ToBlocks(last) == [Load(last)];
      FromBlocksSnoc(ToBlocks(head), Load(last));
      StoreLoad(last);
    }
  }

  /** Blocks of a byte string, stored again, give the string followed by the zeros c2ln supplied. */
  lemma FromToBlocks(s: seq<Byte>)
    ensures FromBlocks(ToBlocks(s)) == s + Zeros(8 * Count(|s|) - |s|)
  {
    hide Load, Store, C2ln;
    if |s| % 8 == 0 {
      FromToWholeBlocks(s);
    } else {
      var n := |s| / 8;
      var head, tail := s[..8 * n], s[8 * n..];
      assert s == head + tail;
      FromToWholeBlocks(head);
      ToBlocksConcat(head, tail);
      assert tail[8 * 0..] == tail;
      assert ToBlocks(tail) == [C2ln(tail)];
      FromBlocksSnoc(ToBlocks(head), C2ln(tail));
      C2lnPads(tail);
      StoreLoad(tail + Zeros(8 - |tail|));
    }
  }

  // ---------- Reading and writing blocks of an array ----------

  /** From a place on, a buffer still holds the data it started with. */
  ghost predicate Ahead(now: seq<Byte>, data: seq<Byte>, from: nat) {
    |data| <= |now| && forall j | from <= j < |data| :: now[j] == data[j]
  }

  /** Some bytes were written at a place, and nothing else changed. */
  ghost predicate Stored(before: seq<Byte>, after: seq<Byte>, at: nat, c: seq<Byte>) {
    at + |c| <= |before| && after == before[..at] + c + before[at + |c|..]
  }

  lemma AheadAfter(before: seq<Byte>, after: seq<Byte>, data: seq<Byte>, at: nat, c: seq<Byte>)
    requires Ahead(before, data, at) && (after == before || Stored(before, after, at, c)) && |c| <= 8
    ensures Ahead(after, data, at + 8)
  {
  }

  lemma AheadPrefix(s: seq<Byte>, n: nat)
    requires n <= |s|
    ensures Ahead(s, s[..n], 0)
  {
  }

  /** The first bytes of a buffer are those of some blocks; the others are still original. */
  ghost predicate Written(blocks: seq<Block>, done: nat, now: seq<Byte>, original: seq<Byte>) {
    done <= 8 * |blocks| && done <= |original| && now == FromBlocks(blocks)[..done] + original[done..]
  }

  lemma WrittenNone(blocks: seq<Block>, original: seq<Byte>)
    ensures Written(blocks, 0, original, original)
  {
  }

  /** One more block or the beginning of it. */
  lemma WrittenMore(blocks: seq<Block>, n: nat, m: nat, before: seq<Byte>, after: seq<Byte>, original: seq<Byte>)
    requires n < |blocks| && m <= 8 && 8 * n + m <= |original| && Written(blocks, 8 * n, before, original)
    requires Stored(before, after, 8 * n, Store(blocks[n])[..m])
    ensures Written(blocks, 8 * n + m, after, original)
  {
    hide Store, FromBlocks;
    var s := FromBlocks(blocks);
    FromBlocksAt(blocks, n);
    assert s[..8 * n + m] == s[..8 * n] + s[8 * n..8 * n + 8][..m];
    assert before[..8 * n] == s[..8 * n];
    assert before[8 * n + m..] == original[8 * n + m..];
  }

  lemma WrittenAll(blocks: seq<Block>, now: seq<Byte>, original: seq<Byte>)
    requires Written(blocks, 8 * |blocks|, now, original)
    ensures now == FromBlocks(blocks) + original[8 * |blocks|..]
  {
    assert FromBlocks(blocks)[..8 * |blocks|] == FromBlocks(blocks);
  }

  lemma WrittenEnd(blocks: seq<Block>, length: nat, now: seq<Byte>, original: seq<Byte>)
    requires Written(blocks, length, now, original)
    ensures length <= 8 * |blocks| && now == FromBlocks(blocks)[..length] + original[length..]
  {
  }

  /** The next block of an array with l bytes left: c2l twice, or c2ln. */
  method FetchAt(input: array<Byte>, at: nat, l: nat, ghost data: seq<Byte>, ghost n: nat) returns (b: Block)
    requires l > 0 && at == 8 * n && |data| == at + l && Ahead(input[..], data, at)
    ensures n < Count(|data|) && b == ToBlocks(data)[n]
  {
    hide Load, C2ln;
    assert input[at..at + l] == data[at..];
    if l >= 8 {
      b := Load(input[at..at + 8]);
      assert data[8 * n..8 * n + 8] == data[at..][..8];
      assert input[at..at + 8] == input[at..at + l][..8];
    } else {
      b := C2ln(input[at..at + l]);
      assert data[8 * n..] == data[at..];
    }
  }

  /** l2c(l,out); l2c(r,out) at a given place. */
  method StoreAt(out: array<Byte>, at: nat, b: Block)
    requires at + 8 <= out.Length
    modifies out
    ensures Stored(old(out[..]), out[..], at, Store(b))
  {
    hide Store;
    var c := Store(b);
    for i := 0 to 8
      invariant forall j | 0 <= j < out.Length && !(at <= j < at + i) :: out[j] == old(out[j])
      invariant forall j | 0 <= j < i :: out[at + j] == c[j]
    {
      out[at + i] := c[i];
    }
  }

  /** l2cn: the first n bytes of a block, last one first as the switch falls through. */
  method StoreTail(out: array<Byte>, at: nat, b: Block, n: nat)
    requires n <= 7 && at + n <= out.Length
    modifies out
    ensures Stored(old(out[..]), out[..], at, Store(b)[..n])
  {
    hide Store;
    var c := Store(b);
    var i := n;
    while i > 0
      invariant 0 <= i <= n
      invariant forall j | 0 <= j < out.Length && !(at + i <= j < at + n) :: out[j] == old(out[j])
      invariant forall j | i <= j < n :: out[at + j] == c[j]
    {
      i := i - 1;
      out[at + i] := c[i];
    }
  }

  /** How much of the next block is written when l bytes are left. */
  function Width(l: nat): nat {
    if l >= 8 then 8 else l
  }

  /** Whole blocks by l2c, a short last one by l2cn. */
  method StoreUpTo(out: array<Byte>, at: nat, b: Block, l: nat)
    requires at + Width(l) <= out.Length
    modifies out
    ensures Stored(old(out[..]), out[..], at, Store(b)[..Width(l)])
  {
    hide Store;
    if l >= 8 {
      StoreAt(out, at, b);
      assert Store(b)[..8] == Store(b);
    } else {
      StoreTail(out, at, b, l);
    }
  }
}
