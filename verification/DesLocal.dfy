/** Byte and word conversions shared by the DES routines (lib/crypto/des_local.h). */
module DesLocal {
  type Byte = bv8
  type Word = bv32

  /** An eight-byte block, held in the two words the routines keep it in. */
  datatype Block = Block(l: Word, r: Word)

  /** An index into a table of 64 entries. */
  function Low6(w: Word): bv6 {
    (w & 0x3f) as bv6
  }

  /** Four such indices. */
  datatype Quad = Quad(a: bv6, b: bv6, c: bv6, d: bv6)

  // ---------- Exclusive or ----------

  function Xor(a: Word, b: Word): Word {
    a ^ b
  }

  lemma XorTwice(a: Word, b: Word)
    ensures Xor(Xor(a, b), b) == a
  {
  }

  function XorBlock(a: Block, b: Block): Block {
    Block(Xor(a.l, b.l), Xor(a.r, b.r))
  }

  lemma XorBlockTwice(a: Block, b: Block)
    ensures XorBlock(XorBlock(a, b), b) == a
  {
    hide Xor;
    XorTwice(a.l, b.l);
    XorTwice(a.r, b.r);
  }

  // ---------- Bytes and words ----------

  /** c2l: four bytes, least significant first. */
  function C2l(c: seq<Byte>): Word
    requires |c| == 4
  {
    c[0] as Word | (c[1] as Word << 8) | (c[2] as Word << 16) | (c[3] as Word << 24)
  }

  /** l2c: the four bytes of a word, least significant first. */
  function L2c(l: Word): (c: seq<Byte>)
    ensures |c| == 4
  {
    [(l & 0xff) as Byte, ((l >> 8) & 0xff) as Byte, ((l >> 16) & 0xff) as Byte, ((l >> 24) & 0xff) as Byte]
  }

  lemma L2cC2l(c: seq<Byte>)
    requires |c| == 4
    ensures L2c(C2l(c)) == c
  {
  }

  lemma C2lL2c(l: Word)
    ensures C2l(L2c(l)) == l
  {
  }

  function Load(c: seq<Byte>): Block
    requires |c| == 8
  {
    Block(C2l(c[..4]), C2l(c[4..]))
  }

  function Store(b: Block): (c: seq<Byte>)
    ensures |c| == 8
  {
    L2c(b.l) + L2c(b.r)
  }

  lemma StoreLoad(c: seq<Byte>)
    requires |c| == 8
    ensures Store(Load(c)) == c
  {
    L2cC2l(c[..4]);
    L2cC2l(c[4..]);
    assert c == c[..4] + c[4..];
  }

  lemma LoadStore(b: Block)
    ensures Load(Store(b)) == b
  {
    C2lL2c(b.l);
    C2lL2c(b.r);
    assert Store(b)[..4] == L2c(b.l) && Store(b)[4..] == L2c(b.r);
  }

  /** c2ln: the fall-through switch on the number of bytes left in a short last block. */
  function C2ln(c: seq<Byte>): Block
    requires |c| <= 7
  {
    var n := |c|;
    Block(
      (if n >= 1 then c[0] as Word else 0) | (if n >= 2 then c[1] as Word << 8 else 0) |
      (if n >= 3 then c[2] as Word << 16 else 0) | (if n >= 4 then c[3] as Word << 24 else 0),
      (if n >= 5 then c[4] as Word else 0) | (if n >= 6 then c[5] as Word << 8 else 0) |
      (if n >= 7 then c[6] as Word << 16 else 0))
  }

  function Zeros(n: nat): (z: seq<Byte>)
    ensures |z| == n
    ensures forall i | 0 <= i < n :: z[i] == 0
  {
    seq(n, _ => 0)
  }

  /** A short block is loaded as if zero bytes followed it. */
  lemma C2lnPads(c: seq<Byte>)
    requires |c| <= 7
    ensures C2ln(c) == Load(c + Zeros(8 - |c|))
  {
    var p := c + Zeros(8 - |c|);
    LoadBytes(p);
    if |c| == 0 {
    } else if |c| == 1 {
    } else if |c| == 2 {
    } else if |c| == 3 {
    } else if |c| == 4 {
    } else if |c| == 5 {
    } else if |c| == 6 {
    } else {
    }
  }

  lemma LoadBytes(p: seq<Byte>)
    requires |p| == 8
    ensures Load(p).l == p[0] as Word | (p[1] as Word << 8) | (p[2] as Word << 16) | (p[3] as Word << 24)
    ensures Load(p).r == p[4] as Word | (p[5] as Word << 8) | (p[6] as Word << 16) | (p[7] as Word << 24)
  {
  }
}
