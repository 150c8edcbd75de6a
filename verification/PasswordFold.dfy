/** The fan-fold of a password into eight bytes (lib/crypto/string2key.c). */
module PasswordFold {
  import opened DesLocal
  import opened Blocks

  // ---------- Bit reversal ----------

  /** The three mask steps of the code. */
  function ReverseSteps(b: Byte): Byte {
    var j1 := ((b << 4) & 0xf0) | ((b >> 4) & 0x0f);
    var j2 := ((j1 << 2) & 0xcc) | ((j1 >> 2) & 0x33);
    ((j2 << 1) & 0xaa) | ((j2 >> 1) & 0x55)
  }

  /** A byte with bit k moved to place 7-k. */
  function Reversed(b: Byte): Byte {
    ((b & 0x01) << 7) | ((b & 0x02) << 5) | ((b & 0x04) << 3) | ((b & 0x08) << 1) |
    ((b & 0x10) >> 1) | ((b & 0x20) >> 3) | ((b & 0x40) >> 5) | ((b & 0x80) >> 7)
  }

  lemma ReverseStepsReverse(b: Byte)
    ensures ReverseSteps(b) == Reversed(b)
    ensures Reversed(Reversed(b)) == b
  {
  }

  // ---------- One chunk at a time ----------

  function XorByte(a: Byte, b: Byte): Byte {
    a ^ b
  }

  function ByteAt(s: seq<Byte>, i: nat): Byte {
    if i < |s| then s[i] else 0
  }

  /**
   Byte p of what chunk q contributes: an even chunk with each byte shifted
   left by one, an odd chunk with its 64 bits reversed; a short last chunk as
   if zeros followed it.
   */
  function PieceByte(s: seq<Byte>, q: nat, p: nat): Byte
    requires p < 8
  {
    if q % 2 == 0 then ByteAt(s, 8 * q + p) << 1 else Reversed(ByteAt(s, 8 * q + 7 - p))
  }

  /** The exclusive or of byte p of the first n chunks' contributions. */
  function FoldByte(s: seq<Byte>, n: nat, p: nat): Byte
    requires p < 8
  {
    if n == 0 then 0 else XorByte(FoldByte(s, n - 1, p), PieceByte(s, n - 1, p))
  }

  function FanFold(s: seq<Byte>): (k: seq<Byte>)
    ensures |k| == 8
  {
    seq(8, p requires 0 <= p < 8 => FoldByte(s, Count(|s|), p))
  }

  // ---------- One character at a time ----------

  /** Where character i goes and what it is xored with there. */
  function Place(i: nat): (p: nat)
    ensures p < 8
  {
    if i % 16 < 8 then i % 8 else 7 - i % 8
  }

  function Char(c: Byte, i: nat): Byte {
    if i % 16 < 8 then c << 1 else Reversed(c)
  }

  /** One round of the loop of des_string_to_key. */
  function FoldChar(k: seq<Byte>, c: Byte, i: nat): seq<Byte>
    requires |k| == 8
  {
    k[Place(i) := XorByte(k[Place(i)], Char(c, i))]
  }

  lemma ZeroPiece()
    ensures (0 as Byte) << 1 == 0 && Reversed(0) == 0
    ensures forall b: Byte :: XorByte(b, 0) == b
  {
  }

  lemma XorFromZero(a: Byte, b: Byte)
    ensures XorByte(XorByte(a, 0), b) == XorByte(a, b)
  {
  }

  /** Adding a character leaves the contributions of all earlier chunks as they were. */
  lemma {:induction false} EarlierChunks(s: seq<Byte>, i: nat, n: nat, p: nat)
    requires i < |s| && 8 * n <= i && p < 8
    ensures FoldByte(s[..i + 1], n, p) == FoldByte(s[..i], n, p)
  {
    hide XorByte, Reversed;
    if n > 0 {
      EarlierChunks(s, i, n - 1, p);
      assert PieceByte(s[..i + 1], n - 1, p) == PieceByte(s[..i], n - 1, p);
    }
  }

  /** In its own chunk, a character changes one byte of the contribution, which was zero before. */
  lemma OwnChunk(s: seq<Byte>, i: nat, p: nat)
    requires i < |s| && p < 8
    ensures PieceByte(s[..i], i / 8, Place(i)) == 0
    ensures PieceByte(s[..i + 1], i / 8, p) == if p == Place(i) then Char(s[i], i) else PieceByte(s[..i], i / 8, p)
  {
    hide Reversed;
    ZeroPiece();
    var q := i / 8;
    assert i % 8 == i - 8 * q;
    assert i % 16 < 8 <==> q % 2 == 0;
    assert forall j | j != i :: ByteAt(s[..i + 1], j) == ByteAt(s[..i], j);
    assert ByteAt(s[..i + 1], i) == s[i] && ByteAt(s[..i], i) == 0;
  }

  /** The loop and the chunks agree on every prefix. */
  lemma FoldCharIsFanFold(s: seq<Byte>, i: nat)
    requires i < |s|
    ensures FoldChar(FanFold(s[..i]), s[i], i) == FanFold(s[..i + 1])
  {
    hide XorByte, Reversed, Char, PieceByte, FoldByte;
    var q := i / 8;
    forall p | 0 <= p < 8
      ensures FanFold(s[..i + 1])[p] == FoldChar(FanFold(s[..i]), s[i], i)[p]
    {
      FoldOneMore(s, i, p);
    }
  }

  lemma FoldOneMore(s: seq<Byte>, i: nat, p: nat)
    requires i < |s| && p < 8
    ensures FoldByte(s[..i + 1], Count(i + 1), p) ==
            var before := FoldByte(s[..i], Count(i), p);
            if p == Place(i) then XorByte(before, Char(s[i], i)) else before
  {
    hide XorByte, Reversed, Char, PieceByte;
    var q := i / 8;
    var f := FoldByte(s[..i], q, p);
    assert Count(i + 1) == q + 1;
    EarlierChunks(s, i, q, p);
    OwnChunk(s, i, p);
    assert FoldByte(s[..i + 1], q + 1, p) == XorByte(f, PieceByte(s[..i + 1], q, p));
    if i % 8 == 0 {
      FreshChunk(s, i, p);
      ZeroPiece();
    } else {
      assert Count(i) == q + 1;
      assert FoldByte(s[..i], q + 1, p) == XorByte(f, PieceByte(s[..i], q, p));
      XorFromZero(f, Char(s[i], i));
    }
  }

  lemma FreshChunk(s: seq<Byte>, i: nat, p: nat)
    requires i < |s| && i % 8 == 0 && p < 8
    ensures Count(i) == i / 8 && PieceByte(s[..i], i / 8, p) == 0
  {
    ZeroPiece();
    hide Reversed;
  }

  lemma FanFoldEmpty()
    ensures FanFold([]) == Zeros(8)
  {
  }
}
