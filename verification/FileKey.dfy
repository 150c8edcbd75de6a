/** The key that the file encryptor makes of a password (doencryption of lib/crypto/des.c). */
module FileKey {
  import opened DesLocal
  import opened SetKey
  import opened OddParity
  import opened KeyLaws
  import opened OppositeKeys

  /** A character whose top bit is cleared when it has an odd number of ones, and set otherwise. */
  function KeyByte(c: Byte): Byte {
    if ParityBit(c) == 1 then c & 0x7f else c | 0x80
  }

  function KeyOf(password: seq<Byte>): (kk: seq<Byte>)
    requires |password| >= 8
    ensures |kk| == 8
  {
    seq(8, i requires 0 <= i < 8 => KeyByte(password[i]))
  }

  function Half(c: Byte): Byte {
    c >> 1
  }

  function LowBit(c: Byte): Byte {
    c & 1
  }

  /** The exclusive or of the lowest n bits. */
  function Ones(c: Byte, n: nat): Byte {
    if n == 0 then 0 else LowBit(c) ^ Ones(Half(c), n - 1)
  }

  lemma EightOnes(c: Byte)
    ensures Ones(c, 8) == ParityBit(c)
  {
    var c1, c2, c3 := Half(c), Half(Half(c)), Half(Half(Half(c)));
    var c4, c5, c6 := Half(c3), Half(Half(c3)), Half(Half(Half(c3)));
    assert Ones(c, 8) == LowBit(c) ^ Ones(c1, 7) && Ones(c1, 7) == LowBit(c1) ^ Ones(c2, 6);
    assert Ones(c2, 6) == LowBit(c2) ^ Ones(c3, 5) && Ones(c3, 5) == LowBit(c3) ^ Ones(c4, 4);
    assert Ones(c4, 4) == LowBit(c4) ^ Ones(c5, 3) && Ones(c5, 3) == LowBit(c5) ^ Ones(c6, 2);
    assert Ones(c6, 2) == LowBit(c6) ^ Ones(Half(c6), 1) && Ones(Half(c6), 1) == LowBit(Half(c6)) ^ 0;
  }

  /** One character: its ones are counted bit by bit. */
  method CharToKey(c: Byte) returns (b: Byte)
    ensures b == KeyByte(c)
  {
    var l := CountOnes(c);
    if l % 2 == 1 {
      b := c & 0x7f;
    } else {
      b := c | 0x80;
    }
  }

  /** The inner loop. */
  method CountOnes(c: Byte) returns (l: nat)
    ensures l % 2 == 1 <==> ParityBit(c) == 1
  {
    hide ParityBit, Half, LowBit, OddSoFar;
    EightOnes(c);
    OddStart(c);
    l := 0;
    var k := c;
    for j := 0 to 8
      invariant OddSoFar(c, k, 8 - j, l)
    {
      ZeroOrOne(k);
      OddStep(c, k, 8 - j, l);
      if LowBit(k) != 0 {
        l := l + 1;
      }
      k := Half(k);
    }
    OddEnd(c, k, l);
  }

  /** The ones counted and those of the n bits left make up the parity. */
  ghost predicate OddSoFar(c: Byte, k: Byte, n: nat, l: nat) {
    Ones(c, 8) == Flip(Ones(k, n), l % 2 == 1)
  }

  function Flip(b: Byte, odd: bool): Byte {
    if odd then b ^ 1 else b
  }

  lemma OddStart(c: Byte)
    ensures OddSoFar(c, c, 8, 0)
  {
  }

  lemma OddStep(c: Byte, k: Byte, n: nat, l: nat)
    requires OddSoFar(c, k, n, l) && n > 0 && (LowBit(k) == 0 || LowBit(k) == 1)
    ensures OddSoFar(c, Half(k), n - 1, if LowBit(k) != 0 then l + 1 else l)
  {
    hide Half, LowBit, Flip;
    NextOne(LowBit(k), Ones(Half(k), n - 1), l % 2 == 1);
  }

  lemma NextOne(b: Byte, rest: Byte, odd: bool)
    requires b == 0 || b == 1
    ensures Flip(b ^ rest, odd) == Flip(rest, if b != 0 then !odd else odd)
  {
  }

  lemma OddEnd(c: Byte, k: Byte, l: nat)
    requires OddSoFar(c, k, 0, l)
    ensures l % 2 == 1 <==> Ones(c, 8) == 1
  {
  }

  lemma ZeroOrOne(k: Byte)
    ensures LowBit(k) == 0 || LowBit(k) == 1
  {
  }

  /** The loop over the key. */
  method MakeKey(key: seq<Byte>) returns (kk: array<Byte>)
    requires |key| >= 8
    ensures fresh(kk) && kk[..] == KeyOf(key)
  {
    hide KeyByte;
    kk := new Byte[8];
    for i := 0 to 8
      invariant forall j | 0 <= j < i :: kk[j] == KeyByte(key[j])
    {
      kk[i] := CharToKey(key[i]);
    }
  }

  // ---------- What the key keeps ----------

  /** The low seven bits stay; a seven-bit character gets odd parity, by its top bit. */
  lemma KeyByteIs(c: Byte)
    ensures KeyByte(c) & 0x7f == c & 0x7f
    ensures c & 0x80 == 0 ==> ParityBit(KeyByte(c)) == 1
  {
  }

  lemma HighBitsDecide(c: Byte, c': Byte)
    requires c & 0x80 == 0 && c' & 0x80 == 0
    ensures KeyByte(c) & 0xfe == KeyByte(c') & 0xfe <==> c == c'
  {
  }

  lemma AgreeByBytes(a: seq<Byte>, b: seq<Byte>)
    requires |a| == |b| == 4
    ensures Agree(C2l(a), C2l(b), 0xfefefefe) <==>
            && a[0] & 0xfe == b[0] & 0xfe && a[1] & 0xfe == b[1] & 0xfe
            && a[2] & 0xfe == b[2] & 0xfe && a[3] & 0xfe == b[3] & 0xfe
  {
  }

  /**
   Although the cipher drops the lowest bit of each key byte, no bit of a seven-bit password is lost:
   two of them have one schedule if and only if they are the same in the first eight characters.
   */
  lemma PasswordsDecideSchedules(p: seq<Byte>, q: seq<Byte>)
    requires |p| >= 8 && |q| >= 8
    requires forall i | 0 <= i < 8 :: p[i] & 0x80 == 0 && q[i] & 0x80 == 0
    ensures Schedule(Load(KeyOf(p))) == Schedule(Load(KeyOf(q))) <==> p[..8] == q[..8]
  {
    hide Schedule, C2l, Agree, KeyByte;
    var a, b := KeyOf(p), KeyOf(q);
    SameScheduleIff(Load(a), Load(b));
    AgreeByBytes(a[..4], b[..4]);
    AgreeByBytes(a[4..], b[4..]);
    forall i | 0 <= i < 8
      ensures a[i] & 0xfe == b[i] & 0xfe <==> p[i] == q[i]
    {
      HighBitsDecide(p[i], q[i]);
    }
  }
}
