/** Addresses and their home slots (components/MCU/app/general.h, lib/ICF2/src/sockIO.cc). */
module AddressHash {
  import opened LinearProbing

  /** What equalIPAddr compares: the family and the address bytes, not the port. */
  datatype RawAddr = IPv4(b: seq<bv8>) | IPv6(b: seq<bv8>)

  type Addr = a: RawAddr | |a.b| == if a.IPv4? then 4 else 16 witness IPv4([0, 0, 0, 0])

  /** A position below 2^15. */
  type Small = w: bv16 | w & 0x8000 == 0 witness 0

  /** (u16)(b<<n | b>>(8-n)) for the shifts 0 to 7, in 16 bits. */
  function R0(b: bv8): Small { b as bv16 }
  function R1(b: bv8): Small { (b as bv16 << 1) | (b as bv16 >> 7) }
  function R2(b: bv8): Small { (b as bv16 << 2) | (b as bv16 >> 6) }
  function R3(b: bv8): Small { (b as bv16 << 3) | (b as bv16 >> 5) }
  function R4(b: bv8): Small { (b as bv16 << 4) | (b as bv16 >> 4) }
  function R5(b: bv8): Small { (b as bv16 << 5) | (b as bv16 >> 3) }
  function R6(b: bv8): Small { (b as bv16 << 6) | (b as bv16 >> 2) }
  function R7(b: bv8): Small { (b as bv16 << 7) | (b as bv16 >> 1) }

  /** What byte k of an address contributes. */
  function Term(k: nat, b: bv8): Small {
    match k % 8
    case 0 => R0(b) case 1 => R1(b) case 2 => R2(b) case 3 => R3(b)
    case 4 => R4(b) case 5 => R5(b) case 6 => R6(b) case _ => R7(b)
  }

  function Mix(a: Small, b: Small): Small {
    a ^ b
  }

  /** The exclusive or of the contributions of all bytes. */
  function MixAll(b: seq<bv8>): Small {
    if b == [] then 0 else Mix(MixAll(b[..|b| - 1]), Term(|b| - 1, b[|b| - 1]))
  }

  function IndexOf(w: Small): (i: nat)
    ensures i < 0x8000
  {
    (w as bv15) as nat
  }

  /** getIndex: every address of either family has its home inside the table. */
  function GetIndex(a: Addr): (i: nat)
    ensures i < 0x8000 < SLOTS
  {
    IndexOf(MixAll(a.b))
  }

  lemma HomeOfFour(b: seq<bv8>)
    requires |b| == 4
    ensures GetIndex(IPv4(b)) == IndexOf(Mix(Mix(Mix(R0(b[0]), R1(b[1])), R2(b[2])), R3(b[3])))
  {
    hide R0, R1, R2, R3, Mix, IndexOf;
    MixNothing(R0(b[0]));
    assert b[..1][..0] == [];
    assert MixAll(b[..1]) == Mix(MixAll([]), R0(b[0]));
    assert b[..2][..1] == b[..1];
    assert MixAll(b[..2]) == Mix(MixAll(b[..1]), R1(b[1]));
    assert b[..3][..2] == b[..2];
    assert MixAll(b[..3]) == Mix(MixAll(b[..2]), R2(b[2]));
  }

  lemma MixNothing(w: Small)
    ensures Mix(0, w) == w
  {
  }

  // ---------- What the home is ----------

  /** A high and a low byte. */
  function Join(h: bv8, l: bv8): bv16 {
    (h as bv16 << 8) | l as bv16
  }

  function Xor(a: bv8, b: bv8): bv8 {
    a ^ b
  }

  /** A byte turned left by n places. */
  function Rolled(b: bv8, n: nat): bv8
    requires n < 8
  {
    match n
    case 0 => b case 1 => b.RotateLeft(1) case 2 => b.RotateLeft(2) case 3 => b.RotateLeft(3)
    case 4 => b.RotateLeft(4) case 5 => b.RotateLeft(5) case 6 => b.RotateLeft(6) case _ => b.RotateLeft(7)
  }

  /** The n bits that come round in doing so. */
  function CarriedOver(b: bv8, n: nat): bv8
    requires n < 8
  {
    match n
    case 0 => 0 case 1 => b >> 7 case 2 => b >> 6 case 3 => b >> 5
    case 4 => b >> 4 case 5 => b >> 3 case 6 => b >> 2 case _ => b >> 1
  }

  /** The exclusive or of the bytes, byte k turned left by k places. */
  function LowByte(b: seq<bv8>): bv8 {
    if b == [] then 0 else Xor(LowByte(b[..|b| - 1]), Rolled(b[|b| - 1], (|b| - 1) % 8))
  }

  /** And of the bits that came round. */
  function HighByte(b: seq<bv8>): bv8 {
    if b == [] then 0 else Xor(HighByte(b[..|b| - 1]), CarriedOver(b[|b| - 1], (|b| - 1) % 8))
  }

  lemma EachIs(b: bv8)
    ensures R0(b) == Join(0, b) && R1(b) == Join(b >> 7, b.RotateLeft(1))
    ensures R2(b) == Join(b >> 6, b.RotateLeft(2)) && R3(b) == Join(b >> 5, b.RotateLeft(3))
    ensures R4(b) == Join(b >> 4, b.RotateLeft(4)) && R5(b) == Join(b >> 3, b.RotateLeft(5))
    ensures R6(b) == Join(b >> 2, b.RotateLeft(6)) && R7(b) == Join(b >> 1, b.RotateLeft(7))
  {
  }

  lemma TermIs(k: nat, b: bv8)
    ensures Term(k, b) == Join(CarriedOver(b, k % 8), Rolled(b, k % 8))
  {
    hide R0, R1, R2, R3, R4, R5, R6, R7, Join;
    EachIs(b);
    match k % 8
    case 0 => case 1 => case 2 => case 3 => case 4 => case 5 => case 6 => case _ =>
  }

  lemma JoinXor(h: bv8, l: bv8, h': bv8, l': bv8)
    ensures Join(h, l) ^ Join(h', l') == Join(Xor(h, h'), Xor(l, l'))
  {
  }

  lemma JoinMixed(a: Small, h: bv8, l: bv8, b: Small, h': bv8, l': bv8)
    requires a == Join(h, l) && b == Join(h', l')
    ensures Mix(a, b) == Join(Xor(h, h'), Xor(l, l'))
  {
    hide Join, Xor;
    JoinXor(h, l, h', l');
  }

  lemma JoinZero()
    ensures Join(0, 0) == 0
  {
  }

  lemma {:induction false} MixAllIs(b: seq<bv8>)
    ensures MixAll(b) == Join(HighByte(b), LowByte(b))
  {
    hide Term, Mix, Join, Xor, CarriedOver, Rolled;
    if b == [] {
      JoinZero();
    } else {
      var k := |b| - 1;
      MixAllIs(b[..k]);
      TermIs(k, b[k]);
      JoinMixed(MixAll(b[..k]), HighByte(b[..k]), LowByte(b[..k]),
                Term(k, b[k]), CarriedOver(b[k], k % 8), Rolled(b[k], k % 8));
    }
  }

  lemma ValueIs(w: Small)
    ensures IndexOf(w) == w as nat
  {
  }

  /** The home is the number these two bytes make. */
  lemma HomeIs(a: Addr)
    ensures GetIndex(a) == Join(HighByte(a.b), LowByte(a.b)) as nat
  {
    hide Join, HighByte, LowByte, MixAll, IndexOf;
    MixAllIs(a.b);
    ValueIs(MixAll(a.b));
  }

  // ---------- One byte ----------

  lemma TermDiffers(k: nat, b: bv8, b': bv8)
    requires b != b'
    ensures Term(k, b) != Term(k, b')
  {
    match k % 8
    case 0 => case 1 => case 2 => case 3 => case 4 => case 5 => case 6 => case _ =>
  }

  lemma MixDiffers(a: Small, a': Small, c: Small)
    requires a != a'
    ensures Mix(a, c) != Mix(a', c) && Mix(c, a) != Mix(c, a')
  {
  }

  lemma {:induction false} MixAllDiffers(b: seq<bv8>, b': seq<bv8>, k: nat)
    requires |b| == |b'| && k < |b| && b[k] != b'[k]
    requires forall i | 0 <= i < |b| && i != k :: b[i] == b'[i]
    ensures MixAll(b) != MixAll(b')
  {
    hide Term, Mix;
    var n := |b| - 1;
    if k == n {
      assert b[..n] == b'[..n];
      TermDiffers(n, b[n], b'[n]);
      MixDiffers(Term(n, b[n]), Term(n, b'[n]), MixAll(b[..n]));
    } else {
      MixAllDiffers(b[..n], b'[..n], k);
      MixDiffers(MixAll(b[..n]), MixAll(b'[..n]), Term(n, b[n]));
    }
  }

  lemma BackAgain(w: Small)
    ensures w == (w as nat) as bv16
  {
  }

  lemma IndexDecides(v: Small, w: Small)
    requires v != w
    ensures IndexOf(v) != IndexOf(w)
  {
    hide IndexOf;
    ValueIs(v);
    ValueIs(w);
    BackAgain(v);
    BackAgain(w);
  }

  /** Addresses of one family that differ in exactly one byte have different homes. */
  lemma OneByteMoves(a: Addr, a': Addr, k: nat)
    requires a.IPv4? == a'.IPv4? && k < |a.b| && a.b[k] != a'.b[k]
    requires forall i | 0 <= i < |a.b| && i != k :: a.b[i] == a'.b[i]
    ensures GetIndex(a) != GetIndex(a')
  {
    hide MixAll, IndexOf;
    MixAllDiffers(a.b, a'.b, k);
    IndexDecides(MixAll(a.b), MixAll(a'.b));
  }
}
