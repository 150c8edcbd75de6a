/** The four-byte length header (lib/crypto/des_local.h). */
module LengthHeader {
  import opened DesLocal

  const HDRSIZE: nat := 4

  lemma ByteRoundTrip(n: nat)
    requires n < 256
    ensures (n as bv8) as int == n
  {
    if n < 16 {
    } else if n < 32 {
    } else if n < 48 {
    } else if n < 64 {
    } else if n < 80 {
    } else if n < 96 {
    } else if n < 112 {
    } else if n < 128 {
    } else if n < 144 {
    } else if n < 160 {
    } else if n < 176 {
    } else if n < 192 {
    } else if n < 208 {
    } else if n < 224 {
    } else if n < 240 {
    } else {
    }
  }

  function ByteOf(n: nat): Byte
    requires n < 0x100
  {
    n as Byte
  }

  function ValueOf(b: Byte): (n: nat)
    ensures n < 0x100
  {
    b as nat
  }

  lemma ValueOfByteOf(n: nat)
    requires n < 0x100
    ensures ValueOf(ByteOf(n)) == n
  {
    ByteRoundTrip(n);
  }

  /** l2n of a length, most significant byte first. */
  function L2n(n: nat): (c: seq<Byte>)
    requires n < 0x1_0000_0000
    ensures |c| == HDRSIZE
  {
    var n1 := n / 0x100;
    var n2 := n1 / 0x100;
    var n3 := n2 / 0x100;
    [ByteOf(n3), ByteOf(n2 % 0x100), ByteOf(n1 % 0x100), ByteOf(n % 0x100)]
  }

  function N2l(c: seq<Byte>): nat
    requires |c| == HDRSIZE
  {
    ValueOf(c[0]) * 0x100_0000 + ValueOf(c[1]) * 0x1_0000 + ValueOf(c[2]) * 0x100 + ValueOf(c[3])
  }

  lemma N2lL2n(n: nat)
    requires n < 0x1_0000_0000
    ensures N2l(L2n(n)) == n
  {
    hide ByteOf, ValueOf;
    var n1 := n / 0x100;
    var n2 := n1 / 0x100;
    var n3 := n2 / 0x100;
    ValueOfByteOf(n3);
    ValueOfByteOf(n2 % 0x100);
    ValueOfByteOf(n1 % 0x100);
    ValueOfByteOf(n % 0x100);
  }
}
