/** The bits of byte strings, the most significant bit of each byte first. */
module ByteBits {
  import opened DesLocal

  /** The mask of bit i of a byte, the leftmost first. */
  function Probe(i: nat): Byte
    requires i <= 8
  {
    match i
    case 0 => 0x80 case 1 => 0x40 case 2 => 0x20 case 3 => 0x10
    case 4 => 0x08 case 5 => 0x04 case 6 => 0x02 case 7 => 0x01
    case _ => 0
  }

  function Half(u: Byte): Byte {
    u >> 1
  }

  lemma ProbeHalves(i: nat)
    requires i < 8
    ensures Half(Probe(i)) == Probe(i + 1) && (Probe(i + 1) == 0 <==> i == 7)
  {
  }

  function Has(b: Byte, u: Byte): bool {
    b & u != 0
  }

  /** Bit k of a byte string, most significant bit of the first byte first. */
  function BitAt(bb: seq<Byte>, k: nat): bool
    requires k < 8 * |bb|
  {
    Has(bb[k / 8], Probe(k % 8))
  }

  lemma Probes()
    ensures Probe(0) == 0x80 && Probe(1) == 0x40 && Probe(2) == 0x20 && Probe(3) == 0x10
    ensures Probe(4) == 0x08 && Probe(5) == 0x04 && Probe(6) == 0x02 && Probe(7) == 0x01
  {
  }

  lemma SameProbesSameByte(a: Byte, b: Byte)
    requires forall i | 0 <= i < 8 :: Has(a, Probe(i)) == Has(b, Probe(i))
    ensures a == b
  {
    hide Has, Probe;
    Probes();
    EightBits(a, b);
  }

  lemma EightBits(a: Byte, b: Byte)
    requires Has(a, 0x80) == Has(b, 0x80) && Has(a, 0x40) == Has(b, 0x40) && Has(a, 0x20) == Has(b, 0x20)
    requires Has(a, 0x10) == Has(b, 0x10) && Has(a, 0x08) == Has(b, 0x08) && Has(a, 0x04) == Has(b, 0x04)
    requires Has(a, 0x02) == Has(b, 0x02) && Has(a, 0x01) == Has(b, 0x01)
    ensures a == b
  {
  }
}
