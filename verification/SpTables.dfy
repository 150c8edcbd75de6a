/**
 The eight combined substitution and permutation tables (lib/crypto/spr.h).
 Each table has its own four output bits: the type of its entries says which,
 and every entry is checked against that type.
 */
module SpTables {
  import opened DesLocal

  type Nibble0 = w: Word | w & !0x80820200 == 0 witness 0
  type Nibble1 = w: Word | w & !0x10042004 == 0 witness 0
  type Nibble2 = w: Word | w & !0x41010040 == 0 witness 0
  type Nibble3 = w: Word | w & !0x04100402 == 0 witness 0
  type Nibble4 = w: Word | w & !0x02004108 == 0 witness 0
  type Nibble5 = w: Word | w & !0x20080810 == 0 witness 0
  type Nibble6 = w: Word | w & !0x00401081 == 0 witness 0
  type Nibble7 = w: Word | w & !0x08208020 == 0 witness 0

  function Sp0(i: bv6): Nibble0 {
    var low := (i & 0xf) as bv4;
    if i & 0x30 == 0x00 then
      match low
      case 0 => 0x00820200 case 1 => 0x00020000 case 2 => 0x80800000 case 3 => 0x80820200
      case 4 => 0x00800000 case 5 => 0x80020200 case 6 => 0x80020000 case 7 => 0x80800000
      case 8 => 0x80020200 case 9 => 0x00820200 case 10 => 0x00820000 case 11 => 0x80000200
      case 12 => 0x80800200 case 13 => 0x00800000 case 14 => 0x00000000 case _ => 0x80020000
    else if i & 0x30 == 0x10 then
      match low
      case 0 => 0x00020000 case 1 => 0x80000000 case 2 => 0x00800200 case 3 => 0x00020200
      case 4 => 0x80820200 case 5 => 0x00820000 case 6 => 0x80000200 case 7 => 0x00800200
      case 8 => 0x80000000 case 9 => 0x00000200 case 10 => 0x00020200 case 11 => 0x80820000
      case 12 => 0x00000200 case 13 => 0x80800200 case 14 => 0x80820000 case _ => 0x00000000
    else if i & 0x30 == 0x20 then
      match low
      case 0 => 0x00000000 case 1 => 0x80820200 case 2 => 0x00800200 case 3 => 0x80020000
      case 4 => 0x00820200 case 5 => 0x00020000 case 6 => 0x80000200 case 7 => 0x00800200
      case 8 => 0x80820000 case 9 => 0x00000200 case 10 => 0x00020200 case 11 => 0x80800000
      case 12 => 0x80020200 case 13 => 0x80000000 case 14 => 0x80800000 case _ => 0x00820000
    else
      match low
      case 0 => 0x80820200 case 1 => 0x00020200 case 2 => 0x00820000 case 3 => 0x80800200
      case 4 => 0x00800000 case 5 => 0x80000200 case 6 => 0x80020000 case 7 => 0x00000000
      case 8 => 0x00020000 case 9 => 0x00800000 case 10 => 0x80800200 case 11 => 0x00820200
      case 12 => 0x80000000 case 13 => 0x80820000 case 14 => 0x00000200 case _ => 0x80020200
  }

  function Sp1(i: bv6): Nibble1 {
    var low := (i & 0xf) as bv4;
    if i & 0x30 == 0x00 then
      match low
      case 0 => 0x10042004 case 1 => 0x00000000 case 2 => 0x00042000 case 3 => 0x10040000
      case 4 => 0x10000004 case 5 => 0x00002004 case 6 => 0x10002000 case 7 => 0x00042000
      case 8 => 0x00002000 case 9 => 0x10040004 case 10 => 0x00000004 case 11 => 0x10002000
      case 12 => 0x00040004 case 13 => 0x10042000 case 14 => 0x10040000 case _ => 0x00000004
    else if i & 0x30 == 0x10 then
      match low
      case 0 => 0x00040000 case 1 => 0x10002004 case 2 => 0x10040004 case 3 => 0x00002000
      case 4 => 0x00042004 case 5 => 0x10000000 case 6 => 0x00000000 case 7 => 0x00040004
      case 8 => 0x10002004 case 9 => 0x00042004 case 10 => 0x10042000 case 11 => 0x10000004
      case 12 => 0x10000000 case 13 => 0x00040000 case 14 => 0x00002004 case _ => 0x10042004
    else if i & 0x30 == 0x20 then
      match low
      case 0 => 0x00040004 case 1 => 0x10042000 case 2 => 0x10002000 case 3 => 0x00042004
      case 4 => 0x10042004 case 5 => 0x00040004 case 6 => 0x10000004 case 7 => 0x00000000
      case 8 => 0x10000000 case 9 => 0x00002004 case 10 => 0x00040000 case 11 => 0x10040004
      case 12 => 0x00002000 case 13 => 0x10000000 case 14 => 0x00042004 case _ => 0x10002004
    else
      match low
      case 0 => 0x10042000 case 1 => 0x00002000 case 2 => 0x00000000 case 3 => 0x10000004
      case 4 => 0x00000004 case 5 => 0x10042004 case 6 => 0x00042000 case 7 => 0x10040000
      case 8 => 0x10040004 case 9 => 0x00040000 case 10 => 0x00002004 case 11 => 0x10002000
      case 12 => 0x10002004 case 13 => 0x00000004 case 14 => 0x10040000 case _ => 0x00042000
  }

  function Sp2(i: bv6): Nibble2 {
    var low := (i & 0xf) as bv4;
    if i & 0x30 == 0x00 then
      match low
      case 0 => 0x41000000 case 1 => 0x01010040 case 2 => 0x00000040 case 3 => 0x41000040
      case 4 => 0x40010000 case 5 => 0x01000000 case 6 => 0x41000040 case 7 => 0x00010040
      case 8 => 0x01000040 case 9 => 0x00010000 case 10 => 0x01010000 case 11 => 0x40000000
      case 12 => 0x41010040 case 13 => 0x40000040 case 14 => 0x40000000 case _ => 0x41010000
    else if i & 0x30 == 0x10 then
      match low
      case 0 => 0x00000000 case 1 => 0x40010000 case 2 => 0x01010040 case 3 => 0x00000040
      case 4 => 0x40000040 case 5 => 0x41010040 case 6 => 0x00010000 case 7 => 0x41000000
      case 8 => 0x41010000 case 9 => 0x01000040 case 10 => 0x40010040 case 11 => 0x01010000
      case 12 => 0x00010040 case 13 => 0x00000000 case 14 => 0x01000000 case _ => 0x40010040
    else if i & 0x30 == 0x20 then
      match low
      case 0 => 0x01010040 case 1 => 0x00000040 case 2 => 0x40000000 case 3 => 0x00010000
      case 4 => 0x40000040 case 5 => 0x40010000 case 6 => 0x01010000 case 7 => 0x41000040
      case 8 => 0x00000000 case 9 => 0x01010040 case 10 => 0x00010040 case 11 => 0x41010000
      case 12 => 0x40010000 case 13 => 0x01000000 case 14 => 0x41010040 case _ => 0x40000000
    else
      match low
      case 0 => 0x40010040 case 1 => 0x41000000 case 2 => 0x01000000 case 3 => 0x41010040
      case 4 => 0x00010000 case 5 => 0x01000040 case 6 => 0x41000040 case 7 => 0x00010040
      case 8 => 0x01000040 case 9 => 0x00000000 case 10 => 0x41010000 case 11 => 0x40000040
      case 12 => 0x41000000 case 13 => 0x40010040 case 14 => 0x00000040 case _ => 0x01010000
  }

  function Sp3(i: bv6): Nibble3 {
    var low := (i & 0xf) as bv4;
    if i & 0x30 == 0x00 then
      match low
      case 0 => 0x00100402 case 1 => 0x04000400 case 2 => 0x00000002 case 3 => 0x04100402
      case 4 => 0x00000000 case 5 => 0x04100000 case 6 => 0x04000402 case 7 => 0x00100002
      case 8 => 0x04100400 case 9 => 0x04000002 case 10 => 0x04000000 case 11 => 0x00000402
      case 12 => 0x04000002 case 13 => 0x00100402 case 14 => 0x00100000 case _ => 0x04000000
    else if i & 0x30 == 0x10 then
      match low
      case 0 => 0x04100002 case 1 => 0x00100400 case 2 => 0x00000400 case 3 => 0x00000002
      case 4 => 0x00100400 case 5 => 0x04000402 case 6 => 0x04100000 case 7 => 0x00000400
      case 8 => 0x00000402 case 9 => 0x00000000 case 10 => 0x00100002 case 11 => 0x04100400
      case 12 => 0x04000400 case 13 => 0x04100002 case 14 => 0x04100402 case _ => 0x00100000
    else if i & 0x30 == 0x20 then
      match low
      case 0 => 0x04100002 case 1 => 0x00000402 case 2 => 0x00100000 case 3 => 0x04000002
      case 4 => 0x00100400 case 5 => 0x04000400 case 6 => 0x00000002 case 7 => 0x04100000
      case 8 => 0x04000402 case 9 => 0x00000000 case 10 => 0x00000400 case 11 => 0x00100002
      case 12 => 0x00000000 case 13 => 0x04100002 case 14 => 0x04100400 case _ => 0x00000400
    else
      match low
      case 0 => 0x04000000 case 1 => 0x04100402 case 2 => 0x00100402 case 3 => 0x00100000
      case 4 => 0x04100402 case 5 => 0x00000002 case 6 => 0x04000400 case 7 => 0x00100402
      case 8 => 0x00100002 case 9 => 0x00100400 case 10 => 0x04100000 case 11 => 0x04000402
      case 12 => 0x00000402 case 13 => 0x04000000 case 14 => 0x04000002 case _ => 0x04100400
  }

  function Sp4(i: bv6): Nibble4 {
    var low := (i & 0xf) as bv4;
    if i & 0x30 == 0x00 then
      match low
      case 0 => 0x02000000 case 1 => 0x00004000 case 2 => 0x00000100 case 3 => 0x02004108
      case 4 => 0x02004008 case 5 => 0x02000100 case 6 => 0x00004108 case 7 => 0x02004000
      case 8 => 0x00004000 case 9 => 0x00000008 case 10 => 0x02000008 case 11 => 0x00004100
      case 12 => 0x02000108 case 13 => 0x02004008 case 14 => 0x02004100 case _ => 0x00000000
    else if i & 0x30 == 0x10 then
      match low
      case 0 => 0x00004100 case 1 => 0x02000000 case 2 => 0x00004008 case 3 => 0x00000108
      case 4 => 0x02000100 case 5 => 0x00004108 case 6 => 0x00000000 case 7 => 0x02000008
      case 8 => 0x00000008 case 9 => 0x02000108 case 10 => 0x02004108 case 11 => 0x00004008
      case 12 => 0x02004000 case 13 => 0x00000100 case 14 => 0x00000108 case _ => 0x02004100
    else if i & 0x30 == 0x20 then
      match low
      case 0 => 0x02004100 case 1 => 0x02000108 case 2 => 0x00004008 case 3 => 0x02004000
      case 4 => 0x00004000 case 5 => 0x00000008 case 6 => 0x02000008 case 7 => 0x02000100
      case 8 => 0x02000000 case 9 => 0x00004100 case 10 => 0x02004108 case 11 => 0x00000000
      case 12 => 0x00004108 case 13 => 0x02000000 case 14 => 0x00000100 case _ => 0x00004008
    else
      match low
      case 0 => 0x02000108 case 1 => 0x00000100 case 2 => 0x00000000 case 3 => 0x02004108
      case 4 => 0x02004008 case 5 => 0x02004100 case 6 => 0x00000108 case 7 => 0x00004000
      case 8 => 0x00004100 case 9 => 0x02004008 case 10 => 0x02000100 case 11 => 0x00000108
      case 12 => 0x00000008 case 13 => 0x00004108 case 14 => 0x02004000 case _ => 0x02000008
  }

  function Sp5(i: bv6): Nibble5 {
    var low := (i & 0xf) as bv4;
    if i & 0x30 == 0x00 then
      match low
      case 0 => 0x20000010 case 1 => 0x00080010 case 2 => 0x00000000 case 3 => 0x20080800
      case 4 => 0x00080010 case 5 => 0x00000800 case 6 => 0x20000810 case 7 => 0x00080000
      case 8 => 0x00000810 case 9 => 0x20080810 case 10 => 0x00080800 case 11 => 0x20000000
      case 12 => 0x20000800 case 13 => 0x20000010 case 14 => 0x20080000 case _ => 0x00080810
    else if i & 0x30 == 0x10 then
      match low
      case 0 => 0x00080000 case 1 => 0x20000810 case 2 => 0x20080010 case 3 => 0x00000000
      case 4 => 0x00000800 case 5 => 0x00000010 case 6 => 0x20080800 case 7 => 0x20080010
      case 8 => 0x20080810 case 9 => 0x20080000 case 10 => 0x20000000 case 11 => 0x00000810
      case 12 => 0x00000010 case 13 => 0x00080800 case 14 => 0x00080810 case _ => 0x20000800
    else if i & 0x30 == 0x20 then
      match low
      case 0 => 0x00000810 case 1 => 0x20000000 case 2 => 0x20000800 case 3 => 0x00080810
      case 4 => 0x20080800 case 5 => 0x00080010 case 6 => 0x00000000 case 7 => 0x20000800
      case 8 => 0x20000000 case 9 => 0x00000800 case 10 => 0x20080010 case 11 => 0x00080000
      case 12 => 0x00080010 case 13 => 0x20080810 case 14 => 0x00080800 case _ => 0x00000010
    else
      match low
      case 0 => 0x20080810 case 1 => 0x00080800 case 2 => 0x00080000 case 3 => 0x20000810
      case 4 => 0x20000010 case 5 => 0x20080000 case 6 => 0x00080810 case 7 => 0x00000000
      case 8 => 0x00000800 case 9 => 0x20000010 case 10 => 0x20000810 case 11 => 0x20080800
      case 12 => 0x20080000 case 13 => 0x00000810 case 14 => 0x00000010 case _ => 0x20080010
  }

  function Sp6(i: bv6): Nibble6 {
    var low := (i & 0xf) as bv4;
    if i & 0x30 == 0x00 then
      match low
      case 0 => 0x00001000 case 1 => 0x00000080 case 2 => 0x00400080 case 3 => 0x00400001
      case 4 => 0x00401081 case 5 => 0x00001001 case 6 => 0x00001080 case 7 => 0x00000000
      case 8 => 0x00400000 case 9 => 0x00400081 case 10 => 0x00000081 case 11 => 0x00401000
      case 12 => 0x00000001 case 13 => 0x00401080 case 14 => 0x00401000 case _ => 0x00000081
    else if i & 0x30 == 0x10 then
      match low
      case 0 => 0x00400081 case 1 => 0x00001000 case 2 => 0x00001001 case 3 => 0x00401081
      case 4 => 0x00000000 case 5 => 0x00400080 case 6 => 0x00400001 case 7 => 0x00001080
      case 8 => 0x00401001 case 9 => 0x00001081 case 10 => 0x00401080 case 11 => 0x00000001
      case 12 => 0x00001081 case 13 => 0x00401001 case 14 => 0x00000080 case _ => 0x00400000
    else if i & 0x30 == 0x20 then
      match low
      case 0 => 0x00001081 case 1 => 0x00401000 case 2 => 0x00401001 case 3 => 0x00000081
      case 4 => 0x00001000 case 5 => 0x00000080 case 6 => 0x00400000 case 7 => 0x00401001
      case 8 => 0x00400081 case 9 => 0x00001081 case 10 => 0x00001080 case 11 => 0x00000000
      case 12 => 0x00000080 case 13 => 0x00400001 case 14 => 0x00000001 case _ => 0x00400080
    else
      match low
      case 0 => 0x00000000 case 1 => 0x00400081 case 2 => 0x00400080 case 3 => 0x00001080
      case 4 => 0x00000081 case 5 => 0x00001000 case 6 => 0x00401081 case 7 => 0x00400000
      case 8 => 0x00401080 case 9 => 0x00000001 case 10 => 0x00001001 case 11 => 0x00401081
      case 12 => 0x00400001 case 13 => 0x00401080 case 14 => 0x00401000 case _ => 0x00001001
  }

  function Sp7(i: bv6): Nibble7 {
    var low := (i & 0xf) as bv4;
    if i & 0x30 == 0x00 then
      match low
      case 0 => 0x08200020 case 1 => 0x08208000 case 2 => 0x00008020 case 3 => 0x00000000
      case 4 => 0x08008000 case 5 => 0x00200020 case 6 => 0x08200000 case 7 => 0x08208020
      case 8 => 0x00000020 case 9 => 0x08000000 case 10 => 0x00208000 case 11 => 0x00008020
      case 12 => 0x00208020 case 13 => 0x08008020 case 14 => 0x08000020 case _ => 0x08200000
    else if i & 0x30 == 0x10 then
      match low
      case 0 => 0x00008000 case 1 => 0x00208020 case 2 => 0x00200020 case 3 => 0x08008000
      case 4 => 0x08208020 case 5 => 0x08000020 case 6 => 0x00000000 case 7 => 0x00208000
      case 8 => 0x08000000 case 9 => 0x00200000 case 10 => 0x08008020 case 11 => 0x08200020
      case 12 => 0x00200000 case 13 => 0x00008000 case 14 => 0x08208000 case _ => 0x00000020
    else if i & 0x30 == 0x20 then
      match low
      case 0 => 0x00200000 case 1 => 0x00008000 case 2 => 0x08000020 case 3 => 0x08208020
      case 4 => 0x00008020 case 5 => 0x08000000 case 6 => 0x00000000 case 7 => 0x00208000
      case 8 => 0x08200020 case 9 => 0x08008020 case 10 => 0x08008000 case 11 => 0x00200020
      case 12 => 0x08208000 case 13 => 0x00000020 case 14 => 0x00200020 case _ => 0x08008000
    else
      match low
      case 0 => 0x08208020 case 1 => 0x00200000 case 2 => 0x08200000 case 3 => 0x08000020
      case 4 => 0x00208000 case 5 => 0x00008020 case 6 => 0x08008020 case 7 => 0x08200000
      case 8 => 0x00000020 case 9 => 0x08208000 case 10 => 0x00208020 case 11 => 0x00000000
      case 12 => 0x08000000 case 13 => 0x08200020 case 14 => 0x00008000 case _ => 0x00208020
  }
}
