/**
 The eight tables of the key schedule (lib/crypto/sk.h). Every entry is
 checked to be the or of the single-bit entries of its index.
 */
module SkTables {
  import opened DesLocal

  function Spread0(i: bv6): Word {
    (if i & 1 != 0 then 0x00000010 else 0) | (if i & 2 != 0 then 0x20000000 else 0) |
    (if i & 4 != 0 then 0x00010000 else 0) | (if i & 8 != 0 then 0x00000800 else 0) |
    (if i & 16 != 0 then 0x00000020 else 0) | (if i & 32 != 0 then 0x00080000 else 0)
  }

  function Skb0(i: bv6): (w: Word)
    ensures w == Spread0(i)
  {
    var low := (i & 0xf) as bv4;
    if i & 0x30 == 0x00 then
      match low
      case 0 => 0x00000000 case 1 => 0x00000010 case 2 => 0x20000000 case 3 => 0x20000010
      case 4 => 0x00010000 case 5 => 0x00010010 case 6 => 0x20010000 case 7 => 0x20010010
      case 8 => 0x00000800 case 9 => 0x00000810 case 10 => 0x20000800 case 11 => 0x20000810
      case 12 => 0x00010800 case 13 => 0x00010810 case 14 => 0x20010800 case _ => 0x20010810
    else if i & 0x30 == 0x10 then
      match low
      case 0 => 0x00000020 case 1 => 0x00000030 case 2 => 0x20000020 case 3 => 0x20000030
      case 4 => 0x00010020 case 5 => 0x00010030 case 6 => 0x20010020 case 7 => 0x20010030
      case 8 => 0x00000820 case 9 => 0x00000830 case 10 => 0x20000820 case 11 => 0x20000830
      case 12 => 0x00010820 case 13 => 0x00010830 case 14 => 0x20010820 case _ => 0x20010830
    else if i & 0x30 == 0x20 then
      match low
      case 0 => 0x00080000 case 1 => 0x00080010 case 2 => 0x20080000 case 3 => 0x20080010
      case 4 => 0x00090000 case 5 => 0x00090010 case 6 => 0x20090000 case 7 => 0x20090010
      case 8 => 0x00080800 case 9 => 0x00080810 case 10 => 0x20080800 case 11 => 0x20080810
      case 12 => 0x00090800 case 13 => 0x00090810 case 14 => 0x20090800 case _ => 0x20090810
    else
      match low
      case 0 => 0x00080020 case 1 => 0x00080030 case 2 => 0x20080020 case 3 => 0x20080030
      case 4 => 0x00090020 case 5 => 0x00090030 case 6 => 0x20090020 case 7 => 0x20090030
      case 8 => 0x00080820 case 9 => 0x00080830 case 10 => 0x20080820 case 11 => 0x20080830
      case 12 => 0x00090820 case 13 => 0x00090830 case 14 => 0x20090820 case _ => 0x20090830
  }

  function Spread1(i: bv6): Word {
    (if i & 1 != 0 then 0x02000000 else 0) | (if i & 2 != 0 then 0x00002000 else 0) |
    (if i & 4 != 0 then 0x00200000 else 0) | (if i & 8 != 0 then 0x00000004 else 0) |
    (if i & 16 != 0 then 0x00000400 else 0) | (if i & 32 != 0 then 0x10000000 else 0)
  }

  function Skb1(i: bv6): (w: Word)
    ensures w == Spread1(i)
  {
    var low := (i & 0xf) as bv4;
    if i & 0x30 == 0x00 then
      match low
      case 0 => 0x00000000 case 1 => 0x02000000 case 2 => 0x00002000 case 3 => 0x02002000
      case 4 => 0x00200000 case 5 => 0x02200000 case 6 => 0x00202000 case 7 => 0x02202000
      case 8 => 0x00000004 case 9 => 0x02000004 case 10 => 0x00002004 case 11 => 0x02002004
      case 12 => 0x00200004 case 13 => 0x02200004 case 14 => 0x00202004 case _ => 0x02202004
    else if i & 0x30 == 0x10 then
      match low
      case 0 => 0x00000400 case 1 => 0x02000400 case 2 => 0x00002400 case 3 => 0x02002400
      case 4 => 0x00200400 case 5 => 0x02200400 case 6 => 0x00202400 case 7 => 0x02202400
      case 8 => 0x00000404 case 9 => 0x02000404 case 10 => 0x00002404 case 11 => 0x02002404
      case 12 => 0x00200404 case 13 => 0x02200404 case 14 => 0x00202404 case _ => 0x02202404
    else if i & 0x30 == 0x20 then
      match low
      case 0 => 0x10000000 case 1 => 0x12000000 case 2 => 0x10002000 case 3 => 0x12002000
      case 4 => 0x10200000 case 5 => 0x12200000 case 6 => 0x10202000 case 7 => 0x12202000
      case 8 => 0x10000004 case 9 => 0x12000004 case 10 => 0x10002004 case 11 => 0x12002004
      case 12 => 0x10200004 case 13 => 0x12200004 case 14 => 0x10202004 case _ => 0x12202004
    else
      match low
      case 0 => 0x10000400 case 1 => 0x12000400 case 2 => 0x10002400 case 3 => 0x12002400
      case 4 => 0x10200400 case 5 => 0x12200400 case 6 => 0x10202400 case 7 => 0x12202400
      case 8 => 0x10000404 case 9 => 0x12000404 case 10 => 0x10002404 case 11 => 0x12002404
      case 12 => 0x10200404 case 13 => 0x12200404 case 14 => 0x10202404 case _ => 0x12202404
  }

  function Spread2(i: bv6): Word {
    (if i & 1 != 0 then 0x00000001 else 0) | (if i & 2 != 0 then 0x00040000 else 0) |
    (if i & 4 != 0 then 0x01000000 else 0) | (if i & 8 != 0 then 0x00000002 else 0) |
    (if i & 16 != 0 then 0x00000200 else 0) | (if i & 32 != 0 then 0x08000000 else 0)
  }

  function Skb2(i: bv6): (w: Word)
    ensures w == Spread2(i)
  {
    var low := (i & 0xf) as bv4;
    if i & 0x30 == 0x00 then
      match low
      case 0 => 0x00000000 case 1 => 0x00000001 case 2 => 0x00040000 case 3 => 0x00040001
      case 4 => 0x01000000 case 5 => 0x01000001 case 6 => 0x01040000 case 7 => 0x01040001
      case 8 => 0x00000002 case 9 => 0x00000003 case 10 => 0x00040002 case 11 => 0x00040003
      case 12 => 0x01000002 case 13 => 0x01000003 case 14 => 0x01040002 case _ => 0x01040003
    else if i & 0x30 == 0x10 then
      match low
      case 0 => 0x00000200 case 1 => 0x00000201 case 2 => 0x00040200 case 3 => 0x00040201
      case 4 => 0x01000200 case 5 => 0x01000201 case 6 => 0x01040200 case 7 => 0x01040201
      case 8 => 0x00000202 case 9 => 0x00000203 case 10 => 0x00040202 case 11 => 0x00040203
      case 12 => 0x01000202 case 13 => 0x01000203 case 14 => 0x01040202 case _ => 0x01040203
    else if i & 0x30 == 0x20 then
      match low
      case 0 => 0x08000000 case 1 => 0x08000001 case 2 => 0x08040000 case 3 => 0x08040001
      case 4 => 0x09000000 case 5 => 0x09000001 case 6 => 0x09040000 case 7 => 0x09040001
      case 8 => 0x08000002 case 9 => 0x08000003 case 10 => 0x08040002 case 11 => 0x08040003
      case 12 => 0x09000002 case 13 => 0x09000003 case 14 => 0x09040002 case _ => 0x09040003
    else
      match low
      case 0 => 0x08000200 case 1 => 0x08000201 case 2 => 0x08040200 case 3 => 0x08040201
      case 4 => 0x09000200 case 5 => 0x09000201 case 6 => 0x09040200 case 7 => 0x09040201
      case 8 => 0x08000202 case 9 => 0x08000203 case 10 => 0x08040202 case 11 => 0x08040203
      case 12 => 0x09000202 case 13 => 0x09000203 case 14 => 0x09040202 case _ => 0x09040203
  }

  function Spread3(i: bv6): Word {
    (if i & 1 != 0 then 0x00100000 else 0) | (if i & 2 != 0 then 0x00000100 else 0) |
    (if i & 4 != 0 then 0x00000008 else 0) | (if i & 8 != 0 then 0x00001000 else 0) |
    (if i & 16 != 0 then 0x04000000 else 0) | (if i & 32 != 0 then 0x00020000 else 0)
  }

  function Skb3(i: bv6): (w: Word)
    ensures w == Spread3(i)
  {
    var low := (i & 0xf) as bv4;
    if i & 0x30 == 0x00 then
      match low
      case 0 => 0x00000000 case 1 => 0x00100000 case 2 => 0x00000100 case 3 => 0x00100100
      case 4 => 0x00000008 case 5 => 0x00100008 case 6 => 0x00000108 case 7 => 0x00100108
      case 8 => 0x00001000 case 9 => 0x00101000 case 10 => 0x00001100 case 11 => 0x00101100
      case 12 => 0x00001008 case 13 => 0x00101008 case 14 => 0x00001108 case _ => 0x00101108
    else if i & 0x30 == 0x10 then
      match low
      case 0 => 0x04000000 case 1 => 0x04100000 case 2 => 0x04000100 case 3 => 0x04100100
      case 4 => 0x04000008 case 5 => 0x04100008 case 6 => 0x04000108 case 7 => 0x04100108
      case 8 => 0x04001000 case 9 => 0x04101000 case 10 => 0x04001100 case 11 => 0x04101100
      case 12 => 0x04001008 case 13 => 0x04101008 case 14 => 0x04001108 case _ => 0x04101108
    else if i & 0x30 == 0x20 then
      match low
      case 0 => 0x00020000 case 1 => 0x00120000 case 2 => 0x00020100 case 3 => 0x00120100
      case 4 => 0x00020008 case 5 => 0x00120008 case 6 => 0x00020108 case 7 => 0x00120108
      case 8 => 0x00021000 case 9 => 0x00121000 case 10 => 0x00021100 case 11 => 0x00121100
      case 12 => 0x00021008 case 13 => 0x00121008 case 14 => 0x00021108 case _ => 0x00121108
    else
      match low
      case 0 => 0x04020000 case 1 => 0x04120000 case 2 => 0x04020100 case 3 => 0x04120100
      case 4 => 0x04020008 case 5 => 0x04120008 case 6 => 0x04020108 case 7 => 0x04120108
      case 8 => 0x04021000 case 9 => 0x04121000 case 10 => 0x04021100 case 11 => 0x04121100
      case 12 => 0x04021008 case 13 => 0x04121008 case 14 => 0x04021108 case _ => 0x04121108
  }

  function Spread4(i: bv6): Word {
    (if i & 1 != 0 then 0x10000000 else 0) | (if i & 2 != 0 then 0x00010000 else 0) |
    (if i & 4 != 0 then 0x00000004 else 0) | (if i & 8 != 0 then 0x20000000 else 0) |
    (if i & 16 != 0 then 0x00100000 else 0) | (if i & 32 != 0 then 0x00001000 else 0)
  }

  function Skb4(i: bv6): (w: Word)
    ensures w == Spread4(i)
  {
    var low := (i & 0xf) as bv4;
    if i & 0x30 == 0x00 then
      match low
      case 0 => 0x00000000 case 1 => 0x10000000 case 2 => 0x00010000 case 3 => 0x10010000
      case 4 => 0x00000004 case 5 => 0x10000004 case 6 => 0x00010004 case 7 => 0x10010004
      case 8 => 0x20000000 case 9 => 0x30000000 case 10 => 0x20010000 case 11 => 0x30010000
      case 12 => 0x20000004 case 13 => 0x30000004 case 14 => 0x20010004 case _ => 0x30010004
    else if i & 0x30 == 0x10 then
      match low
      case 0 => 0x00100000 case 1 => 0x10100000 case 2 => 0x00110000 case 3 => 0x10110000
      case 4 => 0x00100004 case 5 => 0x10100004 case 6 => 0x00110004 case 7 => 0x10110004
      case 8 => 0x20100000 case 9 => 0x30100000 case 10 => 0x20110000 case 11 => 0x30110000
      case 12 => 0x20100004 case 13 => 0x30100004 case 14 => 0x20110004 case _ => 0x30110004
    else if i & 0x30 == 0x20 then
      match low
      case 0 => 0x00001000 case 1 => 0x10001000 case 2 => 0x00011000 case 3 => 0x10011000
      case 4 => 0x00001004 case 5 => 0x10001004 case 6 => 0x00011004 case 7 => 0x10011004
      case 8 => 0x20001000 case 9 => 0x30001000 case 10 => 0x20011000 case 11 => 0x30011000
      case 12 => 0x20001004 case 13 => 0x30001004 case 14 => 0x20011004 case _ => 0x30011004
    else
      match low
      case 0 => 0x00101000 case 1 => 0x10101000 case 2 => 0x00111000 case 3 => 0x10111000
      case 4 => 0x00101004 case 5 => 0x10101004 case 6 => 0x00111004 case 7 => 0x10111004
      case 8 => 0x20101000 case 9 => 0x30101000 case 10 => 0x20111000 case 11 => 0x30111000
      case 12 => 0x20101004 case 13 => 0x30101004 case 14 => 0x20111004 case _ => 0x30111004
  }

  function Spread5(i: bv6): Word {
    (if i & 1 != 0 then 0x08000000 else 0) | (if i & 2 != 0 then 0x00000008 else 0) |
    (if i & 4 != 0 then 0x00000400 else 0) | (if i & 8 != 0 then 0x00020000 else 0) |
    (if i & 16 != 0 then 0x00000001 else 0) | (if i & 32 != 0 then 0x02000000 else 0)
  }

  function Skb5(i: bv6): (w: Word)
    ensures w == Spread5(i)
  {
    var low := (i & 0xf) as bv4;
    if i & 0x30 == 0x00 then
      match low
      case 0 => 0x00000000 case 1 => 0x08000000 case 2 => 0x00000008 case 3 => 0x08000008
      case 4 => 0x00000400 case 5 => 0x08000400 case 6 => 0x00000408 case 7 => 0x08000408
      case 8 => 0x00020000 case 9 => 0x08020000 case 10 => 0x00020008 case 11 => 0x08020008
      case 12 => 0x00020400 case 13 => 0x08020400 case 14 => 0x00020408 case _ => 0x08020408
    else if i & 0x30 == 0x10 then
      match low
      case 0 => 0x00000001 case 1 => 0x08000001 case 2 => 0x00000009 case 3 => 0x08000009
      case 4 => 0x00000401 case 5 => 0x08000401 case 6 => 0x00000409 case 7 => 0x08000409
      case 8 => 0x00020001 case 9 => 0x08020001 case 10 => 0x00020009 case 11 => 0x08020009
      case 12 => 0x00020401 case 13 => 0x08020401 case 14 => 0x00020409 case _ => 0x08020409
    else if i & 0x30 == 0x20 then
      match low
      case 0 => 0x02000000 case 1 => 0x0a000000 case 2 => 0x02000008 case 3 => 0x0a000008
      case 4 => 0x02000400 case 5 => 0x0a000400 case 6 => 0x02000408 case 7 => 0x0a000408
      case 8 => 0x02020000 case 9 => 0x0a020000 case 10 => 0x02020008 case 11 => 0x0a020008
      case 12 => 0x02020400 case 13 => 0x0a020400 case 14 => 0x02020408 case _ => 0x0a020408
    else
      match low
      case 0 => 0x02000001 case 1 => 0x0a000001 case 2 => 0x02000009 case 3 => 0x0a000009
      case 4 => 0x02000401 case 5 => 0x0a000401 case 6 => 0x02000409 case 7 => 0x0a000409
      case 8 => 0x02020001 case 9 => 0x0a020001 case 10 => 0x02020009 case 11 => 0x0a020009
      case 12 => 0x02020401 case 13 => 0x0a020401 case 14 => 0x02020409 case _ => 0x0a020409
  }

  function Spread6(i: bv6): Word {
    (if i & 1 != 0 then 0x00000100 else 0) | (if i & 2 != 0 then 0x00080000 else 0) |
    (if i & 4 != 0 then 0x01000000 else 0) | (if i & 8 != 0 then 0x00000010 else 0) |
    (if i & 16 != 0 then 0x00200000 else 0) | (if i & 32 != 0 then 0x00000200 else 0)
  }

  function Skb6(i: bv6): (w: Word)
    ensures w == Spread6(i)
  {
    var low := (i & 0xf) as bv4;
    if i & 0x30 == 0x00 then
      match low
      case 0 => 0x00000000 case 1 => 0x00000100 case 2 => 0x00080000 case 3 => 0x00080100
      case 4 => 0x01000000 case 5 => 0x01000100 case 6 => 0x01080000 case 7 => 0x01080100
      case 8 => 0x00000010 case 9 => 0x00000110 case 10 => 0x00080010 case 11 => 0x00080110
      case 12 => 0x01000010 case 13 => 0x01000110 case 14 => 0x01080010 case _ => 0x01080110
    else if i & 0x30 == 0x10 then
      match low
      case 0 => 0x00200000 case 1 => 0x00200100 case 2 => 0x00280000 case 3 => 0x00280100
      case 4 => 0x01200000 case 5 => 0x01200100 case 6 => 0x01280000 case 7 => 0x01280100
      case 8 => 0x00200010 case 9 => 0x00200110 case 10 => 0x00280010 case 11 => 0x00280110
      case 12 => 0x01200010 case 13 => 0x01200110 case 14 => 0x01280010 case _ => 0x01280110
    else if i & 0x30 == 0x20 then
      match low
      case 0 => 0x00000200 case 1 => 0x00000300 case 2 => 0x00080200 case 3 => 0x00080300
      case 4 => 0x01000200 case 5 => 0x01000300 case 6 => 0x01080200 case 7 => 0x01080300
      case 8 => 0x00000210 case 9 => 0x00000310 case 10 => 0x00080210 case 11 => 0x00080310
      case 12 => 0x01000210 case 13 => 0x01000310 case 14 => 0x01080210 case _ => 0x01080310
    else
      match low
      case 0 => 0x00200200 case 1 => 0x00200300 case 2 => 0x00280200 case 3 => 0x00280300
      case 4 => 0x01200200 case 5 => 0x01200300 case 6 => 0x01280200 case 7 => 0x01280300
      case 8 => 0x00200210 case 9 => 0x00200310 case 10 => 0x00280210 case 11 => 0x00280310
      case 12 => 0x01200210 case 13 => 0x01200310 case 14 => 0x01280210 case _ => 0x01280310
  }

  function Spread7(i: bv6): Word {
    (if i & 1 != 0 then 0x04000000 else 0) | (if i & 2 != 0 then 0x00040000 else 0) |
    (if i & 4 != 0 then 0x00000002 else 0) | (if i & 8 != 0 then 0x00002000 else 0) |
    (if i & 16 != 0 then 0x00000020 else 0) | (if i & 32 != 0 then 0x00000800 else 0)
  }

  function Skb7(i: bv6): (w: Word)
    ensures w == Spread7(i)
  {
    var low := (i & 0xf) as bv4;
    if i & 0x30 == 0x00 then
      match low
      case 0 => 0x00000000 case 1 => 0x04000000 case 2 => 0x00040000 case 3 => 0x04040000
      case 4 => 0x00000002 case 5 => 0x04000002 case 6 => 0x00040002 case 7 => 0x04040002
      case 8 => 0x00002000 case 9 => 0x04002000 case 10 => 0x00042000 case 11 => 0x04042000
      case 12 => 0x00002002 case 13 => 0x04002002 case 14 => 0x00042002 case _ => 0x04042002
    else if i & 0x30 == 0x10 then
      match low
      case 0 => 0x00000020 case 1 => 0x04000020 case 2 => 0x00040020 case 3 => 0x04040020
      case 4 => 0x00000022 case 5 => 0x04000022 case 6 => 0x00040022 case 7 => 0x04040022
      case 8 => 0x00002020 case 9 => 0x04002020 case 10 => 0x00042020 case 11 => 0x04042020
      case 12 => 0x00002022 case 13 => 0x04002022 case 14 => 0x00042022 case _ => 0x04042022
    else if i & 0x30 == 0x20 then
      match low
      case 0 => 0x00000800 case 1 => 0x04000800 case 2 => 0x00040800 case 3 => 0x04040800
      case 4 => 0x00000802 case 5 => 0x04000802 case 6 => 0x00040802 case 7 => 0x04040802
      case 8 => 0x00002800 case 9 => 0x04002800 case 10 => 0x00042800 case 11 => 0x04042800
      case 12 => 0x00002802 case 13 => 0x04002802 case 14 => 0x00042802 case _ => 0x04042802
    else
      match low
      case 0 => 0x00000820 case 1 => 0x04000820 case 2 => 0x00040820 case 3 => 0x04040820
      case 4 => 0x00000822 case 5 => 0x04000822 case 6 => 0x00040822 case 7 => 0x04040822
      case 8 => 0x00002820 case 9 => 0x04002820 case 10 => 0x00042820 case 11 => 0x04042820
      case 12 => 0x00002822 case 13 => 0x04002822 case 14 => 0x00042822 case _ => 0x04042822
  }
}
