/** What setRXData makes of the sequence number of a packet (components/MCU/app/statGatherer.cc). */
module RxCounters {
  type U16 = n: nat | n < 0x10000
  type U32 = n: nat | n < 0x1_0000_0000

  /** The counters of one record, in the widths of the source. */
  datatype Counters = Counters(
    received: U32, receivedInInterval: U16, lost: U32, lostInInterval: U16,
    unordered: U32, duplicated: U32, last: U16, wraps: U16)

  function To16(n: int): U16 {
    n % 0x10000
  }

  function To32(n: int): U32 {
    n % 0x1_0000_0000
  }

  function First(sn: U16): Counters {
    Counters(1, 1, 0, 0, 0, 0, sn, 0)
  }

  function Received(c: Counters, sn: U16): Counters {
    c.(received := To32(c.received + 1), receivedInInterval := To16(c.receivedInInterval + 1), last := sn)
  }

  /** Some were lost: the count of the interval grows, and then the whole count by all of it. */
  function Lost(c: Counters, n: int, sn: U16): Counters {
    var inInterval := To16(c.lostInInterval + n);
    c.(lostInInterval := inInterval, lost := To32(c.lost + inInterval), last := sn)
  }

  function Unordered(c: Counters): Counters {
    c.(unordered := To32(c.unordered + 1), lost := To32(c.lost - 1), lostInInterval := To16(c.lostInInterval - 1))
  }

  function Wrapped(c: Counters): Counters {
    c.(wraps := To16(c.wraps + 1))
  }

  /** A later packet. */
  function Counted(c: Counters, sn: U16): Counters {
    if sn > c.last then
      var rest := sn - c.last;
      if rest == 1 then Received(c, sn)
      else if rest <= 0x7fff then Lost(c, sn - c.last + 1, sn)
      else Unordered(c)
    else if sn == c.last then c.(duplicated := To32(c.duplicated + 1))
    else
      var rest := c.last - sn;
      if rest > 0x7fff then
        if sn == c.last % 0xffff then Wrapped(Received(c, sn))
        else Wrapped(Lost(c, 0x7fff - To16(c.last + 1) + sn - 1, sn))
      else if rest < 0x7fff then Unordered(c)
      else c
  }

  // ---------- Which counter moves ----------

  /** How far ahead of the last sequence number a packet is, around the 16 bits. */
  function Ahead(c: Counters, sn: U16): U16 {
    (sn - c.last) % 0x10000
  }

  /** A packet is counted as received exactly when it is the next one, also across the end of the 16 bits. */
  lemma ReceivedIff(c: Counters, sn: U16)
    ensures Counted(c, sn).received == (c.received + 1) % 0x1_0000_0000 <==> Ahead(c, sn) == 1
    ensures Ahead(c, sn) != 1 ==> Counted(c, sn).received == c.received
  {
  }

  /** As a duplicate exactly when it is the last one again. */
  lemma DuplicatedIff(c: Counters, sn: U16)
    ensures Counted(c, sn).duplicated == (c.duplicated + 1) % 0x1_0000_0000 <==> sn == c.last
  {
  }

  /**
   As out of order when it is in the half of the numbers behind the last one; on
   the edge between the halves the order of the two numbers decides, and one
   distance is not counted at all.
   */
  lemma UnorderedIff(c: Counters, sn: U16)
    ensures Counted(c, sn).unordered == (c.unordered + 1) % 0x1_0000_0000 <==>
            Ahead(c, sn) > 0x8001 || (Ahead(c, sn) >= 0x8000 && sn > c.last)
    ensures Ahead(c, sn) == 0x8001 && sn < c.last ==> Counted(c, sn) == c
  {
  }

  /**
   When g packets are missing before one that does not wrap, the count of the
   interval grows by g+2, so that of all lost ones grows by g exactly when the
   interval stood at 65534.
   */
  lemma LostIsRightIff(c: Counters, sn: U16, g: nat)
    requires 1 <= g < 0x7fff && sn == c.last + 1 + g
    ensures Counted(c, sn).lost == (c.lost + g) % 0x1_0000_0000 <==> c.lostInInterval == 0xfffe
  {
  }

  /** The first gap of an interval: two lost packets are counted as four, and the one that came not as received. */
  lemma TwoLostAreFour()
    ensures Counted(First(7), 10) == First(7).(lost := 4, lostInInterval := 4, last := 10)
  {
  }

  // ---------- A stream in order ----------

  /** The counters after a first packet and n more in order. */
  function InOrder(sn: U16, n: nat): Counters {
    if n == 0 then First(sn) else Counted(InOrder(sn, n - 1), To16(sn + n))
  }

  /** However long a stream in order is, all its packets are counted as received, and nothing else is. */
  lemma {:induction false} InOrderCounts(sn: U16, n: nat)
    ensures InOrder(sn, n) ==
            Counters(To32(n + 1), To16(n + 1), 0, 0, 0, 0, To16(sn + n), To16((sn + n) / 0x10000))
  {
    if n > 0 {
      InOrderCounts(sn, n - 1);
      NextInOrder(InOrder(sn, n - 1), sn + n - 1, n);
    }
  }

  lemma NextInOrder(c: Counters, m: nat, n: nat)
    requires c.last == To16(m) && c.received == To32(n) && c.receivedInInterval == To16(n)
    requires c.wraps == To16(m / 0x10000)
    ensures Counted(c, To16(m + 1)) ==
            c.(received := To32(n + 1), receivedInInterval := To16(n + 1), last := To16(m + 1),
               wraps := To16((m + 1) / 0x10000))
  {
    hide Counted, To16, To32;
    NextNumber(m);
    NextIs(c, To16(m + 1));
    Successors(n);
    Successors(m / 0x10000);
  }

  lemma NextIs(c: Counters, sn: U16)
    requires sn == if c.last == 0xffff then 0 else c.last + 1
    ensures Counted(c, sn) == if c.last == 0xffff then Wrapped(Received(c, sn)) else Received(c, sn)
  {
  }

  lemma NextNumber(m: nat)
    ensures To16(m + 1) == if To16(m) == 0xffff then 0 else To16(m) + 1
    ensures (m + 1) / 0x10000 == m / 0x10000 + if To16(m) == 0xffff then 1 else 0
  {
  }

  lemma Successors(n: nat)
    ensures To16(To16(n) + 1) == To16(n + 1) && To32(To32(n) + 1) == To32(n + 1)
  {
    hide To16, To32;
    Successor16(n);
    Successor32(n);
  }

  lemma Successor16(n: nat)
    ensures To16(To16(n) + 1) == To16(n + 1)
  {
    var q, r := n / 0x10000, To16(n);
    assert n == 0x10000 * q + r;
    if r == 0xffff {
      assert n + 1 == 0x10000 * (q + 1);
    }
  }

  lemma Successor32(n: nat)
    ensures To32(To32(n) + 1) == To32(n + 1)
  {
    var q, r := n / 0x1_0000_0000, To32(n);
    assert n == 0x1_0000_0000 * q + r;
    if r == 0xffff_ffff {
      assert n + 1 == 0x1_0000_0000 * (q + 1);
    }
  }
}
