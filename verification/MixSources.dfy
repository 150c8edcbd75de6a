/**
 The sources of a mixing processor: the positions they write at, and where on the tape their
 packets come to lie (components/MCU/app/mixer.cc).
*/
module MixSources {
  import opened MixTape

  const MAX_SOURCES: nat := 256
  /** Milliseconds. */
  const DELAY: nat := 100

  type U16 = n: nat | n < 0x10000

  /** The noise of reset: 0xff less a magnitude up to 0xff. */
  type Noise = ns: seq<Short> | |ns| == SAMPLE_SIZE && forall k | 0 <= k < |ns| :: 0 <= ns[k] <= 0xff
    witness seq(SAMPLE_SIZE, _ => 0)

  /** Where a source writes next in the ring, -1 once the reader has come too close. */
  type Position = p: int | -1 <= p < SAMPLE_SIZE

  function Overtaken(samplePtr: nat, rate: nat, position: Position): (p: Position)
    ensures p == position || p == -1
  {
    var distance1 := samplePtr as real + 30.0 * (rate as real) * 2.0 / 1000.0;
    var distance2 := (samplePtr / 2) as real;
    if position != 0 && position as real < distance1 && position as real > distance2 then -1 else position
  }

  predicate Silent(window: seq<Short>) {
    forall k | 0 <= k < |window| :: window[k] == BLANK
  }

  datatype Sources = Sources(tape: Tape, pos: seq<Position>)

  /** A packet of a source, or a beat with the noise a reset would fill the ring with. */
  datatype Event = Arrival(source: nat, mark: bool, data: seq<Short>) | Beat(encoded: bool, noise: Noise)

  predicate Possible(e: Event) {
    e.Arrival? ==> e.source < MAX_SOURCES
  }

  /** Where a packet is mixed in: with a mark, or after being overtaken, a delay ahead of the reader. */
  function StartOf(samplePtr: nat, position: Position, mark: bool, rate: U16): nat {
    if mark || position == -1 then samplePtr + DELAY * rate * 2 / 1000 else position
  }

  function Start(st: Sources, s: nat, mark: bool, rate: U16): nat
    requires s < |st.pos|
  {
    StartOf(st.tape.head % SAMPLE_SIZE, st.pos[s], mark, rate)
  }

  /** What deliver or heartBeat makes of the sources; a window is n samples. */
  function After(st: Sources, e: Event, rate: U16, n: nat): (r: Sources)
    requires |st.pos| == MAX_SOURCES && Possible(e)
    ensures |r.pos| == MAX_SOURCES
  {
    match e
    case Arrival(s, mark, data) =>
      var start := Start(st, s, mark, rate);
      Sources(
        st.tape.(writes := st.tape.writes + Contribution(st.tape.head, start, data)),
        st.pos[s := (start + |data|) % SAMPLE_SIZE])
    case Beat(encoded, noise) =>
      if Silent(Cells(st.tape, st.tape.head, n)) then
        Sources(Tape(noise, [], 0), seq(MAX_SOURCES, _ => 0))
      else if !encoded then st
      else
        var head := st.tape.head + n;
        Sources(
          st.tape.(head := head),
          seq(MAX_SOURCES, k requires 0 <= k < MAX_SOURCES => Overtaken(head % SAMPLE_SIZE, rate, st.pos[k])))
  }

  function Played(st: Sources, es: seq<Event>, rate: U16, n: nat): (r: Sources)
    requires |st.pos| == MAX_SOURCES && forall e | e in es :: Possible(e)
    ensures |r.pos| == MAX_SOURCES
  {
    if es == [] then st else After(Played(st, es[..|es| - 1], rate, n), es[|es| - 1], rate, n)
  }

  // ---------- One source among the others ----------

  /** The samples of a source's packets. */
  function SamplesOf(es: seq<Event>, s: nat): seq<Short> {
    if es == [] then []
    else
      var xs, e := SamplesOf(es[..|es| - 1], s), es[|es| - 1];
      if e.Arrival? && e.source == s then xs + e.data else xs
  }

  /** What those packets wrote to the tape. */
  function WritesOf(st: Sources, es: seq<Event>, s: nat, rate: U16, n: nat): seq<Write>
    requires |st.pos| == MAX_SOURCES && s < MAX_SOURCES && forall e | e in es :: Possible(e)
  {
    if es == [] then []
    else
      var before, e := es[..|es| - 1], es[|es| - 1];
      var u := Played(st, before, rate, n);
      var ws := WritesOf(st, before, s, rate, n);
      if e.Arrival? && e.source == s then ws + Contribution(u.tape.head, Start(u, s, e.mark, rate), e.data) else ws
  }

  /** The samples one after the other from a cell on. */
  function Laid(from: nat, data: seq<Short>): (ws: seq<Write>)
    ensures |ws| == |data|
  {
    seq(|data|, i requires 0 <= i < |data| => Write(from + i, data[i]))
  }

  /** No packet of the source is marked or comes after it was overtaken, and no beat is a reset. */
  predicate Steady(st: Sources, es: seq<Event>, s: nat, rate: U16, n: nat)
    requires |st.pos| == MAX_SOURCES && s < MAX_SOURCES && forall e | e in es :: Possible(e)
  {
    es != [] ==>
      var before, e := es[..|es| - 1], es[|es| - 1];
      var u := Played(st, before, rate, n);
      && Steady(st, before, s, rate, n)
      && match e
         case Arrival(source, mark, _) => source == s ==> !mark && u.pos[s] != -1
         case Beat(_, _) => !Silent(Cells(u.tape, u.tape.head, n))
  }

  /** Each packet of the source comes when the cells it should go to are ahead of the reader and within the ring. */
  predicate InTime(st: Sources, es: seq<Event>, s: nat, from: nat, rate: U16, n: nat)
    requires |st.pos| == MAX_SOURCES && forall e | e in es :: Possible(e)
  {
    es != [] ==>
      var before, e := es[..|es| - 1], es[|es| - 1];
      var u := Played(st, before, rate, n);
      && InTime(st, before, s, from, rate, n)
      && (e.Arrival? && e.source == s ==>
           var c := from + |SamplesOf(before, s)|;
           e.data == [] || (u.tape.head <= c && c + |e.data| <= u.tape.head + SAMPLE_SIZE))
  }

  /** After a packet, the source stands at the slot of the cell behind it. */
  lemma StandsBehind(st: Sources, e: Event, rate: U16, n: nat)
    requires |st.pos| == MAX_SOURCES && Possible(e) && e.Arrival?
    ensures var from := CellAt(st.tape.head, Start(st, e.source, e.mark, rate));
            After(st, e, rate, n).pos[e.source] == (from + |e.data|) % SAMPLE_SIZE
  {
    hide CellAt, Contribution;
    var start := Start(st, e.source, e.mark, rate);
    AddToRest(start, |e.data|);
    AddToRest(CellAt(st.tape.head, start), |e.data|);
  }

  lemma AddToRest(c: nat, k: nat)
    ensures (c % SAMPLE_SIZE + k) % SAMPLE_SIZE == (c + k) % SAMPLE_SIZE
  {
  }

  /** In a steady run the position is that of the cell behind the samples so far. */
  lemma {:induction false} PositionFollows(st: Sources, es: seq<Event>, s: nat, from: nat, rate: U16, n: nat)
    requires |st.pos| == MAX_SOURCES && s < MAX_SOURCES && forall e | e in es :: Possible(e)
    requires Steady(st, es, s, rate, n) && st.pos[s] == from % SAMPLE_SIZE
    ensures var p := Played(st, es, rate, n).pos[s];
            p == -1 || p == (from + |SamplesOf(es, s)|) % SAMPLE_SIZE
  {
    hide Contribution, Cells, Silent, Overtaken;
    if es != [] {
      var before, e := es[..|es| - 1], es[|es| - 1];
      PositionFollows(st, before, s, from, rate, n);
      if e.Arrival? && e.source == s {
        AddToRest(from + |SamplesOf(before, s)|, |e.data|);
      }
    }
  }

  /** A packet mixed in at the slot of a cell lies from that cell on exactly when it is in time. */
  lemma PacketIsLaidIff(head: nat, c: nat, data: seq<Short>)
    ensures Contribution(head, c % SAMPLE_SIZE, data) == Laid(c, data) <==>
            data == [] || (head <= c && c + |data| <= head + SAMPLE_SIZE)
  {
    var p := c % SAMPLE_SIZE;
    var ws := Contribution(head, p, data);
    ContributionIsContiguousIff(head, p, data);
    if data != [] {
      assert ws[0] == Write(CellAt(head, p + 0), data[0]) && Laid(c, data)[0] == Write(c, data[0]);
      if CellAt(head, p) == c {
        assert ws == Laid(c, data) <==> forall i | 0 <= i < |data| :: ws[i] == Write(c + i, data[i]);
      }
    }
  }

  lemma LaidConcat(from: nat, a: seq<Short>, b: seq<Short>)
    ensures Laid(from, a + b) == Laid(from, a) + Laid(from + |a|, b)
  {
  }

  /**
   However packets of all sources and beats are interleaved, the samples of a
   source that is not marked, overtaken or reset lie on the tape one after the
   other exactly when each of its packets is in time.
   */
  lemma {:induction false} StreamIsGaplessIff(st: Sources, es: seq<Event>, s: nat, from: nat, rate: U16, n: nat)
    requires |st.pos| == MAX_SOURCES && s < MAX_SOURCES && forall e | e in es :: Possible(e)
    requires Steady(st, es, s, rate, n) && st.pos[s] == from % SAMPLE_SIZE
    ensures WritesOf(st, es, s, rate, n) == Laid(from, SamplesOf(es, s)) <==> InTime(st, es, s, from, rate, n)
    ensures |WritesOf(st, es, s, rate, n)| == |SamplesOf(es, s)|
  {
    hide Contribution, Cells, Silent, Overtaken, Laid, After;
    if es != [] {
      var before, e := es[..|es| - 1], es[|es| - 1];
      var u, xs := Played(st, before, rate, n), SamplesOf(before, s);
      StreamIsGaplessIff(st, before, s, from, rate, n);
      if e.Arrival? && e.source == s {
        PositionFollows(st, before, s, from, rate, n);
        assert Start(u, s, e.mark, rate) == u.pos[s] == (from + |xs|) % SAMPLE_SIZE;
        PacketIsLaidIff(u.tape.head, from + |xs|, e.data);
        LaidConcat(from, xs, e.data);
        var ws, part := WritesOf(st, before, s, rate, n), Contribution(u.tape.head, u.pos[s], e.data);
        SameParts(ws, part, Laid(from, xs), Laid(from + |xs|, e.data));
      }
    }
  }

  /**
   So with the packet before them, marked or not: from a mark on, a source's
   samples lie one after the other exactly when all are in time.
   */
  lemma SinceMarkIff(st: Sources, e: Event, es: seq<Event>, rate: U16, n: nat)
    requires |st.pos| == MAX_SOURCES && Possible(e) && e.Arrival? && forall x | x in es :: Possible(x)
    requires Steady(After(st, e, rate, n), es, e.source, rate, n)
    ensures var s, head, next := e.source, st.tape.head, After(st, e, rate, n);
            var start := Start(st, s, e.mark, rate);
            var from := CellAt(head, start);
            Contribution(head, start, e.data) + WritesOf(next, es, s, rate, n) ==
            Laid(from, e.data + SamplesOf(es, s)) <==>
            && (e.data == [] || from + |e.data| <= head + SAMPLE_SIZE)
            && InTime(next, es, s, from + |e.data|, rate, n)
  {
    hide CellAt, Contribution, Laid, After, Start, WritesOf, InTime, Steady, SamplesOf;
    var s, head, next := e.source, st.tape.head, After(st, e, rate, n);
    var start := Start(st, s, e.mark, rate);
    var from := CellAt(head, start);
    StandsBehind(st, e, rate, n);
    StreamIsGaplessIff(next, es, s, from + |e.data|, rate, n);
    SlotOfCell(head, start, e.data);
    PacketIsLaidIff(head, from, e.data);
    LaidConcat(from, e.data, SamplesOf(es, s));
    SameParts(Contribution(head, start, e.data), WritesOf(next, es, s, rate, n),
              Laid(from, e.data), Laid(from + |e.data|, SamplesOf(es, s)));
  }

  lemma SlotOfCell(head: nat, p: nat, data: seq<Short>)
    ensures Contribution(head, CellAt(head, p) % SAMPLE_SIZE, data) == Contribution(head, p, data)
  {
    hide CellAt;
    forall i | 0 <= i < |data|
      ensures Contribution(head, CellAt(head, p) % SAMPLE_SIZE, data)[i] == Contribution(head, p, data)[i]
    {
      SameSlot(head, p, i);
    }
  }

  lemma SameSlot(head: nat, p: nat, i: nat)
    ensures CellAt(head, CellAt(head, p) % SAMPLE_SIZE + i) == CellAt(head, p + i)
  {
    var c := CellAt(head, p + i);
    AddToRest(p, i);
    CellAtIsUnique(head, CellAt(head, p) % SAMPLE_SIZE + i, c);
  }

  lemma SameParts<T>(a: seq<T>, b: seq<T>, c: seq<T>, d: seq<T>)
    requires |a| == |c|
    ensures a + b == c + d <==> a == c && b == d
  {
    if a + b == c + d {
      assert (a + b)[..|a|] == a && (c + d)[..|a|] == c;
      assert (a + b)[|a|..] == b && (c + d)[|a|..] == d;
    }
  }

  // ---------- When a marked packet is heard ----------

  /** The beats that send. */
  function SentBeats(es: seq<Event>): nat {
    if es == [] then 0
    else SentBeats(es[..|es| - 1]) + if es[|es| - 1].Beat? && es[|es| - 1].encoded then 1 else 0
  }

  /** No beat finds an empty window, which would be a reset. */
  predicate NoReset(st: Sources, es: seq<Event>, rate: U16, n: nat)
    requires |st.pos| == MAX_SOURCES && forall e | e in es :: Possible(e)
  {
    es != [] ==>
      var before, e := es[..|es| - 1], es[|es| - 1];
      var u := Played(st, before, rate, n);
      NoReset(st, before, rate, n) && (e.Beat? ==> !Silent(Cells(u.tape, u.tape.head, n)))
  }

  lemma {:induction false} HeadMoves(st: Sources, es: seq<Event>, rate: U16, n: nat)
    requires |st.pos| == MAX_SOURCES && forall e | e in es :: Possible(e)
    requires NoReset(st, es, rate, n)
    ensures Played(st, es, rate, n).tape.head == st.tape.head + SentBeats(es) * n
  {
    hide After, Cells, Silent;
    if es != [] {
      var before, e := es[..|es| - 1], es[|es| - 1];
      HeadMoves(st, before, rate, n);
      EventMovesHead(Played(st, before, rate, n), e, rate, n);
      OneMore(SentBeats(before), n);
    }
  }

  lemma EventMovesHead(st: Sources, e: Event, rate: U16, n: nat)
    requires |st.pos| == MAX_SOURCES && Possible(e)
    requires e.Beat? ==> !Silent(Cells(st.tape, st.tape.head, n))
    ensures After(st, e, rate, n).tape.head == st.tape.head + if e.Beat? && e.encoded then n else 0
  {
    hide Contribution, Cells, Silent, Overtaken;
  }

  lemma OneMore(k: nat, n: nat)
    ensures (k + 1) * n == k * n + n
  {
  }

  /** 200 milliseconds are a whole number of windows when a window is. */
  lemma WindowsIn200(rate: nat, n: nat, ms: nat)
    requires ms > 0 && 200 % ms == 0 && 1000 * n == ms * rate
    ensures 200 * rate / 1000 == 200 / ms * n
  {
    var q := 200 / ms;
    assert q * ms == 200;
    TimesTwice(q, ms, rate);
    TimesTwice(q, 1000, n);
    assert 1000 * (q * n) == 200 * rate;
  }

  lemma TimesTwice(a: nat, b: nat, c: nat)
    ensures a * (b * c) == a * b * c && a * (b * c) == b * (a * c)
  {
  }

  /**
   The first sample of a packet with a mark, or of a source that was overtaken,
   goes to the cell that opens the window 200 ms after the next one, if and only
   if those 200 ms are less than the ring.
   */
  lemma MarkedStartIff(st: Sources, e: Event, rate: U16, n: nat, ms: nat)
    requires |st.pos| == MAX_SOURCES && Possible(e) && e.Arrival? && e.data != []
    requires e.mark || st.pos[e.source] == -1
    requires ms > 0 && 200 % ms == 0 && 1000 * n == ms * rate
    ensures var ws := After(st, e, rate, n).tape.writes;
            && |ws| == |st.tape.writes| + |e.data| && ws[|st.tape.writes|].value == e.data[0]
            && (ws[|st.tape.writes|].cell == st.tape.head + 200 / ms * n <==> 200 * rate / 1000 < 7680)
  {
    hide After, Start, CellAt;
    var d := 200 * rate / 1000;
    WindowsIn200(rate, n, ms);
    FirstWrite(st, e, rate, n);
    StartIsDelayed(st, e, rate);
    DelayedCell(st.tape.head, d);
    assert d % SAMPLE_SIZE == d <==> d < SAMPLE_SIZE;
  }

  lemma FirstWrite(st: Sources, e: Event, rate: U16, n: nat)
    requires |st.pos| == MAX_SOURCES && Possible(e) && e.Arrival? && e.data != []
    ensures var ws := After(st, e, rate, n).tape.writes;
            && |ws| == |st.tape.writes| + |e.data|
            && ws[|st.tape.writes|] ==
               Write(CellAt(st.tape.head, Start(st, e.source, e.mark, rate)), e.data[0])
  {
    hide CellAt, Start;
  }

  lemma StartIsDelayed(st: Sources, e: Event, rate: U16)
    requires |st.pos| == MAX_SOURCES && Possible(e) && e.Arrival? && (e.mark || st.pos[e.source] == -1)
    ensures Start(st, e.source, e.mark, rate) == st.tape.head % SAMPLE_SIZE + 200 * rate / 1000
  {
    assert DELAY * rate * 2 == 200 * rate;
  }

  lemma DelayedCell(head: nat, d: nat)
    ensures CellAt(head, head % SAMPLE_SIZE + d) == head + d % SAMPLE_SIZE
  {
    var c := head + d % SAMPLE_SIZE;
    AddToRest(head, d);
    AddToRest(d, head);
    CellAtIsUnique(head, head % SAMPLE_SIZE + d, c);
  }

  /** In any run from there on, exactly 200/ms beats send before the one that carries that sample. */
  lemma MarkedIsHeardAfter(st: Sources, e: Event, es: seq<Event>, rate: U16, n: nat, ms: nat)
    requires |st.pos| == MAX_SOURCES && Possible(e) && e.Arrival? && e.data != []
    requires e.mark || st.pos[e.source] == -1
    requires ms > 0 && 200 % ms == 0 && 1000 * n == ms * rate && n > 0 && 200 * rate / 1000 < 7680
    requires (forall x | x in es :: Possible(x)) && NoReset(After(st, e, rate, n), es, rate, n)
    ensures var next := After(st, e, rate, n);
            && |next.tape.writes| > |st.tape.writes|
            && var head, c := Played(next, es, rate, n).tape.head, next.tape.writes[|st.tape.writes|].cell;
               && (head <= c < head + n <==> SentBeats(es) == 200 / ms)
               && (SentBeats(es) == 200 / ms ==> c == head)
  {
    hide After, Played, NoReset;
    MarkedStartIff(st, e, rate, n, ms);
    ArrivalKeepsHead(st, e, rate, n);
    HeadMoves(After(st, e, rate, n), es, rate, n);
    SameWindow(SentBeats(es), 200 / ms, n);
  }

  lemma ArrivalKeepsHead(st: Sources, e: Event, rate: U16, n: nat)
    requires |st.pos| == MAX_SOURCES && Possible(e) && e.Arrival?
    ensures After(st, e, rate, n).tape.head == st.tape.head
  {
  }

  lemma SameWindow(k: nat, q: nat, n: nat)
    requires n > 0
    ensures k * n <= q * n < k * n + n <==> k == q
  {
    OneMore(k, n);
    OneMore(q, n);
    if k < q {
      TimesMonotone(k + 1, q, n);
    } else if k > q {
      TimesMonotone(q + 1, k, n);
    }
  }

  // ---------- When a source is overtaken ----------

  /**
   A position becomes -1 exactly when it is above half of the reader's and less
   than 60 ms of samples ahead of it.
   */
  lemma OvertakenIff(samplePtr: nat, rate: nat, position: Position)
    ensures Overtaken(samplePtr, rate, position) ==
            if position > samplePtr / 2 && 1000 * (position - samplePtr) < 60 * rate then -1 else position
  {
  }
}
