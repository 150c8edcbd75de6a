/**
 The mixing ring of components/MCU/app/mixer.cc as a window on an unbounded
 tape: writers add samples to tape cells, saturating, and the heartbeat reads
 the cells one after the other.
 */
module MixTape {
  const SAMPLE_SIZE: nat := 7680

  type Short = x: int | -32768 <= x <= 32767

  /** A cell nothing was mixed into: memset with 0xff. */
  const BLANK: Short := -1

  function Saturated(x: int): (r: Short)
    ensures -32768 <= x <= 32767 ==> r == x
    ensures x > 32767 ==> r == 32767
    ensures x < -32768 ==> r == -32768
  {
    if x > 32767 then 32767 else if x < -32768 then -32768 else x
  }

  datatype Write = Write(cell: nat, value: Short)

  /** The writes so far, in arrival order, on a background; cells below the head have been read. */
  datatype Tape = Tape(background: seq<Short>, writes: seq<Write>, head: nat)

  function Background(t: Tape, c: nat): Short {
    if c < |t.background| then t.background[c] else BLANK
  }

  /** What the writes make of one cell that held b. */
  function Fold(ws: seq<Write>, c: nat, b: Short): Short {
    if ws == [] then b
    else
      var r, w := Fold(ws[..|ws| - 1], c, b), ws[|ws| - 1];
      if w.cell == c then Saturated(r + w.value) else r
  }

  function Heard(t: Tape, c: nat): Short {
    Fold(t.writes, c, Background(t, c))
  }

  /** The first cell at or after the head that the ring keeps in slot p. */
  function CellAt(head: nat, p: nat): (c: nat)
    ensures head <= c < head + SAMPLE_SIZE && c % SAMPLE_SIZE == p % SAMPLE_SIZE
  {
    head + (p - head) % SAMPLE_SIZE
  }

  lemma CellAtIsUnique(head: nat, p: nat, c: nat)
    requires head <= c < head + SAMPLE_SIZE && c % SAMPLE_SIZE == p % SAMPLE_SIZE
    ensures c == CellAt(head, p)
  {
  }

  /** The ring holds the cells from the head on, each in its slot. */
  ghost predicate Refines(ring: seq<Short>, t: Tape) {
    && |ring| == SAMPLE_SIZE && |t.background| <= SAMPLE_SIZE
    && (forall k | 0 <= k < |t.writes| :: t.writes[k].cell < t.head + SAMPLE_SIZE)
    && (forall c: nat | t.head <= c < t.head + SAMPLE_SIZE :: ring[c % SAMPLE_SIZE] == Heard(t, c))
  }

  lemma BlankRefines(background: seq<Short>)
    requires |background| == SAMPLE_SIZE
    ensures Refines(background, Tape(background, [], 0))
  {
  }

  // ---------- Writing ----------

  function Mixed(t: Tape, w: Write): Tape {
    t.(writes := t.writes + [w])
  }

  lemma HeardAfterMix(t: Tape, w: Write, c: nat)
    ensures Heard(Mixed(t, w), c) == if w.cell == c then Saturated(Heard(t, c) + w.value) else Heard(t, c)
  {
    assert Mixed(t, w).writes[..|t.writes|] == t.writes;
  }

  /** Adding a sample to a ring slot is writing it to that slot's next cell. */
  lemma MixStep(ring: seq<Short>, t: Tape, p: nat, v: Short)
    requires Refines(ring, t)
    ensures var s := p % SAMPLE_SIZE;
            Refines(ring[s := Saturated(ring[s] + v)], Mixed(t, Write(CellAt(t.head, p), v)))
  {
    hide Heard, Saturated, CellAt;
    var w := Write(CellAt(t.head, p), v);
    var s := p % SAMPLE_SIZE;
    forall c: nat | t.head <= c < t.head + SAMPLE_SIZE
      ensures ring[s := Saturated(ring[s] + v)][c % SAMPLE_SIZE] == Heard(Mixed(t, w), c)
    {
      HeardAfterMix(t, w, c);
      if c % SAMPLE_SIZE == s {
        CellAtIsUnique(t.head, p, c);
      }
    }
  }

  /** The writes of a packet mixed in from ring position p on. */
  function Contribution(head: nat, p: nat, data: seq<Short>): (ws: seq<Write>)
    ensures |ws| == |data|
  {
    seq(|data|, i requires 0 <= i < |data| => Write(CellAt(head, p + i), data[i]))
  }

  lemma ContributionIsAhead(head: nat, p: nat, data: seq<Short>)
    ensures forall k | 0 <= k < |Contribution(head, p, data)| :: Contribution(head, p, data)[k].cell >= head
  {
    forall k | 0 <= k < |data|
      ensures Contribution(head, p, data)[k].cell >= head
    {
      assert Contribution(head, p, data)[k] == Write(CellAt(head, p + k), data[k]);
    }
  }

  /** A packet lies on the tape in one piece, in order, exactly when it fits in the cells ahead of the reader. */
  lemma ContributionIsContiguousIff(head: nat, p: nat, data: seq<Short>)
    ensures (forall i | 0 <= i < |data| :: Contribution(head, p, data)[i] == Write(CellAt(head, p) + i, data[i])) <==>
            (data == [] || CellAt(head, p) + |data| <= head + SAMPLE_SIZE)
  {
    var n, ws, c := |data|, Contribution(head, p, data), CellAt(head, p);
    assert forall i | 0 <= i < n :: ws[i] == Write(CellAt(head, p + i), data[i]);
    if data != [] && c + n > head + SAMPLE_SIZE {
      assert ws[n - 1] != Write(c + (n - 1), data[n - 1]);
    }
    forall i | 0 <= i < n && c + n <= head + SAMPLE_SIZE
      ensures ws[i] == Write(c + i, data[i])
    {
      assert CellAt(head, p + i) == c + i;
    }
  }

  /** The samples that do not fit ahead of the reader go to the cells it is about to read. */
  lemma RestWraps(head: nat, p: nat, data: seq<Short>, i: nat)
    requires i < |data| <= SAMPLE_SIZE && CellAt(head, p) + i >= head + SAMPLE_SIZE
    ensures Contribution(head, p, data)[i] == Write(CellAt(head, p) + i - SAMPLE_SIZE, data[i])
  {
    CellAtIsUnique(head, p + i, CellAt(head, p) + i - SAMPLE_SIZE);
  }

  /**
   The packet after a first window of 160 samples, from a source still at the front of the ring:
   half of its 320 samples lie a whole ring ahead and half in the next window.
  */
  lemma PacketInTwoPieces(data: seq<Short>)
    requires |data| == 320
    ensures var ws := Contribution(160, 0, data);
            && (forall i | 0 <= i < 160 :: ws[i] == Write(SAMPLE_SIZE + i, data[i]))
            && (forall i | 160 <= i < 320 :: ws[i] == Write(i, data[i]))
  {
    assert CellAt(160, 0) == SAMPLE_SIZE;
    forall i: nat | 160 <= i < 320
      ensures Contribution(160, 0, data)[i] == Write(i, data[i])
    {
      RestWraps(160, 0, data, i);
    }
  }

  // ---------- Reading ----------

  /** Windows of n cells one after the other never straddle the end of the ring, exactly when n divides its size. */
  lemma NoStraddleIff(n: nat)
    requires 0 < n <= SAMPLE_SIZE
    ensures (forall k: nat :: InOnePiece(k, n)) <==> SAMPLE_SIZE % n == 0
  {
    if SAMPLE_SIZE % n == 0 {
      forall k: nat
        ensures InOnePiece(k, n)
      {
        DivisorFits(k, n);
      }
    } else {
      var k := SAMPLE_SIZE / n;
      assert SAMPLE_SIZE - n < k * n < SAMPLE_SIZE;
      assert !InOnePiece(k, n);
    }
  }

  predicate InOnePiece(k: nat, n: nat) {
    k * n % SAMPLE_SIZE + n <= SAMPLE_SIZE
  }

  lemma DivisorFits(k: nat, n: nat)
    requires n > 0 && SAMPLE_SIZE % n == 0
    ensures InOnePiece(k, n)
  {
    var b := SAMPLE_SIZE / n;
    WindowInPiece(k / b, b, k % b, n);
  }

  /** Window r of lap q, when b windows are a lap. */
  lemma WindowInPiece(q: nat, b: nat, r: nat, n: nat)
    requires b * n == SAMPLE_SIZE && r < b
    ensures InOnePiece(q * b + r, n)
  {
    var start, end := r * n, (r + 1) * n;
    Distribute(q, b, r, n);
    TimesMonotone(r + 1, b, n);
    assert end == start + n;
    RestOfLap(q, start, (q * b + r) * n);
  }

  lemma RestOfLap(q: nat, start: nat, c: nat)
    requires c == q * SAMPLE_SIZE + start && start < SAMPLE_SIZE
    ensures c % SAMPLE_SIZE == start
  {
  }

  lemma Distribute(q: nat, b: nat, r: nat, n: nat)
    ensures (q * b + r) * n == q * (b * n) + r * n
  {
  }

  lemma TimesMonotone(a: nat, b: nat, n: nat)
    requires a <= b
    ensures a * n <= b * n
  {
  }

  /** The n slots from s on set back to blank. */
  function Cleared(ring: seq<Short>, s: nat, n: nat): (r: seq<Short>)
    requires s + n <= |ring|
    ensures |r| == |ring|
  {
    seq(|ring|, i requires 0 <= i < |ring| => if s <= i < s + n then BLANK else ring[i])
  }

  /**
   The n slots from the head's slot on are the next n cells, and clearing them leaves the ring
   showing the tape from there.
  */
  lemma BeatStep(ring: seq<Short>, t: Tape, n: nat)
    requires Refines(ring, t) && t.head % SAMPLE_SIZE + n <= SAMPLE_SIZE
    ensures var s := t.head % SAMPLE_SIZE;
            ring[s..s + n] == Cells(t, t.head, n) && Refines(Cleared(ring, s, n), t.(head := t.head + n))
  {
    hide Heard;
    var s, t' := t.head % SAMPLE_SIZE, t.(head := t.head + n);
    forall j | 0 <= j < n
      ensures ring[s..s + n][j] == Cells(t, t.head, n)[j]
    {
      assert (t.head + j) % SAMPLE_SIZE == s + j;
      assert ring[(t.head + j) % SAMPLE_SIZE] == Heard(t, t.head + j);
    }
    forall c: nat | t'.head <= c < t'.head + SAMPLE_SIZE
      ensures Cleared(ring, s, n)[c % SAMPLE_SIZE] == Heard(t', c)
    {
      CellAfterBeat(ring, t, n, c);
    }
  }

  lemma CellAfterBeat(ring: seq<Short>, t: Tape, n: nat, c: nat)
    requires Refines(ring, t) && t.head % SAMPLE_SIZE + n <= SAMPLE_SIZE
    requires t.head + n <= c < t.head + n + SAMPLE_SIZE
    ensures Cleared(ring, t.head % SAMPLE_SIZE, n)[c % SAMPLE_SIZE] == Heard(t.(head := t.head + n), c)
  {
    hide Heard;
    var s := t.head % SAMPLE_SIZE;
    HeardIgnoresHead(t, t.(head := t.head + n), c);
    if c < t.head + SAMPLE_SIZE {
      assert !(s <= c % SAMPLE_SIZE < s + n);
    } else {
      assert c % SAMPLE_SIZE == s + (c - t.head - SAMPLE_SIZE);
      FarCellIsBlank(t, c);
    }
  }

  /** The n cells from c on, as the writes so far leave them. */
  function Cells(t: Tape, c: nat, n: nat): (r: seq<Short>)
    ensures |r| == n
  {
    seq<Short>(n, j requires 0 <= j < n => Heard(t, c + j))
  }

  lemma HeardIgnoresHead(t: Tape, t': Tape, c: nat)
    requires t' == t.(head := t'.head)
    ensures Heard(t', c) == Heard(t, c)
  {
  }

  lemma FarCellIsBlank(t: Tape, c: nat)
    requires forall k | 0 <= k < |t.writes| :: t.writes[k].cell != c
    requires c >= |t.background|
    ensures Heard(t, c) == BLANK
  {
    FoldUntouched(t.writes, c, BLANK);
  }

  lemma {:induction false} FoldUntouched(ws: seq<Write>, c: nat, b: Short)
    requires forall k | 0 <= k < |ws| :: ws[k].cell != c
    ensures Fold(ws, c, b) == b
  {
    if ws != [] {
      FoldUntouched(ws[..|ws| - 1], c, b);
    }
  }

  /** A cell that was blank and got only zeros cannot be told from one nothing was mixed into. */
  lemma ZerosLeaveBlank(t: Tape, c: nat)
    requires Background(t, c) == BLANK
    requires forall k | 0 <= k < |t.writes| && t.writes[k].cell == c :: t.writes[k].value == 0
    ensures Heard(t, c) == BLANK
  {
    FoldZeros(t.writes, c, BLANK);
  }

  lemma {:induction false} FoldZeros(ws: seq<Write>, c: nat, b: Short)
    requires forall k | 0 <= k < |ws| && ws[k].cell == c :: ws[k].value == 0
    ensures Fold(ws, c, b) == b
  {
    if ws != [] {
      FoldZeros(ws[..|ws| - 1], c, b);
    }
  }

  // ---------- Everything read ----------

  /** Writes ahead of the reader change nothing that has been read. */
  lemma {:induction false} ReadIsFinal(t: Tape, ws: seq<Write>)
    requires forall k | 0 <= k < |ws| :: ws[k].cell >= t.head
    ensures Cells(t.(writes := t.writes + ws), 0, t.head) == Cells(t, 0, t.head)
  {
    hide Heard;
    if ws == [] {
      assert t.writes + ws == t.writes;
    } else {
      var n := |ws| - 1;
      ReadIsFinal(t, ws[..n]);
      var u := t.(writes := t.writes + ws[..n]);
      assert t.writes + ws == u.writes + [ws[n]];
      forall c | 0 <= c < t.head
        ensures Cells(Mixed(u, ws[n]), 0, t.head)[c] == Cells(u, 0, t.head)[c]
      {
        HeardAfterMix(u, ws[n], c);
      }
    }
  }

  lemma ReadAfterBeat(t: Tape, n: nat)
    ensures var t' := t.(head := t.head + n);
            Cells(t', 0, t'.head) == Cells(t, 0, t.head) + Cells(t, t.head, n)
  {
    hide Heard;
    var t' := t.(head := t.head + n);
    forall c | 0 <= c < t'.head
      ensures Cells(t', 0, t'.head)[c] == (Cells(t, 0, t.head) + Cells(t, t.head, n))[c]
    {
      HeardIgnoresHead(t, t', c);
    }
  }

  // ---------- Whole runs ----------

  /** A packet mixed in from a ring position, or a beat that sends. */
  datatype Op = Deliver(position: nat, data: seq<Short>) | Beat

  function Step(t: Tape, op: Op, n: nat): Tape {
    match op
    case Deliver(position, data) => t.(writes := t.writes + Contribution(t.head, position, data))
    case Beat => t.(head := t.head + n)
  }

  function Run(t: Tape, ops: seq<Op>, n: nat): Tape {
    if ops == [] then t else Step(Run(t, ops[..|ops| - 1], n), ops[|ops| - 1], n)
  }

  /** All samples sent on the way, each window as the tape was when it was read. */
  function Sent(t: Tape, ops: seq<Op>, n: nat): seq<Short> {
    if ops == [] then []
    else
      var u := Run(t, ops[..|ops| - 1], n);
      Sent(t, ops[..|ops| - 1], n) + if ops[|ops| - 1].Beat? then Cells(u, u.head, n) else []
  }

  /** Whatever the interleaving, what was sent is the final tape up to the head: no sample is lost, repeated or late. */
  lemma {:induction false} SentIsFinalTape(background: seq<Short>, ops: seq<Op>, n: nat)
    ensures var t := Run(Tape(background, [], 0), ops, n);
            Sent(Tape(background, [], 0), ops, n) == Cells(t, 0, t.head)
  {
    hide Cells, Contribution;
    var t := Tape(background, [], 0);
    if ops != [] {
      var u := Run(t, ops[..|ops| - 1], n);
      SentIsFinalTape(background, ops[..|ops| - 1], n);
      match ops[|ops| - 1]
      case Deliver(position, data) =>
        ContributionIsAhead(u.head, position, data);
        ReadIsFinal(u, Contribution(u.head, position, data));
      case Beat =>
        ReadAfterBeat(u, n);
    }
  }
}
