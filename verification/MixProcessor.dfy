/** The mixing processor (mixProcessor_t of components/MCU/app/mixer.cc). */
module MixProcessor {
  import opened Options
  import opened MixSources
  import opened MixTape

  /** The cells the source allocates; the mixer uses the first SAMPLE_SIZE. */
  const ROOM: nat := 44100

  type U32 = n: nat | n < 0x1_0000_0000

  datatype Timeval = Timeval(sec: int, usec: int)

  /** The header fields that change from packet to packet, and the samples given to the encoder. */
  datatype Packet = Packet(marker: bool, seqnum: U16, timestamp: U32, pcm: seq<Short>)

  /** Integer division that truncates towards zero. */
  function Truncated(a: int, b: nat): (q: int)
    requires b > 0
    ensures 0 <= a ==> q * b <= a < q * b + b
    ensures a <= 0 ==> q * b - b < a <= q * b
  {
    if a >= 0 then a / b else -(-a / b)
  }

  function BlankCells(): (r: seq<Short>)
    ensures |r| == SAMPLE_SIZE && forall k | 0 <= k < |r| :: r[k] == BLANK
  {
    seq<Short>(SAMPLE_SIZE, _ => BLANK)
  }

  function CellsIn(beats: nat, samples: nat): nat {
    beats * samples
  }

  class MixProcessor {
    const rate: U16
    const msPerPacket: U16
    const sample: array<Short>
    const pos: array<int>
    var samplePtr: nat
    var period: nat
    var time: Timeval
    var SQ: U16
    var TS: U32
    var M: bool

    /** What has been mixed since the last reset. */
    ghost var tape: Tape
    ghost var beats: nat
    /** What has been sent since the last reset. */
    ghost var sent: seq<Short>

    function Samples(): nat
      reads {}
    {
      msPerPacket * rate / 1000 % 0x10000
    }

    ghost predicate Valid()
      reads this, sample, pos
    {
      && sample.Length == ROOM && pos.Length == MAX_SOURCES
      && Samples() > 0 && SAMPLE_SIZE % Samples() == 0
      && (forall k | 0 <= k < MAX_SOURCES :: -1 <= pos[k] < SAMPLE_SIZE)
      && tape.head == CellsIn(beats, Samples()) && samplePtr == tape.head % SAMPLE_SIZE
      && Refines(sample[..SAMPLE_SIZE], tape)
      && sent == Cells(tape, 0, tape.head)
    }

    /** A packet of samples of the rate must fill the ring a whole number of times. */
    constructor (rate: U16, msPerPacket: U16, SQ: U16, TS: U32)
      requires var n := msPerPacket * rate / 1000 % 0x10000; n > 0 && SAMPLE_SIZE % n == 0
      ensures Valid() && fresh(sample) && fresh(pos)
      ensures tape == Tape(BlankCells(), [], 0) && sent == [] && forall k | 0 <= k < MAX_SOURCES :: pos[k] == 0
      ensures period == 0 && time == Timeval(0, 0) && !M && this.SQ == SQ && this.TS == TS
    {
      this.rate, this.msPerPacket := rate, msPerPacket;
      pos := new int[MAX_SOURCES](_ => 0);
      sample := new Short[ROOM](_ => BLANK);
      samplePtr, period, time := 0, 0, Timeval(0, 0);
      this.SQ, this.TS, M := SQ, TS, false;
      tape, beats, sent := Tape(BlankCells(), [], 0), 0, [];
      new;
      assert sample[..SAMPLE_SIZE] == BlankCells();
      BlankRefines(BlankCells());
    }

    method Deliver(data: seq<Short>, len: nat, ID: nat, actualTime: Timeval, reset: bool)
      requires Valid() && ID < MAX_SOURCES && len <= |data| && len < 0x10000
      modifies this`tape, this`sent, this`period, this`time, sample, pos
      ensures Valid() && sent == old(sent)
      ensures var start := old(StartOf(samplePtr, pos[ID], reset, rate));
              && tape == old(tape).(writes := old(tape).writes + Contribution(tape.head, start, data[..len]))
              && pos[ID] == (start + len) % SAMPLE_SIZE
      ensures forall k | 0 <= k < MAX_SOURCES && k != ID :: pos[k] == old(pos[k])
      ensures time == if old(time) == Timeval(0, 0) then actualTime else old(time)
      ensures period ==
              if old(period) == 0 && Waited(actualTime, time) > DELAY then msPerPacket * 1000 else old(period)
    {
      hide Refines, Cells, Contribution, Samples, CellsIn;
      if reset || pos[ID] == -1 {
        pos[ID] := samplePtr + DELAY * rate * 2 / 1000;
      }
      var position := pos[ID] % 0x10000;
      assert position == old(StartOf(samplePtr, pos[ID], reset, rate));
      Mix(data, len, position);
      pos[ID] := (position + len) % SAMPLE_SIZE;
      Buffer(actualTime);
    }

    /** Sending starts once packets have been arriving for longer than the delay. */
    method Buffer(actualTime: Timeval)
      modifies this`period, this`time
      ensures time == if old(time) == Timeval(0, 0) then actualTime else old(time)
      ensures period ==
              if old(period) == 0 && Waited(actualTime, time) > DELAY then msPerPacket * 1000 else old(period)
    {
      if time.sec == 0 && time.usec == 0 {
        time := actualTime;
      }
      var millis := 0;
      if period == 0 {
        millis := (actualTime.sec - time.sec) * 1000 + Truncated(actualTime.usec - time.usec, 1000);
      }
      if millis > DELAY {
        period := msPerPacket * 1000;
      }
    }

    static function Waited(now: Timeval, since: Timeval): int {
      (now.sec - since.sec) * 1000 + Truncated(now.usec - since.usec, 1000)
    }

    /** The loop of deliver. */
    method Mix(data: seq<Short>, len: nat, position: nat)
      requires sample.Length == ROOM && len <= |data| && Refines(sample[..SAMPLE_SIZE], tape)
      requires sent == Cells(tape, 0, tape.head)
      modifies this`tape, sample
      ensures tape == old(tape).(writes := old(tape).writes + Contribution(tape.head, position, data[..len]))
      ensures Refines(sample[..SAMPLE_SIZE], tape) && sent == Cells(tape, 0, tape.head)
    {
      hide Refines, CellAt, Cells, Contribution;
      ghost var t0 := tape;
      NoContribution(t0.head, position);
      var i := 0;
      while i < len
        invariant 0 <= i <= len
        invariant tape == t0.(writes := t0.writes + Contribution(t0.head, position, data[..i]))
        invariant Refines(sample[..SAMPLE_SIZE], tape)
      {
        var flowPos := (position + i) % SAMPLE_SIZE;
        var data1: int, data2: int := sample[flowPos], data[i];
        var tmpData := data1 + data2;
        if tmpData > 32767 {
          tmpData := 32767;
        }
        if tmpData < -32768 {
          tmpData := -32768;
        }
        ghost var ring := sample[..SAMPLE_SIZE];
        sample[flowPos] := tmpData;
        assert sample[..SAMPLE_SIZE] == ring[flowPos := Saturated(ring[flowPos] + data[i])];
        MixStep(ring, tape, position + i, data[i]);
        ContributionGrows(t0.head, position, data, i);
        tape := Mixed(tape, Write(CellAt(tape.head, position + i), data[i]));
        assert tape.writes == t0.writes + Contribution(t0.head, position, data[..i + 1]);
        i := i + 1;
      }
      ContributionIsAhead(t0.head, position, data[..len]);
      ReadIsFinal(t0, Contribution(t0.head, position, data[..len]));
    }

    static lemma ContributionGrows(head: nat, p: nat, data: seq<Short>, i: nat)
      requires i < |data|
      ensures Contribution(head, p, data[..i + 1]) ==
              Contribution(head, p, data[..i]) + [Write(CellAt(head, p + i), data[i])]
    {
      hide CellAt;
    }

    static lemma NoContribution(head: nat, p: nat)
      ensures Contribution(head, p, []) == []
    {
    }

    /** The samples a beat would read. */
    ghost function Window(): seq<Short>
      reads this
    {
      Cells(tape, tape.head, Samples())
    }

    /** The test of heartBeat. */
    method CheckMixed() returns (isEmpty: bool)
      requires Valid()
      ensures isEmpty == Silent(Window())
    {
      hide Refines, Cells;
      ghost var n := Samples();
      SamplePtrFits();
      BeatStep(sample[..SAMPLE_SIZE], tape, n);
      ghost var window := Window();
      var samples := msPerPacket * rate / 1000 % 0x10000;
      var j := 0;
      while j < samples
        invariant 0 <= j <= samples == n
        invariant forall k | 0 <= k < j :: window[k] == BLANK
      {
        assert sample[..SAMPLE_SIZE][samplePtr..samplePtr + n][j] == window[j];
        if sample[samplePtr + j] != 0xffff && sample[samplePtr + j] != -1 {
          return false;
        }
        j := j + 1;
      }
      return true;
    }

    lemma SamplePtrFits()
      requires Valid()
      ensures samplePtr + Samples() <= SAMPLE_SIZE
    {
      DivisorFits(beats, Samples());
    }

    /**
     The periodic beat. n is what the encoder returns, None when there is no
     codec; noise is what a reset would fill the ring with.
     */
    method HeartBeat(n: Option<int>, noise: Noise) returns (pkt: Option<Packet>)
      requires Valid()
      modifies this, sample, pos
      ensures Valid() && TS == (old(TS) + msPerPacket * 8) % 0x1_0000_0000
      ensures Silent(old(Window())) ==>
                && pkt == None && tape == Tape(noise, [], 0) && sent == []
                && period == 0 && time == Timeval(0, 0) && M && SQ == old(SQ)
                && forall k | 0 <= k < MAX_SOURCES :: pos[k] == 0
      ensures !Silent(old(Window())) && (n == None || n.value <= 0) ==>
                && pkt == None && tape == old(tape) && sent == old(sent)
                && period == old(period) && time == old(time) && M == old(M) && SQ == old(SQ)
                && pos[..] == old(pos[..])
      ensures !Silent(old(Window())) && n != None && n.value > 0 ==>
                && pkt == Some(Packet(old(M), old(SQ), TS, old(Window())))
                && tape == old(tape).(head := old(tape).head + Samples()) && sent == old(sent) + old(Window())
                && period == old(period) && time == old(time) && !M && SQ == (old(SQ) + 1) % 0x10000
                && forall k | 0 <= k < MAX_SOURCES :: pos[k] == Overtaken(samplePtr, rate, old(pos[k]))
    {
      hide Refines, Cells, Overtaken, Silent, CellsIn;
      var samples := msPerPacket * rate / 1000 % 0x10000;
      TS := (TS + msPerPacket * 8) % 0x1_0000_0000;
      var isEmpty := CheckMixed();
      if isEmpty {
        Reset(noise);
        return None;
      }
      if n == None || n.value <= 0 {
        return None;
      }
      var pcm := Encode(samples);
      pkt := Some(Packet(M, SQ, TS, pcm));
      SQ := (SQ + 1) % 0x10000;
      M := false;
      Advance(samples);
      MarkOvertaken();
    }

    /** What the encoder is given. */
    method Encode(samples: nat) returns (pcm: seq<Short>)
      requires Valid() && samples == Samples()
      ensures pcm == Window()
    {
      hide Refines, Cells;
      SamplePtrFits();
      BeatStep(sample[..SAMPLE_SIZE], tape, samples);
      pcm := sample[samplePtr..samplePtr + samples];
      SliceOfTake(sample[..], SAMPLE_SIZE, samplePtr, samplePtr + samples);
    }

    static lemma SliceOfTake(a: seq<Short>, n: nat, i: nat, j: nat)
      requires i <= j <= n <= |a|
      ensures a[..n][i..j] == a[i..j]
    {
    }

    /** memset with 0xff. */
    method Blank(from: nat, n: nat)
      requires sample.Length == ROOM && from + n <= SAMPLE_SIZE
      modifies sample
      ensures sample[..SAMPLE_SIZE] == Cleared(old(sample[..SAMPLE_SIZE]), from, n)
    {
      forall i | from <= i < from + n {
        sample[i] := BLANK;
      }
    }

    /** Clears the window just read, which could lie on both ends of the ring. */
    method ClearWindow(samples: nat, newPos: nat)
      requires sample.Length == ROOM && samplePtr + samples <= SAMPLE_SIZE && 0 < samples
      requires newPos == (samplePtr + samples) % SAMPLE_SIZE
      modifies sample
      ensures sample[..SAMPLE_SIZE] == Cleared(old(sample[..SAMPLE_SIZE]), samplePtr, samples)
    {
      hide Cleared;
      if newPos < samplePtr {
        var data1Len := SAMPLE_SIZE - samplePtr;
        var data2Len := samples - data1Len;
        Blank(samplePtr, data1Len);
        Blank(0, data2Len);
        ClearedNothing(Cleared(old(sample[..SAMPLE_SIZE]), samplePtr, samples));
      } else {
        Blank(samplePtr, samples);
      }
    }

    /** Moves the reader behind the window just read. */
    method Advance(samples: nat)
      requires Valid() && samples == Samples()
      modifies this`samplePtr, this`tape, this`beats, this`sent, sample
      ensures Valid() && tape == old(tape).(head := old(tape).head + samples) && sent == old(sent) + old(Window())
    {
      hide Refines, Cells, Cleared, Samples, CellsIn;
      ghost var t := tape;
      SamplePtrFits();
      BeatStep(sample[..SAMPLE_SIZE], t, samples);
      ReadAfterBeat(t, samples);
      var newPos := (samplePtr + samples) % SAMPLE_SIZE;
      ClearWindow(samples, newPos);
      samplePtr := newPos;
      tape := t.(head := t.head + samples);
      beats := beats + 1;
      sent := sent + Cells(t, t.head, samples);
      NextBeat(beats - 1, samples);
    }

    static lemma NextBeat(beats: nat, samples: nat)
      ensures CellsIn(beats, samples) + samples == CellsIn(beats + 1, samples)
    {
    }

    static lemma ClearedNothing(ring: seq<Short>)
      ensures Cleared(ring, 0, 0) == ring
    {
    }

    /** The last loop of heartBeat. */
    method MarkOvertaken()
      requires Valid()
      modifies pos
      ensures Valid()
      ensures forall k | 0 <= k < MAX_SOURCES :: pos[k] == Overtaken(samplePtr, rate, old(pos[k]))
    {
      hide Refines, Cells;
      var k := 0;
      while k < MAX_SOURCES
        invariant 0 <= k <= MAX_SOURCES
        invariant forall i | 0 <= i < k :: pos[i] == Overtaken(samplePtr, rate, old(pos[i]))
        invariant forall i | k <= i < MAX_SOURCES :: pos[i] == old(pos[i])
      {
        if pos[k] != 0 {
          var distance1 := samplePtr as real + 30.0 * (rate as real) * 2.0 / 1000.0;
          var distance2 := (samplePtr / 2) as real;
          if pos[k] as real < distance1 && pos[k] as real > distance2 {
            pos[k] := -1;
          }
        }
        k := k + 1;
      }
    }

    /** What the mixer of sources knows of this processor. */
    ghost function State(): (st: Sources)
      requires Valid()
      reads this, sample, pos
      ensures |st.pos| == MAX_SOURCES
    {
      Sources(tape, pos[..])
    }

    /** One event, as the method it stands for handles it. */
    method Handle(e: Event, now: Timeval)
      requires Valid() && Possible(e) && (e.Arrival? ==> |e.data| < 0x10000)
      modifies this, sample, pos
      ensures Valid() && State() == After(old(State()), e, rate, Samples())
    {
      hide Refines, Cells, Contribution, Overtaken, Silent, CellsIn, Samples;
      ghost var st := State();
      match e {
        case Arrival(source, mark, data) =>
          Deliver(data, |data|, source, now, mark);
          assert data[..|data|] == data;
          assert pos[..] == After(st, e, rate, Samples()).pos;
        case Beat(encoded, noise) =>
          var _ := HeartBeat(if encoded then Some(1) else None, noise);
          assert pos[..] == After(st, e, rate, Samples()).pos;
      }
    }

    /** Any interleaving of packets and beats leaves the processor where the laws about its sources say. */
    method HandleAll(es: seq<Event>, now: Timeval)
      requires Valid() && forall e | e in es :: Possible(e) && (e.Arrival? ==> |e.data| < 0x10000)
      modifies this, sample, pos
      ensures Valid() && State() == Played(old(State()), es, rate, Samples())
    {
      hide After, Samples;
      for i := 0 to |es|
        invariant Valid() && State() == Played(old(State()), es[..i], rate, Samples())
      {
        Handle(es[i], now);
        assert es[..i + 1][..i] == es[..i];
      }
      assert es[..|es|] == es;
    }

    /** A window is what the rate makes of a packet's milliseconds, when that is a whole number. */
    lemma SamplesAre()
      requires msPerPacket * rate % 1000 == 0 && msPerPacket * rate < 65_536_000
      ensures 1000 * Samples() == msPerPacket * rate
    {
    }

    /**
     After a packet with a mark, however other packets and beats follow, the window about to be sent
     has its first sample exactly when 200 ms of windows have been sent.
     */
    method HandleMarked(e: Event, es: seq<Event>, now: Timeval) returns (ghost first: Write)
      requires Valid() && Possible(e) && e.Arrival? && 0 < |e.data| < 0x10000 && (e.mark || pos[e.source] == -1)
      requires forall x | x in es :: Possible(x) && (x.Arrival? ==> |x.data| < 0x10000)
      requires msPerPacket * rate % 1000 == 0 && msPerPacket * rate < 65_536_000
      requires 200 % msPerPacket == 0 && 200 * rate / 1000 < 7680
      requires NoReset(After(State(), e, rate, Samples()), es, rate, Samples())
      modifies this, sample, pos
      ensures Valid() && first.value == e.data[0]
      ensures tape.head <= first.cell < tape.head + Samples() <==> SentBeats(es) == 200 / msPerPacket
    {
      hide After, Samples, Played, NoReset;
      ghost var st := State();
      SamplesAre();
      MarkedStartIff(st, e, rate, Samples(), msPerPacket);
      MarkedIsHeardAfter(st, e, es, rate, Samples(), msPerPacket);
      Handle(e, now);
      first := tape.writes[|st.tape.writes|];
      HandleAll(es, now);
    }

    /** The milliseconds waited are those of the microseconds between the two times, but for a fraction. */
    static lemma WaitedIs(now: Timeval, since: Timeval)
      requires 0 <= now.usec < 1_000_000 && 0 <= since.usec < 1_000_000
      ensures var us := 1_000_000 * (now.sec - since.sec) + (now.usec - since.usec);
              us - 1000 < 1000 * Waited(now, since) < us + 1000
    {
    }

    /**
     Two packets of silence from one source of a new processor, the second one
     after the delay: the period is set, so the beat comes, drops them and starts over.
     */
    method SilenceIsDropped(data: seq<Short>, a: Timeval, b: Timeval, n: Option<int>, noise: Noise)
      returns (ghost mixed: Tape, ghost beat: nat, pkt: Option<Packet>)
      requires Valid() && tape == Tape(BlankCells(), [], 0) && pos[0] == 0 && period == 0 && time == Timeval(0, 0)
      requires |data| == Samples() && forall k | 0 <= k < |data| :: data[k] == 0
      requires a != Timeval(0, 0) && Waited(b, a) > DELAY
      modifies this, sample, pos
      ensures mixed.head == 0 && |mixed.writes| == 2 * |data| > 0 && beat > 0
      ensures forall k | 0 <= k < |data| :: mixed.writes[k] == Write(k, 0)
      ensures pkt == None && Valid() && tape == Tape(noise, [], 0)
    {
      hide Refines, Cells, Contribution, Overtaken, Silent, CellsIn;
      WholeWindowFits(|data|);
      assert data[..|data|] == data;
      Deliver(data, |data|, 0, a, false);
      ghost var second := pos[0];
      Deliver(data, |data|, 0, b, false);
      mixed, beat := tape, period;
      assert mixed.writes == Contribution(0, 0, data) + Contribution(0, second, data);
      ZerosAreSilent(data, second);
      pkt := HeartBeat(n, noise);
    }

    static lemma WholeWindowFits(n: nat)
      requires n > 0 && SAMPLE_SIZE % n == 0
      ensures n <= SAMPLE_SIZE
    {
    }

    static lemma ZerosAreSilent(data: seq<Short>, p: nat)
      requires |data| <= SAMPLE_SIZE && forall k | 0 <= k < |data| :: data[k] == 0
      ensures var t := Tape(BlankCells(), Contribution(0, 0, data) + Contribution(0, p, data), 0);
              && Silent(Cells(t, 0, |data|))
              && forall k | 0 <= k < |data| :: t.writes[k] == Write(k, 0)
    {
      hide Heard, CellAt;
      var t := Tape(BlankCells(), Contribution(0, 0, data) + Contribution(0, p, data), 0);
      CellAtIsUnique(0, 0, 0);
      ContributionIsContiguousIff(0, 0, data);
      forall k | 0 <= k < |data|
        ensures Cells(t, 0, |data|)[k] == BLANK
      {
        ZerosLeaveBlank(t, k);
      }
    }

    /** reset: every source starts over at the front of a ring of noise. */
    method Reset(noise: Noise)
      requires Valid()
      modifies this, sample, pos
      ensures Valid() && tape == Tape(noise, [], 0) && sent == []
      ensures period == 0 && time == Timeval(0, 0) && M && SQ == old(SQ) && TS == old(TS)
      ensures forall k | 0 <= k < MAX_SOURCES :: pos[k] == 0
    {
      hide Refines, Cells, Samples;
      period, time, M := 0, Timeval(0, 0), true;
      forall k | 0 <= k < MAX_SOURCES {
        pos[k] := 0;
      }
      Fill(noise);
      samplePtr := 0;
      tape, beats, sent := Tape(noise, [], 0), 0, [];
      BlankRefines(noise);
    }

    method Fill(noise: Noise)
      requires sample.Length == ROOM
      modifies sample
      ensures sample[..SAMPLE_SIZE] == noise
    {
      var i := 0;
      while i < SAMPLE_SIZE
        invariant 0 <= i <= SAMPLE_SIZE
        invariant sample[..i] == noise[..i]
      {
        sample[i] := noise[i];
        i := i + 1;
      }
    }
  }
}
