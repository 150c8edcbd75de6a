/**
 Whole runs of des_enc_write and des_enc_read on one connection. A write adds
 the frames its contract puts on the wire, a read takes the step its contract
 makes; the lemmas are about every interleaving of both.
 */
module EncStream {
  import opened DesLocal
  import opened Connections
  import opened Frames
  import opened EncWrite
  import opened EncRead

  datatype Op = Write(data: seq<Byte>, random: seq<Byte>) | Read(len: nat) {
    predicate Valid() {
      Write? ==> |random| == 8
    }
  }

  datatype Stream = Stream(incoming: Incoming, written: seq<Byte>, delivered: seq<Byte>) {
    ghost predicate Valid() {
      forall fr | fr in incoming.frames :: fr.Valid()
    }

    /** written = delivered + left over + still in unread frames. */
    predicate Conserved() {
      written == delivered + incoming.Undelivered()
    }

    /** An upper bound on the reads it takes to deliver everything. */
    function Remaining(): nat {
      |incoming.Undelivered()| + |incoming.frames|
    }
  }

  const START := Stream(Incoming([], []), [], [])

  function Step(st: Stream, op: Op): Stream
    requires op.Valid()
  {
    match op
    case Write(data, random) =>
      st.(incoming := st.incoming.(frames := st.incoming.frames + FramesOf(data, random)),
          written := st.written + data)
    case Read(len) =>
      var (out, next) := ReadStep(st.incoming, len);
      st.(incoming := next, delivered := st.delivered + out)
  }

  function Run(st: Stream, ops: seq<Op>): Stream
    requires forall op | op in ops :: op.Valid()
    decreases |ops|
  {
    if ops == [] then st else Run(Step(st, ops[0]), ops[1..])
  }

  lemma StepConserves(st: Stream, op: Op)
    requires op.Valid() && st.Valid() && st.Conserved()
    ensures Step(st, op).Valid() && Step(st, op).Conserved()
  {
    match op
    case Write(data, random) => WriteConserves(st, data, random);
    case Read(len) => ReadConserves(st, len);
  }

  lemma WriteConserves(st: Stream, data: seq<Byte>, random: seq<Byte>)
    requires |random| == 8 && st.Valid() && st.Conserved()
    ensures Step(st, Write(data, random)).Valid() && Step(st, Write(data, random)).Conserved()
  {
    hide FramesOf, Payload;
    var left, p := st.incoming.left, Payload(st.incoming.frames);
    FramesCarryData(data, random);
    PayloadConcat(st.incoming.frames, FramesOf(data, random));
    ConcatAssociates(left, p, data);
    ConcatAssociates(st.delivered, left + p, data);
  }

  lemma ReadConserves(st: Stream, len: nat)
    requires st.Valid() && st.Conserved()
    ensures Step(st, Read(len)).Valid() && Step(st, Read(len)).Conserved()
  {
    hide Incoming.Undelivered;
    ReadStepConserves(st.incoming, len);
    var (out, next) := ReadStep(st.incoming, len);
    ConcatAssociates(st.delivered, out, next.Undelivered());
  }

  lemma {:induction false} RunConserves(st: Stream, ops: seq<Op>)
    requires forall op | op in ops :: op.Valid()
    requires st.Valid() && st.Conserved()
    ensures Run(st, ops).Valid() && Run(st, ops).Conserved()
    decreases |ops|
  {
    hide Step, Stream.Conserved;
    if ops != [] {
      StepConserves(st, ops[0]);
      RunConserves(Step(st, ops[0]), ops[1..]);
    }
  }

  /** After any run, what has been read is a prefix of what has been written. */
  lemma RunDeliversPrefix(ops: seq<Op>)
    requires forall op | op in ops :: op.Valid()
    ensures var st := Run(START, ops);
            st.delivered <= st.written && st.written == st.delivered + st.incoming.left + Payload(st.incoming.frames)
  {
    RunConserves(START, ops);
    var st := Run(START, ops);
    ConcatAssociates(st.delivered, st.incoming.left, Payload(st.incoming.frames));
  }

  lemma ReadProgress(st: Stream, len: nat)
    requires len > 0 && st.Remaining() > 0
    ensures Step(st, Read(len)).Remaining() < st.Remaining()
  {
    ReadStepConserves(st.incoming, len);
  }

  /** Reads that ask for something deliver everything in the end. */
  lemma {:induction false} ReadsDrain(st: Stream, ops: seq<Op>)
    requires forall op | op in ops :: op.Read? && op.len > 0
    requires st.Valid() && st.Conserved() && |ops| >= st.Remaining()
    ensures Run(st, ops).delivered == st.written
    decreases |ops|
  {
    hide Step, Stream.Conserved;
    if ops != [] {
      assert ops[0] in ops && ops[0] == Read(ops[0].len);
    }
    if st.Remaining() > 0 {
      StepConserves(st, ops[0]);
      ReadProgress(st, ops[0].len);
      ReadKeepsWritten(st, ops[0].len);
      ReadsDrain(Step(st, ops[0]), ops[1..]);
    } else if ops == [] {
      NothingLeft(st);
    } else {
      StepConserves(st, ops[0]);
      EmptyRead(st, ops[0].len);
      ReadsDrain(Step(st, ops[0]), ops[1..]);
    }
  }

  lemma ReadKeepsWritten(st: Stream, len: nat)
    ensures Step(st, Read(len)).written == st.written
  {
  }

  lemma EmptyRead(st: Stream, len: nat)
    requires st.Remaining() == 0
    ensures Step(st, Read(len)) == st
  {
    assert st.delivered + [] == st.delivered;
  }

  lemma NothingLeft(st: Stream)
    requires st.Remaining() == 0 && st.Conserved()
    ensures st.delivered == st.written
  {
  }

  // ---------- Reads that return nothing ----------

  ghost predicate NoneEmpty(frames: seq<Frame>) {
    forall fr | fr in frames :: fr.data != []
  }

  /** Writes of something send no empty frame. */
  lemma {:induction false} FramesNotEmpty(data: seq<Byte>, random: seq<Byte>)
    requires |random| == 8 && data != []
    ensures NoneEmpty(FramesOf(data, random))
    decreases |data|
  {
    if |data| > MAXWRITE {
      FramesNotEmpty(data[MAXWRITE..], random);
    }
  }

  lemma {:induction false} RunSendsNoneEmpty(st: Stream, ops: seq<Op>)
    requires forall op | op in ops :: op.Valid() && (op.Write? ==> op.data != [])
    requires NoneEmpty(st.incoming.frames)
    ensures NoneEmpty(Run(st, ops).incoming.frames)
    decreases |ops|
  {
    hide FramesOf;
    if ops != [] {
      if ops[0].Write? {
        assert ops[0] in ops;
        FramesNotEmpty(ops[0].data, ops[0].random);
      }
      RunSendsNoneEmpty(Step(st, ops[0]), ops[1..]);
    }
  }

  /**
   When no write was empty, a read that asks for something returns nothing
   exactly when everything written has been read.
   */
  lemma EmptyReadMeansAllRead(ops: seq<Op>, len: nat)
    requires forall op | op in ops :: op.Valid() && (op.Write? ==> op.data != [])
    requires len > 0
    ensures var st := Run(START, ops);
            ReadStep(st.incoming, len).0 == [] <==> st.delivered == st.written
  {
    hide Run;
    RunSendsNoneEmpty(START, ops);
    RunDeliversPrefix(ops);
    var st := Run(START, ops);
    assert st.written == st.delivered <==> st.incoming.left + Payload(st.incoming.frames) == [];
    if st.incoming.frames != [] {
      assert st.incoming.frames[0] in st.incoming.frames;
    }
  }

  // ---------- Reads that return a whole write ----------

  /** After everything has been read, one read that asks for enough returns all of a write of up to 16384 bytes. */
  lemma OneReadDeliversAWrite(ops: seq<Op>, data: seq<Byte>, random: seq<Byte>, len: nat)
    requires forall op | op in ops :: op.Valid() && (op.Write? ==> op.data != [])
    requires Run(START, ops).delivered == Run(START, ops).written
    requires |random| == 8 && 1 <= |data| <= 16384 && len >= |data|
    ensures var st, st' := Run(START, ops), Run(START, ops + [Write(data, random)] + [Read(len)]);
            st'.delivered == st.delivered + data && st'.written == st.written + data
  {
    hide Run, FramesOf, ReadStep;
    var st := Run(START, ops);
    RunSnoc(START, ops, Write(data, random));
    RunSnoc(START, ops + [Write(data, random)], Read(len));
    AllReadMeansNoFrames(ops);
    WholeWrite(st, data, random, len);
  }

  lemma AllReadMeansNoFrames(ops: seq<Op>)
    requires forall op | op in ops :: op.Valid() && (op.Write? ==> op.data != [])
    requires Run(START, ops).delivered == Run(START, ops).written
    ensures Run(START, ops).incoming == Incoming([], [])
  {
    hide Run;
    RunSendsNoneEmpty(START, ops);
    RunDeliversPrefix(ops);
    var st := Run(START, ops);
    assert st.incoming.left + Payload(st.incoming.frames) == [];
    NoPayload(st.incoming.frames);
  }

  lemma NoPayload(frames: seq<Frame>)
    requires NoneEmpty(frames)
    ensures Payload(frames) == [] <==> frames == []
  {
    assert frames != [] ==> frames[0] in frames;
  }

  lemma WholeWrite(st: Stream, data: seq<Byte>, random: seq<Byte>, len: nat)
    requires st.incoming == Incoming([], []) && |random| == 8 && 1 <= |data| <= 16384 && len >= |data|
    ensures Step(Step(st, Write(data, random)), Read(len)) ==
            Stream(Incoming([], []), st.written + data, st.delivered + data)
  {
    hide FramesOf, ReadStep;
    OnePiece(data, random);
    var frames := FramesOf(data, random);
    assert [] + frames == frames;
    ReadStepTakes(Incoming([], frames), len);
    ReadStepConserves(Incoming([], frames), len);
    var (out, next) := ReadStep(Incoming([], frames), len);
    assert next.frames == [] && Payload(frames[1..]) == [];
    assert out + next.left == data && |out| == |data|;
  }

  // ---------- The code ----------

  /** What a program asks for: to write some bytes, or to read up to so many. */
  datatype Call = Send(data: seq<Byte>) | Receive(len: nat)

  ghost predicate Matches(calls: seq<Call>, ops: seq<Op>) {
    && |ops| == |calls|
    && forall i | 0 <= i < |calls| ::
         ops[i].Valid() && match calls[i]
                           case Send(data) => ops[i].Write? && ops[i].data == data
                           case Receive(len) => ops[i] == Read(len)
  }

  lemma {:induction false} RunSnoc(st: Stream, ops: seq<Op>, op: Op)
    requires op.Valid() && forall o | o in ops :: o.Valid()
    ensures Run(st, ops + [op]) == Step(Run(st, ops), op)
    decreases |ops|
  {
    hide Step;
    if ops == [] {
      assert Run(st, [op]) == Step(st, op);
    } else {
      assert (ops + [op])[1..] == ops[1..] + [op];
      RunSnoc(Step(st, ops[0]), ops[1..], op);
    }
  }

  /** The connection and the reader hold what the stream says. */
  ghost predicate Holds(s: Session, st: Stream, left: seq<Byte>, bytes: seq<Byte>)
    requires st.Valid()
  {
    left == st.incoming.left && bytes == Wire(s, st.incoming.frames)
  }

  lemma RunNothing(s: Session)
    ensures Run(START, []) == START && START.Valid() && Holds(s, START, [], [])
  {
  }

  method SendOn(c: Connection, data: seq<Byte>, s: Session, iv: array<Byte>, ghost st: Stream, ghost left: seq<Byte>)
    returns (ghost random: seq<Byte>)
    requires iv.Length == 8 && Load(iv[..]) == s.iv && |data| < 0x8000_0000
    requires st.Valid() && Holds(s, st, left, c.bytes)
    modifies c
    ensures |random| == 8 && Step(st, Write(data, random)).Valid()
    ensures Holds(s, Step(st, Write(data, random)), left, c.bytes)
  {
    hide Load, FramesOf, Wire;
    var n;
    n, random := DesEncWrite(c, data, s, iv);
    WireConcat(s, st.incoming.frames, FramesOf(data, random));
  }

  /** One read by the bytes is one read by the frames. */
  lemma ReadHolds(s: Session, st: Stream, left: seq<Byte>, bytes: seq<Byte>, len: nat)
    requires st.Valid() && Holds(s, st, left, bytes)
    ensures Fits(bytes)
    ensures var (out, raw) := ReadRaw(s, Raw(left, bytes), len);
            var st' := Step(st, Read(len));
            && st' == st.(incoming := st'.incoming, delivered := st.delivered + out)
            && st'.Valid() && Holds(s, st', raw.left, raw.bytes)
  {
    hide Wire, ReadRaw, ReadStep, Fits;
    RawStepOnFrames(s, st.incoming, len);
  }

  method ReceiveOn(c: Connection, rd: EncReader, len: nat, s: Session, iv: array<Byte>, ghost st: Stream)
    returns (out: seq<Byte>)
    requires iv.Length == 8 && Load(iv[..]) == s.iv && rd.Valid() && iv != rd.unnet
    requires st.Valid() && Holds(s, st, rd.Left(), c.bytes)
    modifies c, rd, rd.unnet
    ensures rd.Valid() && rd.unnet == old(rd.unnet)
    ensures var st' := Step(st, Read(len));
            && st'.delivered == st.delivered + out && st'.written == st.written
            && st'.Valid() && Holds(s, st', rd.Left(), c.bytes)
  {
    hide Load, Fits, Holds, ReadRaw, Step;
    ReadHolds(s, st, rd.Left(), c.bytes, len);
    var buf := new Byte[len](_ => 0);
    var n := rd.DesEncRead(c, buf, len, s, iv);
    out := buf[..n];
  }

  /**
   Any sequence of calls of des_enc_write and des_enc_read on one connection:
   what is read is a prefix of what is written.
   */
  method RunCalls(calls: seq<Call>, s: Session, iv: array<Byte>)
    returns (written: seq<Byte>, delivered: seq<Byte>, ghost ops: seq<Op>)
    requires iv.Length == 8 && Load(iv[..]) == s.iv
    requires forall call | call in calls :: call.Send? ==> |call.data| < 0x8000_0000
    ensures Matches(calls, ops)
    ensures var st := Run(START, ops); delivered == st.delivered && written == st.written
    ensures delivered <= written
  {
    hide Load, Run, ReadStep, ReadRaw, FramesOf, Wire, Fits, Holds;
    var c := new Connection();
    var rd := new EncReader();
    written, delivered, ops := [], [], [];
    RunNothing(s);
    for i := 0 to |calls|
      invariant rd.Valid() && fresh(rd) && fresh(rd.unnet) && fresh(c)
      invariant Matches(calls[..i], ops)
      invariant Run(START, ops).Valid() && Holds(s, Run(START, ops), rd.Left(), c.bytes)
      invariant delivered == Run(START, ops).delivered && written == Run(START, ops).written
    {
      ghost var st := Run(START, ops);
      match calls[i]
      case Send(data) =>
        ghost var random := SendOn(c, data, s, iv, st, rd.Left());
        RunSnoc(START, ops, Write(data, random));
        written, ops := written + data, ops + [Write(data, random)];
      case Receive(len) =>
        var out := ReceiveOn(c, rd, len, s, iv, st);
        RunSnoc(START, ops, Read(len));
        delivered, ops := delivered + out, ops + [Read(len)];
    }
    RunDeliversPrefix(ops);
  }

  /**
   Messages of 1 to 16384 bytes, each written by one call and then read by one
   call that asks for enough, arrive one by one as they were sent.
   */
  method InTurn(messages: seq<seq<Byte>>, len: nat, s: Session, iv: array<Byte>) returns (received: seq<seq<Byte>>)
    requires iv.Length == 8 && Load(iv[..]) == s.iv
    requires forall m | m in messages :: 1 <= |m| <= 16384 && |m| <= len
    ensures received == messages
  {
    hide Load, ReadStep, ReadRaw, FramesOf, Wire, Fits, Holds;
    var c := new Connection();
    var rd := new EncReader();
    received := [];
    RunNothing(s);
    for i := 0 to |messages|
      invariant rd.Valid() && fresh(rd) && fresh(rd.unnet) && fresh(c)
      invariant Holds(s, START, rd.Left(), c.bytes)
      invariant received == messages[..i]
    {
      var out := Exchange(c, rd, messages[i], len, s, iv);
      received := received + [out];
    }
  }

  /** One write and one read, with nothing on the connection before and after. */
  method Exchange(c: Connection, rd: EncReader, m: seq<Byte>, len: nat, s: Session, iv: array<Byte>)
    returns (out: seq<Byte>)
    requires iv.Length == 8 && Load(iv[..]) == s.iv && rd.Valid() && iv != rd.unnet
    requires 1 <= |m| <= 16384 && |m| <= len
    requires Holds(s, START, rd.Left(), c.bytes)
    modifies c, rd, rd.unnet
    ensures rd.Valid() && rd.unnet == old(rd.unnet)
    ensures out == m && Holds(s, START, rd.Left(), c.bytes)
  {
    hide Load, Step, Holds;
    ghost var random := SendOn(c, m, s, iv, START, rd.Left());
    ghost var st := Step(START, Write(m, random));
    SentOne(m, random);
    WholeWrite(START, m, random, len);
    out := ReceiveOn(c, rd, len, s, iv, st);
    assert [] + out == [] + m && [] + out == out && [] + m == m;
    HoldsAgain(s, Step(st, Read(len)), rd.Left(), c.bytes);
  }

  lemma SentOne(m: seq<Byte>, random: seq<Byte>)
    requires |random| == 8
    ensures Step(START, Write(m, random)).delivered == []
  {
  }

  lemma HoldsAgain(s: Session, st: Stream, left: seq<Byte>, bytes: seq<Byte>)
    requires st.Valid() && Holds(s, st, left, bytes) && st.incoming == START.incoming
    ensures Holds(s, START, left, bytes)
  {
  }
}
