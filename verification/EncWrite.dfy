/** des_enc_write (lib/crypto/enc_write.c). */
module EncWrite {
  import opened DesLocal
  import opened Blocks
  import opened LengthHeader
  import opened Frames
  import opened Connections
  import opened CbcEncrypt
  import opened PcbcEncrypt
  import opened Feistel

  /** The filler after the data of one frame, from eight random bytes. */
  function FillerOf(data: seq<Byte>, random: seq<Byte>): (filler: seq<Byte>)
    requires |random| == 8
    ensures |filler| == if |data| < 8 then 8 - |data| else 0
  {
    if |data| < 8 then random[|data|..] else []
  }

  /** The frames of one call: pieces of MAXWRITE bytes and a last shorter one. */
  function FramesOf(data: seq<Byte>, random: seq<Byte>): (frames: seq<Frame>)
    requires |random| == 8
    ensures forall fr | fr in frames :: fr.Valid()
    decreases |data|
  {
    if |data| <= MAXWRITE then [Frame(data, FillerOf(data, random))]
    else [Frame(data[..MAXWRITE], [])] + FramesOf(data[MAXWRITE..], random)
  }

  /** However the call is split, its frames carry exactly its data. */
  lemma {:induction false} FramesCarryData(data: seq<Byte>, random: seq<Byte>)
    requires |random| == 8
    ensures Payload(FramesOf(data, random)) == data
    decreases |data|
  {
    if |data| > MAXWRITE {
      FramesCarryData(data[MAXWRITE..], random);
      var frames := FramesOf(data, random);
      assert frames[1..] == FramesOf(data[MAXWRITE..], random);
      assert data == data[..MAXWRITE] + data[MAXWRITE..];
    } else {
      var frames := FramesOf(data, random);
      assert frames[1..] == [];
      assert Payload([]) == [];
    }
  }

  /** pcbc_encrypt or cbc_encrypt of a short array, as des_rw_mode says. */
  method SealArray(s: Session, data: seq<Byte>, iv: array<Byte>) returns (body: array<Byte>)
    requires iv.Length == 8 && Load(iv[..]) == s.iv
    ensures fresh(body) && body[..] == Seal(s, data)
  {
    hide Load, Des, CbcBytes, PcbcBytes, Count;
    var p := new Byte[|data|](i requires 0 <= i < |data| => data[i]);
    body := new Byte[8 * Count(|data|)];
    assert p[..][..|data|] == data;
    if s.pcbc {
      DesPcbcEncrypt(s.f, p, body, |data|, s.ks, iv, true);
    } else {
      DesCbcEncrypt(s.f, p, body, |data|, s.ks, iv, true);
    }
  }

  /** The plaintext handed to the cipher for one frame: short data is filled up to eight bytes. */
  method PadShort(buf: seq<Byte>) returns (data: seq<Byte>, ghost random: seq<Byte>)
    ensures |random| == 8 && data == buf + FillerOf(buf, random)
  {
    random := Zeros(8);
    data := buf;
    if |buf| < 8 {
      var shortbuf := new Byte[8](i => 0);
      for i := 0 to |buf|
        invariant shortbuf[..i] == buf[..i]
      {
        shortbuf[i] := buf[i];
      }
      for i := |buf| to 8
        invariant shortbuf[..|buf|] == buf
      {
        shortbuf[i] := *;
      }
      data := shortbuf[..];
      random := data;
    }
  }

  /** The part of des_enc_write that sends at most MAXWRITE bytes as one frame. */
  method WriteFrame(c: Connection, buf: seq<Byte>, s: Session, iv: array<Byte>) returns (ghost random: seq<Byte>)
    requires iv.Length == 8 && Load(iv[..]) == s.iv
    requires |buf| <= MAXWRITE
    modifies c
    ensures |random| == 8
    ensures c.bytes == old(c.bytes) + WireFrame(s, Frame(buf, FillerOf(buf, random)))
  {
    hide Load, L2n, Seal;
    var data;
    data, random := PadShort(buf);
    var body := SealArray(s, data, iv);
    var outbuf := L2n(|buf|) + body[..];
    var j := 0;
    while j < |outbuf|
      invariant 0 <= j <= |outbuf|
      invariant c.bytes == old(c.bytes) + outbuf[..j]
    {
      var i := c.Write(outbuf[j..]);
      j := j + i;
    }
    assert outbuf[..j] == outbuf;
  }

  lemma OneFrameWire(s: Session, fr: Frame)
    requires fr.Valid()
    ensures Wire(s, [fr]) == WireFrame(s, fr)
  {
    hide WireFrame;
    assert [fr][1..] == [];
    assert Wire(s, []) == [];
  }

  /** The pieces sent so far and the rest of the buffer make up the frames of the whole call. */
  ghost predicate Sending(buf: seq<Byte>, i: nat, sent: seq<Frame>) {
    && i <= |buf|
    && (forall fr | fr in sent :: fr.Valid())
    && forall r: seq<Byte> | |r| == 8 :: FramesOf(buf, r) == sent + FramesOf(buf[i..], r)
  }

  lemma SendingStart(buf: seq<Byte>)
    ensures Sending(buf, 0, [])
  {
    assert buf[0..] == buf;
  }

  lemma SendingStep(buf: seq<Byte>, i: nat, sent: seq<Frame>)
    requires Sending(buf, i, sent) && |buf| - i > MAXWRITE
    ensures Sending(buf, i + MAXWRITE, sent + [Frame(buf[i..i + MAXWRITE], [])])
  {
    hide FramesOf;
    forall r: seq<Byte> | |r| == 8
      ensures FramesOf(buf, r) == sent + [Frame(buf[i..i + MAXWRITE], [])] + FramesOf(buf[i + MAXWRITE..], r)
    {
      FirstPiece(buf[i..], r);
      assert buf[i..][..MAXWRITE] == buf[i..i + MAXWRITE] && buf[i..][MAXWRITE..] == buf[i + MAXWRITE..];
    }
  }

  lemma FirstPiece(buf: seq<Byte>, r: seq<Byte>)
    requires |buf| > MAXWRITE && |r| == 8
    ensures FramesOf(buf, r) == [Frame(buf[..MAXWRITE], [])] + FramesOf(buf[MAXWRITE..], r)
  {
  }

  /**
   des_enc_write. The random bytes are whatever random() returned; only those
   that fill up a short piece are used.
   */
  method DesEncWrite(c: Connection, buf: seq<Byte>, s: Session, iv: array<Byte>)
    returns (n: nat, ghost random: seq<Byte>)
    requires iv.Length == 8 && Load(iv[..]) == s.iv
    requires |buf| < 0x8000_0000
    modifies c
    ensures n == |buf| && |random| == 8
    ensures c.bytes == old(c.bytes) + Wire(s, FramesOf(buf, random))
    decreases |buf|
  {
    hide Load, WireFrame, Wire, Sending, FillerOf, FramesOf;
    if |buf| <= MAXWRITE {
      random := WriteFrame(c, buf, s, iv);
      OnePiece(buf, random);
      OneFrameWire(s, Frame(buf, FillerOf(buf, random)));
      return |buf|, random;
    }
    random := Zeros(8);
    n := 0;
    var i := 0;
    ghost var sent: seq<Frame> := [];
    SendingStart(buf);
    NoWire(s);
    while i < |buf|
      invariant 0 <= i <= |buf| && n == i && |random| == 8
      invariant forall fr | fr in sent :: fr.Valid()
      invariant i < |buf| ==> Sending(buf, i, sent)
      invariant i == |buf| ==> sent == FramesOf(buf, random)
      invariant c.bytes == old(c.bytes) + Wire(s, sent)
    {
      var piece := if |buf| - i > MAXWRITE then buf[i..i + MAXWRITE] else buf[i..];
      var k;
      k, random := DesEncWrite(c, piece, s, iv);
      WireConcat(s, sent, FramesOf(piece, random));
      if |buf| - i > MAXWRITE {
        SendingStep(buf, i, sent);
        OnePiece(piece, random);
      } else {
        SendingEnd(buf, i, sent, random);
      }
      sent := sent + FramesOf(piece, random);
      n := n + k;
      i := i + k;
    }
  }

  lemma OnePiece(piece: seq<Byte>, random: seq<Byte>)
    requires |piece| <= MAXWRITE && |random| == 8
    ensures FramesOf(piece, random) == [Frame(piece, FillerOf(piece, random))]
    ensures |piece| == MAXWRITE ==> FillerOf(piece, random) == []
  {
  }

  lemma SendingEnd(buf: seq<Byte>, i: nat, sent: seq<Frame>, random: seq<Byte>)
    requires Sending(buf, i, sent) && |random| == 8
    ensures sent + FramesOf(buf[i..], random) == FramesOf(buf, random)
  {
  }

  // ---------- The wire format ----------

  /** One call sends its data in pieces of 16384 bytes and a last one; an empty call sends one empty frame. */
  lemma {:induction false} PiecesAre(data: seq<Byte>, random: seq<Byte>, i: nat)
    requires |random| == 8
    ensures |FramesOf(data, random)| == if data == [] then 1 else (|data| + 16383) / 16384
    ensures i < |FramesOf(data, random)| ==>
              var end := if 16384 * (i + 1) < |data| then 16384 * (i + 1) else |data|;
              16384 * i <= end && FramesOf(data, random)[i].data == data[16384 * i..end]
    decreases |data|
  {
    if |data| > MAXWRITE {
      var rest := data[MAXWRITE..];
      PiecesAre(rest, random, if i == 0 then 0 else i - 1);
      assert (|rest| + 16383) / 16384 + 1 == (|data| + 16383) / 16384;
    }
  }

  /**
   A frame is the length of its data, most significant byte first, and the data with its filler
   enciphered, in the mode of the session and from its initial vector.
   */
  lemma WireFrameIs(s: Session, fr: Frame)
    requires fr.Valid()
    ensures var w, e, data := WireFrame(s, fr), Des(s.f, s.ks, true), fr.data + fr.filler;
            && |w| >= 4
            && w[0] as int * 0x100_0000 + w[1] as int * 0x1_0000 + w[2] as int * 0x100 + w[3] as int == |fr.data|
            && w[4..] == if s.pcbc then PcbcBytes(e, s.iv, data) else CbcBytes(e, s.iv, data)
  {
    hide L2n, Des, CbcBytes, PcbcBytes;
    N2lL2n(|fr.data|);
    assert WireFrame(s, fr)[..4] == L2n(|fr.data|);
  }
}
