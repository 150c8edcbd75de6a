/** The frames des_enc_write puts on a connection and des_enc_read takes off it. */
module Frames {
  import opened DesLocal
  import opened LengthHeader
  import opened Blocks
  import opened Feistel
  import opened CbcEncrypt
  import opened PcbcEncrypt

  const MAXWRITE: nat := 16384
  const BSIZE: nat := MAXWRITE + 4

  // ---------- Sealing ----------

  /** What both ends share: the compiled round function, schedule, initial vector and des_rw_mode. */
  datatype Session = Session(f: RoundFn, ks: KeySchedule, iv: Block, pcbc: bool)

  function Seal(s: Session, data: seq<Byte>): (c: seq<Byte>)
    ensures |c| == 8 * Count(|data|)
  {
    if s.pcbc then PcbcBytes(Des(s.f, s.ks, true), s.iv, data) else CbcBytes(Des(s.f, s.ks, true), s.iv, data)
  }

  function Unseal(s: Session, c: seq<Byte>, n: nat): (data: seq<Byte>)
    requires |c| == 8 * Count(n)
    ensures |data| == n
  {
    var d := Des(s.f, s.ks, false);
    if s.pcbc then PcbcInverseBytes(d, s.iv, c, n) else CbcInverseBytes(d, s.iv, c, n)
  }

  lemma UnsealSeal(s: Session, data: seq<Byte>)
    ensures Unseal(s, Seal(s, data), |data|) == data
  {
    hide Des, CbcBytes, CbcInverseBytes, PcbcBytes, PcbcInverseBytes;
    DesInverse(s.f, s.ks, true);
    var e, d := Des(s.f, s.ks, true), Des(s.f, s.ks, false);
    if s.pcbc {
      PcbcBytesRoundTrip(e, d, s.iv, data);
    } else {
      CbcBytesRoundTrip(e, d, s.iv, data);
    }
  }

  /** Decrypting with a smaller length that still covers the same blocks gives a prefix. */
  lemma UnsealPrefix(s: Session, c: seq<Byte>, n: nat, m: nat)
    requires m <= n && Count(m) == Count(n) && |c| == 8 * Count(n)
    ensures Unseal(s, c, m) == Unseal(s, c, n)[..m]
  {
    hide Des, CbcInverse, PcbcInverse, ToBlocks, FromBlocks;
  }

  // ---------- Frames ----------

  /** One frame: up to MAXWRITE bytes of data, and the filler after fewer than eight. */
  datatype Frame = Frame(data: seq<Byte>, filler: seq<Byte>) {
    ghost predicate Valid() {
      |data| <= MAXWRITE && |filler| == if |data| < 8 then 8 - |data| else 0
    }
  }

  function WireFrame(s: Session, fr: Frame): seq<Byte>
    requires fr.Valid()
  {
    L2n(|fr.data|) + Seal(s, fr.data + fr.filler)
  }

  function Wire(s: Session, frames: seq<Frame>): seq<Byte>
    requires forall fr | fr in frames :: fr.Valid()
  {
    if frames == [] then [] else WireFrame(s, frames[0]) + Wire(s, frames[1..])
  }

  function Payload(frames: seq<Frame>): seq<Byte> {
    if frames == [] then [] else frames[0].data + Payload(frames[1..])
  }

  lemma NoWire(s: Session)
    ensures Wire(s, []) == []
  {
  }

  lemma {:induction false} WireConcat(s: Session, a: seq<Frame>, b: seq<Frame>)
    requires forall fr | fr in a + b :: fr.Valid()
    ensures Wire(s, a + b) == Wire(s, a) + Wire(s, b)
  {
    hide WireFrame;
    if a == [] {
      assert a + b == b;
    } else {
      WireConcat(s, a[1..], b);
      assert (a + b)[1..] == a[1..] + b;
    }
  }

  lemma ConcatAssociates<T>(a: seq<T>, b: seq<T>, c: seq<T>)
    ensures (a + b) + c == a + (b + c)
  {
  }

  lemma {:induction false} PayloadConcat(a: seq<Frame>, b: seq<Frame>)
    ensures Payload(a + b) == Payload(a) + Payload(b)
  {
    if a == [] {
      assert a + b == b;
    } else {
      PayloadConcat(a[1..], b);
      assert (a + b)[1..] == a[1..] + b;
      ConcatAssociates(a[0].data, Payload(a[1..]), Payload(b));
    }
  }

  /** The bytes that follow the header of a frame with n bytes of data. */
  function BodyLength(n: nat): nat {
    if n < 8 then 8 else (n + 7) / 8 * 8
  }

  /** A reader that takes the header, the rounded-up length and decrypts gets the data back, whatever the filler. */
  lemma FrameOpens(s: Session, fr: Frame)
    requires fr.Valid()
    ensures var w, n := WireFrame(s, fr), |fr.data|;
            && |w| == HDRSIZE + BodyLength(n)
            && N2l(w[..HDRSIZE]) == n
            && 8 * Count(n) <= BodyLength(n)
            && Unseal(s, w[HDRSIZE..][..8 * Count(n)], n) == fr.data
  {
    hide L2n, N2l, Seal, Unseal;
    var n := |fr.data|;
    var body := Seal(s, fr.data + fr.filler);
    N2lL2n(n);
    assert WireFrame(s, fr)[..HDRSIZE] == L2n(n) && WireFrame(s, fr)[HDRSIZE..] == body;
    UnsealSeal(s, fr.data + fr.filler);
    if n == 0 {
      assert fr.data == [];
    } else {
      assert body[..8 * Count(n)] == body;
      UnsealPrefix(s, body, |fr.data + fr.filler|, n);
    }
  }
}
