/** des_enc_read (lib/crypto/enc_read.c). */
module EncRead {
  import opened Options
  import opened DesLocal
  import opened Blocks
  import opened LengthHeader
  import opened Frames
  import opened Connections
  import opened CbcEncrypt
  import opened PcbcEncrypt
  import opened Feistel

  // ---------- What one call does ----------

  /** The frames not yet taken from the connection, and the plaintext left over from the last one. */
  datatype Incoming = Incoming(left: seq<Byte>, frames: seq<Frame>) {
    /** Everything written and not yet delivered. */
    function Undelivered(): seq<Byte> {
      left + Payload(frames)
    }
  }

  /** What a call returns of a frame's data, and what it keeps. */
  function Cut(data: seq<Byte>, len: nat): (seq<Byte>, seq<Byte>) {
    var m := if len > MAXWRITE then MAXWRITE else len;
    if m < |data| then (data[..m], data[m..]) else (data, [])
  }

  /** What it returns of the left-over plaintext, and what it keeps. */
  function Share(left: seq<Byte>, len: nat): (seq<Byte>, seq<Byte>) {
    if |left| < len then (left, []) else (left[..len], left[len..])
  }

  /** The bytes one call returns and what remains after it. */
  function ReadStep(st: Incoming, len: nat): (seq<Byte>, Incoming) {
    if st.left != [] then
      var (out, left) := Share(st.left, len);
      (out, Incoming(left, st.frames))
    else if st.frames == [] then
      ([], st)
    else
      var (out, left) := Cut(st.frames[0].data, len);
      (out, Incoming(left, st.frames[1..]))
  }

  /** A call returns at most what was asked for, and loses, repeats and reorders nothing. */
  lemma ReadStepConserves(st: Incoming, len: nat)
    ensures var (out, st') := ReadStep(st, len);
            |out| <= len && out + st'.Undelivered() == st.Undelivered()
  {
    var (out, st') := ReadStep(st, len);
    if st.left != [] {
      assert |st.left| >= len ==> st.left == st.left[..len] + st.left[len..];
    } else if st.frames != [] {
      var data := st.frames[0].data;
      assert data == out + st'.left;
    }
  }

  /**
   How much a call returns: as much as was asked for of the left-over plaintext, or of the next frame,
   if there is as much, and never more than 16384 bytes of a frame. It takes a frame exactly when
   nothing was left over.
   */
  lemma ReadStepTakes(st: Incoming, len: nat)
    requires forall fr | fr in st.frames :: fr.Valid()
    ensures var (out, next) := ReadStep(st, len);
            && (st.left != [] ==> |out| == (if len < |st.left| then len else |st.left|) && next.frames == st.frames)
            && (st.left == [] && st.frames != [] ==>
                 var n := |st.frames[0].data|;
                 && n <= 16384 && |out| == (if len < n then len else n)
                 && next.frames == st.frames[1..])
            && (st.left == [] && st.frames == [] ==> out == [] && next == st)
  {
    assert st.frames != [] ==> st.frames[0] in st.frames;
  }

  // ---------- On any bytes ----------

  /** The left-over plaintext and the bytes on the connection, whoever wrote them. */
  datatype Raw = Raw(left: seq<Byte>, bytes: seq<Byte>)

  /** The data of the frame that the bytes begin with, unless they end before it does, and the bytes after it. */
  function Parsed(s: Session, bytes: seq<Byte>): (Option<seq<Byte>>, seq<Byte>) {
    if |bytes| < HDRSIZE then (None, [])
    else
      var n, body := N2l(bytes[..HDRSIZE]), bytes[HDRSIZE..];
      if |body| < BodyLength(n) then (None, [])
      else
        BodyCovers(n);
        (Some(Unseal(s, body[..8 * Count(n)], n)), body[BodyLength(n)..])
  }

  lemma BodyCovers(n: nat)
    ensures 8 * Count(n) <= BodyLength(n) && n <= BodyLength(n)
  {
  }

  function ReadRaw(s: Session, st: Raw, len: nat): (seq<Byte>, Raw) {
    if st.left != [] then
      var (out, left) := Share(st.left, len);
      (out, Raw(left, st.bytes))
    else
      var (data, rest) := Parsed(s, st.bytes);
      if data == None then ([], Raw([], rest))
      else
        var (out, left) := Cut(data.value, len);
        (out, Raw(left, rest))
  }

  /**
   What the buffer of BSIZE bytes demands of the connection: the frame that comes next fits, or no
   more than that arrives of it. A header from 2^31 on is a negative length and never fits.
   */
  ghost predicate Fits(bytes: seq<Byte>) {
    |bytes| >= HDRSIZE ==>
      var n := N2l(bytes[..HDRSIZE]);
      n < 0x8000_0000 && (BodyLength(n) <= BSIZE || |bytes| - HDRSIZE <= BSIZE)
  }

  /** The bodies that fit are exactly those of the lengths a writer sends. */
  lemma BodyFitsIff(n: nat)
    ensures BodyLength(n) <= BSIZE <==> n <= MAXWRITE
  {
  }

  /** Reading a header and as many bytes as it calls for takes exactly the first frame off the wire. */
  lemma FirstFrame(s: Session, frames: seq<Frame>, more: seq<Byte>)
    requires frames != [] && forall fr | fr in frames :: fr.Valid()
    ensures var w, n := Wire(s, frames) + more, |frames[0].data|;
            && |w| >= HDRSIZE && N2l(w[..HDRSIZE]) == n <= MAXWRITE
            && Parsed(s, w) == (Some(frames[0].data), Wire(s, frames[1..]) + more)
  {
    hide WireFrame, Unseal, N2l, Count, BodyLength;
    var w, f, data := Wire(s, frames) + more, WireFrame(s, frames[0]), frames[0].data;
    FrameOpens(s, frames[0]);
    BodyCovers(|data|);
    assert w == f + (Wire(s, frames[1..]) + more);
    assert w[..HDRSIZE] == f[..HDRSIZE];
    assert w[HDRSIZE..][..8 * Count(|data|)] == f[HDRSIZE..][..8 * Count(|data|)];
    assert w[HDRSIZE..][BodyLength(|data|)..] == Wire(s, frames[1..]) + more;
  }

  /** A cut of a frame: what arrives of the frame that is under way when the connection ends. */
  ghost predicate IsCut(s: Session, cut: seq<Byte>) {
    exists fr: Frame | fr.Valid() :: cut < WireFrame(s, fr)
  }

  lemma NothingIsCut(s: Session)
    ensures IsCut(s, [])
  {
    var fr := Frame([], Zeros(8));
    assert fr.Valid();
    FrameOpens(s, fr);
    assert [] < WireFrame(s, fr);
  }

  /**
   On whole frames, and the beginning of one more if the connection ends in
   the middle of it, a call takes the step above; of the frame that was cut
   it delivers nothing.
   */
  lemma RawStepIsReadStep(s: Session, st: Incoming, cut: seq<Byte>, len: nat)
    requires (forall fr | fr in st.frames :: fr.Valid()) && IsCut(s, cut)
    ensures Fits(Wire(s, st.frames) + cut)
    ensures var (out, next) := ReadStep(st, len);
            ReadRaw(s, Raw(st.left, Wire(s, st.frames) + cut), len) ==
            if st.left == [] && st.frames == [] then ([], Raw([], []))
            else (out, Raw(next.left, Wire(s, next.frames) + cut))
  {
    hide Unseal, WireFrame, N2l, Count, BodyLength;
    var w := Wire(s, st.frames) + cut;
    if st.frames == [] {
      var fr: Frame :| fr.Valid() && cut < WireFrame(s, fr);
      FrameOpens(s, fr);
      assert w == cut && Wire(s, []) == [];
      assert |cut| >= HDRSIZE ==> cut[..HDRSIZE] == WireFrame(s, fr)[..HDRSIZE];
      BodyFitsIff(|fr.data|);
    } else {
      FirstFrame(s, st.frames, cut);
      BodyFitsIff(|st.frames[0].data|);
    }
  }

  /** On whole frames alone: reading the bytes is reading the frames. */
  lemma RawStepOnFrames(s: Session, st: Incoming, len: nat)
    requires forall fr | fr in st.frames :: fr.Valid()
    ensures Fits(Wire(s, st.frames))
    ensures var (out, next) := ReadStep(st, len);
            && (forall fr | fr in next.frames :: fr.Valid())
            && ReadRaw(s, Raw(st.left, Wire(s, st.frames)), len) == (out, Raw(next.left, Wire(s, next.frames)))
  {
    hide Wire, ReadRaw, Fits, IsCut, Share, Cut;
    NothingIsCut(s);
    RawStepIsReadStep(s, st, [], len);
    assert Wire(s, st.frames) + [] == Wire(s, st.frames);
    var (_, next) := ReadStep(st, len);
    assert Wire(s, next.frames) + [] == Wire(s, next.frames);
    NoWire(s);
  }

  // ---------- The reader ----------

  class EncReader {
    var unnet: array<Byte>
    var unnetStart: nat
    var unnetLeft: nat

    ghost predicate Valid()
      reads this, unnet
    {
      unnet.Length == BSIZE && unnetStart + unnetLeft <= BSIZE
    }

    /** The plaintext left over from the last frame. */
    ghost function Left(): seq<Byte>
      reads this, unnet
      requires Valid()
    {
      unnet[unnetStart..unnetStart + unnetLeft]
    }

    constructor ()
      ensures Valid() && Left() == [] && fresh(unnet)
    {
      unnet := new Byte[BSIZE](i => 0);
      unnetStart, unnetLeft := 0, 0;
    }

    /** bcopy from one buffer to the start of another. */
    static method CopyTo(src: array<Byte>, from: nat, dst: array<Byte>, n: nat)
      requires from + n <= src.Length && n <= dst.Length && src != dst
      modifies dst
      ensures dst[..] == src[from..from + n] + old(dst[n..])
    {
      for i := 0 to n
        invariant dst[..i] == src[from..from + i] && dst[i..] == old(dst[i..])
      {
        dst[i] := src[from + i];
      }
    }

    /** The loops that fill net: read until n bytes are in, or the connection ends. */
    static method ReadFully(c: Connection, n: nat) returns (net: seq<Byte>)
      requires n <= BSIZE || |c.bytes| <= BSIZE
      modifies c
      ensures if |old(c.bytes)| >= n then net == old(c.bytes)[..n] && c.bytes == old(c.bytes)[n..]
              else net == old(c.bytes) && c.bytes == []
      ensures |net| <= BSIZE
    {
      net := [];
      while |net| < n
        invariant |net| <= n
        invariant old(c.bytes) == net + c.bytes
        decreases n - |net|
      {
        var got := c.Read(n - |net|);
        if got == [] {
          return;
        }
        net := net + got;
      }
    }

    /** pcbc_encrypt or cbc_encrypt of the first num bytes of a frame's body, as des_rw_mode says. */
    static method UnsealTo(s: Session, body: seq<Byte>, num: nat, iv: array<Byte>, out: array<Byte>)
      requires iv.Length == 8 && Load(iv[..]) == s.iv
      requires 8 * Count(num) <= |body| && num <= out.Length
      modifies out
      ensures out[..] == Unseal(s, body[..8 * Count(num)], num) + old(out[..])[num..]
    {
      hide Load, Des, CbcInverseBytes, PcbcInverseBytes, Count;
      var net := new Byte[|body|](i requires 0 <= i < |body| => body[i]);
      assert net[..] == body;
      if s.pcbc {
        DesPcbcEncrypt(s.f, net, out, num, s.ks, iv, false);
      } else {
        DesCbcEncrypt(s.f, net, out, num, s.ks, iv, false);
      }
    }

    /** The header and then the rounded-up number of bytes it calls for, unless the connection ends before. */
    static method TakeFrame(c: Connection, s: Session) returns (ok: bool, num: nat, body: seq<Byte>)
      requires Fits(c.bytes)
      modifies c
      ensures var (data, rest) := Parsed(s, old(c.bytes));
              && ok == data.Some? && c.bytes == rest
              && (ok ==>
                   && num <= MAXWRITE && 8 * Count(num) <= |body|
                   && data.value == Unseal(s, body[..8 * Count(num)], num))
    {
      hide Unseal, N2l, Count, BodyLength;
      ok, num, body := false, 0, [];
      assert |c.bytes| >= HDRSIZE ==> |c.bytes[HDRSIZE..]| == |c.bytes| - HDRSIZE;
      var header := ReadFully(c, HDRSIZE);
      if |header| < HDRSIZE {
        return;
      }
      num := N2l(header);
      BodyCovers(num);
      body := ReadFully(c, BodyLength(num));
      if |body| < BodyLength(num) {
        return;
      }
      ok := true;
      BodyFitsIff(num);
      assert body[..8 * Count(num)] == old(c.bytes)[HDRSIZE..][..8 * Count(num)];
    }

    /** The part of des_enc_read that serves a call from the left-over plaintext. */
    method TakeLeft(buf: array<Byte>, length: nat) returns (n: nat)
      requires Valid() && Left() != []
      requires length <= buf.Length && buf != unnet
      modifies this, buf
      ensures Valid() && unnet == old(unnet)
      ensures n <= length && n <= old(|Left()|)
      ensures old(Left()) == buf[..n] + Left() && buf[n..] == old(buf[n..])
      ensures n == if old(|Left()|) < length then old(|Left()|) else length
    {
      if unnetLeft < length {
        CopyTo(unnet, unnetStart, buf, unnetLeft);
        n := unnetLeft;
        unnetStart, unnetLeft := 0, 0;
      } else {
        CopyTo(unnet, unnetStart, buf, length);
        unnetStart := unnetStart + length;
        unnetLeft := unnetLeft - length;
        n := length;
      }
    }

    /** The part of des_enc_read that decrypts a frame, keeping back what was not asked for. */
    method Deliver(s: Session, body: seq<Byte>, num: nat, iv: array<Byte>, buf: array<Byte>, len: nat,
                   ghost data: seq<Byte>)
      returns (n: nat)
      requires Valid() && Left() == [] && iv.Length == 8 && Load(iv[..]) == s.iv
      requires len <= buf.Length && buf != unnet && iv != unnet && iv != buf
      requires num == |data| <= MAXWRITE && 8 * Count(num) <= |body|
      requires Unseal(s, body[..8 * Count(num)], num) == data
      modifies this, unnet, buf
      ensures Valid() && unnet == old(unnet)
      ensures n == if len < num then len else num
      ensures data == buf[..n] + Left() && buf[n..] == old(buf[n..])
    {
      hide Load, Unseal, Count;
      if len < num {
        UnsealTo(s, body, num, iv, unnet);
        CopyTo(unnet, 0, buf, len);
        unnetStart, unnetLeft := len, num - len;
        n := len;
      } else {
        if len < |body| {
          var tmpbuf := new Byte[BSIZE](i => 0);
          UnsealTo(s, body, num, iv, tmpbuf);
          CopyTo(tmpbuf, 0, buf, num);
        } else {
          UnsealTo(s, body, num, iv, buf);
        }
        n := num;
      }
    }

    /**
     des_enc_read. The buffer of a frame must hold what arrives of the next one.
     The caller's buffer holds at least the bytes asked for; what lies beyond the
     bytes returned is not touched.
     */
    method DesEncRead(c: Connection, buf: array<Byte>, length: nat, s: Session, iv: array<Byte>) returns (n: nat)
      requires Valid() && iv.Length == 8 && Load(iv[..]) == s.iv
      requires length <= buf.Length && buf != unnet && iv != unnet && iv != buf
      requires Left() == [] ==> Fits(c.bytes)
      modifies this, unnet, buf, c
      ensures Valid() && unnet == old(unnet) && n <= buf.Length && buf[n..] == old(buf[n..])
      ensures ReadRaw(s, Raw(old(Left()), old(c.bytes)), length) == (buf[..n], Raw(Left(), c.bytes))
    {
      hide Load, Unseal, Count, Parsed;
      if unnetLeft != 0 {
        ghost var left := Left();
        n := TakeLeft(buf, length);
        assert left[..n] == buf[..n] && left[n..] == Left() && left[..|left|] == left;
        return;
      }
      var len := if length > MAXWRITE then MAXWRITE else length;
      var ok, num, body := TakeFrame(c, s);
      if !ok {
        return 0;
      }
      ghost var data := Unseal(s, body[..8 * Count(num)], num);
      n := Deliver(s, body, num, iv, buf, len, data);
      assert data[..n] == buf[..n] && data[n..] == Left() && data[..|data|] == data;
    }
  }
}
