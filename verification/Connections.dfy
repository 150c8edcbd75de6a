/** The byte stream between the two ends: reads and writes may be short. */
module Connections {
  import opened DesLocal

  class Connection {
    /** Bytes written and not yet read. */
    var bytes: seq<Byte>

    constructor ()
      ensures bytes == []
    {
      bytes := [];
    }

    /** write(2): accepts at least one byte of a non-empty buffer. */
    method Write(buf: seq<Byte>) returns (i: nat)
      requires buf != []
      modifies this
      ensures 1 <= i <= |buf| && bytes == old(bytes) + buf[..i]
    {
      i :| 1 <= i <= |buf|;
      bytes := bytes + buf[..i];
    }

    /** read(2): at least one byte unless there is none to come, when it returns 0. */
    method Read(want: nat) returns (buf: seq<Byte>)
      requires want > 0
      modifies this
      ensures |buf| <= want && old(bytes) == buf + bytes
      ensures buf == [] <==> old(bytes) == []
    {
      if bytes == [] {
        return [];
      }
      var i :| 1 <= i <= |bytes| && i <= want;
      buf := bytes[..i];
      bytes := bytes[i..];
    }
  }
}
