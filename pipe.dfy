/** The in-kernel pipe (kernel/src/process/pipe.rs): a byte queue shared by
  * a writing end and a reading end.  Writes append, reads take from the
  * front, so bytes come out in the order they went in. */
module Pipes {
  import opened Common
  import opened Io

  /** `Pipe`: the bytes written and not yet read. */
  class Pipe {
    var bytes: seq<byte>

    constructor()
      ensures bytes == []
    {
      bytes := [];
    }
  }

  /** `PipeResource`: an end of a pipe, sharing the pipe with the other end. */
  datatype PipeResource = Writer(pipe: Pipe) | Reader(pipe: Pipe)

  /** A read with room for `room` bytes: what it hands out and what stays. */
  function ReadOut(bytes: seq<byte>, room: nat): (r: (seq<byte>, seq<byte>))
    ensures |r.0| == Min(|bytes|, room)
    ensures r.0 + r.1 == bytes
  {
    var k := Min(|bytes|, room);
    assert bytes[..k] + bytes[k..] == bytes;
    (bytes[..k], bytes[k..])
  }

  /** One use of the pipe: a write of some bytes or a read with some room. */
  datatype Use = Put(data: seq<byte>) | Take(room: nat)

  /** The bytes the reads of a sequence of uses get, in order, and the
    * bytes left in the pipe afterwards. */
  function Run(bytes: seq<byte>, uses: seq<Use>): (r: (seq<byte>, seq<byte>))
    decreases |uses|
  {
    if uses == [] then ([], bytes)
    else if uses[0].Put? then Run(bytes + uses[0].data, uses[1..])
    else
      var read := ReadOut(bytes, uses[0].room);
      var after := Run(read.1, uses[1..]);
      (read.0 + after.0, after.1)
  }

  /** Everything written, in order. */
  function Written(uses: seq<Use>): seq<byte>
    decreases |uses|
  {
    if uses == [] then []
    else (if uses[0].Put? then uses[0].data else []) + Written(uses[1..])
  }

  lemma Reassociate(out: seq<byte>, later: seq<byte>, left: seq<byte>, rest: seq<byte>, w: seq<byte>)
    requires later + left == rest + w
    ensures (out + later) + left == (out + rest) + w
  {
    calc {
      (out + later) + left;
      == out + (later + left);
      == out + (rest + w);
      == (out + rest) + w;
    }
  }

  /** First in, first out: what the reads get, followed by what is left,
    * is what was in the pipe followed by everything written. */
  lemma {:induction false} RunIsFifo(bytes: seq<byte>, uses: seq<Use>)
    ensures Run(bytes, uses).0 + Run(bytes, uses).1 == bytes + Written(uses)
    decreases |uses|
  {
    if uses != [] {
      var u := uses[0];
      var w := Written(uses[1..]);
      if u.Put? {
        RunIsFifo(bytes + u.data, uses[1..]);
        assert Written(uses) == u.data + w;
      } else {
        var read := ReadOut(bytes, u.room);
        RunIsFifo(read.1, uses[1..]);
        var after := Run(read.1, uses[1..]);
        assert Written(uses) == w;
        Reassociate(read.0, after.0, after.1, read.1, w);
      }
    }
  }

  /** So what the reads get is a prefix of everything written to an empty pipe. */
  lemma ReadsArePrefix(uses: seq<Use>)
    ensures Run([], uses).0 <= Written(uses)
  {
    RunIsFifo([], uses);
    var (out, left) := Run([], uses);
    assert out + left == Written(uses);
    assert Written(uses)[..|out|] == out;
  }

  /** `new_pair`: a writer and a reader over one fresh, empty pipe. */
  method NewPair() returns (writer: PipeResource, reader: PipeResource)
    ensures writer.Writer? && reader.Reader?
    ensures writer.pipe == reader.pipe && fresh(writer.pipe)
    ensures writer.pipe.bytes == []
  {
    var pipe := new Pipe();
    writer := Writer(pipe);
    reader := Reader(pipe);
  }

  /** `duplicate`: the same kind of end over the same pipe. */
  function Duplicate(res: PipeResource): (r: Result<PipeResource, ErrorKind>)
    ensures r.Ok? && r.value.pipe == res.pipe && r.value.Writer? == res.Writer?
  {
    match res
    case Writer(pipe) => Ok(Writer(pipe))
    case Reader(pipe) => Ok(Reader(pipe))
  }

  /** `read`: a reader copies the first bytes of the pipe into `buf`, as many
    * as both hold, and takes them off; a writer cannot be read. */
  method Read(res: PipeResource, buf: array<byte>) returns (r: Result<nat, ErrorKind>)
    modifies res.pipe, buf
    ensures res.Writer? ==> r == Err(Unsupported) && unchanged(res.pipe) && unchanged(buf)
    ensures res.Reader? ==>
      var (out, rest) := ReadOut(old(res.pipe.bytes), buf.Length);
      r == Ok(|out|) && buf[..|out|] == out && buf[|out|..] == old(buf[|out|..])
      && res.pipe.bytes == rest
  {
    if res.Writer? {
      return Err(Unsupported);
    }
    var pipe := res.pipe;
    var amount := Min(|pipe.bytes|, buf.Length);
    var i := 0;
    while i < amount
      invariant 0 <= i <= amount <= |pipe.bytes|
      invariant buf[..i] == pipe.bytes[..i]
      invariant buf[amount..] == old(buf[amount..])
      invariant pipe.bytes == old(pipe.bytes)
    {
      buf[i] := pipe.bytes[i];
      i := i + 1;
    }
    pipe.bytes := pipe.bytes[amount..];
    r := Ok(amount);
  }

  /** `write`: a writer appends all of `buf` and reports its length; a
    * reader cannot be written. */
  method Write(res: PipeResource, buf: seq<byte>) returns (r: Result<nat, ErrorKind>)
    modifies res.pipe
    ensures res.Writer? ==> r == Ok(|buf|) && res.pipe.bytes == old(res.pipe.bytes) + buf
    ensures res.Reader? ==> r == Err(Unsupported) && unchanged(res.pipe)
  {
    if res.Reader? {
      return Err(Unsupported);
    }
    res.pipe.bytes := res.pipe.bytes + buf;
    r := Ok(|buf|);
  }

  /** `seek`: a pipe has no position. */
  function Seek(res: PipeResource, pos: SeekFrom): (r: Result<u64, ErrorKind>)
    ensures r.Err? && r.error == Unsupported
  {
    Err(Unsupported)
  }

  /** Bytes written at one end of a pair are read at the other, in order. */
  method WriteThenRead(data: seq<byte>, room: nat) returns (got: seq<byte>)
    ensures got == data[..Min(|data|, room)]
  {
    var writer, reader := NewPair();
    var w := Write(writer, data);
    var buf := new byte[room];
    var r := Read(reader, buf);
    got := buf[..r.value];
  }
}
