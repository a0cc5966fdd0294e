/** The kernel's `no_std` replacement for `std::io` (lib/shim/src/no_std/io.rs):
  * error kinds, `SeekFrom`, the `Cursor` over a byte buffer, and the default
  * `read_exact`, `read_to_end` and `write_all` methods.  The default methods are
  * generic over any reader or writer; here they run on a scripted reader and a
  * scripted writer whose answers to successive `read`/`write` calls are given
  * up front, which covers every answer a real implementation may give. */
module Io {
  import opened Common

  datatype ErrorKind =
    | NotFound | PermissionDenied | ConnectionRefused | ConnectionReset | HostUnreachable
    | NetworkUnreachable | ConnectionAborted | NotConnected | AddrInUse | AddrNotAvailable
    | NetworkDown | BrokenPipe | AlreadyExists | WouldBlock | NotADirectory | IsADirectory
    | DirectoryNotEmpty | ReadOnlyFilesystem | FilesystemLoop | StaleNetworkFileHandle
    | InvalidInput | InvalidData | TimedOut | WriteZero | StorageFull | NotSeekable
    | FilesystemQuotaExceeded | FileTooLarge | ResourceBusy | ExecutableFileBusy | Deadlock
    | CrossesDevices | TooManyLinks | InvalidFilename | ArgumentListTooLong | Interrupted
    | Unsupported | UnexpectedEof | OutOfMemory | Other

  const I64_MIN: int := -0x8000_0000_0000_0000
  const I64_LIMIT: int := 0x8000_0000_0000_0000
  type i64 = x: int | -0x8000_0000_0000_0000 <= x < 0x8000_0000_0000_0000

  datatype SeekFrom = Start(offset: u64) | End(back: i64) | Current(delta: i64)

  /** `n as i64`: the two's-complement reading of a `u64`. */
  function U64AsI64(n: u64): (r: i64)
    ensures n < I64_LIMIT ==> r == n
    ensures n >= I64_LIMIT ==> r < 0
  {
    if n < I64_LIMIT then n else n - U64_LIMIT
  }

  /** `checked_add` / `checked_sub` on `i64`: `None` when the exact value does not fit. */
  function CheckedI64(v: int): (r: Option<i64>)
    ensures r.Some? <==> I64_MIN <= v < I64_LIMIT
    ensures r.Some? ==> r.value == v
  {
    if I64_MIN <= v < I64_LIMIT then Some(v) else None
  }

  /** The target position `Cursor::seek` computes for a buffer of `len` bytes.
    * The source accepts only targets strictly below `len`. */
  function SeekTarget(len: nat, position: u64, pos: SeekFrom): (r: Result<u64, ErrorKind>)
    requires len < I64_LIMIT
  {
    var target := match pos
      case Start(n) => Some(U64AsI64(n))
      case End(n) => CheckedI64(len - n)
      case Current(n) => CheckedI64(U64AsI64(position) + n);
    if target.None? then Err(InvalidInput)
    else if target.value < 0 || len <= target.value then Err(InvalidInput)
    else Ok(target.value)
  }

  /** The seek the source evidently intends: any target from 0 to `len` inclusive,
    * as `stream_len` needs for `SeekFrom::End(0)`. */
  function SeekTargetFixed(len: nat, position: u64, pos: SeekFrom): (r: Result<u64, ErrorKind>)
    requires len < I64_LIMIT
  {
    var target := match pos
      case Start(n) => Some(U64AsI64(n))
      case End(n) => CheckedI64(len - n)
      case Current(n) => CheckedI64(U64AsI64(position) + n);
    if target.None? then Err(InvalidInput)
    else if target.value < 0 || len < target.value then Err(InvalidInput)
    else Ok(target.value)
  }

  /** What a seek may return: a position inside the buffer, or `InvalidInput`;
    * `Start(n)` succeeds exactly for `n < len`. */
  lemma SeekTargetBounds(len: nat, position: u64, pos: SeekFrom)
    requires len < I64_LIMIT
    ensures SeekTarget(len, position, pos).Ok? ==> SeekTarget(len, position, pos).value < len
    ensures SeekTarget(len, position, pos).Err? ==> SeekTarget(len, position, pos).error == InvalidInput
    ensures pos.Start? ==> (SeekTarget(len, position, pos) == if pos.offset < len then Ok(pos.offset) else Err(InvalidInput))
  {
  }

  /** As written, seeking to the end (`End(0)`) fails for every buffer, so
    * `stream_len` always fails on a cursor. */
  lemma SeekToEndRejected(len: nat, position: u64)
    requires len < I64_LIMIT
    ensures SeekTarget(len, position, End(0)) == Err(InvalidInput)
  {
  }

  /** The corrected seek reaches the end of the buffer and agrees with the source
    * on every target strictly inside it. */
  lemma SeekTargetFixedToEnd(len: nat, position: u64, pos: SeekFrom)
    requires len < I64_LIMIT
    ensures SeekTargetFixed(len, position, End(0)) == Ok(len)
    ensures SeekTarget(len, position, pos).Ok? ==> SeekTargetFixed(len, position, pos) == SeekTarget(len, position, pos)
    ensures SeekTargetFixed(len, position, pos).Ok? ==> SeekTargetFixed(len, position, pos).value <= len
  {
  }

  /** `impl Read for &mut [u8]`: copy `min(buf.len(), src.len())` bytes of the
    * slice `src[from..]` to the front of `buf`. */
  method SliceRead(src: array<byte>, from: nat, buf: array<byte>) returns (n: nat)
    requires from <= src.Length && src != buf
    modifies buf
    ensures n == Min(buf.Length, src.Length - from)
    ensures buf[..n] == src[from..from + n] && buf[n..] == old(buf[n..])
  {
    n := Min(buf.Length, src.Length - from);
    var i := 0;
    while i < n
      invariant 0 <= i <= n
      invariant buf[..i] == src[from..from + i] && buf[i..] == old(buf[i..])
    {
      buf[i] := src[from + i];
      i := i + 1;
    }
  }

  /** `impl Write for &mut [u8]`: copy `min(buf.len(), dst.len())` bytes of `buf`
    * to the front of the slice `dst[from..]`. */
  method SliceWrite(dst: array<byte>, from: nat, buf: seq<byte>) returns (n: nat)
    requires from <= dst.Length
    modifies dst
    ensures n == Min(|buf|, dst.Length - from)
    ensures dst[..] == old(dst[..from]) + buf[..n] + old(dst[from + n..])
  {
    n := Min(|buf|, dst.Length - from);
    var i := 0;
    while i < n
      invariant 0 <= i <= n
      invariant dst[..] == old(dst[..from]) + buf[..i] + old(dst[from + i..])
    {
      dst[from + i] := buf[i];
      i := i + 1;
    }
  }

  /** `Cursor<T>` over a fixed buffer (`Box<[u8]>`, `Vec<u8>` or `&mut [u8]`). */
  class Cursor {
    const data: array<byte>
    var position: u64

    ghost predicate Valid()
      reads this
    {
      position <= data.Length < I64_LIMIT
    }

    constructor (data: array<byte>)
      requires data.Length < I64_LIMIT
      ensures Valid() && this.data == data && position == 0
    {
      this.data := data;
      position := 0;
    }

    /** `Seek::seek`, as written: it computes the target but never stores it. */
    method Seek(pos: SeekFrom) returns (r: Result<u64, ErrorKind>)
      requires Valid()
      ensures r == SeekTarget(data.Length, position, pos)
    {
      r := SeekTarget(data.Length, position, pos);
    }

    /** The seek evidently intended: move to the target, which may be the end. */
    method SeekFixed(pos: SeekFrom) returns (r: Result<u64, ErrorKind>)
      requires Valid()
      modifies this`position
      ensures Valid()
      ensures r == SeekTargetFixed(data.Length, old(position), pos)
      ensures position == if r.Ok? then r.value else old(position)
    {
      r := SeekTargetFixed(data.Length, position, pos);
      if r.Ok? {
        position := r.value;
      }
    }

    /** `read_with_buf`: read from the current position and advance past what was read. */
    method Read(buf: array<byte>) returns (r: Result<nat, ErrorKind>)
      requires Valid() && buf != data
      modifies this`position, buf
      ensures Valid()
      ensures r.Ok? && r.value == Min(buf.Length, data.Length - old(position))
      ensures buf[..r.value] == data[old(position)..old(position) + r.value]
      ensures buf[r.value..] == old(buf[r.value..])
      ensures position == old(position) + r.value
    {
      var n := SliceRead(data, position, buf);
      position := position + n;
      r := Ok(n);
    }

    /** `write_with_buf`: overwrite from the current position (the buffer never
      * grows) and advance past what was written. */
    method Write(buf: seq<byte>) returns (r: Result<nat, ErrorKind>)
      requires Valid()
      modifies this`position, data
      ensures Valid()
      ensures r.Ok? && r.value == Min(|buf|, data.Length - old(position))
      ensures data[..] == old(data[..position]) + buf[..r.value] + old(data[position + r.value..])
      ensures position == old(position) + r.value
    {
      var n := SliceWrite(data, position, buf);
      position := position + n;
      r := Ok(n);
    }
  }

  /** A seek followed by a read reads from where the cursor was, not from the
    * target of the seek. */
  method SeekIsForgotten()
  {
    var a := new byte[2](i => i + 10);
    var c := new Cursor(a);
    var s := c.Seek(Start(1));
    assert s == Ok(1);
    var buf := new byte[1];
    var r := c.Read(buf);
    assert buf[0] == 10;
  }

  /** With the corrected seek, the read starts at the target. */
  method SeekFixedIsObeyed()
  {
    var a := new byte[2](i => i + 10);
    var c := new Cursor(a);
    var s := c.SeekFixed(Start(1));
    assert s == Ok(1);
    var buf := new byte[1];
    var r := c.Read(buf);
    assert c.data == a && a[1] == 11;
    assert buf[..1] == a[1..2];
    assert buf[0] == 11;
  }

  // ---------------------------------------------------------------------------
  // Readers

  /** The answer a reader gives to one `read` call: some bytes (an empty answer is
    * the end of the stream) or an error. */
  datatype Reply = Data(bytes: seq<byte>) | Fail(kind: ErrorKind)

  function ReplySize(rs: seq<Reply>): nat
  {
    if rs == [] then 0
    else 1 + (if rs[0].Data? then |rs[0].bytes| else 0) + ReplySize(rs[1..])
  }

  /** One `read` call with room for `room` bytes: a data reply hands over at most
    * `room` bytes and keeps the rest for the next call; an exhausted script reads
    * as the end of the stream. */
  function ReadStep(rs: seq<Reply>, room: nat): (s: (Result<seq<byte>, ErrorKind>, seq<Reply>))
    ensures s.0.Ok? ==> |s.0.value| <= room
    ensures ReplySize(s.1) <= ReplySize(rs)
    ensures room > 0 && rs != [] ==> ReplySize(s.1) < ReplySize(rs)
  {
    if rs == [] || room == 0 then (Ok([]), rs)
    else match rs[0]
      case Fail(k) => (Err(k), rs[1..])
      case Data(d) =>
        if |d| <= room then (Ok(d), rs[1..])
        else
          var rest := [Data(d[room..])] + rs[1..];
          assert rest[1..] == rs[1..];
          (Ok(d[..room]), rest)
  }

  /** The bytes a reader delivers before it reports the end of the stream or an
    * error other than `Interrupted` (which callers retry). */
  function Available(rs: seq<Reply>): seq<byte>
  {
    if rs == [] then []
    else match rs[0]
      case Data(d) => if d == [] then [] else d + Available(rs[1..])
      case Fail(k) => if k == Interrupted then Available(rs[1..]) else []
  }

  /** Why `Available` stopped: `UnexpectedEof` at the end of the stream, otherwise the error. */
  function StopKind(rs: seq<Reply>): ErrorKind
  {
    if rs == [] then UnexpectedEof
    else match rs[0]
      case Data(d) => if d == [] then UnexpectedEof else StopKind(rs[1..])
      case Fail(k) => if k == Interrupted then StopKind(rs[1..]) else k
  }

  /** `read_exact` step by step: the outcome, the bytes placed at the front of the
    * buffer, and the replies left unconsumed. */
  function ReadExactSpec(rs: seq<Reply>, want: nat): (s: (Result<(), ErrorKind>, seq<byte>, seq<Reply>))
    ensures |s.1| <= want
    decreases ReplySize(rs)
  {
    if want == 0 then (Ok(()), [], rs)
    else
      var step := ReadStep(rs, want);
      match step.0
      case Ok(d) =>
        if d == [] then (Err(UnexpectedEof), [], step.1)
        else
          var more := ReadExactSpec(step.1, want - |d|);
          (more.0, d + more.1, more.2)
      case Err(k) =>
        if k == Interrupted then ReadExactSpec(step.1, want) else (Err(k), [], step.1)
  }

  /** `read_exact` fills the buffer exactly when the reader has `want` bytes
    * available; either way the buffer's front holds the available bytes in
    * order, and a failure reports the end of the stream or the reader's error. */
  lemma {:induction false} ReadExactMeetsAvailable(rs: seq<Reply>, want: nat)
    ensures var s := ReadExactSpec(rs, want);
      && s.1 == Available(rs)[..Min(want, |Available(rs)|)]
      && (s.0.Ok? <==> |Available(rs)| >= want)
      && (s.0.Err? ==> s.0.error == StopKind(rs))
    decreases ReplySize(rs)
  {
    if want > 0 && rs != [] {
      var step := ReadStep(rs, want);
      match rs[0]
      case Data(d) =>
        if d != [] {
          if |d| <= want {
            ReadExactMeetsAvailable(rs[1..], want - |d|);
          } else {
            assert Available(rs)[..want] == d[..want];
          }
        }
      case Fail(k) =>
        if k == Interrupted {
          ReadExactMeetsAvailable(rs[1..], want);
        }
    }
  }

  /** `read_to_end` as written: every call appends the whole 256-byte scratch
    * buffer, including the final call that read nothing. */
  function ReadToEndSpec(rs: seq<Reply>): (s: (Result<(), ErrorKind>, seq<byte>, seq<Reply>))
    decreases ReplySize(rs)
  {
    var step := ReadStep(rs, 256);
    match step.0
    case Err(k) => (Err(k), [], step.1)
    case Ok(d) =>
      var chunk := d + Zeros(256 - |d|);
      if d == [] then (Ok(()), chunk, step.1)
      else
        var more := ReadToEndSpec(step.1);
        (more.0, chunk + more.1, more.2)
  }

  /** `read_to_end` as evidently intended: append only what each call read. */
  function ReadToEndFixedSpec(rs: seq<Reply>): (s: (Result<(), ErrorKind>, seq<byte>, seq<Reply>))
    decreases ReplySize(rs)
  {
    var step := ReadStep(rs, 256);
    match step.0
    case Err(k) => (Err(k), [], step.1)
    case Ok(d) =>
      if d == [] then (Ok(()), [], step.1)
      else
        var more := ReadToEndFixedSpec(step.1);
        (more.0, d + more.1, more.2)
  }

  /** `n` zero bytes. */
  function Zeros(n: nat): (z: seq<byte>)
    ensures |z| == n && forall i :: 0 <= i < n ==> z[i] == 0
  {
    seq(n, _ => 0)
  }

  /** The stream up to its end or first error, with no retry of `Interrupted`. */
  function UntilStop(rs: seq<Reply>): seq<byte>
  {
    if rs == [] then []
    else match rs[0]
      case Data(d) => if d == [] then [] else d + UntilStop(rs[1..])
      case Fail(_) => []
  }

  /** Whether the stream reaches its end before any error. */
  predicate EndsCleanly(rs: seq<Reply>)
  {
    if rs == [] then true
    else match rs[0]
      case Data(d) => d == [] || EndsCleanly(rs[1..])
      case Fail(_) => false
  }

  /** As written, every successful `read_to_end` reports a multiple of 256 bytes,
    * at least 256 of them, whatever the stream held. */
  lemma {:induction false} ReadToEndPadsTo256(rs: seq<Reply>)
    ensures var s := ReadToEndSpec(rs); s.0.Ok? ==> |s.1| % 256 == 0 && |s.1| >= 256
    decreases ReplySize(rs)
  {
    var step := ReadStep(rs, 256);
    match step.0
    case Err(_) =>
    case Ok(d) =>
      if d != [] {
        ReadToEndPadsTo256(step.1);
        var more := ReadToEndSpec(step.1);
        assert ReadToEndSpec(rs).1 == (d + Zeros(256 - |d|)) + more.1;
        if more.0.Ok? {
          AddBlock(|more.1|);
        }
      }
  }

  lemma AddBlock(x: nat)
    requires x % 256 == 0
    ensures (256 + x) % 256 == 0
  {
  }

  /** An empty stream: the source appends 256 zero bytes and reports 256; the
    * corrected version appends nothing. */
  lemma ReadToEndOnEmptyStream()
    ensures ReadToEndSpec([]) == (Ok(()), Zeros(256), [])
    ensures ReadToEndFixedSpec([]) == (Ok(()), [], [])
  {
    assert ReadStep([], 256) == (Ok([]), []);
    assert [] + Zeros(256 - 0) == Zeros(256);
  }

  /** The corrected `read_to_end` appends exactly the stream's bytes up to its end
    * (or up to the first error) and succeeds exactly when the stream ends cleanly. */
  lemma {:induction false} ReadToEndFixedReadsStream(rs: seq<Reply>)
    ensures var s := ReadToEndFixedSpec(rs); s.1 == UntilStop(rs) && (s.0.Ok? <==> EndsCleanly(rs))
    decreases ReplySize(rs)
  {
    if rs != [] {
      match rs[0]
      case Data(d) =>
        if d != [] {
          if |d| <= 256 {
            ReadToEndFixedReadsStream(rs[1..]);
          } else {
            var rest := [Data(d[256..])] + rs[1..];
            assert rest[1..] == rs[1..];
            ReadToEndFixedReadsStream(rest);
            assert d == d[..256] + d[256..];
          }
        }
      case Fail(_) =>
    }
  }

  /** A reader that answers successive `read` calls from a script. */
  class ScriptedReader {
    var replies: seq<Reply>

    constructor (replies: seq<Reply>)
      ensures this.replies == replies
    {
      this.replies := replies;
    }

    /** `Read::read` into `buf[from..]`. */
    method Read(buf: array<byte>, from: nat) returns (r: Result<nat, ErrorKind>)
      requires from <= buf.Length
      modifies this`replies, buf
      ensures replies == ReadStep(old(replies), buf.Length - from).1
      ensures ReadStep(old(replies), buf.Length - from).0.Ok? ==>
        r == Ok(|ReadStep(old(replies), buf.Length - from).0.value|) &&
        buf[..] == Spliced(old(buf[..]), from, ReadStep(old(replies), buf.Length - from).0.value)
      ensures ReadStep(old(replies), buf.Length - from).0.Err? ==>
        r == Err(ReadStep(old(replies), buf.Length - from).0.error) && buf[..] == old(buf[..])
    {
      var step := ReadStep(replies, buf.Length - from);
      replies := step.1;
      if step.0.Err? {
        return Err(step.0.error);
      }
      var d := step.0.value;
      var i := 0;
      while i < |d|
        modifies buf
        invariant 0 <= i <= |d|
        invariant forall j :: 0 <= j < buf.Length ==>
          buf[j] == if from <= j < from + i then d[j - from] else old(buf[j])
      {
        buf[from + i] := d[i];
        i := i + 1;
      }
      SplicedIs(old(buf[..]), buf[..], from, d);
      r := Ok(|d|);
    }

    /** `Read::read_exact`. */
    method ReadExact(buf: array<byte>) returns (r: Result<(), ErrorKind>)
      modifies this`replies, buf
      ensures var s := ReadExactSpec(old(replies), buf.Length);
        && r == s.0 && replies == s.2
        && |s.1| <= buf.Length && buf[..|s.1|] == s.1 && buf[|s.1|..] == old(buf[..])[|s.1|..]
    {
      ghost var s0 := ReadExactSpec(replies, buf.Length);
      ghost var initial := buf[..];
      ghost var done: seq<byte> := [];
      assert Filled(s0, done) == s0 by {
        assert done + s0.1 == s0.1;
      }
      var i := 0;
      while i < buf.Length
        invariant 0 <= i <= buf.Length && |done| == i
        invariant s0 == Filled(ReadExactSpec(replies, buf.Length - i), done)
        invariant buf[..i] == done && buf[i..] == initial[i..]
        decreases ReplySize(replies)
      {
        ghost var before := replies;
        ghost var bufBefore := buf[..];
        ghost var want := buf.Length - i;
        var n := Read(buf, i);
        if n.Err? {
          if n.error != Interrupted {
            ReadExactUnfoldErr(before, want);
            return Err(n.error);
          }
          ReadExactRetry(s0, before, replies, want, done);
        } else if n.value == 0 {
          ReadExactUnfoldEmpty(before, want);
          return Err(UnexpectedEof);
        } else {
          ghost var d := ReadStep(before, want).0.value;
          FilledPrefix(initial, bufBefore, buf[..], i, d);
          ReadExactAdvance(s0, before, replies, want, d, done);
          i := i + n.value;
          done := done + d;
        }
      }
      ReadExactSpecEmpty(replies);
      r := Ok(());
    }

    /** One `read` into a fresh 256-byte scratch buffer of zeros: the result
      * and the scratch buffer's contents afterwards. */
    method ReadScratch() returns (n: Result<nat, ErrorKind>, scratch: seq<byte>)
      modifies this`replies
      ensures replies == ReadStep(old(replies), 256).1
      ensures ReadStep(old(replies), 256).0.Err? ==> n == Err(ReadStep(old(replies), 256).0.error)
      ensures ReadStep(old(replies), 256).0.Ok? ==>
        n == Ok(|ReadStep(old(replies), 256).0.value|) &&
        scratch == ReadStep(old(replies), 256).0.value + Zeros(256 - n.value)
    {
      var a := new byte[256](_ => 0);
      assert a[..] == Zeros(256);
      n := Read(a, 0);
      scratch := a[..];
      if n.Ok? {
        assert scratch == Spliced(Zeros(256), 0, ReadStep(old(replies), 256).0.value);
        assert Zeros(256)[..0] == [];
      }
    }

    /** `Read::read_to_end`, as written; `buf` is the vector it extends. */
    method ReadToEnd(buf: seq<byte>) returns (r: Result<nat, ErrorKind>, out: seq<byte>)
      modifies this`replies
      ensures var s := ReadToEndSpec(old(replies));
        && out == buf + s.1 && replies == s.2
        && (r.Ok? <==> s.0.Ok?) && (r.Ok? ==> r.value == |s.1|) && (r.Err? ==> r.error == s.0.error)
    {
      ghost var s0 := ReadToEndSpec(replies);
      ghost var got: seq<byte> := [];
      assert Filled(s0, got) == s0 by {
        assert got + s0.1 == s0.1;
      }
      out := buf;
      var going := true;
      while going
        invariant out == buf + got
        invariant going ==> s0 == Filled(ReadToEndSpec(replies), got)
        invariant !going ==> s0 == (Ok(()), got, replies)
        decreases ReplySize(replies), going
      {
        ghost var before := replies;
        var n, scratch := ReadScratch();
        if n.Err? {
          ReadToEndStops(s0, before, replies, got);
          return Err(n.error), out;
        }
        ReadToEndAdvance(s0, before, replies, ReadStep(before, 256).0.value, got);
        out := out + scratch;
        got := got + scratch;
        going := n.value != 0;
      }
      r := Ok(|out| - |buf|);
    }

    /** `read_to_end` as evidently intended: extend by the bytes actually read. */
    method ReadToEndFixed(buf: seq<byte>) returns (r: Result<nat, ErrorKind>, out: seq<byte>)
      modifies this`replies
      ensures var s := ReadToEndFixedSpec(old(replies));
        && out == buf + s.1 && replies == s.2
        && (r.Ok? <==> s.0.Ok?) && (r.Ok? ==> r.value == |s.1|) && (r.Err? ==> r.error == s.0.error)
    {
      ghost var s0 := ReadToEndFixedSpec(replies);
      ghost var got: seq<byte> := [];
      assert Filled(s0, got) == s0 by {
        assert got + s0.1 == s0.1;
      }
      out := buf;
      var going := true;
      while going
        invariant out == buf + got
        invariant going ==> s0 == Filled(ReadToEndFixedSpec(replies), got)
        invariant !going ==> s0 == (Ok(()), got, replies)
        decreases ReplySize(replies), going
      {
        ghost var before := replies;
        var n, scratch := ReadScratch();
        if n.Err? {
          ReadToEndFixedStops(s0, before, replies, got);
          return Err(n.error), out;
        }
        ghost var d := ReadStep(before, 256).0.value;
        assert scratch[..n.value] == d;
        ReadToEndFixedAdvance(s0, before, replies, d, got);
        out := out + scratch[..n.value];
        got := got + d;
        going := n.value != 0;
      }
      r := Ok(|out| - |buf|);
    }
  }

  /** A failed read ends `read_to_end` with its error. */
  lemma ReadToEndStops(s0: (Result<(), ErrorKind>, seq<byte>, seq<Reply>), rs: seq<Reply>, rs': seq<Reply>, got: seq<byte>)
    requires ReadStep(rs, 256).0.Err? && ReadStep(rs, 256).1 == rs'
    requires s0 == Filled(ReadToEndSpec(rs), got)
    ensures s0 == (Err(ReadStep(rs, 256).0.error), got, rs')
  {
    assert got + [] == got;
  }

  /** A read of `d` appends the whole scratch buffer; an empty one ends `read_to_end`. */
  lemma ReadToEndAdvance(s0: (Result<(), ErrorKind>, seq<byte>, seq<Reply>), rs: seq<Reply>, rs': seq<Reply>,
                         d: seq<byte>, got: seq<byte>)
    requires ReadStep(rs, 256) == (Ok(d), rs')
    requires s0 == Filled(ReadToEndSpec(rs), got)
    ensures |d| <= 256
    ensures d == [] ==> s0 == (Ok(()), got + (d + Zeros(256 - |d|)), rs')
    ensures d != [] ==> s0 == Filled(ReadToEndSpec(rs'), got + (d + Zeros(256 - |d|)))
  {
    var chunk := d + Zeros(256 - |d|);
    if d != [] {
      var more := ReadToEndSpec(rs');
      assert ReadToEndSpec(rs) == (more.0, chunk + more.1, more.2);
      assert got + (chunk + more.1) == (got + chunk) + more.1;
    }
  }

  lemma ReadToEndFixedStops(s0: (Result<(), ErrorKind>, seq<byte>, seq<Reply>), rs: seq<Reply>, rs': seq<Reply>, got: seq<byte>)
    requires ReadStep(rs, 256).0.Err? && ReadStep(rs, 256).1 == rs'
    requires s0 == Filled(ReadToEndFixedSpec(rs), got)
    ensures s0 == (Err(ReadStep(rs, 256).0.error), got, rs')
  {
    assert got + [] == got;
  }

  lemma ReadToEndFixedAdvance(s0: (Result<(), ErrorKind>, seq<byte>, seq<Reply>), rs: seq<Reply>, rs': seq<Reply>,
                              d: seq<byte>, got: seq<byte>)
    requires ReadStep(rs, 256) == (Ok(d), rs')
    requires s0 == Filled(ReadToEndFixedSpec(rs), got)
    ensures |d| <= 256
    ensures d == [] ==> s0 == (Ok(()), got + d, rs')
    ensures d != [] ==> s0 == Filled(ReadToEndFixedSpec(rs'), got + d)
  {
    if d != [] {
      var more := ReadToEndFixedSpec(rs');
      assert ReadToEndFixedSpec(rs) == (more.0, d + more.1, more.2);
      assert got + (d + more.1) == (got + d) + more.1;
    } else {
      assert got + [] == got;
    }
  }

  /** `before` with `d` written over it from `from` on. */
  function Spliced(before: seq<byte>, from: nat, d: seq<byte>): (r: seq<byte>)
    requires from + |d| <= |before|
    ensures |r| == |before|
  {
    before[..from] + d + before[from + |d|..]
  }

  lemma SplicedIs(before: seq<byte>, after: seq<byte>, from: nat, d: seq<byte>)
    requires |after| == |before| && from + |d| <= |before|
    requires forall j :: 0 <= j < |after| ==>
      after[j] == if from <= j < from + |d| then d[j - from] else before[j]
    ensures after == Spliced(before, from, d)
  {
    var r := Spliced(before, from, d);
    forall j | 0 <= j < |after|
      ensures after[j] == r[j]
    {
      if j < from {
        assert r[j] == before[..from][j];
      } else if j < from + |d| {
        assert r[j] == (before[..from] + d)[j];
      } else {
        assert r[j] == before[from + |d|..][j - from - |d|];
      }
    }
  }

  /** The outcome of `read_exact` once `done` is already in the buffer. */
  function Filled(s: (Result<(), ErrorKind>, seq<byte>, seq<Reply>), done: seq<byte>): (Result<(), ErrorKind>, seq<byte>, seq<Reply>)
  {
    (s.0, done + s.1, s.2)
  }

  /** A read that was interrupted is retried with the same request. */
  lemma ReadExactRetry(s0: (Result<(), ErrorKind>, seq<byte>, seq<Reply>), rs: seq<Reply>, rs': seq<Reply>,
                       want: nat, done: seq<byte>)
    requires want > 0 && ReadStep(rs, want) == (Err(Interrupted), rs')
    requires s0 == Filled(ReadExactSpec(rs, want), done)
    ensures s0 == Filled(ReadExactSpec(rs', want), done)
  {
  }

  /** A read that delivered `d` moves `d` to the bytes done. */
  lemma ReadExactAdvance(s0: (Result<(), ErrorKind>, seq<byte>, seq<Reply>), rs: seq<Reply>, rs': seq<Reply>,
                         want: nat, d: seq<byte>, done: seq<byte>)
    requires want > 0 && ReadStep(rs, want) == (Ok(d), rs') && d != []
    requires s0 == Filled(ReadExactSpec(rs, want), done)
    ensures |d| <= want && s0 == Filled(ReadExactSpec(rs', want - |d|), done + d)
  {
    var more := ReadExactSpec(rs', want - |d|);
    assert ReadExactSpec(rs, want) == (more.0, d + more.1, more.2);
    assert done + (d + more.1) == (done + d) + more.1;
  }

  /** One step of `ReadExactSpec` for a positive request, by the kind of reply. */
  lemma ReadExactUnfoldErr(rs: seq<Reply>, want: nat)
    requires want > 0 && ReadStep(rs, want).0.Err?
    ensures var step := ReadStep(rs, want);
      ReadExactSpec(rs, want) == if step.0.error == Interrupted then ReadExactSpec(step.1, want) else (Err(step.0.error), [], step.1)
  {
  }

  lemma ReadExactUnfoldEmpty(rs: seq<Reply>, want: nat)
    requires want > 0 && ReadStep(rs, want).0 == Ok([])
    ensures ReadExactSpec(rs, want) == (Err(UnexpectedEof), [], ReadStep(rs, want).1)
  {
  }

  /** Bookkeeping for one successful `read` inside `read_exact`. */
  lemma FilledPrefix(initial: seq<byte>, before: seq<byte>, after: seq<byte>, i: nat, d: seq<byte>)
    requires |initial| == |before| && i + |d| <= |before|
    requires after == Spliced(before, i, d)
    requires before[i..] == initial[i..]
    ensures after[..i + |d|] == before[..i] + d
    ensures after[i + |d|..] == initial[i + |d|..]
  {
    assert after[..i + |d|] == before[..i] + d;
    assert after[i + |d|..] == before[i + |d|..];
    assert before[i + |d|..] == before[i..][|d|..];
  }

  lemma ReadExactSpecEmpty(rs: seq<Reply>)
    ensures ReadExactSpec(rs, 0) == (Ok(()), [], rs)
  {
  }

  // ---------------------------------------------------------------------------
  // Writers

  /** The answer a writer gives to one `write` call: it accepts up to `count`
    * bytes, or fails. */
  datatype WriteReply = Accept(count: nat) | Refuse(kind: ErrorKind)

  /** One `write` call offering `offered` bytes; an exhausted script accepts nothing. */
  function WriteStep(ws: seq<WriteReply>, offered: nat): (s: (Result<nat, ErrorKind>, seq<WriteReply>))
    ensures s.0.Ok? ==> s.0.value <= offered
    ensures ws != [] ==> |s.1| < |ws|
  {
    if ws == [] then (Ok(0 as nat), ws)
    else match ws[0]
      case Accept(n) => var k: nat := Min(n, offered); (Ok(k), ws[1..])
      case Refuse(k) => (Err(k), ws[1..])
  }

  /** `write_all` step by step: the outcome, how many bytes of the buffer the
    * writer took, and the replies left. */
  function WriteAllSpec(ws: seq<WriteReply>, len: nat): (s: (Result<(), ErrorKind>, nat, seq<WriteReply>))
    ensures s.1 <= len
    decreases |ws|
  {
    if len == 0 then (Ok(()), 0, ws)
    else
      var step := WriteStep(ws, len);
      match step.0
      case Ok(k) =>
        if k == 0 then (Err(WriteZero), 0, step.1)
        else
          var more := WriteAllSpec(step.1, len - k);
          (more.0, k + more.1, more.2)
      case Err(e) =>
        if e == Interrupted then WriteAllSpec(step.1, len) else (Err(e), 0, step.1)
  }

  /** How many bytes the writer takes before it accepts nothing or fails with an
    * error other than `Interrupted`. */
  function Capacity(ws: seq<WriteReply>): nat
  {
    if ws == [] then 0
    else match ws[0]
      case Accept(n) => if n == 0 then 0 else n + Capacity(ws[1..])
      case Refuse(k) => if k == Interrupted then Capacity(ws[1..]) else 0
  }

  function WriteStopKind(ws: seq<WriteReply>): ErrorKind
  {
    if ws == [] then WriteZero
    else match ws[0]
      case Accept(n) => if n == 0 then WriteZero else WriteStopKind(ws[1..])
      case Refuse(k) => if k == Interrupted then WriteStopKind(ws[1..]) else k
  }

  /** `write_all` succeeds exactly when the writer can take the whole buffer; it
    * always hands over the longest prefix the writer accepts, and a failure is
    * `WriteZero` or the writer's own error. */
  lemma {:induction false} WriteAllMeetsCapacity(ws: seq<WriteReply>, len: nat)
    ensures var s := WriteAllSpec(ws, len);
      && s.1 == Min(len, Capacity(ws))
      && (s.0.Ok? <==> Capacity(ws) >= len)
      && (s.0.Err? ==> s.0.error == WriteStopKind(ws))
    decreases |ws|
  {
    if len > 0 && ws != [] {
      match ws[0]
      case Accept(n) =>
        if n > 0 {
          WriteAllMeetsCapacity(ws[1..], len - Min(n, len));
        }
      case Refuse(k) =>
        if k == Interrupted {
          WriteAllMeetsCapacity(ws[1..], len);
        }
    }
  }

  /** A writer that answers successive `write` calls from a script and collects
    * what it accepts in `sink`. */
  class ScriptedWriter {
    var replies: seq<WriteReply>
    var sink: seq<byte>

    constructor (replies: seq<WriteReply>)
      ensures this.replies == replies && sink == []
    {
      this.replies := replies;
      sink := [];
    }

    method Write(buf: seq<byte>) returns (r: Result<nat, ErrorKind>)
      modifies this
      ensures r == WriteStep(old(replies), |buf|).0 && replies == WriteStep(old(replies), |buf|).1
      ensures sink == old(sink) + (if r.Ok? then buf[..r.value] else [])
    {
      var step := WriteStep(replies, |buf|);
      replies := step.1;
      r := step.0;
      if r.Ok? {
        sink := sink + buf[..r.value];
      }
    }

    /** `Write::write_all`. */
    method WriteAll(buf: seq<byte>) returns (r: Result<(), ErrorKind>)
      modifies this
      ensures var s := WriteAllSpec(old(replies), |buf|);
        && r == s.0 && replies == s.2 && s.1 <= |buf| && sink == old(sink) + buf[..s.1]
    {
      ghost var s0 := WriteAllSpec(replies, |buf|);
      var i := 0;
      ghost var rest := |buf|;
      while i < |buf|
        invariant 0 <= i <= |buf| && rest == |buf| - i
        invariant s0 == Taken(WriteAllSpec(replies, rest), i)
        invariant sink == old(sink) + buf[..i]
        decreases |replies|
      {
        ghost var before := replies;
        var n := Write(buf[i..]);
        if n.Err? {
          WriteAllUnfoldErr(s0, before, replies, rest, i);
          if n.error != Interrupted {
            return Err(n.error);
          }
        } else if n.value == 0 {
          WriteAllUnfoldZero(s0, before, replies, rest, i);
          return Err(WriteZero);
        } else {
          WriteAllAdvance(s0, before, replies, rest, n.value, i);
          SliceAdvance(buf, i, n.value);
          i := i + n.value;
          rest := rest - n.value;
        }
      }
      r := Ok(());
    }
  }

  /** The outcome of `write_all` once `done` bytes are already taken. */
  function Taken(s: (Result<(), ErrorKind>, nat, seq<WriteReply>), done: nat): (Result<(), ErrorKind>, nat, seq<WriteReply>)
  {
    (s.0, done + s.1, s.2)
  }

  /** A failed write ends `write_all` with its error, or is retried when interrupted. */
  lemma WriteAllUnfoldErr(s0: (Result<(), ErrorKind>, nat, seq<WriteReply>), ws: seq<WriteReply>, ws': seq<WriteReply>,
                          len: nat, done: nat)
    requires len > 0 && WriteStep(ws, len).0.Err? && WriteStep(ws, len).1 == ws'
    requires s0 == Taken(WriteAllSpec(ws, len), done)
    ensures WriteStep(ws, len).0.error == Interrupted ==> s0 == Taken(WriteAllSpec(ws', len), done)
    ensures WriteStep(ws, len).0.error != Interrupted ==> s0 == (Err(WriteStep(ws, len).0.error), done, ws')
  {
  }

  /** A write that takes nothing ends `write_all` with `WriteZero`. */
  lemma WriteAllUnfoldZero(s0: (Result<(), ErrorKind>, nat, seq<WriteReply>), ws: seq<WriteReply>, ws': seq<WriteReply>,
                           len: nat, done: nat)
    requires len > 0 && WriteStep(ws, len) == (Ok(0), ws')
    requires s0 == Taken(WriteAllSpec(ws, len), done)
    ensures s0 == (Err(WriteZero), done, ws')
  {
  }

  /** The bytes before `i` and the next `k` are the bytes before `i + k`. */
  lemma SliceAdvance(buf: seq<byte>, i: nat, k: nat)
    requires i + k <= |buf|
    ensures buf[..i] + buf[i..][..k] == buf[..i + k]
  {
  }

  /** A write that takes `k` bytes moves them to the bytes done. */
  lemma WriteAllAdvance(s0: (Result<(), ErrorKind>, nat, seq<WriteReply>), ws: seq<WriteReply>, ws': seq<WriteReply>,
                        len: nat, k: nat, done: nat)
    requires len > 0 && k > 0 && WriteStep(ws, len) == (Ok(k), ws')
    requires s0 == Taken(WriteAllSpec(ws, len), done)
    ensures k <= len && s0 == Taken(WriteAllSpec(ws', len - k), done + k)
  {
  }
}
