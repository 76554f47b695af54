/** Byte streams: a downstream stream that records what it is asked to do,
    and Java's narrowing of an `int` to a `byte`. */
module Streams {
  import opened Common

  /** One call made on a downstream `OutputStream`. */
  datatype StreamEvent = Wrote(bytes: seq<byte>) | Flushed

  /** The bytes a downstream stream has received, in order. */
  function Forwarded(events: seq<StreamEvent>): seq<byte>
  {
    if events == [] then []
    else Forwarded(events[..|events| - 1]) + (match events[|events| - 1] case Wrote(b) => b case Flushed => [])
  }

  lemma {:induction false} ForwardedAppend(a: seq<StreamEvent>, b: seq<StreamEvent>)
    ensures Forwarded(a + b) == Forwarded(a) + Forwarded(b)
    decreases |b|
  {
    if b == [] {
      assert a + b == a;
    } else {
      var last := b[|b| - 1];
      assert (a + b)[..|a + b| - 1] == a + b[..|b| - 1];
      ForwardedAppend(a, b[..|b| - 1]);
    }
  }

  /** A write followed by a flush delivers exactly the written bytes. */
  lemma ForwardedWriteFlush(events: seq<StreamEvent>, bytes: seq<byte>)
    ensures Forwarded(events + [Wrote(bytes), Flushed]) == Forwarded(events) + bytes
  {
    var once := events + [Wrote(bytes)];
    assert (once + [Flushed])[..|once|] == once;
    assert once[..|events|] == events;
    assert events + [Wrote(bytes), Flushed] == once + [Flushed];
  }

  /** A caller's `OutputStream` (an HTTP response body, say): it keeps the
      calls made on it. */
  class RecordingStream {
    var events: seq<StreamEvent>

    constructor ()
      ensures events == []
    {
      events := [];
    }

    method Write(bytes: seq<byte>)
      modifies this
      ensures events == old(events) + [Wrote(bytes)]
    {
      events := events + [Wrote(bytes)];
    }

    method Flush()
      modifies this
      ensures events == old(events) + [Flushed]
    {
      events := events + [Flushed];
    }
  }

  /** `(byte) b`: the low eight bits of an `int`, kept as the unsigned
      pattern. */
  function LowByte(b: int): (r: byte)
    ensures r as int == b % 256
    ensures 0 <= b < 256 ==> r as int == b
  {
    (b % 256) as byte
  }

  /** The bounds check of `write(bytes, off, len)`: the slice must lie inside
      the array, otherwise IndexOutOfBoundsException. */
  predicate SliceInBounds(bytes: seq<byte>, off: int, ln: int)
  {
    0 <= off && 0 <= ln && off + ln <= |bytes|
  }
}

/** The `impl` generation's tee buffer: a `ByteArrayOutputStream` that also
    forwards every write to a response stream and flushes it. */
module ImplOutputStreamWrapper {
  import opened Common
  import opened Exceptions
  import opened Streams

  /** The downstream calls made by `write(byte[])`: the inherited
      `OutputStream.write(byte[])` dispatches to the overriding three-argument
      `write`, which forwards once; the method then forwards a second time. */
  function WriteBytesEvents(bytes: seq<byte>): (r: seq<StreamEvent>)
    ensures Forwarded(r) == bytes + bytes
  {
    ForwardedAppend([Wrote(bytes), Flushed], [Wrote(bytes), Flushed]);
    ForwardedWriteFlush([], bytes);
    ForwardedWriteFlush([Wrote(bytes), Flushed], bytes);
    [Wrote(bytes), Flushed] + [Wrote(bytes), Flushed]
  }

  /** Writing "hello" through `write(byte[])` leaves "hellohello" downstream
      while the wrapper's own buffer holds "hello" once. */
  lemma DoubleForward(bytes: seq<byte>)
    requires bytes != []
    ensures Forwarded(WriteBytesEvents(bytes)) != bytes
  {
    assert |Forwarded(WriteBytesEvents(bytes))| == 2 * |bytes|;
  }

  class Wrapper {
    /** The inherited buffer. */
    var data: seq<byte>
    const respOutStream: RecordingStream

    /** The downstream mirrors the buffer: what it received since the
        wrapper was built is exactly what the buffer holds. */
    ghost var base: seq<byte>

    ghost predicate Mirrors()
      reads this, respOutStream
    {
      Forwarded(respOutStream.events) == base + data
    }

    constructor (stream: RecordingStream)
      ensures data == [] && respOutStream == stream && Mirrors()
    {
      data := [];
      respOutStream := stream;
      base := Forwarded(stream.events);
    }

    /** `write(int)`: append the byte, forward it alone, flush. */
    method WriteByte(b: int)
      modifies this, respOutStream
      ensures data == old(data) + [LowByte(b)]
      ensures respOutStream.events == old(respOutStream.events) + [Wrote([LowByte(b)]), Flushed]
      ensures base == old(base) && (old(Mirrors()) ==> Mirrors())
    {
      data := data + [LowByte(b)];
      WriteToRespStream([LowByte(b)], 0, 1);
      assert [LowByte(b)][0..1] == [LowByte(b)];
    }

    /** `write(bytes, off, ln)`: append the slice and forward the same slice;
        an out-of-range slice throws before anything is written. */
    method WriteSlice(bytes: seq<byte>, off: int, ln: int) returns (r: Result<Unit, Error>)
      modifies this, respOutStream
      ensures r.Failure? <==> !SliceInBounds(bytes, off, ln)
      ensures r.Failure? ==>
        r.error == IndexOutOfBoundsException && data == old(data) && respOutStream.events == old(respOutStream.events)
      ensures r.Success? ==>
        data == old(data) + bytes[off..off + ln]
        && respOutStream.events == old(respOutStream.events) + [Wrote(bytes[off..off + ln]), Flushed]
      ensures base == old(base) && (old(Mirrors()) ==> Mirrors())
    {
      if !SliceInBounds(bytes, off, ln) {
        return Failure(IndexOutOfBoundsException);
      }
      data := data + bytes[off..off + ln];
      WriteToRespStream(bytes, off, ln);
      r := Success(Unit);
    }

    /** `write(byte[])`: the buffer receives the bytes once and the
        downstream twice, so a mirroring wrapper stops mirroring. */
    method WriteBytes(bytes: seq<byte>)
      modifies this, respOutStream
      ensures data == old(data) + bytes
      ensures respOutStream.events == old(respOutStream.events) + WriteBytesEvents(bytes)
      ensures base == old(base)
      ensures old(Mirrors()) ==> Forwarded(respOutStream.events) == base + data + bytes
    {
      var _ := WriteSlice(bytes, 0, |bytes|);
      assert bytes[0..|bytes|] == bytes;
      WriteToRespStream(bytes, 0, |bytes|);
      ForwardedAppend(old(respOutStream.events), WriteBytesEvents(bytes));
    }

    /** `writeToRespStream`: forward the slice, then flush. */
    method WriteToRespStream(bytes: seq<byte>, off: nat, ln: nat)
      requires off + ln <= |bytes|
      modifies respOutStream
      ensures respOutStream.events == old(respOutStream.events) + [Wrote(bytes[off..off + ln]), Flushed]
      ensures Forwarded(respOutStream.events) == old(Forwarded(respOutStream.events)) + bytes[off..off + ln]
    {
      respOutStream.Write(bytes[off..off + ln]);
      respOutStream.Flush();
      ForwardedWriteFlush(old(respOutStream.events), bytes[off..off + ln]);
    }
  }
}

/** The `src` generation's tee buffer: the same as the `impl` one except
    that `write(byte[])` forwards only through the dispatched
    three-argument `write`. */
module SrcOutputStreamWrapper {
  import opened Common
  import opened Exceptions
  import opened Streams

  /** The downstream calls made by `write(byte[])`: one forward, one flush. */
  function WriteBytesEvents(bytes: seq<byte>): (r: seq<StreamEvent>)
    ensures Forwarded(r) == bytes
  {
    ForwardedWriteFlush([], bytes);
    [Wrote(bytes), Flushed]
  }

  class Wrapper {
    var data: seq<byte>
    const respOutStream: RecordingStream
    ghost var base: seq<byte>

    ghost predicate Mirrors()
      reads this, respOutStream
    {
      Forwarded(respOutStream.events) == base + data
    }

    constructor (stream: RecordingStream)
      ensures data == [] && respOutStream == stream && Mirrors()
    {
      data := [];
      respOutStream := stream;
      base := Forwarded(stream.events);
    }

    /** `write(int)`: append the byte, forward it alone, flush. */
    method WriteByte(b: int)
      modifies this, respOutStream
      ensures data == old(data) + [LowByte(b)]
      ensures respOutStream.events == old(respOutStream.events) + [Wrote([LowByte(b)]), Flushed]
      ensures base == old(base) && (old(Mirrors()) ==> Mirrors())
    {
      data := data + [LowByte(b)];
      WriteToRespStream([LowByte(b)], 0, 1);
      assert [LowByte(b)][0..1] == [LowByte(b)];
    }

    /** `write(bytes, off, ln)`: append the slice and forward the same slice;
        an out-of-range slice throws before anything is written. */
    method WriteSlice(bytes: seq<byte>, off: int, ln: int) returns (r: Result<Unit, Error>)
      modifies this, respOutStream
      ensures r.Failure? <==> !SliceInBounds(bytes, off, ln)
      ensures r.Failure? ==>
        r.error == IndexOutOfBoundsException && data == old(data) && respOutStream.events == old(respOutStream.events)
      ensures r.Success? ==>
        data == old(data) + bytes[off..off + ln]
        && respOutStream.events == old(respOutStream.events) + [Wrote(bytes[off..off + ln]), Flushed]
      ensures base == old(base) && (old(Mirrors()) ==> Mirrors())
    {
      if !SliceInBounds(bytes, off, ln) {
        return Failure(IndexOutOfBoundsException);
      }
      data := data + bytes[off..off + ln];
      WriteToRespStream(bytes, off, ln);
      r := Success(Unit);
    }

    /** `write(byte[])`: through the dispatched three-argument `write` only,
        so buffer and downstream both receive the bytes once. */
    method WriteBytes(bytes: seq<byte>)
      modifies this, respOutStream
      ensures data == old(data) + bytes
      ensures respOutStream.events == old(respOutStream.events) + WriteBytesEvents(bytes)
      ensures base == old(base) && (old(Mirrors()) ==> Mirrors())
    {
      var _ := WriteSlice(bytes, 0, |bytes|);
      assert bytes[0..|bytes|] == bytes;
    }

    method WriteToRespStream(bytes: seq<byte>, off: nat, ln: nat)
      requires off + ln <= |bytes|
      modifies respOutStream
      ensures respOutStream.events == old(respOutStream.events) + [Wrote(bytes[off..off + ln]), Flushed]
      ensures Forwarded(respOutStream.events) == old(Forwarded(respOutStream.events)) + bytes[off..off + ln]
    {
      respOutStream.Write(bytes[off..off + ln]);
      respOutStream.Flush();
      ForwardedWriteFlush(old(respOutStream.events), bytes[off..off + ln]);
    }
  }
}
