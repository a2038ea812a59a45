/** The in-memory byte channel of async-byte-channel/src/lib.rs: a bounded buffer between one sender and
    one receiver, with a stored waker for each. */
module ByteChannel {
  import opened Packing
  import opened Options
  import opened Streams

  const CAPACITY: nat := 8096

  /** The identity of a task to be woken. */
  type Waker = nat

  datatype SendPoll = SendPending | SendReady(taken: nat) | SendAborted

  class Channel {
    const buffer: array<Byte>
    var writeCursor: nat
    var readCursor: nat
    var writeEndClosed: bool
    var readEndClosed: bool
    var readWaker: Option<Waker>
    var writeWaker: Option<Waker>

    // Every byte accepted from the sender, and every byte handed to the receiver.
    ghost var sent: seq<Byte>
    ghost var received: seq<Byte>
    // Whoever polled last, if the poll came back pending and nobody has woken it since.
    ghost var parkedReader: Option<Waker>
    ghost var parkedWriter: Option<Waker>

    ghost predicate Valid()
      reads this, buffer
    {
      && buffer.Length > 0
      && readCursor <= writeCursor <= buffer.Length
      // First in, first out, and nothing lost.
      && sent == received + buffer[readCursor..writeCursor]
      // No lost wakeup: a parked task is always the one whose waker is stored ...
      && parkedReader == readWaker && parkedWriter == writeWaker
      // ... and it has nothing to do yet.
      && (readWaker.Some? ==> readCursor == writeCursor && !writeEndClosed)
      && (writeWaker.Some? ==> writeCursor == buffer.Length && readCursor < buffer.Length && !readEndClosed)
    }

    constructor ()
      ensures Valid() && fresh(buffer) && buffer.Length == CAPACITY
      ensures sent == received == [] && !writeEndClosed && !readEndClosed
      ensures readWaker == writeWaker == None
    {
      buffer := new Byte[CAPACITY](_ => 0);
      writeCursor, readCursor := 0, 0;
      writeEndClosed, readEndClosed := false, false;
      readWaker, writeWaker := None, None;
      sent, received, parkedReader, parkedWriter := [], [], None, None;
    }

    /** Takes the stored read waker and wakes it. */
    method WakeReader() returns (woken: Option<Waker>)
      modifies `readWaker, `parkedReader
      ensures woken == old(readWaker) && readWaker == None
      ensures parkedReader == if woken == old(parkedReader) then None else old(parkedReader)
    {
      woken := readWaker;
      readWaker := None;
      if woken == parkedReader { parkedReader := None; }
    }

    method WakeWriter() returns (woken: Option<Waker>)
      modifies `writeWaker, `parkedWriter
      ensures woken == old(writeWaker) && writeWaker == None
      ensures parkedWriter == if woken == old(parkedWriter) then None else old(parkedWriter)
    {
      woken := writeWaker;
      writeWaker := None;
      if woken == parkedWriter { parkedWriter := None; }
    }

    /** A poll to read. It hands out the next bytes in order; pending exactly when the channel is empty
        and open; and, for a real request, nothing only after the sender closed and
        everything was delivered. Any successful read wakes a waiting sender. */
    method PollRead(room: nat, me: Waker) returns (r: ReadPoll, woken: Option<Waker>)
      requires Valid()
      modifies this
      ensures Valid() && sent == old(sent)
      ensures writeEndClosed == old(writeEndClosed) && readEndClosed == old(readEndClosed)
      ensures !r.ReadFailed?
      ensures r.ReadPending? <==> old(received) == sent && !writeEndClosed
      ensures r.ReadPending? ==> received == old(received) && parkedReader == Some(me)
      ensures r.ReadPending? ==> parkedWriter == old(parkedWriter) && woken == None
      ensures r.ReadReady? ==> received == old(received) + r.bytes && |r.bytes| <= room
      ensures r.ReadReady? ==> parkedReader == old(parkedReader)
      ensures r.ReadReady? ==> |r.bytes| == room || received == sent
      ensures r.ReadReady? && r.bytes == [] ==> room == 0 || (writeEndClosed && received == sent)
      ensures r.ReadReady? && old(received) != sent ==> woken == old(parkedWriter) && parkedWriter == None
      ensures r.ReadReady? && old(received) == sent ==> woken == None && parkedWriter == old(parkedWriter)
      ensures writeCursor == old(writeCursor)
    {
      woken := None;
      if readCursor == writeCursor {
        if writeEndClosed {
          r := ReadReady([]);
        } else {
          readWaker := Some(me);
          parkedReader := Some(me);
          r := ReadPending;
        }
      } else {
        assert |sent| > |received|;
        var n := if room < writeCursor - readCursor then room else writeCursor - readCursor;
        var bytes := HandOut(n);
        woken := WakeWriter();
        r := ReadReady(bytes);
      }
    }

    /** Copies the next bytes out of the buffer. */
    method HandOut(n: nat) returns (bytes: seq<Byte>)
      requires readCursor + n <= writeCursor <= buffer.Length
      requires sent == received + buffer[readCursor..writeCursor]
      modifies `readCursor, `received
      ensures readCursor == old(readCursor) + n && |bytes| == n && received == old(received) + bytes
      ensures sent == received + buffer[readCursor..writeCursor]
    {
      bytes := buffer[readCursor..readCursor + n];
      assert buffer[readCursor..writeCursor] == bytes + buffer[readCursor + n..writeCursor];
      received := received + bytes;
      readCursor := readCursor + n;
    }

    /** A poll to write. It refuses once the receiver is gone; pending exactly when the buffer is full
        and not drained; otherwise it accepts as much as fits and wakes a waiting
        receiver. Starting over at the front of a drained buffer loses nothing. */
    method PollWrite(data: seq<Byte>, me: Waker) returns (r: SendPoll, woken: Option<Waker>)
      requires Valid()
      modifies this, buffer
      ensures Valid() && received == old(received)
      ensures writeEndClosed == old(writeEndClosed) && readEndClosed == old(readEndClosed)
      ensures r.SendAborted? <==> readEndClosed
      ensures r.SendPending? <==> !readEndClosed && old(writeCursor) == buffer.Length && old(readCursor) < buffer.Length
      ensures r.SendPending? ==> parkedWriter == Some(me)
      ensures !r.SendReady? ==> sent == old(sent) && parkedReader == old(parkedReader) && woken == None
      ensures r.SendReady? ==> r.taken <= |data| && sent == old(sent) + data[..r.taken] && (r.taken == 0 ==> data == [])
      ensures r.SendReady? ==> r.taken == |data| || writeCursor == buffer.Length
      ensures r.SendReady? ==> woken == old(parkedReader) && parkedReader == None
      ensures !r.SendPending? ==> parkedWriter == old(parkedWriter)
    {
      woken := None;
      if readEndClosed { return SendAborted, None; }
      if writeCursor == buffer.Length {
        if readCursor == buffer.Length {
          writeCursor, readCursor := 0, 0;
        } else {
          writeWaker := Some(me);
          parkedWriter := Some(me);
          return SendPending, None;
        }
      }
      var n;
      n, woken := Accept(data);
      r := SendReady(n);
    }

    /** Takes as much as fits behind the write cursor, and wakes a waiting receiver. */
    method Accept(data: seq<Byte>) returns (n: nat, woken: Option<Waker>)
      requires Valid() && writeCursor < buffer.Length
      modifies `writeCursor, `sent, `readWaker, `parkedReader, buffer
      ensures Valid() && n <= |data| && sent == old(sent) + data[..n] && (n == 0 ==> data == [])
      ensures n == |data| || writeCursor == buffer.Length
      ensures woken == old(parkedReader) && parkedReader == None
    {
      n := if |data| < buffer.Length - writeCursor then |data| else buffer.Length - writeCursor;
      CopyIn(data[..n]);
      assert received + (old(buffer[readCursor..writeCursor]) + data[..n]) == sent + data[..n];
      writeCursor := writeCursor + n;
      sent := sent + data[..n];
      woken := WakeReader();
    }

    /** Copies bytes behind the write cursor. */
    method CopyIn(data: seq<Byte>)
      requires readCursor <= writeCursor && writeCursor + |data| <= buffer.Length
      modifies buffer
      ensures buffer[writeCursor..writeCursor + |data|] == data
      ensures buffer[readCursor..writeCursor] == old(buffer[readCursor..writeCursor])
      ensures buffer[readCursor..writeCursor + |data|] == old(buffer[readCursor..writeCursor]) + data
    {
      for i := 0 to |data|
        invariant buffer[writeCursor..writeCursor + i] == data[..i]
        invariant buffer[readCursor..writeCursor] == old(buffer[readCursor..writeCursor])
      {
        buffer[writeCursor + i] := data[i];
      }
      assert data[..|data|] == data;
    }

    /** The sender shuts down or goes away: a waiting receiver is woken to find the end. */
    method CloseWrite() returns (woken: Option<Waker>)
      requires Valid()
      modifies this
      ensures Valid() && writeEndClosed && readEndClosed == old(readEndClosed)
      ensures sent == old(sent) && received == old(received) && parkedWriter == old(parkedWriter)
      ensures woken == old(parkedReader) && parkedReader == None
    {
      writeEndClosed := true;
      woken := WakeReader();
    }

    /** The receiver goes away: a waiting sender is woken to find out. */
    method CloseRead() returns (woken: Option<Waker>)
      requires Valid()
      modifies this
      ensures Valid() && readEndClosed && writeEndClosed == old(writeEndClosed)
      ensures sent == old(sent) && received == old(received) && parkedReader == old(parkedReader)
      ensures woken == old(parkedWriter) && parkedWriter == None
    {
      readEndClosed := true;
      woken := WakeWriter();
    }
  }

  const WRITER: Waker := 0
  const READER: Waker := 1

  /** A sender that writes all of `data` and shuts down, and a receiver that reads to the end, under an
      arbitrary scheduler that runs only tasks that are not waiting for a wakeup. There is
      always such a task until the receiver finds the end; the run is finite; and the
      receiver gets exactly what was sent. */
  method Transfer(data: seq<Byte>) returns (out: seq<Byte>)
    ensures out == data
  {
    var c := new Channel();
    var off, closed, writerAsleep, readerAsleep := 0, false, false, false;
    out := [];
    while true
      invariant c.Valid() && fresh(c) && fresh(c.buffer) && !c.readEndClosed && c.writeEndClosed == closed
      invariant off <= |data| && c.sent == data[..off] && c.received == out
      invariant closed ==> off == |data| && !writerAsleep
      invariant c.parkedReader == (if readerAsleep then Some(READER) else None)
      invariant c.parkedWriter == (if writerAsleep then Some(WRITER) else None)
      decreases 2 * |data| - off - |out| + (if closed then 0 else 1),
                (if writerAsleep then 0 else 1) + (if readerAsleep then 0 else 1)
    {
      var writerReady, readerReady := !closed && !writerAsleep, !readerAsleep;
      assert writerReady || readerReady;
      var pick: bool := *;
      var woken: Option<Waker> := None;
      if writerReady && (pick || !readerReady) {
        if off == |data| {
          woken := c.CloseWrite();
          closed := true;
        } else {
          var w;
          w, woken := c.PollWrite(data[off..], WRITER);
          match w {
            case SendPending => writerAsleep := true;
            case SendReady(n) =>
              assert data[..off] + data[off..][..n] == data[..off + n];
              off := off + n;
            case SendAborted => assert false;
          }
        }
      } else {
        var room: nat :| room > 0;
        var r;
        r, woken := c.PollRead(room, READER);
        match r {
          case ReadPending => readerAsleep := true;
          case ReadReady(bytes) =>
            out := out + bytes;
            if bytes == [] {
              assert data[..off] == data;
              return;
            }
          case ReadFailed => assert false;
        }
      }
      if woken == Some(WRITER) { writerAsleep := false; }
      if woken == Some(READER) { readerAsleep := false; }
    }
  }
}
