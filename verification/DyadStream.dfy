// A dyad stream: the line splitter and the write queue on their growable
// vectors, updated in place.
module DyadStream {
  import opened Bytes
  import DyadLines
  import DyadQueue
  import opened DyadVec

  class Stream {
    const lineBuffer: Vec<byte>
    const writeBuffer: Vec<byte>
    var state: DyadQueue.State
    var ready: bool
    var dirty: bool
    var bytesSent: nat
    var emitted: seq<Buffer>  // the data of the line events
    var wire: Buffer          // what the socket took

    ghost predicate Valid()
      reads lineBuffer, writeBuffer
    {
      && lineBuffer != writeBuffer && lineBuffer.data != writeBuffer.data
      && lineBuffer.Valid() && writeBuffer.Valid()
    }

    ghost function Queue(): DyadQueue.Queue
      requires Valid()
      reads `state, `ready, `dirty, `bytesSent, lineBuffer, writeBuffer, writeBuffer.data
    {
      DyadQueue.Queue(state, writeBuffer.Contents(), ready, dirty, bytesSent)
    }

    ghost function Splitter(): DyadLines.Splitter
      requires Valid()
      reads `emitted, lineBuffer, writeBuffer, lineBuffer.data
    {
      DyadLines.Splitter(emitted, lineBuffer.Contents())
    }

    // A stream whose connection has been made.
    constructor ()
      ensures Valid() && fresh(lineBuffer) && fresh(writeBuffer)
      ensures fresh(lineBuffer.data) && fresh(writeBuffer.data)
      ensures Queue() == DyadQueue.Opened.queue && Splitter() == DyadLines.Splitter([], []) && wire == []
    {
      lineBuffer := new Vec<byte>();
      writeBuffer := new Vec<byte>();
      state := DyadQueue.Connected;
      ready, dirty, bytesSent := false, false, 0;
      emitted, wire := [], [];
    }

    // dyad_close
    method Close()
      requires Valid()
      modifies `state, lineBuffer`length, writeBuffer`length
      ensures Valid() && Queue() == DyadQueue.OnClose(old(Queue()))
      ensures Splitter() == if old(state).Closed? then old(Splitter()) else old(Splitter()).(kept := [])
    {
      if state.Closed? {
        return;
      }
      state := DyadQueue.Closed;
      lineBuffer.Clear();
      writeBuffer.Clear();
    }

    // dyad_end
    method End()
      requires Valid()
      modifies `state, lineBuffer`length, writeBuffer`length
      ensures Valid() && Queue() == DyadQueue.Step(old(Queue()), DyadQueue.End)
      ensures Splitter().emitted == old(Splitter()).emitted
    {
      if state.Closed? {
        return;
      }
      if writeBuffer.length > 0 {
        state := DyadQueue.Closing;
      } else {
        Close();
      }
    }

    // dyad_write
    method Write(data: Buffer)
      requires Valid()
      modifies `dirty, writeBuffer, writeBuffer.data
      ensures Valid() && (writeBuffer.data == old(writeBuffer.data) || fresh(writeBuffer.data))
      ensures Queue() == DyadQueue.Step(old(Queue()), DyadQueue.Write(data))
      ensures Splitter() == old(Splitter())
    {
      var i := 0;
      while i < |data|
        invariant 0 <= i <= |data|
        invariant Valid() && (writeBuffer.data == old(writeBuffer.data) || fresh(writeBuffer.data))
        invariant writeBuffer.Contents() == old(writeBuffer.Contents()) + data[..i]
      {
        writeBuffer.Push(data[i]);
        i := i + 1;
      }
      dirty := true;
    }

    // stream_flushWriteBuffer on what send() did; returns whether more can be
    // written at once.
    method Flush(result: DyadQueue.SendResult) returns (more: bool)
      requires Valid() && !state.Closed?
      requires result.Accepted? && writeBuffer.length > 0 ==> 0 < result.n <= writeBuffer.length
      modifies this, lineBuffer`length, writeBuffer, writeBuffer.data
      ensures Valid() && writeBuffer.data == old(writeBuffer.data)
      ensures Queue() == DyadQueue.Step(old(Queue()), DyadQueue.Flush(result))
      ensures wire == old(wire + DyadQueue.Sent(Queue(), DyadQueue.Flush(result)))
      ensures emitted == old(emitted)
      ensures more <==>
        (old(writeBuffer.length) == 0 && !old(state).Closing?) ||
        (old(writeBuffer.length) > 0 && result.Accepted? && !state.Closed?)
    {
      dirty := false;
      if writeBuffer.length > 0 {
        match result {
          case WouldBlock => return false;
          case Failed =>
            Close();
            return false;
          case Accepted(size) =>
            Take(size);
        }
      }
      more := Drain();
    }

    // The bytes the socket took leave the queue.
    method Take(size: nat)
      requires Valid() && size <= writeBuffer.length
      modifies `wire, `bytesSent, writeBuffer, writeBuffer.data
      ensures Valid() && writeBuffer.data == old(writeBuffer.data)
      ensures wire == old(wire + writeBuffer.Contents()[..size])
      ensures writeBuffer.Contents() == old(writeBuffer.Contents()[size..])
      ensures bytesSent == old(bytesSent) + size
    {
      wire := wire + writeBuffer.data[..size];
      if size == writeBuffer.length {
        writeBuffer.Clear();
      } else {
        writeBuffer.Splice(0, size);
      }
      bytesSent := bytesSent + size;
    }

    // What follows when the queue is empty.
    method Drain() returns (more: bool)
      requires Valid()
      modifies `state, `ready, lineBuffer`length, writeBuffer`length
      ensures Valid() && Queue() == DyadQueue.Drained(old(Queue()))
      ensures more <==> old(writeBuffer.length) > 0 || !old(state).Closing?
    {
      if writeBuffer.length == 0 {
        if state.Closing? {
          Close();
          return false;
        }
        ready := true;
      }
      return true;
    }

    // The line part of stream_handleReceivedData.
    method HandleLines(chunk: Buffer)
      requires Valid() && state.Connected?
      modifies `emitted, lineBuffer, lineBuffer.data
      ensures Valid() && (lineBuffer.data == old(lineBuffer.data) || fresh(lineBuffer.data))
      ensures Splitter() == DyadLines.Receive(old(Splitter()), chunk)
      ensures Queue() == old(Queue())
    {
      Append(chunk);
      var start := EmitLines();
      KeepFrom(start);
    }

    method KeepFrom(start: nat)
      requires Valid() && start <= lineBuffer.length
      modifies lineBuffer, lineBuffer.data
      ensures Valid() && lineBuffer.data == old(lineBuffer.data)
      ensures lineBuffer.Contents() == old(lineBuffer.Contents()[start..])
      ensures Queue() == old(Queue())
    {
      if start == lineBuffer.length {
        lineBuffer.Clear();
      } else {
        lineBuffer.Splice(0, start);
      }
    }

    // The scan over the line buffer: every line is emitted, and start is where
    // the unfinished rest begins.
    method EmitLines() returns (start: nat)
      requires Valid()
      modifies `emitted, lineBuffer.data
      ensures Valid() && start <= lineBuffer.length
      ensures emitted == old(emitted + DyadLines.Lines(lineBuffer.Contents()))
      ensures lineBuffer.Contents()[start..] == old(DyadLines.Unfinished(lineBuffer.Contents()))
      ensures Queue() == old(Queue())
    {
      ghost var w := lineBuffer.Contents();
      ghost var lines: seq<Buffer> := [];
      start := 0;
      var i := 0;
      while i < lineBuffer.length
        invariant 0 <= start <= i <= lineBuffer.length == |w|
        invariant Valid() && Queue() == old(Queue())
        invariant lineBuffer.Contents()[start..] == w[start..]
        invariant emitted == old(emitted) + lines
        invariant DyadLines.ScannedTo(w, i, start, lines)
      {
        DyadLines.ScanStep(w, i, start, lines);
        KeptAt(lineBuffer.Contents(), w, start, i);
        if lineBuffer.data[i] == DyadLines.LF {
          TakeLine(start, i);
          lines := lines + [DyadLines.Strip(w[start..i])];
          start := i + 1;
        }
        i := i + 1;
      }
      assert w[..i] == w;
    }

    static lemma KeptAt(buf: Buffer, w: Buffer, start: nat, i: nat)
      requires start <= i < |buf| == |w| && buf[start..] == w[start..]
      ensures buf[i] == w[i] && buf[start..i] == w[start..i] && buf[i + 1..] == w[i + 1..]
    {
      assert buf[i] == buf[start..][i - start] && w[i] == w[start..][i - start];
      assert buf[start..i] == buf[start..][..i - start] && w[start..i] == w[start..][..i - start];
      assert buf[i + 1..] == buf[start..][i + 1 - start..] && w[i + 1..] == w[start..][i + 1 - start..];
    }

    // The newline at i and a carriage return before it are overwritten with 0
    // in the buffer, and the line is emitted.
    method TakeLine(start: nat, i: nat)
      requires Valid() && start <= i < lineBuffer.length
      modifies `emitted, lineBuffer.data
      ensures Valid() && Queue() == old(Queue())
      ensures emitted == old(emitted + [DyadLines.Strip(lineBuffer.Contents()[start..i])])
      ensures lineBuffer.Contents()[i + 1..] == old(lineBuffer.Contents()[i + 1..])
    {
      ghost var raw := lineBuffer.Contents()[start..i];
      lineBuffer.data[i] := 0;
      assert lineBuffer.data[start..i] == raw;
      var size := i - start;
      if size > 0 && lineBuffer.data[start + size - 1] == DyadLines.CR {
        size := size - 1;
        lineBuffer.data[start + size] := 0;
      }
      assert lineBuffer.data[start..start + size] == DyadLines.Strip(raw);
      emitted := emitted + [lineBuffer.data[start..start + size]];
    }

    method Append(chunk: Buffer)
      requires Valid()
      modifies lineBuffer, lineBuffer.data
      ensures Valid() && (lineBuffer.data == old(lineBuffer.data) || fresh(lineBuffer.data))
      ensures lineBuffer.Contents() == old(lineBuffer.Contents()) + chunk
      ensures Queue() == old(Queue())
    {
      var i := 0;
      while i < |chunk|
        invariant 0 <= i <= |chunk|
        invariant Valid() && (lineBuffer.data == old(lineBuffer.data) || fresh(lineBuffer.data))
        invariant lineBuffer.Contents() == old(lineBuffer.Contents()) + chunk[..i]
        invariant Queue() == old(Queue())
      {
        lineBuffer.Push(chunk[i]);
        i := i + 1;
      }
    }
  }

  // The chunks of a run, each handled on the same stream: what the listeners
  // saw and what is kept depend on the concatenation alone.
  method HandleAll(stream: Stream, chunks: seq<Buffer>)
    requires stream.Valid() && stream.state.Connected?
    requires stream.Splitter() == DyadLines.Splitter([], [])
    modifies stream, stream.lineBuffer, stream.lineBuffer.data
    ensures stream.Valid()
    ensures stream.emitted == DyadLines.Lines(Concat(chunks))
    ensures stream.lineBuffer.Contents() == DyadLines.Unfinished(Concat(chunks))
    ensures stream.Queue() == old(stream.Queue())
  {
    var i := 0;
    while i < |chunks|
      invariant 0 <= i <= |chunks| && stream.Valid() && stream.Queue() == old(stream.Queue())
      invariant stream.lineBuffer.data == old(stream.lineBuffer.data) || fresh(stream.lineBuffer.data)
      invariant stream.Splitter() == DyadLines.ReceiveAll(chunks[..i])
    {
      assert chunks[..i + 1][..i] == chunks[..i];
      stream.HandleLines(chunks[i]);
      i := i + 1;
    }
    assert chunks[..i] == chunks;
    DyadLines.ChunkingIsInvisible(chunks);
  }
}
