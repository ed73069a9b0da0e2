// The write queue of a dyad stream as a state machine: writes, flushes with any
// partial send, graceful and immediate close.
module DyadQueue {
  import opened Bytes

  datatype State = Connected | Closing | Closed

  // What send() did: took a positive number of bytes, would block, or failed.
  datatype SendResult = Accepted(n: nat) | WouldBlock | Failed

  datatype Queue = Queue(state: State, bytes: Buffer, ready: bool, dirty: bool, bytesSent: nat)

  datatype Event = Write(data: Buffer) | Flush(result: SendResult) | End | Close

  // dyad_close
  function OnClose(q: Queue): Queue {
    if q.state.Closed? then q else q.(state := Closed, bytes := [])
  }

  // The bytes a flush hands to the socket.
  function Sent(q: Queue, e: Event): Buffer {
    match e
    case Flush(Accepted(n)) => if Flushed(q) && 0 < n <= |q.bytes| then q.bytes[..n] else []
    case _ => []
  }

  // dyad_update flushes streams that are not closed.
  predicate Flushed(q: Queue) {
    !q.state.Closed?
  }

  // The second half of stream_flushWriteBuffer: an empty queue closes a
  // closing stream, and makes another one ready.
  function Drained(q: Queue): Queue {
    if q.bytes != [] then q
    else if q.state.Closing? then OnClose(q)
    else q.(ready := true)
  }

  // stream_flushWriteBuffer
  function OnFlush(q: Queue, result: SendResult): Queue {
    if !Flushed(q) then q
    else
      var q1 := q.(dirty := false);
      if q1.bytes == [] then Drained(q1)
      else
        match result
        case WouldBlock => q1
        case Failed => OnClose(q1)
        case Accepted(n) =>
          if 0 < n <= |q1.bytes| then Drained(q1.(bytes := q1.bytes[n..], bytesSent := q1.bytesSent + n)) else q1
  }

  function Step(q: Queue, e: Event): Queue {
    match e
    case Write(data) => q.(bytes := q.bytes + data, dirty := true)
    case Flush(result) => OnFlush(q, result)
    case End => if q.state.Closed? then q else if q.bytes != [] then q.(state := Closing) else OnClose(q)
    case Close => OnClose(q)
  }

  // What an observer of the API and of the socket knows.
  datatype Ledger = Ledger(written: Buffer, sent: Buffer, ended: bool, broken: bool)

  function Observe(q: Queue, l: Ledger, e: Event): Ledger {
    if q.state.Closed? then l
    else
      var l1 := l.(sent := l.sent + Sent(q, e));
      match e
      case Write(data) => l1.(written := l.written + data)
      case End => l1.(ended := true)
      case Close => l1.(broken := true)
      case Flush(result) => if result.Failed? && q.bytes != [] then l1.(broken := true) else l1
  }

  ghost predicate Inv(q: Queue, l: Ledger) {
    && q.bytesSent == |l.sent|
    && (!q.state.Closed? ==> l.sent + q.bytes == l.written && !l.broken && (l.ended <==> q.state.Closing?))
    && (q.state.Closing? ==> q.bytes != [])
    && (q.state.Closed? ==> l.sent <= l.written && (l.ended || l.broken) && (!l.broken ==> l.sent == l.written))
  }

  lemma StepKeepsInv(q: Queue, l: Ledger, e: Event)
    requires Inv(q, l)
    ensures Inv(Step(q, e), Observe(q, l, e))
  {
    match e
    case Write(data) => assert l.sent + (q.bytes + data) == (l.sent + q.bytes) + data;
    case Flush(result) => FlushKeepsInv(q, l, result);
    case End =>
    case Close =>
  }

  lemma FlushKeepsInv(q: Queue, l: Ledger, result: SendResult)
    requires Inv(q, l)
    ensures Inv(OnFlush(q, result), Observe(q, l, Flush(result)))
  {
    if !q.state.Closed? && result.Accepted? && 0 < result.n <= |q.bytes| {
      SendKeepsInv(q, l, result.n);
    }
  }

  lemma SendKeepsInv(q: Queue, l: Ledger, n: nat)
    requires Inv(q, l) && !q.state.Closed? && 0 < n <= |q.bytes|
    ensures Inv(OnFlush(q, Accepted(n)), Observe(q, l, Flush(Accepted(n))))
  {
    var sent, rest := q.bytes[..n], q.bytes[n..];
    assert Observe(q, l, Flush(Accepted(n))) == l.(sent := l.sent + sent);
    assert (l.sent + sent) + rest == l.written;
    var q' := q.(dirty := false, bytes := rest, bytesSent := q.bytesSent + n);
    assert OnFlush(q, Accepted(n)) == Drained(q');
  }

  datatype System = System(queue: Queue, ledger: Ledger)

  function Run(s: System, events: seq<Event>): System {
    if events == [] then s
    else
      var before, e := Run(s, events[..|events| - 1]), events[|events| - 1];
      System(Step(before.queue, e), Observe(before.queue, before.ledger, e))
  }

  const Opened: System := System(Queue(Connected, [], false, false, 0), Ledger([], [], false, false))

  // On an open stream the bytes sent followed by the bytes queued are the bytes
  // written, in order. A closing stream has something queued. A stream ended by
  // dyad_end and closed without a break has sent everything.
  lemma {:induction false} BytesAreConserved(events: seq<Event>)
    ensures var s := Run(Opened, events);
      && s.queue.bytesSent == |s.ledger.sent|
      && (!s.queue.state.Closed? ==> s.ledger.sent + s.queue.bytes == s.ledger.written)
      && (s.queue.state.Closing? ==> s.queue.bytes != [])
      && (s.queue.state.Closed? ==> s.ledger.sent <= s.ledger.written)
      && (s.queue.state.Closed? && !s.ledger.broken ==> s.ledger.ended && s.ledger.sent == s.ledger.written)
    ensures Inv(Run(Opened, events).queue, Run(Opened, events).ledger)
  {
    if events != [] {
      var front, e := events[..|events| - 1], events[|events| - 1];
      BytesAreConserved(front);
      StepKeepsInv(Run(Opened, front).queue, Run(Opened, front).ledger, e);
    }
  }

  // A graceful close finishes: every flush that takes bytes shortens the queue
  // of a closing stream, and the one that takes the last bytes closes it.
  lemma {:induction false} ClosingDrains(q: Queue, taken: seq<nat>)
    requires q.state.Closing? && q.bytes != []
    requires forall i :: 0 <= i < |taken| ==> taken[i] > 0
    requires SumOf(taken) == |q.bytes|
    ensures FlushAll(q, taken).state.Closed? && FlushAll(q, taken).bytesSent == q.bytesSent + |q.bytes|
    decreases |taken|
  {
    var q' := OnFlush(q, Accepted(taken[0]));
    if taken[0] < |q.bytes| {
      ClosingDrains(q', taken[1..]);
    } else {
      AllPositive(taken[1..]);
    }
  }

  function SumOf(taken: seq<nat>): nat {
    if taken == [] then 0 else taken[0] + SumOf(taken[1..])
  }

  function FlushAll(q: Queue, taken: seq<nat>): Queue
    decreases |taken|
  {
    if taken == [] then q else FlushAll(OnFlush(q, Accepted(taken[0])), taken[1..])
  }

  lemma AllPositive(taken: seq<nat>)
    requires forall i :: 0 <= i < |taken| ==> taken[i] > 0
    ensures taken != [] ==> SumOf(taken) > 0
  {
  }
}
