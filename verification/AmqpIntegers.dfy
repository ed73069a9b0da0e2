// What becomes of the integers the peer sends: a received handle or id above 255
// is another one (src/amqp/tlv_factory.c, src/amqp/wrappers/unwrapper.c).
module AmqpIntegers {
  import opened Bits
  import opened Bytes
  import opened Wrappers
  import opened AmqpProtocol
  import opened AmqpRuns
  import AmqpOrder
  import TlvFactory
  import TlvWriter

  // The encodings of section 1.6.5 of AMQP 1.0 Part 1.
  predicate Encodes(k: Number, bytes: Buffer) {
    if k.wide then bytes == [TlvFactory.UINT] + TlvWriter.Int32(k.n)
    else bytes == [TlvFactory.SMALL_UINT, k.n] || (k.n == 0 && bytes == [TlvFactory.UINT_0])
  }

  // The parser and the unwrapper make of every encoding what the state machine
  // receives.
  lemma ReceivedIsRead(k: Number, bytes: Buffer, buf: Buffer, i: nat)
    requires Encodes(k, bytes) && At(buf, i, bytes)
    ensures var r := TlvFactory.GetTlv(buf, i);
      r.Good? && r.next == i + |bytes| && TlvWriter.Read(r.value) == Some(TlvWriter.UInt(Received(k)))
  {
    AtByte(buf, i, bytes, 0);
    if k.wide {
      TlvWriter.ParseLeaf(bytes, Some(1), buf, i);
      TlvWriter.Int32Digits(k.n);
      HighByte(k.n);
    } else if |bytes| == 2 {
      TlvWriter.ParseLeaf(bytes, Some(1), buf, i);
    } else {
      TlvWriter.ParseLeaf(bytes, Some(0), buf, i);
    }
  }

  lemma HighByte(n: nat)
    requires n < TWO_TO_THE_32
    ensures n / 256 / 256 / 256 % 256 == n / 0x100_0000
  {
    var a, b := n / 256, n / 256 / 256;
    assert n == a * 256 + n % 256 && a == b * 256 + a % 256;
    assert b == b / 256 * 256 + b % 256;
  }

  // An integer arrives exactly if it is written in at most one byte, or is 0.
  lemma ArrivesExactly(k: Number)
    ensures Received(k) == k.n <==> !k.wide || k.n == 0
  {
  }

  // ----- Handles -----

  // A received ATTACH raises next_handle to at most 256.
  lemma AttachRaisesLittle(c: Client, name: string, handle: Number, role: Option<Role>)
    ensures var n := Step(c, RxAttach(name, handle, role)).client.nextHandle;
      c.nextHandle <= n && (n == c.nextHandle || n <= 256)
  {
  }

  // The link of the peer is stored under its handle, and a detached link loses
  // its name, exactly if the handle arrives.
  lemma PeerHandleExactly(c: Client, name: string, k: Number)
    requires Lookup(c.incoming, name) == 0
    ensures Lookup(Step(c, RxAttach(name, k, Some(SenderRole))).client.incoming, name) == k.n <==> !k.wide || k.n == 0
    ensures k.n in c.names ==> (k.n !in Step(c, RxDetach(k)).client.names <==> !k.wide || k.n == 0)
  {
    ArrivesExactly(k);
  }

  // ----- Deliveries -----

  // The disposition that answers an unsettled transfer is about it exactly if its
  // id arrives.
  lemma AnswerExactly(c: Client, k: Number)
    ensures Step(c, RxTransfer(k, false)).sent == [DispositionFrame(k.n)] <==> !k.wide || k.n == 0
  {
    ArrivesExactly(k);
  }

  // A transfer on a new topic, its echo and a disposition.
  function SentAndDisposed(content: string, topic: string, peer: Number, end: Role, first: Number, last: nat)
    : seq<Event>
  {
    [SendTransfer(content, topic, 1), RxAttach(topic, peer, Some(ReceiverRole)), RxDisposition(end, first, last)]
  }

  // After any counters, the transfer is released exactly if the client reads its
  // id, whatever the disposition is about.
  lemma ReleasedExactly(nextHandle: nat, packetIds: nat, content: string, topic: string, peer: Number,
                        end: Role, first: Number, last: nat)
    requires 0 < nextHandle < USHORT && packetIds < USHORT
    ensures var s0, events := Opened(nextHandle, packetIds), SentAndDisposed(content, topic, peer, end, first, last);
      && Possible(s0, events)
      && (packetIds !in Run(s0, events).client.byDelivery <==> Received(first) == packetIds)
  {
    var s0, e1, e2, e3 := Opened(nextHandle, packetIds), SendTransfer(content, topic, 1),
                          RxAttach(topic, peer, Some(ReceiverRole)), RxDisposition(end, first, last);
    hide Run;
    hide AmqpOrder.Past;
    var c := Sent(s0, content, topic, peer);
    c := Disposed(Next(Next(s0, e1), e2), packetIds, end, first, last);
    AmqpOrder.RunOfThree(s0, e1, e2, e3);
  }

  lemma Sent(s: System, content: string, topic: string, peer: Number) returns (c: Client)
    requires topic !in s.client.outgoing && 0 < s.client.nextHandle < USHORT && s.client.packetIds < USHORT
    ensures c == Next(Next(s, SendTransfer(content, topic, 1)), RxAttach(topic, peer, Some(ReceiverRole))).client
    ensures s.client.packetIds in c.byDelivery
    ensures c.nextHandle == s.client.nextHandle + 1 && c.packetIds == s.client.packetIds + 1
  {
    c := Next(Next(s, SendTransfer(content, topic, 1)), RxAttach(topic, peer, Some(ReceiverRole))).client;
  }

  lemma Disposed(s: System, d: nat, end: Role, first: Number, last: nat) returns (c: Client)
    requires d in s.client.byDelivery
    ensures c == Next(s, RxDisposition(end, first, last)).client
    ensures d !in c.byDelivery <==> Received(first) == d
    ensures c.nextHandle == s.client.nextHandle && c.packetIds == s.client.packetIds
  {
    c := Next(s, RxDisposition(end, first, last)).client;
  }

  // A transfer numbered above 255 is not released by its own disposition.
  lemma KeptThoughDisposed(nextHandle: nat, packetIds: nat, content: string, topic: string, peer: Number)
    requires 0 < nextHandle < USHORT && 255 < packetIds < USHORT
    ensures var s0, k := Opened(nextHandle, packetIds), Written(packetIds, true);
      var s := Run(s0, SentAndDisposed(content, topic, peer, ReceiverRole, k, packetIds));
      packetIds in s.ledger.disposed && packetIds in s.client.byDelivery
  {
    var s0, k := Opened(nextHandle, packetIds), Written(packetIds, true);
    hide Run;
    hide AmqpOrder.Past;
    ReleasedExactly(nextHandle, packetIds, content, topic, peer, ReceiverRole, k, packetIds);
    var e1, e2, e3 := SendTransfer(content, topic, 1), RxAttach(topic, peer, Some(ReceiverRole)),
                      RxDisposition(ReceiverRole, k, packetIds);
    AmqpOrder.RunOfThree(s0, e1, e2, e3);
    SentIsSeen(s0, content, topic, peer);
  }

  lemma SentIsSeen(s: System, content: string, topic: string, peer: Number)
    requires topic !in s.client.outgoing && 0 < s.client.nextHandle < USHORT && s.client.packetIds < USHORT
    ensures s.client.packetIds in
      Next(Next(s, SendTransfer(content, topic, 1)), RxAttach(topic, peer, Some(ReceiverRole))).ledger.sent
  {
    OneFrame(TransferFrame(Transfer(s.client.packetIds, s.client.nextHandle, false, content)));
  }
}
