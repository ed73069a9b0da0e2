// What becomes of the AMQP client when its handles are used up.
module AmqpLimits {
  import opened Bits
  import opened Wrappers
  import opened AmqpProtocol
  import opened AmqpRuns
  import opened AmqpOrder

  // A link requested for a transfer is found again exactly if the handle is no
  // multiple of 65536: the lookup takes a stored 0 for "no handle".
  lemma HandleFoundExactly(c: Client, content: string, topic: string, qos: nat)
    requires Lookup(c.outgoing, topic) == 0
    ensures var c' := Step(c, SendTransfer(content, topic, qos)).client;
      && topic in c'.outgoing && c'.outgoing[topic] == Key(c.nextHandle)
      && (Lookup(c'.outgoing, topic) != 0 <==> c.nextHandle % USHORT != 0)
  {
  }

  // n subscriptions, each with an ATTACH of its own.
  function Attaches(topic: string, n: nat): seq<Event> {
    if n == 0 then [] else Attaches(topic, n - 1) + [SendAttach(topic)]
  }

  lemma RunMore(s: System, events: seq<Event>, e: Event)
    ensures Run(s, events + [e]) == Next(Run(s, events), e)
    ensures Past(s, events + [e]) == Note(Run(s, events), Past(s, events), e)
  {
    assert (events + [e])[..|events|] == events;
  }

  lemma {:induction false} AfterAttaches(nextHandle: nat, packetIds: nat, topic: string, n: nat)
    ensures var s0 := Opened(nextHandle, packetIds);
      && Run(s0, Attaches(topic, n)).client == s0.client.(nextHandle := nextHandle + n)
      && Past(s0, Attaches(topic, n)).wire == []
  {
    if n > 0 {
      var s0, front := Opened(nextHandle, packetIds), Attaches(topic, n - 1);
      AfterAttaches(nextHandle, packetIds, topic, n - 1);
      RunMore(s0, front, SendAttach(topic));
      AttachTakesHandle(Run(s0, front), Past(s0, front), topic);
    }
  }

  lemma AttachTakesHandle(s: System, h: History, topic: string)
    ensures Next(s, SendAttach(topic)).client == s.client.(nextHandle := s.client.nextHandle + 1)
    ensures Note(s, h, SendAttach(topic)).wire == h.wire
  {
    OtherNumbers(s.client, SendAttach(topic));
  }

  // After n subscriptions, the link requested for a transfer is found again
  // exactly if its handle is no multiple of 65536.
  lemma LinkFoundExactly(nextHandle: nat, packetIds: nat, other: string, n: nat,
                         content: string, topic: string, qos: nat)
    ensures var events := Attaches(other, n) + [SendTransfer(content, topic, qos)];
      var c := Run(Opened(nextHandle, packetIds), events).client;
      Lookup(c.outgoing, topic) != 0 <==> (nextHandle + n) % USHORT != 0
  {
    hide Step;
    var s0 := Opened(nextHandle, packetIds);
    AfterAttaches(nextHandle, packetIds, other, n);
    RunMore(s0, Attaches(other, n), SendTransfer(content, topic, qos));
    HandleFoundExactly(Run(s0, Attaches(other, n)).client, content, topic, qos);
  }

  // Subscriptions up to the last handle, and two transfers on a topic.
  function AttachesAndTwo(other: string, n: nat, topic: string, first: string, second: string): seq<Event> {
    Attaches(other, n) + [SendTransfer(first, topic, 1)] + [SendTransfer(second, topic, 1)]
  }

  function UnderZeroAndOne(d: nat, first: string, second: string): map<nat, Transfer> {
    map[0 := Transfer(d, USHORT, false, first), 1 := Transfer(d + 1, USHORT + 1, false, second)]
  }

  // Then the first transfer gets handle 0, the second asks for the link again,
  // and the echo sends the second; the first is left under 0.
  lemma AttachesUseUpHandles(nextHandle: nat, packetIds: nat, other: string, topic: string,
                             first: string, second: string, handle: Number)
    requires 0 < nextHandle <= USHORT
    ensures var s0 := Opened(nextHandle, packetIds);
      var events := AttachesAndTwo(other, USHORT - nextHandle, topic, first, second);
      var c := Run(s0, events).client;
      && Past(s0, events).wire == [] && Lookup(c.outgoing, topic) == 1
      && c.byHandle == UnderZeroAndOne(packetIds, first, second)
      && var after := Step(c, RxAttach(topic, handle, Some(ReceiverRole)));
      && after.sent == [TransferFrame(Transfer(packetIds + 1, USHORT + 1, false, second))]
      && after.client.byHandle == map[0 := Transfer(packetIds, USHORT, false, first)]
  {
    var c := AfterAttachesAndTwo(nextHandle, packetIds, other, topic, first, second);
    SecondEchoed(c, topic, packetIds, first, second, handle);
  }

  lemma AfterAttachesAndTwo(nextHandle: nat, packetIds: nat, other: string,
                            topic: string, first: string, second: string)
    returns (c: Client)
    requires 0 < nextHandle <= USHORT
    ensures var s0 := Opened(nextHandle, packetIds);
      var events := AttachesAndTwo(other, USHORT - nextHandle, topic, first, second);
      c == Run(s0, events).client && Past(s0, events).wire == []
    ensures Lookup(c.outgoing, topic) == 1
    ensures c.byHandle == UnderZeroAndOne(packetIds, first, second)
  {
    hide Step;
    hide Next;
    hide Note;
    hide Run;
    hide AmqpOrder.Past;
    var s0, front := Opened(nextHandle, packetIds), Attaches(other, USHORT - nextHandle);
    AfterAttaches(nextHandle, packetIds, other, USHORT - nextHandle);
    RunMore(s0, front, SendTransfer(first, topic, 1));
    RunMore(s0, front + [SendTransfer(first, topic, 1)], SendTransfer(second, topic, 1));
    c := AfterTwo(Run(s0, front), Past(s0, front), topic, first, second);
  }

  lemma AfterTwo(s: System, h: History, topic: string, first: string, second: string) returns (c: Client)
    requires s.client.nextHandle == USHORT && topic !in s.client.outgoing && s.client.byHandle == map[] && h.wire == []
    ensures var e1, e2, d := SendTransfer(first, topic, 1), SendTransfer(second, topic, 1), s.client.packetIds;
      && c == Next(Next(s, e1), e2).client && Note(Next(s, e1), Note(s, h, e1), e2).wire == []
      && Lookup(c.outgoing, topic) == 1
      && c.byHandle == UnderZeroAndOne(d, first, second)
  {
    var s1, h1 := NewLink(s, h, topic, first);
    var s2, h2 := NewLink(s1, h1, topic, second);
    c := s2.client;
  }

  lemma NewLink(s: System, h: History, topic: string, content: string) returns (s1: System, h1: History)
    requires Lookup(s.client.outgoing, topic) == 0
    ensures var e := SendTransfer(content, topic, 1); s1 == Next(s, e) && h1 == Note(s, h, e)
    ensures var n, d := s.client.nextHandle, s.client.packetIds;
      && s1.client.nextHandle == n + 1 && s1.client.packetIds == d + 1
      && s1.client.outgoing == s.client.outgoing[topic := Key(n)]
      && s1.client.byHandle == s.client.byHandle[Key(n) := Transfer(d, n, false, content)]
      && h1.wire == h.wire
  {
    var e := SendTransfer(content, topic, 1);
    TransferNumbers(s.client, content, topic, 1);
    s1, h1 := Next(s, e), Note(s, h, e);
  }

  lemma SecondEchoed(c: Client, topic: string, d: nat, first: string, second: string, handle: Number)
    requires Lookup(c.outgoing, topic) == 1
    requires c.byHandle == UnderZeroAndOne(d, first, second)
    ensures var after := Step(c, RxAttach(topic, handle, Some(ReceiverRole)));
      && after.sent == [TransferFrame(Transfer(d + 1, USHORT + 1, false, second))]
      && after.client.byHandle == map[0 := Transfer(d, USHORT, false, first)]
  {
  }
}
