// Whole runs of the AMQP client. The ledger records what is seen at the API and
// on the wire; it never looks into the client's maps.
module AmqpRuns {
  import opened Bits
  import opened Wrappers
  import opened AmqpProtocol

  datatype Ledger = Ledger(
    next: nat,                   // the number of the next transfer
    issued: map<nat, bool>,      // the transfers handed to the API: settled or not
    deferred: map<nat, string>,  // those for which an ATTACH was sent instead, with their topic
    echoed: set<string>,         // the topics whose ATTACH was echoed
    sent: multiset<nat>,         // the transfers on the wire
    disposed: set<nat>,          // those the peer, their receiver, has disposed of
    cleared: set<nat>            // those on the wire whose number the client read in a disposition
  )

  datatype System = System(client: Client, ledger: Ledger)

  function TransfersOf(frames: seq<Frame>): multiset<nat> {
    if frames == [] then multiset{}
    else if frames[0].TransferFrame? then
      multiset{frames[0].transfer.deliveryId} + TransfersOf(frames[1..])
    else
      TransfersOf(frames[1..])
  }

  function Between(sent: multiset<nat>, first: nat, last: nat): set<nat> {
    set d | d in sent && first <= d <= last
  }

  function Observe(l: Ledger, e: Event, sent: seq<Frame>): Ledger {
    var l1 := l.(sent := l.sent + TransfersOf(sent));
    match e
    case SendTransfer(_, topic, qos) =>
      var l2 := l1.(next := l.next + 1, issued := l.issued[l.next := qos == 0]);
      if sent != [] && sent[0].AttachFrame? then l2.(deferred := l.deferred[l.next := topic]) else l2
    case RxAttach(name, _, Some(ReceiverRole)) =>
      if name in l.deferred.Values then l1.(echoed := l.echoed + {name}) else l1
    case RxDisposition(end, first, last) =>
      l1.(disposed := if end.ReceiverRole? then l.disposed + Between(l.sent, first.n, last) else l.disposed,
          cleared := if Received(first) in l.sent then l.cleared + {Received(first)} else l.cleared)
    case _ => l1
  }

  function Next(s: System, e: Event): System {
    var r := Step(s.client, e);
    System(r.client, Observe(s.ledger, e, r.sent))
  }

  // As a receiver, the peer disposes of what it received.
  predicate Answers(l: Ledger, e: Event) {
    e.RxDisposition? && e.end.ReceiverRole? ==> forall d :: e.first.n <= d <= e.last ==> d in l.sent
  }

  function Run(s: System, events: seq<Event>): System {
    if events == [] then s else Next(Run(s, events[..|events| - 1]), events[|events| - 1])
  }

  predicate Fair(s: System, events: seq<Event>) {
    events != [] ==>
      Fair(s, events[..|events| - 1]) && Answers(Run(s, events[..|events| - 1]).ledger, events[|events| - 1])
  }

  // OPEN has reset the maps; the counters keep their values.
  function Opened(nextHandle: nat, packetIds: nat): System {
    System(Client(nextHandle, packetIds, map[], map[], map[], map[], map[]),
           Ledger(packetIds, map[], map[], {}, multiset{}, {}, {}))
  }

  // ----- The invariant -----

  // Outgoing handles are nonzero, pairwise distinct and below next_handle.
  ghost predicate Handles(c: Client) {
    && c.nextHandle > 0
    && (forall t :: t in c.outgoing ==> 0 < c.outgoing[t] < c.nextHandle)
    && forall t, u :: t in c.outgoing && u in c.outgoing && c.outgoing[t] == c.outgoing[u] ==> t == u
  }

  ghost predicate Numbers(c: Client, l: Ledger) {
    && l.next == c.packetIds
    && (forall d :: d in l.issued ==> d < l.next)
    && l.deferred.Keys <= l.issued.Keys
    && l.echoed <= l.deferred.Values
    && c.outgoing.Keys == l.deferred.Values
    && forall d, f :: d in l.deferred && f in l.deferred && l.deferred[d] == l.deferred[f] ==> d == f
  }

  predicate WaitingAt(c: Client, l: Ledger, d: nat, h: nat) {
    && h in c.byHandle && c.byHandle[h].deliveryId == d
    && d in l.issued && c.byHandle[h].settled == l.issued[d]
  }

  predicate OwnedBy(c: Client, l: Ledger, h: nat, d: nat) {
    && d in l.deferred && l.deferred[d] !in l.echoed
    && l.deferred[d] in c.outgoing && c.outgoing[l.deferred[d]] == h
  }

  // The transfers in m_handler are the deferred ones without echo, each under
  // the handle of its topic.
  ghost predicate Waiting(c: Client, l: Ledger)
    requires Numbers(c, l)
  {
    && (forall d :: d in l.deferred && l.deferred[d] !in l.echoed ==> WaitingAt(c, l, d, c.outgoing[l.deferred[d]]))
    && forall h :: h in c.byHandle ==> OwnedBy(c, l, h, c.byHandle[h].deliveryId)
  }

  // A transfer is on the wire once, unless it is deferred without echo.
  predicate OnWire(l: Ledger, d: nat) {
    d in l.issued && (d in l.deferred ==> l.deferred[d] in l.echoed)
  }

  ghost predicate SentOnce(l: Ledger) {
    forall d :: l.sent[d] == if OnWire(l, d) then 1 else 0
  }

  // The transfers in m_delivery_id are the unsettled deferred ones that were
  // sent and not cleared.
  predicate Unsettled(l: Ledger, d: nat) {
    d in l.deferred && OnWire(l, d) && !l.issued[d] && d !in l.cleared
  }

  ghost predicate Delivering(c: Client, l: Ledger) {
    && (forall d :: d in c.byDelivery <==> Unsettled(l, d))
    && (forall d :: d in c.byDelivery ==> c.byDelivery[d].deliveryId == d)
    && forall d :: d in l.cleared ==> d in l.sent
  }

  ghost predicate Inv(c: Client, l: Ledger) {
    Handles(c) && Numbers(c, l) && Waiting(c, l) && SentOnce(l) && Delivering(c, l)
  }

  // ----- The changes the steps make -----

  // A transfer on a new topic: its link is requested first.
  predicate Deferred(c: Client, l: Ledger, c': Client, l': Ledger, topic: string, settled: bool) {
    && topic !in c.outgoing
    && c'.nextHandle == c.nextHandle + 1 && c'.packetIds == c.packetIds + 1
    && c'.outgoing == c.outgoing[topic := c.nextHandle]
    && c.nextHandle in c'.byHandle && c'.byHandle == c.byHandle[c.nextHandle := c'.byHandle[c.nextHandle]]
    && c'.byHandle[c.nextHandle].deliveryId == l.next && c'.byHandle[c.nextHandle].settled == settled
    && c'.byDelivery == c.byDelivery
    && l' == l.(next := l.next + 1, issued := l.issued[l.next := settled], deferred := l.deferred[l.next := topic])
  }

  // A transfer on a topic that has a handle.
  predicate Direct(c: Client, l: Ledger, c': Client, l': Ledger, settled: bool) {
    && c' == c.(packetIds := c.packetIds + 1)
    && l' == l.(next := l.next + 1, issued := l.issued[l.next := settled], sent := l.sent + multiset{l.next})
  }

  // The first echo of a link.
  predicate Echoed(c: Client, l: Ledger, c': Client, l': Ledger, d: nat, h: nat) {
    && d in l.deferred && l.deferred[d] !in l.echoed && d in l.issued
    && l.deferred[d] in c.outgoing && c.outgoing[l.deferred[d]] == h
    && h in c.byHandle && c.byHandle[h].deliveryId == d
    && c'.nextHandle == c.nextHandle && c'.packetIds == c.packetIds && c'.outgoing == c.outgoing
    && c'.byHandle == c.byHandle - {h}
    && c'.byDelivery == (if l.issued[d] then c.byDelivery else c.byDelivery[d := c.byHandle[h]])
    && l' == l.(echoed := l.echoed + {l.deferred[d]}, sent := l.sent + multiset{d})
  }

  // Nothing that matters here changes, but handles may be used up.
  predicate Quiet(c: Client, c': Client) {
    && c.nextHandle <= c'.nextHandle && c'.packetIds == c.packetIds
    && c'.outgoing == c.outgoing && c'.byHandle == c.byHandle && c'.byDelivery == c.byDelivery
  }

  // ----- Every step keeps the invariant -----

  lemma DeferredNumbers(c: Client, l: Ledger, c': Client, l': Ledger, topic: string, settled: bool)
    requires Deferred(c, l, c', l', topic, settled) && Numbers(c, l)
    ensures Numbers(c', l')
  {
    assert l'.deferred.Values == l.deferred.Values + {topic} by {
      assert l.next in l'.deferred;
      assert forall d :: d in l.deferred ==> d in l'.deferred && l'.deferred[d] == l.deferred[d];
    }
  }

  lemma DeferredOwned(c: Client, l: Ledger, c': Client, l': Ledger, topic: string, settled: bool)
    requires Deferred(c, l, c', l', topic, settled) && Numbers(c, l) && Waiting(c, l)
    ensures forall h :: h in c'.byHandle ==> OwnedBy(c', l', h, c'.byHandle[h].deliveryId)
  {
    forall h | h in c'.byHandle
      ensures OwnedBy(c', l', h, c'.byHandle[h].deliveryId)
    {
      if h != c.nextHandle {
        assert OwnedBy(c, l, h, c.byHandle[h].deliveryId);
      }
    }
  }

  lemma DeferredWaiting(c: Client, l: Ledger, c': Client, l': Ledger, topic: string, settled: bool)
    requires Deferred(c, l, c', l', topic, settled) && Handles(c) && Numbers(c, l) && Waiting(c, l)
    ensures Numbers(c', l') && Waiting(c', l')
  {
    DeferredNumbers(c, l, c', l', topic, settled);
    DeferredOwned(c, l, c', l', topic, settled);
    forall d | d in l'.deferred && l'.deferred[d] !in l'.echoed
      ensures WaitingAt(c', l', d, c'.outgoing[l'.deferred[d]])
    {
      if d != l.next {
        assert WaitingAt(c, l, d, c.outgoing[l.deferred[d]]);
      }
    }
  }

  lemma DeferredWire(c: Client, l: Ledger, c': Client, l': Ledger, topic: string, settled: bool)
    requires Deferred(c, l, c', l', topic, settled) && Numbers(c, l) && SentOnce(l) && Delivering(c, l)
    ensures SentOnce(l') && Delivering(c', l')
  {
    assert forall d :: OnWire(l', d) <==> OnWire(l, d);
    assert forall d :: Unsettled(l', d) <==> Unsettled(l, d);
  }

  lemma DeferredKept(c: Client, l: Ledger, c': Client, l': Ledger, topic: string, settled: bool)
    requires Inv(c, l) && Deferred(c, l, c', l', topic, settled)
    ensures Inv(c', l')
  {
    DeferredWaiting(c, l, c', l', topic, settled);
    DeferredWire(c, l, c', l', topic, settled);
  }

  lemma DirectWaiting(c: Client, l: Ledger, c': Client, l': Ledger, settled: bool)
    requires Direct(c, l, c', l', settled) && Numbers(c, l) && Waiting(c, l)
    ensures Numbers(c', l') && Waiting(c', l')
  {
    assert forall d, h :: d in l.deferred ==> (WaitingAt(c', l', d, h) <==> WaitingAt(c, l, d, h));
  }

  lemma DirectWire(c: Client, l: Ledger, c': Client, l': Ledger, settled: bool)
    requires Direct(c, l, c', l', settled) && Numbers(c, l) && SentOnce(l) && Delivering(c, l)
    ensures SentOnce(l') && Delivering(c', l')
  {
    assert forall d :: OnWire(l', d) <==> OnWire(l, d) || d == l.next;
    assert forall d :: Unsettled(l', d) <==> Unsettled(l, d);
  }

  lemma EchoedOwned(c: Client, l: Ledger, c': Client, l': Ledger, d: nat, h: nat)
    requires Echoed(c, l, c', l', d, h) && Numbers(c, l) && Waiting(c, l)
    ensures forall k :: k in c'.byHandle ==> OwnedBy(c', l', k, c'.byHandle[k].deliveryId)
  {
    forall k | k in c'.byHandle
      ensures OwnedBy(c', l', k, c'.byHandle[k].deliveryId)
    {
      assert OwnedBy(c, l, k, c.byHandle[k].deliveryId);
    }
  }

  lemma EchoedAt(c: Client, l: Ledger, c': Client, l': Ledger, d: nat, h: nat, f: nat)
    requires Echoed(c, l, c', l', d, h) && Handles(c) && Numbers(c, l) && Waiting(c, l)
    requires f in l.deferred && l.deferred[f] !in l'.echoed
    ensures WaitingAt(c', l', f, c'.outgoing[l'.deferred[f]])
  {
    assert WaitingAt(c, l, f, c.outgoing[l.deferred[f]]);
  }

  lemma EchoedNumbers(c: Client, l: Ledger, c': Client, l': Ledger, d: nat, h: nat)
    requires Echoed(c, l, c', l', d, h) && Numbers(c, l)
    ensures Numbers(c', l')
  {
  }

  lemma EchoedWaiting(c: Client, l: Ledger, c': Client, l': Ledger, d: nat, h: nat)
    requires Echoed(c, l, c', l', d, h) && Handles(c) && Numbers(c, l) && Waiting(c, l)
    ensures Numbers(c', l') && Waiting(c', l')
  {
    EchoedNumbers(c, l, c', l', d, h);
    EchoedOwned(c, l, c', l', d, h);
    forall f | f in l'.deferred && l'.deferred[f] !in l'.echoed
      ensures WaitingAt(c', l', f, c'.outgoing[l'.deferred[f]])
    {
      EchoedAt(c, l, c', l', d, h, f);
    }
  }

  lemma EchoedWire(c: Client, l: Ledger, c': Client, l': Ledger, d: nat, h: nat)
    requires Echoed(c, l, c', l', d, h) && Numbers(c, l) && SentOnce(l) && Delivering(c, l)
    ensures SentOnce(l') && Delivering(c', l')
  {
    EchoedSent(l, l', d);
    assert forall f :: Unsettled(l', f) <==> Unsettled(l, f) || (f == d && !l.issued[d]);
  }

  lemma EchoedSent(l: Ledger, l': Ledger, d: nat)
    requires d in l.deferred && l.deferred[d] !in l.echoed && d in l.issued
    requires forall f :: f in l.deferred && l.deferred[f] == l.deferred[d] ==> f == d
    requires l' == l.(echoed := l.echoed + {l.deferred[d]}, sent := l.sent + multiset{d}) && SentOnce(l)
    ensures SentOnce(l') && forall f :: OnWire(l', f) <==> OnWire(l, f) || f == d
  {
    assert forall f :: OnWire(l', f) <==> OnWire(l, f) || f == d;
  }

  lemma QuietKept(c: Client, l: Ledger, c': Client)
    requires Inv(c, l) && Quiet(c, c')
    ensures Inv(c', l)
  {
    assert forall d, h :: d in l.deferred ==> (WaitingAt(c', l, d, h) <==> WaitingAt(c, l, d, h));
  }

  lemma ClearedKept(c: Client, l: Ledger, c': Client, l': Ledger, d: nat)
    requires Inv(c, l) && d in l.sent
    requires c' == c.(byDelivery := c.byDelivery - {d}) && l' == l.(disposed := l'.disposed, cleared := l.cleared + {d})
    ensures Inv(c', l')
  {
    ClearedWaiting(c, l, c', l', d);
    ClearedWire(c, l, c', l', d);
  }

  lemma ClearedWaiting(c: Client, l: Ledger, c': Client, l': Ledger, d: nat)
    requires Numbers(c, l) && Waiting(c, l)
    requires c' == c.(byDelivery := c.byDelivery - {d}) && l' == l.(disposed := l'.disposed, cleared := l.cleared + {d})
    ensures Numbers(c', l') && Waiting(c', l')
  {
    assert forall f, h :: WaitingAt(c', l', f, h) <==> WaitingAt(c, l, f, h);
    assert forall f, h :: OwnedBy(c', l', h, f) <==> OwnedBy(c, l, h, f);
  }

  lemma ClearedWire(c: Client, l: Ledger, c': Client, l': Ledger, d: nat)
    requires SentOnce(l) && Delivering(c, l) && d in l.sent
    requires c' == c.(byDelivery := c.byDelivery - {d}) && l' == l.(disposed := l'.disposed, cleared := l.cleared + {d})
    ensures SentOnce(l') && Delivering(c', l')
  {
    assert forall f :: OnWire(l', f) <==> OnWire(l, f);
    assert forall f :: Unsettled(l', f) <==> Unsettled(l, f) && f != d;
  }

  // ----- The steps make these changes -----

  function Observed(c: Client, l: Ledger, e: Event): Ledger {
    Observe(l, e, Step(c, e).sent)
  }

  lemma OneFrame(f: Frame)
    ensures TransfersOf([f]) == if f.TransferFrame? then multiset{f.transfer.deliveryId} else multiset{}
  {
    assert [f][1..] == [];
  }

  // Handles and delivery ids fit the unsigned short of the maps.
  predicate Fits(c: Client) {
    c.nextHandle <= USHORT && c.packetIds <= USHORT
  }

  lemma TransferIsDirect(c: Client, l: Ledger, content: string, topic: string, qos: nat)
    requires topic in c.outgoing && c.outgoing[topic] != 0 && l.next == c.packetIds
    ensures var e := SendTransfer(content, topic, qos);
      Direct(c, l, Step(c, e).client, Observed(c, l, e), qos == 0)
  {
    OneFrame(Step(c, SendTransfer(content, topic, qos)).sent[0]);
  }

  lemma TransferIsDeferred(c: Client, l: Ledger, content: string, topic: string, qos: nat)
    requires topic !in c.outgoing && c.nextHandle < USHORT && l.next == c.packetIds
    ensures var e := SendTransfer(content, topic, qos);
      Deferred(c, l, Step(c, e).client, Observed(c, l, e), topic, qos == 0)
  {
    OneFrame(Step(c, SendTransfer(content, topic, qos)).sent[0]);
  }

  lemma TransferKept(c: Client, l: Ledger, content: string, topic: string, qos: nat)
    requires Inv(c, l) && (topic in c.outgoing || c.nextHandle < USHORT)
    ensures var e := SendTransfer(content, topic, qos); Inv(Step(c, e).client, Observed(c, l, e))
  {
    var e := SendTransfer(content, topic, qos);
    if topic in c.outgoing {
      TransferIsDirect(c, l, content, topic, qos);
      DirectWaiting(c, l, Step(c, e).client, Observed(c, l, e), qos == 0);
      DirectWire(c, l, Step(c, e).client, Observed(c, l, e), qos == 0);
    } else {
      TransferIsDeferred(c, l, content, topic, qos);
      DeferredKept(c, l, Step(c, e).client, Observed(c, l, e), topic, qos == 0);
    }
  }

  // An echo for an unknown link, or a second echo, changes and sends nothing.
  lemma EchoIgnored(c: Client, l: Ledger, name: string, handle: Number)
    requires Inv(c, l) && (name in c.outgoing ==> name in l.echoed)
    ensures var e := RxAttach(name, handle, Some(ReceiverRole));
      Step(c, e) == Effect(c, []) && Observed(c, l, e) == l
  {
    assert forall k :: k in c.byHandle ==> OwnedBy(c, l, k, c.byHandle[k].deliveryId);
  }

  lemma EchoIsFirst(c: Client, l: Ledger, d: nat, handle: Number)
    requires Handles(c) && d in l.deferred && l.deferred[d] !in l.echoed && d < USHORT
    requires l.deferred[d] in c.outgoing && WaitingAt(c, l, d, c.outgoing[l.deferred[d]])
    ensures var e := RxAttach(l.deferred[d], handle, Some(ReceiverRole));
      Echoed(c, l, Step(c, e).client, Observed(c, l, e), d, c.outgoing[l.deferred[d]])
  {
    OneFrame(TransferFrame(c.byHandle[c.outgoing[l.deferred[d]]]));
  }

  lemma EchoKept(c: Client, l: Ledger, name: string, handle: Number)
    requires Inv(c, l) && Fits(c)
    ensures var e := RxAttach(name, handle, Some(ReceiverRole)); Inv(Step(c, e).client, Observed(c, l, e))
  {
    if name in c.outgoing && name !in l.echoed {
      var e := RxAttach(name, handle, Some(ReceiverRole));
      var d :| d in l.deferred && l.deferred[d] == name;
      EchoIsFirst(c, l, d, handle);
      EchoedWaiting(c, l, Step(c, e).client, Observed(c, l, e), d, c.outgoing[name]);
      EchoedWire(c, l, Step(c, e).client, Observed(c, l, e), d, c.outgoing[name]);
    } else {
      EchoIgnored(c, l, name, handle);
    }
  }

  lemma DispositionKept(c: Client, l: Ledger, end: Role, first: Number, last: nat)
    requires Inv(c, l)
    ensures var e := RxDisposition(end, first, last); Inv(Step(c, e).client, Observed(c, l, e))
  {
    var e := RxDisposition(end, first, last);
    DispositionObserved(c, l, end, first, last);
    NumberRead(c, l, Observed(c, l, e), Received(first));
  }

  lemma DispositionObserved(c: Client, l: Ledger, end: Role, first: Number, last: nat)
    ensures var e, d := RxDisposition(end, first, last), Received(first);
      var l' := Observed(c, l, e);
      && Step(c, e) == Effect(c.(byDelivery := c.byDelivery - {d}), [])
      && l' == l.(disposed := l'.disposed, cleared := if d in l.sent then l.cleared + {d} else l.cleared)
  {
    assert l.sent + multiset{} == l.sent;
  }

  lemma NumberRead(c: Client, l: Ledger, l': Ledger, d: nat)
    requires Inv(c, l)
    requires l' == l.(disposed := l'.disposed, cleared := if d in l.sent then l.cleared + {d} else l.cleared)
    ensures Inv(c.(byDelivery := c.byDelivery - {d}), l')
  {
    if d in l.sent {
      ClearedKept(c, l, c.(byDelivery := c.byDelivery - {d}), l', d);
    } else {
      NotKept(c, l, d);
      DisposedKept(c, l, l');
    }
  }

  lemma NotKept(c: Client, l: Ledger, d: nat)
    requires SentOnce(l) && Delivering(c, l) && d !in l.sent
    ensures c.(byDelivery := c.byDelivery - {d}) == c
  {
    assert !OnWire(l, d);
  }

  lemma DisposedKept(c: Client, l: Ledger, l': Ledger)
    requires Inv(c, l) && l' == l.(disposed := l'.disposed)
    ensures Inv(c, l')
  {
    assert forall f, h :: WaitingAt(c, l', f, h) <==> WaitingAt(c, l, f, h);
    assert forall f, h :: OwnedBy(c, l', h, f) <==> OwnedBy(c, l, h, f);
    assert forall f :: OnWire(l', f) <==> OnWire(l, f);
    assert forall f :: Unsettled(l', f) <==> Unsettled(l, f);
  }

  lemma SendsNoTransfer(c: Client, e: Event)
    requires !e.SendTransfer? && !(e.RxAttach? && e.role == Some(ReceiverRole))
    ensures TransfersOf(Step(c, e).sent) == multiset{}
  {
    var sent := Step(c, e).sent;
    if sent != [] {
      OneFrame(sent[0]);
      assert sent == [sent[0]];
    }
  }

  lemma OtherIsQuiet(c: Client, l: Ledger, e: Event)
    requires !e.SendTransfer? && !e.RxDisposition? && !(e.RxAttach? && e.role == Some(ReceiverRole))
    ensures Quiet(c, Step(c, e).client) && Observed(c, l, e) == l
  {
    SendsNoTransfer(c, e);
    assert l.sent + multiset{} == l.sent;
  }

  lemma StepKept(c: Client, l: Ledger, e: Event)
    requires Inv(c, l) && Fits(c) && Fits(Step(c, e).client)
    ensures Inv(Step(c, e).client, Observed(c, l, e))
  {
    match e
    case SendTransfer(content, topic, qos) => TransferKept(c, l, content, topic, qos);
    case RxAttach(name, handle, Some(ReceiverRole)) => EchoKept(c, l, name, handle);
    case RxDisposition(end, first, last) => DispositionKept(c, l, end, first, last);
    case _ =>
      OtherIsQuiet(c, l, e);
      QuietKept(c, l, Step(c, e).client);
  }

  lemma CountersGrow(c: Client, e: Event)
    ensures c.nextHandle <= Step(c, e).client.nextHandle && c.packetIds <= Step(c, e).client.packetIds
  {
  }

  // ----- All runs -----

  // The runs that do not use up the unsigned short ids, whatever the peer sends.
  predicate Possible(s: System, events: seq<Event>) {
    s.client.nextHandle > 0 && Fits(Run(s, events).client)
  }

  lemma {:induction false} InvariantOfRuns(nextHandle: nat, packetIds: nat, events: seq<Event>)
    requires Possible(Opened(nextHandle, packetIds), events)
    ensures var s := Run(Opened(nextHandle, packetIds), events); Inv(s.client, s.ledger)
  {
    if events != [] {
      var front, e := events[..|events| - 1], events[|events| - 1];
      var before := Run(Opened(nextHandle, packetIds), front);
      CountersGrow(before.client, e);
      InvariantOfRuns(nextHandle, packetIds, front);
      StepKept(before.client, before.ledger, e);
    }
  }

  predicate ValuesBelow(m: map<string, nat>, n: nat) {
    forall t :: t in m ==> m[t] < n
  }

  predicate KeysBelow<T>(m: map<nat, T>, n: nat) {
    forall h :: h in m ==> h < n
  }

  // Every handle in the maps is below next_handle.
  predicate Below(c: Client) {
    ValuesBelow(c.incoming, c.nextHandle) && KeysBelow(c.names, c.nextHandle) && KeysBelow(c.byHandle, c.nextHandle)
  }

  lemma AddBelow<T>(m: map<nat, T>, n: nat, h: nat, x: T, more: nat)
    requires KeysBelow(m, n) && n <= more && h < more
    ensures KeysBelow(m, more) && KeysBelow(m[h := x], more)
  {
  }

  lemma AddValueBelow(m: map<string, nat>, n: nat, name: string, h: nat, more: nat)
    requires ValuesBelow(m, n) && n <= more && h < more
    ensures ValuesBelow(m, more) && ValuesBelow(m[name := h], more)
  {
  }

  lemma RemoveBelow<T>(m: map<nat, T>, n: nat, h: nat)
    requires KeysBelow(m, n)
    ensures KeysBelow(m - {h}, n)
  {
  }

  lemma TransferKeepsBelow(c: Client, content: string, topic: string, qos: nat)
    requires Below(c)
    ensures Below(OnSendTransfer(c, content, topic, qos).client)
  {
    var n := c.nextHandle;
    AddBelow(c.names, n, Key(n), topic, n + 1);
    AddBelow(c.byHandle, n, Key(n), Transfer(c.packetIds, n, qos == 0, content), n + 1);
    AddValueBelow(c.incoming, n, topic, 0, n + 1);
  }

  lemma PeerLinkKeepsBelow(c: Client, name: string, handle: nat)
    requires Below(c)
    ensures Below(OnPeerLink(c, name, handle).client)
  {
    var n := c.nextHandle;
    var more := if handle >= n then handle + 1 else n;
    AddValueBelow(c.incoming, n, name, Key(handle), more);
    AddBelow(c.names, n, Key(handle), name, more);
    assert KeysBelow(c.byHandle, more);
  }

  lemma DetachKeepsBelow(c: Client, handle: nat)
    requires Below(c)
    ensures Below(OnDetach(c, handle).client)
  {
    RemoveBelow(c.names, c.nextHandle, Key(handle));
  }

  lemma EchoKeepsBelow(c: Client, name: string)
    requires Below(c)
    ensures Below(OnEcho(c, name).client)
  {
    RemoveBelow(c.byHandle, c.nextHandle, Lookup(c.outgoing, name));
  }

  lemma StepKeepsBelow(c: Client, e: Event)
    requires Below(c)
    ensures Below(Step(c, e).client)
  {
    match e
    case SendTransfer(content, topic, qos) => TransferKeepsBelow(c, content, topic, qos);
    case RxAttach(name, _, Some(ReceiverRole)) => EchoKeepsBelow(c, name);
    case RxAttach(name, handle, Some(SenderRole)) => PeerLinkKeepsBelow(c, name, Received(handle));
    case RxDetach(handle) => DetachKeepsBelow(c, Received(handle));
    case _ =>
  }

  lemma {:induction false} BelowInRuns(nextHandle: nat, packetIds: nat, events: seq<Event>)
    ensures Below(Run(Opened(nextHandle, packetIds), events).client)
  {
    if events != [] {
      BelowInRuns(nextHandle, packetIds, events[..|events| - 1]);
      StepKeepsBelow(Run(Opened(nextHandle, packetIds), events[..|events| - 1]).client, events[|events| - 1]);
    }
  }

  // A new handle is never in use, in any of the maps: outgoing handles are
  // nonzero, distinct and below next_handle, all others below it.
  lemma NewHandleIsFree(nextHandle: nat, packetIds: nat, events: seq<Event>)
    requires Possible(Opened(nextHandle, packetIds), events)
    ensures var c := Run(Opened(nextHandle, packetIds), events).client;
      && Handles(c)
      && c.nextHandle !in c.outgoing.Values && c.nextHandle !in c.incoming.Values
      && c.nextHandle !in c.names && c.nextHandle !in c.byHandle
  {
    InvariantOfRuns(nextHandle, packetIds, events);
    BelowInRuns(nextHandle, packetIds, events);
  }

  lemma {:induction false} ClearedInRuns(nextHandle: nat, packetIds: nat, events: seq<Event>)
    ensures forall d :: d in Run(Opened(nextHandle, packetIds), events).ledger.cleared ==> d <= 255
  {
    if events != [] {
      ClearedInRuns(nextHandle, packetIds, events[..|events| - 1]);
    }
  }

  // Every transfer of a run is in exactly one place. A deferred one waits under
  // the handle of its topic, unsent, until the echo; then it has been sent once,
  // and if unsettled it is kept under its id until the client reads this id in a
  // disposition, which it never does above 255. All others were sent once, and
  // are kept nowhere.
  lemma WhereTransfersAre(nextHandle: nat, packetIds: nat, events: seq<Event>, d: nat)
    requires Possible(Opened(nextHandle, packetIds), events)
    requires d in Run(Opened(nextHandle, packetIds), events).ledger.issued
    ensures var s := Run(Opened(nextHandle, packetIds), events);
      var c, l := s.client, s.ledger;
      var waits := d in l.deferred && l.deferred[d] !in l.echoed;
      && l.sent[d] == (if waits then 0 else 1)
      && (waits ==> l.deferred[d] in c.outgoing)
      && (forall h :: WaitingAt(c, l, d, h) <==> waits && h == c.outgoing[l.deferred[d]])
      && (d in c.byDelivery <==> d in l.deferred && !waits && !l.issued[d] && d !in l.cleared)
      && (d in l.cleared ==> d <= 255)
  {
    InvariantOfRuns(nextHandle, packetIds, events);
    ClearedInRuns(nextHandle, packetIds, events);
    var s := Run(Opened(nextHandle, packetIds), events);
    var c, l := s.client, s.ledger;
    assert OnWire(l, d) <==> !(d in l.deferred && l.deferred[d] !in l.echoed);
    forall h | WaitingAt(c, l, d, h) ensures OwnedBy(c, l, h, d) {
      assert OwnedBy(c, l, h, c.byHandle[h].deliveryId);
    }
  }

  // The shortest form of an integer.
  function Shortest(n: nat): Number
    requires n < TWO_TO_THE_32
  {
    Written(n, n > 255)
  }

  // One disposition for one transfer, as its receiver, in the shortest form.
  predicate Plain(e: Event) {
    e.RxDisposition? ==>
      e.end.ReceiverRole? && e.last == e.first.n && e.first == Shortest(e.first.n)
  }

  // With a peer that disposes of each transfer alone, exactly those of the ids up
  // to 255 are cleared.
  lemma {:induction false} ClearedExactly(nextHandle: nat, packetIds: nat, events: seq<Event>, d: nat)
    requires Possible(Opened(nextHandle, packetIds), events) && Fair(Opened(nextHandle, packetIds), events)
    requires d > 0 && forall e :: e in events ==> Plain(e)
    ensures var l := Run(Opened(nextHandle, packetIds), events).ledger;
      d in l.cleared <==> d in l.disposed && d <= 255
  {
    if events != [] {
      var front, e := events[..|events| - 1], events[|events| - 1];
      var before := Run(Opened(nextHandle, packetIds), front);
      CountersGrow(before.client, e);
      InvariantOfRuns(nextHandle, packetIds, front);
      ClearedExactly(nextHandle, packetIds, front, d);
      assert e in events;
      NextCleared(before, e, d);
    }
  }

  lemma NextCleared(s: System, e: Event, d: nat)
    requires SentOnce(s.ledger) && Numbers(s.client, s.ledger) && Fits(s.client)
    requires Answers(s.ledger, e) && Plain(e) && d > 0
    requires d in s.ledger.cleared <==> d in s.ledger.disposed && d <= 255
    ensures var l := Next(s, e).ledger; d in l.cleared <==> d in l.disposed && d <= 255
  {
    if e.RxDisposition? {
      assert e.first.n in s.ledger.sent && OnWire(s.ledger, e.first.n);
      ReadExactly(e.first, d);
    }
  }

  lemma ReadExactly(k: Number, d: nat)
    requires d > 0 && k == Shortest(k.n) && k.n < USHORT
    ensures Received(k) == d <==> k.n == d && d <= 255
  {
  }

  // After such a run, an unsettled transfer that was sent after its echo is kept
  // until its disposition if its id is at most 255, and for ever if it is not.
  lemma KeptExactly(nextHandle: nat, packetIds: nat, events: seq<Event>, d: nat)
    requires Possible(Opened(nextHandle, packetIds), events) && Fair(Opened(nextHandle, packetIds), events)
    requires forall e :: e in events ==> Plain(e)
    requires var l := Run(Opened(nextHandle, packetIds), events).ledger;
      d > 0 && d in l.issued && !l.issued[d] && d in l.deferred && l.deferred[d] in l.echoed
    ensures var s := Run(Opened(nextHandle, packetIds), events);
      d !in s.client.byDelivery <==> d in s.ledger.disposed && d <= 255
  {
    WhereTransfersAre(nextHandle, packetIds, events, d);
    ClearedExactly(nextHandle, packetIds, events, d);
  }
}
