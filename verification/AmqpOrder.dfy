// The order in which the transfers of a topic go out, over all runs of the AMQP
// client.
module AmqpOrder {
  import opened Bits
  import opened Wrappers
  import opened AmqpProtocol
  import opened AmqpRuns

  datatype History = History(
    wire: seq<nat>,            // the transfers on the wire, in order
    topics: map<nat, string>,  // the topic of every transfer handed to the API
    rushed: set<string>        // the topics with a transfer handed over while they waited for their echo
  )

  const NOTHING: History := History([], map[], {})

  // An ATTACH for the topic was sent and its echo has not come.
  predicate Waits(l: Ledger, topic: string) {
    topic in l.deferred.Values && topic !in l.echoed
  }

  function NumbersOf(frames: seq<Frame>): seq<nat> {
    if frames == [] then []
    else (if frames[0].TransferFrame? then [frames[0].transfer.deliveryId] else []) + NumbersOf(frames[1..])
  }

  function Note(s: System, h: History, e: Event): History {
    var h1 := h.(wire := h.wire + NumbersOf(Step(s.client, e).sent));
    match e
    case SendTransfer(_, topic, _) =>
      h1.(topics := h.topics[s.ledger.next := topic],
          rushed := if Waits(s.ledger, topic) then h.rushed + {topic} else h.rushed)
    case _ => h1
  }

  function Past(s: System, events: seq<Event>): History {
    if events == [] then NOTHING
    else
      var front := events[..|events| - 1];
      Note(Run(s, front), Past(s, front), events[|events| - 1])
  }

  // ----- The invariant -----

  predicate On(h: History, topic: string, d: nat) {
    d in h.topics && h.topics[d] == topic
  }

  // The transfers of the topic go out in the order they were handed over.
  ghost predicate InOrder(h: History, topic: string) {
    forall i, j :: 0 <= i < j < |h.wire| && On(h, topic, h.wire[i]) && On(h, topic, h.wire[j]) ==> h.wire[i] < h.wire[j]
  }

  // The first transfer of a topic is the deferred one.
  ghost predicate Recorded(l: Ledger, h: History) {
    && h.topics.Keys == l.issued.Keys && multiset(h.wire) == l.sent
    && (forall d :: d in h.wire ==> d in h.topics)
    && (forall d :: d in l.deferred ==> On(h, l.deferred[d], d))
    && (forall d :: d in h.topics ==> h.topics[d] in l.deferred.Values)
    && forall f: nat, d: nat :: f in l.deferred && On(h, l.deferred[f], d) ==> f <= d
  }

  // A later transfer of the topic is on the wire.
  ghost predicate LaterSent(l: Ledger, h: History, topic: string) {
    exists d :: d in h.wire && On(h, topic, d) && d !in l.deferred
  }

  ghost predicate SortedUnlessRushed(l: Ledger, h: History) {
    forall t :: InOrder(h, t) <==> !(t in h.rushed && t in l.echoed)
  }

  ghost predicate Rushes(l: Ledger, h: History) {
    && (forall t :: t in h.rushed ==> t in l.deferred.Values && LaterSent(l, h, t))
    && forall d :: d in h.wire && d in h.topics && Waits(l, h.topics[d]) ==> h.topics[d] in h.rushed
  }

  ghost predicate Orderly(l: Ledger, h: History) {
    Recorded(l, h) && SortedUnlessRushed(l, h) && Rushes(l, h)
  }

  // ----- Every step keeps it -----

  // A transfer on a new topic is deferred.
  predicate Postponed(l: Ledger, h: History, l': Ledger, h': History, topic: string, settled: bool) {
    && l.next !in l.issued && (forall d :: d in l.issued ==> d < l.next)
    && topic !in l.deferred.Values && topic !in l.echoed
    && l' == l.(next := l.next + 1, issued := l.issued[l.next := settled], deferred := l.deferred[l.next := topic])
    && h' == h.(topics := h.topics[l.next := topic])
  }

  lemma PostponedRecorded(l: Ledger, h: History, l': Ledger, h': History, topic: string, settled: bool)
    requires Postponed(l, h, l', h', topic, settled) && Recorded(l, h)
    ensures Recorded(l', h') && l'.deferred.Values == l.deferred.Values + {topic}
  {
    MoreValues(l.deferred, l.next, topic);
    forall f: nat, d: nat | f in l'.deferred && On(h', l'.deferred[f], d) ensures f <= d {
      assert d != l.next ==> On(h, h'.topics[d], d);
    }
  }

  lemma MoreValues(m: map<nat, string>, d: nat, topic: string)
    requires d !in m
    ensures m[d := topic].Values == m.Values + {topic}
  {
    var m' := m[d := topic];
    assert d in m' && forall f :: f in m ==> f in m' && m'[f] == m[f];
  }

  lemma PostponedSorted(l: Ledger, h: History, l': Ledger, h': History, topic: string, settled: bool)
    requires Postponed(l, h, l', h', topic, settled) && Recorded(l, h) && Rushes(l, h) && SortedUnlessRushed(l, h)
    ensures SortedUnlessRushed(l', h')
  {
    forall t ensures InOrder(h', t) <==> InOrder(h, t) {
      SameOrder(h, h', t);
    }
  }

  lemma SameOrder(h: History, h': History, topic: string)
    requires h'.wire == h.wire && forall d :: d in h.wire ==> (On(h', topic, d) <==> On(h, topic, d))
    ensures InOrder(h', topic) <==> InOrder(h, topic)
  {
    assert forall i :: 0 <= i < |h.wire| ==> (On(h', topic, h.wire[i]) <==> On(h, topic, h.wire[i]));
  }

  lemma PostponedRushes(l: Ledger, h: History, l': Ledger, h': History, topic: string, settled: bool)
    requires Postponed(l, h, l', h', topic, settled) && Recorded(l, h) && Rushes(l, h)
    ensures Rushes(l', h')
  {
    MoreValues(l.deferred, l.next, topic);
    forall t | t in h'.rushed ensures LaterSent(l', h', t) {
      var d :| d in h.wire && On(h, t, d) && d !in l.deferred;
      assert On(h', t, d) && d !in l'.deferred;
    }
  }

  // A transfer on a topic that has a handle is sent.
  predicate Forwarded(l: Ledger, h: History, l': Ledger, h': History, topic: string, settled: bool) {
    && l.next !in l.issued && (forall d :: d in l.issued ==> d < l.next)
    && topic in l.deferred.Values && l.deferred.Keys <= l.issued.Keys
    && l' == l.(next := l.next + 1, issued := l.issued[l.next := settled], sent := l.sent + multiset{l.next})
    && h' == History(h.wire + [l.next], h.topics[l.next := topic],
                     if Waits(l, topic) then h.rushed + {topic} else h.rushed)
  }

  lemma ForwardedRecorded(l: Ledger, h: History, l': Ledger, h': History, topic: string, settled: bool)
    requires Forwarded(l, h, l', h', topic, settled) && Recorded(l, h)
    ensures Recorded(l', h')
  {
    forall f: nat, d: nat | f in l'.deferred && On(h', l'.deferred[f], d) ensures f <= d {
      assert d != l.next ==> On(h, h'.topics[d], d);
    }
  }

  lemma LastInOrder(h: History, h': History, topic: string, d: nat)
    requires h'.wire == h.wire + [d]
    requires forall f :: f in h.wire ==> (On(h', topic, f) <==> On(h, topic, f))
    ensures InOrder(h', topic) <==>
      InOrder(h, topic) && (On(h', topic, d) ==> forall f :: f in h.wire && On(h, topic, f) ==> f < d)
  {
    var n := |h.wire|;
    assert forall i :: 0 <= i < n ==> h'.wire[i] == h.wire[i] && h.wire[i] in h.wire;
    assert h'.wire[n] == d;
    if InOrder(h', topic) {
      forall f | f in h.wire && On(h, topic, f) && On(h', topic, d) ensures f < d {
        var i :| 0 <= i < n && h.wire[i] == f;
        assert On(h', topic, h'.wire[i]) && On(h', topic, h'.wire[n]);
      }
      forall i, j | 0 <= i < j < n && On(h, topic, h.wire[i]) && On(h, topic, h.wire[j]) ensures h.wire[i] < h.wire[j] {
        assert On(h', topic, h'.wire[i]) && On(h', topic, h'.wire[j]);
      }
    }
  }

  lemma ForwardedSorted(l: Ledger, h: History, l': Ledger, h': History, topic: string, settled: bool)
    requires Forwarded(l, h, l', h', topic, settled) && Recorded(l, h) && SortedUnlessRushed(l, h)
    ensures SortedUnlessRushed(l', h')
  {
    forall t ensures InOrder(h', t) <==> InOrder(h, t) {
      LastInOrder(h, h', t, l.next);
    }
  }

  lemma StillLaterSent(l: Ledger, h: History, l': Ledger, h': History, topic: string)
    requires LaterSent(l, h, topic) && l'.deferred == l.deferred
    requires forall d :: d in h.wire && On(h, topic, d) ==> d in h'.wire && On(h', topic, d)
    ensures LaterSent(l', h', topic)
  {
    var d :| d in h.wire && On(h, topic, d) && d !in l.deferred;
    assert d in h'.wire && On(h', topic, d);
  }

  lemma ForwardedLater(l: Ledger, h: History, l': Ledger, h': History, topic: string, settled: bool, t: string)
    requires Forwarded(l, h, l', h', topic, settled) && Recorded(l, h) && Rushes(l, h) && t in h'.rushed
    ensures t in l'.deferred.Values && LaterSent(l', h', t)
  {
    if t in h.rushed {
      StillLaterSent(l, h, l', h', t);
    } else {
      assert l.next in h'.wire && On(h', topic, l.next) && l.next !in l.deferred;
    }
  }

  lemma ForwardedWaits(l: Ledger, h: History, l': Ledger, h': History, topic: string, settled: bool, d: nat)
    requires Forwarded(l, h, l', h', topic, settled) && Recorded(l, h) && Rushes(l, h)
    requires d in h'.wire && d in h'.topics && Waits(l', h'.topics[d])
    ensures h'.topics[d] in h'.rushed
  {
    if d in h.wire {
      assert d in h.topics && h'.topics[d] == h.topics[d];
    }
  }

  lemma ForwardedRushes(l: Ledger, h: History, l': Ledger, h': History, topic: string, settled: bool)
    requires Forwarded(l, h, l', h', topic, settled) && Recorded(l, h) && Rushes(l, h)
    ensures Rushes(l', h')
  {
    forall t | t in h'.rushed ensures t in l'.deferred.Values && LaterSent(l', h', t) {
      ForwardedLater(l, h, l', h', topic, settled, t);
    }
    forall d | d in h'.wire && d in h'.topics && Waits(l', h'.topics[d]) ensures h'.topics[d] in h'.rushed {
      ForwardedWaits(l, h, l', h', topic, settled, d);
    }
  }

  // The first echo sends the deferred transfer.
  predicate Released(l: Ledger, h: History, l': Ledger, h': History, d: nat) {
    && d in l.deferred && l.deferred[d] !in l.echoed
    && (forall f :: f in l.deferred && l.deferred[f] == l.deferred[d] ==> f == d)
    && l' == l.(echoed := l.echoed + {l.deferred[d]}, sent := l.sent + multiset{d})
    && h' == h.(wire := h.wire + [d])
  }

  lemma ReleasedSorted(l: Ledger, h: History, l': Ledger, h': History, d: nat)
    requires Released(l, h, l', h', d) && Recorded(l, h) && Rushes(l, h) && SortedUnlessRushed(l, h)
    ensures SortedUnlessRushed(l', h')
  {
    forall t ensures InOrder(h', t) <==> !(t in h'.rushed && t in l'.echoed) {
      LastInOrder(h, h', t, d);
      if t == l.deferred[d] {
        ReleasedTopic(l, h, d);
      }
    }
  }

  // The deferred transfer comes late exactly if its topic was rushed.
  lemma ReleasedTopic(l: Ledger, h: History, d: nat)
    requires d in l.deferred && l.deferred[d] !in l.echoed && Recorded(l, h) && Rushes(l, h)
    ensures (forall f :: f in h.wire && On(h, l.deferred[d], f) ==> f < d) <==> l.deferred[d] !in h.rushed
  {
    var topic := l.deferred[d];
    if topic in h.rushed {
      var f :| f in h.wire && On(h, topic, f) && f !in l.deferred;
      assert d <= f;
    } else {
      assert forall f :: f in h.wire && On(h, topic, f) ==> Waits(l, h.topics[f]);
    }
  }

  lemma ReleasedRecorded(l: Ledger, h: History, l': Ledger, h': History, d: nat)
    requires Released(l, h, l', h', d) && Recorded(l, h)
    ensures Recorded(l', h')
  {
    forall f: nat, g: nat | f in l'.deferred && On(h', l'.deferred[f], g) ensures f <= g {
      assert On(h, l.deferred[f], g);
    }
  }

  lemma ReleasedRushes(l: Ledger, h: History, l': Ledger, h': History, d: nat)
    requires Released(l, h, l', h', d) && Recorded(l, h) && Rushes(l, h)
    ensures Rushes(l', h')
  {
    forall t | t in h'.rushed ensures LaterSent(l', h', t) {
      StillLaterSent(l, h, l', h', t);
    }
  }

  // ----- The steps -----

  lemma OneNumber(f: Frame)
    ensures NumbersOf([f]) == if f.TransferFrame? then [f.transfer.deliveryId] else []
  {
    assert [f][1..] == [];
  }

  lemma TransferNumbers(c: Client, content: string, topic: string, qos: nat)
    ensures NumbersOf(Step(c, SendTransfer(content, topic, qos)).sent)
      == if Lookup(c.outgoing, topic) != 0 then [c.packetIds] else []
  {
    OneNumber(Step(c, SendTransfer(content, topic, qos)).sent[0]);
  }

  lemma OtherNumbers(c: Client, e: Event)
    requires !e.SendTransfer? && !(e.RxAttach? && e.role == Some(ReceiverRole))
    ensures NumbersOf(Step(c, e).sent) == []
  {
    var sent := Step(c, e).sent;
    if sent != [] {
      OneNumber(sent[0]);
      assert sent == [sent[0]];
    }
  }

  lemma PostponedOrdered(l: Ledger, h: History, l': Ledger, h': History, topic: string, settled: bool)
    requires Postponed(l, h, l', h', topic, settled) && Orderly(l, h)
    ensures Orderly(l', h')
  {
    PostponedRecorded(l, h, l', h', topic, settled);
    PostponedSorted(l, h, l', h', topic, settled);
    PostponedRushes(l, h, l', h', topic, settled);
  }

  lemma ForwardedOrdered(l: Ledger, h: History, l': Ledger, h': History, topic: string, settled: bool)
    requires Forwarded(l, h, l', h', topic, settled) && Orderly(l, h)
    ensures Orderly(l', h')
  {
    ForwardedRecorded(l, h, l', h', topic, settled);
    ForwardedSorted(l, h, l', h', topic, settled);
    ForwardedRushes(l, h, l', h', topic, settled);
  }

  lemma ReleasedOrdered(l: Ledger, h: History, l': Ledger, h': History, d: nat)
    requires Released(l, h, l', h', d) && Orderly(l, h)
    ensures Orderly(l', h')
  {
    ReleasedRecorded(l, h, l', h', d);
    ReleasedSorted(l, h, l', h', d);
    ReleasedRushes(l, h, l', h', d);
  }

  lemma TransferNoted(s: System, h: History, content: string, topic: string, qos: nat)
    ensures Note(s, h, SendTransfer(content, topic, qos)) == History(
      if Lookup(s.client.outgoing, topic) != 0 then h.wire + [s.client.packetIds] else h.wire,
      h.topics[s.ledger.next := topic],
      if Waits(s.ledger, topic) then h.rushed + {topic} else h.rushed)
  {
    TransferNumbers(s.client, content, topic, qos);
    assert h.wire + [] == h.wire;
  }

  lemma TransferForwarded(s: System, h: History, content: string, topic: string, qos: nat)
    requires Inv(s.client, s.ledger) && topic in s.client.outgoing
    ensures var e := SendTransfer(content, topic, qos);
      Forwarded(s.ledger, h, Observed(s.client, s.ledger, e), Note(s, h, e), topic, qos == 0)
  {
    TransferNoted(s, h, content, topic, qos);
    TransferIsDirect(s.client, s.ledger, content, topic, qos);
  }

  lemma TransferPostponed(s: System, h: History, content: string, topic: string, qos: nat)
    requires Inv(s.client, s.ledger) && topic !in s.client.outgoing && s.client.nextHandle < USHORT
    ensures var e := SendTransfer(content, topic, qos);
      Postponed(s.ledger, h, Observed(s.client, s.ledger, e), Note(s, h, e), topic, qos == 0)
  {
    TransferNoted(s, h, content, topic, qos);
    TransferIsDeferred(s.client, s.ledger, content, topic, qos);
  }

  lemma DirectOrdered(s: System, h: History, content: string, topic: string, qos: nat)
    requires Inv(s.client, s.ledger) && Orderly(s.ledger, h) && topic in s.client.outgoing
    ensures var e := SendTransfer(content, topic, qos); Orderly(Observed(s.client, s.ledger, e), Note(s, h, e))
  {
    var e := SendTransfer(content, topic, qos);
    TransferForwarded(s, h, content, topic, qos);
    ForwardedOrdered(s.ledger, h, Observed(s.client, s.ledger, e), Note(s, h, e), topic, qos == 0);
  }

  lemma DeferredOrdered(s: System, h: History, content: string, topic: string, qos: nat)
    requires Inv(s.client, s.ledger) && Orderly(s.ledger, h)
    requires topic !in s.client.outgoing && s.client.nextHandle < USHORT
    ensures var e := SendTransfer(content, topic, qos); Orderly(Observed(s.client, s.ledger, e), Note(s, h, e))
  {
    var e := SendTransfer(content, topic, qos);
    TransferPostponed(s, h, content, topic, qos);
    PostponedOrdered(s.ledger, h, Observed(s.client, s.ledger, e), Note(s, h, e), topic, qos == 0);
  }

  lemma EchoReleases(s: System, h: History, name: string, handle: Number, d: nat)
    requires Inv(s.client, s.ledger) && Fits(s.client)
    requires d in s.ledger.deferred && s.ledger.deferred[d] == name && name !in s.ledger.echoed
    ensures var e := RxAttach(name, handle, Some(ReceiverRole));
      Released(s.ledger, h, Observed(s.client, s.ledger, e), Note(s, h, e), d)
  {
    EchoIsFirst(s.client, s.ledger, d, handle);
    OneNumber(TransferFrame(s.client.byHandle[s.client.outgoing[name]]));
  }

  lemma EchoIsNoted(s: System, h: History, name: string, handle: Number)
    requires Inv(s.client, s.ledger) && (name in s.client.outgoing ==> name in s.ledger.echoed)
    ensures var e := RxAttach(name, handle, Some(ReceiverRole));
      Observed(s.client, s.ledger, e) == s.ledger && Note(s, h, e) == h
  {
    EchoIgnored(s.client, s.ledger, name, handle);
    assert h.wire + [] == h.wire;
  }

  lemma EchoOrdered(s: System, h: History, name: string, handle: Number)
    requires Inv(s.client, s.ledger) && Fits(s.client) && Orderly(s.ledger, h)
    ensures var e := RxAttach(name, handle, Some(ReceiverRole));
      Orderly(Observed(s.client, s.ledger, e), Note(s, h, e))
  {
    var e := RxAttach(name, handle, Some(ReceiverRole));
    if name in s.client.outgoing && name !in s.ledger.echoed {
      var d :| d in s.ledger.deferred && s.ledger.deferred[d] == name;
      EchoReleases(s, h, name, handle, d);
      ReleasedOrdered(s.ledger, h, Observed(s.client, s.ledger, e), Note(s, h, e), d);
    } else {
      EchoIsNoted(s, h, name, handle);
    }
  }

  lemma OtherOrdered(s: System, h: History, e: Event)
    requires Orderly(s.ledger, h)
    requires !e.SendTransfer? && !(e.RxAttach? && e.role == Some(ReceiverRole))
    ensures Orderly(Observed(s.client, s.ledger, e), Note(s, h, e))
  {
    OtherNoted(s, h, e);
    var l' := Observed(s.client, s.ledger, e);
    DisposedOrdered(s.ledger, h, l'.disposed, l'.cleared);
  }

  lemma OtherNoted(s: System, h: History, e: Event)
    requires !e.SendTransfer? && !(e.RxAttach? && e.role == Some(ReceiverRole))
    ensures Note(s, h, e) == h
    ensures var l' := Observed(s.client, s.ledger, e); l' == s.ledger.(disposed := l'.disposed, cleared := l'.cleared)
  {
    OtherNumbers(s.client, e);
    SendsNoTransfer(s.client, e);
    assert h.wire + [] == h.wire && s.ledger.sent + multiset{} == s.ledger.sent;
  }

  lemma DisposedOrdered(l: Ledger, h: History, disposed: set<nat>, cleared: set<nat>)
    requires Orderly(l, h)
    ensures Orderly(l.(disposed := disposed, cleared := cleared), h)
  {
    var l' := l.(disposed := disposed, cleared := cleared);
    assert forall t :: LaterSent(l, h, t) ==> LaterSent(l', h, t);
    assert forall t :: Waits(l', t) == Waits(l, t);
  }

  lemma StepOrdered(s: System, h: History, e: Event)
    requires Inv(s.client, s.ledger) && Orderly(s.ledger, h)
    requires Fits(s.client) && Fits(Step(s.client, e).client)
    ensures Orderly(Next(s, e).ledger, Note(s, h, e))
  {
    match e
    case SendTransfer(content, topic, qos) =>
      if topic in s.client.outgoing {
        DirectOrdered(s, h, content, topic, qos);
      } else {
        DeferredOrdered(s, h, content, topic, qos);
      }
    case RxAttach(name, handle, Some(ReceiverRole)) => EchoOrdered(s, h, name, handle);
    case _ => OtherOrdered(s, h, e);
  }

  // ----- All runs -----

  lemma {:induction false} OrderOfRuns(nextHandle: nat, packetIds: nat, events: seq<Event>)
    requires Possible(Opened(nextHandle, packetIds), events)
    ensures Orderly(Run(Opened(nextHandle, packetIds), events).ledger, Past(Opened(nextHandle, packetIds), events))
  {
    if events != [] {
      var s0, front, e := Opened(nextHandle, packetIds), events[..|events| - 1], events[|events| - 1];
      CountersGrow(Run(s0, front).client, e);
      InvariantOfRuns(nextHandle, packetIds, front);
      OrderOfRuns(nextHandle, packetIds, front);
      StepOrdered(Run(s0, front), Past(s0, front), e);
    }
  }

  // After every run, the transfers of a topic are on the wire in the order they
  // were handed over, unless the echo has come for a topic on which a transfer
  // was handed over while it waited.
  lemma OrderKeptExactly(nextHandle: nat, packetIds: nat, events: seq<Event>, topic: string)
    requires Possible(Opened(nextHandle, packetIds), events)
    ensures var h := Past(Opened(nextHandle, packetIds), events);
      InOrder(h, topic) <==>
      !(topic in h.rushed && topic in Run(Opened(nextHandle, packetIds), events).ledger.echoed)
  {
    OrderOfRuns(nextHandle, packetIds, events);
  }

  // The new transfer d is on the wire, and one handed over before it on the
  // topic is not.
  ghost predicate Overtakes(h: History, topic: string, d: nat) {
    d in h.wire && exists f: nat :: On(h, topic, f) && f < d && f !in h.wire
  }

  // After every run, the next transfer overtakes exactly on a topic that waits
  // for its echo.
  lemma OvertakesExactly(nextHandle: nat, packetIds: nat, events: seq<Event>, content: string, topic: string, qos: nat)
    requires var s0 := Opened(nextHandle, packetIds); Possible(s0, events + [SendTransfer(content, topic, qos)])
    ensures var s0, e := Opened(nextHandle, packetIds), SendTransfer(content, topic, qos);
      var l := Run(s0, events).ledger;
      Overtakes(Past(s0, events + [e]), topic, l.next) <==> Waits(l, topic)
  {
    var s0, e := Opened(nextHandle, packetIds), SendTransfer(content, topic, qos);
    var s, h := Run(s0, events), Past(s0, events);
    assert (events + [e])[..|events|] == events;
    CountersGrow(s.client, e);
    InvariantOfRuns(nextHandle, packetIds, events);
    OrderOfRuns(nextHandle, packetIds, events);
    WireIsSent(s.ledger, h);
    TransferNoted(s, h, content, topic, qos);
    NextOvertakes(s.client, s.ledger, h, Past(s0, events + [e]), topic);
  }

  lemma NextOvertakes(c: Client, l: Ledger, h: History, h': History, topic: string)
    requires Handles(c) && c.outgoing.Keys == l.deferred.Values && l.next !in l.issued
    requires Recorded(l, h) && forall d :: d in h.wire <==> OnWire(l, d)
    requires forall d :: d in l.issued ==> d < l.next
    requires h'.wire == if Lookup(c.outgoing, topic) != 0 then h.wire + [l.next] else h.wire
    requires h'.topics == h.topics[l.next := topic]
    ensures Overtakes(h', topic, l.next) <==> Waits(l, topic)
  {
    if topic in c.outgoing {
      ForwardedOvertakes(l, h, h', topic);
    } else {
      assert !OnWire(l, l.next) && l.next !in h.wire;
    }
  }

  lemma ForwardedOvertakes(l: Ledger, h: History, h': History, topic: string)
    requires h'.wire == h.wire + [l.next] && h'.topics == h.topics[l.next := topic]
    requires Recorded(l, h) && topic in l.deferred.Values && forall d :: d in h.wire <==> OnWire(l, d)
    requires forall d :: d in l.issued ==> d < l.next
    ensures Overtakes(h', topic, l.next) <==> Waits(l, topic)
  {
    if Waits(l, topic) {
      var f :| f in l.deferred && l.deferred[f] == topic;
      UnsentBefore(l, h, topic, f);
      assert On(h', topic, f) && f !in h'.wire;
    } else {
      AllSentBefore(l, h, topic);
      assert forall f: nat :: f < l.next && On(h', topic, f) ==> On(h, topic, f);
    }
  }

  lemma WireIsSent(l: Ledger, h: History)
    requires SentOnce(l) && Recorded(l, h)
    ensures forall d :: d in h.wire <==> OnWire(l, d)
  {
    forall d ensures d in h.wire <==> OnWire(l, d) {
      assert d in h.wire <==> d in multiset(h.wire);
      assert l.sent[d] == if OnWire(l, d) then 1 else 0;
    }
  }

  lemma UnsentBefore(l: Ledger, h: History, topic: string, f: nat)
    requires Recorded(l, h) && Waits(l, topic) && f in l.deferred && l.deferred[f] == topic
    requires forall d :: d in h.wire <==> OnWire(l, d)
    requires forall d :: d in l.issued ==> d < l.next
    ensures On(h, topic, f) && f < l.next && f !in h.wire
  {
  }

  lemma AllSentBefore(l: Ledger, h: History, topic: string)
    requires Recorded(l, h) && topic in l.echoed
    requires forall d :: d in h.wire <==> OnWire(l, d)
    ensures forall f :: On(h, topic, f) ==> f in h.wire
  {
  }

  // ----- A run -----

  lemma RunOfThree(s: System, e1: Event, e2: Event, e3: Event)
    ensures var s1 := Next(s, e1);
      var s2 := Next(s1, e2);
      && Run(s, [e1, e2, e3]) == Next(s2, e3)
      && Past(s, [e1, e2, e3]) == Note(s2, Note(s1, Note(s, NOTHING, e1), e2), e3)
  {
    RunOfTwo(s, e1, e2);
    assert [e1, e2, e3][..2] == [e1, e2];
  }

  lemma RunOfTwo(s: System, e1: Event, e2: Event)
    ensures Run(s, [e1, e2]) == Next(Next(s, e1), e2)
    ensures Past(s, [e1, e2]) == Note(Next(s, e1), Note(s, NOTHING, e1), e2)
  {
    assert [e1, e2][..1] == [e1] && [e1][..0] == [];
    assert Run(s, []) == s && Past(s, []) == NOTHING;
    assert Run(s, [e1]) == Next(s, e1) && Past(s, [e1]) == Note(s, NOTHING, e1);
  }

  // Two transfers on a new topic and its echo.
  function TwoAndEcho(first: string, second: string, topic: string, handle: Number): seq<Event> {
    [SendTransfer(first, topic, 1), SendTransfer(second, topic, 1), RxAttach(topic, handle, Some(ReceiverRole))]
  }

  // After a connection with any counters, they go out in the wrong order.
  lemma SecondGoesFirst(nextHandle: nat, packetIds: nat, topic: string, first: string, second: string, handle: Number)
    requires 0 < nextHandle < USHORT && packetIds + 2 <= USHORT
    ensures var s, events := Opened(nextHandle, packetIds), TwoAndEcho(first, second, topic, handle);
      && Possible(s, events)
      && Past(s, events).wire == [packetIds + 1, packetIds]
      && !InOrder(Past(s, events), topic)
  {
    var c, h := AfterTwoAndEcho(Opened(nextHandle, packetIds), packetIds, topic, first, second, handle);
    OutOfOrder(h, topic);
  }

  lemma AfterTwoAndEcho(s: System, d: nat, topic: string, first: string, second: string, handle: Number)
    returns (c: Client, h: History)
    requires topic !in s.client.outgoing && 0 < s.client.nextHandle < USHORT && s.client.byHandle == map[]
    requires s.ledger.next == s.client.packetIds == d
    ensures var events := TwoAndEcho(first, second, topic, handle); c == Run(s, events).client && h == Past(s, events)
    ensures c.nextHandle == s.client.nextHandle + 1 && c.packetIds == d + 2
    ensures h.wire == [d + 1, d] && On(h, topic, d) && On(h, topic, d + 1)
  {
    hide Step;
    hide Next;
    hide Note;
    var e1, e2, e3 := SendTransfer(first, topic, 1), SendTransfer(second, topic, 1),
                      RxAttach(topic, handle, Some(ReceiverRole));
    var s2, h2 := AfterTwo(s, topic, first, second);
    c, h := AfterEcho(s2, h2, topic, handle);
    RunOfThree(s, e1, e2, e3);
  }

  lemma AfterEcho(s: System, h: History, topic: string, peer: Number) returns (c: Client, h1: History)
    requires topic in s.client.outgoing && s.client.outgoing[topic] != 0
    requires s.client.outgoing[topic] in s.client.byHandle
    ensures var e := RxAttach(topic, peer, Some(ReceiverRole));
      c == Next(s, e).client && h1 == Note(s, h, e)
    ensures c.nextHandle == s.client.nextHandle && c.packetIds == s.client.packetIds && h1.topics == h.topics
    ensures h1.wire == h.wire + [s.client.byHandle[s.client.outgoing[topic]].deliveryId]
  {
    var e := RxAttach(topic, peer, Some(ReceiverRole));
    OneNumber(TransferFrame(s.client.byHandle[s.client.outgoing[topic]]));
    c, h1 := Next(s, e).client, Note(s, h, e);
  }

  lemma AfterTwo(s: System, topic: string, first: string, second: string) returns (s2: System, h2: History)
    requires topic !in s.client.outgoing && 0 < s.client.nextHandle < USHORT && s.client.byHandle == map[]
    requires s.ledger.next == s.client.packetIds
    ensures var e1, e2 := SendTransfer(first, topic, 1), SendTransfer(second, topic, 1);
      s2 == Next(Next(s, e1), e2) && h2 == Note(Next(s, e1), Note(s, NOTHING, e1), e2)
    ensures var n, d := s.client.nextHandle, s.client.packetIds;
      && s2.client.nextHandle == n + 1 && s2.client.packetIds == d + 2
      && topic in s2.client.outgoing && s2.client.outgoing[topic] == n
      && n in s2.client.byHandle && s2.client.byHandle[n].deliveryId == d
      && h2.wire == [d + 1] && On(h2, topic, d) && On(h2, topic, d + 1)
  {
    var e1, e2 := SendTransfer(first, topic, 1), SendTransfer(second, topic, 1);
    FirstIsDeferred(s, topic, first);
    SecondIsSent(Next(s, e1), Note(s, NOTHING, e1), topic, second);
    s2, h2 := Next(Next(s, e1), e2), Note(Next(s, e1), Note(s, NOTHING, e1), e2);
  }

  lemma OutOfOrder(h: History, topic: string)
    requires |h.wire| == 2 && h.wire[1] < h.wire[0] && On(h, topic, h.wire[0]) && On(h, topic, h.wire[1])
    ensures !InOrder(h, topic)
  {
  }

  lemma FirstIsDeferred(s: System, topic: string, first: string)
    requires topic !in s.client.outgoing && 0 < s.client.nextHandle < USHORT && s.client.byHandle == map[]
    requires s.ledger.next == s.client.packetIds
    ensures var e := SendTransfer(first, topic, 1);
      var s1, h1, d := Next(s, e), Note(s, NOTHING, e), s.client.packetIds;
      && s1.client.nextHandle == s.client.nextHandle + 1 && s1.client.packetIds == d + 1 == s1.ledger.next
      && topic in s1.client.outgoing && s1.client.outgoing[topic] == s.client.nextHandle
      && s1.client.byHandle == map[s.client.nextHandle := Transfer(d, s.client.nextHandle, false, first)]
      && h1.wire == [] && On(h1, topic, d)
  {
    TransferNumbers(s.client, first, topic, 1);
  }

  lemma SecondIsSent(s: System, h: History, topic: string, second: string)
    requires Lookup(s.client.outgoing, topic) != 0 && s.ledger.next == s.client.packetIds
    ensures var e := SendTransfer(second, topic, 1);
      var s1, h1, d := Next(s, e), Note(s, h, e), s.client.packetIds;
      && s1.client == s.client.(packetIds := d + 1)
      && h1.wire == h.wire + [d] && h1.topics == h.topics[d := topic]
  {
    TransferNumbers(s.client, second, topic, 1);
  }
}
