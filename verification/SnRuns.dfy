// What holds of every run of the MQTT-SN client.
module SnRuns {
  import opened Bits
  import opened Wrappers
  import opened SnProtocol
  import opened SnLedger
  import opened SnInvariant

  // The packets an acknowledgement crashes on: the client dereferences a null
  // entry, or the topic name a subscription by id never had.
  predicate Fatal(c: Client, e: Event) {
    match e
    case RxPubcomp(id) => id !in c.messages
    case RxUnsuback(id) => id !in c.messages
    case RxSuback(id, _, accepted) =>
      accepted && id in c.messages && c.messages[id].Subscribe? && c.messages[id].topic.Known?
    case _ => false
  }

  lemma StepKept(c: Client, l: Ledger, e: Event)
    requires Inv(c, l) && Answers(l, e)
    requires c.counter <= Step(c, e).client.counter < USHORT
    ensures Step(c, e).sent == None <==> Fatal(c, e)
    ensures Step(c, e).sent.Some? ==> Inv(Step(c, e).client, Observed(c, l, e))
  {
    match e
    case SendMessage(_, _, _) => SendMessageKept(c, l, e);
    case SendSubscribe(_, _) => RequestKept(c, l, e);
    case SendUnsubscribe(_) => RequestKept(c, l, e);
    case RxRegack(m, topicId, accepted) => RegackKept(c, l, m, topicId, accepted);
    case RxPuback(_) => PublishAckKept(c, l, e);
    case RxPubcomp(_) => PublishAckKept(c, l, e);
    case RxSuback(_, _, _) => SubackKept(c, l, e);
    case RxUnsuback(_) => UnsubackKept(c, l, e);
    case _ => OtherKept(c, l, e);
  }

  lemma CounterGrows(c: Client, e: Event)
    ensures c.counter <= Step(c, e).client.counter <= c.counter + 2
  {
  }

  // ----- All runs -----

  // The counter is an int, the ids on the wire and in the map are unsigned
  // short: the runs are those that do not use up the ids.
  ghost predicate Possible(s: System, events: seq<Event>) {
    Fair(s, events) && Run(s, events).client.counter < USHORT
  }

  lemma {:induction false} InvariantOfRuns(counter: nat, structs: nat, events: seq<Event>)
    requires Possible(Connected(counter, structs), events)
    ensures var s := Run(Connected(counter, structs), events); Inv(s.client, s.ledger)
  {
    var s0 := Connected(counter, structs);
    if events != [] {
      var before, e := Run(s0, events[..|events| - 1]), events[|events| - 1];
      CounterGrows(before.client, e);
      InvariantOfRuns(counter, structs, events[..|events| - 1]);
      if !before.crashed {
        StepKept(before.client, before.ledger, e);
      }
    }
  }

  // A publish handed to the API is in the message map under exactly one id
  // until it is released, and under none afterwards.
  lemma HeldUntilReleased(counter: nat, structs: nat, events: seq<Event>, ref: nat)
    requires Possible(Connected(counter, structs), events)
    ensures var s := Run(Connected(counter, structs), events);
      && (ref in s.ledger.issued && ref !in s.ledger.released <==> exists k :: Holds(s.client, ref, k))
      && forall j, k :: Holds(s.client, ref, j) && Holds(s.client, ref, k) ==> j == k
  {
    InvariantOfRuns(counter, structs, events);
  }

  lemma RequestKeepsPublish(c: Client, l: Ledger, e: Event, ref: nat, k: nat)
    requires e.SendMessage? || e.SendSubscribe? || e.SendUnsubscribe?
    requires Below(c, l) && Holds(c, ref, k) && Step(c, e).client.counter < USHORT
    ensures Holds(Step(c, e).client, ref, k) && Step(c, e).client.messages[k] == c.messages[k]
  {
  }

  // No request of the client overwrites a publish it still holds.
  lemma RequestsOverwriteNothing(counter: nat, structs: nat, events: seq<Event>, e: Event, ref: nat, k: nat)
    requires e.SendMessage? || e.SendSubscribe? || e.SendUnsubscribe?
    requires Possible(Connected(counter, structs), events + [e])
    requires Holds(Run(Connected(counter, structs), events).client, ref, k)
    ensures var c, c' := Run(Connected(counter, structs), events).client,
                         Run(Connected(counter, structs), events + [e]).client;
      Holds(c', ref, k) && c'.messages[k] == c.messages[k]
  {
    var s := Run(Connected(counter, structs), events);
    assert (events + [e])[..|events|] == events;
    CounterGrows(s.client, e);
    InvariantOfRuns(counter, structs, events);
    KeysBelow(s.client, s.ledger);
    if !s.crashed {
      RequestKeepsPublish(s.client, s.ledger, e, ref, k);
    }
  }

  // A run ends in a crash exactly with an acknowledgement for an entry that is
  // gone, or for a subscription by id.
  lemma CrashesExactlyWhenFatal(counter: nat, structs: nat, events: seq<Event>, e: Event)
    requires Possible(Connected(counter, structs), events + [e])
    requires !Run(Connected(counter, structs), events).crashed
    ensures Run(Connected(counter, structs), events + [e]).crashed
      <==> Fatal(Run(Connected(counter, structs), events).client, e)
  {
    var s := Run(Connected(counter, structs), events);
    assert (events + [e])[..|events|] == events;
    CounterGrows(s.client, e);
    InvariantOfRuns(counter, structs, events);
    StepKept(s.client, s.ledger, e);
  }

  lemma RunMore(s: System, events: seq<Event>, e: Event)
    ensures Run(s, events + [e]) == Next(Run(s, events), e)
    ensures Fair(s, events + [e]) <==> Fair(s, events) && Answers(Run(s, events).ledger, e)
  {
    assert (events + [e])[..|events|] == events;
  }

  // A run that goes on with a subscription numbered n and its acceptance.
  function ThenSubscribed(events: seq<Event>, topic: string, qos: nat, n: nat, id: nat): seq<Event> {
    events + [SendSubscribe(topic, qos)] + [RxSuback(n, id, true)]
  }

  // An accepted subscription by name stores the topic's id.
  lemma SubscriptionStores(s: System, events: seq<Event>, topic: string, qos: nat, id: nat)
    requires var s0 := Run(s, events); !s0.crashed && s0.client.counter + 1 < USHORT && RefTo(s0.client, topic).Named?
    requires Fair(s, events)
    ensures var n := Run(s, events).client.counter + 1;
      var after := ThenSubscribed(events, topic, qos, n, id);
      && Fair(s, after) && !Run(s, after).crashed
      && Run(s, after).client.counter == n
      && (id > 0 ==> RefTo(Run(s, after).client, topic) == Known(id))
  {
    var s0, n := Run(s, events), Run(s, events).client.counter + 1;
    RunMore(s, events, SendSubscribe(topic, qos));
    AfterSubscribe(s0, topic, qos);
    RunMore(s, events + [SendSubscribe(topic, qos)], RxSuback(n, id, true));
    AfterSuback(Next(s0, SendSubscribe(topic, qos)), n, Named(topic), qos, id);
  }

  // From then on subscribing to the topic is by its id, and crashes the client
  // when the gateway accepts.
  lemma SecondSubscriptionCrashes(s: System, events: seq<Event>, topic: string, qos: nat, id: nat)
    requires var s0 := Run(s, events); !s0.crashed && s0.client.counter + 1 < USHORT && RefTo(s0.client, topic).Known?
    requires Fair(s, events)
    ensures var n := Run(s, events).client.counter + 1;
      var after := ThenSubscribed(events, topic, qos, n, id);
      Fair(s, after) && Run(s, after).crashed
  {
    var s0, n := Run(s, events), Run(s, events).client.counter + 1;
    RunMore(s, events, SendSubscribe(topic, qos));
    AfterSubscribe(s0, topic, qos);
    RunMore(s, events + [SendSubscribe(topic, qos)], RxSuback(n, id, true));
    AfterSuback(Next(s0, SendSubscribe(topic, qos)), n, RefTo(s0.client, topic), qos, id);
  }

  lemma AfterSubscribe(s: System, topic: string, qos: nat)
    requires !s.crashed && s.client.counter + 1 < USHORT
    ensures var s', n := Next(s, SendSubscribe(topic, qos)), s.client.counter + 1;
      var p := Subscribe(n, RefTo(s.client, topic), qos);
      && !s'.crashed && s'.client == AddMessage(s.client.(counter := n), p) && p in s'.ledger.sent
  {
    var p := Subscribe(s.client.counter + 1, RefTo(s.client, topic), qos);
    assert p in [p];
  }

  lemma AfterSuback(s: System, n: nat, topic: TopicRef, qos: nat, id: nat)
    requires !s.crashed && n in s.client.messages && s.client.messages[n] == Subscribe(n, topic, qos)
    requires s.client.messages[n] in s.ledger.sent
    ensures Answers(s.ledger, RxSuback(n, id, true))
    ensures var s' := Next(s, RxSuback(n, id, true));
      && s'.crashed == topic.Known?
      && (topic.Named? ==> s'.client == RemoveMessage(AddTopic(s.client, topic.name, id), n))
  {
  }

  // The PUBCOMP of a publish crashes the client exactly if the publish is done.
  lemma PubcompFatalExactly(counter: nat, structs: nat, events: seq<Event>, p: Packet)
    requires Possible(Connected(counter, structs), events)
    requires p in Run(Connected(counter, structs), events).ledger.sent && p.Publish?
    ensures var s := Run(Connected(counter, structs), events);
      Fatal(s.client, RxPubcomp(p.messageId)) <==> p.ref in s.ledger.released
  {
    var s := Run(Connected(counter, structs), events);
    InvariantOfRuns(counter, structs, events);
    GoneExactlyWhenReleased(s.client, s.ledger, p);
  }

  lemma GoneExactlyWhenReleased(c: Client, l: Ledger, p: Packet)
    requires Inv(c, l) && p in l.sent && p.Publish?
    ensures p.messageId !in c.messages <==> p.ref in l.released
  {
    if p.messageId in c.messages {
      var q := c.messages[p.messageId];
      assert KeyedAt(c, l, p.messageId) && Exists(c, l, q) && Exists(c, l, p);
    }
  }

  // A run that goes on with a publish numbered n and two PUBCOMPs, and one that
  // goes on with an unsubscription numbered n and two UNSUBACKs.
  function ThenPublished(events: seq<Event>, content: Content, topic: string, qos: nat, n: nat): seq<Event> {
    events + [SendMessage(content, topic, qos)] + [RxPubcomp(n)] + [RxPubcomp(n)]
  }

  function ThenUnsubscribed(events: seq<Event>, topic: string, n: nat): seq<Event> {
    events + [SendUnsubscribe(topic)] + [RxUnsuback(n)] + [RxUnsuback(n)]
  }

  // A second PUBCOMP crashes the client, after any run in which the topic has got
  // an id.
  lemma SecondPubcompCrashes(s: System, events: seq<Event>, content: Content, topic: string, qos: nat)
    requires var s0 := Run(s, events);
      !s0.crashed && s0.client.counter + 2 < USHORT && RefTo(s0.client, topic).Known? && qos != NO_QOS
    requires Fair(s, events)
    ensures var after := ThenPublished(events, content, topic, qos, Run(s, events).client.counter + 2);
      Fair(s, after) && Run(s, after).crashed
  {
    hide Step;
    hide Next;
    hide Run;
    var s0, e, n := Run(s, events), SendMessage(content, topic, qos), Run(s, events).client.counter + 2;
    AfterPublish(s0, content, topic, qos);
    RunMore(s, events, e);
    TwiceAnswered(Next(s0, e), RxPubcomp(n));
    RunMore(s, events + [e], RxPubcomp(n));
    RunMore(s, events + [e] + [RxPubcomp(n)], RxPubcomp(n));
  }

  lemma AfterPublish(s: System, content: Content, topic: string, qos: nat)
    requires !s.crashed && s.client.counter + 2 < USHORT && RefTo(s.client, topic).Known? && qos != NO_QOS
    ensures var s', n := Next(s, SendMessage(content, topic, qos)), s.client.counter + 2;
      && !s'.crashed && SentPublish(s'.ledger, n) && n in s'.client.messages
      && s'.client.messages[n].Publish? && s'.client.messages[n].messageId == n
  {
    var p := PublishNow(s.client.(counter := s.client.counter + 1), Publish(
      s.client.structs, Id(s.client.counter + 1), TopicId(s.client, topic), topic, qos, content)).sent.value[0];
    assert p in Next(s, SendMessage(content, topic, qos)).ledger.sent;
  }

  // An answer that takes its entry away crashes the client when it comes again.
  lemma TwiceAnswered(s: System, e: Event)
    requires !s.crashed && Answers(s.ledger, e)
    requires e.RxPubcomp? || e.RxUnsuback?
    requires var id, m := e.messageId, s.client.messages;
      && id in m
      && (e.RxPubcomp? ==> m[id].Publish? && m[id].messageId == id)
      && (e.RxUnsuback? ==> m[id].Unsubscribe? && m[id].messageId == id)
    ensures !Next(s, e).crashed && Answers(Next(s, e).ledger, e) && Next(Next(s, e), e).crashed
  {
    assert s.ledger.sent <= Next(s, e).ledger.sent;
  }

  // So does a second UNSUBACK, after any run.
  lemma SecondUnsubackCrashes(s: System, events: seq<Event>, topic: string)
    requires var s0 := Run(s, events); !s0.crashed && s0.client.counter + 1 < USHORT
    requires Fair(s, events)
    ensures var after := ThenUnsubscribed(events, topic, Run(s, events).client.counter + 1);
      Fair(s, after) && Run(s, after).crashed
  {
    hide Step;
    hide Next;
    hide Run;
    var s0, e, n := Run(s, events), SendUnsubscribe(topic), Run(s, events).client.counter + 1;
    AfterUnsubscribe(s0, topic);
    RunMore(s, events, e);
    TwiceAnswered(Next(s0, e), RxUnsuback(n));
    RunMore(s, events + [e], RxUnsuback(n));
    RunMore(s, events + [e] + [RxUnsuback(n)], RxUnsuback(n));
  }

  lemma AfterUnsubscribe(s: System, topic: string)
    requires !s.crashed && s.client.counter + 1 < USHORT
    ensures var s', n := Next(s, SendUnsubscribe(topic)), s.client.counter + 1;
      var p := Unsubscribe(n, RefTo(s.client, topic));
      !s'.crashed && p in s'.ledger.sent && n in s'.client.messages && s'.client.messages[n] == p
  {
    var p := Unsubscribe(s.client.counter + 1, RefTo(s.client, topic));
    assert p in [p];
  }

  // The REGACK of a REGISTER finds, under the number before it, the publish
  // that REGISTER was sent for; a second REGACK finds nothing.
  lemma RegackPairing(counter: nat, structs: nat, events: seq<Event>, m: nat)
    requires Possible(Connected(counter, structs), events)
    requires exists p :: p in Run(Connected(counter, structs), events).ledger.sent && p.Register? && p.msgId == m
    ensures var s := Run(Connected(counter, structs), events);
      && (m - 1 in s.client.messages <==> m in s.ledger.open)
      && (m in s.ledger.open ==>
        && Holds(s.client, s.ledger.open[m], m - 1)
        && Register(m, s.client.messages[m - 1].topicName) in s.ledger.sent)
  {
    var s := Run(Connected(counter, structs), events);
    InvariantOfRuns(counter, structs, events);
    RegackFindsItsPublish(s.client, s.ledger, m);
  }

  // ----- Topic ids of publishes -----

  predicate ZeroPublish(p: Packet) {
    p.Publish? && p.topicId == 0
  }

  lemma OnlyRegackSendsZero(c: Client, e: Event)
    requires !e.RxRegack? && Step(c, e).sent.Some?
    ensures forall p :: p in Step(c, e).sent.value ==> !ZeroPublish(p)
  {
  }

  // A step sends a publish with topic id 0 exactly when the gateway accepts an
  // open registration with that id.
  lemma ZeroTopicExactly(c: Client, l: Ledger, m: nat, topicId: nat, accepted: bool)
    requires Inv(c, l) && Answers(l, RxRegack(m, topicId, accepted)) && c.counter < USHORT
    requires Step(c, RxRegack(m, topicId, accepted)).client.counter < USHORT
    ensures var r := Step(c, RxRegack(m, topicId, accepted));
      r.sent.Some? && ((exists p :: p in r.sent.value && ZeroPublish(p)) <==> accepted && topicId == 0 && m in l.open)
  {
    RegackFindsItsPublish(c, l, m);
    if m !in l.open {
      RegackIgnored(c, l, m, topicId, accepted);
    } else if accepted {
      RegackCounts(c, l.open[m], m, topicId);
      RegackMoves(c, l, m, topicId);
      var sent := Step(c, RxRegack(m, topicId, accepted)).sent.value;
      assert sent == [sent[0]] && sent[0] in sent;
    } else {
      RegackRefuses(c, l, m, topicId);
    }
  }

  lemma {:induction false} NoZeroTopicInRuns(counter: nat, structs: nat, events: seq<Event>)
    requires Possible(Connected(counter, structs), events)
    requires forall e :: e in events && e.RxRegack? && e.accepted ==> e.topicId != 0
    ensures forall p :: p in Run(Connected(counter, structs), events).ledger.sent ==> !ZeroPublish(p)
  {
    if events != [] {
      var front, e := events[..|events| - 1], events[|events| - 1];
      var before := Run(Connected(counter, structs), front);
      CounterGrows(before.client, e);
      NoZeroTopicInRuns(counter, structs, front);
      InvariantOfRuns(counter, structs, front);
      if !before.crashed && Step(before.client, e).sent.Some? {
        match e
        case RxRegack(m, topicId, accepted) =>
          ZeroTopicExactly(before.client, before.ledger, m, topicId, accepted);
        case _ => OnlyRegackSendsZero(before.client, e);
      }
    }
  }
}
