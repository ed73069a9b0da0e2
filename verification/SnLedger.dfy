// Whole runs of the MQTT-SN client against a gateway that answers only what it
// received. The ledger is what an observer of the API calls and of the network
// writes down; it never looks into the client's tables.
module SnLedger {
  import opened Wrappers
  import opened SnProtocol

  datatype Ledger = Ledger(
    sent: set<Packet>,
    issued: map<nat, nat>,   // the publishes handed to the API, with their QoS
    open: map<nat, nat>,     // REGISTER ids without REGACK, with the publish behind them
    released: set<nat>       // the publishes that are done
  )

  datatype System = System(client: Client, ledger: Ledger, crashed: bool)

  predicate SentPublish(l: Ledger, id: nat) {
    exists p :: p in l.sent && p.Publish? && p.messageId == id
  }

  // The publishes an acknowledgement of this id is about.
  function Acknowledged(l: Ledger, id: nat): set<nat> {
    set p | p in l.sent && p.Publish? && p.messageId == id :: p.ref
  }

  function Observe(l: Ledger, ref: nat, e: Event, sent: seq<Packet>): Ledger {
    var l1 := l.(sent := l.sent + set p | p in sent);
    match e
    case SendMessage(_, _, qos) =>
      var l2 := l1.(issued := l1.issued[ref := qos]);
      if |sent| == 1 && sent[0].Register? then l2.(open := l2.open[sent[0].msgId := ref])
      else if qos == NO_QOS then l2.(released := l2.released + {ref})
      else l2
    case RxRegack(messageId, _, accepted) =>
      if messageId !in l.open then l1
      else
        var r := l.open[messageId];
        var l2 := l1.(open := l1.open - {messageId});
        if !accepted || (r in l.issued && l.issued[r] == NO_QOS) then l2.(released := l2.released + {r}) else l2
    case RxPuback(messageId) => l1.(released := l1.released + Acknowledged(l, messageId))
    case RxPubcomp(messageId) => l1.(released := l1.released + Acknowledged(l, messageId))
    case _ => l1
  }

  function Next(s: System, e: Event): System {
    var r := Step(s.client, e);
    if s.crashed then s
    else if r.sent == None then s.(crashed := true)
    else System(r.client, Observe(s.ledger, s.client.structs, e, r.sent.value), false)
  }

  // The gateway answers only what it received.
  predicate Answers(l: Ledger, e: Event) {
    match e
    case RxRegack(messageId, _, _) => exists p :: p in l.sent && p.Register? && p.msgId == messageId
    case RxPuback(messageId) => SentPublish(l, messageId)
    case RxPubcomp(messageId) => SentPublish(l, messageId)
    case RxSuback(messageId, _, _) => exists p :: p in l.sent && p.Subscribe? && p.messageId == messageId
    case RxUnsuback(messageId) => exists p :: p in l.sent && p.Unsubscribe? && p.messageId == messageId
    case _ => true
  }

  function Run(s: System, events: seq<Event>): System {
    if events == [] then s else Next(Run(s, events[..|events| - 1]), events[|events| - 1])
  }

  predicate Fair(s: System, events: seq<Event>) {
    events != [] ==>
      Fair(s, events[..|events| - 1]) && Answers(Run(s, events[..|events| - 1]).ledger, events[|events| - 1])
  }

  // CONNACK has reset the maps; the counters keep their values.
  function Connected(counter: nat, structs: nat): System {
    System(Client(counter, structs, map[], map[], map[]), Ledger({}, map[], map[], {}), false)
  }

  // ----- The invariant -----

  predicate Numbered(p: Packet) {
    p.Publish? || p.Register? || p.Subscribe? || p.Unsubscribe?
  }

  function NumberOf(p: Packet): nat
    requires Numbered(p)
  {
    match p
    case Publish(_, messageId, _, _, _, _) => messageId
    case Register(msgId, _) => msgId
    case Subscribe(messageId, _, _) => messageId
    case Unsubscribe(messageId, _) => messageId
  }

  predicate Exists(c: Client, l: Ledger, p: Packet) {
    Numbered(p) && (p in l.sent || (MapKey(p) in c.messages && c.messages[MapKey(p)] == p))
  }

  // Every number was given to one packet only.
  ghost predicate NumbersUnique(c: Client, l: Ledger) {
    && (forall p :: Exists(c, l, p) ==> 0 < NumberOf(p) <= c.counter)
    && forall p, q :: Exists(c, l, p) && Exists(c, l, q) && NumberOf(p) == NumberOf(q) ==> p == q
  }

  predicate Waiting(l: Ledger, p: Packet) {
    && p.Publish? && p.topicId == 0
    && p.messageId + 1 in l.open && l.open[p.messageId + 1] == p.ref
  }

  predicate Holds(c: Client, ref: nat, k: nat) {
    k in c.messages && c.messages[k].Publish? && c.messages[k].ref == ref
  }

  predicate KeyedAt(c: Client, l: Ledger, k: nat)
    requires k in c.messages
  {
    var p := c.messages[k];
    && Numbered(p) && MapKey(p) == k
    && (p.Publish? ==> if p in l.sent then p.ref !in l.open.Values else Waiting(l, p))
    && (!p.Publish? ==> p in l.sent)
  }

  // The map is keyed by the numbers of its packets, except for the last
  // REGISTER, which is under 0.
  ghost predicate Keyed(c: Client, l: Ledger) {
    forall k :: k in c.messages ==> KeyedAt(c, l, k)
  }

  predicate PairedAt(c: Client, l: Ledger, m: nat)
    requires m in l.open
  {
    m > 1 && Holds(c, l.open[m], m - 1) && Register(m, c.messages[m - 1].topicName) in l.sent
  }

  // An open registration belongs to the publish numbered just before it.
  ghost predicate Paired(c: Client, l: Ledger) {
    forall m :: m in l.open ==> PairedAt(c, l, m)
  }

  // A publish in the map was issued and not released, and is there once.
  ghost predicate Owed(c: Client, l: Ledger) {
    && (forall r :: r in l.issued ==> r < c.structs)
    && l.released <= l.issued.Keys
    && (forall k, r :: Holds(c, r, k) ==>
      r in l.issued && r !in l.released && c.messages[k].qos == l.issued[r])
    && forall j, k, r :: Holds(c, r, j) && Holds(c, r, k) ==> j == k
  }

  // A publish issued and not released is in the map, under the number it was
  // sent with if it was sent.
  ghost predicate Kept(c: Client, l: Ledger) {
    && (forall r :: r in l.issued && r !in l.released ==> exists k :: Holds(c, r, k))
    && forall p :: p in l.sent && p.Publish? ==>
      p.ref in l.issued && (p.ref in l.released || Holds(c, p.ref, p.messageId))
  }

  // The publish of an answered registration has left its old number.
  ghost predicate Settled(c: Client, l: Ledger) {
    forall p :: p in l.sent && p.Register? && p.msgId !in l.open ==> p.msgId > 1 && p.msgId - 1 !in c.messages
  }

  ghost predicate Inv(c: Client, l: Ledger) {
    NumbersUnique(c, l) && Keyed(c, l) && Paired(c, l) && Settled(c, l) && Owed(c, l) && Kept(c, l)
  }
}
