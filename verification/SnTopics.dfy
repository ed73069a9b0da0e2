// The two topic maps of the MQTT-SN client, topic_name_map and
// reverse_topic_name_map, over all runs.
module SnTopics {
  import opened Bits
  import opened Wrappers
  import opened SnProtocol
  import opened SnLedger
  import opened SnInvariant
  import opened SnRuns

  ghost predicate Inverse(c: Client) {
    && (forall n :: n in c.topicIds ==> c.topicIds[n] in c.topicNames && c.topicNames[c.topicIds[n]] == n)
    && forall i :: i in c.topicNames ==> c.topicNames[i] in c.topicIds && c.topicIds[c.topicNames[i]] == i
  }

  // Storing a pair keeps the maps inverse to each other exactly when the pair
  // is there already or both its sides are new.
  lemma AddTopicKeepsInverse(c: Client, name: string, id: nat)
    requires Inverse(c)
    ensures Inverse(AddTopic(c, name, id)) <==>
      if name in c.topicIds then c.topicIds[name] == id else id !in c.topicNames
  {
    var c' := AddTopic(c, name, id);
    if name in c.topicIds && c.topicIds[name] != id {
      assert c.topicIds[name] in c'.topicNames;
    }
    if name !in c.topicIds && id in c.topicNames {
      assert c.topicNames[id] in c'.topicIds;
    }
  }

  // The gateway hands out the ids of one assignment of ids to names.
  predicate Conforms(assignment: map<string, nat>, l: Ledger, e: Event) {
    match e
    case RxRegister(_, topicId, name) => Assigned(assignment, name, topicId)
    case RxRegack(m, topicId, accepted) =>
      accepted ==> forall p :: p in l.sent && p.Register? && p.msgId == m ==> Assigned(assignment, p.topicName, topicId)
    case RxSuback(id, topicId, accepted) =>
      accepted ==> forall p :: p in l.sent && p.Subscribe? && p.messageId == id && p.topic.Named? ==>
        Assigned(assignment, p.topic.name, topicId)
    case _ => true
  }

  predicate Assigned(assignment: map<string, nat>, name: string, id: nat) {
    name in assignment && assignment[name] == id
  }

  predicate Injective(assignment: map<string, nat>) {
    forall m, n :: m in assignment && n in assignment && assignment[m] == assignment[n] ==> m == n
  }

  predicate AllConform(assignment: map<string, nat>, s: System, events: seq<Event>) {
    events != [] ==>
      && AllConform(assignment, s, events[..|events| - 1])
      && Conforms(assignment, Run(s, events[..|events| - 1]).ledger, events[|events| - 1])
  }

  ghost predicate Within(assignment: map<string, nat>, c: Client) {
    forall n :: n in c.topicIds ==> Assigned(assignment, n, c.topicIds[n])
  }

  lemma RegackAdds(c: Client, ref: nat, m: nat, topicId: nat, accepted: bool)
    requires 1 < m < USHORT && Holds(c, ref, m - 1)
    ensures var c', name := Step(c, RxRegack(m, topicId, accepted)).client, c.messages[m - 1].topicName;
      && c'.topicIds == (if accepted then c.topicIds[name := topicId] else c.topicIds)
      && c'.topicNames == (if accepted then c.topicNames[topicId := name] else c.topicNames)
  {
  }

  // What a step does to the topic maps: nothing, or one pair of the assignment.
  lemma StepAddsAssigned(assignment: map<string, nat>, c: Client, l: Ledger, e: Event)
    returns (pair: Option<(string, nat)>)
    requires Inv(c, l) && Answers(l, e) && Conforms(assignment, l, e) && c.counter < USHORT
    ensures var c' := Step(c, e).client;
      match pair
      case None => c'.topicIds == c.topicIds && c'.topicNames == c.topicNames
      case Some((name, id)) =>
        && Assigned(assignment, name, id)
        && c'.topicIds == c.topicIds[name := id] && c'.topicNames == c.topicNames[id := name]
  {
    pair := None;
    match e
    case RxRegister(_, topicId, name) => pair := Some((name, topicId));
    case RxRegack(m, topicId, accepted) =>
      RegackFindsItsPublish(c, l, m);
      if m in l.open {
        RegackAdds(c, l.open[m], m, topicId, accepted);
        if accepted {
          pair := Some((c.messages[m - 1].topicName, topicId));
        }
      } else {
        RegackIgnored(c, l, m, topicId, accepted);
      }
    case RxSuback(id, topicId, accepted) =>
      if id in c.messages && accepted && c.messages[id].Subscribe? && c.messages[id].topic.Named? {
        assert KeyedAt(c, l, id);
        pair := Some((c.messages[id].topic.name, topicId));
      }
    case _ =>
  }

  lemma StepKeepsInverse(assignment: map<string, nat>, c: Client, l: Ledger, e: Event)
    requires Inv(c, l) && Answers(l, e) && Conforms(assignment, l, e) && c.counter < USHORT
    requires Injective(assignment) && Inverse(c) && Within(assignment, c)
    ensures Inverse(Step(c, e).client) && Within(assignment, Step(c, e).client)
  {
    var pair := StepAddsAssigned(assignment, c, l, e);
    if pair.Some? {
      var (name, id) := pair.value;
      assert forall n :: n in c.topicIds ==> Assigned(assignment, n, c.topicIds[n]);
      assert forall i :: i in c.topicNames ==> Assigned(assignment, c.topicNames[i], i);
      AddTopicKeepsInverse(c, name, id);
    }
  }

  // With an injective assignment the two maps are inverse to each other after
  // every run.
  lemma {:induction false} MapsStayInverse(assignment: map<string, nat>, counter: nat, structs: nat, events: seq<Event>)
    requires Injective(assignment)
    requires Possible(Connected(counter, structs), events)
    requires AllConform(assignment, Connected(counter, structs), events)
    ensures var c := Run(Connected(counter, structs), events).client;
      Inverse(c) && Within(assignment, c)
  {
    if events != [] {
      var front, e := events[..|events| - 1], events[|events| - 1];
      var before := Run(Connected(counter, structs), front);
      CounterGrows(before.client, e);
      MapsStayInverse(assignment, counter, structs, front);
      InvariantOfRuns(counter, structs, front);
      if !before.crashed {
        StepKeepsInverse(assignment, before.client, before.ledger, e);
      }
    }
  }
}
