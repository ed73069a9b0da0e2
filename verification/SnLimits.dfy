// What becomes of the MQTT-SN client when its numbers start again.
module SnLimits {
  import opened Bits
  import opened SnProtocol
  import opened SnLedger
  import opened SnRuns

  // The keys of the message map a request writes.
  function Written(c: Client, e: Event): set<nat>
    requires e.SendMessage? || e.SendSubscribe? || e.SendUnsubscribe?
  {
    if !e.SendMessage? then {Id(c.counter + 1)}
    else if TopicId(c, e.topic) == 0 then {Id(c.counter + 1), 0}
    else if e.qos == NO_QOS then {}
    else {Id(c.counter + 2)}
  }

  // In any state, a request keeps a publish exactly if it does not write its
  // key.
  lemma RequestKeepsExactly(c: Client, e: Event, ref: nat, k: nat)
    requires e.SendMessage? || e.SendSubscribe? || e.SendUnsubscribe?
    requires Holds(c, ref, k) && ref < c.structs
    ensures Holds(Step(c, e).client, ref, k) <==> k !in Written(c, e)
  {
  }

  // ----- A run -----

  // A publish handed over, and n subscriptions after it.
  function Busy(message: Event, subscription: Event, n: nat): seq<Event> {
    if n == 0 then [] + [message] else Busy(message, subscription, n - 1) + [subscription]
  }

  lemma AfterMessage(counter: nat, structs: nat, content: Content, topic: string, qos: nat)
    ensures var s := Next(Connected(counter, structs), SendMessage(content, topic, qos));
      && !s.crashed && s.client.counter == counter + 2 && s.client.structs == structs + 1
      && (Holds(s.client, structs, Id(counter + 1)) <==> Id(counter + 1) != 0)
  {
  }

  lemma AfterSubscription(s: System, topic: string, qos: nat, ref: nat, k: nat)
    requires !s.crashed && ref < s.client.structs
    ensures var s' := Next(s, SendSubscribe(topic, qos));
      && !s'.crashed && s'.client.counter == s.client.counter + 1 && s'.client.structs == s.client.structs
      && (Holds(s'.client, ref, k) <==> Holds(s.client, ref, k) && k != Id(s.client.counter + 1))
  {
  }

  // The publish after n subscriptions: it is lost exactly with the 65535th, or at
  // once if its number is 0.
  predicate Stage(s: System, counter: nat, structs: nat, n: nat) {
    && !s.crashed && s.client.counter == counter + 2 + n && s.client.structs == structs + 1
    && (Holds(s.client, structs, Id(counter + 1)) <==> n < USHORT - 1 && Id(counter + 1) != 0)
  }

  lemma NextStage(s: System, topic: string, qos: nat, counter: nat, structs: nat, n: nat)
    requires Stage(s, counter, structs, n)
    ensures Stage(Next(s, SendSubscribe(topic, qos)), counter, structs, n + 1)
  {
    AfterSubscription(s, topic, qos, structs, Id(counter + 1));
    SameId(counter, n + 1, Id(counter + 2 + n + 1));
  }

  lemma SameId(counter: nat, n: nat, id: nat)
    requires id == Id(counter + 2 + n)
    ensures n < USHORT ==> (id == Id(counter + 1) <==> n == USHORT - 1)
  {
  }

  // A publish that waits for its registration, and n subscriptions after it.
  lemma {:induction false} LostExactly(counter: nat, structs: nat, content: Content, topic: string, qos: nat,
                                       other: string, n: nat)
    ensures var s0 := Connected(counter, structs);
      var events := Busy(SendMessage(content, topic, qos), SendSubscribe(other, qos), n);
      Fair(s0, events) && Stage(Run(s0, events), counter, structs, n)
    decreases n
  {
    var s0, message, subscription := Connected(counter, structs), SendMessage(content, topic, qos),
                                     SendSubscribe(other, qos);
    if n == 0 {
      RunMore(s0, [], message);
      AfterMessage(counter, structs, content, topic, qos);
    } else {
      var front := Busy(message, subscription, n - 1);
      LostExactly(counter, structs, content, topic, qos, other, n - 1);
      RunMore(s0, front, subscription);
      NextStage(Run(s0, front), other, qos, counter, structs, n - 1);
    }
  }
}
