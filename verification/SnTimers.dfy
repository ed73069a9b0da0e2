// The three hash tables of src/mqttsn/mqtt_sn_timers.c and the operations on
// them.
module SnTimers {
  import opened Bits
  import opened HashMap
  import opened SnProtocol
  import opened TimerMaps
  import opened Wrappers

  // The number a packet is stored under is an unsigned short.
  predicate InRange(p: Packet) {
    MapKey(p) < USHORT
  }

  // The switch of sn_add_message_in_map.
  method PacketId(p: Packet) returns (packet_id: nat)
    ensures packet_id == MapKey(p)
  {
    packet_id := 0;
    match p {
      case Publish(_, messageId, _, _, _, _) => packet_id := messageId;
      case Subscribe(messageId, _, _) => packet_id := messageId;
      case Unsubscribe(messageId, _) => packet_id := messageId;
      case _ =>
    }
  }

  ghost predicate Separate<U, V, W>(a: Table<U>, b: Table<V>, c: Table<W>)
    reads a, a.Repr, b, b.Repr, c, c.Repr
    ensures Separate(a, b, c) ==> a in a.Repr && b in b.Repr && c in c.Repr
  {
    && a.Valid() && b.Valid() && c.Valid()
    && a.Repr !! b.Repr && a.Repr !! c.Repr && b.Repr !! c.Repr
  }

  method NewTables() returns (messages: Table<Packet>, ids: Table<nat>, names: Table<string>)
    ensures fresh(messages.Repr) && fresh(ids.Repr) && fresh(names.Repr)
    ensures Separate(messages, ids, names)
    ensures messages.contents == map[] && ids.contents == map[] && names.contents == map[]
  {
    messages := new Table<Packet>();
    ids := new Table<nat>();
    names := new Table<string>();
  }

  lemma Rotated<U, V, W>(a: Table<U>, b: Table<V>, c: Table<W>)
    requires Separate(a, b, c)
    ensures Separate(b, c, a)
  {
  }

  // Storing and removing beside two other tables.
  method AddApart<U, V, W>(m: Table<U>, n: Table<V>, o: Table<W>, id: nat, value: U)
    requires Separate(m, n, o) && id < USHORT
    modifies m.Repr
    ensures Separate(m, n, o) && fresh(m.Repr - old(m.Repr)) && n.Repr == old(n.Repr) && o.Repr == old(o.Repr)
    ensures ById(m.contents) == old(ById(m.contents))[id := value]
    ensures n.contents == old(n.contents) && o.contents == old(o.contents)
  {
    AddById(m, id, value);
  }

  method SetApart<U, V, W>(m: Table<U>, n: Table<V>, o: Table<W>, key: string, value: U)
    requires Separate(m, n, o)
    modifies m.Repr
    ensures Separate(m, n, o) && fresh(m.Repr - old(m.Repr)) && n.Repr == old(n.Repr) && o.Repr == old(o.Repr)
    ensures m.contents == old(m.contents)[key := value]
    ensures n.contents == old(n.contents) && o.contents == old(o.contents)
  {
    var rc := m.Set(key, value, true, true);
  }

  method RemoveApart<U, V, W>(m: Table<U>, n: Table<V>, o: Table<W>, id: nat)
    requires Separate(m, n, o) && id < USHORT
    modifies m.Repr
    ensures Separate(m, n, o) && m.Repr == old(m.Repr) && n.Repr == old(n.Repr) && o.Repr == old(o.Repr)
    ensures ById(m.contents) == old(ById(m.contents)) - {id}
    ensures n.contents == old(n.contents) && o.contents == old(o.contents)
  {
    RemoveById(m, id);
  }

  class Timers {
    const messages_map: Table<Packet>
    const topic_name_map: Table<nat>
    const reverse_topic_name_map: Table<string>

    // The finite maps of the state machine that the tables stand for.
    ghost var messages: map<nat, Packet>
    ghost var topicIds: map<string, nat>
    ghost var topicNames: map<nat, string>
    ghost var Repr: set<object>

    ghost predicate Valid()
      reads this, Repr
      ensures Valid() ==> this in Repr
    {
      && this in Repr && messages_map in Repr && topic_name_map in Repr && reverse_topic_name_map in Repr
      && Repr == {this} + messages_map.Repr + topic_name_map.Repr + reverse_topic_name_map.Repr
      && this !in messages_map.Repr + topic_name_map.Repr + reverse_topic_name_map.Repr
      && Separate(messages_map, topic_name_map, reverse_topic_name_map)
      && messages == ById(messages_map.contents) && topicIds == topic_name_map.contents
      && topicNames == ById(reverse_topic_name_map.contents)
    }

    // map_init of the three maps
    constructor ()
      ensures Valid() && fresh(Repr)
      ensures messages == map[] && topicIds == map[] && topicNames == map[]
    {
      hide Separate;
      var m, i, n := NewTables();
      messages_map, topic_name_map, reverse_topic_name_map := m, i, n;
      messages, topicIds, topicNames := map[], map[], map[];
      new;
      Repr := {this} + m.Repr + i.Repr + n.Repr;
      ByIdEmpty<Packet>();
      ByIdEmpty<string>();
    }

    // sn_add_message_in_map
    method AddMessage(p: Packet)
      requires Valid() && InRange(p)
      modifies Repr
      ensures Valid() && fresh(Repr - old(Repr))
      ensures messages == old(messages)[MapKey(p) := p]
      ensures topicIds == old(topicIds) && topicNames == old(topicNames)
    {
      hide Separate;
      var packet_id := PacketId(p);
      AddApart(messages_map, topic_name_map, reverse_topic_name_map, packet_id, p);
      messages := messages[packet_id := p];
      Repr := {this} + messages_map.Repr + topic_name_map.Repr + reverse_topic_name_map.Repr;
    }

    // sn_get_message_from_map
    method GetMessage(packet_id: nat) returns (r: Option<Packet>)
      requires Valid() && packet_id < USHORT
      ensures r == if packet_id in messages then Some(messages[packet_id]) else None
    {
      r := GetById(messages_map, packet_id);
    }

    // sn_remove_message_from_map
    method RemoveMessage(packet_id: nat)
      requires Valid() && packet_id < USHORT
      modifies Repr
      ensures Valid() && Repr == old(Repr)
      ensures messages == old(messages) - {packet_id}
      ensures topicIds == old(topicIds) && topicNames == old(topicNames)
    {
      hide Separate;
      RemoveApart(messages_map, topic_name_map, reverse_topic_name_map, packet_id);
      messages := messages - {packet_id};
    }

    // sn_add_topic_id_in_map
    method AddTopicId(topic_name: string, topic_id: nat)
      requires Valid()
      modifies Repr
      ensures Valid() && fresh(Repr - old(Repr))
      ensures topicIds == old(topicIds)[topic_name := topic_id]
      ensures messages == old(messages) && topicNames == old(topicNames)
    {
      hide Separate;
      Rotated(messages_map, topic_name_map, reverse_topic_name_map);
      SetApart(topic_name_map, reverse_topic_name_map, messages_map, topic_name, topic_id);
      Rotated(topic_name_map, reverse_topic_name_map, messages_map);
      Rotated(reverse_topic_name_map, messages_map, topic_name_map);
      topicIds := topicIds[topic_name := topic_id];
      Repr := {this} + messages_map.Repr + topic_name_map.Repr + reverse_topic_name_map.Repr;
    }

    // sn_add_topic_name_in_map
    method AddTopicName(topic_id: nat, topic_name: string)
      requires Valid() && topic_id < USHORT
      modifies Repr
      ensures Valid() && fresh(Repr - old(Repr))
      ensures topicNames == old(topicNames)[topic_id := topic_name]
      ensures messages == old(messages) && topicIds == old(topicIds)
    {
      hide Separate;
      Rotated(messages_map, topic_name_map, reverse_topic_name_map);
      Rotated(topic_name_map, reverse_topic_name_map, messages_map);
      AddApart(reverse_topic_name_map, messages_map, topic_name_map, topic_id, topic_name);
      Rotated(reverse_topic_name_map, messages_map, topic_name_map);
      topicNames := topicNames[topic_id := topic_name];
      Repr := {this} + messages_map.Repr + topic_name_map.Repr + reverse_topic_name_map.Repr;
    }

    // sn_get_topic_id_from_map: 0 where the name is not there.
    method GetTopicId(topic_name: string) returns (topic_id: nat)
      requires Valid()
      ensures topic_id == if topic_name in topicIds then topicIds[topic_name] else 0
    {
      var r := ScanLookup(topic_name_map, topic_name);
      topic_id := if r.Some? then r.value else 0;
    }
  }
}
