// The five hash tables of src/amqp/amqp_timers.c and the operations on them.
module AmqpTimers {
  import opened AmqpProtocol
  import opened Bits
  import opened HashMap
  import opened TimerMaps
  import opened Wrappers

  method NewMessageTables() returns (handlers: Table<Transfer>, deliveries: Table<Transfer>)
    ensures fresh(handlers.Repr) && fresh(deliveries.Repr) && handlers.Repr !! deliveries.Repr
    ensures handlers.Valid() && deliveries.Valid() && handlers.contents == map[] && deliveries.contents == map[]
  {
    hide Table.Valid;
    handlers := new Table<Transfer>();
    deliveries := new Table<Transfer>();
  }

  method NewTopicTables() returns (ins: Table<nat>, outs: Table<nat>, reverse: Table<string>)
    ensures fresh(ins.Repr) && fresh(outs.Repr) && fresh(reverse.Repr) && ins.Repr !! outs.Repr !! reverse.Repr
    ensures ins.Valid() && outs.Valid() && reverse.Valid()
    ensures ins.contents == map[] && outs.contents == map[] && reverse.contents == map[]
  {
    hide Table.Valid;
    ins := new Table<nat>();
    outs := new Table<nat>();
    reverse := new Table<string>();
  }

  class Timers {
    const m_handler: Table<Transfer>
    const m_delivery_id: Table<Transfer>
    const topic_name_map: Table<nat>
    const topic_name_map_outgoing: Table<nat>
    const reverse_topic_name_map: Table<string>

    // The finite maps of the state machine that the tables stand for.
    ghost var byHandle: map<nat, Transfer>
    ghost var byDelivery: map<nat, Transfer>
    ghost var incoming: map<string, nat>
    ghost var outgoing: map<string, nat>
    ghost var names: map<nat, string>
    ghost var Repr: set<object>

    ghost function Whole(): set<object>
      reads this, m_handler, m_delivery_id, topic_name_map, topic_name_map_outgoing, reverse_topic_name_map
    {
      {this} + m_handler.Repr + m_delivery_id.Repr + topic_name_map.Repr + topic_name_map_outgoing.Repr
        + reverse_topic_name_map.Repr
    }

    // No two tables share a part, and none has this object in it.
    ghost predicate Apart()
      reads m_handler, m_delivery_id, topic_name_map, topic_name_map_outgoing, reverse_topic_name_map
    {
      {this} !! m_handler.Repr !! m_delivery_id.Repr !! topic_name_map.Repr !! topic_name_map_outgoing.Repr
        !! reverse_topic_name_map.Repr
    }

    ghost predicate Valid()
      reads this, Repr
      ensures Valid() ==> this in Repr
    {
      && this in Repr && m_handler in Repr && m_delivery_id in Repr && topic_name_map in Repr
      && topic_name_map_outgoing in Repr && reverse_topic_name_map in Repr
      && Repr == Whole() && Apart()
      && m_handler.Valid() && m_delivery_id.Valid() && topic_name_map.Valid() && topic_name_map_outgoing.Valid()
      && reverse_topic_name_map.Valid()
      && byHandle == ById(m_handler.contents) && byDelivery == ById(m_delivery_id.contents)
      && incoming == topic_name_map.contents && outgoing == topic_name_map_outgoing.contents
      && names == ById(reverse_topic_name_map.contents)
    }

    // map_init of the five maps
    constructor ()
      ensures Valid() && fresh(Repr)
      ensures byHandle == map[] && byDelivery == map[] && incoming == map[] && outgoing == map[] && names == map[]
    {
      hide Table.Valid;
      hide ById;
      var handlers, deliveries := NewMessageTables();
      var ins, outs, reverse := NewTopicTables();
      m_handler, m_delivery_id := handlers, deliveries;
      topic_name_map, topic_name_map_outgoing, reverse_topic_name_map := ins, outs, reverse;
      byHandle, byDelivery, incoming, outgoing, names := map[], map[], map[], map[], map[];
      new;
      Repr := Whole();
      ByIdEmpty<Transfer>();
      ByIdEmpty<string>();
    }

    // amqp_add_message_in_map_by_handler
    method AddByHandler(handler: nat, message: Transfer)
      requires Valid() && handler < USHORT
      modifies Repr
      ensures Valid() && fresh(Repr - old(Repr))
      ensures byHandle == old(byHandle)[handler := message]
      ensures byDelivery == old(byDelivery) && incoming == old(incoming)
      ensures outgoing == old(outgoing) && names == old(names)
    {
      hide Table.Valid;
      hide ById;
      AddById(m_handler, handler, message);
      byHandle := byHandle[handler := message];
      Repr := Whole();
    }

    // amqp_add_message_in_map_by_delivery_id
    method AddByDelivery(delivery_id: nat, message: Transfer)
      requires Valid() && delivery_id < USHORT
      modifies Repr
      ensures Valid() && fresh(Repr - old(Repr))
      ensures byDelivery == old(byDelivery)[delivery_id := message]
      ensures byHandle == old(byHandle) && incoming == old(incoming) && outgoing == old(outgoing) && names == old(names)
    {
      hide Table.Valid;
      hide ById;
      AddById(m_delivery_id, delivery_id, message);
      byDelivery := byDelivery[delivery_id := message];
      Repr := Whole();
    }

    // amqp_get_message_from_map_by_handler
    method GetByHandler(handler: nat) returns (r: Option<Transfer>)
      requires Valid() && handler < USHORT
      ensures r == if handler in byHandle then Some(byHandle[handler]) else None
    {
      hide Table.Valid;
      hide ById;
      r := GetById(m_handler, handler);
    }

    // amqp_get_message_from_map_by_delivery_id
    method GetByDelivery(delivery_id: nat) returns (r: Option<Transfer>)
      requires Valid() && delivery_id < USHORT
      ensures r == if delivery_id in byDelivery then Some(byDelivery[delivery_id]) else None
    {
      hide Table.Valid;
      hide ById;
      r := GetById(m_delivery_id, delivery_id);
    }

    // amqp_remove_message_from_map_handler
    method RemoveByHandler(handler: nat)
      requires Valid() && handler < USHORT
      modifies Repr
      ensures Valid() && Repr == old(Repr)
      ensures byHandle == Less(old(byHandle), handler)
      ensures byDelivery == old(byDelivery) && incoming == old(incoming)
      ensures outgoing == old(outgoing) && names == old(names)
    {
      hide Table.Valid;
      hide ById;
      hide Less;
      RemoveById(m_handler, handler);
      byHandle := Less(byHandle, handler);
    }

    // amqp_remove_message_from_map_delivery_id
    method RemoveByDelivery(delivery_id: nat)
      requires Valid() && delivery_id < USHORT
      modifies Repr
      ensures Valid() && Repr == old(Repr)
      ensures byDelivery == Less(old(byDelivery), delivery_id)
      ensures byHandle == old(byHandle) && incoming == old(incoming) && outgoing == old(outgoing) && names == old(names)
    {
      hide Table.Valid;
      hide ById;
      hide Less;
      RemoveById(m_delivery_id, delivery_id);
      byDelivery := Less(byDelivery, delivery_id);
    }

    // amqp_remove_topic_name_from_map
    method RemoveIncoming(topic_name: string)
      requires Valid()
      modifies Repr
      ensures Valid() && Repr == old(Repr)
      ensures incoming == old(incoming) - {topic_name}
      ensures byHandle == old(byHandle) && byDelivery == old(byDelivery)
      ensures outgoing == old(outgoing) && names == old(names)
    {
      hide Table.Valid;
      hide ById;
      topic_name_map.Remove(topic_name);
      assert Whole() == old(Whole()) && Apart();
      incoming := incoming - {topic_name};
    }

    // amqp_remove_handle_from_map
    method RemoveName(handle: nat)
      requires Valid() && handle < USHORT
      modifies Repr
      ensures Valid() && Repr == old(Repr)
      ensures names == Less(old(names), handle)
      ensures byHandle == old(byHandle) && byDelivery == old(byDelivery)
      ensures incoming == old(incoming) && outgoing == old(outgoing)
    {
      hide Table.Valid;
      hide ById;
      hide Less;
      RemoveById(reverse_topic_name_map, handle);
      names := Less(names, handle);
    }

    // amqp_add_handler_in_map
    method AddIncoming(topic_name: string, handler: nat)
      requires Valid()
      modifies Repr
      ensures Valid() && fresh(Repr - old(Repr))
      ensures incoming == old(incoming)[topic_name := handler]
      ensures byHandle == old(byHandle) && byDelivery == old(byDelivery)
      ensures outgoing == old(outgoing) && names == old(names)
    {
      hide Table.Valid;
      hide ById;
      var rc := topic_name_map.Set(topic_name, handler, true, true);
      incoming := incoming[topic_name := handler];
      Repr := Whole();
    }

    // amqp_add_handler_in_map_outgoing
    method AddOutgoing(topic_name: string, handler: nat)
      requires Valid()
      modifies Repr
      ensures Valid() && fresh(Repr - old(Repr))
      ensures outgoing == old(outgoing)[topic_name := handler]
      ensures byHandle == old(byHandle) && byDelivery == old(byDelivery)
      ensures incoming == old(incoming) && names == old(names)
    {
      hide Table.Valid;
      hide ById;
      var rc := topic_name_map_outgoing.Set(topic_name, handler, true, true);
      outgoing := outgoing[topic_name := handler];
      Repr := Whole();
    }

    // amqp_add_topic_name_in_map
    method AddName(handler: nat, topic_name: string)
      requires Valid() && handler < USHORT
      modifies Repr
      ensures Valid() && fresh(Repr - old(Repr))
      ensures names == old(names)[handler := topic_name]
      ensures byHandle == old(byHandle) && byDelivery == old(byDelivery)
      ensures incoming == old(incoming) && outgoing == old(outgoing)
    {
      hide Table.Valid;
      hide ById;
      AddById(reverse_topic_name_map, handler, topic_name);
      names := names[handler := topic_name];
      Repr := Whole();
    }

    // amqp_get_handler_from_map: 0 where the name is not there.
    method GetIncoming(topic_name: string) returns (handler: nat)
      requires Valid()
      ensures handler == Lookup(incoming, topic_name)
    {
      hide Table.Valid;
      hide ById;
      var r := ScanLookup(topic_name_map, topic_name);
      handler := if r.Some? then r.value else 0;
    }

    // amqp_get_handler_from_map_outgoing: 0 where the name is not there.
    method GetOutgoing(topic_name: string) returns (handler: nat)
      requires Valid()
      ensures handler == Lookup(outgoing, topic_name)
    {
      hide Table.Valid;
      hide ById;
      var r := ScanLookup(topic_name_map_outgoing, topic_name);
      handler := if r.Some? then r.value else 0;
    }

    // amqp_get_topic_name_from_map
    method GetName(handler: nat) returns (r: Option<string>)
      requires Valid() && handler < USHORT
      ensures r == if handler in names then Some(names[handler]) else None
    {
      hide Table.Valid;
      hide ById;
      r := GetById(reverse_topic_name_map, handler);
    }
  }
}
