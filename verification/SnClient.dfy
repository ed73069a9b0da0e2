// src/mqttsn/mqtt_sn_client.c: the API calls and the handler of received
// packets, on the hash tables of src/mqttsn/mqtt_sn_timers.c.
module SnClient {
  import opened Bits
  import opened SnProtocol
  import opened SnTimers
  import opened Wrappers

  // Every entry is under the number of its packet, an unsigned short.
  predicate Keyed(messages: map<nat, Packet>) {
    forall k :: k in messages ==> k < USHORT && MapKey(messages[k]) == k
  }

  // The ids of a received packet that reach the tables are unsigned shorts.
  predicate InWidth(e: Event) {
    match e
    case RxRegister(_, topicId, _) => topicId < USHORT
    case RxRegack(messageId, topicId, _) => messageId < USHORT && topicId < USHORT
    case RxPuback(messageId) => messageId < USHORT
    case RxPubcomp(messageId) => messageId < USHORT
    case RxSuback(messageId, topicId, _) => messageId < USHORT && topicId < USHORT
    case RxUnsuback(messageId) => messageId < USHORT
    case _ => true
  }

  class MqttSnClient {
    var current_packet_number: nat
    var structs: nat
    const timers: Timers
    var outbox: seq<Packet>  // what was given to the network

    ghost predicate Valid()
      reads this, timers, timers.Repr
    {
      timers.Valid() && this !in timers.Repr && Keyed(timers.messages)
    }

    ghost function State(): Client
      reads this, timers
    {
      Client(current_packet_number, structs, timers.messages, timers.topicIds, timers.topicNames)
    }

    // What has happened since is exactly one step of the state machine.
    twostate predicate Did(e: Event)
      reads this, timers
    {
      var r := Step(old(State()), e);
      && State() == r.client
      && outbox == old(outbox) + (if r.sent.Some? then r.sent.value else [])
    }

    // start_mqtt_sn_ping_timer, on CONNACK
    constructor (number: nat)
      ensures Valid() && fresh(timers.Repr)
      ensures State() == Client(number, 0, map[], map[], map[]) && outbox == []
    {
      hide Timers.Valid;
      current_packet_number, structs, outbox := number, 0, [];
      timers := new Timers();
    }

    // sn_encode_and_fire
    method Fire(p: Packet)
      modifies `outbox
      ensures outbox == old(outbox) + [p]
    {
      outbox := outbox + [p];
    }

    // sn_add_message_in_map
    method AddMessageInMap(p: Packet)
      requires Valid() && InRange(p)
      modifies timers.Repr
      ensures Valid() && fresh(timers.Repr - old(timers.Repr))
      ensures State() == AddMessage(old(State()), p)
    {
      hide Timers.Valid;
      timers.AddMessage(p);
    }

    // sn_remove_message_from_map
    method RemoveMessageFromMap(packet_id: nat)
      requires Valid() && packet_id < USHORT
      modifies timers.Repr
      ensures Valid() && fresh(timers.Repr - old(timers.Repr))
      ensures State() == RemoveMessage(old(State()), packet_id)
    {
      hide Timers.Valid;
      timers.RemoveMessage(packet_id);
    }

    method AddTopicInMaps(name: string, id: nat)
      requires Valid() && id < USHORT
      modifies timers.Repr
      ensures Valid() && fresh(timers.Repr - old(timers.Repr))
      ensures State() == AddTopic(old(State()), name, id)
    {
      hide Timers.Valid;
      timers.AddTopicId(name, id);
      timers.AddTopicName(id, name);
    }

    method MakeTopic(topic_name: string) returns (t: TopicRef)
      requires Valid()
      ensures t == RefTo(State(), topic_name)
    {
      hide Timers.Valid;
      var topic_id := timers.GetTopicId(topic_name);
      t := if topic_id == 0 then Named(topic_name) else Known(topic_id);
    }

    // send_sn_publish
    method SendPublish(p: Packet)
      requires Valid() && p.Publish?
      modifies this, timers.Repr
      ensures Valid() && fresh(timers.Repr - old(timers.Repr))
      ensures State() == PublishNow(old(State()), p).client
      ensures outbox == old(outbox) + PublishNow(old(State()), p).sent.value
    {
      hide Timers.Valid;
      current_packet_number := current_packet_number + 1;
      var sn_publish := WithMessageId(p, Id(current_packet_number));
      Fire(sn_publish);
      if sn_publish.qos != NO_QOS {
        AddMessageInMap(sn_publish);
      }
    }

    // send_sn_register
    method SendRegister(topic_name: string)
      requires Valid()
      modifies this, timers.Repr
      ensures Valid() && fresh(timers.Repr - old(timers.Repr))
      ensures var r := Register(Id(old(current_packet_number) + 1), topic_name);
        && State() == AddMessage(old(State()).(counter := old(current_packet_number) + 1), r)
        && outbox == old(outbox) + [r]
    {
      hide Timers.Valid;
      current_packet_number := current_packet_number + 1;
      var sn_register := Register(Id(current_packet_number), topic_name);
      AddMessageInMap(sn_register);
      Fire(sn_register);
    }

    // send_sn_message
    method SendMessage(content: Content, topic_name: string, qos: nat)
      requires Valid()
      modifies this, timers.Repr
      ensures Valid() && fresh(timers.Repr - old(timers.Repr))
      ensures Did(Event.SendMessage(content, topic_name, qos))
    {
      hide Timers.Valid;
      var topic_id := timers.GetTopicId(topic_name);
      var ref := structs;
      structs := structs + 1;
      current_packet_number := current_packet_number + 1;
      var sn_publish := Publish(ref, Id(current_packet_number), topic_id, topic_name, qos, content);
      if topic_id == 0 {
        AddMessageInMap(sn_publish);
        SendRegister(topic_name);
      } else {
        SendPublish(sn_publish);
      }
    }

    // send_sn_subscribe
    method SendSubscribe(topic_name: string, qos: nat)
      requires Valid()
      modifies this, timers.Repr
      ensures Valid() && fresh(timers.Repr - old(timers.Repr))
      ensures Did(Event.SendSubscribe(topic_name, qos))
    {
      hide Timers.Valid;
      var sn_topic := MakeTopic(topic_name);
      current_packet_number := current_packet_number + 1;
      var sn_subscribe := Subscribe(Id(current_packet_number), sn_topic, qos);
      AddMessageInMap(sn_subscribe);
      Fire(sn_subscribe);
    }

    // send_sn_unsubscribe
    method SendUnsubscribe(topic_name: string)
      requires Valid()
      modifies this, timers.Repr
      ensures Valid() && fresh(timers.Repr - old(timers.Repr))
      ensures Did(Event.SendUnsubscribe(topic_name))
    {
      hide Timers.Valid;
      var sn_topic := MakeTopic(topic_name);
      current_packet_number := current_packet_number + 1;
      var sn_unsubscribe := Unsubscribe(Id(current_packet_number), sn_topic);
      AddMessageInMap(sn_unsubscribe);
      Fire(sn_unsubscribe);
    }

    // One round of message_resend_task, for the entry under key.
    method Resend(key: nat)
      requires Valid() && key < USHORT
      modifies `outbox
      ensures Valid() && Did(Event.Resend(key))
    {
      hide Timers.Valid;
      var message := timers.GetMessage(key);
      if message == None || (message.value.Publish? && message.value.topicId == 0) {
        return;
      }
      Fire(message.value);
    }

    // The case SN_REGACK. The result is false for the undefined behaviour of a
    // wrong cast.
    method ReceiveRegack(messageId: nat, topicId: nat, accepted: bool) returns (ok: bool)
      requires Valid() && InWidth(RxRegack(messageId, topicId, accepted))
      modifies this, timers.Repr
      ensures Valid() && fresh(timers.Repr - old(timers.Repr))
      ensures Did(RxRegack(messageId, topicId, accepted))
      ensures ok == Step(old(State()), RxRegack(messageId, topicId, accepted)).sent.Some?
    {
      hide Timers.Valid;
      var publishId := (messageId + USHORT - 1) % USHORT;
      var message := timers.GetMessage(publishId);
      if message == None {
        return true;
      }
      if accepted {
        if !message.value.Publish? {
          return false;
        }
        AddTopicInMaps(message.value.topicName, topicId);
        SendPublish(WithTopicId(message.value, topicId));
      }
      RemoveMessageFromMap(publishId);
      RemoveMessageFromMap(messageId);
      return true;
    }

    // The cases SN_PUBACK, SN_PUBCOMP, SN_SUBACK and SN_UNSUBACK.
    method ReceivePuback(messageId: nat)
      requires Valid() && InWidth(RxPuback(messageId))
      modifies this, timers.Repr
      ensures Valid() && fresh(timers.Repr - old(timers.Repr))
      ensures Did(RxPuback(messageId))
    {
      hide Timers.Valid;
      var message := timers.GetMessage(messageId);
      if message == None {
        assert timers.messages - {messageId} == timers.messages;
        return;
      }
      RemoveMessageFromMap(messageId);
    }

    method ReceivePubcomp(messageId: nat) returns (ok: bool)
      requires Valid() && InWidth(RxPubcomp(messageId))
      modifies this, timers.Repr
      ensures Valid() && fresh(timers.Repr - old(timers.Repr))
      ensures Did(RxPubcomp(messageId))
      ensures ok == Step(old(State()), RxPubcomp(messageId)).sent.Some?
    {
      hide Timers.Valid;
      var message := timers.GetMessage(messageId);
      if message == None || !message.value.Publish? {
        return false;
      }
      RemoveMessageFromMap(message.value.messageId);
      return true;
    }

    method ReceiveSuback(messageId: nat, topicId: nat, accepted: bool) returns (ok: bool)
      requires Valid() && InWidth(RxSuback(messageId, topicId, accepted))
      modifies this, timers.Repr
      ensures Valid() && fresh(timers.Repr - old(timers.Repr))
      ensures Did(RxSuback(messageId, topicId, accepted))
      ensures ok == Step(old(State()), RxSuback(messageId, topicId, accepted)).sent.Some?
    {
      hide Timers.Valid;
      var message := timers.GetMessage(messageId);
      if message == None || !accepted {
        return true;
      }
      if !message.value.Subscribe? || message.value.topic.Known? {
        return false;
      }
      AddTopicInMaps(message.value.topic.name, topicId);
      RemoveMessageFromMap(messageId);
      return true;
    }

    method ReceiveUnsuback(messageId: nat) returns (ok: bool)
      requires Valid() && InWidth(RxUnsuback(messageId))
      modifies this, timers.Repr
      ensures Valid() && fresh(timers.Repr - old(timers.Repr))
      ensures Did(RxUnsuback(messageId))
      ensures ok == Step(old(State()), RxUnsuback(messageId)).sent.Some?
    {
      hide Timers.Valid;
      var message := timers.GetMessage(messageId);
      if message == None || !message.value.Unsubscribe? {
        return false;
      }
      RemoveMessageFromMap(message.value.messageId);
      return true;
    }

    // process_sn_rx
    method ProcessRx(e: Event) returns (ok: bool)
      requires Valid() && InWidth(e)
      requires !e.SendMessage? && !e.SendSubscribe? && !e.SendUnsubscribe? && !e.Resend?
      modifies this, timers.Repr
      ensures Valid() && fresh(timers.Repr - old(timers.Repr))
      ensures Did(e) && ok == Step(old(State()), e).sent.Some?
    {
      hide Timers.Valid;
      ok := true;
      match e {
        case RxRegister(msgId, topicId, topicName) =>
          AddTopicInMaps(topicName, topicId);
          Fire(Regack(msgId, topicId));
        case RxRegack(messageId, topicId, accepted) => ok := ReceiveRegack(messageId, topicId, accepted);
        case RxPublish(messageId, topicId, qos) =>
          if qos == 1 {
            Fire(Puback(messageId, topicId));
          } else if qos == 2 {
            Fire(Pubrec(messageId));
          }
        case RxPuback(messageId) => ReceivePuback(messageId);
        case RxPubrec(messageId) => Fire(Pubrel(messageId));
        case RxPubrel(messageId) => Fire(Pubcomp(messageId));
        case RxPubcomp(messageId) => ok := ReceivePubcomp(messageId);
        case RxSuback(messageId, topicId, accepted) => ok := ReceiveSuback(messageId, topicId, accepted);
        case RxUnsuback(messageId) => ok := ReceiveUnsuback(messageId);
      }
    }
  }
}
