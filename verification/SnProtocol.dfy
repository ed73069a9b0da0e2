// src/mqttsn/mqtt_sn_client.c as a state machine: what every API call and every
// received packet does to the message map and the two topic maps, from the
// moment CONNACK has reset them.
module SnProtocol {
  import opened Bits
  import opened Wrappers

  const NO_QOS := 0

  datatype TopicRef = Named(name: string) | Known(id: nat)

  // The packets the client builds. A publish has the address of its struct as
  // ref: the struct is changed in place and sent again, with a new message id.
  datatype Packet =
    | Publish(ref: nat, messageId: nat, topicId: nat, topicName: string, qos: nat, content: Content)
    | Register(msgId: nat, topicName: string)
    | Subscribe(messageId: nat, topic: TopicRef, qos: nat)
    | Unsubscribe(messageId: nat, topic: TopicRef)
    | Regack(answered: nat, forTopic: nat)
    | Puback(answered: nat, forTopic: nat)
    | Pubrec(answered: nat)
    | Pubrel(answered: nat)
    | Pubcomp(answered: nat)

  datatype Content = Content(data: string, retain: bool, dup: bool)

  datatype Client = Client(
    counter: nat,                 // current_packet_number
    structs: nat,                 // publish structs allocated so far
    messages: map<nat, Packet>,   // messages_map
    topicIds: map<string, nat>,   // topic_name_map
    topicNames: map<nat, string>  // reverse_topic_name_map
  )

  datatype Event =
    | SendMessage(content: Content, topic: string, qos: nat)
    | SendSubscribe(topic: string, qos: nat)
    | SendUnsubscribe(topic: string)
    | Resend(key: nat)
    | RxRegister(msgId: nat, topicId: nat, topicName: string)
    | RxRegack(messageId: nat, topicId: nat, accepted: bool)
    | RxPublish(messageId: nat, topicId: nat, qos: nat)
    | RxPuback(messageId: nat)
    | RxPubrec(messageId: nat)
    | RxPubrel(messageId: nat)
    | RxPubcomp(messageId: nat)
    | RxSuback(messageId: nat, topicId: nat, accepted: bool)
    | RxUnsuback(messageId: nat)

  // What a step sends, or None when it dereferences a null or uninitialised
  // pointer.
  datatype Effect = Effect(client: Client, sent: Option<seq<Packet>>)

  function Id(counter: nat): nat {
    counter % USHORT
  }

  // sn_get_topic_id_from_map: 0 stands for "not there".
  function TopicId(c: Client, topic: string): nat {
    if topic in c.topicIds then c.topicIds[topic] else 0
  }

  function AddTopic(c: Client, name: string, id: nat): Client {
    c.(topicIds := c.topicIds[name := id], topicNames := c.topicNames[id := name])
  }

  // sn_add_message_in_map: a REGISTER falls into the default case and is kept
  // under 0.
  function MapKey(p: Packet): nat {
    match p
    case Publish(_, messageId, _, _, _, _) => messageId
    case Subscribe(messageId, _, _) => messageId
    case Unsubscribe(messageId, _) => messageId
    case _ => 0
  }

  function AddMessage(c: Client, p: Packet): Client {
    c.(messages := c.messages[MapKey(p) := p])
  }

  function RemoveMessage(c: Client, id: nat): Client {
    c.(messages := c.messages - {id})
  }

  function WithMessageId(p: Packet, id: nat): Packet
    requires p.Publish?
  {
    Publish(p.ref, id, p.topicId, p.topicName, p.qos, p.content)
  }

  function WithTopicId(p: Packet, id: nat): Packet
    requires p.Publish?
  {
    Publish(p.ref, p.messageId, id, p.topicName, p.qos, p.content)
  }

  // send_sn_publish
  function PublishNow(c: Client, p: Packet): Effect
    requires p.Publish?
  {
    var c1 := c.(counter := c.counter + 1);
    var p1 := WithMessageId(p, Id(c1.counter));
    Effect(if p.qos == NO_QOS then c1 else AddMessage(c1, p1), Some([p1]))
  }

  // send_sn_message
  function OnSendMessage(c: Client, content: Content, topic: string, qos: nat): Effect {
    var c1 := c.(counter := c.counter + 1, structs := c.structs + 1);
    var p := Publish(c.structs, Id(c1.counter), TopicId(c, topic), topic, qos, content);
    if p.topicId == 0 then
      var c2 := AddMessage(c1, p).(counter := c1.counter + 1);
      var r := Register(Id(c2.counter), topic);
      Effect(AddMessage(c2, r), Some([r]))
    else PublishNow(c1, p)
  }

  function RefTo(c: Client, topic: string): TopicRef {
    if TopicId(c, topic) == 0 then Named(topic) else Known(TopicId(c, topic))
  }

  // The case SN_REGACK of process_sn_rx.
  function OnRegack(c: Client, messageId: nat, topicId: nat, accepted: bool): Effect {
    var publishId := (messageId + USHORT - 1) % USHORT;
    if publishId !in c.messages then Effect(c, Some([]))
    else if !accepted then Effect(RemoveMessage(RemoveMessage(c, publishId), messageId), Some([]))
    else if !c.messages[publishId].Publish? then Effect(c, None)
    else
      var p := WithTopicId(c.messages[publishId], topicId);
      var e := PublishNow(AddTopic(c, p.topicName, topicId), p);
      e.(client := RemoveMessage(RemoveMessage(e.client, publishId), messageId))
  }

  // The case SN_PUBCOMP: the null test looks at the wrong variable.
  function OnPubcomp(c: Client, messageId: nat): Effect {
    if messageId in c.messages && c.messages[messageId].Publish? then
      Effect(RemoveMessage(c, c.messages[messageId].messageId), Some([]))
    else Effect(c, None)
  }

  // The case SN_SUBACK: a subscription by id has no topic name to store.
  function OnSuback(c: Client, messageId: nat, topicId: nat, accepted: bool): Effect {
    if messageId !in c.messages || !accepted then Effect(c, Some([]))
    else
      match c.messages[messageId]
      case Subscribe(_, Named(name), _) =>
        Effect(RemoveMessage(AddTopic(c, name, topicId), messageId), Some([]))
      case _ => Effect(c, None)
  }

  // The case SN_UNSUBACK: here too the null test looks at the wrong variable.
  function OnUnsuback(c: Client, messageId: nat): Effect {
    if messageId in c.messages && c.messages[messageId].Unsubscribe? then
      Effect(RemoveMessage(c, c.messages[messageId].messageId), Some([]))
    else Effect(c, None)
  }

  // message_resend_task goes through the map, all entries except publishes that wait for
  // their topic id.
  predicate Resent(p: Packet) {
    p.Publish? ==> p.topicId != 0
  }

  function Step(c: Client, e: Event): Effect {
    match e
    case SendMessage(content, topic, qos) => OnSendMessage(c, content, topic, qos)
    case SendSubscribe(topic, qos) =>
      var c1 := c.(counter := c.counter + 1);
      var p := Subscribe(Id(c1.counter), RefTo(c, topic), qos);
      Effect(AddMessage(c1, p), Some([p]))
    case SendUnsubscribe(topic) =>
      var c1 := c.(counter := c.counter + 1);
      var p := Unsubscribe(Id(c1.counter), RefTo(c, topic));
      Effect(AddMessage(c1, p), Some([p]))
    case Resend(key) => Effect(c, Some(if key in c.messages && Resent(c.messages[key]) then [c.messages[key]] else []))
    case RxRegister(msgId, topicId, topicName) =>
      Effect(AddTopic(c, topicName, topicId), Some([Regack(msgId, topicId)]))
    case RxRegack(messageId, topicId, accepted) => OnRegack(c, messageId, topicId, accepted)
    case RxPublish(messageId, topicId, qos) =>
      Effect(c, Some(if qos == 1 then [Puback(messageId, topicId)]
                     else if qos == 2 then [Pubrec(messageId)] else []))
    case RxPuback(messageId) => Effect(RemoveMessage(c, messageId), Some([]))
    case RxPubrec(messageId) => Effect(c, Some([Pubrel(messageId)]))
    case RxPubrel(messageId) => Effect(c, Some([Pubcomp(messageId)]))
    case RxPubcomp(messageId) => OnPubcomp(c, messageId)
    case RxSuback(messageId, topicId, accepted) => OnSuback(c, messageId, topicId, accepted)
    case RxUnsuback(messageId) => OnUnsuback(c, messageId)
  }
}
