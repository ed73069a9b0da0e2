// src/amqp/amqp_client.c as a state machine: links, transfers and dispositions,
// from the moment OPEN has reset the maps.
module AmqpProtocol {
  import opened Bits
  import opened Wrappers

  datatype Role = SenderRole | ReceiverRole

  // An unsigned integer as the peer writes it, in at most one byte or in four.
  datatype Written = Written(n: nat, wide: bool)

  type Number = k: Written | k.n < (if k.wide then TWO_TO_THE_32 else 256) witness Written(0, false)

  // What the client makes of it: get_element gives four bytes the length 1, and
  // unwrap_uint then takes the first of them.
  function Received(k: Number): (n: nat)
    ensures n <= 255
  {
    if k.wide then k.n / 0x100_0000 else k.n
  }

  datatype Transfer = Transfer(deliveryId: nat, handle: nat, settled: bool, content: string)

  datatype Frame =
    | TransferFrame(transfer: Transfer)
    | AttachFrame(name: string, handle: nat, role: Role)
    | DetachFrame(handle: nat)
    | DispositionFrame(first: nat)

  datatype Client = Client(
    nextHandle: nat,               // next_handle
    packetIds: nat,                // packet_id_counter
    byHandle: map<nat, Transfer>,  // m_handler: transfers waiting for their link
    byDelivery: map<nat, Transfer>,  // m_delivery_id: transfers waiting for their disposition
    incoming: map<string, nat>,    // topic_name_map
    outgoing: map<string, nat>,    // topic_name_map_outgoing
    names: map<nat, string>        // reverse_topic_name_map
  )

  datatype Event =
    | SendTransfer(content: string, topic: string, qos: nat)
    | SendAttach(topic: string)
    | SendDetach(topic: string)
    | RxAttach(name: string, handle: Number, role: Option<Role>)
    | RxTransfer(deliveryId: Number, settled: bool)
    | RxDisposition(end: Role, first: Number, last: nat)
    | RxDetach(handle: Number)

  datatype Effect = Effect(client: Client, sent: seq<Frame>)

  // The cast to unsigned short at the boundary of the maps.
  function Key(n: nat): nat {
    n % USHORT
  }

  // The lookups by name answer 0 for a name that is not there.
  function Lookup(m: map<string, nat>, name: string): nat {
    if name in m then m[name] else 0
  }

  // send_amqp_transfer
  function OnSendTransfer(c: Client, content: string, topic: string, qos: nat): Effect {
    var c1 := c.(packetIds := c.packetIds + 1);
    var settled := qos == 0;
    var handle := Lookup(c.outgoing, topic);
    if handle != 0 then
      Effect(c1, [TransferFrame(Transfer(c.packetIds, handle, settled, content))])
    else
      var current := c.nextHandle;
      var transfer := Transfer(c.packetIds, current, settled, content);
      Effect(c1.(nextHandle := current + 1,
                 outgoing := c.outgoing[topic := Key(current)],
                 names := c.names[Key(current) := topic],
                 byHandle := c.byHandle[Key(current) := transfer]),
             [AttachFrame(topic, current, SenderRole)])
  }

  // The case ATTACH with role RECEIVER: the echo of a link of ours.
  function OnEcho(c: Client, name: string): Effect {
    var handle := Lookup(c.outgoing, name);
    if handle == 0 || handle !in c.byHandle then Effect(c, [])
    else
      var transfer := c.byHandle[handle];
      var c1 := c.(byHandle := c.byHandle - {handle});
      Effect(if transfer.settled then c1
             else c1.(byDelivery := c.byDelivery[Key(transfer.deliveryId) := transfer]),
             [TransferFrame(transfer)])
  }

  // The case ATTACH with role SENDER: a link of the peer.
  function OnPeerLink(c: Client, name: string, handle: nat): Effect {
    var c1 := if Lookup(c.incoming, name) != 0 then c
              else c.(incoming := c.incoming[name := Key(handle)], names := c.names[Key(handle) := name]);
    Effect(if handle >= c.nextHandle then c1.(nextHandle := handle + 1) else c1, [])
  }

  // The case DETACH
  function OnDetach(c: Client, handle: nat): Effect {
    if Key(handle) !in c.names then Effect(c, [])
    else Effect(c.(incoming := c.incoming - {c.names[Key(handle)]}, names := c.names - {Key(handle)}), [])
  }

  function Step(c: Client, e: Event): Effect {
    match e
    case SendTransfer(content, topic, qos) => OnSendTransfer(c, content, topic, qos)
    case SendAttach(topic) =>
      Effect(c.(nextHandle := c.nextHandle + 1), [AttachFrame(topic, c.nextHandle, ReceiverRole)])
    case SendDetach(topic) =>
      Effect(c, if Lookup(c.incoming, topic) == 0 then [] else [DetachFrame(Lookup(c.incoming, topic))])
    case RxAttach(_, _, None) => Effect(c, [])
    case RxAttach(name, _, Some(ReceiverRole)) => OnEcho(c, name)
    case RxAttach(name, handle, Some(SenderRole)) => OnPeerLink(c, name, Received(handle))
    case RxTransfer(deliveryId, settled) => Effect(c, if settled then [] else [DispositionFrame(Received(deliveryId))])
    case RxDisposition(_, first, _) => Effect(c.(byDelivery := c.byDelivery - {Key(Received(first))}), [])
    case RxDetach(handle) => OnDetach(c, Received(handle))
  }
}
