// src/amqp/amqp_client.c: the API calls and the handler of received frames, on
// the hash tables of src/amqp/amqp_timers.c.
module AmqpClient {
  import opened AmqpProtocol
  import opened AmqpTimers
  import opened Bits
  import opened Wrappers

  // The values of the map are unsigned shorts.
  predicate Shorts(m: map<string, nat>) {
    forall t :: t in m ==> m[t] < USHORT
  }

  class AmqpClient {
    var next_handle: nat
    var packet_id_counter: nat
    const timers: Timers
    var outbox: seq<Frame>  // what was given to the network

    ghost predicate Valid()
      reads this, timers, timers.Repr
    {
      timers.Valid() && this !in timers.Repr && Shorts(timers.outgoing)
    }

    ghost function State(): Client
      reads this, timers
    {
      Client(next_handle, packet_id_counter, timers.byHandle, timers.byDelivery,
             timers.incoming, timers.outgoing, timers.names)
    }

    // What has happened since is exactly one step of the state machine.
    twostate predicate Did(e: Event)
      reads this, timers
    {
      && State() == Step(old(State()), e).client
      && outbox == old(outbox) + Step(old(State()), e).sent
    }

    // start_amqp_ping_timer, on OPEN
    constructor (handle: nat, id: nat)
      ensures Valid() && fresh(timers.Repr)
      ensures State() == Client(handle, id, map[], map[], map[], map[], map[]) && outbox == []
    {
      hide Timers.Valid;
      next_handle, packet_id_counter, outbox := handle, id, [];
      timers := new Timers();
    }

    // amqp_encode_and_fire
    method Fire(f: Frame)
      modifies `outbox
      ensures outbox == old(outbox) + [f]
    {
      outbox := outbox + [f];
    }

    // The three calls that store a link of this client.
    method AddLink(topic_name: string, handle: nat, message: Transfer)
      requires Valid() && handle < USHORT
      modifies timers.Repr
      ensures Valid() && fresh(timers.Repr - old(timers.Repr))
      ensures State() == old(State()).(outgoing := old(timers.outgoing)[topic_name := handle],
                                       names := old(timers.names)[handle := topic_name],
                                       byHandle := old(timers.byHandle)[handle := message])
    {
      hide Timers.Valid;
      timers.AddOutgoing(topic_name, handle);
      timers.AddName(handle, topic_name);
      timers.AddByHandler(handle, message);
    }

    // send_amqp_transfer
    method SendTransfer(content: string, topic_name: string, qos: nat)
      requires Valid()
      modifies this, timers.Repr
      ensures Valid() && fresh(timers.Repr - old(timers.Repr))
      ensures Did(Event.SendTransfer(content, topic_name, qos))
    {
      hide Timers.Valid;
      var settled := qos == 0;
      var delivery_id := packet_id_counter;
      packet_id_counter := packet_id_counter + 1;
      var handle := timers.GetOutgoing(topic_name);
      if handle != 0 {
        Fire(TransferFrame(Transfer(delivery_id, handle, settled, content)));
      } else {
        var current_handler := next_handle;
        next_handle := next_handle + 1;
        AddLink(topic_name, Key(current_handler), Transfer(delivery_id, current_handler, settled, content));
        Fire(AttachFrame(topic_name, current_handler, SenderRole));
      }
    }

    // send_amqp_attach
    method SendAttach(topic_name: string)
      requires Valid()
      modifies this
      ensures Valid() && Did(Event.SendAttach(topic_name))
    {
      hide Timers.Valid;
      var handler := next_handle;
      next_handle := next_handle + 1;
      Fire(AttachFrame(topic_name, handler, ReceiverRole));
    }

    // send_amqp_detach
    method SendDetach(topic_name: string)
      requires Valid()
      modifies `outbox
      ensures Valid() && Did(Event.SendDetach(topic_name))
    {
      hide Timers.Valid;
      var handle := timers.GetIncoming(topic_name);
      if handle != 0 {
        Fire(DetachFrame(handle));
      }
    }

    // The transfer that waited for its link is sent and, unless settled, kept.
    method SendWaiting(handle: nat, message: Transfer)
      requires Valid() && handle < USHORT
      modifies this, timers.Repr
      ensures Valid() && fresh(timers.Repr - old(timers.Repr))
      ensures outbox == old(outbox) + [TransferFrame(message)]
      ensures State() == old(State()).(
        byHandle := old(timers.byHandle) - {handle},
        byDelivery := if message.settled then old(timers.byDelivery)
                      else old(timers.byDelivery)[Key(message.deliveryId) := message])
    {
      hide Timers.Valid;
      Fire(TransferFrame(message));
      timers.RemoveByHandler(handle);
      if !message.settled {
        timers.AddByDelivery(Key(message.deliveryId), message);
      }
    }

    method ReceiveEcho(name: string, handle: Number)
      requires Valid()
      modifies this, timers.Repr
      ensures Valid() && fresh(timers.Repr - old(timers.Repr))
      ensures Did(RxAttach(name, handle, Some(ReceiverRole)))
    {
      hide Timers.Valid;
      var real_handle := timers.GetOutgoing(name);
      if real_handle != 0 {
        var current_message := timers.GetByHandler(real_handle);
        if current_message.Some? {
          SendWaiting(real_handle, current_message.value);
        }
      }
    }

    method ReceivePeerLink(name: string, attached: Number)
      requires Valid()
      modifies this, timers.Repr
      ensures Valid() && fresh(timers.Repr - old(timers.Repr))
      ensures Did(RxAttach(name, attached, Some(SenderRole)))
    {
      hide Timers.Valid;
      var handle := Received(attached);
      var current_handler := timers.GetIncoming(name);
      if current_handler == 0 {
        timers.AddIncoming(name, Key(handle));
        timers.AddName(Key(handle), name);
      }
      if handle >= next_handle {
        next_handle := handle + 1;
      }
    }

    method ReceiveDisposition(end: Role, first: Number, last: nat)
      requires Valid()
      modifies this, timers.Repr
      ensures Valid() && fresh(timers.Repr - old(timers.Repr))
      ensures Did(RxDisposition(end, first, last))
    {
      hide Timers.Valid;
      var id := Key(Received(first));
      var message := timers.GetByDelivery(id);
      if message == None {
        assert timers.byDelivery - {id} == timers.byDelivery;
        return;
      }
      timers.RemoveByDelivery(id);
    }

    method ReceiveDetach(handle: Number)
      requires Valid()
      modifies this, timers.Repr
      ensures Valid() && fresh(timers.Repr - old(timers.Repr))
      ensures Did(RxDetach(handle))
    {
      hide Timers.Valid;
      var topic_name := timers.GetName(Key(Received(handle)));
      if topic_name.Some? {
        timers.RemoveIncoming(topic_name.value);
        timers.RemoveName(Key(Received(handle)));
      }
    }

    // process_amqp_rx, the frames that touch the variables above
    method ProcessRx(e: Event)
      requires Valid() && (e.RxAttach? || e.RxTransfer? || e.RxDisposition? || e.RxDetach?)
      modifies this, timers.Repr
      ensures Valid() && fresh(timers.Repr - old(timers.Repr))
      ensures Did(e)
    {
      hide Timers.Valid;
      match e {
        case RxAttach(name, handle, None) =>
        case RxAttach(name, handle, Some(ReceiverRole)) => ReceiveEcho(name, handle);
        case RxAttach(name, handle, Some(SenderRole)) => ReceivePeerLink(name, handle);
        case RxTransfer(deliveryId, settled) =>
          if !settled {
            Fire(DispositionFrame(Received(deliveryId)));
          }
        case RxDisposition(end, first, last) => ReceiveDisposition(end, first, last);
        case RxDetach(handle) => ReceiveDetach(handle);
      }
    }
  }
}
