# Verification model of the IoT protocol client

The repository is an MQTT, MQTT-SN, CoAP, AMQP and WebSocket client in C for small devices. This project models
the parts of it whose correctness is hard to see from one function, and proves with Dafny what they keep over all
inputs and all runs. `dafny verify dfyconfig.toml` checks everything.

| files | what they model |
|---|---|
| `Bits`, `Chains`, `HashMap`, `TimerMaps`, `SnTimers`, `AmqpTimers` | the chained hash table of `src/map/map.c` on heap nodes, its iterator, and the maps the clients keep in such tables |
| `SnProtocol`, `SnClient`, `SnLedger`, `SnInvariant`, `SnRuns`, `SnTopics`, `SnLimits` | the MQTT-SN client as a state machine and as a class on its hash tables, its runs against a gateway, and what happens when its ids start again |
| `AmqpProtocol`, `AmqpClient`, `AmqpRuns`, `AmqpOrder`, `AmqpIntegers`, `AmqpLimits` | the AMQP client: handles, deferred transfers, deliveries, the order of transfers, what becomes of the integers the peer sends, and what happens when the handles are used up |
| `TlvFactory`, `TlvReader`, `TlvWriter`, `AmqpLists`, `AmqpTransfers`, `AmqpFrames`, `Splitting` | AMQP values, lists with optional fields, TRANSFER frames, and the cutting of a byte stream into frames |
| `DyadVec`, `DyadLines`, `DyadQueue`, `DyadStream` | the growable vector, the line splitter and the write queue of `src/net/dyad.c` |
| `Coap`, `CoapMessages`, `Base64`, `Utf8`, `MqttLength`, `SnFlags`, `SnCodec` | the other codecs |

Code that changes things in place is modelled by classes, arrays and loops. Each of its methods is proved equal to a
function of the old state or of the input, and the main results are about those functions.

## Conventions

- The model follows the code as it is written, on a target where plain `char` is unsigned and integers are little
  endian: bytes are 0..255, shifts and masks are divisions and remainders, and `get_short` is unsigned as
  `src/helpers.h` declares it, until its value is put into a `short` (the channel of an AMQP frame).
- Where the code misses its evident purpose, the model keeps the code, and a lemma says for exactly which inputs the
  purpose is met ("if and only if" in the table).
- An access outside the memory, or through a null or unset pointer, is an outcome of its own (`Undefined`, `Overrun`,
  `Fault`, `Unset`, a `None` where a value was due, ...) and not excluded by a precondition. A packet of the wrong type
  behind an untyped pointer counts as such an access. Preconditions are the callers' duties of the C code: arrays of
  the size they are given with, tables that were initialised, and ids that are of type `unsigned short`. One access is
  ignored: both receive loops read the length of a next frame behind the last byte received and do not use it
  (`src/amqp/amqp_client.c:514`, `src/mqtt/mqtt_client.c:254`).
- Allocation succeeds, except in `map_set_` and `map_resize`, where both outcomes are modelled.
- The ids of the clients are cut to 16 bits by the callers of the maps. The results over runs are about all runs that
  do not use up the 65535 ids. In MQTT-SN every request takes one or two of them, in AMQP every subscription and every
  transfer on a new topic takes a handle; a link of the peer takes none above 255 (`AmqpIntegers.AttachRaisesLittle`).
  `SnLimits.LostExactly` and `AmqpLimits.AttachesUseUpHandles` show on runs what is lost beyond.
- A received AMQP event carries the integer as the peer wrote it, in at most one byte or in four; the client sees what
  `AmqpProtocol.Received` makes of it. The AMQP runs assume nothing of the peer, unless a row says so.
- Callbacks (listeners of a stream, of a client) change nothing of what is modelled.
- What the peer, the network and the allocator do is a parameter: packets received, counts taken by `send`, success of
  `malloc` and `realloc`.

## Where the code departs from what it is for

- `src/mqttsn/mqtt_sn_client.c:472-478` and `:514-526` test the wrong variable, so an acknowledgement for an entry that
  is gone crashes the client; so does an accepted subscription by topic id (`SnRuns.CrashesExactlyWhenFatal`,
  `SnRuns.SecondSubscriptionCrashes`).
- A transfer on a topic whose link still waits for its echo overtakes the one that waits: `AmqpOrder.OvertakesExactly`
  and `AmqpOrder.OrderKeptExactly` say when, `AmqpOrder.SecondGoesFirst` gives a run. An unsettled transfer on an
  established link is kept nowhere (`AmqpRuns.WhereTransfersAre`).
- Handle 0 means "no handle" to the lookup and is the handle after 65535: `AmqpLimits.HandleFoundExactly`.
- A handle or an id above 255 that the peer sends is read as its high byte, which is 0 below 2^24
  (`src/amqp/tlv_factory.c:87-95` with `src/amqp/wrappers/unwrapper.c:207-223`): the disposition of such a transfer
  releases nothing and the transfer is kept for ever, an unsettled transfer received under such an id is answered with
  another id, and the links of such handles are mixed up (`AmqpRuns.KeptExactly`, `AmqpIntegers.KeptThoughDisposed`,
  `AmqpIntegers.AnswerExactly`, `AmqpIntegers.PeerHandleExactly`). Of a DISPOSITION the client uses the first id only,
  whatever its last id is and whichever end of the link it is about (`AmqpIntegers.ReleasedExactly`).
- `src/amqp/tlv_factory.c` gives four-byte integers the length 1 and drops the children of a LIST_32, and
  `src/amqp/wrappers/wrapper.c:293-311` writes 16-bit integers low byte first: `TlvWriter.RoundTrip`,
  `AmqpTransfers.FrameRoundTrip`. The size byte of a list counts only its items, where section 1.2.3 of AMQP 1.0
  Part 1 counts the count byte too; the parser never uses it.
- `src/amqp/amqp_parser.c:64` reads the channel into a `short`, and `:235-238` writes one byte of length and copies
  three bytes too many for data above 255 bytes: `AmqpTransfers.FrameRoundTrip`.
- `src/amqp/amqp_parser.c:783-791` dereferences a null pointer for a present aborted flag
  (`AmqpTransfers.AddArguments`).
- `src/coap/coap_parser.c` changes the form of deltas and lengths at 255 instead of 269, does not skip a two-byte
  length, masks the type with 2 and copies one byte too many: `Coap.OptionsRoundTrip`,
  `CoapMessages.MessageRoundTrip`.
- `src/mqtt/parser.c:722-734` never advances its index, and `src/mqtt/mqtt_client.c:245-255` takes one byte for the
  length: `MqttLength.LengthRoundTrip`, `MqttLength.StreamSplits`. `src/helpers.c:114` misses a digit of the limit
  268435455: `MqttLength.CountsAgree`.
- `src/mqttsn/sn_parser.c:110-116` and `:220-226` do not count the longer length field, and `:528` cuts the length of a
  string to 16 bits that is counted whole: `SnCodec.LengthIsWritten`.
- `src/ws/base64_parser.c:76` reads in front of an empty string: `Base64.DecodeData`.

## Model

| member | source | states |
|---|---|---|
| `Bits.MaskIsRemainder` | src/map/map.c:57-61 | masking with n - 1 is the remainder by n for every power of two, so the bucket index is always below the bucket count |
| `Chains.HashFits` | src/map/map.c:34-40 | the hash of every key fits the 32 bits it is computed in |
| `Chains.ResizeSameNodes` | src/map/map.c:71-105 | stringing all buckets together and adding every node again loses and duplicates no node |
| `Chains.ResizeKeepsShape` | src/map/map.c:71-105 | after it each node is in the bucket of its hash, keys are unique, and the number and the set of nodes are the same |
| `Chains.RemovedKeepsShape` | src/map/map.c:172-181 | taking one node out of its chain keeps placement and uniqueness and removes exactly that node |
| `Chains.AddedKeepsShape` | src/map/map.c:64-68 | putting a node with a new key in front of its bucket keeps placement and uniqueness and adds exactly that node |
| `HashMap.Table.constructor` | src/map/map.h:45-46 | an empty table stands for the empty map |
| `HashMap.Table.GetRef` | src/map/map.c:108-121 | finds the node of the key and the node that points to it, or null exactly when the key is not in the map |
| `HashMap.Table.Get` | src/map/map.c:140-143 | returns what the finite map has under the key |
| `HashMap.Table.AddNode` | src/map/map.c:64-68 | relinks the heap so that the chains are those with the node in front of its bucket |
| `HashMap.Table.Resize` | src/map/map.c:71-105 | keeps the finite map and validity whatever realloc does; the bucket count changes exactly when realloc succeeds, else the result is -1 |
| `HashMap.Table.Set` | src/map/map.c:146-169 | updates the finite map at the key, or returns -1 with the map unchanged, exactly when an allocation that is needed fails; validity (power of two, placement, disjoint acyclic chains, counts, load at most 1) is kept |
| `HashMap.Table.Remove` | src/map/map.c:172-181 | removes exactly the key through the pointer to the pointer, and keeps validity |
| `HashMap.Iterator.constructor` | src/map/map.c:184-189 | an iterator starts before all nodes of all chains |
| `HashMap.Iterator.Next` | src/map/map.c:192-206 | returns the keys of all chains one by one in bucket order and then none for ever; the remainder is its termination measure |
| `HashMap.ScanVisitsEachKeyOnce` | src/map/map.c:184-206 | the sequence the iterator goes through has every key of the map exactly once |
| `HashMap.ScanLookup` | src/mqttsn/mqtt_sn_timers.c:217-230 | a scan that compares every key returns what hashed lookup returns |
| `HashMap.NextPair` | src/mqttsn/mqtt_sn_timers.c:75-97 | each round of the resend scan gets a key not seen yet and its value |
| `TimerMaps.DecimalInjective` | src/mqttsn/mqtt_sn_timers.c:155-187 | two ids never share their decimal key |
| `TimerMaps.AddById` | src/mqttsn/mqtt_sn_timers.c:155-187 | storing under the printed id updates the map from ids at this id and nowhere else |
| `TimerMaps.GetById` | src/mqttsn/mqtt_sn_timers.c:199-215 | the scan by printed id returns what the map from ids has |
| `TimerMaps.RemoveById` | src/mqttsn/mqtt_sn_timers.c:250-255 | removing by printed id removes exactly that id |
| `SnTimers.Timers.constructor` | src/mqttsn/mqtt_sn_timers.c:113-127 | three separate tables that stand for empty maps |
| `SnTimers.Timers.AddMessage` | src/mqttsn/mqtt_sn_timers.c:155-187 | on the heap tables: the message map has the packet under its number, a REGISTER under 0; the two topic maps are untouched |
| `SnTimers.Timers.GetMessage` | src/mqttsn/mqtt_sn_timers.c:199-215 | the scan returns what the message map of the state machine has |
| `SnTimers.Timers.RemoveMessage` | src/mqttsn/mqtt_sn_timers.c:250-255 | removes this number from the message map only |
| `SnTimers.Timers.AddTopicId` | src/mqttsn/mqtt_sn_timers.c:189-191 | updates the map from names only |
| `SnTimers.Timers.AddTopicName` | src/mqttsn/mqtt_sn_timers.c:193-197 | updates the map to names only |
| `SnTimers.Timers.GetTopicId` | src/mqttsn/mqtt_sn_timers.c:217-230 | returns the id of the name, or 0 |
| `SnClient.MqttSnClient.SendMessage` | src/mqttsn/mqtt_sn_client.c:167-194 | one step of the state machine, on the hash tables: a publish without topic id is stored and a REGISTER sent, another is sent |
| `SnClient.MqttSnClient.SendPublish` | src/mqttsn/mqtt_sn_client.c:210-228 | the publish gets a new number, is stored unless its QoS is 0, and is sent |
| `SnClient.MqttSnClient.SendRegister` | src/mqttsn/mqtt_sn_client.c:196-208 | the REGISTER gets a new number and is sent |
| `SnClient.MqttSnClient.SendSubscribe` | src/mqttsn/mqtt_sn_client.c:139-165 | one step of the state machine: stored and sent under a new number, by id where the topic has one |
| `SnClient.MqttSnClient.SendUnsubscribe` | src/mqttsn/mqtt_sn_client.c:230-252 | the same for an unsubscription |
| `SnClient.MqttSnClient.Resend` | src/mqttsn/mqtt_sn_timers.c:75-97 | what the resend scan sends for one entry |
| `SnClient.MqttSnClient.ProcessRx` | src/mqttsn/mqtt_sn_client.c:362-548 | every received packet that touches the tables or is answered with an id makes on the hash tables exactly the step of the state machine, or crashes where that does; CONNACK, WILLTOPICREQ, WILLMSGREQ and DISCONNECT are left out |
| `SnInvariant.RegackFindsItsPublish` | src/mqttsn/mqtt_sn_client.c:419-432 | in every state of the invariant the entry at message id - 1 is there exactly while the registration is open, and is its publish |
| `SnRuns.StepKept` | src/mqttsn/mqtt_sn_client.c:139-548 | every API call and every answer to something sent keeps the invariant, and crashes exactly when `Fatal` |
| `SnRuns.InvariantOfRuns` | src/mqttsn/mqtt_sn_client.c:139-548 | over every run: numbers given once, the map keyed by them, registrations paired, publishes owed and kept |
| `SnRuns.HeldUntilReleased` | src/mqttsn/mqtt_sn_client.c:167-228 | over every run a publish handed to the API is in the message map if and only if it is not released yet, and under one id only |
| `SnRuns.RequestsOverwriteNothing` | src/mqttsn/mqtt_sn_client.c:139-252 | after every run, a new publish, registration, subscription or unsubscription leaves every pending publish under its id |
| `SnLimits.RequestKeepsExactly` | src/mqttsn/mqtt_sn_timers.c:155-187 | in any state, a publish keeps its place when a request is made if and only if its key is not one the request writes |
| `SnLimits.LostExactly` | src/mqttsn/mqtt_sn_client.c:139-208 | on the run of one publish that waits and n subscriptions the publish is in the message map if and only if n is below 65535 and its number is not 0 |
| `SnRuns.CrashesExactlyWhenFatal` | src/mqttsn/mqtt_sn_client.c:474-535 | a run crashes exactly with a PUBCOMP or UNSUBACK for an entry that is gone, or an accepted SUBACK for a subscription by id |
| `SnRuns.PubcompFatalExactly` | src/mqttsn/mqtt_sn_client.c:468-478 | after every run, the PUBCOMP of a publish that was sent crashes the client if and only if that publish is released |
| `SnRuns.SecondPubcompCrashes` | src/mqttsn/mqtt_sn_client.c:468-478 | after any run, a publish on a topic with an id and two PUBCOMPs for it end in a crash |
| `SnRuns.SecondUnsubackCrashes` | src/mqttsn/mqtt_sn_client.c:512-535 | after any run, an unsubscription and two UNSUBACKs for it end in a crash |
| `SnRuns.SubscriptionStores` | src/mqttsn/mqtt_sn_client.c:498-511 | after any run, an accepted subscription by name makes the next one be by id |
| `SnRuns.SecondSubscriptionCrashes` | src/mqttsn/mqtt_sn_client.c:139-165 | after any run, subscribing to a topic that has an id crashes the client when the gateway accepts |
| `SnRuns.RegackPairing` | src/mqttsn/mqtt_sn_client.c:419-450 | over every run the entry a REGACK finds is the publish its REGISTER was sent for, and there is none exactly when the REGISTER was answered |
| `SnRuns.ZeroTopicExactly` | src/mqttsn/mqtt_sn_client.c:419-450 | a step sends a publish with topic id 0 if and only if the gateway accepts an open registration with id 0 |
| `SnRuns.NoZeroTopicInRuns` | src/mqttsn/mqtt_sn_client.c:167-228 | over every run in which the gateway accepts with nonzero ids, no publish with topic id 0 is sent |
| `SnTopics.AddTopicKeepsInverse` | src/mqttsn/mqtt_sn_timers.c:189-197 | storing a pair keeps the two topic maps inverse if and only if the pair is there or both sides are new |
| `SnTopics.StepAddsAssigned` | src/mqttsn/mqtt_sn_client.c:411-511 | every step adds nothing to the topic maps or one pair the gateway assigned, to both |
| `SnTopics.MapsStayInverse` | src/mqttsn/mqtt_sn_client.c:411-511 | over every run with an injective assignment of ids the two topic maps are mutual inverses |
| `AmqpTimers.Timers.constructor` | src/amqp/amqp_timers.c:81-87 | five separate tables that stand for empty maps |
| `AmqpTimers.Timers.AddByHandler` | src/amqp/amqp_timers.c:141-147 | the map of waiting transfers has the message under this handle; the other four are untouched |
| `AmqpTimers.Timers.AddByDelivery` | src/amqp/amqp_timers.c:149-155 | the same for the map of sent transfers and a delivery id |
| `AmqpTimers.Timers.GetByHandler` | src/amqp/amqp_timers.c:158-173 | the scan returns what the map of waiting transfers has |
| `AmqpTimers.Timers.GetByDelivery` | src/amqp/amqp_timers.c:175-190 | the scan returns what the map of sent transfers has |
| `AmqpTimers.Timers.RemoveByHandler` | src/amqp/amqp_timers.c:193-198 | removes this handle from the map of waiting transfers only |
| `AmqpTimers.Timers.RemoveByDelivery` | src/amqp/amqp_timers.c:200-205 | removes this id from the map of sent transfers only |
| `AmqpTimers.Timers.RemoveIncoming` | src/amqp/amqp_timers.c:208-210 | removes this name from the map of incoming links only |
| `AmqpTimers.Timers.RemoveName` | src/amqp/amqp_timers.c:217-222 | removes this handle from the map to names only |
| `AmqpTimers.Timers.AddIncoming` | src/amqp/amqp_timers.c:229-231 | updates the map of incoming links only |
| `AmqpTimers.Timers.AddOutgoing` | src/amqp/amqp_timers.c:233-235 | updates the map of outgoing links only |
| `AmqpTimers.Timers.AddName` | src/amqp/amqp_timers.c:237-241 | updates the map to names only |
| `AmqpTimers.Timers.GetIncoming` | src/amqp/amqp_timers.c:243-256 | returns the handle of the incoming link, or 0 |
| `AmqpTimers.Timers.GetOutgoing` | src/amqp/amqp_timers.c:258-271 | returns the handle of the outgoing link, or 0 |
| `AmqpTimers.Timers.GetName` | src/amqp/amqp_timers.c:273-288 | the scan returns what the map to names has |
| `AmqpClient.AmqpClient.SendTransfer` | src/amqp/amqp_client.c:354-474 | one step of the state machine, on the hash tables: sent on the topic's handle, or stored under a new handle with an ATTACH |
| `AmqpClient.AmqpClient.SendAttach` | src/amqp/amqp_client.c:476-479 | one step of the state machine: an ATTACH with a new handle |
| `AmqpClient.AmqpClient.SendDetach` | src/amqp/amqp_client.c:301-324 | one step of the state machine |
| `AmqpClient.AmqpClient.ProcessRx` | src/amqp/amqp_client.c:518-685 | every received frame that touches the tables (ATTACH, DISPOSITION, DETACH) and every TRANSFER, with the integers as the client reads them, makes on the hash tables exactly the step of the state machine; OPEN, BEGIN, END, CLOSE and the handshake are left out |
| `AmqpRuns.StepKept` | src/amqp/amqp_client.c:301-685 | every step, whatever the peer sends, keeps the invariant on handles, waiting transfers and deliveries |
| `AmqpRuns.InvariantOfRuns` | src/amqp/amqp_client.c:301-685 | the invariant holds after every run, with any peer |
| `AmqpRuns.NewHandleIsFree` | src/amqp/amqp_client.c:410-416 | after every run outgoing handles are nonzero, distinct and below next_handle, which is in use in none of the maps: not as an outgoing or an incoming handle, nor under a name or a waiting transfer |
| `AmqpRuns.WhereTransfersAre` | src/amqp/amqp_client.c:545-631 | over every run, with any peer, a transfer is on the wire exactly once, except that a deferred one waits unsent, under the handle of its topic and under no other, until the echo; an unsettled deferred one is then kept under its id until the client reads this id in a disposition, which it never does above 255 |
| `AmqpRuns.ClearedExactly` | src/amqp/header_factory.c:829-832 | over every run with a peer that disposes of each transfer it received alone, the client reads the id of a disposition if and only if it is at most 255 |
| `AmqpRuns.KeptExactly` | src/amqp/amqp_client.c:620-633 | over every such run, an unsettled transfer sent after its echo has left the map of deliveries if and only if it was disposed of and its id is at most 255 |
| `AmqpRuns.EchoIgnored` | src/amqp/amqp_client.c:551-577 | an echo for an unknown topic or a second echo changes nothing and sends no frame at all |
| `AmqpOrder.OrderOfRuns` | src/amqp/amqp_client.c:354-577 | over every run, the first transfer of each topic is its deferred one, and the wire is in order topic by topic except where one was handed over during the wait and the echo has come |
| `AmqpOrder.OrderKeptExactly` | src/amqp/amqp_client.c:400-577 | after every run, the transfers of a topic are on the wire in the order they were handed over if and only if not both: one was handed over while the topic waited for its echo, and the echo has come |
| `AmqpOrder.OvertakesExactly` | src/amqp/amqp_client.c:400-410 | after every run, the next transfer is sent before an earlier one of its topic if and only if the topic waits for its echo |
| `AmqpOrder.SecondGoesFirst` | src/amqp/amqp_client.c:400-577 | two transfers on a new topic and its echo, after any counters: the second is on the wire before the first |
| `AmqpIntegers.ReceivedIsRead` | src/amqp/wrappers/unwrapper.c:207-223 | from every encoding of an unsigned integer, anywhere in a buffer, the parser and the unwrapper make the number the state machine receives |
| `AmqpIntegers.ArrivesExactly` | src/amqp/wrappers/unwrapper.c:207-223 | an integer arrives as it was sent if and only if it was written in at most one byte or is 0 |
| `AmqpIntegers.AttachRaisesLittle` | src/amqp/amqp_client.c:579-590 | a received ATTACH leaves next_handle or raises it to at most 256 |
| `AmqpIntegers.PeerHandleExactly` | src/amqp/amqp_client.c:579-650 | a link of the peer is stored under its handle, and a detached one loses its name, if and only if the handle arrives |
| `AmqpIntegers.AnswerExactly` | src/amqp/amqp_client.c:603-613 | an unsettled transfer received is answered by a disposition with its id if and only if that id arrives |
| `AmqpIntegers.ReleasedExactly` | src/amqp/amqp_client.c:620-633 | on the run of a transfer, its echo and any disposition, the transfer is released if and only if the first id is read as its id |
| `AmqpIntegers.KeptThoughDisposed` | src/amqp/amqp_client.c:620-633 | on the run of a transfer numbered above 255, its echo and its own disposition, the transfer is kept |
| `AmqpLimits.HandleFoundExactly` | src/amqp/amqp_timers.c:233-271 | the handle stored for a new link is found again if and only if it is no multiple of 65536 |
| `AmqpLimits.LinkFoundExactly` | src/amqp/amqp_client.c:400-478 | after n subscriptions from any handle, the link requested for a transfer on a new topic is found again if and only if its handle is no multiple of 65536 |
| `AmqpLimits.AttachesUseUpHandles` | src/amqp/amqp_client.c:400-577 | after the subscriptions that take the handles up to 65535, two transfers on a new topic both ask for the link, the echo sends the second, and the first is left under handle 0 |
| `TlvFactory.GetTlv` | src/amqp/tlv_factory.c:36-43 | the parser always ends, and each value it returns has moved the cursor forward inside the buffer |
| `TlvFactory.GetConstructor` | src/amqp/tlv_factory.c:260-278 | each constructor consumes at least one byte |
| `TlvReader.Reader.ReadTlv` | src/amqp/tlv_factory.c:36-43 | on a shared cursor returns the value and the position of the specification, or nothing exactly where that leaves the memory |
| `TlvReader.Reader.ReadConstructor` | src/amqp/tlv_factory.c:260-278 | the same for constructors with nested descriptors |
| `TlvReader.Reader.ReadElement` | src/amqp/tlv_factory.c:45-252 | the same for every type code |
| `TlvReader.Reader.ReadItems` | src/amqp/tlv_factory.c:145-158 | the loop over the items of a list |
| `TlvReader.Reader.ReadEntries` | src/amqp/tlv_factory.c:173-192 | the loop over a map up to the position its size gives, without overrunning the array its count gives |
| `TlvReader.Reader.ReadElements` | src/amqp/tlv_factory.c:214-229 | the loop over the elements of an array with one constructor |
| `TlvWriter.ParseEncoded` | src/amqp/tlv_factory.c:36-278 | the parse of a serialised tree, at any depth and anywhere in a buffer: codes, bytes, descriptors and children, except the children of lists above 255 bytes; the cursor moves by exactly the encoded length |
| `TlvWriter.ReadWire` | src/amqp/header_factory.c:465-575 | reading the parsed tree gives the tree back if and only if it has no integer above 255, no 16-bit integer of two different bytes and no list above 255 bytes; the source has unwrappers for leaves and reads lists field by field, as here |
| `TlvWriter.RoundTrip` | src/amqp/header_factory.c:710-804 | wrapping, serialising, parsing and reading field by field is the identity if and only if the tree has no integer above 255, no 16-bit integer of two different bytes and no text or list above 255 bytes; the cursor ends behind the value unless it has a text above 255 bytes |
| `AmqpLists.SizeIsSum` | src/amqp/amqp_parser.c:805-807 | the size added up from the present fields and one byte for each null before the last is the length of the elements sent |
| `AmqpLists.ListBuilder.Add` | src/amqp/amqp_parser.c:682-702 | one if and else of a list keeps count, size and elements in step |
| `AmqpLists.ListBuilder.Finish` | src/amqp/amqp_calc.c:47-121 | the bytes of the list are the encoding of the fields up to the last one present; without any field the count was never set |
| `AmqpLists.OptionalFieldsSurvive` | src/amqp/header_factory.c:710-804 | the reader sees each field exactly where it was present and as it was wrapped, if and only if the size is at most 255; above that there is no list, or one without children |
| `AmqpTransfers.AddArguments` | src/amqp/amqp_parser.c:669-810 | the fields of a TRANSFER in their order; refused without a handle, a crash with an aborted flag |
| `AmqpTransfers.AddSection` | src/amqp/amqp_parser.c:225-241 | the bytes of a DATA section; above 255 bytes with one byte of length and the three bytes behind the data |
| `AmqpTransfers.Send` | src/amqp/amqp_parser.c:126-203 | the frame with its length written last over its front is the specified one, for DATA of any size |
| `AmqpTransfers.Decode` | src/amqp/amqp_parser.c:55-128 | the decoder with its cursor, and the channel in a signed 16-bit variable, returns what the specification says for every buffer |
| `AmqpTransfers.FrameRoundTrip` | src/amqp/amqp_parser.c:55-203 | a TRANSFER with or without DATA, whose length fits an int, starts with its length, and decodes to what was encoded if and only if the channel is in -32768..32767, the data has at most 255 bytes, the integers are at most 255 and the list has at most 255 bytes |
| `AmqpFrames.DataReceived` | src/amqp/amqp_client.c:481-517 | the receive loop hands on exactly the frames of the specification |
| `AmqpFrames.SplitsExactly` | src/amqp/amqp_client.c:507-516 | received bytes are cut into given frames if and only if the frames make up the bytes and each starts with its length |
| `AmqpFrames.StreamRoundTrip` | src/amqp/amqp_client.c:481-517 | transfers sent one after another each decode exactly if they fit, and are cut into their frames if and only if the first of several is not 1095586128 bytes long, which reads as a protocol header |
| `DyadVec.Vec.Expand` | src/net/dyad.c:103-112 | doubles the capacity when the next element does not fit, and keeps the contents |
| `DyadVec.Vec.Push` | src/net/dyad.c:145-148 | appends one element |
| `DyadVec.Vec.Splice` | src/net/dyad.c:114-121 | removes exactly the given range |
| `DyadStream.Stream.HandleLines` | src/net/dyad.c:551-585 | emits the lines of the kept bytes and the chunk, and keeps the unfinished rest, while it overwrites the buffer |
| `DyadStream.Stream.Write` | src/net/dyad.c:1041-1047 | appends the bytes to the queue |
| `DyadStream.Stream.Flush` | src/net/dyad.c:623-665 | one flush of the queue machine: sends a prefix, keeps the rest, closes or becomes ready when empty |
| `DyadStream.Stream.End` | src/net/dyad.c:941-948 | closing while bytes are queued, closed otherwise |
| `DyadStream.Stream.Close` | src/net/dyad.c:922-938 | closed with both buffers empty |
| `DyadStream.HandleAll` | src/net/dyad.c:517-585 | for every division of the input into chunks the lines emitted are those of the whole input and the bytes kept its unfinished rest |
| `DyadLines.NoNewlineInside` | src/net/dyad.c:556-579 | pieces and rest contain no newline and make up the input |
| `DyadLines.SplitUnique` | src/net/dyad.c:556-579 | there is no other way to read an input so |
| `DyadLines.LinesArePieces` | src/net/dyad.c:556-579 | each line is its piece without one carriage return at its end, if it had one |
| `DyadLines.ChunkingIsInvisible` | src/net/dyad.c:551-585 | splitting chunk by chunk is splitting the concatenation |
| `DyadQueue.BytesAreConserved` | src/net/dyad.c:623-665 | over every run of writes, flushes with any partial send, end and close: bytes sent followed by bytes queued are the bytes written; a closing stream has a queue; one ended and not broken has sent everything |
| `DyadQueue.ClosingDrains` | src/net/dyad.c:648-654 | flushes that take the queue piece by piece close a closing stream with the last one |
| `Coap.WriteOptions` | src/coap/coap_parser.c:51-107 | the option loop writes the specified encoding |
| `Coap.ReadOptions` | src/coap/coap_parser.c:171-228 | the option loop decodes as specified on every buffer |
| `Coap.OptionsRoundTrip` | src/coap/coap_parser.c:51-107 | decoding gives the options back and stops at the marker if and only if every delta is in 0..254 or 269..65804 and every length at most 254 |
| `Coap.HeaderIsNoMarker` | src/coap/coap_parser.c:56-83 | no option begins with the payload marker |
| `CoapMessages.Write` | src/coap/coap_parser.c:26-117 | the whole message |
| `CoapMessages.MessageRoundTrip` | src/coap/coap_parser.c:119-241 | a message comes back if and only if its type is 0 or 2, its token has at most 8 bytes, its options are as above and the byte behind it in memory is 0 |
| `Base64.BuildTable` | src/ws/base64_parser.c:103-109 | the table inverts the alphabet whatever it held before |
| `Base64.EncodeShape` | src/ws/base64_parser.c:37-64 | output length and padding of section 4 of RFC 4648 |
| `Base64.EncodeData` | src/ws/base64_parser.c:37-64 | the loops over the arrays compute the encoding, inside their bounds |
| `Base64.DecodeData` | src/ws/base64_parser.c:67-100 | the loop decodes as specified, inside the bounds, with any table; the empty string makes it read in front of the input |
| `Base64.DecodeEncode` | src/ws/base64_parser.c:37-100 | decoding gives back what was encoded if and only if that is not empty |
| `Base64.EncodeDecode` | src/ws/base64_parser.c:37-100 | for every string, decoding and encoding gives it back if and only if it is canonical |
| `Utf8.Check` | src/helpers.c:38-71 | returns null exactly for concatenations of the sequences of section 4 of RFC 3629 without U+FFFE and U+FFFF, else the start of the first place where no sequence fits; never reads behind the terminator |
| `Utf8.Step` | src/helpers.c:40-68 | the bit tests find the length of the only sequence at a place |
| `Utf8.LengthIsSequence` | src/helpers.c:40-68 | at a place there is at most one sequence, of that length |
| `MqttLength.AddPacketLength` | src/helpers.c:123-138 | writes the base-128 digits and nothing else |
| `MqttLength.CountsAgree` | src/helpers.c:106-121 | the bytes written are as many as announced if and only if the length is at most 26843545; four suffice exactly up to 268435455 |
| `MqttLength.DecodeRemainingLength` | src/mqtt/parser.c:715-741 | the loop as written: the first byte, an error, or nothing where the buffer ends before it |
| `MqttLength.LengthRoundTrip` | src/mqtt/parser.c:715-741 | the decoder returns an encoded length and its one byte if it is at most 127, and an error otherwise; the algorithm of section 2.2.3 of MQTT 3.1.1 reads it back if and only if it is at most 268435455 |
| `MqttLength.DataReceived` | src/mqtt/mqtt_client.c:245-260 | the receive loop hands on exactly the packets of the specification |
| `MqttLength.StreamSplits` | src/mqtt/mqtt_client.c:245-260 | a stream of packets is cut into them if and only if each body has at most 127 bytes |
| `SnFlags.Decode` | src/mqttsn/sn_parser.c:436-495 | the loop over the masks reads the bits of the flags byte |
| `SnFlags.MeaningOfEncode` | src/mqttsn/sn_parser.c:499-521 | the bits of an encoded flags byte are its fields |
| `SnCodec.Write` | src/mqttsn/sn_parser.c:524-783 | fills the buffer with length, type and body, each string cut to the low 16 bits of its length |
| `SnCodec.LengthIsWritten` | src/mqttsn/sn_parser.c:90-282 | the bytes written are as many as announced, across the threshold of one and three octets, if and only if CONNECT and PINGREQ stay within 255, every other string counted is shorter than 65536, and a publish names its topic in two octets |
| `SnCodec.PacketRoundTrip` | src/mqttsn/sn_parser.c:785-1106 | of CONNECT, WILLMSG, REGISTER, REGACK, PUBLISH, PUBREC, PUBREL, PUBCOMP, SUBSCRIBE, UNSUBSCRIBE, PINGREQ and DISCONNECT decoding gives a packet back if and only if it is not a subscription or a publish by name, its length was counted and is below 65536, and the data of a PUBLISH and the client id of a PINGREQ, where present, are not empty |

## Left out

- Sockets, select, DNS, TLS, libwebsockets and threads: calls into code outside the repository. The timers and their
  tasks are left out with them; `Resend` models one entry of the resend scan, which the code defines and never starts.
- Freeing of nodes and of packets.
- Received packets and frames that do not reach the tables: CONNACK, WILLTOPICREQ, WILLMSGREQ, DISCONNECT, OPEN, BEGIN,
  END, CLOSE and the SASL handshake. CONNACK and OPEN reset the tables; every run starts from there.
- Received AMQP frames on which the decoder or the handler uses a null or unset pointer: an ATTACH or DETACH without a
  handle, a TRANSFER or DISPOSITION without its id, a role or an integer of another type, a TRANSFER without DATA, and a
  name or a list above 255 bytes. They are not events; what the decoder makes of them is in `TlvWriter`, `AmqpLists` and
  `AmqpTransfers`.
- `TlvWriter.ParseEncoded`: where the cursor ends behind a text above 255 bytes, whose four-byte width is written low
  byte first; that such a text never comes back is part of `TlvWriter.RoundTrip`.
- `AmqpTransfers.FrameRoundTrip`: a second section and sections other than DATA are outcomes of the decoder but are not
  sent; the count of sections the decoder stores and the tag length it does not store are left out.
- `SnCodec.PacketRoundTrip`: SUBSCRIBE, UNSUBSCRIBE and a publish by name are written but their decoding is only the
  unset pointer it goes through; GWINFO, WILLTOPIC, the update packets and the gateway's answers with fixed fields are
  left out.
- The buffer of `coap_encode` has 256 bytes and that of `sn_encode` the announced length; the model lets them grow.
- `DyadStream.Stream.HandleLines`: listeners that close the stream or remove listeners during an event are not modelled.
- Message bodies of MQTT, OPEN, BEGIN, ATTACH and DISPOSITION frames beyond the list pattern they share with TRANSFER,
  SASL, the WebSocket JSON layer, configuration and output: straight-line code that copies one field after another.
- `int` overflow of counters above 2147483647: counters are unbounded.
