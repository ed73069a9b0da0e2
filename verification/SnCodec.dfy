// The MQTT-SN packet codec of src/mqttsn/sn_parser.c: announced and written
// lengths, and what decoding gives back.
module SnCodec {
  import opened Bits
  import opened Bytes
  import opened Wrappers
  import SnFlags

  type Short = n: int | 0 <= n < 65536

  datatype Topic = Named(value: Buffer) | ShortName(value: Buffer) | ById(id: Short)

  datatype Packet =
    | Connect(will: bool, clean: bool, protocolId: byte, duration: Short, clientId: Buffer)
    | WillMessage(message: Buffer)
    | Register(topicId: Short, messageId: Short, name: Buffer)
    | Regack(topicId: Short, messageId: Short, code: byte)
    | Publish(dup: bool, qos: nat, retain: bool, topic: Topic, messageId: Short, data: Buffer)
    | Pubrec(messageId: Short)
    | Pubrel(messageId: Short)
    | Pubcomp(messageId: Short)
    | Subscribe(dup: bool, qos: nat, topic: Topic, messageId: Short)
    | Unsubscribe(topic: Topic, messageId: Short)
    | Pingreq(client: Option<Buffer>)
    | Disconnect(duration: Short)

  predicate Valid(p: Packet) {
    (p.Publish? || p.Subscribe?) ==> p.qos <= 3
  }

  // enum SnMessageType
  function KindOf(p: Packet): byte {
    match p
    case Connect(_, _, _, _, _) => 0x04
    case WillMessage(_) => 0x09
    case Register(_, _, _) => 0x0A
    case Regack(_, _, _) => 0x0B
    case Publish(_, _, _, _, _, _) => 0x0C
    case Pubcomp(_) => 0x0E
    case Pubrec(_) => 0x0F
    case Pubrel(_) => 0x10
    case Subscribe(_, _, _, _) => 0x12
    case Unsubscribe(_, _) => 0x14
    case Pingreq(_) => 0x16
    case Disconnect(_) => 0x18
  }

  function TypeOf(t: Topic): nat {
    match t
    case Named(_) => SnFlags.NAMED
    case ById(_) => SnFlags.ID
    case ShortName(_) => SnFlags.SHORT
  }

  // Two octets of length more above a threshold.
  function Long(n: nat, threshold: nat): nat {
    if n > threshold then 2 else 0
  }

  // sn_get_length
  function GetLength(p: Packet): nat {
    match p
    case Connect(_, _, _, _, clientId) => 6 + |clientId|
    case WillMessage(message) => 2 + |message| + Long(|message|, 253)
    case Register(_, _, name) => 6 + |name| + Long(|name|, 249)
    case Regack(_, _, _) => 7
    case Publish(_, _, _, _, _, data) => 7 + |data| + Long(|data|, 248)
    case Pubrec(_) => 4
    case Pubrel(_) => 4
    case Pubcomp(_) => 4
    case Subscribe(_, _, topic, _) => if topic.ById? then 7 else 5 + |topic.value| + Long(|topic.value|, 250)
    case Unsubscribe(topic, _) => if topic.ById? then 7 else 5 + |topic.value| + Long(|topic.value|, 250)
    case Pingreq(client) => 2 + (if client.Some? then |client.value| else 0)
    case Disconnect(duration) => if duration > 0 then 4 else 2
  }

  function FlagsOf(p: Packet): byte
    requires Valid(p)
  {
    match p
    case Connect(will, clean, _, _, _) => SnFlags.Encode(SnFlags.Flags(false, 0, false, will, clean, 0))
    case Publish(dup, qos, retain, topic, _, _) =>
      SnFlags.Encode(SnFlags.Flags(dup, qos, retain, false, false, TypeOf(topic)))
    case Subscribe(dup, qos, topic, _) => SnFlags.Encode(SnFlags.Flags(dup, qos, false, false, false, TypeOf(topic)))
    case Unsubscribe(topic, _) => SnFlags.Encode(SnFlags.Flags(false, 0, false, false, false, TypeOf(topic)))
    case _ => 0
  }

  // The part of a string that is copied: its length goes through an unsigned
  // short.
  function Copied(s: Buffer): (r: Buffer)
    ensures |s| < USHORT ==> r == s
  {
    s[..|s| % USHORT]
  }

  function TopicBytes(t: Topic): Buffer {
    if t.ById? then AddShort(t.id) else Copied(t.value)
  }

  // What sn_encode writes behind the type.
  function Body(p: Packet): Buffer
    requires Valid(p)
  {
    match p
    case Connect(_, _, protocolId, duration, clientId) =>
      [FlagsOf(p), protocolId] + AddShort(duration) + Copied(clientId)
    case WillMessage(message) => Copied(message)
    case Register(topicId, messageId, name) => AddShort(topicId) + AddShort(messageId) + Copied(name)
    case Regack(topicId, messageId, code) => AddShort(topicId) + AddShort(messageId) + [code]
    case Publish(_, _, _, topic, messageId, data) =>
      [FlagsOf(p)] + TopicBytes(topic) + AddShort(messageId) + Copied(data)
    case Pubrec(messageId) => AddShort(messageId)
    case Pubrel(messageId) => AddShort(messageId)
    case Pubcomp(messageId) => AddShort(messageId)
    case Subscribe(_, _, topic, messageId) => [FlagsOf(p)] + AddShort(messageId) + TopicBytes(topic)
    case Unsubscribe(topic, messageId) => [FlagsOf(p)] + AddShort(messageId) + TopicBytes(topic)
    case Pingreq(client) => if client.Some? then Copied(client.value) else []
    case Disconnect(duration) => if duration > 0 then AddShort(duration) else []
  }

  // One or three octets of length, section 5.2.1 of MQTT-SN 1.2.
  function LengthBytes(length: nat): (bytes: Buffer)
    ensures |bytes| == if length <= 255 then 1 else 3
  {
    if length <= 255 then [length] else [1] + AddShort(length)
  }

  // sn_encode on the length of sn_get_length
  function Encode(p: Packet): Buffer
    requires Valid(p)
  {
    LengthBytes(GetLength(p)) + [KindOf(p)] + Body(p)
  }

  // sn_encode: the buffer as it is filled.
  method Write(p: Packet, length: nat) returns (buf: Buffer)
    requires Valid(p) && length == GetLength(p)
    ensures buf == Encode(p)
  {
    if length <= 255 {
      buf := [length];
    } else {
      buf := [1];
      buf := buf + AddShort(length);
    }
    buf := buf + [KindOf(p)];
    var body := WriteBody(p, length);
    buf := buf + body;
  }

  // The switch of sn_encode.
  method WriteBody(p: Packet, length: nat) returns (buf: Buffer)
    requires Valid(p) && length == GetLength(p)
    ensures buf == Body(p)
  {
    buf := [];
    match p {
      case Connect(_, _, protocolId, duration, clientId) =>
        buf := [FlagsOf(p)];
        buf := buf + [protocolId];
        buf := buf + AddShort(duration);
        buf := AppendString(buf, clientId);
      case WillMessage(message) =>
        buf := AppendString(buf, message);
      case Register(topicId, messageId, name) =>
        buf := AddShort(topicId);
        buf := buf + AddShort(messageId);
        buf := AppendString(buf, name);
      case Regack(topicId, messageId, code) =>
        buf := AddShort(topicId);
        buf := buf + AddShort(messageId);
        buf := buf + [code];
      case Publish(_, _, _, topic, messageId, data) =>
        buf := [FlagsOf(p)];
        buf := AppendTopic(buf, topic);
        buf := buf + AddShort(messageId);
        buf := AppendString(buf, data);
      case Pubrec(messageId) =>
        buf := AddShort(messageId);
      case Pubrel(messageId) =>
        buf := AddShort(messageId);
      case Pubcomp(messageId) =>
        buf := AddShort(messageId);
      case Subscribe(_, _, topic, messageId) =>
        buf := [FlagsOf(p)];
        buf := buf + AddShort(messageId);
        buf := AppendTopic(buf, topic);
      case Unsubscribe(topic, messageId) =>
        buf := [FlagsOf(p)];
        buf := buf + AddShort(messageId);
        buf := AppendTopic(buf, topic);
      case Pingreq(client) =>
        if length > 2 {
          buf := AppendString(buf, client.value);
        }
      case Disconnect(duration) =>
        if length > 2 {
          buf := AddShort(duration);
        }
    }
  }

  method AppendString(buf: Buffer, s: Buffer) returns (r: Buffer)
    ensures r == buf + Copied(s)
  {
    r := buf;
    var length := |s| % USHORT;
    if length != 0 {
      r := r + s[..length];
    }
  }

  method AppendTopic(buf: Buffer, topic: Topic) returns (r: Buffer)
    ensures r == buf + TopicBytes(topic)
  {
    if topic.ById? {
      r := buf + AddShort(topic.id);
    } else {
      r := AppendString(buf, topic.value);
    }
  }

  // ----- Lengths -----

  predicate Copies(s: Buffer) {
    |s| < USHORT
  }

  // Where sn_get_length counts what sn_encode writes: CONNECT and PINGREQ leave
  // out the two more octets of a long packet, PUBLISH counts two octets for any
  // topic, and strings are counted whole but not copied whole.
  predicate Counted(p: Packet) {
    match p
    case Connect(_, _, _, _, _) => GetLength(p) <= 255
    case Pingreq(_) => GetLength(p) <= 255
    case WillMessage(message) => Copies(message)
    case Register(_, _, name) => Copies(name)
    case Publish(_, _, _, topic, _, data) => Copies(data) && (topic.ById? || |Copied(topic.value)| == 2)
    case Subscribe(_, _, topic, _) => topic.ById? || Copies(topic.value)
    case Unsubscribe(topic, _) => topic.ById? || Copies(topic.value)
    case _ => true
  }

  lemma LengthIsWritten(p: Packet)
    requires Valid(p)
    ensures |Encode(p)| == GetLength(p) <==> Counted(p)
  {
    hide FlagsOf;
    assert |Encode(p)| == |LengthBytes(GetLength(p))| + 1 + |Body(p)|;
  }

  // ----- Decoding -----

  // Unset: a pointer that is read was never set. Overrun: bytes beyond the
  // buffer, or a string of negative length. Other: a packet not modelled here.
  datatype Decoded = Got(packet: Packet) | Unset | Overrun | Other(kind: byte)

  function GetString(buf: Buffer, i: nat, left: int): Option<Buffer> {
    if 0 <= left && i + left <= |buf| then Some(buf[i..i + left]) else None
  }

  function DecodeConnect(buf: Buffer, left: int): Decoded {
    if |buf| < 4 || GetString(buf, 4, left - 4) == None then Overrun
    else
      var f := SnFlags.Meaning(buf[0]);
      Got(Connect(f.will, f.clean, buf[1], GetShort(buf, 2), GetString(buf, 4, left - 4).value))
  }

  function DecodeRegister(buf: Buffer, left: int): Decoded {
    if |buf| < 4 || GetString(buf, 4, left - 4) == None then Overrun
    else Got(Register(GetShort(buf, 0), GetShort(buf, 2), GetString(buf, 4, left - 4).value))
  }

  // The topic type is not kept, a short name points to a dead local, and
  // without content the data pointer is never set.
  function DecodePublish(buf: Buffer, left: int): Decoded {
    if |buf| < 5 then Overrun
    else
      var f := SnFlags.Meaning(buf[0]);
      if f.topicType == SnFlags.SHORT || left - 5 <= 0 then Unset
      else if GetString(buf, 5, left - 5) == None then Overrun
      else Got(Publish(f.dup, f.qos, f.retain, ById(GetShort(buf, 1)), GetShort(buf, 3),
                       GetString(buf, 5, left - 5).value))
  }

  // The cases of sn_decode, on the buffer behind the type and the bytes left.
  function DecodeBody(kind: byte, buf: Buffer, left: int): Decoded {
    if kind == 0x04 then DecodeConnect(buf, left)
    else if kind == 0x09 then
      if GetString(buf, 0, left) == None then Overrun else Got(WillMessage(GetString(buf, 0, left).value))
    else if kind == 0x0A then DecodeRegister(buf, left)
    else if kind == 0x0B then
      if |buf| < 5 then Overrun else Got(Regack(GetShort(buf, 0), GetShort(buf, 2), buf[4]))
    else if kind == 0x0C then DecodePublish(buf, left)
    else if kind in {0x0E, 0x0F, 0x10} then
      if |buf| < 2 then Overrun
      else
        var id := GetShort(buf, 0);
        Got(if kind == 0x0E then Pubcomp(id) else if kind == 0x0F then Pubrec(id) else Pubrel(id))
    else if kind == 0x12 || kind == 0x14 then Unset
    else if kind == 0x16 then
      if left <= 0 then Got(Pingreq(None))
      else if GetString(buf, 0, left) == None then Overrun
      else Got(Pingreq(GetString(buf, 0, left)))
    else if kind == 0x18 then
      if left <= 0 then Got(Disconnect(0)) else if |buf| < 2 then Overrun else Got(Disconnect(GetShort(buf, 0)))
    else Other(kind)
  }

  // sn_decode
  function Decode(buf: Buffer): Decoded {
    if buf == [] || (buf[0] == 1 && |buf| < 3) then Overrun
    else
      var length, i := if buf[0] == 1 then GetShort(buf, 1) else buf[0] as int, if buf[0] == 1 then 3 else 1;
      if i == |buf| then Overrun else DecodeBody(buf[i], buf[i + 1..], length - i - 1)
  }

  // ----- What comes back -----

  // The packets that decoding gives back: not the requests of a subscriber, a
  // topic only as an id, data and a client id only with content, and a length
  // that was counted and fits sixteen bits.
  predicate Carried(p: Packet) {
    && !p.Subscribe? && !p.Unsubscribe?
    && (p.Publish? ==> p.topic.ById? && p.data != [])
    && (p.Pingreq? ==> p.client != Some([]))
    && (p.Connect? || p.Pingreq? ==> GetLength(p) <= 255)
    && GetLength(p) < USHORT
  }

  lemma ShortReadsBack(front: Buffer, n: Short, tail: Buffer)
    ensures GetShort(front + AddShort(n) + tail, |front|) == n
  {
    ShortRoundTrip(n);
  }

  lemma StringReadsBack(front: Buffer, s: Buffer, rest: Buffer, left: int)
    requires left <= |s|
    ensures GetString(front + s + rest, |front|, left) == Some(s) <==> left == |s|
  {
    assert (front + s + rest)[|front|..|front| + |s|] == s;
  }

  // The length that is read where this one was written.
  function LengthRead(length: nat): nat {
    if length <= 255 then length else length % USHORT
  }

  lemma DecodeHead(length: nat, kind: byte, body: Buffer, rest: Buffer)
    requires 2 <= length
    ensures Decode(LengthBytes(length) + [kind] + body + rest) ==
            DecodeBody(kind, body + rest, LengthRead(length) - |LengthBytes(length)| - 1)
  {
    var front := LengthBytes(length);
    var buf := front + [kind] + body + rest;
    ShortRoundTrip(length);
    assert buf[|front|] == kind && buf[|front| + 1..] == body + rest;
  }

  // The bytes left for the body.
  function Left(p: Packet): int {
    LengthRead(GetLength(p)) - |LengthBytes(GetLength(p))| - 1
  }

  // They are the body, or two less in a long CONNECT or PINGREQ.
  lemma LeftIsBody(p: Packet)
    requires Valid(p) && (p.Publish? ==> p.topic.ById?) && GetLength(p) < USHORT
    ensures Left(p) == |Body(p)| - (if (p.Connect? || p.Pingreq?) && GetLength(p) > 255 then 2 else 0)
  {
    hide FlagsOf;
  }

  // What is left of a length that does not fit is too short for the string in it.
  lemma TooLongIsLost(p: Packet, buf: Buffer)
    requires GetLength(p) >= USHORT
    ensures DecodeBody(KindOf(p), buf, Left(p)) != Got(p)
  {
    assert Left(p) < GetLength(p) - 4;
  }

  lemma ConnectParts(flags: byte, protocolId: byte, duration: Short, clientId: Buffer, rest: Buffer, left: int)
    requires left <= |clientId|
    ensures var buf := [flags, protocolId] + AddShort(duration) + clientId + rest;
      && buf[0] == flags && buf[1] == protocolId && GetShort(buf, 2) == duration
      && (GetString(buf, 4, left) == Some(clientId) <==> left == |clientId|)
  {
    var front := [flags, protocolId];
    assert front + AddShort(duration) + clientId + rest == front + AddShort(duration) + (clientId + rest);
    ShortReadsBack(front, duration, clientId + rest);
    StringReadsBack(front + AddShort(duration), clientId, rest, left);
  }

  lemma ConnectDecoded(flags: byte, p: Packet, rest: Buffer, left: int)
    requires p.Connect? && SnFlags.Meaning(flags).will == p.will && SnFlags.Meaning(flags).clean == p.clean
    requires left <= |p.clientId|
    ensures
      DecodeConnect([flags, p.protocolId] + AddShort(p.duration) + p.clientId + rest, left + 4) == Got(p)
      <==> left == |p.clientId|
  {
    ConnectParts(flags, p.protocolId, p.duration, p.clientId, rest, left);
  }

  lemma ConnectReadsBack(p: Packet, rest: Buffer)
    requires p.Connect? && GetLength(p) < USHORT
    ensures DecodeBody(KindOf(p), Body(p) + rest, Left(p)) == Got(p) <==> Carried(p)
  {
    LeftInConnect(p);
    SnFlags.MeaningOfEncode(SnFlags.Flags(false, 0, false, p.will, p.clean, 0));
    ConnectDecoded(FlagsOf(p), p, rest, Left(p) - 4);
  }

  lemma LeftInConnect(p: Packet)
    requires p.Connect? && GetLength(p) < USHORT
    ensures Left(p) - 4 <= |p.clientId| && Copied(p.clientId) == p.clientId
    ensures Left(p) - 4 == |p.clientId| <==> Carried(p)
  {
  }

  lemma RegisterReadsBack(p: Packet, rest: Buffer)
    requires p.Register? && GetLength(p) < USHORT
    ensures DecodeBody(KindOf(p), Body(p) + rest, Left(p)) == Got(p)
  {
    LeftIsBody(p);
    var buf := Body(p) + rest;
    assert buf == [] + AddShort(p.topicId) + (AddShort(p.messageId) + p.name + rest);
    ShortReadsBack([], p.topicId, AddShort(p.messageId) + p.name + rest);
    assert buf == AddShort(p.topicId) + AddShort(p.messageId) + (p.name + rest);
    ShortReadsBack(AddShort(p.topicId), p.messageId, p.name + rest);
    assert buf == (AddShort(p.topicId) + AddShort(p.messageId)) + p.name + rest;
    StringReadsBack(AddShort(p.topicId) + AddShort(p.messageId), p.name, rest, Left(p) - 4);
  }

  lemma RegackReadsBack(p: Packet, rest: Buffer)
    requires p.Regack?
    ensures DecodeBody(KindOf(p), Body(p) + rest, Left(p)) == Got(p)
  {
    var buf := Body(p) + rest;
    assert buf == [] + AddShort(p.topicId) + (AddShort(p.messageId) + [p.code] + rest);
    ShortReadsBack([], p.topicId, AddShort(p.messageId) + [p.code] + rest);
    assert buf == AddShort(p.topicId) + AddShort(p.messageId) + ([p.code] + rest);
    ShortReadsBack(AddShort(p.topicId), p.messageId, [p.code] + rest);
    assert buf[4] == p.code;
  }

  lemma PublishParts(flags: byte, id: Short, messageId: Short, data: Buffer, rest: Buffer)
    ensures var buf := [flags] + AddShort(id) + AddShort(messageId) + data + rest;
      && buf[0] == flags && GetShort(buf, 1) == id && GetShort(buf, 3) == messageId
      && GetString(buf, 5, |data|) == Some(data)
  {
    var front := [flags] + AddShort(id);
    var buf := front + AddShort(messageId) + data + rest;
    assert buf == [flags] + AddShort(id) + (AddShort(messageId) + data + rest);
    ShortReadsBack([flags], id, AddShort(messageId) + data + rest);
    assert buf == front + AddShort(messageId) + (data + rest);
    ShortReadsBack(front, messageId, data + rest);
    StringReadsBack(front + AddShort(messageId), data, rest, |data|);
  }

  lemma PublishReadsBack(p: Packet, rest: Buffer)
    requires Valid(p) && p.Publish? && p.topic.ById? && GetLength(p) < USHORT
    ensures DecodeBody(KindOf(p), Body(p) + rest, Left(p)) == Got(p) <==> p.data != []
  {
    LeftIsBody(p);
    SnFlags.MeaningOfEncode(SnFlags.Flags(p.dup, p.qos, p.retain, false, false, SnFlags.ID));
    PublishParts(FlagsOf(p), p.topic.id, p.messageId, p.data, rest);
  }

  lemma WillMessageReadsBack(p: Packet, rest: Buffer)
    requires p.WillMessage? && GetLength(p) < USHORT
    ensures DecodeBody(KindOf(p), Body(p) + rest, Left(p)) == Got(p)
  {
    LeftIsBody(p);
    assert [] + p.message == p.message;
    StringReadsBack([], p.message, rest, Left(p));
  }

  lemma IdReadsBack(p: Packet, rest: Buffer)
    requires p.Pubrec? || p.Pubrel? || p.Pubcomp?
    ensures DecodeBody(KindOf(p), Body(p) + rest, Left(p)) == Got(p)
  {
    assert [] + AddShort(p.messageId) == AddShort(p.messageId);
    ShortReadsBack([], p.messageId, rest);
  }

  lemma PingreqReadsBack(p: Packet, rest: Buffer)
    requires p.Pingreq? && GetLength(p) < USHORT
    ensures DecodeBody(KindOf(p), Body(p) + rest, Left(p)) == Got(p) <==> Carried(p)
  {
    LeftIsBody(p);
    if p.client.Some? {
      assert [] + p.client.value == p.client.value;
      StringReadsBack([], p.client.value, rest, Left(p));
    }
  }

  lemma DisconnectReadsBack(p: Packet, rest: Buffer)
    requires p.Disconnect?
    ensures DecodeBody(KindOf(p), Body(p) + rest, Left(p)) == Got(p)
  {
    LeftIsBody(p);
    if p.duration > 0 {
      assert [] + AddShort(p.duration) == AddShort(p.duration);
      ShortReadsBack([], p.duration, rest);
    }
  }

  lemma BodyReadsBack(p: Packet, rest: Buffer)
    requires Valid(p) && GetLength(p) < USHORT
    ensures DecodeBody(KindOf(p), Body(p) + rest, Left(p)) == Got(p) <==> Carried(p)
  {
    if p.Connect? {
      ConnectReadsBack(p, rest);
    } else if p.Register? {
      RegisterReadsBack(p, rest);
    } else if p.Regack? {
      RegackReadsBack(p, rest);
    } else if p.Publish? {
      if p.topic.ById? {
        PublishReadsBack(p, rest);
      }
    } else if p.WillMessage? {
      WillMessageReadsBack(p, rest);
    } else if p.Pingreq? {
      PingreqReadsBack(p, rest);
    } else if p.Disconnect? {
      DisconnectReadsBack(p, rest);
    } else if !p.Subscribe? && !p.Unsubscribe? {
      IdReadsBack(p, rest);
    }
  }

  // A packet comes back exactly when it is carried.
  lemma PacketRoundTrip(p: Packet, rest: Buffer)
    requires Valid(p)
    ensures Decode(Encode(p) + rest) == Got(p) <==> Carried(p)
  {
    var body := Body(p);
    BodyComesBack(p, body, rest);
    DecodeHead(GetLength(p), KindOf(p), body, rest);
  }

  lemma BodyComesBack(p: Packet, body: Buffer, rest: Buffer)
    requires Valid(p) && body == Body(p)
    ensures DecodeBody(KindOf(p), body + rest, Left(p)) == Got(p) <==> Carried(p)
  {
    if GetLength(p) < USHORT {
      BodyReadsBack(p, rest);
    } else {
      TooLongIsLost(p, body + rest);
    }
  }
}
