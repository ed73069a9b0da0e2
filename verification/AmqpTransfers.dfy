// TRANSFER frames: amqp_encode with add_arguments and add_section, amqp_decode
// with init_header and get_section (src/amqp/amqp_parser.c,
// src/amqp/header_factory.c).
module AmqpTransfers {
  import Bits
  import opened Bytes
  import opened Wrappers
  import opened TlvFactory
  import opened TlvReader
  import opened TlvWriter
  import opened AmqpLists

  const TRANSFER: byte := 0x14
  const DATA: byte := 0x75

  // struct AmqpTransfer: None is the null pointer, or a field the reader does
  // not assign.
  datatype Transfer = Transfer(
    handle: Option<nat>,
    deliveryId: Option<nat>,
    deliveryTag: Option<Buffer>,
    messageFormat: Option<nat>,
    settled: Option<bool>,
    more: Option<bool>,
    rcvSettleMode: Option<byte>,
    state: Option<byte>,
    resume: Option<bool>,
    aborted: Option<bool>,
    batchable: Option<bool>)

  function UIntField(f: Option<nat>): Option<Term> {
    if f.Some? then Some(UInt(f.value)) else None
  }

  function BoolField(f: Option<bool>): Option<Term> {
    if f.Some? then Some(Bool(f.value)) else None
  }

  function ByteField(f: Option<byte>): Option<Term> {
    if f.Some? then Some(UByte(f.value)) else None
  }

  function StateField(f: Option<byte>): Option<Term> {
    if f.Some? then Some(State(f.value)) else None
  }

  function BinaryField(f: Option<Buffer>): Option<Term> {
    if f.Some? then Some(Binary(f.value)) else None
  }

  function FieldsOf(t: Transfer): Fields {
    [UIntField(t.handle), UIntField(t.deliveryId), BinaryField(t.deliveryTag), UIntField(t.messageFormat),
     BoolField(t.settled), BoolField(t.more), ByteField(t.rcvSettleMode), StateField(t.state),
     BoolField(t.resume), BoolField(t.aborted), BoolField(t.batchable)]
  }

  // Refused: add_arguments returns a null pointer, which amqp_encode
  // dereferences. Crashed: a null pointer is dereferenced on the way.
  datatype Encoded = Refused | Crashed | Made(bytes: Buffer)

  // The wrapper of a present aborted flag is kept in the wrong variable, and the
  // right one is null.
  function Arguments(t: Transfer): Encoded {
    if t.handle == None then Refused
    else if t.aborted.Some? then Crashed
    else Made(ArgumentBytes(t))
  }

  function ArgumentBytes(t: Transfer): (args: Buffer)
    ensures args != []
  {
    Encode(Described(TRANSFER, Sent(FieldsOf(t))))
  }

  method AddArguments(t: Transfer) returns (r: Encoded)
    ensures r == Arguments(t)
  {
    if t.handle == None {
      return Refused;
    }
    var list := new ListBuilder();
    AddLeading(list, t);
    AddFlags(list, t);
    AddModes(list, t);
    if t.aborted.Some? {
      return Crashed;
    }
    list.Add(BoolField(t.aborted));
    list.Add(BoolField(t.batchable));
    assert list.fields == FieldsOf(t) && FieldsOf(t)[0].Some?;
    var bytes := list.Finish(TRANSFER);
    return Made(bytes.value);
  }

  method AddLeading(list: ListBuilder, t: Transfer)
    requires list.Valid() && list.fields == []
    modifies list
    ensures list.Valid() && list.fields == FieldsOf(t)[..4]
  {
    list.Add(UIntField(t.handle));
    list.Add(UIntField(t.deliveryId));
    list.Add(BinaryField(t.deliveryTag));
    list.Add(UIntField(t.messageFormat));
  }

  method AddFlags(list: ListBuilder, t: Transfer)
    requires list.Valid() && list.fields == FieldsOf(t)[..4]
    modifies list
    ensures list.Valid() && list.fields == FieldsOf(t)[..6]
  {
    list.Add(BoolField(t.settled));
    list.Add(BoolField(t.more));
  }

  method AddModes(list: ListBuilder, t: Transfer)
    requires list.Valid() && list.fields == FieldsOf(t)[..6]
    modifies list
    ensures list.Valid() && list.fields == FieldsOf(t)[..9]
  {
    list.Add(ByteField(t.rcvSettleMode));
    list.Add(StateField(t.state));
    list.Add(BoolField(t.resume));
  }

  // What lies behind a payload in memory.
  type Behind = b: Buffer | |b| == 3 witness [0, 0, 0]

  // The bytes of a DATA section. The length is written into one byte whatever its
  // width is, and with a width of four bytes three bytes too many are copied.
  function Section(data: Buffer, behind: Behind): Buffer {
    if |data| <= 255 then [0, SMALL_ULONG, DATA, BINARY_8, |data|] + data
    else [0, SMALL_ULONG, DATA, BINARY_32, (|data| + 3) % 256] + data + behind
  }

  // add_section
  method AddSection(data: Buffer, behind: Behind) returns (bytes: Buffer)
    ensures bytes == Section(data, behind)
  {
    var wrapped := Encode(Binary(data));
    WrappedData(data, behind);
    bytes := [0, SMALL_ULONG, DATA, wrapped[0], (|wrapped| - 2) % 256];
    bytes := bytes + (data + behind)[..|wrapped| - 2];
  }

  lemma WrappedData(data: Buffer, behind: Behind)
    ensures var wrapped := Encode(Binary(data));
      if |data| <= 255 then
        wrapped[0] == BINARY_8 && |wrapped| - 2 == |data| && (data + behind)[..|data|] == data
      else
        wrapped[0] == BINARY_32 && |wrapped| - 2 == |data| + 3 == |data + behind|
  {
  }

  // A frame to be sent. The channel is an int of which the low sixteen bits go
  // out.
  datatype Message = Message(channel: int, transfer: Transfer, data: Option<Buffer>, behind: Behind)

  function SectionBytes(m: Message): Buffer {
    if m.data.Some? then Section(m.data.value, m.behind) else []
  }

  function FrontOf(length: nat, channel: int): (front: Buffer)
    ensures |front| == 8
  {
    Int32(length) + ([2, 0] + AddShort(channel))
  }

  function FrameBytes(m: Message, args: Buffer): Buffer {
    FrontOf(8 + |args| + |SectionBytes(m)|, m.channel) + args + SectionBytes(m)
  }

  // amqp_encode
  function EncodeFrame(m: Message): Encoded {
    var args := Arguments(m.transfer);
    if args.Made? then Made(FrameBytes(m, args.bytes)) else args
  }

  method Send(m: Message) returns (r: Encoded)
    ensures r == EncodeFrame(m)
  {
    var args := AddArguments(m.transfer);
    if !args.Made? {
      return args;
    }
    var buf := Assemble(m, args.bytes);
    return Made(buf);
  }

  // The frame as it grows; its length is written last, over the first four bytes.
  method Assemble(m: Message, args: Buffer) returns (buf: Buffer)
    ensures buf == FrameBytes(m, args)
  {
    var head := [2, 0] + AddShort(m.channel);
    buf := [0, 0, 0, 0] + head + args;
    if m.data.Some? {
      var section := AddSection(m.data.value, m.behind);
      buf := buf + section;
    }
    LengthLast(Int32(|buf|), head, args, SectionBytes(m), buf);
    buf := Int32(|buf|) + buf[4..];
  }

  lemma LengthLast(length: Buffer, head: Buffer, args: Buffer, section: Buffer, buf: Buffer)
    requires |head| == 4
    requires buf == [0, 0, 0, 0] + head + args + section
    ensures length + buf[4..] == length + head + args + section
  {
    assert buf[4..] == head + args + section;
  }

  // ----- Reading -----

  function UIntAt(v: Tlv, k: nat): Option<nat> {
    match FieldAt(v, k)
    case None => None
    case Some(x) => match Read(x) { case Some(UInt(n)) => Some(n) case _ => None }
  }

  function BoolAt(v: Tlv, k: nat): Option<bool> {
    match FieldAt(v, k)
    case None => None
    case Some(x) => match Read(x) { case Some(Bool(b)) => Some(b) case _ => None }
  }

  function ByteAt(v: Tlv, k: nat): Option<byte> {
    match FieldAt(v, k)
    case None => None
    case Some(x) => match Read(x) { case Some(UByte(n)) => Some(n) case _ => None }
  }

  function BinaryAt(v: Tlv, k: nat): Option<Buffer> {
    match FieldAt(v, k)
    case None => None
    case Some(x) => match Read(x) { case Some(Binary(s)) => Some(s) case _ => None }
  }

  function StateAt(v: Tlv, k: nat): Option<byte> {
    match FieldAt(v, k)
    case None => None
    case Some(x) => HeaderOf(x)
  }

  // The TRANSFER case of init_header. Crashed where a null or unset pointer is
  // dereferenced: the children of a LIST_32, a format or a mode of another type,
  // a state without a descriptor.
  datatype Decoded = Malformed | Ping | Proto(id: byte) | Fault | Other(header: byte) |
                     Frame(channel: int, transfer: Transfer, data: Option<Buffer>)

  function ReadTransfer(v: Tlv): Option<Transfer> {
    if !v.value.List? && !(v.value.Hollow? && v.value.count == 0) then None
    else if FieldAt(v, 3).Some? && UIntAt(v, 3) == None then None
    else if FieldAt(v, 6).Some? && ByteAt(v, 6) == None then None
    else if FieldAt(v, 7).Some? && StateAt(v, 7) == None then None
    else Some(Transfer(
      UIntAt(v, 0), UIntAt(v, 1), BinaryAt(v, 2), UIntAt(v, 3), BoolAt(v, 4), BoolAt(v, 5),
      ByteAt(v, 6), StateAt(v, 7), BoolAt(v, 8), BoolAt(v, 9), BoolAt(v, 10)))
  }

  // get_section and the loop around it: only DATA sections are built, and the
  // array has room for one.
  function ReadSections(buf: Buffer, i: nat): Parsed<Option<Buffer>>
    requires i <= |buf|
  {
    if i == |buf| then Good(None, i)
    else
      var s := GetTlv(buf, i);
      if s.Undefined? || s.next < |buf| || HeaderOf(s.value) != Some(DATA) then Undefined
      else if s.value.code != BINARY_8 || !s.value.value.Bytes? then Undefined
      else Good(Some(s.value.value.bytes), s.next)
  }

  // A local variable of type short.
  function Signed(n: nat): int {
    if n < 0x8000 then n else n - Bits.USHORT
  }

  // "AMQP" read as an integer
  const PROTOCOL_WORD: int := 1095586128

  // amqp_decode on what the receive loop passes to it.
  function DecodeFrame(buf: Buffer): Decoded {
    if |buf| < 8 then Fault
    else
      var length, doff, kind, channel := GetInt(buf, 0), buf[4], buf[5], Signed(GetShort(buf, 6));
      if length == 8 && doff == 2 && kind <= 1 && channel == 0 then
        if |buf| == 8 then Ping else Malformed
      else if length == PROTOCOL_WORD && (doff == 3 || doff == 0) && kind == 1 && channel == 0 then
        if |buf| == 8 then Proto(doff) else Malformed
      else if length != |buf| || kind > 1 then Malformed
      else
        var list := GetTlv(buf, 8);
        if list.Undefined? || HeaderOf(list.value) == None then Fault
        else if HeaderOf(list.value) != Some(TRANSFER) then Other(HeaderOf(list.value).value)
        else
          var t, data := ReadTransfer(list.value), ReadSections(buf, list.next);
          if t == None || data.Undefined? then Fault else Frame(channel, t.value, data.value)
  }

  // amqp_decode with its cursor.
  method Decode(buf: Buffer) returns (d: Decoded)
    ensures d == DecodeFrame(buf)
  {
    if |buf| < 8 {
      return Fault;
    }
    var length, doff, kind, channel := GetInt(buf, 0), buf[4], buf[5], Signed(GetShort(buf, 6));
    var readable := |buf| - 8;
    if length == 8 && doff == 2 && kind <= 1 && channel == 0 {
      return if readable == 0 then Ping else Malformed;
    }
    if length == PROTOCOL_WORD && (doff == 3 || doff == 0) && kind == 1 && channel == 0 {
      return if readable == 0 then Proto(doff) else Malformed;
    }
    if length != readable + 8 || kind > 1 {
      return Malformed;
    }
    var reader := new Reader(buf);
    reader.i := 8;
    var list := reader.ReadTlv();
    if list == None || HeaderOf(list.value) == None {
      return Fault;
    }
    if HeaderOf(list.value) != Some(TRANSFER) {
      return Other(HeaderOf(list.value).value);
    }
    var t := ReadTransfer(list.value);
    if t == None {
      return Fault;
    }
    var data: Option<Buffer> := None;
    if reader.i < readable + 8 {
      var section := reader.ReadTlv();
      if section == None || reader.i < readable + 8 || HeaderOf(section.value) != Some(DATA) {
        return Fault;
      }
      if section.value.code != BINARY_8 || !section.value.value.Bytes? {
        return Fault;
      }
      data := Some(section.value.value.bytes);
    }
    return Frame(channel, t.value, data);
  }

  // ----- What comes back -----

  predicate Long(f: Option<nat>) {
    f.Some? ==> f.value < 0x8000_0000_0000_0000
  }

  predicate Brief(f: Option<Buffer>) {
    f.Some? ==> |f.value| <= 255
  }

  // Frames whose length fits an int, of transfers that add_arguments builds.
  ghost predicate Encodable(m: Message) {
    Complete(m.transfer) && 8 + |ArgumentBytes(m.transfer)| + |SectionBytes(m)| < 0x8000_0000
  }

  ghost predicate Complete(t: Transfer) {
    && t.handle.Some? && t.aborted.None?
    && Long(t.handle) && Long(t.deliveryId) && Long(t.messageFormat)
    && |ArgumentBytes(t)| < 0x8000_0000
  }

  function SizeOf(t: Transfer): int {
    BytesIn(FieldsOf(t)) + CountOf(FieldsOf(t)) - PresentIn(FieldsOf(t))
  }

  predicate Small(f: Option<nat>) {
    f.Some? ==> f.value <= 255
  }

  // The integers, and the size of the list, fit one byte.
  predicate FitsByte(t: Transfer) {
    SizeOf(t) <= 255 && Small(t.handle) && Small(t.deliveryId) && Small(t.messageFormat)
  }

  lemma {:induction false} ItemInAll(items: seq<Term>, k: nat)
    requires k < |items|
    ensures |Encode(items[k])| <= |EncodeAll(items)|
  {
    if k > 0 {
      ItemInAll(items[1..], k - 1);
    }
  }

  lemma TagIsSerialisable(t: Transfer)
    requires Complete(t) && t.deliveryTag.Some?
    ensures Serialisable(Binary(t.deliveryTag.value))
  {
    var tag := Binary(t.deliveryTag.value);
    assert FieldsOf(t)[2] == Some(tag);
    assert Sent(FieldsOf(t))[2] == tag;
    ItemInAll(Sent(FieldsOf(t)), 2);
    assert |Encode(tag)| <= |ArgumentBytes(t)|;
  }

  ghost predicate Fine(field: Option<Term>) {
    field.Some? ==> field.value != Null && Serialisable(field.value)
  }

  lemma FieldIsFine(t: Transfer, k: nat)
    requires Complete(t) && k < 11
    ensures Fine(FieldsOf(t)[k])
  {
    if k == 2 && t.deliveryTag.Some? {
      TagIsSerialisable(t);
    }
  }

  lemma CompleteIsSendable(t: Transfer)
    requires Complete(t)
    ensures Sendable(FieldsOf(t))
  {
    var fields := FieldsOf(t);
    forall k | 0 <= k < |fields| ensures Fine(fields[k]) {
      FieldIsFine(t, k);
    }
    FineIsSendable(fields);
  }

  lemma FineIsSendable(fields: Fields)
    requires |fields| > 0 && fields[0].Some? && forall k :: 0 <= k < |fields| ==> Fine(fields[k])
    requires |Encode(Described(TRANSFER, Sent(fields)))| < 0x8000_0000
    ensures Sendable(fields)
  {
  }

  // ----- Each field -----

  lemma UIntReadsBack(v: Tlv, k: nat, f: Option<nat>)
    requires Long(f) && FieldAt(v, k) == WireOf(UIntField(f))
    ensures UIntAt(v, k) == f <==> Small(f)
    ensures UIntAt(v, k).Some? == f.Some?
  {
    if f.Some? {
      ReadWire(UInt(f.value));
    }
  }

  lemma BoolReadsBack(v: Tlv, k: nat, f: Option<bool>)
    requires FieldAt(v, k) == WireOf(BoolField(f))
    ensures BoolAt(v, k) == f
  {
  }

  lemma OthersReadBack(v: Tlv, t: Transfer)
    requires Brief(t.deliveryTag)
    requires FieldAt(v, 2) == WireOf(BinaryField(t.deliveryTag))
    requires FieldAt(v, 6) == WireOf(ByteField(t.rcvSettleMode))
    requires FieldAt(v, 7) == WireOf(StateField(t.state))
    ensures BinaryAt(v, 2) == t.deliveryTag && ByteAt(v, 6) == t.rcvSettleMode && StateAt(v, 7) == t.state
    ensures FieldAt(v, 6).Some? == t.rcvSettleMode.Some? && FieldAt(v, 7).Some? == t.state.Some?
  {
  }

  lemma FieldReadsBack(fields: Fields, v: Tlv, k: nat, field: Option<Term>)
    requires k < |fields| && ReadsBack(fields, v) && fields[k] == field
    ensures FieldAt(v, k) == WireOf(field)
  {
  }

  lemma FieldsReadBack(t: Transfer, v: Tlv)
    requires Complete(t) && Brief(t.deliveryTag) && v.value.List? && ReadsBack(FieldsOf(t), v)
    ensures ReadTransfer(v) == Some(t) <==> Small(t.handle) && Small(t.deliveryId) && Small(t.messageFormat)
  {
    UIntsReadBack(t, v);
    RestReadsBack(t, v);
    ReadsAsRead(t, v);
  }

  lemma RestReadsBack(t: Transfer, v: Tlv)
    requires Brief(t.deliveryTag) && ReadsBack(FieldsOf(t), v)
    ensures RestIsRead(t, v)
  {
    BoolsReadBack(t, v);
    FieldReadsBack(FieldsOf(t), v, 2, BinaryField(t.deliveryTag));
    FieldReadsBack(FieldsOf(t), v, 6, ByteField(t.rcvSettleMode));
    FieldReadsBack(FieldsOf(t), v, 7, StateField(t.state));
    OthersReadBack(v, t);
  }

  // All fields but the integers are read as they were written.
  predicate RestIsRead(t: Transfer, v: Tlv) {
    && BinaryAt(v, 2) == t.deliveryTag && ByteAt(v, 6) == t.rcvSettleMode && StateAt(v, 7) == t.state
    && FieldAt(v, 6).Some? == t.rcvSettleMode.Some? && FieldAt(v, 7).Some? == t.state.Some?
    && BoolAt(v, 4) == t.settled && BoolAt(v, 5) == t.more
    && BoolAt(v, 8) == t.resume && BoolAt(v, 9) == t.aborted && BoolAt(v, 10) == t.batchable
  }

  lemma ReadsAsRead(t: Transfer, v: Tlv)
    requires v.value.List? && RestIsRead(t, v) && UIntAt(v, 3).Some? == FieldAt(v, 3).Some?
    ensures ReadTransfer(v) ==
      Some(t.(handle := UIntAt(v, 0), deliveryId := UIntAt(v, 1), messageFormat := UIntAt(v, 3)))
  {
  }

  lemma UIntsReadBack(t: Transfer, v: Tlv)
    requires Long(t.handle) && Long(t.deliveryId) && Long(t.messageFormat) && ReadsBack(FieldsOf(t), v)
    ensures UIntAt(v, 0) == t.handle <==> Small(t.handle)
    ensures UIntAt(v, 1) == t.deliveryId <==> Small(t.deliveryId)
    ensures UIntAt(v, 3) == t.messageFormat <==> Small(t.messageFormat)
    ensures UIntAt(v, 3).Some? == FieldAt(v, 3).Some?
  {
    FieldReadsBack(FieldsOf(t), v, 0, UIntField(t.handle));
    FieldReadsBack(FieldsOf(t), v, 1, UIntField(t.deliveryId));
    FieldReadsBack(FieldsOf(t), v, 3, UIntField(t.messageFormat));
    UIntReadsBack(v, 0, t.handle);
    UIntReadsBack(v, 1, t.deliveryId);
    UIntReadsBack(v, 3, t.messageFormat);
  }

  lemma BoolsReadBack(t: Transfer, v: Tlv)
    requires ReadsBack(FieldsOf(t), v)
    ensures BoolAt(v, 4) == t.settled && BoolAt(v, 5) == t.more
    ensures BoolAt(v, 8) == t.resume && BoolAt(v, 9) == t.aborted && BoolAt(v, 10) == t.batchable
  {
    FieldReadsBack(FieldsOf(t), v, 4, BoolField(t.settled));
    FieldReadsBack(FieldsOf(t), v, 5, BoolField(t.more));
    FieldReadsBack(FieldsOf(t), v, 8, BoolField(t.resume));
    FieldReadsBack(FieldsOf(t), v, 9, BoolField(t.aborted));
    FieldReadsBack(FieldsOf(t), v, 10, BoolField(t.batchable));
    BoolReadsBack(v, 4, t.settled);
    BoolReadsBack(v, 5, t.more);
    BoolReadsBack(v, 8, t.resume);
    BoolReadsBack(v, 9, t.aborted);
    BoolReadsBack(v, 10, t.batchable);
  }

  lemma SectionReadsBack(data: Buffer, behind: Behind, buf: Buffer, i: nat)
    requires At(buf, i, Section(data, behind)) && i + |Section(data, behind)| == |buf|
    ensures ReadSections(buf, i) == if |data| <= 255 then Good(Some(data), |buf|) else Undefined
  {
    if |data| <= 255 {
      var rest: Buffer := [|data|] + data;
      assert Section(data, behind) == [0, SMALL_ULONG, DATA, BINARY_8] + rest;
      ParseDescriptor(DATA, BINARY_8, rest, buf, i);
      BinaryReadsBack(data, buf, i + 4);
      assert GetTlv(buf, i) == Good(Tlv(BINARY_8, Descriptor(DATA), Bytes(data, Some(|data|))), |buf|);
    } else {
      var rest: Buffer := [(|data| + 3) % 256] + data + behind;
      assert Section(data, behind) == [0, SMALL_ULONG, DATA, BINARY_32] + rest;
      ParseDescriptor(DATA, BINARY_32, rest, buf, i);
    }
  }

  lemma BinaryReadsBack(data: Buffer, buf: Buffer, i: nat)
    requires |data| <= 255 && At(buf, i, [|data|] + data)
    ensures GetElement(BINARY_8, buf, i) == Good(Bytes(data, Some(|data|)), i + 1 + |data|)
  {
    AtParts(buf, i, [|data|], data);
    AtByte(buf, i, [|data|], 0);
    assert GetWidth(buf, i, false) == Good(|data|, i + 1);
    assert Take(buf, i + 1, |data|) == Good(data, i + 1 + |data|);
  }

  // ----- The whole frame -----

  // The first eight bytes of a frame: its length and channel, doff 2, type 0.
  ghost predicate Fronted(f: Buffer, channel: int) {
    |f| > 8 && GetInt(f, 0) == |f| && f[4] == 2 && f[5] == 0 && Signed(GetShort(f, 6)) == channel
  }

  lemma FrontReadsBack(channel: int, args: Buffer, section: Buffer)
    requires args != [] && 8 + |args| + |section| < 0x8000_0000
    ensures Fronted(FrontOf(8 + |args| + |section|, channel) + args + section, Signed(channel % Bits.USHORT))
  {
    var length := 8 + |args| + |section|;
    var f := FrontOf(length, channel) + args + section;
    assert f[0..4] == Int32(length);
    GetInt32(length, f, 0);
    ShortRoundTrip(channel);
  }

  // What the frame decoder sees of a frame.
  lemma DecodeParts(f: Buffer, channel: int)
    requires Fronted(f, channel)
    ensures DecodeFrame(f).Frame? <==>
      && GetTlv(f, 8).Good? && HeaderOf(GetTlv(f, 8).value) == Some(TRANSFER)
      && ReadTransfer(GetTlv(f, 8).value).Some? && ReadSections(f, GetTlv(f, 8).next).Good?
    ensures DecodeFrame(f).Frame? ==>
      var list := GetTlv(f, 8);
      DecodeFrame(f) == Frame(channel, ReadTransfer(list.value).value, ReadSections(f, list.next).value)
  {
  }

  lemma SectionsReadBack(front: Buffer, m: Message)
    ensures ReadSections(front + SectionBytes(m), |front|) ==
      if Brief(m.data) then Good(m.data, |front + SectionBytes(m)|) else Undefined
  {
    if m.data.Some? {
      var section := Section(m.data.value, m.behind);
      assert (front + section)[|front|..] == section;
      SectionReadsBack(m.data.value, m.behind, front + section, |front|);
    }
  }

  lemma ArgumentsReadBack(t: Transfer, before: Buffer, after: Buffer)
    requires Complete(t)
    ensures var r := GetTlv(before + ArgumentBytes(t) + after, |before|);
      && (SizeOf(t) <= 255 ==>
        r.Good? && r.next == |before| + |ArgumentBytes(t)| && HeaderOf(r.value) == Some(TRANSFER))
      && (r.Good? && ReadTransfer(r.value) == Some(t) <==> FitsByte(t))
      && (SizeOf(t) > 255 && r.Good? ==> ReadTransfer(r.value) == None)
  {
    CompleteIsSendable(t);
    OptionalFieldsSurvive(TRANSFER, FieldsOf(t), before, after);
    if SizeOf(t) <= 255 {
      SmallTag(t);
      FieldsReadBack(t, GetTlv(before + ArgumentBytes(t) + after, |before|).value);
    }
  }

  lemma SmallTag(t: Transfer)
    requires Complete(t) && SizeOf(t) <= 255
    ensures Brief(t.deliveryTag)
  {
    if t.deliveryTag.Some? {
      var tag := Binary(t.deliveryTag.value);
      assert FieldsOf(t)[2] == Some(tag);
      assert Sent(FieldsOf(t))[2] == tag;
      ItemInAll(Sent(FieldsOf(t)), 2);
      SizeIsSum(FieldsOf(t));
    }
  }

  // ----- Messages -----

  ghost predicate Decodes(m: Message, frame: Buffer) {
    DecodeFrame(frame) == Frame(m.channel, m.transfer, m.data)
  }

  // The channel fits a signed integer of sixteen bits, and the data and all the
  // lengths and integers of the list fit one byte.
  predicate Fits(m: Message) {
    -0x8000 <= m.channel < 0x8000 && FitsByte(m.transfer) && Brief(m.data)
  }

  lemma FrameShape(m: Message) returns (front: Buffer, frame: Buffer)
    requires Encodable(m)
    ensures EncodeFrame(m) == Made(frame) && |front| == 8
    ensures frame == front + ArgumentBytes(m.transfer) + SectionBytes(m)
    ensures Fronted(frame, Signed(m.channel % Bits.USHORT)) && |frame| < 0x8000_0000
  {
    var args := ArgumentBytes(m.transfer);
    frame := FrameBytes(m, args);
    FrontReadsBack(m.channel, args, SectionBytes(m));
    front := FrontOf(8 + |args| + |SectionBytes(m)|, m.channel);
  }

  // A TRANSFER frame with or without a DATA section starts with its length, and
  // is decoded to what was encoded if and only if the message fits.
  lemma FrameRoundTrip(m: Message) returns (frame: Buffer)
    requires Encodable(m)
    ensures EncodeFrame(m) == Made(frame)
    ensures 8 < |frame| < 0x8000_0000 && GetInt(frame, 0) == |frame|
    ensures Decodes(m, frame) <==> Fits(m)
  {
    hide DecodeFrame;
    hide GetTlv;
    hide ReadTransfer;
    hide ReadSections;
    hide SectionBytes;
    hide ArgumentBytes;
    hide SizeOf;
    var front;
    front, frame := FrameShape(m);
    var args := ArgumentBytes(m.transfer);
    ArgumentsReadBack(m.transfer, front, SectionBytes(m));
    SectionsReadBack(front + args, m);
    DecodeParts(frame, Signed(m.channel % Bits.USHORT));
    DecodesIfFits(m, frame, GetTlv(frame, 8), 8 + |args|, SizeOf(m.transfer) <= 255, FitsByte(m.transfer));
  }

  // Given how the list and the section read back.
  lemma DecodesIfFits(m: Message, f: Buffer, list: Parsed<Tlv>, next: nat, small: bool, fits: bool)
    requires Fronted(f, Signed(m.channel % Bits.USHORT)) && next <= |f| && list == GetTlv(f, 8)
    requires small ==> list.Good? && list.next == next && HeaderOf(list.value) == Some(TRANSFER)
    requires !small && list.Good? ==> ReadTransfer(list.value) == None
    requires list.Good? && ReadTransfer(list.value) == Some(m.transfer) <==> fits
    requires ReadSections(f, next) == if Brief(m.data) then Good(m.data, |f|) else Undefined
    ensures Decodes(m, f) <==> -0x8000 <= m.channel < 0x8000 && fits && Brief(m.data)
  {
    DecodeParts(f, Signed(m.channel % Bits.USHORT));
  }
}
