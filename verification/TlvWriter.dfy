// The AMQP serialiser (src/amqp/wrappers/wrapper.c and src/amqp/amqp_calc.c),
// and what the parser and the unwrappers make of its output.
module TlvWriter {
  import opened Bytes
  import opened Wrappers
  import opened TlvFactory

  // What a caller hands to the wrappers: leaves, states and described lists.
  datatype Term =
    | Null
    | Bool(b: bool)
    | UInt(n: nat)
    | UByte(octet: byte)
    | UShort(n: nat)
    | Text(s: Buffer)
    | Symbol(s: Buffer)
    | Binary(s: Buffer)
    | State(code: byte)
    | Described(code: byte, items: seq<Term>)

  // The low bytes of an integer, high byte first: memcpy and reverse on the
  // target.
  function BigEndian(n: nat, width: nat): (bytes: Buffer)
    ensures |bytes| == width
  {
    if width == 0 then [] else BigEndian(n / 256, width - 1) + [n % 256]
  }

  function Int32(n: nat): (bytes: Buffer)
    ensures |bytes| == 4
  {
    BigEndian(n, 4)
  }

  // memcpy alone: low byte first.
  function Raw32(n: nat): Buffer {
    [n % 256, n / 0x100 % 256, n / 0x1_0000 % 256, n / 0x100_0000 % 256]
  }

  // wrap_string and init_tlv_variable
  function WrapVariable(narrow: byte, wide: byte, s: Buffer): Buffer {
    if |s| > 255 then [wide] + Raw32(|s|) + s else [narrow, |s|] + s
  }

  // wrap_uint
  function WrapUInt(n: nat): Buffer {
    if n == 0 then [UINT_0] else if n <= 255 then [SMALL_UINT, n] else [UINT] + Int32(n)
  }

  // calculate_bytes and get_bytes: the descriptor, the code, the size, the
  // count and the items.
  function WrapList(header: byte, count: nat, payload: Buffer): Buffer {
    if |payload| > 255 then [0, SMALL_ULONG, header, LIST_32] + Int32(|payload| + 3) + Int32(count) + payload
    else [0, SMALL_ULONG, header, LIST_8, |payload|, count % 256] + payload
  }

  function Encode(t: Term): (bytes: Buffer)
    ensures |bytes| > 0
    decreases t
  {
    match t
    case Null => [NULL]
    case Bool(b) => [if b then BOOLEAN_TRUE else BOOLEAN_FALSE]
    case UInt(n) => WrapUInt(n)
    case UByte(n) => [UBYTE, n]
    case UShort(n) => [USHORT, n % 256, n / 256 % 256]
    case Text(s) => WrapVariable(STRING_8, STRING_32, s)
    case Symbol(s) => WrapVariable(SYMBOL_8, SYMBOL_32, s)
    case Binary(s) => WrapVariable(BINARY_8, BINARY_32, s)
    case State(code) => [0, SMALL_ULONG, code, LIST_0]
    case Described(code, items) => WrapList(code, |items|, EncodeAll(items))
  }

  function EncodeAll(items: seq<Term>): (bytes: Buffer)
    ensures |bytes| >= |items|
    decreases items
  {
    if items == [] then [] else Encode(items[0]) + EncodeAll(items[1..])
  }

  // The values whose bytes the serialiser defines: a long, a text and a nonempty
  // list whose size fits an int.
  ghost predicate Serialisable(t: Term)
    decreases t
  {
    match t
    case UInt(n) => n < 0x8000_0000_0000_0000
    case UShort(n) => n < 0x8000_0000
    case Text(s) => |s| + 5 < 0x8000_0000
    case Symbol(s) => |s| + 5 < 0x8000_0000
    case Binary(s) => |s| + 5 < 0x8000_0000
    case Described(_, items) => items != [] && |EncodeAll(items)| + 3 < 0x8000_0000 && AllSerialisable(items)
    case _ => true
  }

  ghost predicate AllSerialisable(items: seq<Term>)
    decreases items
  {
    items == [] || (Serialisable(items[0]) && AllSerialisable(items[1..]))
  }

  // Those whose texts all have a width of one byte.
  ghost predicate Writable(t: Term)
    decreases t
  {
    match t
    case UInt(n) => n < 0x8000_0000_0000_0000
    case UShort(n) => n < 0x8000_0000
    case Text(s) => |s| <= 255
    case Symbol(s) => |s| <= 255
    case Binary(s) => |s| <= 255
    case Described(_, items) => items != [] && |EncodeAll(items)| + 3 < 0x8000_0000 && AllWritable(items)
    case _ => true
  }

  ghost predicate AllWritable(items: seq<Term>)
    decreases items
  {
    items == [] || (Writable(items[0]) && AllWritable(items[1..]))
  }

  // ----- What the parser sees -----

  function Descriptor(code: byte): Option<Tlv> {
    Some(Tlv(SMALL_ULONG, None, Bytes([code], Some(1))))
  }

  // The parse of an encoded value. A list with more than 255 bytes of items
  // loses them.
  function Wire(t: Term): Tlv
    decreases t
  {
    match t
    case Null => Tlv(NULL, None, Absent)
    case Bool(b) => Tlv(if b then BOOLEAN_TRUE else BOOLEAN_FALSE, None, Bytes([0], Some(0)))
    case UInt(n) =>
      if n == 0 then Tlv(UINT_0, None, Bytes([0], Some(0)))
      else if n <= 255 then Tlv(SMALL_UINT, None, Bytes([n], Some(1)))
      else Tlv(UINT, None, Bytes(Int32(n), Some(1)))
    case UByte(n) => Tlv(UBYTE, None, Bytes([n], Some(1)))
    case UShort(n) => Tlv(USHORT, None, Bytes([n % 256, n / 256 % 256], None))
    case Text(s) => Tlv(STRING_8, None, Bytes(s, Some(|s|)))
    case Symbol(s) => Tlv(SYMBOL_8, None, Bytes(s, Some(|s|)))
    case Binary(s) => Tlv(BINARY_8, None, Bytes(s, Some(|s|)))
    case State(code) => Tlv(LIST_0, Descriptor(code), Hollow(0, 0))
    case Described(code, items) =>
      var size := |EncodeAll(items)|;
      if size <= 255 then Tlv(LIST_8, Descriptor(code), List(size, |items|, WireAll(items)))
      else Tlv(LIST_32, Descriptor(code), Hollow(size + 3, |items|))
  }

  function WireAll(items: seq<Term>): (r: seq<Tlv>)
    ensures |r| == |items|
    decreases items
  {
    if items == [] then [] else [Wire(items[0])] + WireAll(items[1..])
  }

  // The parser reads an encoded value back and its cursor moves by exactly the
  // encoded length, however deep the lists are nested.
  lemma {:induction false} ParseEncoded(t: Term, buf: Buffer, i: nat)
    requires Writable(t) && At(buf, i, Encode(t))
    ensures GetTlv(buf, i) == Good(Wire(t), i + |Encode(t)|)
    decreases t
  {
    match t
    case Text(s) => ParseVariable(STRING_8, STRING_32, s, buf, i);
    case Symbol(s) => ParseVariable(SYMBOL_8, SYMBOL_32, s, buf, i);
    case Binary(s) => ParseVariable(BINARY_8, BINARY_32, s, buf, i);
    case State(code) => ParseDescriptor(code, LIST_0, [], buf, i);
    case Described(code, items) => ParseDescribed(code, items, buf, i);
    case _ => ParseFixed(t, buf, i);
  }

  lemma {:induction false} ParseFixed(t: Term, buf: Buffer, i: nat)
    requires t.Null? || t.Bool? || t.UInt? || t.UByte? || t.UShort?
    requires At(buf, i, Encode(t))
    ensures GetTlv(buf, i) == Good(Wire(t), i + |Encode(t)|)
  {
    AtByte(buf, i, Encode(t), 0);
    if t.Null? {
      assert GetConstructor(buf, i) == Good(Constructor(NULL, None), i + 1);
    } else {
      ParseLeaf(Encode(t), Wire(t).value.length, buf, i);
    }
  }

  lemma ParseLeaf(bytes: Buffer, length: Option<nat>, buf: Buffer, i: nat)
    requires bytes != [] && bytes[0] != 0 && KindOf(bytes[0]) == Fixed(|bytes| - 1, length) && At(buf, i, bytes)
    ensures GetTlv(buf, i) ==
      Good(Tlv(bytes[0], None, Bytes(if |bytes| == 1 then [0] else bytes[1..], length)), i + |bytes|)
  {
    AtByte(buf, i, bytes, 0);
    AtParts(buf, i, bytes[..1], bytes[1..]);
    assert bytes[..1] + bytes[1..] == bytes;
    assert GetConstructor(buf, i) == Good(Constructor(bytes[0], None), i + 1);
    assert Take(buf, i + 1, |bytes| - 1) == Good(bytes[1..], i + |bytes|);
  }

  lemma ParseVariable(narrow: byte, wide: byte, s: Buffer, buf: Buffer, i: nat)
    requires narrow != 0 && KindOf(narrow) == Variable(false) && |s| <= 255
    requires At(buf, i, WrapVariable(narrow, wide, s))
    ensures GetTlv(buf, i) == Good(Tlv(narrow, None, Bytes(s, Some(|s|))), i + 2 + |s|)
  {
    AtParts(buf, i, [narrow, |s|], s);
    AtByte(buf, i, [narrow, |s|], 0);
    AtByte(buf, i, [narrow, |s|], 1);
    assert GetWidth(buf, i + 1, false) == Good(|s|, i + 2);
    assert Take(buf, i + 2, |s|) == Good(s, i + 2 + |s|);
  }

  // A constructor with a one-byte descriptor.
  lemma ParseDescriptor(header: byte, code: byte, rest: Buffer, buf: Buffer, i: nat)
    requires At(buf, i, [0, SMALL_ULONG, header, code] + rest)
    ensures GetConstructor(buf, i) == Good(Constructor(code, Descriptor(header)), i + 4)
    ensures At(buf, i + 4, rest)
  {
    var head: Buffer := [0, SMALL_ULONG, header, code];
    AtParts(buf, i, head, rest);
    AtByte(buf, i, head, 0);
    AtByte(buf, i, head, 1);
    AtByte(buf, i, head, 2);
    AtByte(buf, i, head, 3);
    assert buf[i + 2..i + 3] == [header];
    assert Take(buf, i + 2, 1) == Good([header], i + 3);
    assert GetElement(SMALL_ULONG, buf, i + 2) == Good(Bytes([header], Some(1)), i + 3);
    assert GetTlv(buf, i + 1) == Good(Descriptor(header).value, i + 3);
  }

  lemma {:induction false} ParseDescribed(header: byte, items: seq<Term>, buf: Buffer, i: nat)
    requires Writable(Described(header, items)) && At(buf, i, Encode(Described(header, items)))
    ensures GetTlv(buf, i) == Good(Wire(Described(header, items)), i + |Encode(Described(header, items))|)
    decreases items, 3
  {
    if |EncodeAll(items)| <= 255 {
      ParseNarrow(header, items, buf, i);
    } else {
      ParseWide(header, items, buf, i);
    }
  }

  lemma {:induction false} ParseNarrow(header: byte, items: seq<Term>, buf: Buffer, i: nat)
    requires AllWritable(items) && |EncodeAll(items)| <= 255
    requires At(buf, i, WrapList(header, |items|, EncodeAll(items)))
    ensures GetTlv(buf, i) == Good(Wire(Described(header, items)), i + 6 + |EncodeAll(items)|)
    decreases items, 2
  {
    ParseNarrowHead(header, |items|, EncodeAll(items), buf, i);
    ParseBody(header, items, LIST_8, false, |EncodeAll(items)|, buf, i, i + 6);
  }

  lemma {:induction false} ParseWide(header: byte, items: seq<Term>, buf: Buffer, i: nat)
    requires AllWritable(items) && 255 < |EncodeAll(items)| < 0x8000_0000 - 3
    requires At(buf, i, WrapList(header, |items|, EncodeAll(items)))
    ensures GetTlv(buf, i) == Good(Wire(Described(header, items)), i + 12 + |EncodeAll(items)|)
    decreases items, 2
  {
    ParseWideHead(header, |items|, EncodeAll(items), buf, i);
    ParseBody(header, items, LIST_32, true, |EncodeAll(items)| + 3, buf, i, i + 12);
  }

  lemma {:induction false} ParseBody(header: byte, items: seq<Term>, code: byte, wide: bool, size: nat,
                                     buf: Buffer, i: nat, body: nat)
    requires KindOf(code) == ListOf(wide) && AllWritable(items) && i + 4 <= |buf|
    requires GetConstructor(buf, i) == Good(Constructor(code, Descriptor(header)), i + 4)
    requires GetHead(buf, i + 4, wide) == Good((size as int, |items| as int), body)
    requires At(buf, body, EncodeAll(items))
    ensures GetTlv(buf, i) == Good(
      Tlv(code, Descriptor(header), if wide then Hollow(size, |items|) else List(size, |items|, WireAll(items))),
      body + |EncodeAll(items)|)
    decreases items, 1
  {
    ParseItems(items, buf, body);
  }

  lemma FirstItem(buf: Buffer, i: nat, count: int, x: Tlv, next: nat)
    requires i <= |buf| && count > 0 && GetTlv(buf, i) == Good(x, next)
    ensures GetItems(buf, i, count) == Before([x], GetItems(buf, next, count - 1))
  {
  }

  lemma ParseNarrowHead(header: byte, count: nat, payload: Buffer, buf: Buffer, i: nat)
    requires count <= |payload| <= 255 && At(buf, i, WrapList(header, count, payload))
    ensures GetConstructor(buf, i) == Good(Constructor(LIST_8, Descriptor(header)), i + 4)
    ensures GetHead(buf, i + 4, false) == Good((|payload|, count), i + 6)
    ensures At(buf, i + 6, payload)
  {
    var head: Buffer := [|payload|, count];
    assert WrapList(header, count, payload) == [0, SMALL_ULONG, header, LIST_8] + (head + payload);
    ParseDescriptor(header, LIST_8, head + payload, buf, i);
    AtParts(buf, i + 4, head, payload);
    AtByte(buf, i + 4, head, 0);
    AtByte(buf, i + 4, head, 1);
  }

  lemma ParseWideHead(header: byte, count: nat, payload: Buffer, buf: Buffer, i: nat)
    requires count <= |payload| && 255 < |payload| < 0x8000_0000 - 3 && At(buf, i, WrapList(header, count, payload))
    ensures GetConstructor(buf, i) == Good(Constructor(LIST_32, Descriptor(header)), i + 4)
    ensures GetHead(buf, i + 4, true) == Good((|payload| + 3, count), i + 12)
    ensures At(buf, i + 12, payload)
  {
    var head := Int32(|payload| + 3) + Int32(count);
    assert WrapList(header, count, payload) == [0, SMALL_ULONG, header, LIST_32] + (head + payload);
    ParseDescriptor(header, LIST_32, head + payload, buf, i);
    AtParts(buf, i + 4, head, payload);
    WideHead(|payload| + 3, count, buf, i + 4);
  }

  lemma WideHead(size: nat, count: nat, buf: Buffer, i: nat)
    requires size < 0x8000_0000 && count < 0x8000_0000 && At(buf, i, Int32(size) + Int32(count))
    ensures GetHead(buf, i, true) == Good((size, count), i + 8)
  {
    AtParts(buf, i, Int32(size), Int32(count));
    GetInt32(size, buf, i);
    GetInt32(count, buf, i + 4);
  }

  lemma GetInt32(n: nat, buf: Buffer, i: nat)
    requires n < 0x8000_0000 && At(buf, i, Int32(n))
    ensures GetInt(buf, i) == n
  {
    AtByte(buf, i, Int32(n), 0);
    AtByte(buf, i, Int32(n), 1);
    AtByte(buf, i, Int32(n), 2);
    AtByte(buf, i, Int32(n), 3);
    Int32Digits(n);
    Digits(n);
  }

  lemma Int32Digits(n: nat)
    ensures Int32(n) == [n / 256 / 256 / 256 % 256, n / 256 / 256 % 256, n / 256 % 256, n % 256]
  {
    assert BigEndian(n / 256 / 256 / 256, 1) == [n / 256 / 256 / 256 % 256];
    assert BigEndian(n / 256 / 256, 2) == [n / 256 / 256 / 256 % 256, n / 256 / 256 % 256];
    assert BigEndian(n / 256, 3) == [n / 256 / 256 / 256 % 256, n / 256 / 256 % 256, n / 256 % 256];
  }

  lemma Digits(n: nat)
    requires n < 0x1_0000_0000
    ensures ((n / 256 / 256 / 256 % 256 * 256 + n / 256 / 256 % 256) * 256 + n / 256 % 256) * 256 + n % 256 == n
  {
    var a := n / 256;
    var b := a / 256;
    var c := b / 256;
    assert n == a * 256 + n % 256 && a == b * 256 + a % 256 && b == c * 256 + b % 256;
    assert c % 256 == c;
  }

  lemma {:induction false} ParseItems(items: seq<Term>, buf: Buffer, i: nat)
    requires AllWritable(items) && At(buf, i, EncodeAll(items))
    ensures GetItems(buf, i, |items|) == Good(WireAll(items), i + |EncodeAll(items)|)
    decreases items, 0
  {
    if items != [] {
      AtParts(buf, i, Encode(items[0]), EncodeAll(items[1..]));
      var next := i + |Encode(items[0])|;
      ParseEncoded(items[0], buf, i);
      ParseItems(items[1..], buf, next);
      FirstItem(buf, i, |items|, Wire(items[0]), next);
    }
  }

  // ----- What the unwrappers read -----

  // The unwrappers of leaves, and the items of a described list one by one, as
  // init_header reads those of a packet and of the source and target in it; None
  // where there is no value to read. A text with a width of four bytes has no
  // length to read it by.
  function Read(v: Tlv): Option<Term>
    decreases v
  {
    if v.code == NULL then Some(Null)
    else if v.code in {BOOLEAN_TRUE, BOOLEAN_FALSE} then Some(Bool(v.code == BOOLEAN_TRUE))
    else if v.value.Bytes? then ReadBytes(v.code, v.value.bytes, v.value.length)
    else if HeaderOf(v) == None then None
    else if v.code == LIST_0 then Some(State(HeaderOf(v).value))
    else if v.value.List? then
      var items := ReadAll(v.value.items);
      if items == None then None else Some(Described(HeaderOf(v).value, items.value))
    else None
  }

  // The header or state code: constructor->tlv->value_array[0].
  function HeaderOf(v: Tlv): Option<byte> {
    if v.descriptor.Some? && v.descriptor.value.value.Bytes? && v.descriptor.value.value.bytes != []
    then Some(v.descriptor.value.value.bytes[0])
    else None
  }

  function ReadAll(vs: seq<Tlv>): Option<seq<Term>>
    decreases vs
  {
    if vs == [] then Some([])
    else
      var first, rest := Read(vs[0]), ReadAll(vs[1..]);
      if first == None || rest == None then None else Some([first.value] + rest.value)
  }

  function ReadBytes(code: byte, bytes: Buffer, length: Option<nat>): Option<Term> {
    if code in {UINT, SMALL_UINT, UINT_0} then
      if length == Some(0) then Some(UInt(0))
      else if length == Some(1) && bytes != [] then Some(UInt(bytes[0]))
      else None
    else if code == UBYTE && bytes != [] then Some(UByte(bytes[0]))
    else if code == USHORT && |bytes| >= 2 then Some(UShort(GetShort(bytes, 0)))
    else if code == STRING_8 then Some(Text(bytes))
    else if code == SYMBOL_8 then Some(Symbol(bytes))
    else if code == BINARY_8 then Some(Binary(bytes))
    else None
  }

  // No integer above 255, no sixteen-bit integer with two different bytes, no
  // text and no list with more than 255 bytes.
  ghost predicate Faithful(t: Term)
    decreases t
  {
    match t
    case UInt(n) => n <= 255
    case UShort(n) => n < 0x1_0000 && n / 256 == n % 256
    case Text(s) => |s| <= 255
    case Symbol(s) => |s| <= 255
    case Binary(s) => |s| <= 255
    case Described(_, items) => |EncodeAll(items)| <= 255 && AllFaithful(items)
    case _ => true
  }

  ghost predicate AllFaithful(items: seq<Term>)
    decreases items
  {
    items == [] || (Faithful(items[0]) && AllFaithful(items[1..]))
  }

  lemma {:induction false} ReadWire(t: Term)
    requires Writable(t)
    ensures Read(Wire(t)) == Some(t) <==> Faithful(t)
    decreases t
  {
    match t
    case UInt(n) =>
      if n > 255 {
        Int32Digits(n);
        assert Read(Wire(t)) == Some(UInt(n / 256 / 256 / 256 % 256));
      }
    case UShort(n) =>
      assert Read(Wire(t)) == Some(UShort(n % 256 * 256 + n / 256 % 256));
      Swapped(n);
    case Described(code, items) => if |EncodeAll(items)| <= 255 { ReadWireAll(items); }
    case _ =>
  }

  lemma Swapped(n: nat)
    ensures n % 256 * 256 + n / 256 % 256 == n <==> n < 0x1_0000 && n / 256 == n % 256
  {
    assert n == n / 256 * 256 + n % 256;
  }

  lemma {:induction false} ReadWireAll(items: seq<Term>)
    requires AllWritable(items)
    ensures ReadAll(WireAll(items)) == Some(items) <==> AllFaithful(items)
    decreases items
  {
    if items != [] {
      ReadWire(items[0]);
      ReadWireAll(items[1..]);
      assert WireAll(items)[1..] == WireAll(items[1..]);
      assert [items[0]] + items[1..] == items;
      var first, rest := Read(Wire(items[0])), ReadAll(WireAll(items[1..]));
      if first.Some? && rest.Some? {
        assert ([first.value] + rest.value)[1..] == rest.value;
      }
    }
  }

  // ----- Long texts -----

  lemma {:induction false} SmallIsWritable(t: Term)
    requires Serialisable(t) && |Encode(t)| <= 255
    ensures Writable(t)
    decreases t
  {
    if t.Described? {
      SmallAreWritable(t.items);
    }
  }

  lemma {:induction false} SmallAreWritable(items: seq<Term>)
    requires AllSerialisable(items) && |EncodeAll(items)| <= 255
    ensures AllWritable(items)
    decreases items
  {
    if items != [] {
      SmallIsWritable(items[0]);
      SmallAreWritable(items[1..]);
    }
  }

  // A value the readers cannot use: the parser leaves its memory, or there is
  // nothing to read.
  predicate Lost(r: Parsed<Tlv>) {
    r.Undefined? || Read(r.value) == None
  }

  lemma LongTextIsLost(narrow: byte, wide: byte, s: Buffer, buf: Buffer, i: nat)
    requires wide in {STRING_32, SYMBOL_32, BINARY_32} && |s| > 255 && At(buf, i, WrapVariable(narrow, wide, s))
    ensures Lost(GetTlv(buf, i))
  {
    AtByte(buf, i, [wide] + Raw32(|s|) + s, 0);
    assert GetConstructor(buf, i) == Good(Constructor(wide, None), i + 1);
    assert KindOf(wide) == Variable(true);
  }

  // The children of a list above 255 bytes are parsed, and dropped.
  lemma LongListIsHollow(header: byte, count: nat, payload: Buffer, buf: Buffer, i: nat)
    requires count <= |payload| && 255 < |payload| < 0x8000_0000 - 3 && At(buf, i, WrapList(header, count, payload))
    ensures var r := GetTlv(buf, i);
      r.Undefined? || (r.value.value == Hollow(|payload| + 3, count) && r.value.code == LIST_32)
  {
    ParseWideHead(header, count, payload, buf, i);
  }

  lemma NotWritableIsLost(t: Term, buf: Buffer, i: nat)
    requires Serialisable(t) && !Writable(t) && At(buf, i, Encode(t))
    ensures Lost(GetTlv(buf, i)) && !Faithful(t)
  {
    match t
    case Text(s) => LongTextIsLost(STRING_8, STRING_32, s, buf, i);
    case Symbol(s) => LongTextIsLost(SYMBOL_8, SYMBOL_32, s, buf, i);
    case Binary(s) => LongTextIsLost(BINARY_8, BINARY_32, s, buf, i);
    case Described(header, items) =>
      if |EncodeAll(items)| <= 255 {
        SmallAreWritable(items);
      } else {
        LongListIsHollow(header, |items|, EncodeAll(items), buf, i);
      }
    case _ =>
  }

  // A value comes back through the wire exactly when it is faithful; the cursor
  // always ends behind it, unless it has a text above 255 bytes.
  lemma RoundTrip(t: Term, before: Buffer, after: Buffer)
    requires Serialisable(t)
    ensures var r := GetTlv(before + Encode(t) + after, |before|);
      && (Writable(t) ==> r.Good? && r.next == |before| + |Encode(t)|)
      && (r.Good? && Read(r.value) == Some(t) <==> Faithful(t))
  {
    var buf := before + Encode(t) + after;
    assert buf[|before|..|before| + |Encode(t)|] == Encode(t);
    if Writable(t) {
      ParseEncoded(t, buf, |before|);
      ReadWire(t);
    } else {
      NotWritableIsLost(t, buf, |before|);
    }
  }
}
