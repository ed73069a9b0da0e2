// The values of AMQP and their parser: src/amqp/tlv_factory.c as functions of
// the buffer and the cursor.
module TlvFactory {
  import opened Bytes
  import opened Wrappers

  // Format codes, src/amqp/avps/amqp_type.h
  const NULL: byte := 0x40
  const BOOLEAN: byte := 0x56
  const BOOLEAN_TRUE: byte := 0x41
  const BOOLEAN_FALSE: byte := 0x42
  const UBYTE: byte := 0x50
  const USHORT: byte := 0x60
  const UINT: byte := 0x70
  const SMALL_UINT: byte := 0x52
  const UINT_0: byte := 0x43
  const ULONG: byte := 0x80
  const SMALL_ULONG: byte := 0x53
  const ULONG_0: byte := 0x44
  const BYTE: byte := 0x51
  const SHORT: byte := 0x61
  const INT: byte := 0x71
  const SMALL_INT: byte := 0x54
  const LONG: byte := 0x81
  const SMALL_LONG: byte := 0x55
  const FLOAT: byte := 0x72
  const DOUBLE: byte := 0x82
  const DECIMAL_32: byte := 0x74
  const DECIMAL_64: byte := 0x84
  const DECIMAL_128: byte := 0x94
  const CHAR: byte := 0x73
  const TIMESTAMP: byte := 0x83
  const UUID: byte := 0x98
  const BINARY_8: byte := 0xA0
  const BINARY_32: byte := 0xB0
  const STRING_8: byte := 0xA1
  const STRING_32: byte := 0xB1
  const SYMBOL_8: byte := 0xA3
  const SYMBOL_32: byte := 0xB3
  const LIST_0: byte := 0x45
  const LIST_8: byte := 0xC0
  const LIST_32: byte := 0xD0
  const MAP_8: byte := 0xC1
  const MAP_32: byte := 0xD1
  const ARRAY_8: byte := 0xE0
  const ARRAY_32: byte := 0xF0

  // The branches of get_element. A fixed-width value has the length that the
  // branch stores, if it stores one.
  datatype Kind =
    | Empty
    | Fixed(width: nat, length: Option<nat>)
    | Variable(wide: bool)
    | EmptyList
    | ListOf(wide: bool)
    | MapOf(wide: bool)
    | ArrayOf(wide: bool)

  function KindOf(code: byte): Kind {
    if code in {BOOLEAN_TRUE, BOOLEAN_FALSE, UINT_0, ULONG_0} then Fixed(0, Some(0))
    else if code in {BOOLEAN, UBYTE, BYTE, SMALL_UINT, SMALL_INT, SMALL_ULONG, SMALL_LONG} then Fixed(1, Some(1))
    else if code in {SHORT, USHORT} then Fixed(2, None)
    else if code in {UINT, INT, FLOAT, DECIMAL_32, CHAR} then Fixed(4, Some(1))
    else if code in {ULONG, LONG, DECIMAL_64, DOUBLE, TIMESTAMP} then Fixed(8, None)
    else if code in {DECIMAL_128, UUID} then Fixed(16, None)
    else if code in {STRING_8, SYMBOL_8, BINARY_8} then Variable(false)
    else if code in {STRING_32, SYMBOL_32, BINARY_32} then Variable(true)
    else if code == LIST_0 then EmptyList
    else if code in {LIST_8, LIST_32} then ListOf(code == LIST_32)
    else if code in {MAP_8, MAP_32} then MapOf(code == MAP_32)
    else if code in {ARRAY_8, ARRAY_32} then ArrayOf(code == ARRAY_32)
    else Empty
  }

  // A parsed value. The length is None where the parser never stores one; a
  // hollow list is one whose children it never stores.
  datatype Value =
    | Absent
    | Bytes(bytes: Buffer, length: Option<nat>)
    | List(size: int, count: int, items: seq<Tlv>)
    | Hollow(size: int, count: int)
    | Map(size: int, count: int, entries: seq<Entry>)
    | Array(size: int, count: int, elements: seq<Value>)

  datatype Entry = Entry(key: Tlv, value: Tlv)

  datatype Tlv = Tlv(code: byte, descriptor: Option<Tlv>, value: Value)

  datatype Constructor = Constructor(code: byte, descriptor: Option<Tlv>)

  // Undefined: the parser reads or writes outside its memory.
  datatype Parsed<T> = Good(value: T, next: nat) | Undefined

  // get_int, a signed 32-bit integer
  function GetInt(buf: Buffer, i: nat): int
    requires i + 4 <= |buf|
  {
    var n := ((buf[i] as int * 256 + buf[i + 1]) * 256 + buf[i + 2]) * 256 + buf[i + 3];
    if n < 0x8000_0000 then n else n - 0x1_0000_0000
  }

  function Take(buf: Buffer, i: nat, n: int): (r: Parsed<Buffer>)
    requires i <= |buf|
    ensures r.Good? ==> 0 <= n && r.next == i + n <= |buf|
  {
    if 0 <= n <= |buf| - i then Good(buf[i..i + n], i + n) else Undefined
  }

  // The integer in front of a variable-width value: one or four bytes.
  function GetWidth(buf: Buffer, i: nat, wide: bool): (r: Parsed<int>)
    requires i <= |buf|
    ensures r.Good? ==> r.next == i + (if wide then 4 else 1) <= |buf|
  {
    if i + (if wide then 4 else 1) > |buf| then Undefined
    else if wide then Good(GetInt(buf, i), i + 4)
    else Good(buf[i] as int, i + 1)
  }

  // The size and the count in front of a compound value.
  function GetHead(buf: Buffer, i: nat, wide: bool): (r: Parsed<(int, int)>)
    requires i <= |buf|
    ensures r.Good? ==> r.next == i + (if wide then 8 else 2) <= |buf|
  {
    var size := GetWidth(buf, i, wide);
    if size.Undefined? then Undefined
    else
      var count := GetWidth(buf, size.next, wide);
      if count.Undefined? then Undefined else Good((size.value, count.value), count.next)
  }

  function GetTlv(buf: Buffer, i: nat): (r: Parsed<Tlv>)
    requires i <= |buf|
    ensures r.Good? ==> i < r.next <= |buf|
    decreases |buf| - i, 2, 0
  {
    var c := GetConstructor(buf, i);
    if c.Undefined? then Undefined
    else
      var v := GetElement(c.value.code, buf, c.next);
      if v.Undefined? then Undefined else Good(Tlv(c.value.code, c.value.descriptor, v.value), v.next)
  }

  function GetConstructor(buf: Buffer, i: nat): (r: Parsed<Constructor>)
    requires i <= |buf|
    ensures r.Good? ==> i < r.next <= |buf|
    decreases |buf| - i, 1, 0
  {
    if i == |buf| then Undefined
    else if buf[i] != 0 then Good(Constructor(buf[i], None), i + 1)
    else
      var d := GetTlv(buf, i + 1);
      if d.Undefined? || d.next == |buf| then Undefined
      else Good(Constructor(buf[d.next], Some(d.value)), d.next + 1)
  }

  function GetElement(code: byte, buf: Buffer, i: nat): (r: Parsed<Value>)
    requires i <= |buf|
    ensures r.Good? ==> i <= r.next <= |buf|
    decreases |buf| - i, 1, 0
  {
    match KindOf(code)
    case Empty => Good(Absent, i)
    case Fixed(width, length) =>
      var b := Take(buf, i, width);
      if b.Undefined? then Undefined else Good(Bytes(if width == 0 then [0] else b.value, length), b.next)
    case Variable(wide) =>
      var n := GetWidth(buf, i, wide);
      if n.Undefined? then Undefined
      else
        var b := Take(buf, n.next, n.value);
        if b.Undefined? then Undefined else Good(Bytes(b.value, if wide then None else Some(n.value)), b.next)
    case EmptyList => Good(Hollow(0, 0), i)
    case ListOf(wide) =>
      var h := GetHead(buf, i, wide);
      if h.Undefined? then Undefined
      else
        var items := GetItems(buf, h.next, h.value.1);
        if items.Undefined? then Undefined
        else Good(if wide then Hollow(h.value.0, h.value.1) else List(h.value.0, h.value.1, items.value), items.next)
    case MapOf(wide) =>
      var h := GetHead(buf, i, wide);
      if h.Undefined? then Undefined
      else
        var entries := GetEntries(buf, h.next, h.next + h.value.0 - (if wide then 4 else 1), h.value.1);
        if entries.Undefined? then Undefined else Good(Map(h.value.0, h.value.1, entries.value), entries.next)
    case ArrayOf(wide) =>
      var h := GetHead(buf, i, wide);
      if h.Undefined? then Undefined
      else
        var c := GetConstructor(buf, h.next);
        if c.Undefined? then Undefined
        else
          var elements := GetElements(c.value.code, buf, c.next, h.value.1);
          if elements.Undefined? then Undefined else Good(Array(h.value.0, h.value.1, elements.value), elements.next)
  }

  // The items of a list.
  function GetItems(buf: Buffer, i: nat, count: int): (r: Parsed<seq<Tlv>>)
    requires i <= |buf|
    ensures r.Good? ==> i <= r.next <= |buf|
    decreases |buf| - i, 3, 0
  {
    if count <= 0 then Good([], i)
    else
      var x := GetTlv(buf, i);
      if x.Undefined? then Undefined else Before([x.value], GetItems(buf, x.next, count - 1))
  }

  // The entries of a map up to the cursor position stop; the array has room for
  // so many.
  function GetEntries(buf: Buffer, i: nat, stop: int, room: int): (r: Parsed<seq<Entry>>)
    requires i <= |buf|
    ensures r.Good? ==> i <= r.next <= |buf|
    decreases |buf| - i, 3, 0
  {
    if i >= stop then Good([], i)
    else if room <= 0 then Undefined
    else
      var k := GetTlv(buf, i);
      if k.Undefined? then Undefined
      else
        var v := GetTlv(buf, k.next);
        if v.Undefined? then Undefined
        else Before([Entry(k.value, v.value)], GetEntries(buf, v.next, stop, room - 1))
  }

  // The elements of an array, which share one constructor.
  function GetElements(code: byte, buf: Buffer, i: nat, count: int): (r: Parsed<seq<Value>>)
    requires i <= |buf|
    ensures r.Good? ==> i <= r.next <= |buf|
    decreases |buf| - i, 2, if count < 0 then 0 else count
  {
    if count <= 0 then Good([], i)
    else
      var x := GetElement(code, buf, i);
      if x.Undefined? then Undefined else Before([x.value], GetElements(code, buf, x.next, count - 1))
  }

  function Before<T>(front: seq<T>, rest: Parsed<seq<T>>): Parsed<seq<T>> {
    if rest.Undefined? then Undefined else Good(front + rest.value, rest.next)
  }

  lemma BeforeBefore<T>(a: seq<T>, b: seq<T>, rest: Parsed<seq<T>>)
    ensures Before(a, Before(b, rest)) == Before(a + b, rest)
  {
    if rest.Good? {
      assert a + (b + rest.value) == (a + b) + rest.value;
    }
  }

  lemma BeforeNothing<T>(r: Parsed<seq<T>>)
    ensures Before([], r) == r
  {
    if r.Good? {
      assert [] + r.value == r.value;
    }
  }
}
