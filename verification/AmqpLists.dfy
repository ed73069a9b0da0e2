// Lists with optional fields: how add_arguments and the wrappers of nested lists
// fill them (src/amqp/amqp_parser.c, src/amqp/wrappers/wrapper.c,
// src/amqp/amqp_calc.c), and how header_factory.c reads them back.
module AmqpLists {
  import opened Bytes
  import opened Wrappers
  import opened TlvFactory
  import opened TlvWriter

  type Fields = seq<Option<Term>>

  // The number of fields up to the last one present.
  function CountOf(fields: Fields): (n: nat)
    ensures n <= |fields|
    ensures n > 0 ==> fields[n - 1].Some?
    ensures forall k :: n <= k < |fields| ==> fields[k].None?
  {
    if fields == [] then 0
    else if fields[|fields| - 1].Some? then |fields|
    else CountOf(fields[..|fields| - 1])
  }

  function PresentIn(fields: Fields): (n: nat)
    ensures n <= |fields|
  {
    if fields == [] then 0
    else PresentIn(fields[..|fields| - 1]) + (if fields[|fields| - 1].Some? then 1 else 0)
  }

  function BytesIn(fields: Fields): nat {
    if fields == [] then 0
    else BytesIn(fields[..|fields| - 1]) + LengthOf(fields[|fields| - 1])
  }

  function LengthOf(field: Option<Term>): nat {
    if field.Some? then |Encode(field.value)| else 0
  }

  function OrNull(field: Option<Term>): Term {
    if field.Some? then field.value else Null
  }

  function Filled(fields: Fields): (items: seq<Term>)
    ensures |items| == |fields|
    ensures forall k :: 0 <= k < |fields| ==> items[k] == OrNull(fields[k])
  {
    seq(|fields|, k requires 0 <= k < |fields| => OrNull(fields[k]))
  }

  // The list that is sent: everything up to the last field present.
  function Sent(fields: Fields): seq<Term> {
    Filled(fields)[..CountOf(fields)]
  }

  // ----- Filling a list -----

  lemma {:induction false} EncodeAllConcat(items: seq<Term>, parts: seq<Buffer>)
    requires |items| == |parts| && forall k :: 0 <= k < |items| ==> parts[k] == Encode(items[k])
    ensures Concat(parts) == EncodeAll(items)
  {
    if items != [] {
      var last := |items| - 1;
      EncodeAllConcat(items[..last], parts[..last]);
      EncodeAllLast(items);
    }
  }

  lemma ElementsSent(fields: Fields, list: seq<Buffer>)
    requires |list| == |fields| && forall k :: 0 <= k < |list| ==> list[k] == Encode(OrNull(fields[k]))
    ensures Concat(list[..CountOf(fields)]) == EncodeAll(Sent(fields))
  {
    EncodeAllConcat(Sent(fields), list[..CountOf(fields)]);
  }

  lemma SizeSent(fields: Fields, list: seq<Buffer>)
    requires |list| == |fields| && forall k :: 0 <= k < |list| ==> list[k] == Encode(OrNull(fields[k]))
    ensures Concat(list[..CountOf(fields)]) == EncodeAll(Sent(fields))
    ensures |EncodeAll(Sent(fields))| == BytesIn(fields) + CountOf(fields) - PresentIn(fields)
  {
    SizeIsSum(fields);
    ElementsSent(fields, list);
  }

  lemma {:induction false} EncodeAllLast(items: seq<Term>)
    requires items != []
    ensures EncodeAll(items) == EncodeAll(items[..|items| - 1]) + Encode(items[|items| - 1])
  {
    if |items| > 1 {
      EncodeAllLast(items[1..]);
      assert items[1..][..|items| - 2] == items[..|items| - 1][1..];
    } else {
      assert items[1..] == [] && items[..0] == [];
    }
  }

  // The size the code adds up, one byte for every null between the fields, is
  // the length of the bytes of the elements sent.
  lemma {:induction false} SizeIsSum(fields: Fields)
    ensures |EncodeAll(Filled(fields)[..CountOf(fields)])| == BytesIn(fields) + CountOf(fields) - PresentIn(fields)
    ensures |EncodeAll(Filled(fields))| == BytesIn(fields) + |fields| - PresentIn(fields)
  {
    if fields != [] {
      var front := fields[..|fields| - 1];
      SizeIsSum(front);
      EncodeAllLast(Filled(fields));
      assert Filled(fields)[..|front|] == Filled(front);
      if fields[|fields| - 1].Some? {
        assert Filled(fields)[..CountOf(fields)] == Filled(fields);
      } else {
        assert Filled(fields)[..CountOf(fields)] == Filled(front)[..CountOf(front)];
      }
    }
  }

  // struct TlvList while its fields are filled in, one if and else for each.
  class ListBuilder {
    var list: seq<Buffer>
    var count: nat
    var size: nat
    var notNull: nat
    ghost var fields: Fields

    ghost predicate Valid()
      reads this
    {
      && |list| == |fields|
      && (forall k :: 0 <= k < |list| ==> list[k] == Encode(OrNull(fields[k])))
      && count == CountOf(fields) && size == BytesIn(fields) && notNull == PresentIn(fields)
    }

    constructor ()
      ensures Valid() && fields == []
    {
      list, count, size, notNull, fields := [], 0, 0, 0, [];
    }

    method Add(field: Option<Term>)
      requires Valid()
      modifies this
      ensures Valid() && fields == old(fields) + [field]
    {
      if field.Some? {
        var wrapped := Encode(field.value);
        notNull := notNull + 1;
        count := |list| + 1;
        size := size + |wrapped|;
        list := list + [wrapped];
      } else {
        list := list + [Encode(Null)];
      }
      fields := fields + [field];
      assert fields[..|fields| - 1] == old(fields);
    }

    // The last lines of add_arguments. Without a field present the count was
    // never set, and there is no telling what follows.
    method Finish(header: byte) returns (bytes: Option<Buffer>)
      requires Valid()
      modifies `size
      ensures bytes == if CountOf(fields) == 0 then None else Some(Encode(Described(header, Sent(fields))))
      ensures bytes.Some? ==> size == |EncodeAll(Sent(fields))| + (if size > 255 then 3 else 0)
    {
      if count == 0 {
        return None;
      }
      SizeSent(fields, list);
      size := size + (count - notNull);
      var all := CalculateBytes(header);
      return Some(all);
    }

    // calculate_bytes and get_bytes
    method CalculateBytes(header: byte) returns (bytes: Buffer)
      requires count <= |list| && size == |Concat(list[..count])|
      modifies `size
      ensures bytes == WrapList(header, count, Concat(list[..count]))
      ensures size == old(size) + (if old(size) > 255 then 3 else 0)
    {
      var values := GetBytes();
      if size > 255 {
        size := size + 3;
        bytes := [0, SMALL_ULONG, header, LIST_32] + Int32(size) + Int32(count) + values;
      } else {
        bytes := [0, SMALL_ULONG, header, LIST_8, size, count % 256] + values;
      }
    }

    // The loop of get_bytes over the elements that are sent.
    method GetBytes() returns (values: Buffer)
      requires count <= |list|
      ensures values == Concat(list[..count])
    {
      values := [];
      var i := 0;
      while i < count
        invariant 0 <= i <= count
        invariant values == Concat(list[..i])
      {
        assert list[..i + 1][..i] == list[..i];
        values := values + list[i];
        i := i + 1;
      }
    }
  }

  // ----- Reading a list back -----

  // The readers look at a field only below the count, and take it as present
  // when its code is not AMQP_NULL.
  function FieldAt(v: Tlv, k: nat): Option<Tlv> {
    if v.value.List? && k < v.value.count && k < |v.value.items| && v.value.items[k].code != NULL
    then Some(v.value.items[k])
    else None
  }

  ghost predicate Sendable(fields: Fields) {
    && CountOf(fields) > 0 && |EncodeAll(Sent(fields))| + 3 < 0x8000_0000
    && forall k :: 0 <= k < |fields| && fields[k].Some? ==> fields[k].value != Null && Serialisable(fields[k].value)
  }

  ghost predicate ReadsBack(fields: Fields, v: Tlv) {
    forall k :: 0 <= k < |fields| ==> FieldAt(v, k) == WireOf(fields[k])
  }

  function WireOf(field: Option<Term>): Option<Tlv> {
    if field.Some? then Some(Wire(field.value)) else None
  }

  // The parser sees a field exactly where one was present, and sees what was
  // wrapped, if and only if the size the code added up fits one byte. Then its
  // cursor ends behind the list; otherwise there is no list, or a hollow one.
  lemma OptionalFieldsSurvive(header: byte, fields: Fields, before: Buffer, after: Buffer)
    requires Sendable(fields)
    ensures var bytes := Encode(Described(header, Sent(fields)));
      var r := GetTlv(before + bytes + after, |before|);
      var small := BytesIn(fields) + CountOf(fields) - PresentIn(fields) <= 255;
      && (r.Good? && ReadsBack(fields, r.value) <==> small)
      && (small ==> r.next == |before| + |bytes| && HeaderOf(r.value) == Some(header) && r.value.value.List?)
      && (!small && r.Good? ==> r.value.value.Hollow? && r.value.value.count == CountOf(fields))
  {
    var items, buf, i := Sent(fields), before + Encode(Described(header, Sent(fields))) + after, |before|;
    assert buf[i..i + |Encode(Described(header, items))|] == Encode(Described(header, items));
    SizeIsSum(fields);
    if |EncodeAll(items)| <= 255 {
      SentSerialisable(fields, CountOf(fields));
      SmallAreWritable(items);
      ParseEncoded(Described(header, items), buf, i);
      WireFields(header, fields);
    } else {
      LongListIsHollow(header, |items|, EncodeAll(items), buf, i);
      assert fields[CountOf(fields) - 1].Some?;
    }
  }

  lemma {:induction false} SentSerialisable(fields: Fields, n: nat)
    requires n <= |fields|
    requires forall k :: 0 <= k < |fields| && fields[k].Some? ==> Serialisable(fields[k].value)
    ensures AllSerialisable(Filled(fields)[..n])
    decreases n
  {
    if n > 0 {
      SentSerialisable(fields[1..], n - 1);
      assert Filled(fields)[..n][1..] == Filled(fields[1..])[..n - 1];
    }
  }

  lemma {:induction false} WireAllAt(items: seq<Term>, k: nat)
    requires k < |items|
    ensures WireAll(items)[k] == Wire(items[k])
  {
    if k > 0 {
      WireAllAt(items[1..], k - 1);
    }
  }

  lemma WireFields(header: byte, fields: Fields)
    requires Sendable(fields) && |EncodeAll(Sent(fields))| <= 255
    ensures ReadsBack(fields, Wire(Described(header, Sent(fields))))
  {
    var items, v := Sent(fields), Wire(Described(header, Sent(fields)));
    forall k | 0 <= k < |fields| ensures FieldAt(v, k) == WireOf(fields[k]) {
      if k < |items| {
        WireAllAt(items, k);
        WireCode(items[k]);
      }
    }
  }

  lemma WireCode(t: Term)
    ensures Wire(t).code == NULL <==> t == Null
  {
  }
}
