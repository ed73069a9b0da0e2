// Whole messages of src/coap/coap_parser.c: the header and the token around the
// options, and the payload behind them.
module CoapMessages {
  import opened Bits
  import opened Bytes
  import opened Coap

  // Token and payload are strings of C.
  datatype Message = Message(kind: nat, code: nat, id: nat, token: Buffer, options: seq<CoapOption>, payload: Buffer)

  ghost predicate Valid(m: Message) {
    && m.kind <= 3 && m.code / 100 <= 7 && m.code % 100 <= 31 && m.id < USHORT
    && |m.token| <= 15 && |m.payload| < USHORT
    && 0 !in m.token && 0 !in m.payload && Ordered(m.options, 0)
  }

  // Section 3 of RFC 7252, version 1. The low bits are free, so the or adds.
  function Head(m: Message): (bytes: Buffer)
    requires Valid(m)
    ensures |bytes| == 4 + |m.token|
  {
    [64 + m.kind * 16 + |m.token|, m.code / 100 * 32 + m.code % 100] + AddShort(m.id) + m.token
  }

  // coap_encode
  function Encode(m: Message): Buffer
    requires Valid(m)
  {
    Head(m) + EncodeOptions(m.options, 0) + [MARKER] + m.payload
  }

  method Write(m: Message) returns (buf: Buffer)
    requires Valid(m)
    ensures buf == Encode(m)
  {
    buf := WriteHead(m);
    var options := WriteOptions(m.options);
    buf := buf + options;
    assert buf == Head(m) + EncodeOptions(m.options, 0) + [MARKER];
    if |m.payload| > 0 {
      buf := buf + m.payload;
    }
  }

  method WriteHead(m: Message) returns (buf: Buffer)
    requires Valid(m)
    ensures buf == Head(m)
  {
    buf := [64 + m.kind * 16 + |m.token|];
    buf := buf + [m.code / 100 * 32 + m.code % 100];
    buf := buf + AddShort(m.id);
    buf := buf + m.token;
  }

  // Rejected: a null pointer with a message. Faulty: as for the options.
  datatype Result = Got(message: Message, end: nat) | Rejected | Faulty

  function CString(s: Buffer): Buffer {
    if s == [] || s[0] == 0 then [] else [s[0]] + CString(s[1..])
  }

  // The payload: as many bytes as are left with the marker, from behind the
  // marker, so that the byte behind the message is the last of them.
  function PayloadAt(buf: Buffer, behind: byte, end: nat): Buffer
    requires end <= |buf|
  {
    if end == |buf| || (buf + [behind])[end + 1] == 0 then [] else CString((buf + [behind])[end + 1..])
  }

  // coap_decode on a message and the byte behind it in memory.
  function Decode(buf: Buffer, behind: byte): Result {
    if |buf| < 4 then Faulty
    else if buf[0] as int / 64 != 1 || buf[0] as int % 16 > 8 then Rejected
    else if 4 + buf[0] as int % 16 > |buf| then Faulty
    else
      var start := 4 + buf[0] as int % 16;
      var options := DecodeOptions(buf, start, 0);
      if options.Invalid? then Rejected
      else if options.Overrun? then Faulty
      else Got(Message(And(buf[0] as int / 16, 2), buf[1] as int / 32 * 100 + buf[1] as int % 32, GetShort(buf, 2),
                       buf[4..start], options.options, PayloadAt(buf, behind, options.end)), options.end)
  }

  lemma {:induction false} CStringOf(s: Buffer, behind: byte)
    requires 0 !in s
    ensures CString(s + [behind]) == s <==> behind == 0
    decreases |s|
  {
    if s == [] {
      assert s + [behind] == [behind] && [behind][1..] == [];
    } else {
      assert (s + [behind])[1..] == s[1..] + [behind];
      CStringOf(s[1..], behind);
      assert s == [s[0]] + s[1..];
      assert ([s[0]] + CString(s[1..] + [behind]))[1..] == CString(s[1..] + [behind]);
    }
  }

  lemma PayloadReadsBack(front: Buffer, payload: Buffer, behind: byte)
    requires 0 !in payload
    ensures PayloadAt(front + [MARKER] + payload, behind, |front|) == payload <==> behind == 0
  {
    var buf := front + [MARKER] + payload;
    assert (buf + [behind])[|front| + 1..] == payload + [behind];
    assert (buf + [behind])[|front| + 1] == (payload + [behind])[0];
    CStringOf(payload, behind);
  }

  // The type is masked with 2 instead of 3.
  lemma KindReadsBack(kind: nat)
    requires kind <= 3
    ensures And(4 + kind, 2) == (if kind >= 2 then 2 else 0)
  {
    assert And(4 + kind, 2) == 2 * And((4 + kind) / 2, 1);
    assert And((4 + kind) / 2, 1) == 2 * And((4 + kind) / 4, 0) + (4 + kind) / 2 % 2;
  }

  ghost predicate HasHead(buf: Buffer, m: Message) {
    && |buf| >= 4 + |m.token|
    && buf[0] as int / 64 == 1 && buf[0] as int % 16 == |m.token| && buf[0] as int / 16 == 4 + m.kind
    && buf[1] as int / 32 * 100 + buf[1] as int % 32 == m.code
    && GetShort(buf, 2) == m.id && buf[4..4 + |m.token|] == m.token
  }

  lemma HeadReadsBack(m: Message, rest: Buffer)
    requires Valid(m)
    ensures HasHead(Head(m) + rest, m)
  {
    ShortRoundTrip(m.id);
    assert m.code == m.code / 100 * 100 + m.code % 100;
  }

  lemma DecodedParts(m: Message, buf: Buffer, behind: byte, end: nat)
    requires HasHead(buf, m) && m.kind <= 3 && end <= |buf|
    ensures Decode(buf, behind) == Got(m, end) <==>
      && (m.kind == 0 || m.kind == 2) && |m.token| <= 8
      && DecodeOptions(buf, 4 + |m.token|, 0) == Options(m.options, end)
      && PayloadAt(buf, behind, end) == m.payload
  {
    KindReadsBack(m.kind);
  }

  // A message comes back, read up to its marker, if and only if it is
  // confirmable or an acknowledgement, its token has at most 8 bytes, its
  // options are good, and the byte behind it in memory is 0.
  lemma MessageRoundTrip(m: Message, behind: byte)
    requires Valid(m)
    ensures
      Decode(Encode(m), behind) == Got(m, |Head(m)| + |EncodeOptions(m.options, 0)|)
      <==> (m.kind == 0 || m.kind == 2) && |m.token| <= 8 && Good(m.options, 0) && behind == 0
  {
    AssembledRoundTrip(m, Head(m), EncodeOptions(m.options, 0), behind);
  }

  lemma AssembledRoundTrip(m: Message, head: Buffer, options: Buffer, behind: byte)
    requires Valid(m) && head == Head(m) && options == EncodeOptions(m.options, 0)
    ensures Decode(head + options + [MARKER] + m.payload, behind) == Got(m, |head| + |options|)
      <==> (m.kind == 0 || m.kind == 2) && |m.token| <= 8 && Good(m.options, 0) && behind == 0
  {
    hide Decode;
    hide DecodeOptions;
    hide PayloadAt;
    hide HasHead;
    var buf := head + options + [MARKER] + m.payload;
    assert buf == head + (options + [MARKER] + m.payload);
    HeadReadsBack(m, options + [MARKER] + m.payload);
    OptionsRoundTrip(m.options, head, m.payload);
    PayloadReadsBack(head + options, m.payload, behind);
    DecodedParts(m, buf, behind, |head| + |options|);
  }
}
