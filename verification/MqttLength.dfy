// The variable-length integer of MQTT (src/helpers.c, src/mqtt/parser.c) and how
// src/mqtt/mqtt_client.c cuts what it received into packets by it.
module MqttLength {
  import opened Bytes
  import opened Wrappers
  import opened Splitting

  const MAXIMUM := 268435455

  // Section 2.2.3 of MQTT 3.1.1: seven bits a byte, low bits first, the high bit
  // set on every byte but the last.
  function Digits(n: nat): (bytes: Buffer)
    ensures |bytes| > 0 && (n < 128 ==> bytes == [n])
    ensures n >= 128 ==> |bytes| > 1 && bytes[0] == n % 128 + 128
  {
    if n < 128 then [n] else [n % 128 + 128] + Digits(n / 128)
  }

  // add_packet_length, which writes behind the byte of the packet type.
  method AddPacketLength(length: nat, buf: array<byte>) returns (pos: nat)
    requires 1 + |Digits(length)| <= buf.Length
    modifies buf
    ensures pos == 1 + |Digits(length)| && buf[1..pos] == Digits(length)
    ensures buf[0] == old(buf[0]) && buf[pos..] == old(buf[pos..])
  {
    var l := length;
    pos := 1;
    ghost var before := buf[..];
    while true
      invariant 1 <= pos && pos + |Digits(l)| == 1 + |Digits(length)|
      invariant buf[1..pos] + Digits(l) == Digits(length)
      invariant buf[0] == before[0] && buf[pos..] == before[pos..]
      decreases l
    {
      ghost var done, at := buf[1..pos], pos;
      var enc := l % 128;
      if l / 128 > 0 {
        // enc is below 128, so the or adds
        buf[pos] := enc + 128;
      } else {
        buf[pos] := enc;
      }
      pos := pos + 1;
      assert buf[1..pos] == done + [buf[at]];
      assert buf[pos..] == buf[at..][1..] && before[pos..] == before[at..][1..];
      if l / 128 == 0 {
        assert done + [enc] == done + Digits(l);
        return;
      }
      assert done + Digits(l) == (done + [enc + 128]) + Digits(l / 128);
      l := l / 128;
    }
  }

  // remaining_length, with its limit of 26843545.
  function RemainingLength(n: nat): nat {
    if n <= 127 then 1
    else if n <= 16383 then 2
    else if n <= 2097151 then 3
    else if n <= 26843545 then 4
    else 0
  }

  // The count of bytes written is the count announced exactly up to that limit,
  // which misses a digit of the standard's 268435455.
  lemma CountsAgree(n: nat)
    ensures |Digits(n)| == RemainingLength(n) <==> n <= 26843545
    ensures n <= MAXIMUM <==> |Digits(n)| <= 4
  {
    var a := n / 128;
    var b := a / 128;
    var c := b / 128;
    var d := c / 128;
    assert a < 128 <==> n < 16384;
    assert b < 128 <==> n < 2097152;
    assert c < 128 <==> n < 268435456;
    assert n >= 128 ==> |Digits(n)| == 1 + |Digits(a)|;
    assert a >= 128 ==> |Digits(a)| == 1 + |Digits(b)|;
    assert b >= 128 ==> |Digits(b)| == 1 + |Digits(c)|;
    assert c >= 128 ==> |Digits(c)| == 1 + |Digits(d)|;
  }

  // ----- Decoding -----

  // The standard's algorithm: value and bytes used, none where a fifth byte
  // would be needed or the bytes end.
  function Value(bytes: Buffer, digits: nat): Option<(nat, nat)>
    decreases digits
  {
    if digits == 0 || bytes == [] then None
    else if bytes[0] < 128 then Some((bytes[0] as nat, 1))
    else
      var rest := Value(bytes[1..], digits - 1);
      if rest == None then None
      else Some((bytes[0] as nat - 128 + 128 * rest.value.0, 1 + rest.value.1))
  }

  lemma {:induction false} ValueOfDigits(n: nat, rest: Buffer, digits: nat)
    requires |Digits(n)| <= digits
    ensures Value(Digits(n) + rest, digits) == Some((n, |Digits(n)|))
    decreases n
  {
    if n >= 128 {
      ValueOfDigits(n / 128, rest, digits - 1);
      assert (Digits(n) + rest)[1..] == Digits(n / 128) + rest;
      assert n == 128 * (n / 128) + n % 128;
    } else {
      assert (Digits(n) + rest)[0] == n;
    }
  }

  datatype LengthDetails = LengthDetails(length: int, bytesUsed: int)

  // What comes of a buffer: None where the length byte is behind its end.
  function DecodeLength(buf: Buffer): Option<LengthDetails> {
    if |buf| < 2 then None
    else if buf[1] < 128 then Some(LengthDetails(buf[1] as int + 2, 1))
    else Some(LengthDetails(-1, -1))
  }

  // decode_remaining_length: the index stays on the first length byte.
  method DecodeRemainingLength(buf: Buffer) returns (details: Option<LengthDetails>)
    ensures details == DecodeLength(buf)
  {
    var i, length, multiplier, bytesUsed := 1, 0, 1, 0;
    var enc: byte := 0;
    while true
      invariant i == 1 && 0 <= bytesUsed <= 4
      invariant bytesUsed == 0 ==> multiplier == 1 && length == 0
      invariant bytesUsed > 0 ==> |buf| > 1 && buf[1] >= 128
      invariant multiplier == [1, 128, 16384, 2097152, 268435456][bytesUsed]
      decreases 4 - bytesUsed
    {
      if multiplier > 128 * 128 * 128 {
        return Some(LengthDetails(-1, -1));
      }
      if i >= |buf| {
        return None;
      }
      enc := buf[i];
      length := length + enc % 128 * multiplier;
      multiplier := multiplier * 128;
      bytesUsed := bytesUsed + 1;
      if enc < 128 {
        return Some(LengthDetails(length + 2, bytesUsed));
      }
    }
  }

  // The decoder gives the length of the packet for an encoded length up to 127,
  // and an error for every longer one. The standard's algorithm reads all of them
  // back.
  lemma LengthRoundTrip(n: nat, kind: byte, rest: Buffer)
    ensures var buf := [kind] + Digits(n) + rest;
      && DecodeLength(buf) == Some(if n <= 127 then LengthDetails(n + 2, 1) else LengthDetails(-1, -1))
      && (n <= MAXIMUM <==> Value(buf[1..], 4) == Some((n, |Digits(n)|)))
  {
    var buf := [kind] + Digits(n) + rest;
    assert buf[1..] == Digits(n) + rest && buf[1] == Digits(n)[0];
    CountsAgree(n);
    if n <= MAXIMUM {
      ValueOfDigits(n, rest, 4);
    }
    ValueIsShort(buf[1..], 4);
  }

  lemma {:induction false} ValueIsShort(bytes: Buffer, digits: nat)
    ensures Value(bytes, digits).Some? ==> 1 <= Value(bytes, digits).value.1 <= digits
    decreases digits
  {
    if digits > 0 && bytes != [] && bytes[0] >= 128 {
      ValueIsShort(bytes[1..], digits - 1);
    }
  }

  // ----- Packets -----

  // The rounds of the loop of mqtt_data_received.
  function SplitFrom(buf: Buffer, i: nat): Split
    requires i <= |buf|
    decreases |buf| - i
  {
    if i == |buf| then Frames([])
    else if i + 2 > |buf| || i + buf[i + 1] as int + 2 > |buf| then Broken
    else
      var end := i + buf[i + 1] as int + 2;
      Prepend([buf[i..end]], SplitFrom(buf, end))
  }

  function SplitAll(buf: Buffer): Split {
    if |buf| < 2 then Broken
    else if buf[1] as int + 2 < |buf| then SplitFrom(buf, 0)
    else Frames([buf])
  }

  lemma CutNext(buf: Buffer, i: nat, length: nat, processed: seq<Buffer>, all: Split)
    requires i + 2 <= |buf| && length == buf[i + 1] as int + 2 && i + length <= |buf|
    requires all == Prepend(processed, SplitFrom(buf, i))
    ensures all == Prepend(processed + [buf[i..i + length]], SplitFrom(buf, i + length))
  {
    PrependOne(processed, buf[i..i + length], SplitFrom(buf, i + length));
  }

  method DataReceived(buf: Buffer) returns (processed: seq<Buffer>, ok: bool)
    ensures ok <==> SplitAll(buf).Frames?
    ensures ok ==> SplitAll(buf) == Frames(processed)
  {
    processed, ok := [], false;
    if |buf| < 2 {
      return;
    }
    var i, length := 0, buf[1] as int + 2;
    if length >= |buf| {
      return [buf], true;
    }
    PrependNothing(SplitFrom(buf, 0));
    while i < |buf|
      invariant 0 <= i <= |buf|
      invariant i + 1 < |buf| ==> length == buf[i + 1] as int + 2
      invariant SplitFrom(buf, 0) == Prepend(processed, SplitFrom(buf, i))
      decreases |buf| - i
    {
      if i + 2 > |buf| || i + length > |buf| {
        assert SplitFrom(buf, i) == Broken;
        return;
      }
      CutNext(buf, i, length, processed, SplitFrom(buf, 0));
      processed := processed + [buf[i..i + length]];
      i := i + length;
      length := if i + 1 < |buf| then buf[i + 1] as int + 2 else 2;
    }
    assert processed + [] == processed;
    return processed, true;
  }

  // A packet: its type, the length of its body, and the body.
  datatype Packet = Packet(kind: byte, body: Buffer)

  function PacketBytes(p: Packet): (bytes: Buffer)
    ensures |bytes| >= 2 && bytes[1] == Digits(|p.body|)[0]
  {
    [p.kind] + Digits(|p.body|) + p.body
  }

  function AllBytes(packets: seq<Packet>): (all: seq<Buffer>)
    ensures |all| == |packets|
  {
    if packets == [] then [] else [PacketBytes(packets[0])] + AllBytes(packets[1..])
  }

  predicate AllShort(packets: seq<Packet>) {
    forall k :: 0 <= k < |packets| ==> |packets[k].body| <= 127
  }

  lemma LengthByte(p: Packet)
    ensures PacketBytes(p)[1] as int + 2 == |PacketBytes(p)| <==> |p.body| <= 127
    ensures |p.body| > 127 ==> PacketBytes(p)[1] as int + 2 < |PacketBytes(p)|
  {
  }

  lemma {:induction false} PacketsSplit(packets: seq<Packet>, buf: Buffer, i: nat)
    requires i <= |buf| && buf[i..] == Flatten(AllBytes(packets))
    ensures SplitFrom(buf, i) == Frames(AllBytes(packets)) <==> AllShort(packets)
    decreases |packets|
  {
    hide PacketBytes;
    if packets != [] {
      var p, rest := PacketBytes(packets[0]), packets[1..];
      assert AllBytes(packets)[0] == p && AllBytes(packets)[1..] == AllBytes(rest);
      FirstPart(buf, i, p, Flatten(AllBytes(rest)));
      PacketsSplit(rest, buf, i + |p|);
      FirstPacket(packets, p, buf, i);
    }
  }

  // Given how the packets behind the first one are cut.
  lemma FirstPacket(packets: seq<Packet>, p: Buffer, buf: Buffer, i: nat)
    requires packets != [] && p == PacketBytes(packets[0])
    requires i + |p| <= |buf| && buf[i..i + |p|] == p && buf[i + 1] == p[1]
    requires SplitFrom(buf, i + |p|) == Frames(AllBytes(packets[1..])) <==> AllShort(packets[1..])
    ensures SplitFrom(buf, i) == Frames(AllBytes(packets)) <==> AllShort(packets)
  {
    LengthByte(packets[0]);
    ShortFirst(packets);
    FirstCut(buf, i, p, AllBytes(packets[1..]));
  }

  lemma FirstPart(buf: Buffer, i: nat, p: Buffer, rest: Buffer)
    requires i <= |buf| && buf[i..] == p + rest
    ensures i + |p| <= |buf| && buf[i..i + |p|] == p && buf[i + |p|..] == rest
    ensures |p| >= 2 ==> buf[i + 1] == p[1]
  {
    assert buf[i..][..|p|] == p && buf[i..][|p|..] == rest;
    assert |p| >= 2 ==> buf[i..][1] == p[1];
  }

  lemma ShortFirst(packets: seq<Packet>)
    requires packets != []
    ensures AllShort(packets) <==> |packets[0].body| <= 127 && AllShort(packets[1..])
  {
    assert forall k :: 0 <= k < |packets| - 1 ==> packets[1..][k] == packets[k + 1];
    assert forall k :: 0 < k < |packets| ==> packets[k] == packets[1..][k - 1];
  }

  // Whether the loop cuts off p first depends on its length byte alone.
  lemma FirstCut(buf: Buffer, i: nat, p: Buffer, rest: seq<Buffer>)
    requires |p| >= 2 && i + |p| <= |buf| && buf[i..i + |p|] == p && buf[i + 1] == p[1]
    ensures SplitFrom(buf, i) == Frames([p] + rest) <==>
            p[1] as int + 2 == |p| && SplitFrom(buf, i + |p|) == Frames(rest)
  {
    var end := i + p[1] as int + 2;
    if end == i + |p| {
      SplitFirst(p, SplitFrom(buf, i + |p|), rest);
    } else if SplitFrom(buf, i).Frames? {
      assert SplitFrom(buf, i).frames[0] == buf[i..end];
      assert |buf[i..end]| != |p| && ([p] + rest)[0] == p;
    }
  }

  lemma SplitFirst(p: Buffer, s: Split, rest: seq<Buffer>)
    ensures Prepend([p], s) == Frames([p] + rest) <==> s == Frames(rest)
  {
    if s.Frames? {
      assert ([p] + s.frames)[1..] == s.frames && ([p] + rest)[1..] == rest;
    }
  }

  // A stream of packets is cut into exactly these packets if and only if each
  // has a body of at most 127 bytes.
  lemma StreamSplits(packets: seq<Packet>)
    requires packets != []
    ensures SplitAll(Flatten(AllBytes(packets))) == Frames(AllBytes(packets)) <==> AllShort(packets)
  {
    var buf, p := Flatten(AllBytes(packets)), PacketBytes(packets[0]);
    assert buf[0..] == buf;
    PacketsSplit(packets, buf, 0);
    LengthByte(packets[0]);
    assert buf[..|p|] == p && buf[1] == p[1];
    if buf[1] as int + 2 >= |buf| {
      assert |p| == |buf| && |packets[0].body| <= 127;
      OnlyPacket(packets);
    }
  }

  lemma OnlyPacket(packets: seq<Packet>)
    requires packets != [] && |Flatten(AllBytes(packets))| == |PacketBytes(packets[0])|
    ensures AllBytes(packets) == [Flatten(AllBytes(packets))] && |packets| == 1
  {
    var rest := packets[1..];
    assert AllBytes(packets)[1..] == AllBytes(rest);
    var p := PacketBytes(packets[0]);
    assert p + [] == p && Flatten(AllBytes(packets)) == p + Flatten(AllBytes(rest));
  }
}
