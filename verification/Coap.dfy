// The message codec of src/coap/coap_parser.c up to the payload marker: the
// header, the token and the delta-coded options.
module Coap {
  import opened Bits
  import opened Bytes

  datatype CoapOption = CoapOption(number: nat, value: Buffer)

  const MARKER: byte := 0xFF

  // ----- Encoding -----

  // The four bits for a delta or a length. The code changes form at 0xFF where
  // section 3.1 of RFC 7252 changes at 269.
  function Nibble(x: nat): nat {
    if x < 13 then x else if x < 0xFF then 13 else 14
  }

  // The extended bytes for a delta or a length.
  function Extended(x: nat): Buffer {
    if x < 13 then [] else if x < 0xFF then [x - 13] else AddShort(x - 269)
  }

  function Header(delta: nat, length: nat): byte {
    Nibble(delta) * 16 + Nibble(length)
  }

  function EncodeOption(delta: nat, value: Buffer): (bytes: Buffer)
    ensures |bytes| == 1 + |Extended(delta)| + |Extended(|value|)| + |value|
  {
    [Header(delta, |value|)] + (Extended(delta) + (Extended(|value|) + value))
  }

  // Options in order of their numbers, as section 3.1 of RFC 7252 asks, with
  // values whose length fits the unsigned short it is copied through.
  ghost predicate Ordered(options: seq<CoapOption>, previous: nat) {
    options == [] ||
    (previous <= options[0].number && |options[0].value| < USHORT && Ordered(options[1..], options[0].number))
  }

  function EncodeOptions(options: seq<CoapOption>, previous: nat): Buffer
    requires Ordered(options, previous)
  {
    if options == [] then []
    else EncodeOption(options[0].number - previous, options[0].value) + EncodeOptions(options[1..], options[0].number)
  }

  // What is written and what the options from k on give make up all.
  ghost predicate Pending(buf: Buffer, options: seq<CoapOption>, k: nat, previous: nat, all: Buffer) {
    k <= |options| && Ordered(options[k..], previous) && buf + EncodeOptions(options[k..], previous) == all
  }

  // The option loop of coap_encode.
  method WriteOptions(options: seq<CoapOption>) returns (buf: Buffer)
    requires Ordered(options, 0)
    ensures buf == EncodeOptions(options, 0) + [MARKER]
  {
    buf := [];
    var previous, k := 0, 0;
    ghost var all := EncodeOptions(options, 0);
    assert options[0..] == options && [] + all == all;
    while k < |options|
      invariant k <= |options| && Pending(buf, options, k, previous, all)
    {
      var option := options[k];
      InOrder(buf, options, k, previous, all);
      var bytes := WriteOption(option.number - previous, option.value);
      AppendFirst(buf, options, k, previous, bytes, all);
      buf := buf + bytes;
      previous := option.number;
      k := k + 1;
    }
    assert options[k..] == [] && buf + [] == buf;
    buf := buf + [MARKER];
  }

  lemma InOrder(buf: Buffer, options: seq<CoapOption>, k: nat, previous: nat, all: Buffer)
    requires k < |options| && Pending(buf, options, k, previous, all)
    ensures previous <= options[k].number
  {
    assert options[k..][0] == options[k];
  }

  lemma AppendFirst(buf: Buffer, options: seq<CoapOption>, k: nat, previous: nat, bytes: Buffer, all: Buffer)
    requires k < |options| && Pending(buf, options, k, previous, all) && previous <= options[k].number
    requires bytes == EncodeOption(options[k].number - previous, options[k].value)
    ensures Pending(buf + bytes, options, k + 1, options[k].number, all)
  {
    assert options[k..][0] == options[k] && options[k..][1..] == options[k + 1..];
    var rest := EncodeOptions(options[k + 1..], options[k].number);
    assert EncodeOptions(options[k..], previous) == bytes + rest;
    assert buf + (bytes + rest) == (buf + bytes) + rest;
  }

  method WriteOption(delta: nat, value: Buffer) returns (bytes: Buffer)
    ensures bytes == EncodeOption(delta, value)
  {
    var next := 0;
    var extendedDelta: int := -1;
    if delta < 13 {
      next := next + delta * 16;
    } else {
      extendedDelta := delta;
      if delta < 0xFF {
        next := 13 * 16;
      } else {
        next := 14 * 16;
      }
    }
    var extendedLength: int := -1;
    if |value| < 13 {
      next := next + |value|;
    } else {
      extendedLength := |value|;
      if |value| < 0xFF {
        next := next + 13;
      } else {
        next := next + 14;
      }
    }
    bytes := [next];
    bytes := bytes + WriteExtended(extendedDelta);
    bytes := bytes + WriteExtended(extendedLength);
    bytes := bytes + value;
  }

  function WriteExtended(extended: int): Buffer
    requires extended == -1 || extended >= 13
  {
    if extended == -1 then [] else if extended < 0xFF then [extended - 13] else AddShort(extended - 269)
  }

  // ----- Decoding -----

  // Options: what was decoded, and where the loop stopped: at the marker or at
  // the end. Invalid: the reserved form 15. Overrun: bytes beyond the message.
  datatype Decoded = Options(options: seq<CoapOption>, end: nat) | Invalid | Overrun

  datatype Extension = Extension(x: nat, next: nat) | Reserved | Missing

  function ReadDelta(buf: Buffer, j: nat, nibble: nat): (e: Extension)
    requires j <= |buf| && nibble < 16
    ensures e.Extension? ==> j <= e.next <= |buf|
  {
    if nibble < 13 then Extension(nibble, j)
    else if nibble == 13 then if j < |buf| then Extension(buf[j] as int + 13, j + 1) else Missing
    else if nibble == 14 then if j + 1 < |buf| then Extension(GetShort(buf, j) + 269, j + 2) else Missing
    else Reserved
  }

  // As for the delta, but the two bytes of the long form are not skipped.
  function ReadLength(buf: Buffer, j: nat, nibble: nat): (e: Extension)
    requires j <= |buf| && nibble < 16
    ensures e.Extension? ==> j <= e.next <= |buf|
  {
    if nibble < 13 then Extension(nibble, j)
    else if nibble == 13 then if j < |buf| then Extension(buf[j] as int + 13, j + 1) else Missing
    else if nibble == 14 then if j + 1 < |buf| then Extension(GetShort(buf, j) + 269, j) else Missing
    else Reserved
  }

  function Before(front: seq<CoapOption>, rest: Decoded): Decoded {
    if rest.Options? then Options(front + rest.options, rest.end) else rest
  }

  datatype One = One(delta: nat, value: Buffer, next: nat) | Failed(why: Decoded)

  // One round of the option loop of coap_decode.
  function DecodeOne(buf: Buffer, j: nat): (r: One)
    requires j < |buf|
    ensures r.One? ==> j < r.next <= |buf|
    ensures r.Failed? ==> !r.why.Options?
  {
    var delta := ReadDelta(buf, j + 1, buf[j] as int / 16);
    if !delta.Extension? then Failed(if delta.Reserved? then Invalid else Overrun)
    else
      var length := ReadLength(buf, delta.next, buf[j] as int % 16);
      if !length.Extension? then Failed(if length.Reserved? then Invalid else Overrun)
      else if length.next + length.x > |buf| then Failed(Overrun)
      else One(delta.x, buf[length.next..length.next + length.x], length.next + length.x)
  }

  function DecodeOptions(buf: Buffer, j: nat, number: nat): (d: Decoded)
    requires j <= |buf|
    ensures d.Options? ==> j <= d.end <= |buf|
    decreases |buf| - j
  {
    if j == |buf| || buf[j] == MARKER then Options([], j)
    else
      var one := DecodeOne(buf, j);
      if one.Failed? then one.why
      else Before([CoapOption(number + one.delta, one.value)], DecodeOptions(buf, one.next, number + one.delta))
  }

  method ReadOne(buf: Buffer, start: nat) returns (r: One)
    requires start < |buf|
    ensures r == DecodeOne(buf, start)
  {
    var j := start;
    var next := buf[j];
    j := j + 1;
    var delta := ReadDelta(buf, j, next as int / 16);
    if !delta.Extension? {
      return Failed(if delta.Reserved? then Invalid else Overrun);
    }
    j := delta.next;
    var length := ReadLength(buf, j, next as int % 16);
    if !length.Extension? {
      return Failed(if length.Reserved? then Invalid else Overrun);
    }
    j := length.next;
    if j + length.x > |buf| {
      return Failed(Overrun);
    }
    return One(delta.x, buf[j..j + length.x], j + length.x);
  }

  // The option loop of coap_decode.
  method ReadOptions(buf: Buffer, start: nat) returns (d: Decoded)
    requires start <= |buf|
    ensures d == DecodeOptions(buf, start, 0)
  {
    var options: seq<CoapOption> := [];
    var number: nat, i: nat, j: nat := 0, start, start;
    BeforeNothing(DecodeOptions(buf, start, 0));
    while j < |buf| && buf[j] != MARKER
      invariant start <= i == j <= |buf|
      invariant DecodeOptions(buf, start, 0) == Before(options, DecodeOptions(buf, j, number))
      decreases |buf| - j
    {
      var one := ReadOne(buf, j);
      if one.Failed? {
        return one.why;
      }
      number := number + one.delta;
      BeforeBefore(options, CoapOption(number, one.value), DecodeOptions(buf, one.next, number));
      options := options + [CoapOption(number, one.value)];
      j := one.next;
      i := j;
    }
    assert options + [] == options;
    return Options(options, i);
  }

  lemma BeforeNothing(d: Decoded)
    ensures Before([], d) == d
  {
    if d.Options? {
      assert [] + d.options == d.options;
    }
  }

  lemma BeforeBefore(front: seq<CoapOption>, option: CoapOption, d: Decoded)
    ensures Before(front, Before([option], d)) == Before(front + [option], d)
  {
    if d.Options? {
      assert front + ([option] + d.options) == (front + [option]) + d.options;
    }
  }

  // ----- What comes back -----

  // The deltas and lengths that the two ends write and read alike.
  predicate GoodDelta(delta: int) {
    0 <= delta <= 254 || 269 <= delta <= 65804
  }

  predicate Good(options: seq<CoapOption>, previous: nat) {
    options == [] ||
    (GoodDelta(options[0].number - previous) && |options[0].value| <= 254 && Good(options[1..], options[0].number))
  }

  lemma DeltaReadsBack(buf: Buffer, j: nat, delta: nat)
    requires At(buf, j, Extended(delta)) && GoodDelta(delta)
    ensures ReadDelta(buf, j, Nibble(delta)) == Extension(delta, j + |Extended(delta)|)
  {
    if 13 <= delta {
      AtByte(buf, j, Extended(delta), 0);
      if 0xFF <= delta {
        AtByte(buf, j, Extended(delta), 1);
        ShortRoundTrip(delta - 269);
      }
    }
  }

  lemma LengthReadsBack(buf: Buffer, j: nat, length: nat)
    requires At(buf, j, Extended(length)) && length <= 254
    ensures ReadLength(buf, j, Nibble(length)) == Extension(length, j + |Extended(length)|)
  {
    if 13 <= length {
      AtByte(buf, j, Extended(length), 0);
    }
  }

  lemma HeaderNibbles(delta: nat, length: nat)
    ensures Header(delta, length) as int / 16 == Nibble(delta) && Header(delta, length) as int % 16 == Nibble(length)
    ensures Header(delta, length) != MARKER
  {
  }

  lemma OptionReadsBack(buf: Buffer, j: nat, delta: nat, value: Buffer)
    requires GoodDelta(delta) && |value| <= 254 && At(buf, j, EncodeOption(delta, value))
    ensures buf[j] != MARKER
    ensures DecodeOne(buf, j) == One(delta, value, j + |EncodeOption(delta, value)|)
  {
    hide DecodeOne;
    hide ReadDelta;
    hide ReadLength;
    var tail := Extended(|value|) + value;
    AtParts(buf, j, [Header(delta, |value|)], Extended(delta) + tail);
    AtParts(buf, j + 1, Extended(delta), tail);
    var k := j + 1 + |Extended(delta)|;
    AtParts(buf, k, Extended(|value|), value);
    AtByte(buf, j, [Header(delta, |value|)], 0);
    HeaderNibbles(delta, |value|);
    DeltaReadsBack(buf, j + 1, delta);
    LengthReadsBack(buf, k, |value|);
    OneOfParts(buf, j, delta, k, value, k + |Extended(|value|)|);
  }

  lemma OneOfParts(buf: Buffer, j: nat, delta: nat, k: nat, value: Buffer, start: nat)
    requires j < |buf| && k <= |buf| && At(buf, start, value)
    requires ReadDelta(buf, j + 1, buf[j] as int / 16) == Extension(delta, k)
    requires ReadLength(buf, k, buf[j] as int % 16) == Extension(|value|, start)
    ensures DecodeOne(buf, j) == One(delta, value, start + |value|)
  {
  }

  lemma {:induction false} GoodReadsBack(buf: Buffer, j: nat, options: seq<CoapOption>, previous: nat)
    requires Ordered(options, previous) && Good(options, previous)
    requires At(buf, j, EncodeOptions(options, previous) + [MARKER])
    ensures DecodeOptions(buf, j, previous) == Options(options, j + |EncodeOptions(options, previous)|)
    decreases |options|
  {
    if options == [] {
      AtByte(buf, j, [MARKER], 0);
    } else {
      var delta, value := options[0].number - previous, options[0].value;
      var next := j + |EncodeOption(delta, value)|;
      FirstIsGood(buf, j, options, previous, next);
      GoodReadsBack(buf, next, options[1..], options[0].number);
      FirstDecoded(buf, j, previous, options, next);
    }
  }

  lemma FirstIsGood(buf: Buffer, j: nat, options: seq<CoapOption>, previous: nat, next: nat)
    requires options != [] && Ordered(options, previous)
    requires GoodDelta(options[0].number - previous) && |options[0].value| <= 254
    requires At(buf, j, EncodeOptions(options, previous) + [MARKER])
    requires next == j + |EncodeOption(options[0].number - previous, options[0].value)|
    ensures j < |buf| && buf[j] != MARKER
    ensures DecodeOne(buf, j) == One(options[0].number - previous, options[0].value, next)
    ensures At(buf, next, EncodeOptions(options[1..], options[0].number) + [MARKER])
  {
    hide DecodeOne;
    var delta, value := options[0].number - previous, options[0].value;
    AtFirst(buf, j, EncodeOption(delta, value), EncodeOptions(options[1..], options[0].number));
    OptionReadsBack(buf, j, delta, value);
  }

  lemma AtFirst(buf: Buffer, j: nat, first: Buffer, rest: Buffer)
    requires At(buf, j, first + rest + [MARKER])
    ensures At(buf, j, first) && At(buf, j + |first|, rest + [MARKER])
  {
    assert first + rest + [MARKER] == first + (rest + [MARKER]);
    AtParts(buf, j, first, rest + [MARKER]);
  }

  lemma FirstDecoded(buf: Buffer, j: nat, previous: nat, options: seq<CoapOption>, next: nat)
    requires options != [] && previous <= options[0].number && j < |buf| && buf[j] != MARKER
    requires DecodeOne(buf, j) == One(options[0].number - previous, options[0].value, next)
    requires DecodeOptions(buf, next, options[0].number).Options?
    requires DecodeOptions(buf, next, options[0].number).options == options[1..]
    ensures DecodeOptions(buf, j, previous) == Options(options, DecodeOptions(buf, next, options[0].number).end)
  {
    assert [options[0]] + options[1..] == options;
  }

  // The bytes the decoder consumes for an option it has decoded.
  function Consumed(delta: nat, length: nat): nat {
    1 + (if delta < 13 then 0 else if delta < 269 then 1 else 2)
      + (if length < 13 then 0 else if length < 269 then 1 else 0) + length
  }

  function ConsumedAll(options: seq<CoapOption>, previous: nat): nat
    requires Ordered(options, previous)
  {
    if options == [] then 0
    else Consumed(options[0].number - previous, |options[0].value|) + ConsumedAll(options[1..], options[0].number)
  }

  // The deltas that the long form can carry.
  ghost predicate Reached(options: seq<CoapOption>, previous: nat) {
    options == [] || (options[0].number - previous <= 65804 && Reached(options[1..], options[0].number))
  }

  lemma OneConsumes(buf: Buffer, j: nat)
    requires j < |buf| && DecodeOne(buf, j).One?
    ensures var one := DecodeOne(buf, j);
      one.next == j + Consumed(one.delta, |one.value|) && one.delta <= 65804
  {
  }

  lemma {:induction false} DecoderConsumes(buf: Buffer, j: nat, number: nat, options: seq<CoapOption>)
    requires j <= |buf| && Ordered(options, number)
    requires DecodeOptions(buf, j, number).Options? && DecodeOptions(buf, j, number).options == options
    ensures DecodeOptions(buf, j, number).end == j + ConsumedAll(options, number)
    ensures Reached(options, number)
    decreases |options|
  {
    if options != [] {
      var one := DecodeOne(buf, j);
      OneConsumes(buf, j);
      var rest := DecodeOptions(buf, one.next, number + one.delta);
      assert options == [CoapOption(number + one.delta, one.value)] + rest.options;
      assert rest.options == options[1..];
      DecoderConsumes(buf, one.next, number + one.delta, options[1..]);
    }
  }

  // The encoder never writes less than the decoder consumes, and as much only
  // for options the two treat alike.
  lemma {:induction false} EncoderWrites(options: seq<CoapOption>, previous: nat)
    requires Ordered(options, previous) && Reached(options, previous)
    ensures |EncodeOptions(options, previous)| >= ConsumedAll(options, previous)
    ensures |EncodeOptions(options, previous)| == ConsumedAll(options, previous) <==> Good(options, previous)
    decreases |options|
  {
    if options != [] {
      EncoderWrites(options[1..], options[0].number);
      OneWrites(options[0].number - previous, options[0].value);
    }
  }

  lemma OneWrites(delta: nat, value: Buffer)
    requires delta <= 65804
    ensures |EncodeOption(delta, value)| >= Consumed(delta, |value|)
    ensures |EncodeOption(delta, value)| == Consumed(delta, |value|) <==> GoodDelta(delta) && |value| <= 254
  {
  }

  // Decoding the encoded options gives the same options and stops exactly at the
  // payload marker if and only if every delta is in 0..254 or 269..65804 and
  // every length at most 254.
  lemma OptionsRoundTrip(options: seq<CoapOption>, before: Buffer, payload: Buffer)
    requires Ordered(options, 0)
    ensures
      DecodeOptions(before + EncodeOptions(options, 0) + [MARKER] + payload, |before|, 0)
        == Options(options, |before| + |EncodeOptions(options, 0)|)
      <==> Good(options, 0)
  {
    var encoded := EncodeOptions(options, 0);
    var buf := before + encoded + [MARKER] + payload;
    assert buf[|before|..|before| + |encoded + [MARKER]|] == encoded + [MARKER];
    if Good(options, 0) {
      GoodReadsBack(buf, |before|, options, 0);
    }
    if DecodeOptions(buf, |before|, 0) == Options(options, |before| + |encoded|) {
      DecoderConsumes(buf, |before|, 0, options);
      EncoderWrites(options, 0);
    }
  }

  // No option begins with the marker, whatever its delta and length.
  lemma HeaderIsNoMarker(delta: nat, value: Buffer)
    ensures EncodeOption(delta, value)[0] != MARKER
  {
    HeaderNibbles(delta, |value|);
  }
}
