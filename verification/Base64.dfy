// The base64 codec of src/ws/base64_parser.c.
module Base64 {
  import opened Bytes

  const EQUALS: byte := 61

  // encoding_table
  function Letter(k: nat): byte
    requires k < 64
  {
    if k < 26 then 65 + k
    else if k < 52 then 97 + (k - 26)
    else if k < 62 then 48 + (k - 52)
    else if k == 62 then 43
    else 47
  }

  predicate IsLetter(c: byte) {
    65 <= c <= 90 || 97 <= c <= 122 || 48 <= c <= 57 || c == 43 || c == 47
  }

  function Index(c: byte): (k: nat)
    requires IsLetter(c)
    ensures k < 64 && Letter(k) == c
  {
    if 65 <= c <= 90 then c - 65
    else if 97 <= c <= 122 then c - 97 + 26
    else if 48 <= c <= 57 then c - 48 + 52
    else if c == 43 then 62
    else 63
  }

  // The decoding table inverts the encoding table. Elsewhere it holds whatever
  // malloc returned.
  ghost predicate IsTable(table: seq<byte>) {
    |table| == 256 && forall k :: 0 <= k < 64 ==> table[Letter(k)] == k
  }

  // build_decoding_table
  method BuildTable(table: array<byte>)
    requires table.Length == 256
    modifies table
    ensures IsTable(table[..])
  {
    var i := 0;
    while i < 64
      invariant 0 <= i <= 64
      invariant forall k :: 0 <= k < i ==> table[Letter(k)] == k
    {
      table[Letter(i)] := i;
      i := i + 1;
    }
  }

  // n >> bits, bit by bit. A mask by 2^k - 1 is written as a remainder.
  function Shift(n: nat, bits: nat): nat {
    if bits == 0 then n else Shift(n / 2, bits - 1)
  }

  lemma ShiftTwice(n: nat, a: nat, b: nat)
    ensures Shift(Shift(n, a), b) == Shift(n, a + b)
  {
  }

  lemma ShiftSix(n: nat)
    ensures Shift(n, 6) == n / 64
  {
    var m := n / 2 / 2 / 2;
    assert Shift(n, 6) == Shift(n / 2, 5) == Shift(n / 2 / 2, 4) == Shift(m, 3);
    assert Shift(m, 3) == Shift(m / 2, 2) == Shift(m / 2 / 2, 1) == m / 2 / 2 / 2;
  }

  lemma ShiftEight(n: nat)
    ensures Shift(n, 8) == n / 256
  {
    ShiftTwice(n, 6, 2);
    ShiftSix(n);
    assert Shift(n / 64, 2) == Shift(n / 64 / 2, 1) == n / 64 / 2 / 2;
  }

  // ----- Encoding -----

  // The four characters of a triple of octets.
  function Quad(a: byte, b: byte, c: byte): (q: Buffer)
    ensures |q| == 4
  {
    var triple := a as int * 0x1_0000 + b as int * 0x100 + c;
    [Letter(Shift(triple, 18) % 64), Letter(Shift(triple, 12) % 64), Letter(Shift(triple, 6) % 64), Letter(triple % 64)]
  }

  // Section 4 of RFC 4648: groups of three octets, the last one padded.
  function Encode(data: Buffer): Buffer {
    if data == [] then []
    else if |data| == 1 then Quad(data[0], 0, 0)[..2] + [EQUALS, EQUALS]
    else if |data| == 2 then Quad(data[0], data[1], 0)[..3] + [EQUALS]
    else Quad(data[0], data[1], data[2]) + Encode(data[3..])
  }

  // What the loop writes before the padding overwrites it.
  function Raw(data: Buffer): (s: Buffer)
    ensures |s| == 4 * ((|data| + 2) / 3)
  {
    if data == [] then []
    else if |data| <= 3 then
      Quad(data[0], if |data| > 1 then data[1] else 0, if |data| > 2 then data[2] else 0)
    else Quad(data[0], data[1], data[2]) + Raw(data[3..])
  }

  function PadCount(n: nat): (k: nat)
    ensures k <= 2 && (n + k) % 3 == 0
  {
    if n % 3 == 0 then 0 else if n % 3 == 1 then 2 else 1
  }

  function Pads(k: nat): (s: Buffer)
    ensures |s| == k && forall i :: 0 <= i < k ==> s[i] == EQUALS
  {
    seq(k, _ => EQUALS)
  }

  ghost predicate PadsTo(raw: Buffer, k: nat, s: Buffer) {
    |raw| >= 4 && k <= 2 && raw[..|raw| - k] + Pads(k) == s
  }

  lemma {:induction false} PaddingOverRaw(data: Buffer)
    requires data != []
    ensures PadsTo(Raw(data), PadCount(|data|), Encode(data))
    decreases |data|
  {
    if |data| > 3 {
      PaddingOverRaw(data[3..]);
      SamePads(|data|);
      PadBehind(Quad(data[0], data[1], data[2]), Raw(data[3..]), PadCount(|data| - 3), Encode(data[3..]));
    } else {
      LastEncoded(data, Raw(data));
      PadLast(Raw(data), |data|);
    }
  }

  // A group of four characters for n octets.
  function LastGroupOf(q: Buffer, n: nat): Buffer
    requires |q| == 4
  {
    if n == 1 then q[..2] + [EQUALS, EQUALS] else if n == 2 then q[..3] + [EQUALS] else q
  }

  lemma LastEncoded(data: Buffer, q: Buffer)
    requires 1 <= |data| <= 3
    requires q == Quad(data[0], if |data| > 1 then data[1] else 0, if |data| > 2 then data[2] else 0)
    ensures Encode(data) == LastGroupOf(q, |data|)
  {
    assert |data| == 3 ==> data[3..] == [] && q + [] == q;
  }

  lemma PadLast(q: Buffer, n: nat)
    requires |q| == 4 && 1 <= n <= 3
    ensures PadsTo(q, PadCount(n), LastGroupOf(q, n))
  {
    assert Pads(0) == [] && Pads(1) == [EQUALS] && Pads(2) == [EQUALS, EQUALS];
  }

  lemma SamePads(n: nat)
    requires n > 3
    ensures PadCount(n - 3) == PadCount(n)
  {
  }

  lemma PadBehind(q: Buffer, rest: Buffer, k: nat, s: Buffer)
    requires PadsTo(rest, k, s)
    ensures PadsTo(q + rest, k, q + s)
  {
    assert (q + rest)[..|q + rest| - k] == q + rest[..|rest| - k];
  }

  // The last k characters are padding and no other.
  ghost predicate Padded(s: Buffer, k: nat) {
    && |s| >= 4 && k <= 2
    && (forall i :: 0 <= i < |s| - k ==> s[i] != EQUALS)
    && (forall i :: |s| - k <= i < |s| ==> s[i] == EQUALS)
  }

  // The length and the padding of the characters for n octets.
  ghost predicate Shaped(s: Buffer, n: nat) {
    |s| == 4 * ((n + 2) / 3) && |s| % 4 == 0 && Padded(s, PadCount(n))
  }

  // Output lengths and padding.
  lemma {:induction false} EncodeShape(data: Buffer)
    requires data != []
    ensures Shaped(Encode(data), |data|)
    decreases |data|
  {
    if |data| > 3 {
      EncodeShape(data[3..]);
      ShapedBehind(data[0], data[1], data[2], Encode(data[3..]), |data|);
    } else {
      LastQuad(data);
    }
  }

  lemma ShapedBehind(a: byte, b: byte, c: byte, rest: Buffer, n: nat)
    requires n > 3 && Shaped(rest, n - 3)
    ensures Shaped(Quad(a, b, c) + rest, n)
  {
    PaddedBehind(a, b, c, rest, PadCount(n - 3));
    OneGroupMore(n, |rest|, Quad(a, b, c) + rest);
  }

  lemma OneGroupMore(n: nat, length: nat, s: Buffer)
    requires n > 3 && length == 4 * ((n - 3 + 2) / 3) && |s| == 4 + length && Padded(s, PadCount(n - 3))
    ensures Shaped(s, n)
  {
    SamePads(n);
    assert (n + 2) / 3 == 1 + (n - 3 + 2) / 3;
  }

  lemma PaddedBehind(a: byte, b: byte, c: byte, rest: Buffer, k: nat)
    requires Padded(rest, k)
    ensures Padded(Quad(a, b, c) + rest, k)
  {
    QuadLetters(a, b, c);
  }

  lemma LastQuad(data: Buffer)
    requires 1 <= |data| <= 3
    ensures |Encode(data)| == 4 && Padded(Encode(data), PadCount(|data|)) && LastGroup(Encode(data))
  {
    var b, c := if |data| > 1 then data[1] else 0, if |data| > 2 then data[2] else 0;
    QuadLetters(data[0], b, c);
    LastEncoded(data, Quad(data[0], b, c));
    PadGroup(Quad(data[0], b, c), |data|, Encode(data));
  }

  lemma PadGroup(q: Buffer, n: nat, s: Buffer)
    requires |q| == 4 && 1 <= n <= 3
    requires s == LastGroupOf(q, n)
    requires IsLetter(q[0]) && IsLetter(q[1]) && IsLetter(q[2]) && IsLetter(q[3])
    requires n == 2 ==> Index(q[2]) % 4 == 0
    requires n == 1 ==> Index(q[1]) % 16 == 0
    ensures |s| == 4 && Padded(s, PadCount(n)) && LastGroup(s)
  {
    assert s == [q[0], q[1], if n == 1 then EQUALS else q[2], if n == 3 then q[3] else EQUALS];
  }

  lemma {:induction false} EncodeIsCanonical(data: Buffer)
    requires data != []
    ensures Canonical(Encode(data))
    decreases |data|
  {
    if |data| > 3 {
      EncodeIsCanonical(data[3..]);
      CanonicalBehind(data[0], data[1], data[2], Encode(data[3..]));
    } else {
      LastQuad(data);
    }
  }

  lemma CanonicalBehind(a: byte, b: byte, c: byte, rest: Buffer)
    requires Canonical(rest)
    ensures Canonical(Quad(a, b, c) + rest)
  {
    QuadLetters(a, b, c);
    assert (Quad(a, b, c) + rest)[4..] == rest;
  }

  lemma QuadLetters(a: byte, b: byte, c: byte)
    ensures var q := Quad(a, b, c);
      && IsLetter(q[0]) && IsLetter(q[1]) && IsLetter(q[2]) && IsLetter(q[3])
      && q[0] != EQUALS && q[1] != EQUALS && q[2] != EQUALS && q[3] != EQUALS
      && (c == 0 ==> Index(q[2]) % 4 == 0)
      && (b == 0 && c == 0 ==> Index(q[1]) % 16 == 0)
  {
    QuadIndexes(a, b, c);
    ZeroBits(a as int, b as int, c as int);
  }

  lemma ZeroBits(a: nat, b: nat, c: nat)
    ensures c == 0 ==> (b % 16 * 4 + c / 64) % 4 == 0
    ensures b == 0 ==> (a % 4 * 16 + b / 16) % 16 == 0
  {
  }

  lemma LetterIndex(k: nat)
    requires k < 64
    ensures IsLetter(Letter(k)) && Index(Letter(k)) == k && Letter(k) != EQUALS
  {
  }

  // The sextets of three octets.
  lemma QuadIndexes(a: byte, b: byte, c: byte)
    ensures var q := Quad(a, b, c);
      && IsLetter(q[0]) && IsLetter(q[1]) && IsLetter(q[2]) && IsLetter(q[3])
      && q[0] != EQUALS && q[1] != EQUALS && q[2] != EQUALS && q[3] != EQUALS
      && Index(q[0]) == a as int / 4 && Index(q[1]) == a as int % 4 * 16 + b as int / 16
      && Index(q[2]) == b as int % 16 * 4 + c as int / 64 && Index(q[3]) == c as int % 64
  {
    Sextets(a, b, c);
    LetterIndex(a as int / 4);
    LetterIndex(a as int % 4 * 16 + b as int / 16);
    LetterIndex(b as int % 16 * 4 + c as int / 64);
    LetterIndex(c as int % 64);
  }

  lemma Sextets(a: byte, b: byte, c: byte)
    ensures var triple := a as int * 0x1_0000 + b as int * 0x100 + c;
      && Shift(triple, 18) % 64 == a as int / 4
      && Shift(triple, 12) % 64 == a as int % 4 * 16 + b as int / 16
      && Shift(triple, 6) % 64 == b as int % 16 * 4 + c as int / 64
      && triple % 64 == c as int % 64
  {
    var triple := a as int * 0x1_0000 + b as int * 0x100 + c;
    ShiftsOfSix(triple);
    SplitSix(a as int, b as int, c as int);
  }

  lemma ShiftsOfSix(n: nat)
    ensures Shift(n, 6) == n / 64 && Shift(n, 12) == n / 64 / 64 && Shift(n, 18) == n / 64 / 64 / 64
  {
    ShiftSix(n);
    ShiftSix(n / 64);
    ShiftSix(n / 64 / 64);
    ShiftTwice(n, 6, 6);
    ShiftTwice(n, 12, 6);
  }

  lemma SplitSix(a: nat, b: nat, c: nat)
    requires a < 256 && b < 256 && c < 256
    ensures var n := a * 0x1_0000 + b * 0x100 + c;
      && n % 64 == c % 64
      && n / 64 == a * 1024 + b * 4 + c / 64
      && n / 64 % 64 == b % 16 * 4 + c / 64
      && n / 64 / 64 == a * 16 + b / 16
      && n / 64 / 64 % 64 == a % 4 * 16 + b / 16
      && n / 64 / 64 / 64 == a / 4
  {
    var n := a * 0x1_0000 + b * 0x100 + c;
    assert c == c / 64 * 64 + c % 64 && b == b / 16 * 16 + b % 16 && a == a / 4 * 4 + a % 4;
    Quotient(n, 64, a * 1024 + b * 4 + c / 64, c % 64);
    Quotient(n / 64, 64, a * 16 + b / 16, b % 16 * 4 + c / 64);
    Quotient(n / 64 / 64, 64, a / 4, a % 4 * 16 + b / 16);
  }

  lemma Quotient(n: nat, d: nat, q: nat, r: nat)
    requires d == 64 || d == 256
    requires n == q * d + r && r < d
    ensures n / d == q && n % d == r
  {
  }

  // base64_encode on a nonnull allocation.
  method EncodeData(data: Buffer) returns (encoded: array<byte>)
    ensures fresh(encoded) && encoded[..] == Encode(data)
  {
    var length := 4 * ((|data| + 2) / 3);
    encoded := new byte[length];
    var i, j := 0, 0;
    assert data[0..] == data;
    while i < |data|
      invariant 0 <= i <= |data| && 0 <= j <= length
      invariant encoded[..j] + Raw(data[i..]) == Raw(data)
      decreases |data| - i
    {
      ghost var done, before := encoded[..j], data[i..];
      i := EncodeGroup(data, i, encoded, j);
      j := j + 4;
      GroupBehind(done, encoded[..j], before, Raw(data[i..]), Raw(data));
    }
    assert data[i..] == [] && encoded[..j] + [] == encoded[..j];
    Pad(data, encoded);
  }

  lemma GroupBehind(done: Buffer, now: Buffer, before: Buffer, rest: Buffer, all: Buffer)
    requires |now| == |done| + 4 && now[..|done|] == done
    requires done + Raw(before) == all && Raw(before) == now[|done|..] + rest
    ensures now + rest == all
  {
    assert now == done + now[|done|..];
  }

  // One round of the loop of base64_encode.
  method EncodeGroup(data: Buffer, i: nat, encoded: array<byte>, j: nat) returns (next: nat)
    requires i < |data| && j + |Raw(data[i..])| <= encoded.Length
    modifies encoded
    ensures next == (if |data| - i < 3 then |data| else i + 3)
    ensures j + 4 <= encoded.Length && encoded[..j] == old(encoded[..j])
    ensures Raw(data[i..]) == encoded[j..j + 4] + Raw(data[next..])
  {
    var a, b, c := data[i], 0, 0;
    next := i + 1;
    if next < |data| {
      b := data[next];
      next := next + 1;
    }
    if next < |data| {
      c := data[next];
      next := next + 1;
    }
    RawStep(data[i..], Quad(a, b, c), data[next..]);
    var q := Quad(a, b, c);
    encoded[j], encoded[j + 1], encoded[j + 2], encoded[j + 3] := q[0], q[1], q[2], q[3];
    assert encoded[j..j + 4] == q;
  }

  lemma RawStep(rest: Buffer, q: Buffer, after: Buffer)
    requires rest != [] && after == rest[if |rest| < 3 then |rest| else 3..]
    requires q == Quad(rest[0], if |rest| > 1 then rest[1] else 0, if |rest| > 2 then rest[2] else 0)
    ensures Raw(rest) == q + Raw(after)
  {
    if |rest| <= 3 {
      assert after == [] && q + [] == q;
    }
  }

  // The second loop of base64_encode.
  method Pad(data: Buffer, encoded: array<byte>)
    requires encoded[..] == Raw(data)
    modifies encoded
    ensures encoded[..] == Encode(data)
  {
    var k := PadCount(|data|);
    ghost var raw := encoded[..];
    if |data| > 0 {
      PaddingOverRaw(data);
    }
    var i := 0;
    assert raw[..encoded.Length] + Pads(0) == raw;
    while i < k
      invariant 0 <= i <= k <= encoded.Length == |raw|
      invariant encoded[..] == raw[..encoded.Length - i] + Pads(i)
    {
      PadMore(raw, i, encoded[..]);
      encoded[encoded.Length - 1 - i] := EQUALS;
      i := i + 1;
    }
  }

  lemma PadMore(raw: Buffer, i: nat, s: Buffer)
    requires i < |raw| && s == raw[..|raw| - i] + Pads(i)
    ensures s[|raw| - 1 - i := EQUALS] == raw[..|raw| - (i + 1)] + Pads(i + 1)
  {
  }

  // ----- Decoding -----

  function Sextet(table: seq<byte>, c: byte): int
    requires |table| == 256
  {
    if c == EQUALS then 0 else table[c] as int
  }

  // The three octets of four characters.
  function Triple(table: seq<byte>, s: Buffer): (t: Buffer)
    requires |table| == 256 && |s| == 4
    ensures |t| == 3
  {
    var triple := Sextet(table, s[0]) * 0x4_0000 + Sextet(table, s[1]) * 0x1000
      + Sextet(table, s[2]) * 64 + Sextet(table, s[3]);
    [Shift(triple, 16) % 256, Shift(triple, 8) % 256, triple % 256]
  }

  function Triples(table: seq<byte>, s: Buffer): (t: Buffer)
    requires |table| == 256 && |s| % 4 == 0
    ensures |t| == |s| / 4 * 3
  {
    if s == [] then [] else Triple(table, s[..4]) + Triples(table, s[4..])
  }

  function DecodedLength(s: Buffer): (n: nat)
    requires |s| % 4 == 0 && s != []
    ensures |s| / 4 * 3 - 2 <= n <= |s| / 4 * 3
  {
    |s| / 4 * 3 - (if s[|s| - 1] == EQUALS then 1 else 0) - (if s[|s| - 2] == EQUALS then 1 else 0)
  }

  function Decode(table: seq<byte>, s: Buffer): Buffer
    requires |table| == 256 && |s| % 4 == 0 && s != []
  {
    Triples(table, s)[..DecodedLength(s)]
  }

  // Fault: bytes in front of the string are read.
  datatype Decoded = Null | Data(data: Buffer) | Fault

  function Outcome(table: seq<byte>, s: Buffer): Decoded
    requires |table| == 256
  {
    if |s| % 4 != 0 then Null else if s == [] then Fault else Data(Decode(table, s))
  }

  // base64_decode: none on a length that is no multiple of four. Every other index
  // stays inside the input and the output.
  method DecodeData(table: array<byte>, s: Buffer) returns (r: Decoded)
    requires table.Length == 256
    ensures r == Outcome(table[..], s)
  {
    if |s| % 4 != 0 {
      return Null;
    }
    if |s| < 2 {
      return Fault;
    }
    var length := |s| / 4 * 3;
    if s[|s| - 1] == EQUALS {
      length := length - 1;
    }
    if s[|s| - 2] == EQUALS {
      length := length - 1;
    }
    var decoded := new byte[length + 1];
    var i, j := 0, 0;
    ghost var all := Triples(table[..], s);
    assert s[0..] == s;
    while i < |s|
      invariant 0 <= i <= |s| && 0 <= j <= length
      invariant Pending(table[..], s, i, decoded[..j], length - j, all[..length])
    {
      j := DecodeGroup(table, s, i, decoded, j, length, all[..length]);
      i := i + 4;
    }
    return Data(decoded[..length]);
  }

  // What is written and what the rest of the input gives make up all.
  ghost predicate Pending(table: seq<byte>, s: Buffer, i: nat, written: Buffer, room: nat, all: Buffer) {
    && |table| == 256 && i <= |s| && (|s| - i) % 4 == 0
    && (|s| - i) / 4 * 3 - 2 <= room <= (|s| - i) / 4 * 3
    && written + Triples(table, s[i..])[..room] == all
  }

  // One round of the loop of base64_decode.
  method DecodeGroup(table: array<byte>, s: Buffer, i: nat, decoded: array<byte>, j: nat, length: nat,
                     ghost all: Buffer) returns (next: nat)
    requires j <= length < decoded.Length && i < |s| && decoded != table
    requires Pending(table[..], s, i, decoded[..j], length - j, all)
    modifies decoded
    ensures next <= length && i + 4 <= |s|
    ensures Pending(table[..], s, i + 4, decoded[..next], length - next, all)
  {
    ghost var done, rest, k := decoded[..j], Triples(table[..], s[i + 4..]), (|s| - i) / 4;
    assert |s| - i == 4 * k && |rest| == 3 * (k - 1);
    assert s[i..][..4] == s[i..i + 4] && s[i..][4..] == s[i + 4..];
    FirstTriple(table[..], s[i..]);
    var t := Triple(table[..], s[i..i + 4]);
    next := StoreTriple(decoded, j, length, t);
    OctetsBehind(done, t, rest, length - j, next - j);
  }

  lemma OctetsBehind(done: Buffer, t: Buffer, rest: Buffer, room: nat, taken: nat)
    requires |t| == 3 && room <= 3 + |rest| && taken == if room < 3 then room else 3
    ensures done + (t + rest)[..room] == done + t[..taken] + rest[..room - taken]
  {
  }

  method StoreTriple(decoded: array<byte>, j: nat, length: nat, t: Buffer) returns (next: nat)
    requires j <= length < decoded.Length && |t| == 3
    modifies decoded
    ensures next == if length - j < 3 then length else j + 3
    ensures decoded[..next] == old(decoded[..j]) + t[..next - j]
  {
    next := Store(decoded, j, length, t[0]);
    next := Store(decoded, next, length, t[1]);
    next := Store(decoded, next, length, t[2]);
  }

  lemma FirstTriple(table: seq<byte>, s: Buffer)
    requires |table| == 256 && |s| % 4 == 0 && s != []
    ensures Triples(table, s) == Triple(table, s[..4]) + Triples(table, s[4..])
  {
  }

  method Store(decoded: array<byte>, j: nat, length: nat, octet: byte) returns (next: nat)
    requires j <= length < decoded.Length
    modifies decoded
    ensures next == if j < length then j + 1 else j
    ensures decoded[..next] == old(decoded[..j]) + [octet][..next - j]
  {
    next := j;
    if j < length {
      decoded[j] := octet;
      next := j + 1;
    }
  }

  // ----- Inverses -----

  // Section 4 of RFC 4648 with zero bits behind the data, as section 3.5 asks.
  predicate Canonical(s: Buffer) {
    |s| >= 4 &&
    if |s| == 4 then LastGroup(s)
    else IsLetter(s[0]) && IsLetter(s[1]) && IsLetter(s[2]) && IsLetter(s[3]) && Canonical(s[4..])
  }

  predicate LastGroup(s: Buffer)
    requires |s| == 4
  {
    && IsLetter(s[0]) && IsLetter(s[1])
    && (|| (s[2] == EQUALS && s[3] == EQUALS && Index(s[1]) % 16 == 0)
        || (IsLetter(s[2]) && s[3] == EQUALS && Index(s[2]) % 4 == 0)
        || (IsLetter(s[2]) && IsLetter(s[3])))
  }

  lemma TableAt(table: seq<byte>, c: byte)
    requires IsTable(table)
    ensures IsLetter(c) ==> c != EQUALS && Sextet(table, c) == Index(c)
  {
    if IsLetter(c) {
      assert table[Letter(Index(c))] == Index(c);
    }
  }

  lemma SplitEight(x: nat, y: nat, z: nat, w: nat)
    requires x < 64 && y < 64 && z < 64 && w < 64
    ensures var n := x * 0x4_0000 + y * 0x1000 + z * 64 + w;
      && n % 256 == z % 4 * 64 + w
      && n / 256 == x * 1024 + y * 16 + z / 4
      && n / 256 % 256 == y % 16 * 16 + z / 4
      && n / 256 / 256 == x * 4 + y / 16
      && n / 256 / 256 % 256 == x * 4 + y / 16
  {
    var n := x * 0x4_0000 + y * 0x1000 + z * 64 + w;
    assert z == z / 4 * 4 + z % 4 && y == y / 16 * 16 + y % 16;
    Quotient(n, 256, x * 1024 + y * 16 + z / 4, z % 4 * 64 + w);
    Quotient(n / 256, 256, x * 4 + y / 16, y % 16 * 16 + z / 4);
    Quotient(n / 256 / 256, 256, 0, x * 4 + y / 16);
  }

  // The octets of four sextets.
  lemma TripleOctets(table: seq<byte>, s: Buffer)
    requires |table| == 256 && |s| == 4
    requires forall i :: 0 <= i < 4 ==> Sextet(table, s[i]) < 64
    ensures var x, y, z, w := Sextet(table, s[0]), Sextet(table, s[1]), Sextet(table, s[2]), Sextet(table, s[3]);
      Triple(table, s) == [x * 4 + y / 16, y % 16 * 16 + z / 4, z % 4 * 64 + w]
  {
    var x, y, z, w := Sextet(table, s[0]), Sextet(table, s[1]), Sextet(table, s[2]), Sextet(table, s[3]);
    var triple := x * 0x4_0000 + y * 0x1000 + z * 64 + w;
    SplitEight(x, y, z, w);
    ShiftEight(triple);
    ShiftEight(triple / 256);
    ShiftTwice(triple, 8, 8);
  }

  // The bits of three octets, cut in sextets and put together again.
  lemma Octets(a: nat, b: nat, c: nat)
    requires a < 256 && b < 256 && c < 256
    ensures var x, y, z, w := a / 4, a % 4 * 16 + b / 16, b % 16 * 4 + c / 64, c % 64;
      x * 4 + y / 16 == a && y % 16 * 16 + z / 4 == b && z % 4 * 64 + w == c
  {
    assert b / 16 < 16 && c / 64 < 4;
    assert (a % 4 * 16 + b / 16) / 16 == a % 4 && (a % 4 * 16 + b / 16) % 16 == b / 16;
    assert (b % 16 * 4 + c / 64) / 4 == b % 16 && (b % 16 * 4 + c / 64) % 4 == c / 64;
  }

  lemma TripleOfQuad(table: seq<byte>, a: byte, b: byte, c: byte, s: Buffer)
    requires IsTable(table) && |s| == 4 && s[..2] == Quad(a, b, c)[..2]
    requires s[2] == Quad(a, b, c)[2] || (b == 0 && c == 0 && s[2] == EQUALS)
    requires s[3] == Quad(a, b, c)[3] || (c == 0 && s[3] == EQUALS)
    ensures Triple(table, s) == [a, b, c]
  {
    var q := Quad(a, b, c);
    QuadIndexes(a, b, c);
    assert s[0] == s[..2][0] == q[0] && s[1] == s[..2][1] == q[1];
    TableAt(table, q[0]);
    TableAt(table, q[1]);
    TableAt(table, q[2]);
    TableAt(table, q[3]);
    Octets(a as int, b as int, c as int);
    TripleOctets(table, s);
  }

  lemma {:induction false} TriplesOfEncoded(table: seq<byte>, data: Buffer)
    requires IsTable(table) && data != [] && |Encode(data)| % 4 == 0
    ensures |Triples(table, Encode(data))| >= |data| && Triples(table, Encode(data))[..|data|] == data
    decreases |data|
  {
    if |data| > 3 {
      EncodeShape(data[3..]);
      TriplesOfEncoded(table, data[3..]);
      TriplesBehind(table, data, Encode(data[3..]), Triples(table, Encode(data[3..])));
    } else {
      LastTriple(table, data);
    }
  }

  lemma TriplesBehind(table: seq<byte>, data: Buffer, rest: Buffer, t: Buffer)
    requires IsTable(table) && |data| > 3 && |rest| % 4 == 0
    requires t == Triples(table, rest) && |t| >= |data| - 3 && t[..|data| - 3] == data[3..]
    ensures var all := Triples(table, Quad(data[0], data[1], data[2]) + rest);
      |all| >= |data| && all[..|data|] == data
  {
    var q, first := Quad(data[0], data[1], data[2]), [data[0], data[1], data[2]];
    TripleOfQuad(table, data[0], data[1], data[2], q);
    TriplesOfSum(table, q, rest);
    assert (first + t)[..|data|] == first + t[..|data| - 3];
  }

  lemma TriplesOfSum(table: seq<byte>, q: Buffer, rest: Buffer)
    requires |table| == 256 && |q| == 4 && |rest| % 4 == 0
    ensures Triples(table, q + rest) == Triple(table, q) + Triples(table, rest)
  {
    assert (q + rest)[..4] == q && (q + rest)[4..] == rest;
  }

  lemma LastTriple(table: seq<byte>, data: Buffer)
    requires IsTable(table) && 1 <= |data| <= 3 && |Encode(data)| == 4
    ensures |Triples(table, Encode(data))| == 3 && Triples(table, Encode(data))[..|data|] == data
  {
    var a, b, c := data[0], if |data| > 1 then data[1] else 0, if |data| > 2 then data[2] else 0;
    var s := Encode(data);
    assert |data| == 3 ==> data[3..] == [] && s == Quad(a, b, c);
    TripleOfQuad(table, a, b, c, s);
    assert s[..4] == s && s[4..] == [];
    FirstTriple(table, s);
    assert Triples(table, s) == [a, b, c];
  }

  // Decoding inverts encoding, except on no data at all.
  lemma DecodeEncode(table: seq<byte>, data: Buffer)
    requires IsTable(table)
    ensures Outcome(table, Encode(data)) == Data(data) <==> data != []
  {
    if data != [] {
      EncodeShape(data);
      PaddedLength(Encode(data), |data|);
      TriplesOfEncoded(table, data);
    }
  }

  lemma PaddedLength(s: Buffer, n: nat)
    requires n > 0 && |s| == 4 * ((n + 2) / 3) && Padded(s, PadCount(n))
    ensures |s| % 4 == 0 && s != [] && DecodedLength(s) == n
  {
  }

  // The bits of four sextets, put together in octets and cut again.
  lemma Cut(x: nat, y: nat, z: nat, w: nat)
    requires x < 64 && y < 64 && z < 64 && w < 64
    ensures var a, b, c := x * 4 + y / 16, y % 16 * 16 + z / 4, z % 4 * 64 + w;
      && a < 256 && b < 256 && c < 256
      && a / 4 == x && a % 4 * 16 + b / 16 == y && b % 16 * 4 + c / 64 == z && c % 64 == w
  {
    assert y / 16 < 4 && z / 4 < 16;
    assert (x * 4 + y / 16) / 4 == x && (x * 4 + y / 16) % 4 == y / 16;
    assert (y % 16 * 16 + z / 4) / 16 == y % 16 && (y % 16 * 16 + z / 4) % 16 == z / 4;
  }

  predicate IsGroup(s: Buffer) {
    && |s| == 4 && IsLetter(s[0]) && IsLetter(s[1])
    && (IsLetter(s[2]) || s[2] == EQUALS) && (IsLetter(s[3]) || s[3] == EQUALS)
  }

  lemma SextetsOfTriple(table: seq<byte>, s: Buffer)
    requires |table| == 256 && |s| == 4
    requires forall i :: 0 <= i < 4 ==> Sextet(table, s[i]) < 64
    ensures var t := Triple(table, s);
      && t[0] as int / 4 == Sextet(table, s[0])
      && t[0] as int % 4 * 16 + t[1] as int / 16 == Sextet(table, s[1])
      && t[1] as int % 16 * 4 + t[2] as int / 64 == Sextet(table, s[2])
      && t[2] as int % 64 == Sextet(table, s[3])
      && (Sextet(table, s[2]) % 4 == 0 && Sextet(table, s[3]) == 0 ==> t[2] == 0)
      && (Sextet(table, s[1]) % 16 == 0 && Sextet(table, s[2]) == 0 ==> t[1] == 0)
  {
    TripleOctets(table, s);
    Cut(Sextet(table, s[0]), Sextet(table, s[1]), Sextet(table, s[2]), Sextet(table, s[3]));
  }

  lemma QuadOfTriple(table: seq<byte>, s: Buffer)
    requires IsTable(table) && IsGroup(s)
    ensures var t := Triple(table, s);
      var q := Quad(t[0], t[1], t[2]);
      && q[0] == s[0] && q[1] == s[1] && (IsLetter(s[2]) ==> q[2] == s[2]) && (IsLetter(s[3]) ==> q[3] == s[3])
    ensures s[3] == EQUALS && IsLetter(s[2]) && Index(s[2]) % 4 == 0 ==> Triple(table, s)[2] == 0
    ensures s[3] == EQUALS && s[2] == EQUALS && Index(s[1]) % 16 == 0 ==>
      Triple(table, s)[1] == 0 && Triple(table, s)[2] == 0
  {
    TableAt(table, s[0]);
    TableAt(table, s[1]);
    TableAt(table, s[2]);
    TableAt(table, s[3]);
    SextetsOfTriple(table, s);
    var t := Triple(table, s);
    SameLetters(t[0], t[1], t[2], s);
  }

  lemma SameLetters(a: byte, b: byte, c: byte, s: Buffer)
    requires |s| == 4
    requires IsLetter(s[0]) && Index(s[0]) == a as int / 4
    requires IsLetter(s[1]) && Index(s[1]) == a as int % 4 * 16 + b as int / 16
    requires IsLetter(s[2]) ==> Index(s[2]) == b as int % 16 * 4 + c as int / 64
    requires IsLetter(s[3]) ==> Index(s[3]) == c as int % 64
    ensures var q := Quad(a, b, c);
      && q[0] == s[0] && q[1] == s[1] && (IsLetter(s[2]) ==> q[2] == s[2]) && (IsLetter(s[3]) ==> q[3] == s[3])
  {
    QuadIndexes(a, b, c);
    SameIndex(Quad(a, b, c), s);
  }

  lemma SameIndex(q: Buffer, s: Buffer)
    requires |q| == 4 && |s| == 4
    requires forall i :: 0 <= i < 4 && IsLetter(s[i]) ==> IsLetter(q[i]) && Index(q[i]) == Index(s[i])
    ensures forall i :: 0 <= i < 4 && IsLetter(s[i]) ==> q[i] == s[i]
  {
    forall i | 0 <= i < 4 && IsLetter(s[i]) ensures q[i] == s[i] {
      assert Letter(Index(q[i])) == Letter(Index(s[i]));
    }
  }

  lemma {:induction false} EncodeDecoded(table: seq<byte>, s: Buffer)
    requires IsTable(table) && |s| % 4 == 0 && Canonical(s)
    ensures Encode(Decode(table, s)) == s
    decreases |s|
  {
    if |s| > 4 {
      EncodeDecoded(table, s[4..]);
      QuadOfTriple(table, s[..4]);
      var t, rest := Triple(table, s[..4]), Decode(table, s[4..]);
      DecodeFront(table, s);
      assert Quad(t[0], t[1], t[2]) == s[..4];
      assert (t + rest)[3..] == rest && |rest| > 0;
      assert s == s[..4] + s[4..];
    } else {
      LastDecoded(table, s);
    }
  }

  lemma DecodeFront(table: seq<byte>, s: Buffer)
    requires |table| == 256 && |s| % 4 == 0 && |s| > 4
    ensures Decode(table, s) == Triple(table, s[..4]) + Decode(table, s[4..])
  {
    FirstTriple(table, s);
    assert DecodedLength(s) == 3 + DecodedLength(s[4..]);
  }

  lemma LastDecoded(table: seq<byte>, s: Buffer)
    requires IsTable(table) && |s| == 4 && LastGroup(s)
    ensures Encode(Decode(table, s)) == s
  {
    QuadOfTriple(table, s);
    var t := Triple(table, s);
    assert s[..4] == s && s[4..] == [];
    FirstTriple(table, s);
    assert Triples(table, s) == t;
    assert s == [s[0], s[1], s[2], s[3]];
    if IsLetter(s[3]) {
      assert Decode(table, s) == t && t[3..] == [];
    } else if IsLetter(s[2]) {
      assert Decode(table, s) == [t[0], t[1]];
    } else {
      assert Decode(table, s) == [t[0]];
    }
  }

  lemma {:induction false} CanonicalLength(s: Buffer)
    requires Canonical(s)
    ensures |s| % 4 == 0 && s != []
  {
    if |s| > 4 {
      CanonicalLength(s[4..]);
    }
  }

  // Encoding inverts decoding exactly on the canonical strings, whatever the
  // decoding table holds for other characters.
  lemma EncodeDecode(table: seq<byte>, s: Buffer)
    requires IsTable(table)
    ensures Outcome(table, s).Data? && Encode(Outcome(table, s).data) == s <==> Canonical(s)
  {
    if Canonical(s) {
      CanonicalLength(s);
      EncodeDecoded(table, s);
    }
    if |s| % 4 == 0 && s != [] && Encode(Decode(table, s)) == s {
      EncodeIsCanonical(Decode(table, s));
    }
  }
}
