// Bytes as the target's unsigned char, and the two-byte integers of
// src/helpers.c.
module Bytes {
  import opened Bits

  type byte = b: int | 0 <= b < 256

  type Buffer = seq<byte>

  // add_short: the low sixteen bits, high byte first.
  function AddShort(n: int): Buffer {
    [n / 256 % 256, n % 256]
  }

  // get_short, declared unsigned in src/helpers.h
  function GetShort(s: Buffer, i: nat): nat
    requires i + 1 < |s|
  {
    s[i] as int * 256 + s[i + 1]
  }

  lemma ShortRoundTrip(n: int)
    ensures GetShort(AddShort(n), 0) == n % USHORT
  {
    var h := n / 256;
    assert n == h * 256 + n % 256;
    assert h == h / 256 * 256 + h % 256;
  }

  // ----- Parts of buffers -----

  ghost predicate At(buf: Buffer, i: nat, part: Buffer) {
    i + |part| <= |buf| && buf[i..i + |part|] == part
  }

  lemma AtParts(buf: Buffer, i: nat, a: Buffer, b: Buffer)
    requires At(buf, i, a + b)
    ensures At(buf, i, a) && At(buf, i + |a|, b)
  {
    assert (a + b)[..|a|] == a && (a + b)[|a|..] == b;
    assert buf[i..i + |a + b|][..|a|] == buf[i..i + |a|];
    assert buf[i..i + |a + b|][|a|..] == buf[i + |a|..i + |a + b|];
  }

  lemma AtByte(buf: Buffer, i: nat, part: Buffer, k: nat)
    requires At(buf, i, part) && k < |part|
    ensures buf[i + k] == part[k]
  {
    assert buf[i..i + |part|][k] == part[k];
  }

  function Concat(parts: seq<Buffer>): Buffer {
    if parts == [] then [] else Concat(parts[..|parts| - 1]) + parts[|parts| - 1]
  }
}
