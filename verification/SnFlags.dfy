// The flags byte of MQTT-SN: encode_flags and decode_flag of
// src/mqttsn/sn_parser.c.
module SnFlags {
  import opened Bits
  import opened Bytes

  datatype Flags = Flags(dup: bool, qos: nat, retain: bool, will: bool, clean: bool, topicType: nat)

  const NAMED := 0
  const ID := 1
  const SHORT := 2

  predicate Valid(f: Flags) {
    f.qos <= 3 && f.topicType <= 2
  }

  // encode_flags
  function Encode(f: Flags): byte
    requires Valid(f)
  {
    (if f.dup then 128 else 0) + f.qos * 32 + (if f.retain then 16 else 0)
      + (if f.will then 8 else 0) + (if f.clean then 4 else 0) + f.topicType
  }

  // Bit number n of a, counted from the lowest.
  function Bit(a: nat, n: nat): nat {
    if n == 0 then a % 2 else Bit(a / 2, n - 1)
  }

  // What the bits of a flags byte mean: section 5.3.4 of MQTT-SN 1.2. With both
  // topic type bits set the code reads a short name.
  function Meaning(b: byte): Flags {
    Flags(Bit(b, 7) == 1, Bit(b, 5) + 2 * Bit(b, 6), Bit(b, 4) == 1, Bit(b, 3) == 1, Bit(b, 2) == 1,
          if Bit(b, 1) == 1 then SHORT else if Bit(b, 0) == 1 then ID else NAMED)
  }

  lemma MeaningOfEncode(f: Flags)
    requires Valid(f)
    ensures Meaning(Encode(f)) == f
  {
    EncodedBits(Encode(f), if f.dup then 1 else 0, f.qos, if f.retain then 1 else 0,
                if f.will then 1 else 0, if f.clean then 1 else 0, f.topicType);
  }

  lemma EncodedBits(b: nat, d: nat, q: nat, r: nat, w: nat, c: nat, t: nat)
    requires d <= 1 && q <= 3 && r <= 1 && w <= 1 && c <= 1 && t <= 2
    requires b == 128 * d + 32 * q + 16 * r + 8 * w + 4 * c + t
    ensures Bit(b, 0) == t % 2 && Bit(b, 1) == t / 2 && Bit(b, 2) == c && Bit(b, 3) == w && Bit(b, 4) == r
    ensures Bit(b, 5) == q % 2 && Bit(b, 6) == q / 2 && Bit(b, 7) == d
  {
    assert b / 2 == 64 * d + 16 * q + 8 * r + 4 * w + 2 * c + t / 2;
    assert b / 2 / 2 == 32 * d + 8 * q + 4 * r + 2 * w + c;
    assert b / 2 / 2 / 2 == 16 * d + 4 * q + 2 * r + w;
    assert b / 2 / 2 / 2 / 2 == 8 * d + 2 * q + r;
    assert b / 2 / 2 / 2 / 2 / 2 == 4 * d + q;
    assert b / 2 / 2 / 2 / 2 / 2 / 2 == 2 * d + q / 2;
    assert b / 2 / 2 / 2 / 2 / 2 / 2 / 2 == d;
    BitsByHalves(b);
  }

  lemma BitsByHalves(a: nat)
    ensures Bit(a, 0) == a % 2 && Bit(a, 1) == a / 2 % 2 && Bit(a, 2) == a / 2 / 2 % 2
    ensures Bit(a, 3) == a / 2 / 2 / 2 % 2 && Bit(a, 4) == a / 2 / 2 / 2 / 2 % 2
    ensures Bit(a, 5) == a / 2 / 2 / 2 / 2 / 2 % 2 && Bit(a, 6) == a / 2 / 2 / 2 / 2 / 2 / 2 % 2
    ensures Bit(a, 7) == a / 2 / 2 / 2 / 2 / 2 / 2 / 2 % 2
  {
    var b := a / 2;
    var c := b / 2;
    var d := c / 2;
    var e := d / 2;
    var f := e / 2;
    assert Bit(a, 2) == Bit(b, 1) == Bit(c, 0);
    assert Bit(a, 3) == Bit(b, 2) == Bit(c, 1) == Bit(d, 0);
    assert Bit(a, 4) == Bit(b, 3) == Bit(c, 2) == Bit(d, 1) == Bit(e, 0);
    assert Bit(a, 5) == Bit(b, 4) == Bit(c, 3) == Bit(d, 2) == Bit(e, 1) == Bit(f, 0);
    assert Bit(a, 6) == Bit(b, 5) == Bit(c, 4) == Bit(d, 3) == Bit(e, 2) == Bit(f, 1) == Bit(f / 2, 0);
    assert Bit(a, 7) == Bit(b, 6) == Bit(c, 5) == Bit(d, 4) == Bit(e, 3) == Bit(f, 2);
    assert Bit(f, 2) == Bit(f / 2, 1) == Bit(f / 2 / 2, 0);
  }

  // ----- The bit tests -----

  lemma AndDouble(a: nat, k: nat)
    ensures And(a, 2 * k) == 2 * And(a / 2, k)
  {
    var m := 2 * k;
    assert m / 2 == k && m % 2 == 0;
    assert And(a, m) == if a == 0 || m == 0 then 0 else 2 * And(a / 2, m / 2);
  }

  lemma AndOne(a: nat)
    ensures And(a, 1) == a % 2
  {
  }

  predicate Has(b: byte, mask: nat) {
    And(b, mask) == mask
  }

  lemma HasDouble(a: nat, k: nat)
    ensures And(a, 2 * k) == 2 * k <==> And(a / 2, k) == k
  {
    AndDouble(a, k);
  }

  function PowerOfTwo(n: nat): nat {
    if n == 0 then 1 else 2 * PowerOfTwo(n - 1)
  }

  lemma {:induction false} AndPower(a: nat, n: nat)
    ensures And(a, PowerOfTwo(n)) == PowerOfTwo(n) <==> Bit(a, n) == 1
  {
    if n == 0 {
      AndOne(a);
    } else {
      HasDouble(a, PowerOfTwo(n - 1));
      AndPower(a / 2, n - 1);
    }
  }

  lemma PowersAre()
    ensures PowerOfTwo(0) == 1 && PowerOfTwo(1) == 2 && PowerOfTwo(2) == 4 && PowerOfTwo(3) == 8
    ensures PowerOfTwo(4) == 16 && PowerOfTwo(5) == 32 && PowerOfTwo(6) == 64 && PowerOfTwo(7) == 128
  {
  }

  lemma SingleMasks(b: byte)
    ensures (Has(b, 1) <==> Bit(b, 0) == 1) && (Has(b, 2) <==> Bit(b, 1) == 1)
    ensures (Has(b, 4) <==> Bit(b, 2) == 1) && (Has(b, 8) <==> Bit(b, 3) == 1)
    ensures (Has(b, 16) <==> Bit(b, 4) == 1) && (Has(b, 32) <==> Bit(b, 5) == 1)
    ensures (Has(b, 64) <==> Bit(b, 6) == 1) && (Has(b, 128) <==> Bit(b, 7) == 1)
  {
    PowersAre();
    AndPower(b, 0);
    AndPower(b, 1);
    AndPower(b, 2);
    AndPower(b, 3);
    AndPower(b, 4);
    AndPower(b, 5);
    AndPower(b, 6);
    AndPower(b, 7);
  }

  // The mask 96 tests both bits of the quality of service.
  lemma DoubleMask(b: byte)
    ensures Has(b, 96) <==> Bit(b, 5) == 1 && Bit(b, 6) == 1
  {
    PowersAre();
    AndThree(b, 5);
  }

  lemma {:induction false} AndThree(a: nat, n: nat)
    ensures And(a, 3 * PowerOfTwo(n)) == 3 * PowerOfTwo(n) <==> Bit(a, n) == 1 && Bit(a, n + 1) == 1
  {
    if n == 0 {
      AndOne(a / 2);
      assert And(a, 3) == if a == 0 then 0 else 2 * And(a / 2, 1) + a % 2;
      assert Bit(a, 1) == Bit(a / 2, 0);
    } else {
      HasDouble(a, 3 * PowerOfTwo(n - 1));
      AndThree(a / 2, n - 1);
    }
  }

  // ----- decode_flag -----

  // struct Flags: a mask where it was seen, else -1.
  datatype Raw = Raw(idTopic: int, shortTopic: int, clean: int, will: int, retain: int,
                     qos1: int, qos2: int, qosOne: int, dup: int)

  // The flag of a mask after the values below i have been tried.
  function Seen(b: byte, mask: nat, i: nat): int {
    if mask < i && Has(b, mask) then mask else -1
  }

  function SeenAll(b: byte, i: nat): Raw {
    Raw(Seen(b, 1, i), Seen(b, 2, i), Seen(b, 4, i), Seen(b, 8, i), Seen(b, 16, i),
        Seen(b, 32, i), Seen(b, 64, i), Seen(b, 96, i), Seen(b, 128, i))
  }

  // The switch in the loop.
  function Set(raw: Raw, i: nat): Raw {
    match i
    case 1 => raw.(idTopic := i)
    case 2 => raw.(shortTopic := i)
    case 4 => raw.(clean := i)
    case 8 => raw.(will := i)
    case 16 => raw.(retain := i)
    case 32 => raw.(qos1 := i)
    case 64 => raw.(qos2 := i)
    case 96 => raw.(qosOne := i)
    case 128 => raw.(dup := i)
    case _ => raw
  }

  lemma OneMore(b: byte, i: nat)
    ensures SeenAll(b, i + 1) == if Has(b, i) then Set(SeenAll(b, i), i) else SeenAll(b, i)
  {
  }

  // The loop over all values up to the highest mask, and the reading of the
  // flags it has set in validate_create_flags.
  method Decode(flagsByte: byte) returns (f: Flags)
    ensures f == Meaning(flagsByte)
  {
    var raw := Raw(-1, -1, -1, -1, -1, -1, -1, -1, -1);
    for i := 1 to 129
      invariant raw == SeenAll(flagsByte, i)
    {
      OneMore(flagsByte, i);
      if Has(flagsByte, i) {
        raw := Set(raw, i);
      }
    }
    SingleMasks(flagsByte);
    DoubleMask(flagsByte);
    var qos := if raw.qosOne != -1 then 3 else if raw.qos2 != -1 then 2 else if raw.qos1 != -1 then 1 else 0;
    var topicType := if raw.shortTopic != -1 then SHORT else if raw.idTopic != -1 then ID else NAMED;
    f := Flags(raw.dup != -1, qos, raw.retain != -1, raw.will != -1, raw.clean != -1, topicType);
    assert Bit(flagsByte, 5) <= 1 && Bit(flagsByte, 6) <= 1 by {
      BitsByHalves(flagsByte);
    }
  }
}
