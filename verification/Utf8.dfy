// The UTF-8 recogniser of src/helpers.c against the grammar of section 4 of
// RFC 3629.
module Utf8 {
  import opened Wrappers

  type Octets = seq<bv8>

  // ----- The grammar -----

  predicate Tail(b: bv8) {
    0x80 <= b <= 0xBF
  }

  predicate Two(a: bv8, b: bv8) {
    0xC2 <= a <= 0xDF && Tail(b)
  }

  predicate Three(a: bv8, b: bv8, c: bv8) {
    || (a == 0xE0 && 0xA0 <= b <= 0xBF && Tail(c))
    || (0xE1 <= a <= 0xEC && Tail(b) && Tail(c))
    || (a == 0xED && 0x80 <= b <= 0x9F && Tail(c))
    || (0xEE <= a <= 0xEF && Tail(b) && Tail(c))
  }

  predicate Four(a: bv8, b: bv8, c: bv8, d: bv8) {
    || (a == 0xF0 && 0x90 <= b <= 0xBF && Tail(c) && Tail(d))
    || (0xF1 <= a <= 0xF3 && Tail(b) && Tail(c) && Tail(d))
    || (a == 0xF4 && 0x80 <= b <= 0x8F && Tail(c) && Tail(d))
  }

  // U+FFFE and U+FFFF
  predicate NonCharacter(a: bv8, b: bv8, c: bv8) {
    a == 0xEF && b == 0xBF && 0xBE <= c <= 0xBF
  }

  predicate Sequence(s: Octets) {
    || (|s| == 1 && s[0] <= 0x7F)
    || (|s| == 2 && Two(s[0], s[1]))
    || (|s| == 3 && Three(s[0], s[1], s[2]) && !NonCharacter(s[0], s[1], s[2]))
    || (|s| == 4 && Four(s[0], s[1], s[2], s[3]))
  }

  function Concat(parts: seq<Octets>): Octets {
    if parts == [] then [] else parts[0] + Concat(parts[1..])
  }

  ghost predicate AllSequences(parts: seq<Octets>) {
    forall k :: 0 <= k < |parts| ==> Sequence(parts[k])
  }

  ghost predicate WellFormed(s: Octets) {
    exists parts :: AllSequences(parts) && Concat(parts) == s
  }

  // ----- The bit tests of the code -----

  lemma TwoTests(a: bv8, b: bv8)
    requires a & 0xe0 == 0xc0
    ensures (b & 0xc0 != 0x80 || a & 0xfe == 0xc0) <==> !Two(a, b)
  {
  }

  lemma ThreeTests(a: bv8, b: bv8, c: bv8)
    requires a & 0xf0 == 0xe0
    ensures
      (|| b & 0xc0 != 0x80 || c & 0xc0 != 0x80
       || (a == 0xe0 && b & 0xe0 == 0x80)
       || (a == 0xed && b & 0xe0 == 0xa0)
       || (a == 0xef && b == 0xbf && c & 0xfe == 0xbe))
      <==> !(Three(a, b, c) && !NonCharacter(a, b, c))
  {
  }

  lemma FourTests(a: bv8, b: bv8, c: bv8, d: bv8)
    requires a & 0xf8 == 0xf0
    ensures
      (|| b & 0xc0 != 0x80 || c & 0xc0 != 0x80 || d & 0xc0 != 0x80
       || (a == 0xf0 && b & 0xf0 == 0x80)
       || (a == 0xf4 && b > 0x8f) || a > 0xf4)
      <==> !Four(a, b, c, d)
  {
  }

  lemma LeadRanges(a: bv8)
    ensures a & 0xe0 == 0xc0 <==> 0xC0 <= a <= 0xDF
    ensures a & 0xf0 == 0xe0 <==> 0xE0 <= a <= 0xEF
    ensures a & 0xf8 == 0xf0 <==> 0xF0 <= a <= 0xF7
  {
  }

  // The length of the only sequence that starts at p, or 0.
  function LengthAt(s: Octets, p: nat): (k: nat)
    requires p < |s|
    ensures k <= 4 && p + k <= |s|
  {
    if s[p] <= 0x7F then 1
    else if p + 1 < |s| && Two(s[p], s[p + 1]) then 2
    else if p + 2 < |s| && Three(s[p], s[p + 1], s[p + 2]) && !NonCharacter(s[p], s[p + 1], s[p + 2]) then 3
    else if p + 3 < |s| && Four(s[p], s[p + 1], s[p + 2], s[p + 3]) then 4
    else 0
  }

  lemma LengthIsSequence(s: Octets, p: nat, n: nat)
    requires 0 < n && p + n <= |s|
    ensures Sequence(s[p..p + n]) <==> n == LengthAt(s, p)
  {
    var part := s[p..p + n];
    assert part[0] == s[p];
    if n > 1 {
      assert part[1] == s[p + 1];
    }
    if n > 2 {
      assert part[2] == s[p + 2];
    }
    if n > 3 {
      assert part[3] == s[p + 3];
    }
    LeadsDiffer(s[p]);
  }

  lemma LeadsDiffer(a: bv8)
    ensures forall b :: Two(a, b) ==> 0x7F < a < 0xE0
    ensures forall b, c :: Three(a, b, c) ==> 0xDF < a < 0xF0
    ensures forall b, c, d :: Four(a, b, c, d) ==> 0xEF < a
  {
  }

  // Where the greedy reading of s from p gets stuck, if it does.
  function Stuck(s: Octets, p: nat): Option<nat>
    requires p <= |s|
    decreases |s| - p
  {
    if p == |s| then None
    else if LengthAt(s, p) == 0 then Some(p)
    else Stuck(s, p + LengthAt(s, p))
  }

  lemma {:induction false} WellFormedIsNotStuck(s: Octets, p: nat, parts: seq<Octets>)
    requires p <= |s| && AllSequences(parts) && Concat(parts) == s[p..]
    ensures Stuck(s, p) == None
    decreases |parts|
  {
    if parts != [] {
      var n := |parts[0]|;
      assert Sequence(parts[0]);
      assert s[p..][..n] == parts[0] && s[p..][n..] == Concat(parts[1..]);
      assert s[p..p + n] == parts[0] && s[p + n..] == Concat(parts[1..]);
      LengthIsSequence(s, p, n);
      WellFormedIsNotStuck(s, p + n, parts[1..]);
    }
  }

  lemma {:induction false} ConcatLast(parts: seq<Octets>, last: Octets)
    ensures Concat(parts + [last]) == Concat(parts) + last
  {
    if parts == [] {
      assert parts + [last] == [last] && [last][1..] == [];
    } else {
      assert (parts + [last])[1..] == parts[1..] + [last];
      ConcatLast(parts[1..], last);
    }
  }

  ghost predicate NoSequenceAt(s: Octets, p: nat)
    requires p <= |s|
  {
    forall end :: p < end <= |s| ==> !Sequence(s[p..end])
  }

  lemma StuckAt(s: Octets, p: nat, parts: seq<Octets>)
    requires p < |s| && Stuck(s, 0) == Stuck(s, p) && LengthAt(s, p) == 0
    requires AllSequences(parts) && Concat(parts) == s[..p]
    ensures !WellFormed(s) && WellFormed(s[..p])
    ensures NoSequenceAt(s, p)
  {
    if WellFormed(s) {
      var all :| AllSequences(all) && Concat(all) == s;
      assert s[0..] == s;
      WellFormedIsNotStuck(s, 0, all);
    }
    forall end | p < end <= |s| ensures !Sequence(s[p..end]) {
      LengthIsSequence(s, p, end - p);
    }
  }

  // ----- utf8_check -----

  // A string in memory, up to and with its terminator.
  ghost predicate Terminated(memory: Octets) {
    memory != [] && memory[|memory| - 1] == 0 && forall i :: 0 <= i < |memory| - 1 ==> memory[i] != 0
  }

  // None exactly when the string is well formed, and otherwise the place where
  // its first sequence that is not well formed starts. No access is beyond the
  // terminator.
  method Check(memory: Octets) returns (bad: Option<nat>)
    requires Terminated(memory)
    ensures var text := memory[..|memory| - 1];
      && (bad == None <==> WellFormed(text))
      && (bad.Some? ==>
          bad.value < |text| && WellFormed(text[..bad.value]) && NoSequenceAt(text, bad.value))
  {
    ghost var text := memory[..|memory| - 1];
    ghost var parts: seq<Octets> := [];
    var s := 0;
    while memory[s] != 0
      invariant 0 <= s <= |text|
      invariant AllSequences(parts) && Concat(parts) == text[..s]
      invariant Stuck(text, 0) == Stuck(text, s)
      decreases |text| - s
    {
      var length := Step(memory, s);
      if length == 0 {
        StuckAt(text, s, parts);
        return Some(s);
      }
      LengthIsSequence(text, s, length);
      ConcatLast(parts, text[s..s + length]);
      parts := parts + [text[s..s + length]];
      assert text[..s + length] == text[..s] + text[s..s + length];
      s := s + length;
    }
    assert text[..s] == text;
    return None;
  }

  // One round of the loop: how far it advances, or 0 where it returns.
  method Step(memory: Octets, s: nat) returns (length: nat)
    requires Terminated(memory) && s < |memory| - 1
    ensures length == LengthAt(memory[..|memory| - 1], s)
  {
    ghost var text := memory[..|memory| - 1];
    LeadRanges(memory[s]);
    LeadsDiffer(memory[s]);
    assert text[s] == memory[s];
    if memory[s] < 0x80 {
      length := 1;
    } else if memory[s] & 0xe0 == 0xc0 {
      length := StepTwo(memory, s);
    } else if memory[s] & 0xf0 == 0xe0 {
      length := StepThree(memory, s);
    } else if memory[s] & 0xf8 == 0xf0 {
      length := StepFour(memory, s);
    } else {
      length := 0;
    }
  }

  lemma TailIsText(memory: Octets, i: nat)
    requires Terminated(memory) && i < |memory|
    ensures memory[i] & 0xc0 == 0x80 <==> Tail(memory[i])
    ensures memory[i] & 0xc0 == 0x80 ==> i < |memory| - 1
  {
  }

  method StepTwo(memory: Octets, s: nat) returns (length: nat)
    requires Terminated(memory) && s < |memory| - 1 && memory[s] & 0xe0 == 0xc0
    ensures length == LengthAt(memory[..|memory| - 1], s)
  {
    TwoTests(memory[s], memory[s + 1]);
    TailIsText(memory, s + 1);
    LeadRanges(memory[s]);
    LeadsDiffer(memory[s]);
    if memory[s + 1] & 0xc0 != 0x80 || memory[s] & 0xfe == 0xc0 {
      length := 0;
    } else {
      length := 2;
    }
  }

  method StepThree(memory: Octets, s: nat) returns (length: nat)
    requires Terminated(memory) && s < |memory| - 1 && memory[s] & 0xf0 == 0xe0
    ensures length == LengthAt(memory[..|memory| - 1], s)
  {
    LeadRanges(memory[s]);
    LeadsDiffer(memory[s]);
    TailIsText(memory, s + 1);
    if memory[s + 1] & 0xc0 != 0x80 {
      length := 0;
    } else {
      TailIsText(memory, s + 2);
      ThreeTests(memory[s], memory[s + 1], memory[s + 2]);
      if || memory[s + 2] & 0xc0 != 0x80
         || (memory[s] == 0xe0 && memory[s + 1] & 0xe0 == 0x80)
         || (memory[s] == 0xed && memory[s + 1] & 0xe0 == 0xa0)
         || (memory[s] == 0xef && memory[s + 1] == 0xbf && memory[s + 2] & 0xfe == 0xbe) {
        length := 0;
      } else {
        length := 3;
      }
    }
  }

  method StepFour(memory: Octets, s: nat) returns (length: nat)
    requires Terminated(memory) && s < |memory| - 1 && memory[s] & 0xf8 == 0xf0
    ensures length == LengthAt(memory[..|memory| - 1], s)
  {
    LeadRanges(memory[s]);
    LeadsDiffer(memory[s]);
    TailIsText(memory, s + 1);
    if memory[s + 1] & 0xc0 != 0x80 {
      return 0;
    }
    TailIsText(memory, s + 2);
    if memory[s + 2] & 0xc0 != 0x80 {
      return 0;
    }
    TailIsText(memory, s + 3);
    FourTests(memory[s], memory[s + 1], memory[s + 2], memory[s + 3]);
    if || memory[s + 3] & 0xc0 != 0x80
       || (memory[s] == 0xf0 && memory[s + 1] & 0xf0 == 0x80)
       || (memory[s] == 0xf4 && memory[s + 1] > 0x8f) || memory[s] > 0xf4 {
      return 0;
    }
    return 4;
  }
}
