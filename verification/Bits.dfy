// Bitwise operators of C on unsigned values, defined on naturals bit by bit,
// so that masks can be related to ordinary arithmetic.
module Bits {

  const USHORT := 0x1_0000
  const TWO_TO_THE_32 := 0x1_0000_0000

  function And(a: nat, b: nat): (r: nat)
    ensures r <= a && r <= b
  {
    if a == 0 || b == 0 then 0
    else 2 * And(a / 2, b / 2) + (if a % 2 == 1 && b % 2 == 1 then 1 else 0)
  }

  function Xor(a: nat, b: nat): nat {
    if a == 0 then b
    else if b == 0 then a
    else 2 * Xor(a / 2, b / 2) + (if a % 2 != b % 2 then 1 else 0)
  }

  predicate IsPowerOfTwo(n: nat) {
    n == 1 || (n > 0 && n % 2 == 0 && IsPowerOfTwo(n / 2))
  }

  lemma DoublePower(n: nat)
    requires IsPowerOfTwo(n)
    ensures IsPowerOfTwo(2 * n)
  {
    assert 2 * n / 2 == n;
  }

  // Masking with n - 1 is the remainder by n exactly when n is a power of two:
  // this is what allows the table to replace "mod" by "and".
  lemma {:induction false} MaskIsRemainder(a: nat, n: nat)
    requires IsPowerOfTwo(n)
    ensures And(a, n - 1) == a % n
  {
    var m := n / 2;
    if a == 0 {
      RemainderUnique(0, n, 0, 0);
    } else if n > 1 {
      assert n == 2 * m && (n - 1) / 2 == m - 1;
      calc {
        And(a, n - 1);
        2 * And(a / 2, m - 1) + a % 2;
        { MaskIsRemainder(a / 2, m); }
        2 * (a / 2 % m) + a % 2;
        { HalveRemainder(a, m); }
        a % n;
      }
    }
  }

  lemma HalveRemainder(a: nat, m: nat)
    requires m > 0
    ensures a % (2 * m) == 2 * (a / 2 % m) + a % 2
  {
    var h := a / 2;
    var q, r := h / m, h % m;
    var s := 2 * r + a % 2;
    assert h == q * m + r;
    assert 2 * (q * m) == q * (2 * m) by { Rearrange(q, m); }
    RemainderUnique(a, 2 * m, q, s);
  }

  lemma Rearrange(q: nat, m: nat)
    ensures 2 * (q * m) == q * (2 * m)
  {
  }

  lemma RemainderUnique(a: nat, n: nat, q: nat, r: nat)
    requires r < n && a == q * n + r
    ensures a % n == r
  {
    var p, t := a / n, a % n;
    assert a == p * n + t && 0 <= t < n;
    if p < q {
      Multiple(q, p, n);
    } else if q < p {
      Multiple(p, q, n);
    }
  }

  lemma {:induction false} Multiple(x: nat, y: nat, n: nat)
    requires y < x
    ensures x * n >= y * n + n
  {
    assert x * n == (x - 1) * n + n;
    if y < x - 1 {
      Multiple(x - 1, y, n);
    }
  }

  lemma {:induction false} ProductPower(m: nat, n: nat)
    requires IsPowerOfTwo(m) && IsPowerOfTwo(n)
    ensures IsPowerOfTwo(m * n)
  {
    if n > 1 {
      ProductPower(m, n / 2);
      DoublePower(m * (n / 2));
      Rearrange(m, n / 2);
    }
  }

  lemma WordIsPower()
    ensures IsPowerOfTwo(TWO_TO_THE_32)
  {
    ProductPower(2, 2);
    ProductPower(4, 4);
    ProductPower(0x10, 0x10);
    ProductPower(0x100, 0x100);
    ProductPower(0x1_0000, 0x1_0000);
  }

  // An exclusive or never sets a bit above those of its operands.
  lemma {:induction false} XorBelow(a: nat, b: nat, n: nat)
    requires IsPowerOfTwo(n) && a < n && b < n
    ensures Xor(a, b) < n
  {
    if a != 0 && b != 0 {
      XorBelow(a / 2, b / 2, n / 2);
    }
  }
}
