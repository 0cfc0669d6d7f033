/** Small facts about multiplication and division that the solver does not find by itself. */
module Arith {

  lemma MulMonotone(a: nat, b: nat, c: nat)
    requires a <= b
    ensures a * c <= b * c
  {
  }

  lemma DivideUnique(x: nat, d: nat, q: nat, r: nat)
    requires r < d && x == q * d + r
    ensures x / d == q && x % d == r
  {
    var q', r' := x / d, x % d;
    assert x == q' * d + r';
    if q' < q {
      MulMonotone(q' + 1, q, d);
      assert false;
    }
    if q < q' {
      MulMonotone(q + 1, q', d);
      assert false;
    }
  }

  lemma QuotientSmaller(x: nat, d: nat)
    requires d > 0
    ensures (x / d) * d <= x && x / d <= x
  {
    var q := x / d;
    assert x == q * d + x % d;
    MulMonotone(1, d, q);
    assert q * d == d * q;
  }

  // Blocks of c items: one with a smaller number ends before the other begins.
  lemma NextBlock(a: nat, b: nat, c: nat)
    ensures a < b ==> a * c + c <= b * c
  {
    if a < b {
      MulMonotone(a + 1, b, c);
      assert (a + 1) * c == a * c + c;
    }
  }

  lemma HalfAtMost(x: nat, d: nat)
    requires d >= 2
    ensures 2 * (x / d) <= x
  {
    var q := x / d;
    assert x == q * d + x % d;
    MulMonotone(2, d, q);
    assert d * q == q * d;
  }

  lemma Regroup(q: nat, h: nat, m: nat, d: nat)
    ensures q * h * m * d == q * (h * (m * d))
  {
  }

  lemma Associate(a: nat, b: nat, c: nat)
    ensures a * (b * c) == (a * b) * c
  {
  }

  lemma Distribute(a: nat, b: nat, c: nat)
    ensures (a + b) * c == a * c + b * c
  {
  }

  lemma DigitOf(n: nat, z: nat, s: nat, m: nat)
    requires s < m
    ensures (n * m + (z * m + s)) % m == s
  {
    Distribute(n, z, m);
    DivideUnique(n * m + (z * m + s), m, n + z, s);
  }

  lemma MiddleDigit(e: nat, d: nat, m: nat, h: nat, q: nat, f: nat, y: nat, r: nat, z: nat, s: nat)
    requires r < d && s < m
    requires e == q * (h * (m * d)) + f && f == y * d + r && y == z * m + s
    ensures e / d % m == s
  {
    Regroup(q, h, m, d);
    Distribute(q * h * m, y, d);
    DivideUnique(e, d, q * h * m + y, r);
    DigitOf(q * h, z, s, m);
  }

  lemma Divided(x: nat, d: nat) returns (q: nat, r: nat)
    requires d > 0
    ensures q == x / d && r == x % d && x == q * d + r && r < d
  {
    q, r := x / d, x % d;
  }

  // Digits of a number are not changed by dropping others above them.
  lemma LowerDigits(e: nat, d: nat, m: nat, h: nat, whole: nat)
    requires d > 0 && m > 0 && whole > 0 && whole == h * (m * d)
    ensures e % whole / d % m == e / d % m
  {
    var q, f := Divided(e, whole);
    var y, r := Divided(f, d);
    var z, s := Divided(y, m);
    MiddleDigit(e, d, m, h, q, f, y, r, z, s);
  }

  function TwoTo(n: nat): (p: nat)
    ensures p > 0
  {
    if n == 0 then 1 else 2 * TwoTo(n - 1)
  }

  /** Bits lo to hi - 1 of a number. */
  function Bits(x: nat, hi: nat, lo: nat): nat {
    x % TwoTo(hi) / TwoTo(lo)
  }

  function ShiftedLeft(x: nat, n: nat): nat {
    x * TwoTo(n)
  }

  lemma SmallPowers()
    ensures TwoTo(0) == 1 && TwoTo(1) == 2 && TwoTo(2) == 4 && TwoTo(3) == 8
    ensures TwoTo(4) == 16 && TwoTo(5) == 32 && TwoTo(6) == 64 && TwoTo(7) == 128 && TwoTo(8) == 256
  {
    assert TwoTo(4) == 2 * TwoTo(3);
    assert TwoTo(6) == 2 * TwoTo(5);
  }

  lemma OneMore(n: nat)
    ensures TwoTo(n + 1) == 2 * TwoTo(n)
  {
  }

  lemma FourMore(n: nat)
    ensures TwoTo(n + 4) == 16 * TwoTo(n)
  {
    hide TwoTo;
    OneMore(n);
    OneMore(n + 1);
    OneMore(n + 2);
    OneMore(n + 3);
  }

  lemma NineMore(n: nat)
    ensures TwoTo(n + 9) == 512 * TwoTo(n)
  {
    hide TwoTo;
    FourMore(n);
    FourMore(n + 4);
    OneMore(n + 8);
  }
}
