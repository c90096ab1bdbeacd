/** The ring's index mask: `x & (depth - 1)` on non-negative integers. */
module Mask {
  /** Bitwise AND of two naturals. */
  function And(a: nat, b: nat): nat
    decreases a
  {
    if a == 0 || b == 0 then 0 else (if a % 2 == 1 && b % 2 == 1 then 1 else 0) + 2 * And(a / 2, b / 2)
  }

  ghost predicate PowerOfTwo(d: nat) {
    d == 1 || (d > 1 && d % 2 == 0 && PowerOfTwo(d / 2))
  }

  lemma {:induction false} AndSelf(k: nat)
    ensures And(k, k) == k
  {
    if k > 0 { AndSelf(k / 2); }
  }

  /** The driver's test `depth & (depth - 1)` is zero exactly on powers of two. */
  lemma {:induction false} PowerOfTwoTest(d: nat)
    requires d > 0
    ensures And(d, d - 1) == 0 <==> PowerOfTwo(d)
    decreases d
  {
    if d > 1 {
      if d % 2 == 0 {
        assert (d - 1) / 2 == d / 2 - 1;
        PowerOfTwoTest(d / 2);
      } else {
        assert (d - 1) / 2 == d / 2;
        AndSelf(d / 2);
      }
    }
  }

  /** For a power-of-two depth, masking with `depth - 1` is reduction modulo `depth`. */
  lemma {:induction false} MaskIsModulo(x: nat, d: nat)
    requires PowerOfTwo(d)
    ensures And(x, d - 1) == x % d
    decreases d
  {
    if d > 1 && x > 0 {
      var h := d / 2;
      MaskIsModulo(x / 2, h);
      ModHalf(x, h);
      MaskStep(x, h);
    } else if x == 0 {
      ModUnique(0, d, 0, 0);
    }
  }

  lemma MaskStep(x: nat, h: nat)
    requires h > 0 && x > 0
    ensures And(x, 2 * h - 1) == x % 2 + 2 * And(x / 2, h - 1)
  {
    assert (2 * h - 1) % 2 == 1 && (2 * h - 1) / 2 == h - 1;
  }

  lemma ModHalf(x: nat, h: nat)
    requires h > 0
    ensures x % (2 * h) == x % 2 + 2 * ((x / 2) % h)
  {
    var q, r := x / 2 / h, x / 2 % h;
    assert x / 2 == h * q + r;
    assert 2 * (h * q) == (2 * h) * q;
    ModUnique(x, 2 * h, q, 2 * r + x % 2);
  }

  lemma ModUnique(x: int, d: nat, q: int, r: nat)
    requires d > 0 && r < d && x == d * q + r
    ensures x % d == r
  {
    var k := q - x / d;
    assert x == d * (x / d) + x % d;
    assert d * k == x % d - r by { assert d * k == d * q - d * (x / d); }
    MulBound(d, k);
  }

  lemma MulBound(d: int, k: int)
    requires d > 0
    ensures k >= 1 ==> d * k >= d
    ensures k <= -1 ==> d * k <= -d
  {
    if k >= 1 { assert d * k == d + d * (k - 1); }
    if k <= -1 { assert d * k == -d + d * (k + 1); }
  }
}
