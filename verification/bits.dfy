/** Python's shift and bitwise-or operators on non-negative, unbounded integers.
    The vehicle packs telemetry with `<<` and `|` on Python ints, which never
    wrap, so they are modelled on `nat` rather than on a fixed-width bit-vector. */
module Bits {

  /** 2 to the power n. */
  function Pow2(n: nat): (r: nat)
    ensures r >= 1
  {
    if n == 0 then 1 else 2 * Pow2(n - 1)
  }

  /** `v << n` on a Python int. */
  function Shl(v: nat, n: nat): nat
  {
    v * Pow2(n)
  }

  /** `v >> n` on a non-negative Python int. */
  function Shr(v: nat, n: nat): nat
  {
    DivNonNegative(v, Pow2(n));
    v / Pow2(n)
  }

  /** `a | b` on non-negative Python ints, one bit at a time from the bottom. */
  function Or(a: nat, b: nat): (r: nat)
    ensures a <= r && b <= r
    ensures r <= a + b
    decreases a + b
  {
    if a == 0 then b
    else if b == 0 then a
    else 2 * Or(a / 2, b / 2) + (if a % 2 == 1 || b % 2 == 1 then 1 else 0)
  }

  lemma MulAtLeast(a: int, p: int)
    requires a >= 1 && p > 0
    ensures a * p >= p
  {
    if a > 1 {
      MulAtLeast(a - 1, p);
      assert a * p == (a - 1) * p + p;
    }
  }

  lemma MulMonotone(a: nat, b: nat, p: nat)
    requires a <= b
    ensures a * p <= b * p
  {
  }

  lemma MulSucc(a: int, p: int)
    ensures (a + 1) * p == a * p + p
  {
  }

  lemma MulAssoc(a: int, b: int, c: int)
    ensures a * (b * c) == (a * b) * c
  {
  }

  lemma NegativeProduct(q: int, p: int)
    requires q < 0 && p > 0
    ensures q * p <= -p
  {
    MulAtLeast(-q, p);
    assert (-q) * p == -(q * p);
  }

  /** Dividing a non-negative number by a positive one gives a non-negative
      quotient. */
  lemma DivNonNegative(v: nat, p: int)
    requires p > 0
    ensures v / p >= 0
  {
    var q, r := v / p, v % p;
    assert v == q * p + r;
    if q < 0 {
      NegativeProduct(q, p);
      assert false;
    }
  }

  /** Euclidean division has exactly one quotient and remainder. */
  lemma DivModUnique(x: int, p: int, q: int, r: int)
    requires p > 0 && 0 <= r < p && x == q * p + r
    ensures x / p == q && x % p == r
  {
    var d, m := x / p, x % p;
    assert (d - q) * p == r - m;
    if d - q >= 1 {
      MulAtLeast(d - q, p);
    } else if q - d >= 1 {
      MulAtLeast(q - d, p);
    }
  }

  lemma Pow2Add(m: nat, n: nat)
    ensures Pow2(m + n) == Pow2(m) * Pow2(n)
  {
    if m > 0 {
      Pow2Add(m - 1, n);
    }
  }

  /** The powers the two wire formats use. */
  lemma Pow2Table()
    ensures Pow2(4) == 0x10
    ensures Pow2(8) == 0x100
    ensures Pow2(11) == 0x800
    ensures Pow2(16) == 0x1_0000
    ensures Pow2(17) == 0x2_0000
    ensures Pow2(21) == 0x20_0000
    ensures Pow2(24) == 0x100_0000
  {
    assert Pow2(8) == 0x100;
    assert Pow2(16) == 0x1_0000;
  }

  /** Shifting left then right by the same amount gives the value back, and the
      shifted value has only zero bits below the shift. */
  lemma ShlShr(v: nat, n: nat)
    ensures Shl(v, n) % Pow2(n) == 0
    ensures Shr(Shl(v, n), n) == v
  {
    DivModUnique(v * Pow2(n), Pow2(n), v, 0);
  }

  /** When a's low k bits are all zero and b fits in k bits, `a | b` is `a + b`:
      the two operands share no set bit. */
  lemma {:induction false} OrDisjoint(a: nat, b: nat, k: nat)
    requires a % Pow2(k) == 0
    requires b < Pow2(k)
    ensures Or(a, b) == a + b
    decreases k
  {
    if a == 0 || b == 0 {
    } else {
      assert k >= 1;
      var p := Pow2(k - 1);
      assert Pow2(k) == 2 * p;
      var q := a / (2 * p);
      assert a == (q * p) * 2 by {
        assert a == (2 * p) * q + a % (2 * p);
      }
      DivModUnique(a, 2, q * p, 0);
      DivModUnique(a / 2, p, q, 0);
      assert b / 2 < p;
      OrDisjoint(a / 2, b / 2, k - 1);
      assert Or(a, b) == 2 * (a / 2 + b / 2) + b % 2;
    }
  }
}
