/** Powers of two, bit lengths and the division facts used by the difficulty rules. */
module Arith {

  function Pow2(n: nat): (p: nat)
    ensures p >= 1
  {
    if n == 0 then 1 else 2 * Pow2(n - 1)
  }

  lemma Pow2Next(n: nat)
    ensures Pow2(n + 1) == Pow2(n) * 2
  {
  }

  lemma {:induction false} Pow2Add(a: nat, b: nat)
    ensures Pow2(a + b) == Pow2(a) * Pow2(b)
    decreases a
  {
    if a > 0 {
      Pow2Add(a - 1, b);
      assert Pow2(a + b) == 2 * (Pow2(a - 1) * Pow2(b));
      assert 2 * (Pow2(a - 1) * Pow2(b)) == (2 * Pow2(a - 1)) * Pow2(b);
    }
  }

  lemma {:induction false} Pow2Mono(a: nat, b: nat)
    requires a <= b
    ensures Pow2(a) <= Pow2(b)
    ensures a < b ==> 2 * Pow2(a) <= Pow2(b)
    decreases b - a
  {
    if a < b {
      Pow2Mono(a + 1, b);
    }
  }

  /** Number of bits of the binary representation. */
  function BitLen(t: nat): nat {
    if t == 0 then 0 else 1 + BitLen(t / 2)
  }

  lemma {:induction false} BitLenBounds(t: nat)
    ensures t < Pow2(BitLen(t))
    ensures t > 0 ==> BitLen(t) > 0 && Pow2(BitLen(t) - 1) <= t
  {
    if t > 0 {
      BitLenBounds(t / 2);
    }
  }

  /** `n` bits are enough exactly when the value is below `2^n`. */
  lemma BitLenIff(t: nat, n: nat)
    ensures BitLen(t) <= n <==> t < Pow2(n)
  {
    BitLenBounds(t);
    if BitLen(t) <= n {
      Pow2Mono(BitLen(t), n);
    } else {
      Pow2Mono(n, BitLen(t) - 1);
    }
  }

  lemma {:induction false} BitLenShift(t: nat, k: nat)
    requires t / Pow2(k) > 0
    ensures BitLen(t) == k + BitLen(t / Pow2(k))
    decreases k
  {
    if k > 0 {
      DivDiv(t, 2, Pow2(k - 1));
      DivDiv(t, Pow2(k - 1), 2);
      assert Pow2(k) == 2 * Pow2(k - 1) == Pow2(k - 1) * 2;
      assert t / Pow2(k) == (t / 2) / Pow2(k - 1);
      BitLenShift(t / 2, k - 1);
      assert t > 0;
    }
  }

  // ---------- Division ----------

  lemma DivBounds(a: nat, d: nat)
    requires d > 0
    ensures a / d * d <= a < a / d * d + d
    ensures a / d >= 0
  {
  }

  lemma MulNonneg(a: nat, b: nat)
    ensures a * b >= 0
  {
    MulMono(0, a, b);
  }

  /** Product and quotient of naturals, as naturals. */
  function Mul(a: nat, b: nat): (r: nat)
    ensures r == a * b
  {
    MulNonneg(a, b);
    a * b
  }

  function Div(a: nat, d: nat): (r: nat)
    requires d > 0
    ensures r == a / d
  {
    DivBounds(a, d);
    a / d
  }

  lemma DivUnique(a: nat, d: nat, q: nat)
    requires d > 0 && q * d <= a < q * d + d
    ensures a / d == q
  {
    DivBounds(a, d);
    var r := a / d;
    MulMonoIf(r + 1, q, d);
    MulMonoIf(q + 1, r, d);
    assert (r + 1) * d == r * d + d && (q + 1) * d == q * d + d;
  }

  lemma ModSmall(a: nat, m: nat)
    requires a < m
    ensures a % m == a
  {
  }

  lemma MulMonoIf(a: nat, b: nat, c: nat)
    ensures a <= b ==> a * c <= b * c
  {
    if a <= b {
      MulMono(a, b, c);
    }
  }

  lemma MulMono(a: nat, b: nat, c: nat)
    requires a <= b
    ensures a * c <= b * c
    ensures c * a <= c * b
  {
    assert b * c == a * c + (b - a) * c;
  }

  lemma DivMono(a: nat, b: nat, d: nat)
    requires a <= b && d > 0
    ensures a / d <= b / d
  {
    DivBounds(a, d);
    DivBounds(b, d);
    MulMonoIf(b / d + 1, a / d, d);
    assert (b / d + 1) * d == b / d * d + d;
  }

  lemma DivAntitone(a: nat, c: nat, d: nat)
    requires 0 < c <= d
    ensures a / d <= a / c
  {
    DivBounds(a, c);
    DivBounds(a, d);
    MulMono(c, d, a / c + 1);
    MulMonoIf(a / c + 1, a / d, d);
    assert (a / c + 1) * c == a / c * c + c;
  }

  lemma DivMul(q: nat, d: nat)
    requires d > 0
    ensures q * d / d == q
  {
    DivUnique(q * d, d, q);
  }

  lemma DivDiv(a: nat, b: nat, c: nat)
    requires b > 0 && c > 0
    ensures b * c > 0 && a / b / c == a / (b * c)
  {
    var p := Div(a, b);
    var q := Div(p, c);
    MulMono(1, b, c);
    DivBounds(a, b);
    DivBounds(p, c);
    DivDivBounds(a, b, c, p, q);
    DivUnique(a, b * c, q);
  }

  lemma DivDivBounds(a: nat, b: nat, c: nat, p: nat, q: nat)
    requires p * b <= a < p * b + b && q * c <= p < q * c + c
    ensures q * (b * c) <= a < q * (b * c) + b * c
  {
    MulMono(q * c, p, b);
    MulMono(p + 1, q * c + c, b);
    assert (p + 1) * b == p * b + b;
    assert (q * c + c) * b == (q * c) * b + c * b;
    assert (q * c) * b == q * (b * c);
  }

  /** `t < d * q` bounds the quotient. */
  lemma DivLess(t: nat, d: nat, q: nat)
    requires d > 0 && t < q * d
    ensures t / d < q
  {
    DivBounds(t, d);
    MulMonoIf(q, t / d, d);
  }

  lemma DivAtLeast(t: nat, d: nat, q: nat)
    requires d > 0 && t >= q * d
    ensures t / d >= q
  {
    DivMul(q, d);
    DivMono(q * d, t, d);
  }
}
