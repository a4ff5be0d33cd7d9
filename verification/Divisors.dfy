/** Greatest common divisors, as libavutil computes them, and least common multiples. */
module Divisors {
  import opened Timestamps

  predicate Divides(d: int, n: int)
    requires d > 0
  {
    n % d == 0
  }

  /** The greatest common divisor, by Euclid's rule. */
  function Gcd(a: int, b: int): (g: int)
    requires a > 0 && b >= 0
    ensures g > 0
    decreases b
  {
    if b == 0 then a else Gcd(b, a % b)
  }

  lemma DividesMultiple(d: int, n: int, q: int)
    requires d > 0 && n == q * d
    ensures Divides(d, n) && n / d == q
  {
    QuotientUnique(n, d, q);
    assert n == (n / d) * d + n % d;
  }

  lemma DividesQuotient(d: int, n: int)
    requires d > 0 && Divides(d, n)
    ensures n == (n / d) * d
  {
    assert n == (n / d) * d + n % d;
  }

  lemma DividesTrans(a: int, b: int, c: int)
    requires a > 0 && b > 0 && Divides(a, b) && Divides(b, c)
    ensures Divides(a, c)
  {
    DividesQuotient(a, b);
    DividesQuotient(b, c);
    assert c == (c / b) * ((b / a) * a) == ((c / b) * (b / a)) * a;
    DividesMultiple(a, c, (c / b) * (b / a));
  }

  lemma CancelRight(x: int, y: int, c: int)
    requires c > 0 && x * c == y * c
    ensures x == y
  {
    if x < y {
      MulMonotone(x + 1, y, c);
    } else if y < x {
      MulMonotone(y + 1, x, c);
    }
  }

  lemma PositiveFactor(p: int, g: int)
    requires g > 0 && p * g > 0
    ensures p > 0
  {
    if p <= 0 {
      MulMonotone(p, 0, g);
    }
  }

  lemma CombineStep(a: int, b: int, q: int, r: int, s: int, t: int)
    requires a == q * b + r
    ensures a * t + b * (s - q * t) == b * s + r * t
  {
    assert a * t == (q * b) * t + r * t;
    assert b * (s - q * t) == b * s - b * (q * t);
    assert b * (q * t) == (q * b) * t;
  }

  lemma SumOfMultiples(g: int, q: int, x: int, y: int)
    ensures q * (x * g) + y * g == (q * x + y) * g
  {
    assert q * (x * g) == (q * x) * g;
  }

  /** The greatest common divisor divides both, and is a combination of them. */
  lemma {:induction false} Bezout(a: int, b: int) returns (u: int, v: int)
    requires a > 0 && b >= 0
    ensures Gcd(a, b) == a * u + b * v
    ensures Divides(Gcd(a, b), a) && Divides(Gcd(a, b), b)
    decreases b
  {
    if b == 0 {
      u, v := 1, 0;
      DividesMultiple(a, a, 1);
    } else {
      var g, q, r := Gcd(a, b), a / b, a % b;
      assert a == q * b + r;
      var s, t := Bezout(b, r);
      u, v := t, s - q * t;
      CombineStep(a, b, q, r, s, t);
      DividesQuotient(g, b);
      DividesQuotient(g, r);
      SumOfMultiples(g, q, b / g, r / g);
      DividesMultiple(g, a, q * (b / g) + r / g);
    }
  }

  // --- the binary algorithm ------------------------------------------------------------

  lemma DividesCombination(d: int, a: int, b: int, u: int, v: int)
    requires d > 0 && Divides(d, a) && Divides(d, b)
    ensures Divides(d, a * u + b * v)
  {
    DividesQuotient(d, a);
    DividesQuotient(d, b);
    var x, y := a / d, b / d;
    assert (x * d) * u == (x * u) * d;
    assert (y * d) * v == (y * v) * d;
    assert (x * u) * d + (y * v) * d == (x * u + y * v) * d;
    DividesMultiple(d, a * u + b * v, x * u + y * v);
  }

  lemma DividesAtMost(d: int, n: int)
    requires d > 0 && n > 0 && Divides(d, n)
    ensures d <= n
  {
    DividesQuotient(d, n);
    PositiveFactor(n / d, d);
    MulMonotone(1, n / d, d);
  }

  /** A common divisor that is a combination of both numbers is the greatest one. */
  lemma GcdUnique(a: int, b: int, g: int, u: int, v: int)
    requires a > 0 && b > 0 && g > 0 && g == a * u + b * v
    requires Divides(g, a) && Divides(g, b)
    ensures g == Gcd(a, b)
  {
    hide Gcd, Divides;
    var h := Gcd(a, b);
    var s, t := Bezout(a, b);
    DividesCombination(g, a, b, s, t);
    DividesCombination(h, a, b, u, v);
    DividesQuotient(g, h);
    DividesQuotient(h, g);
    DividesAtMost(g, h);
    DividesAtMost(h, g);
  }

  lemma GcdSymmetric(a: int, b: int)
    requires a > 0 && b > 0
    ensures Gcd(a, b) == Gcd(b, a)
  {
    hide Gcd, Divides;
    var u, v := Bezout(a, b);
    GcdUnique(b, a, Gcd(a, b), v, u);
  }

  lemma GcdSame(a: int)
    requires a > 0
    ensures Gcd(a, a) == a
  {
    hide Gcd, Divides;
    DividesMultiple(a, a, 1);
    GcdUnique(a, a, a, 1, 0);
  }

  lemma GcdSubtract(u: int, v: int)
    requires 0 < u < v
    ensures Gcd(u, v - u) == Gcd(u, v)
  {
    hide Gcd, Divides;
    var g := Gcd(u, v - u);
    var s, t := Bezout(u, v - u);
    DividesCombination(g, u, v - u, 1, 1);
    assert u * (s - t) == u * s - u * t;
    assert (v - u) * t == v * t - u * t;
    GcdUnique(u, v, g, s - t, t);
  }

  lemma GcdDouble(a: int, b: int)
    requires a > 0 && b > 0
    ensures Gcd(2 * a, 2 * b) == 2 * Gcd(a, b)
  {
    hide Gcd, Divides;
    var g := Gcd(a, b);
    var u, v := Bezout(a, b);
    DividesQuotient(g, a);
    DividesQuotient(g, b);
    DividesMultiple(2 * g, 2 * a, a / g);
    DividesMultiple(2 * g, 2 * b, b / g);
    assert 2 * g == (2 * a) * u + (2 * b) * v;
    GcdUnique(2 * a, 2 * b, 2 * g, u, v);
  }

  lemma TimesTwo(i: int, y: int)
    ensures (2 * i) * y == y * (2 * i) == 2 * (i * y)
  {
  }

  /** A product is odd exactly if both factors are. */
  lemma OddProduct(x: int, y: int)
    ensures x * y % 2 == 1 <==> x % 2 == 1 && y % 2 == 1
  {
    var i, j := x / 2, y / 2;
    if x % 2 == 0 {
      TimesTwo(i, y);
    } else if y % 2 == 0 {
      TimesTwo(j, x);
    } else {
      TimesTwo(i, y);
      assert x * y == 2 * (i * y) + y;
    }
  }

  lemma HalfTimes(q: int, g: int, w: int)
    requires 2 * w == q * g && q % 2 == 0
    ensures w == (q / 2) * g
  {
    assert q == 2 * (q / 2);
    assert (2 * (q / 2)) * g == 2 * ((q / 2) * g);
  }

  /** An odd number and an even one have no factor of two in common. */
  lemma GcdHalve(u: int, w: int)
    requires u > 0 && w > 0 && u % 2 == 1
    ensures Gcd(u, 2 * w) == Gcd(u, w)
  {
    hide Gcd, Divides;
    var g := Gcd(u, 2 * w);
    var s, t := Bezout(u, 2 * w);
    DividesQuotient(g, u);
    DividesQuotient(g, 2 * w);
    var q := 2 * w / g;
    OddProduct(u / g, g);
    OddProduct(q, g);
    HalfTimes(q, g, w);
    DividesMultiple(g, w, q / 2);
    assert (2 * w) * t == w * (2 * t);
    GcdUnique(u, w, g, s, 2 * t);
  }

  /** ff_ctzll: the number of trailing zero bits. */
  function Ctz(n: int): nat
    requires n != 0
    decreases Abs(n)
  {
    if n % 2 == 1 then 0 else 1 + Ctz(n / 2)
  }

  /** What is left of a number when it is shifted by its trailing zeros. */
  function OddPart(n: int): int
    requires n != 0
    decreases Abs(n)
  {
    if n % 2 == 1 then n else OddPart(n / 2)
  }

  lemma DoubleRight(m: int, p: int)
    ensures m * (2 * p) == 2 * (m * p)
  {
  }

  lemma {:induction false} OddPartTimes(n: int)
    requires n != 0
    ensures OddPart(n) % 2 == 1 && n == OddPart(n) * Pow2(Ctz(n))
    ensures n > 0 ==> 0 < OddPart(n) <= n
    ensures n < 0 ==> OddPart(n) < 0
    decreases Abs(n)
  {
    if n % 2 == 1 {
    } else {
      var h := n / 2;
      OddPartTimes(h);
      assert n == 2 * h && OddPart(n) == OddPart(h) && Ctz(n) == Ctz(h) + 1;
      assert Pow2(Ctz(n)) == 2 * Pow2(Ctz(h));
      hide OddPart, Ctz, Pow2;
      DoubleRight(OddPart(h), Pow2(Ctz(h)));
    }
  }

  lemma {:induction false} Pow2Positive(k: nat)
    ensures Pow2(k) > 0
  {
    if k == 0 {
    } else {
      Pow2Positive(k - 1);
    }
  }

  /** Shifting by the trailing zeros divides exactly. */
  lemma ShiftIsOddPart(n: int)
    requires n != 0
    ensures Pow2(Ctz(n)) > 0 && n / Pow2(Ctz(n)) == OddPart(n)
  {
    OddPartTimes(n);
    Pow2Positive(Ctz(n));
    DividesMultiple(Pow2(Ctz(n)), n, OddPart(n));
  }

  /** Trailing zeros of one number do not matter if the other is odd. */
  lemma {:induction false} GcdOddPart(u: int, n: int)
    requires u > 0 && n > 0 && u % 2 == 1
    ensures OddPart(n) > 0 && Gcd(u, OddPart(n)) == Gcd(u, n)
    decreases n
  {
    hide Gcd, Divides;
    OddPartTimes(n);
    if n % 2 == 1 {
    } else {
      assert n == 2 * (n / 2);
      GcdOddPart(u, n / 2);
      GcdHalve(u, n / 2);
    }
  }

  lemma HalfOddPart(n: int)
    requires n > 0 && n % 2 == 0
    ensures n == 2 * (n / 2) && OddPart(n) == OddPart(n / 2) && Ctz(n) == Ctz(n / 2) + 1
  {
  }

  /** The common trailing zeros are those of the divisor. */
  lemma {:induction false} GcdShift(a: int, b: int)
    requires a > 0 && b > 0
    ensures OddPart(a) > 0 && OddPart(b) > 0
    ensures Gcd(a, b) == Gcd(OddPart(a), OddPart(b)) * Pow2(Min(Ctz(a), Ctz(b)))
    decreases a
  {
    OddPartTimes(a);
    OddPartTimes(b);
    if a % 2 == 1 {
      GcdOddPart(a, b);
    } else if b % 2 == 1 {
      GcdOddPart(b, a);
      GcdSymmetric(a, b);
      GcdSymmetric(b, OddPart(a));
    } else {
      HalfOddPart(a);
      HalfOddPart(b);
      var k := Min(Ctz(a / 2), Ctz(b / 2));
      GcdShift(a / 2, b / 2);
      GcdDouble(a / 2, b / 2);
      assert Pow2(k + 1) == 2 * Pow2(k);
      DoubleRight(Gcd(OddPart(a), OddPart(b)), Pow2(k));
      hide Gcd, OddPart, Ctz, Pow2;
    }
  }

  lemma NegatedOddPart(n: int)
    requires n != 0
    ensures Ctz(-n) == Ctz(n) && OddPart(-n) == -OddPart(n)
    decreases Abs(n)
  {
    if n % 2 == 1 {
    } else {
      assert -n / 2 == -(n / 2);
      NegatedOddPart(n / 2);
    }
  }

  /** av_gcd, Stein's binary algorithm: it finds the same divisor. */
  method AvGcd(a: int, b: int) returns (g: int)
    ensures a == 0 ==> g == b
    ensures a != 0 && b == 0 ==> g == a
    ensures a != 0 && b != 0 ==> g == Gcd(Abs(a), Abs(b))
  {
    if a == 0 {
      return b;
    }
    if b == 0 {
      return a;
    }
    hide Gcd, Ctz, OddPart, Pow2;
    ShiftIsOddPart(a);
    ShiftIsOddPart(b);
    NegatedOddPart(a);
    NegatedOddPart(b);
    GcdShift(Abs(a), Abs(b));
    OddPartTimes(Abs(a));
    OddPartTimes(Abs(b));
    var za, zb := Ctz(a), Ctz(b);
    var k := Min(za, zb);
    var u, v := Abs(a / Pow2(za)), Abs(b / Pow2(zb));
    while u != v
      invariant u > 0 && v > 0 && u % 2 == 1 && v % 2 == 1
      invariant Gcd(u, v) == Gcd(OddPart(Abs(a)), OddPart(Abs(b)))
      decreases u + v
    {
      if u > v {
        GcdSymmetric(u, v);
        u, v := v, u;
      }
      GcdSubtract(u, v);
      v := v - u;
      GcdOddPart(u, v);
      OddPartTimes(v);
      ShiftIsOddPart(v);
      v := v / Pow2(Ctz(v));
    }
    GcdSame(u);
    g := u * Pow2(k);
  }

  // --- least common multiples ------------------------------------------------------------

  /** prev / gcd * sr, as the program computes it. */
  function Lcm(prev: int, sr: int): int
    requires prev > 0 && sr > 0
  {
    prev / Gcd(prev, sr) * sr
  }

  lemma SwapFactors(p: int, s: int, g: int)
    ensures p * (s * g) == s * (p * g)
  {
    assert p * (s * g) == (p * s) * g;
    assert s * (p * g) == (s * p) * g;
  }

  lemma Shuffle(a: int, b: int, c: int, d: int)
    ensures (a * b) * (c * d) == (a * d) * (c * b) == (a * d) * (b * c)
  {
    assert (a * b) * (c * d) == a * (b * (c * d)) == a * ((b * c) * d) == (a * d) * (b * c);
  }

  lemma CommonMultipleTimes(prev: int, sr: int, m: int, u: int, v: int, x: int, y: int, p: int, g: int)
    requires m == x * prev && m == y * sr && prev == p * g && g == prev * u + sr * v
    ensures m * g == ((y * u + x * v) * (p * sr)) * g
  {
    var w := p * sr;
    assert m * (prev * u) == (y * sr) * (prev * u) == (y * u) * (prev * sr) by {
      Shuffle(y, sr, prev, u);
    }
    assert m * (sr * v) == (x * prev) * (sr * v) == (x * v) * (prev * sr) by {
      Shuffle(x, prev, sr, v);
    }
    assert m * g == m * (prev * u) + m * (sr * v);
    assert prev * sr == (p * g) * sr == w * g;
    assert (y * u) * (w * g) + (x * v) * (w * g) == (y * u + x * v) * (w * g);
    assert (y * u + x * v) * (w * g) == ((y * u + x * v) * w) * g;
  }

  lemma CommonMultiple(prev: int, sr: int, m: int, u: int, v: int)
    requires prev > 0 && sr > 0 && Lcm(prev, sr) > 0
    requires Gcd(prev, sr) == prev * u + sr * v && Divides(Gcd(prev, sr), prev)
    requires Divides(prev, m) && Divides(sr, m)
    ensures Divides(Lcm(prev, sr), m)
  {
    var g, l := Gcd(prev, sr), Lcm(prev, sr);
    DividesQuotient(prev, m);
    DividesQuotient(sr, m);
    DividesQuotient(g, prev);
    var k := (m / sr) * u + (m / prev) * v;
    CommonMultipleTimes(prev, sr, m, u, v, m / prev, m / sr, prev / g, g);
    CancelRight(m, k * l, g);
    DividesMultiple(l, m, k);
  }

  /** It is a multiple of both rates, and every common multiple is a multiple of it. */
  lemma LcmIsLeast(prev: int, sr: int)
    requires prev > 0 && sr > 0
    ensures Lcm(prev, sr) > 0
    ensures Divides(prev, Lcm(prev, sr)) && Divides(sr, Lcm(prev, sr))
    ensures forall m :: m > 0 && Divides(prev, m) && Divides(sr, m) ==> Divides(Lcm(prev, sr), m)
  {
    var g, l := Gcd(prev, sr), Lcm(prev, sr);
    var u, v := Bezout(prev, sr);
    hide Gcd;
    DividesQuotient(g, prev);
    DividesQuotient(g, sr);
    var p, s := prev / g, sr / g;
    PositiveFactor(p, g);
    MulPositive(p, sr);
    assert l == s * prev by {
      SwapFactors(p, s, g);
    }
    DividesMultiple(prev, l, s);
    DividesMultiple(sr, l, p);
    forall m | m > 0 && Divides(prev, m) && Divides(sr, m)
      ensures Divides(l, m)
    {
      CommonMultiple(prev, sr, m, u, v);
    }
  }
}
