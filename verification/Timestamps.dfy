/** Timestamps and time bases, as libavutil's mathematics.c handles them.

    A timestamp is a plain integer counted in units of a time base; NOPTS is the
    sentinel for "unknown".  Integers are unbounded here, so the overflow returns
    of av_rescale_rnd do not arise. */
module Timestamps {

  const NOPTS: int := -0x8000_0000_0000_0000
  const INT64_MAX: int := 0x7fff_ffff_ffff_ffff
  const INT_MAX: int := 0x7fff_ffff
  const AV_TIME_BASE: int := 1_000_000

  datatype Rational = Rational(num: int, den: int)

  type TimeBase = r: Rational | r.num > 0 && r.den > 0 witness Rational(1, 1)

  const TIME_BASE_Q: TimeBase := Rational(1, AV_TIME_BASE)

  datatype Rounding = NearInf | Down | Up

  function Min(a: int, b: int): int { if a < b then a else b }

  function Max(a: int, b: int): int { if a > b then a else b }

  function Abs(a: int): int { if a < 0 then -a else a }

  function Pow2(n: nat): nat { if n == 0 then 1 else 2 * Pow2(n - 1) }

  /** median3. */
  function Median3(a: int, b: int, c: int): int {
    var max2 := if a >= b then a else b;
    var min2 := if a >= b then b else a;
    var m := if c >= max2 then max2 else c;
    if m >= min2 then m else min2
  }

  /** It is one of the three, with one of the others on either side. */
  lemma MedianIsMiddle(a: int, b: int, c: int)
    ensures var m := Median3(a, b, c);
      || (m == a && (b <= a <= c || c <= a <= b))
      || (m == b && (a <= b <= c || c <= b <= a))
      || (m == c && (a <= c <= b || b <= c <= a))
  {
  }

  /** The instant `ts` denotes, in seconds. */
  ghost function Seconds(ts: int, tb: TimeBase): real {
    ts as real * tb.num as real / tb.den as real
  }

  function RescaleMagnitude(a: int, b: int, c: int, rnd: Rounding): int
    requires a >= 0 && b > 0 && c > 0
  {
    var r := match rnd case NearInf => c / 2 case Down => 0 case Up => c - 1;
    (a * b + r) / c
  }

  /** a * b / c; a negative `a` is rescaled by its magnitude with Down and Up swapped. */
  function RescaleRnd(a: int, b: int, c: int, rnd: Rounding): int
    requires b > 0 && c > 0
  {
    if a < 0 then
      -RescaleMagnitude(-a, b, c, match rnd case NearInf => NearInf case Down => Up case Up => Down)
    else
      RescaleMagnitude(a, b, c, rnd)
  }

  lemma MulPositive(x: int, y: int)
    requires x > 0 && y > 0
    ensures x * y > 0
  {
  }

  lemma ScalePositive(p: TimeBase, q: TimeBase)
    ensures p.num * q.den > 0
  {
    MulPositive(p.num, q.den);
  }

  function RescaleQRnd(a: int, bq: TimeBase, cq: TimeBase, rnd: Rounding): int {
    ScalePositive(bq, cq);
    ScalePositive(cq, bq);
    RescaleRnd(a, bq.num * cq.den, cq.num * bq.den, rnd)
  }

  function RescaleQ(a: int, bq: TimeBase, cq: TimeBase): int {
    RescaleQRnd(a, bq, cq, NearInf)
  }

  lemma MulMonotone(x: int, y: int, c: int)
    requires x <= y && c >= 0
    ensures x * c <= y * c
  {
  }

  lemma MulCancel(x: int, y: int, c: int)
    requires c > 0 && x * c < y * c
    ensures x < y
  {
    if y <= x {
      MulMonotone(y, x, c);
    }
  }

  /** A quotient is determined by the bracket its multiple leaves. */
  lemma QuotientUnique(n: int, c: int, q: int)
    requires c > 0 && q * c <= n < q * c + c
    ensures n / c == q
  {
    var d := n / c;
    assert n == d * c + n % c;
    if d < q {
      MulMonotone(d + 1, q, c);
    } else if d > q {
      MulMonotone(q + 1, d, c);
    }
  }

  /** Rounding down is the floor of the exact quotient, whatever the sign. */
  lemma RescaleDownIsFloor(a: int, b: int, c: int)
    requires b > 0 && c > 0
    ensures RescaleRnd(a, b, c, Down) == a * b / c
  {
    if a < 0 {
      var q := a * b / c;
      assert a * b == q * c + a * b % c;
      assert -a * b == -(a * b);
      assert (-q) * c == -(q * c);
      QuotientUnique(-a * b + (c - 1), c, -q);
    }
  }

  /** Rounding to nearest leaves at most half a unit of error. */
  lemma RescaleNearError(a: int, b: int, c: int)
    requires b > 0 && c > 0
    ensures 2 * (a * b) - c <= 2 * (RescaleRnd(a, b, c, NearInf) * c) <= 2 * (a * b) + c
  {
    var m := Abs(a);
    var q := (m * b + c / 2) / c;
    assert m * b + c / 2 == q * c + (m * b + c / 2) % c;
    if a < 0 {
      assert m * b == -(a * b);
      assert (-q) * c == -(q * c);
    }
  }

  /** A product that c divides is rescaled exactly. */
  lemma RescaleExact(a: int, b: int, c: int, q: int)
    requires b > 0 && c > 0 && a * b == q * c
    ensures RescaleRnd(a, b, c, NearInf) == q
  {
    if a < 0 {
      assert -a * b == -(a * b);
      assert (-q) * c == -(q * c);
      QuotientUnique(-a * b + c / 2, c, -q);
    } else {
      QuotientUnique(a * b + c / 2, c, q);
    }
  }

  /** Exactly between two, it goes away from zero. */
  lemma RescaleTie(a: int, b: int, c: int, q: nat)
    requires a >= 0 && b > 0 && c > 0 && 2 * (a * b) == (2 * q + 1) * c
    ensures RescaleRnd(a, b, c, NearInf) == q + 1 && RescaleRnd(-a, b, c, NearInf) == -(q + 1)
  {
    assert (2 * q + 1) * c == 2 * (q * c) + c;
    assert (q + 1) * c == q * c + c;
    QuotientUnique(a * b + c / 2, c, q + 1);
    if a == 0 {
      MulMonotone(0, q, c);
    }
  }

  lemma QuotientMonotone(m: int, n: int, c: int)
    requires c > 0 && m <= n
    ensures m / c <= n / c
  {
    assert m == (m / c) * c + m % c && n == (n / c) * c + n % c;
    if n / c < m / c {
      MulMonotone(n / c + 1, m / c, c);
    }
  }

  lemma MagnitudeMonotone(x: int, y: int, b: int, c: int)
    requires 0 <= x <= y && b > 0 && c > 0
    ensures 0 <= RescaleMagnitude(x, b, c, NearInf) <= RescaleMagnitude(y, b, c, NearInf)
  {
    MulMonotone(0, x, b);
    MulMonotone(x, y, b);
    QuotientMonotone(0, x * b + c / 2, c);
    QuotientMonotone(x * b + c / 2, y * b + c / 2, c);
    QuotientUnique(0, c, 0);
  }

  /** The order of timestamps is kept. */
  lemma RescaleMonotone(x: int, y: int, bq: TimeBase, cq: TimeBase)
    requires x <= y
    ensures RescaleQ(x, bq, cq) <= RescaleQ(y, bq, cq)
  {
    ScalePositive(bq, cq);
    ScalePositive(cq, bq);
    var b, c := bq.num * cq.den, cq.num * bq.den;
    MagnitudeMonotone(0, Abs(x), b, c);
    MagnitudeMonotone(0, Abs(y), b, c);
    if x >= 0 {
      MagnitudeMonotone(x, y, b, c);
    } else if y < 0 {
      MagnitudeMonotone(-y, -x, b, c);
    }
    hide RescaleMagnitude;
  }

  lemma Pow2Positive(n: nat)
    ensures Pow2(n) > 0
  {
  }

  /** Rescaling between equal time bases changes nothing. */
  lemma RescaleSame(a: int, tb: TimeBase)
    ensures RescaleQ(a, tb, tb) == a
  {
    ScalePositive(tb, tb);
    RescaleExact(a, tb.num * tb.den, tb.num * tb.den, a);
  }

  /** Zero is zero in every time base. */
  lemma RescaleZero(bq: TimeBase, cq: TimeBase)
    ensures RescaleQ(0, bq, cq) == 0
  {
    ScalePositive(bq, cq);
    ScalePositive(cq, bq);
    RescaleExact(0, bq.num * cq.den, cq.num * bq.den, 0);
  }

  // --- comparison -----------------------------------------------------------

  /** av_compare_ts: a 32-bit fast path, and two floors where products may overflow. */
  function CompareTs(tsA: int, tbA: TimeBase, tsB: int, tbB: TimeBase): (r: int) {
    ScalePositive(tbA, tbB);
    ScalePositive(tbB, tbA);
    var a := tbA.num * tbB.den;
    var b := tbB.num * tbA.den;
    if Abs(tsA) <= INT_MAX && a <= INT_MAX && Abs(tsB) <= INT_MAX && b <= INT_MAX then
      (if tsA * a > tsB * b then 1 else 0) - (if tsA * a < tsB * b then 1 else 0)
    else if RescaleRnd(tsA, a, b, Down) < tsB then -1
    else if RescaleRnd(tsB, b, a, Down) < tsA then 1
    else 0
  }

  lemma FloorBelow(n: int, c: int, q: int)
    requires c > 0
    ensures n / c < q <==> n < q * c
  {
    var d := n / c;
    assert n == d * c + n % c;
    if d < q {
      MulMonotone(d + 1, q, c);
    } else {
      MulMonotone(q, d, c);
    }
  }

  lemma DivLess(l: real, dp: real, r: real, dq: real)
    requires dp > 0.0 && dq > 0.0
    ensures l / dp < r / dq <==> l * dq < r * dp
  {
    var u, v := l / dp, r / dq;
    assert l == u * dp && r == v * dq;
    assert l * dq == u * (dp * dq);
    assert r * dp == v * (dp * dq);
    assert dp * dq > 0.0;
  }

  lemma CrossMultiply(x: int, p: TimeBase, y: int, q: TimeBase)
    ensures Seconds(x, p) < Seconds(y, q) <==> x * (p.num * q.den) < y * (q.num * p.den)
  {
    var dp, dq := p.den as real, q.den as real;
    var l := x as real * p.num as real;
    var r := y as real * q.num as real;
    assert l == (x * p.num) as real;
    assert r == (y * q.num) as real;
    assert (x * p.num) * q.den == x * (p.num * q.den);
    assert (y * q.num) * p.den == y * (q.num * p.den);
    assert l * dq == ((x * p.num) * q.den) as real;
    assert r * dp == ((y * q.num) * p.den) as real;
    DivLess(l, dp, r, dq);
  }

  /** Both paths of the comparison order the two instants exactly. */
  lemma CompareTsIsExact(tsA: int, tbA: TimeBase, tsB: int, tbB: TimeBase)
    ensures CompareTs(tsA, tbA, tsB, tbB) < 0 <==> Seconds(tsA, tbA) < Seconds(tsB, tbB)
    ensures CompareTs(tsA, tbA, tsB, tbB) > 0 <==> Seconds(tsA, tbA) > Seconds(tsB, tbB)
    ensures CompareTs(tsA, tbA, tsB, tbB) in {-1, 0, 1}
  {
    ScalePositive(tbA, tbB);
    ScalePositive(tbB, tbA);
    var a, b := tbA.num * tbB.den, tbB.num * tbA.den;
    CrossMultiply(tsA, tbA, tsB, tbB);
    CrossMultiply(tsB, tbB, tsA, tbA);
    RescaleDownIsFloor(tsA, a, b);
    RescaleDownIsFloor(tsB, b, a);
    FloorBelow(tsA * a, b, tsB);
    FloorBelow(tsB * b, a, tsA);
  }

  lemma SecondsMonotone(a: int, b: int, tb: TimeBase)
    ensures Seconds(a, tb) < Seconds(b, tb) <==> a < b
  {
    ScalePositive(tb, tb);
    CrossMultiply(a, tb, b, tb);
    var c := tb.num * tb.den;
    if a < b {
      assert (b - a) * c > 0 by { MulPositive(b - a, c); }
      assert b * c == a * c + (b - a) * c;
    } else {
      MulMonotone(b, a, c);
    }
  }

  // --- exact conversions ----------------------------------------------------------

  function PerSecond(rate: int): TimeBase
    requires rate > 0
  {
    Rational(1, rate)
  }

  lemma DivCancel(x: real, d: real, m: real)
    requires d > 0.0 && m > 0.0
    ensures d * m > 0.0 && (x * m) / (d * m) == x / d
  {
    var q := x / d;
    assert x == q * d;
    assert x * m == q * (d * m);
  }

  lemma SecondsScale(a: int, den: int, k: int)
    requires den > 0 && k > 0 && den * k > 0
    ensures Seconds(a * k, PerSecond(den * k)) == Seconds(a, PerSecond(den))
  {
    var x, d, m := a as real, den as real, k as real;
    assert (a * k) as real == x * m;
    assert (den * k) as real == d * m;
    DivCancel(x, d, m);
  }

  /** Going to a k times finer time base multiplies by k and keeps the instant. */
  lemma RescaleFiner(a: int, den: int, k: int)
    requires den > 0 && k > 0
    ensures den * k > 0
    ensures RescaleQ(a, PerSecond(den), PerSecond(den * k)) == a * k
    ensures Seconds(a * k, PerSecond(den * k)) == Seconds(a, PerSecond(den))
  {
    MulPositive(den, k);
    assert a * (den * k) == (a * k) * den;
    RescaleExact(a, den * k, den, a * k);
    SecondsScale(a, den, k);
  }

  lemma DivAdd(x: real, y: real, d: real)
    requires d > 0.0
    ensures (x + y) / d == x / d + y / d
  {
  }

  lemma SecondsAdd(a: int, b: int, tb: TimeBase)
    ensures Seconds(a + b, tb) == Seconds(a, tb) + Seconds(b, tb)
  {
    var n, d := tb.num as real, tb.den as real;
    assert (a + b) as real * n == a as real * n + b as real * n;
    DivAdd(a as real * n, b as real * n, d);
  }

  // --- rounding errors in seconds --------------------------------------------------

  ghost predicate Near(x: real, y: real, error: real) { y - error <= x <= y + error }

  /** The length of a unit of the time base, in seconds. */
  ghost function Unit(tb: TimeBase): real { Seconds(1, tb) }

  lemma UnitPositive(tb: TimeBase)
    ensures Unit(tb) > 0.0
  {
  }

  /** r is a * b / c up to half of c. */
  lemma NearQuotient(a: int, b: int, c: int, r: int)
    requires 2 * (a * b) - c <= 2 * (r * c) <= 2 * (a * b) + c
    ensures (2 * r - 1) * c <= 2 * a * b <= (2 * r + 1) * c
  {
    assert (2 * r - 1) * c == 2 * (r * c) - c;
    assert (2 * r + 1) * c == 2 * (r * c) + c;
    assert 2 * a * b == 2 * (a * b);
  }

  /** A conversion is off by at most half a unit of the time base it goes to. */
  lemma RescaleNearSeconds(a: int, bq: TimeBase, cq: TimeBase)
    ensures Seconds(a, bq) - 0.5 * Unit(cq) <= Seconds(RescaleQ(a, bq, cq), cq) <= Seconds(a, bq) + 0.5 * Unit(cq)
  {
    ScalePositive(bq, cq);
    ScalePositive(cq, bq);
    var r, b, c := RescaleQ(a, bq, cq), bq.num * cq.den, cq.num * bq.den;
    RescaleNearError(a, b, c);
    hide RescaleQ, Seconds;
    NearQuotient(a, b, c, r);
    CrossMultiply(2 * a, bq, 2 * r - 1, cq);
    CrossMultiply(2 * r + 1, cq, 2 * a, bq);
    SecondsAdd(a, a, bq);
    SecondsAdd(r, r, cq);
    SecondsAdd(2 * r, 1, cq);
    SecondsAdd(2 * r - 1, 1, cq);
  }

  /** Rounding up or down is off by less than a unit. */
  lemma RescaleDownSeconds(a: int, bq: TimeBase, cq: TimeBase)
    ensures var s := Seconds(RescaleQRnd(a, bq, cq, Down), cq); Seconds(a, bq) - Unit(cq) < s <= Seconds(a, bq)
  {
    ScalePositive(bq, cq);
    ScalePositive(cq, bq);
    var r, b, c := RescaleQRnd(a, bq, cq, Down), bq.num * cq.den, cq.num * bq.den;
    RescaleDownIsFloor(a, b, c);
    assert a * b == r * c + a * b % c;
    hide RescaleQRnd, Seconds;
    assert (r + 1) * c == r * c + c;
    CrossMultiply(a, bq, r, cq);
    CrossMultiply(a, bq, r + 1, cq);
    SecondsAdd(r, 1, cq);
  }

  lemma RescaleUpNegates(a: int, bq: TimeBase, cq: TimeBase)
    ensures RescaleQRnd(a, bq, cq, Up) == -RescaleQRnd(-a, bq, cq, Down)
  {
    ScalePositive(bq, cq);
    ScalePositive(cq, bq);
    if a == 0 {
      QuotientUnique(cq.num * bq.den - 1, cq.num * bq.den, 0);
    }
  }

  lemma RescaleUpSeconds(a: int, bq: TimeBase, cq: TimeBase)
    ensures var s := Seconds(RescaleQRnd(a, bq, cq, Up), cq); Seconds(a, bq) <= s < Seconds(a, bq) + Unit(cq)
  {
    RescaleUpNegates(a, bq, cq);
    RescaleDownSeconds(-a, bq, cq);
    SecondsAdd(a, -a, bq);
    SecondsAdd(RescaleQRnd(a, bq, cq, Up), -RescaleQRnd(a, bq, cq, Up), cq);
  }

  function SimpleRound(inTb: TimeBase, inTs: int, fsTb: TimeBase, duration: nat, outTb: TimeBase): (int, int) {
    (RescaleQ(inTs, inTb, outTb), RescaleQ(inTs, inTb, fsTb) + duration)
  }

  /** av_rescale_delta: the converted timestamp and the new value of `last`. */
  function RescaleDelta(inTb: TimeBase, inTs: int, fsTb: TimeBase, duration: nat, last: int, outTb: TimeBase): (int, int)
  {
    if last == NOPTS || duration == 0 || inTb.num * outTb.den <= outTb.num * inTb.den then
      SimpleRound(inTb, inTs, fsTb, duration, outTb)
    else
      var a := RescaleQRnd(2 * inTs - 1, inTb, fsTb, Down) / 2;
      var b := (RescaleQRnd(2 * inTs + 1, inTb, fsTb, Up) + 1) / 2;
      if last < 2 * a - b || last > 2 * b - a then
        SimpleRound(inTb, inTs, fsTb, duration, outTb)
      else
        var this' := if last < a then a else if last > b then b else last;
        (RescaleQ(this', fsTb, outTb), this' + duration)
  }

  lemma BetweenHalves(ts: int, inTb: TimeBase, fsTb: TimeBase, lo: int, hi: int, mid: int)
    requires lo == RescaleQRnd(2 * ts - 1, inTb, fsTb, Down) && hi == RescaleQRnd(2 * ts + 1, inTb, fsTb, Up)
    requires mid == lo / 2 || mid == (hi + 1) / 2 || lo / 2 <= mid <= (hi + 1) / 2
    ensures Seconds(ts, inTb) - 0.5 * Unit(inTb) - Unit(fsTb) <= Seconds(mid, fsTb)
    ensures Seconds(mid, fsTb) <= Seconds(ts, inTb) + 0.5 * Unit(inTb) + Unit(fsTb)
  {
    RescaleDownSeconds(2 * ts - 1, inTb, fsTb);
    RescaleUpSeconds(2 * ts + 1, inTb, fsTb);
    hide RescaleQRnd, Seconds;
    UnitPositive(inTb);
    UnitPositive(fsTb);
    SecondsAdd(ts, ts, inTb);
    SecondsAdd(2 * ts - 1, 1, inTb);
    SecondsAdd(2 * ts, 1, inTb);
    SecondsMonotone(lo, hi, fsTb);
    SecondsMonotone(hi, lo, fsTb);
    assert lo <= hi;
    SecondsAdd(mid, mid, fsTb);
    SecondsAdd(lo - 1, 1, fsTb);
    SecondsAdd(hi, 1, fsTb);
    SecondsMonotone(2 * mid, lo - 1, fsTb);
    SecondsMonotone(hi + 1, 2 * mid, fsTb);
  }

  /** The conversion keeps to the timestamp it is given: whatever the history, it is off by
      at most half a unit of the input, one of the intermediate and half a unit of the output
      time base. */
  lemma RescaleDeltaNear(inTb: TimeBase, inTs: int, fsTb: TimeBase, duration: nat, last: int, outTb: TimeBase)
    ensures var s := Seconds(RescaleDelta(inTb, inTs, fsTb, duration, last, outTb).0, outTb);
      var error := 0.5 * Unit(inTb) + Unit(fsTb) + 0.5 * Unit(outTb);
      Seconds(inTs, inTb) - error <= s <= Seconds(inTs, inTb) + error
  {
    UnitPositive(inTb);
    UnitPositive(fsTb);
    RescaleNearSeconds(inTs, inTb, outTb);
    var lo, hi := RescaleQRnd(2 * inTs - 1, inTb, fsTb, Down), RescaleQRnd(2 * inTs + 1, inTb, fsTb, Up);
    var this' := if last < lo / 2 then lo / 2 else if last > (hi + 1) / 2 then (hi + 1) / 2 else last;
    RescaleNearSeconds(this', fsTb, outTb);
    BetweenHalves(inTs, inTb, fsTb, lo, hi, this');
    hide RescaleQ, RescaleQRnd, Seconds;
  }

  /** If the output is in the intermediate time base, half a unit less. */
  lemma RescaleDeltaNearOwn(inTb: TimeBase, inTs: int, tb: TimeBase, duration: nat, last: int)
    ensures var s := Seconds(RescaleDelta(inTb, inTs, tb, duration, last, tb).0, tb);
      var error := 0.5 * Unit(inTb) + Unit(tb);
      Seconds(inTs, inTb) - error <= s <= Seconds(inTs, inTb) + error
  {
    UnitPositive(inTb);
    UnitPositive(tb);
    RescaleNearSeconds(inTs, inTb, tb);
    var lo, hi := RescaleQRnd(2 * inTs - 1, inTb, tb, Down), RescaleQRnd(2 * inTs + 1, inTb, tb, Up);
    var this' := if last < lo / 2 then lo / 2 else if last > (hi + 1) / 2 then (hi + 1) / 2 else last;
    RescaleSame(this', tb);
    BetweenHalves(inTs, inTb, tb, lo, hi, this');
    hide RescaleQ, RescaleQRnd, Seconds;
  }

  /** The new value of `last`: where the samples converted start, next to the timestamp, and how
      many there are. */
  lemma RescaleDeltaStart(inTb: TimeBase, inTs: int, fsTb: TimeBase, duration: nat, last: int, outTb: TimeBase)
    ensures var start := RescaleDelta(inTb, inTs, fsTb, duration, last, outTb).1 - duration;
      Near(Seconds(start, fsTb), Seconds(inTs, inTb), 0.5 * Unit(inTb) + Unit(fsTb))
  {
    UnitPositive(inTb);
    UnitPositive(fsTb);
    RescaleNearSeconds(inTs, inTb, fsTb);
    var lo, hi := RescaleQRnd(2 * inTs - 1, inTb, fsTb, Down), RescaleQRnd(2 * inTs + 1, inTb, fsTb, Up);
    var this' := if last < lo / 2 then lo / 2 else if last > (hi + 1) / 2 then (hi + 1) / 2 else last;
    BetweenHalves(inTs, inTb, fsTb, lo, hi, this');
    hide RescaleQ, RescaleQRnd, Seconds;
  }

  /** The timestamp is next to where it is expected. */
  ghost predicate Rounded(ts: int, inTb: TimeBase, expected: int, tb: TimeBase) {
    Near(Seconds(ts, inTb), Seconds(expected, tb), 0.5 * Unit(inTb))
  }

  /** The range that the conversion allows for a timestamp holds all that it may stand for. */
  lemma RoundedInRange(ts: int, inTb: TimeBase, expected: int, tb: TimeBase)
    requires Rounded(ts, inTb, expected, tb)
    ensures RescaleQRnd(2 * ts - 1, inTb, tb, Down) <= 2 * expected <= RescaleQRnd(2 * ts + 1, inTb, tb, Up)
  {
    var lo, hi := RescaleQRnd(2 * ts - 1, inTb, tb, Down), RescaleQRnd(2 * ts + 1, inTb, tb, Up);
    RescaleDownSeconds(2 * ts - 1, inTb, tb);
    RescaleUpSeconds(2 * ts + 1, inTb, tb);
    hide Seconds, RescaleQRnd;
    SecondsAdd(ts, ts, inTb);
    SecondsAdd(2 * ts - 1, 1, inTb);
    SecondsAdd(2 * ts, 1, inTb);
    SecondsAdd(expected, expected, tb);
    SecondsMonotone(2 * expected, lo, tb);
    SecondsMonotone(hi, 2 * expected, tb);
  }

  /** What av_rescale_delta is for: a timestamp in a coarser time base that is no more than rounded
      stays where the samples before it have ended. */
  lemma RescaleDeltaInStep(inTb: TimeBase, inTs: int, fsTb: TimeBase, duration: nat, last: int, outTb: TimeBase)
    requires Rounded(inTs, inTb, last, fsTb) && duration > 0 && last != NOPTS
    requires inTb.num * outTb.den > outTb.num * inTb.den
    ensures RescaleDelta(inTb, inTs, fsTb, duration, last, outTb) == (RescaleQ(last, fsTb, outTb), last + duration)
  {
    RoundedInRange(inTs, inTb, last, fsTb);
    hide RescaleQ, RescaleQRnd, Rounded;
  }

  /** One that is further away than that is converted by itself. */
  lemma RescaleDeltaFar(inTb: TimeBase, inTs: int, fsTb: TimeBase, duration: nat, last: int, outTb: TimeBase)
    requires !Near(Seconds(last, fsTb), Seconds(inTs, inTb), 1.5 * Unit(inTb) + 3.0 * Unit(fsTb))
    ensures RescaleDelta(inTb, inTs, fsTb, duration, last, outTb) == SimpleRound(inTb, inTs, fsTb, duration, outTb)
  {
    var lo, hi := RescaleQRnd(2 * inTs - 1, inTb, fsTb, Down), RescaleQRnd(2 * inTs + 1, inTb, fsTb, Up);
    var a, b := lo / 2, (hi + 1) / 2;
    BetweenHalves(inTs, inTb, fsTb, lo, hi, a);
    BetweenHalves(inTs, inTb, fsTb, lo, hi, b);
    hide RescaleQ, RescaleQRnd, Seconds;
    SecondsAdd(a, a, fsTb);
    SecondsAdd(b, b, fsTb);
    SecondsAdd(2 * a - b, b, fsTb);
    SecondsAdd(2 * b - a, a, fsTb);
    SecondsMonotone(last, 2 * a - b, fsTb);
    SecondsMonotone(2 * b - a, last, fsTb);
  }

  /** The range reaches half a unit to either side, and no further than one of the other. */
  lemma RangeEdges(ts: int, inTb: TimeBase, fsTb: TimeBase, a: int, b: int)
    requires a == RescaleQRnd(2 * ts - 1, inTb, fsTb, Down) / 2
    requires b == (RescaleQRnd(2 * ts + 1, inTb, fsTb, Up) + 1) / 2
    ensures Seconds(ts, inTb) - 0.5 * Unit(inTb) - Unit(fsTb) <= Seconds(a, fsTb) <= Seconds(ts, inTb) - 0.5 * Unit(inTb)
    ensures Seconds(ts, inTb) + 0.5 * Unit(inTb) <= Seconds(b, fsTb) <= Seconds(ts, inTb) + 0.5 * Unit(inTb) + Unit(fsTb)
  {
    var lo, hi := RescaleQRnd(2 * ts - 1, inTb, fsTb, Down), RescaleQRnd(2 * ts + 1, inTb, fsTb, Up);
    BetweenHalves(ts, inTb, fsTb, lo, hi, a);
    BetweenHalves(ts, inTb, fsTb, lo, hi, b);
    RescaleDownSeconds(2 * ts - 1, inTb, fsTb);
    RescaleUpSeconds(2 * ts + 1, inTb, fsTb);
    hide RescaleQRnd, Seconds;
    SecondsAdd(ts, ts, inTb);
    SecondsAdd(2 * ts - 1, 1, inTb);
    SecondsAdd(2 * ts, 1, inTb);
    SecondsAdd(a, a, fsTb);
    SecondsAdd(b, b, fsTb);
    SecondsMonotone(lo, 2 * a, fsTb);
    SecondsMonotone(2 * b, hi, fsTb);
  }

  /** One that is in between starts at the edge of what the timestamp may stand for. */
  lemma RescaleDeltaClamped(inTb: TimeBase, inTs: int, fsTb: TimeBase, duration: nat, last: int, outTb: TimeBase)
      returns (start: int)
    requires duration > 0 && last != NOPTS && inTb.num * outTb.den > outTb.num * inTb.den
    requires Near(Seconds(last, fsTb), Seconds(inTs, inTb), 1.5 * Unit(inTb))
    requires !Near(Seconds(last, fsTb), Seconds(inTs, inTb), 0.5 * Unit(inTb) + Unit(fsTb))
    ensures RescaleDelta(inTb, inTs, fsTb, duration, last, outTb) == (RescaleQ(start, fsTb, outTb), start + duration)
    ensures Near(Seconds(start, fsTb), Seconds(inTs, inTb) +
        if Seconds(last, fsTb) < Seconds(inTs, inTb) then -0.5 * Unit(inTb) else 0.5 * Unit(inTb), Unit(fsTb))
  {
    var lo, hi := RescaleQRnd(2 * inTs - 1, inTb, fsTb, Down), RescaleQRnd(2 * inTs + 1, inTb, fsTb, Up);
    var a, b := lo / 2, (hi + 1) / 2;
    RangeEdges(inTs, inTb, fsTb, a, b);
    start := if last < a then a else if last > b then b else last;
    hide RescaleQ, RescaleQRnd, Seconds;
    UnitPositive(inTb);
    UnitPositive(fsTb);
    SecondsAdd(a, a, fsTb);
    SecondsAdd(b, b, fsTb);
    SecondsAdd(2 * a - b, b, fsTb);
    SecondsAdd(2 * b - a, a, fsTb);
    SecondsMonotone(last, 2 * a - b, fsTb);
    SecondsMonotone(2 * b - a, last, fsTb);
    SecondsMonotone(last, a, fsTb);
    SecondsMonotone(b, last, fsTb);
  }
}
