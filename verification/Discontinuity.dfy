/** Timestamp discontinuities of an input: the predicted dts of each stream, and the
    offset that is applied to all streams once a jump has been detected.

    The predictions and the offset are in microseconds, the timestamps of a packet in
    its own time base; every conversion between the two rounds. */
module Discontinuity {
  import opened Packets
  import opened Results
  import opened Timestamps

  /** What the prediction of the next dts depends on. `firstGuess` is the dts assumed for
      the first packet, less its pts; `forcedFrame` is the frame duration of a forced
      frame rate, and `codecFrame` that of the codec's frame rate. */
  datatype Params = Params(
    mediaType: MediaType,
    sampleRate: int,
    frameSize: int,
    forcedFrame: Option<TimeBase>,
    codecFrame: Option<TimeBase>,
    ptsWrapBits: nat,
    firstGuess: int)

  /** All times are in microseconds. */
  datatype StreamState = StreamState(dts: int, nextDts: int, sawFirstTs: bool, firstDts: int)

  // --- the prediction never goes back --------------------------------------------------

  lemma TwoRoundings(dts: int, n: int, r: int, b: int, c: int)
    requires b > 0 && c > 0
    requires 2 * (n * c) >= 2 * (dts * b) - c
    requires 2 * (r * b) >= 2 * ((n + 1) * c) - b
    ensures r >= dts
  {
    assert (n + 1) * c == n * c + c;
    assert (2 * r) * b == 2 * (r * b);
    assert (2 * dts - 1) * b == 2 * (dts * b) - b;
    MulCancel(2 * dts - 1, 2 * r, b);
  }

  /** A forced frame rate moves the prediction to the next frame, never back. */
  lemma NextFrameNotEarlier(dts: int, frame: TimeBase)
    ensures RescaleQ(RescaleQ(dts, TIME_BASE_Q, frame) + 1, frame, TIME_BASE_Q) >= dts
  {
    ScalePositive(TIME_BASE_Q, frame);
    ScalePositive(frame, TIME_BASE_Q);
    var b, c := TIME_BASE_Q.num * frame.den, frame.num * TIME_BASE_Q.den;
    assert frame.den == b;
    var n := RescaleQ(dts, TIME_BASE_Q, frame);
    RescaleNearError(dts, b, c);
    var r := RescaleQ(n + 1, frame, TIME_BASE_Q);
    assert r == RescaleRnd(n + 1, c, b, NearInf);
    RescaleNearError(n + 1, c, b);
    // 2 r b >= 2 (n + 1) c - b and 2 n c >= 2 dts b - c
    TwoRoundings(dts, n, r, b, c);
  }

  lemma RescaleNotNegative(a: int, bq: TimeBase, cq: TimeBase)
    requires a >= 0
    ensures RescaleQ(a, bq, cq) >= 0
  {
    ScalePositive(bq, cq);
    ScalePositive(cq, bq);
    MulMonotone(0, a, bq.num * cq.den);
    var c := cq.num * bq.den;
    var n := a * (bq.num * cq.den) + c / 2;
    assert n == (n / c) * c + n % c;
    if n / c < 0 {
      MulMonotone(n / c, -1, c);
    }
  }

  // --- where a corrected packet lands ----------------------------------------------------

  ghost function Slack(tb: TimeBase): int {
    2 * tb.den + tb.num * AV_TIME_BASE
  }

  /** The dts `l` of a corrected packet is `target`, up to a microsecond and half a unit of
      the packet's time base. */
  ghost predicate Lands(l: int, target: int, tb: TimeBase) {
    && -Slack(tb) <= 2 * (l - target) * tb.den <= Slack(tb)
    && (tb == TIME_BASE_Q ==> l == target)
  }

  /** The rounding errors of a conversion to microseconds. */
  lemma ToMicroseconds(a: int, tb: TimeBase)
    ensures var l := RescaleQ(a, tb, TIME_BASE_Q);
      2 * (a * (tb.num * AV_TIME_BASE)) - tb.den <= 2 * (l * tb.den) <= 2 * (a * (tb.num * AV_TIME_BASE)) + tb.den
  {
    ScalePositive(tb, TIME_BASE_Q);
    RescaleNearError(a, tb.num * AV_TIME_BASE, tb.den);
  }

  /** The rounding errors of a conversion from microseconds. */
  lemma FromMicroseconds(a: int, tb: TimeBase)
    ensures var d := RescaleQ(a, TIME_BASE_Q, tb);
      && 2 * (a * tb.den) - tb.num * AV_TIME_BASE <= 2 * (d * (tb.num * AV_TIME_BASE))
      && 2 * (d * (tb.num * AV_TIME_BASE)) <= 2 * (a * tb.den) + tb.num * AV_TIME_BASE
  {
    ScalePositive(tb, TIME_BASE_Q);
    RescaleNearError(a, tb.den, tb.num * AV_TIME_BASE);
  }

  /** p is dts * c / b, d is (p - target) * b / c and l is (dts - d) * c / b, all rounded. */
  lemma ThreeRoundings(dts: int, target: int, p: int, d: int, l: int, b: int, c: int)
    requires 2 * (dts * c) - b <= 2 * (p * b) <= 2 * (dts * c) + b
    requires 2 * ((p - target) * b) - c <= 2 * (d * c) <= 2 * ((p - target) * b) + c
    requires 2 * ((dts - d) * c) - b <= 2 * (l * b) <= 2 * ((dts - d) * c) + b
    ensures -(2 * b + c) <= 2 * (l - target) * b <= 2 * b + c
  {
    var pb, tb, lb, xc, dc := p * b, target * b, l * b, dts * c, d * c;
    assert (p - target) * b == pb - tb;
    assert (dts - d) * c == xc - dc;
    assert 2 * (l - target) * b == 2 * lb - 2 * tb;
  }

  /** A dts that is moved to `target`. */
  function Corrected(dts: int, target: int, tb: TimeBase): int {
    dts - RescaleQ(RescaleQ(dts, tb, TIME_BASE_Q) - target, TIME_BASE_Q, tb)
  }

  /** Three conversions lie between the measured dts and the corrected one. */
  lemma CorrectionLands(dts: int, target: int, tb: TimeBase)
    ensures Lands(RescaleQ(Corrected(dts, target, tb), tb, TIME_BASE_Q), target, tb)
  {
    hide RescaleQ;
    var p := RescaleQ(dts, tb, TIME_BASE_Q);
    var d := RescaleQ(p - target, TIME_BASE_Q, tb);
    var l := RescaleQ(dts - d, tb, TIME_BASE_Q);
    ToMicroseconds(dts, tb);
    FromMicroseconds(p - target, tb);
    ToMicroseconds(dts - d, tb);
    ThreeRoundings(dts, target, p, d, l, tb.den, tb.num * AV_TIME_BASE);
    if tb == TIME_BASE_Q {
      RescaleSame(dts, tb);
      RescaleSame(p - target, tb);
      RescaleSame(dts - d, tb);
    }
  }

  /** How far the timestamps of a packet move when the offset was `before` and is `after`
      now: both the old offset and the change of it have been converted. */
  function Moved(before: int, after: int, tb: TimeBase): int {
    RescaleQ(before, TIME_BASE_Q, tb) - RescaleQ(before - after, TIME_BASE_Q, tb)
  }

  /** x, y and z are u * b / c, (u - v) * b / c and v * b / c, rounded. */
  lemma DifferenceOfRoundings(u: int, v: int, x: int, y: int, z: int, b: int, c: int)
    requires c > 0
    requires 2 * (u * b) - c <= 2 * (x * c) <= 2 * (u * b) + c
    requires 2 * ((u - v) * b) - c <= 2 * (y * c) <= 2 * ((u - v) * b) + c
    requires 2 * (v * b) - c <= 2 * (z * c) <= 2 * (v * b) + c
    ensures -1 <= x - y - z <= 1
  {
    var ub, vb, xc, yc, zc := u * b, v * b, x * c, y * c, z * c;
    assert (u - v) * b == ub - vb;
    var e := x - y - z;
    assert (2 * e) * c == 2 * xc - 2 * yc - 2 * zc;
    if e >= 2 {
      MulMonotone(4, 2 * e, c);
    } else if e <= -2 {
      MulMonotone(2 * e, -4, c);
    }
  }

  /** That is the new offset, exactly if it is the old one, and else within one unit. */
  lemma MovedByOffset(before: int, after: int, tb: TimeBase)
    ensures -1 <= Moved(before, after, tb) - RescaleQ(after, TIME_BASE_Q, tb) <= 1
    ensures before == after || tb == TIME_BASE_Q ==> Moved(before, after, tb) == RescaleQ(after, TIME_BASE_Q, tb)
  {
    hide RescaleQ;
    FromMicroseconds(before, tb);
    FromMicroseconds(before - after, tb);
    FromMicroseconds(after, tb);
    DifferenceOfRoundings(before, after, RescaleQ(before, TIME_BASE_Q, tb), RescaleQ(before - after, TIME_BASE_Q, tb),
      RescaleQ(after, TIME_BASE_Q, tb), tb.den, tb.num * AV_TIME_BASE);
    if before == after {
      RescaleZero(TIME_BASE_Q, tb);
    }
    if tb == TIME_BASE_Q {
      RescaleSame(before, tb);
      RescaleSame(before - after, tb);
      RescaleSame(after, tb);
    }
  }

  /** What happens to a packet of a format with discontinuities: both timestamps move with
      the offset, which was `offset0` before the packet and is `offset` after it. */
  ghost predicate OffsetApplied(before: Packet, after: Packet, offset0: int, offset: int) {
    var shift := Moved(offset0, offset, before.tb);
    && after == before.(
         dts := if before.dts == NOPTS then NOPTS else before.dts + shift,
         pts := if before.pts == NOPTS then NOPTS else before.pts + shift)
    && -1 <= shift - RescaleQ(offset, TIME_BASE_Q, before.tb) <= 1
    && (offset == offset0 || before.tb == TIME_BASE_Q ==> shift == RescaleQ(offset, TIME_BASE_Q, before.tb))
  }

  // --- the prediction --------------------------------------------------------------------

  lemma QuotientBracket(n: int, c: int)
    requires c > 0
    ensures (n / c) * c <= n < (n / c + 1) * c
  {
    assert n == (n / c) * c + n % c;
    assert (n / c + 1) * c == (n / c) * c + c;
  }

  lemma QuotientNotNegative(n: int, c: int)
    requires n >= 0 && c > 0
    ensures n / c >= 0
  {
    assert n == (n / c) * c + n % c;
    if n / c < 0 {
      MulMonotone(n / c, -1, c);
    }
  }

  /** Half the duration of a frame, that of a field. */
  function Half(frame: TimeBase): TimeBase { Rational(frame.num, 2 * frame.den) }

  lemma TwoFieldsPerFrame(n: int, frame: TimeBase)
    ensures Seconds(2 * n, Half(frame)) == Seconds(n, frame)
  {
    var x, d := n as real * frame.num as real, frame.den as real;
    assert (2 * n) as real * frame.num as real == x * 2.0;
    DivCancel(x, d, 2.0);
  }

  /** Where the prediction for the packet after `pkt` has to be, if that has dts `dts`: ahead
      by what its media type, or else its duration, says. */
  ghost predicate AdvanceOk(par: Params, dts: int, pkt: Packet, fields: nat, next: int)
    requires par.frameSize >= 0 && par.sampleRate >= 0
  {
    match par.mediaType
    case Audio =>
      if par.sampleRate != 0 then
        (next - dts) * par.sampleRate <= AV_TIME_BASE * par.frameSize < (next - dts + 1) * par.sampleRate
      else next == dts + RescaleQ(pkt.duration, pkt.tb, TIME_BASE_Q)
    case Video =>
      if par.forcedFrame.Some? then
        next == RescaleQ(RescaleQ(dts, TIME_BASE_Q, par.forcedFrame.value) + 1, par.forcedFrame.value, TIME_BASE_Q)
      else if pkt.duration != 0 then next == dts + RescaleQ(pkt.duration, pkt.tb, TIME_BASE_Q)
      else if par.codecFrame.Some? then next == dts + RescaleQ(fields, Half(par.codecFrame.value), TIME_BASE_Q)
      else next == dts
    case Subtitle => next == dts
    case Other => next == dts
  }

  /** The prediction for the packet after `pkt`, which has dts `dts`. */
  method Advance(par: Params, dts: int, pkt: Packet, fields: nat) returns (next: int)
    requires pkt.duration >= 0 && par.frameSize >= 0 && par.sampleRate >= 0
    ensures next >= dts
    ensures AdvanceOk(par, dts, pkt, fields, next)
  {
    next := dts;
    RescaleNotNegative(pkt.duration, pkt.tb, TIME_BASE_Q);
    match par.mediaType
    case Audio =>
      if par.sampleRate != 0 {
        var us := AV_TIME_BASE * par.frameSize;
        QuotientNotNegative(us, par.sampleRate);
        QuotientBracket(us, par.sampleRate);
        next := next + us / par.sampleRate;
      } else {
        next := next + RescaleQ(pkt.duration, pkt.tb, TIME_BASE_Q);
      }
    case Video =>
      if par.forcedFrame.Some? {
        NextFrameNotEarlier(next, par.forcedFrame.value);
        var n := RescaleQ(next, TIME_BASE_Q, par.forcedFrame.value);
        next := RescaleQ(n + 1, par.forcedFrame.value, TIME_BASE_Q);
      } else if pkt.duration != 0 {
        next := next + RescaleQ(pkt.duration, pkt.tb, TIME_BASE_Q);
      } else if par.codecFrame.Some? {
        RescaleNotNegative(fields, Half(par.codecFrame.value), TIME_BASE_Q);
        next := next + RescaleQ(fields, Half(par.codecFrame.value), TIME_BASE_Q);
      }
    case Subtitle =>
    case Other =>
  }

  // --- the demuxer ---------------------------------------------------------------------

  /** From its first packet on a stream has a prediction, no earlier than its dts. */
  ghost predicate StreamOk(s: StreamState) {
    if s.sawFirstTs then NOPTS < s.dts <= s.nextDts else s.nextDts == NOPTS
  }

  /** A difference of more than `seconds`. */
  predicate Jump(delta: int, seconds: real) {
    Abs(delta) as real > seconds * AV_TIME_BASE as real
  }

  /** AV_ROUND_PASS_MINMAX: the extreme values stand for themselves. */
  function Measured(ts: int, tb: TimeBase): int {
    if ts == NOPTS || ts == INT64_MAX then ts else RescaleQ(ts, tb, TIME_BASE_Q)
  }

  /** No timestamp stands for itself in a conversion. */
  predicate Proper(ts: int, tb: TimeBase) { NOPTS < ts && (ts != INT64_MAX || tb == TIME_BASE_Q) }

  /** All others are converted. */
  lemma MeasuredNear(ts: int, tb: TimeBase)
    ensures Proper(ts, tb) ==>
      Near(Seconds(Measured(ts, tb), TIME_BASE_Q), Seconds(ts, tb), 0.5 * Unit(TIME_BASE_Q))
    ensures ts == NOPTS || ts == INT64_MAX ==> Measured(ts, tb) == ts
  {
    RescaleNearSeconds(ts, tb, TIME_BASE_Q);
    UnitPositive(TIME_BASE_Q);
    hide Seconds;
  }

  /** The dts, in microseconds, is acceptable: close to the prediction of its stream and
      not more than 0.1 s behind the previous dts; or, for the first packet of a stream,
      close to the last packet of any stream. */
  ghost predicate NearPrediction(ds: StreamState, last: int, threshold: real, dts: int) {
    if ds.nextDts != NOPTS then
      !Jump(dts - ds.nextDts, threshold) && dts + AV_TIME_BASE / 10 >= ds.dts
    else
      last == NOPTS || !Jump(dts - last, threshold)
  }

  /** What a packet is corrected to. */
  ghost function Target(ds: StreamState, last: int): int {
    if ds.nextDts != NOPTS then ds.nextDts else last
  }

  /** The dts with which a packet leaves is acceptable, or the predicted one up to rounding. */
  ghost predicate Follows(ds: StreamState, last: int, threshold: real, dts: int, tb: TimeBase) {
    NearPrediction(ds, last, threshold, dts) || Lands(dts, Target(ds, last), tb)
  }

  lemma MulCancelLe(x: int, y: int, c: int)
    requires c > 0 && x * c <= y * c
    ensures x <= y
  {
    if y < x {
      MulMonotone(y + 1, x, c);
    }
  }

  lemma NoJump(e: int, threshold: real, den: int)
    requires den > 0
    requires -(2.0 * threshold * AV_TIME_BASE as real * den as real) <= (2 * e * den) as real
    requires (2 * e * den) as real <= 2.0 * threshold * AV_TIME_BASE as real * den as real
    ensures !Jump(e, threshold)
  {
    var d, x := den as real, threshold * AV_TIME_BASE as real;
    assert (2 * e * den) as real == 2.0 * e as real * d;
    if e as real > x {
      assert e as real * d > x * d;
    }
    if -e as real > x {
      assert (-e) as real * d > x * d;
    }
  }

  /** In a time base whose unit is well below 0.2 s and the threshold, the rounding does not
      matter: every packet that follows the prediction is acceptable. */
  lemma FineTimeBase(ds: StreamState, last: int, threshold: real, dts: int, tb: TimeBase)
    requires StreamOk(ds) && Follows(ds, last, threshold, dts, tb)
    requires Slack(tb) <= 2 * (AV_TIME_BASE / 10) * tb.den
    requires Slack(tb) as real <= 2.0 * threshold * AV_TIME_BASE as real * tb.den as real
    ensures NearPrediction(ds, last, threshold, dts)
  {
    if Lands(dts, Target(ds, last), tb) {
      var e := dts - Target(ds, last);
      MulCancelLe(2 * e, 2 * (AV_TIME_BASE / 10), tb.den);
      MulCancelLe(-2 * (AV_TIME_BASE / 10), 2 * e, tb.den);
      NoJump(e, threshold, tb.den);
    }
  }

  /** In a coarse one it does.  If t is less than half a unit, but more than 0.1 s or the
      threshold, then a packet at zero is too early for a prediction of t, and still is when it
      has been corrected.  So the bounds of FineTimeBase, which allow a unit of 0.2 s and of twice
      the threshold, are tight up to 4 microseconds. */
  lemma CoarseTimeBase(tb: TimeBase, t: int, threshold: real)
    requires 0 < t && 2 * t * tb.den < tb.num * AV_TIME_BASE
    requires t > AV_TIME_BASE / 10 || t as real > threshold * AV_TIME_BASE as real
    ensures var ds := StreamState(t, t, true, 0);
      && StreamOk(ds) && !NearPrediction(ds, 0, threshold, RescaleQ(0, tb, TIME_BASE_Q))
      && !NearPrediction(ds, 0, threshold, RescaleQ(Corrected(0, t, tb), tb, TIME_BASE_Q))
  {
    RescaleZero(tb, TIME_BASE_Q);
    FromMicroseconds(-t, tb);
    var c := tb.num * AV_TIME_BASE;
    var d := RescaleQ(-t, TIME_BASE_Q, tb);
    assert -t * tb.den == -(t * tb.den);
    assert d == 0 by {
      if d > 0 {
        MulMonotone(1, d, c);
      } else if d < 0 {
        MulMonotone(d, -1, c);
      }
    }
  }

  /** In units of a quarter of a second, 10 s being tolerated: a packet at 25 s is moved to a
      prediction of 0.37 s and ends up at 0.25 s, more than 0.1 s behind the previous dts. */
  lemma QuarterSecondUnits()
    ensures var tb: TimeBase := Rational(1, 4);
      var ds := StreamState(360_000, 370_000, true, 0);
      && StreamOk(ds) && RescaleQ(100, tb, TIME_BASE_Q) == 25_000_000
      && RescaleQ(Corrected(100, 370_000, tb), tb, TIME_BASE_Q) == 250_000
      && !NearPrediction(ds, 0, 10.0, 250_000)
  {
  }

  /** In the units of MPEG a packet can end up beside its prediction, by less than a unit. */
  lemma BesidePrediction()
    ensures var tb: TimeBase := Rational(1, 90_000);
      RescaleQ(Corrected(9_000_000, 1, tb), tb, TIME_BASE_Q) == 0
  {
  }

  class Demuxer {
    const copyTs: bool
    const fmtIsDiscont: bool
    const dtsDeltaThreshold: real
    const dtsErrorThreshold: real
    const params: seq<Params>

    var tsOffsetDiscont: int
    var lastTs: int
    var streams: seq<StreamState>

    ghost predicate Valid()
      reads this
    {
      && |streams| == |params| && dtsDeltaThreshold >= 0.0
      && forall i :: 0 <= i < |streams| ==>
           StreamOk(streams[i]) && params[i].frameSize >= 0 && params[i].sampleRate >= 0
    }

    constructor (copyTs: bool, fmtIsDiscont: bool, dtsDeltaThreshold: real, dtsErrorThreshold: real, params: seq<Params>)
      requires dtsDeltaThreshold >= 0.0
      requires forall i :: 0 <= i < |params| ==> params[i].frameSize >= 0 && params[i].sampleRate >= 0
      ensures Valid() && tsOffsetDiscont == 0 && lastTs == 0 && this.params == params
      ensures this.copyTs == copyTs && this.fmtIsDiscont == fmtIsDiscont
      ensures this.dtsDeltaThreshold == dtsDeltaThreshold && this.dtsErrorThreshold == dtsErrorThreshold
      ensures forall i :: 0 <= i < |streams| ==> streams[i] == StreamState(0, NOPTS, false, NOPTS)
    {
      this.copyTs, this.fmtIsDiscont := copyTs, fmtIsDiscont;
      this.dtsDeltaThreshold, this.dtsErrorThreshold := dtsDeltaThreshold, dtsErrorThreshold;
      this.params := params;
      tsOffsetDiscont, lastTs := 0, 0;
      streams := seq(|params|, _ => StreamState(0, NOPTS, false, NOPTS));
    }

    /** A wrapped-around dts would be ten times closer to the prediction. */
    predicate WrapExplains(i: nat, dts: int, tb: TimeBase)
      requires i < |streams| == |params|
      reads this`streams
    {
      && streams[i].nextDts != NOPTS && params[i].ptsWrapBits < 60
      && Abs(Measured(dts + Pow2(params[i].ptsWrapBits), tb) - streams[i].nextDts) <
           Abs(Measured(dts, tb) - streams[i].nextDts) / 10
    }

    /** Discontinuities are corrected in the formats that have them; with -copyts only
        those which a wrap-around explains. */
    predicate Corrects(i: nat, dts: int, tb: TimeBase)
      requires i < |streams| == |params|
      reads this`streams
    {
      fmtIsDiscont && (copyTs ==> WrapExplains(i, dts, tb))
    }

    /** What is subtracted from the offset because of a packet with this dts. */
    ghost function Correction(i: nat, dts: int, tb: TimeBase): int
      requires i < |streams| == |params|
      reads this`streams, this`lastTs
    {
      var p := Measured(dts, tb);
      if Corrects(i, dts, tb) && !NearPrediction(streams[i], lastTs, dtsDeltaThreshold, p) then
        p - Target(streams[i], lastTs)
      else 0
    }

    /** The timestamp is too far from the prediction to be believed. */
    ghost predicate FarOff(i: nat, ts: int)
      requires i < |streams|
      reads this`streams
    {
      streams[i].nextDts != NOPTS && Jump(ts - streams[i].nextDts, dtsErrorThreshold)
    }

    /** In terms of instants: it is further from the prediction than the threshold, up to half a
        microsecond of rounding. */
    lemma FarOffInSeconds(i: nat, ts: int, tb: TimeBase)
      requires i < |streams| && streams[i].nextDts != NOPTS
      ensures var off := Seconds(ts, tb) - Seconds(streams[i].nextDts, TIME_BASE_Q);
        var far := FarOff(i, RescaleQ(ts, tb, TIME_BASE_Q));
        && (far ==> off > dtsErrorThreshold - 0.0000005 || -off > dtsErrorThreshold - 0.0000005)
        && (!far ==> -dtsErrorThreshold - 0.0000005 <= off <= dtsErrorThreshold + 0.0000005)
    {
      RescaleNearSeconds(ts, tb, TIME_BASE_Q);
      var p, next := RescaleQ(ts, tb, TIME_BASE_Q), streams[i].nextDts;
      hide RescaleQ;
      assert Unit(TIME_BASE_Q) == 0.000001;
      assert Seconds(p, TIME_BASE_Q) == p as real / 1000000.0 && Seconds(next, TIME_BASE_Q) == next as real / 1000000.0;
      hide Seconds;
    }

    /** A wrap-around explains a dts exactly if this lags behind the prediction by one period of
        the counter, up to a tenth of the lag. */
    lemma WrapExplainsOnePeriod(i: nat, dts: int, tb: TimeBase)
      requires i < |streams| == |params| && streams[i].nextDts != NOPTS && params[i].ptsWrapBits < 60
      requires NOPTS < dts && dts + Pow2(params[i].ptsWrapBits) < INT64_MAX
      ensures var period := Measured(dts + Pow2(params[i].ptsWrapBits), tb) - Measured(dts, tb);
        var lag := streams[i].nextDts - Measured(dts, tb);
        WrapExplains(i, dts, tb) <==> lag > 0 && 10 * (Abs(period - lag) + 1) <= lag
    {
      Pow2Positive(params[i].ptsWrapBits);
      RescaleMonotone(dts, dts + Pow2(params[i].ptsWrapBits), tb, TIME_BASE_Q);
      hide RescaleQ, Pow2;
    }

    /** The search for a jump in a format with discontinuities: how far the dts is off. */
    method DetectJump(i: nat, dts: int, tb: TimeBase) returns (delta: int)
      requires Valid() && i < |streams| && fmtIsDiscont
      ensures delta == Correction(i, dts, tb)
    {
      hide RescaleQ, Pow2;
      var ds := streams[i];
      var disableCorrection := copyTs;
      var pktDts := Measured(dts, tb);
      delta := 0;
      if copyTs && ds.nextDts != NOPTS && params[i].ptsWrapBits < 60 {
        var wrapDts := Measured(dts + Pow2(params[i].ptsWrapBits), tb);
        if Abs(wrapDts - ds.nextDts) < Abs(pktDts - ds.nextDts) / 10 {
          disableCorrection := false;
        }
      }
      if ds.nextDts != NOPTS && !disableCorrection {
        if Jump(pktDts - ds.nextDts, dtsDeltaThreshold) || pktDts + AV_TIME_BASE / 10 < ds.dts {
          delta := pktDts - ds.nextDts;
        }
      } else if ds.nextDts == NOPTS && !copyTs && lastTs != NOPTS {
        if Jump(pktDts - lastTs, dtsDeltaThreshold) {
          delta := pktDts - lastTs;
        }
      }
    }

    /** The treatment of timestamps in other formats. */
    method Discard(i: nat, pkt: Packet) returns (dts: int, pts: int)
      requires i < |streams| && pkt.dts > NOPTS && pkt.pts >= NOPTS
      ensures dts == if !copyTs && FarOff(i, Measured(pkt.dts, pkt.tb)) then NOPTS else pkt.dts
      ensures pts ==
        if !copyTs && pkt.pts != NOPTS && FarOff(i, RescaleQ(pkt.pts, pkt.tb, TIME_BASE_Q)) then NOPTS else pkt.pts
    {
      hide RescaleQ;
      dts, pts := pkt.dts, pkt.pts;
      var ds := streams[i];
      if ds.nextDts != NOPTS && !copyTs {
        if Jump(Measured(dts, pkt.tb) - ds.nextDts, dtsErrorThreshold) {
          dts := NOPTS;
        }
        if pts != NOPTS {
          var pktPts := RescaleQ(pts, pkt.tb, TIME_BASE_Q);
          if Jump(pktPts - ds.nextDts, dtsErrorThreshold) {
            pts := NOPTS;
          }
        }
      }
    }

    lemma LandsWhereCorrected(i: nat, dts: int, tb: TimeBase)
      requires Valid() && i < |streams| && dts > NOPTS
      ensures Corrects(i, dts, tb) && Proper(dts, tb) ==>
        Follows(streams[i], lastTs, dtsDeltaThreshold,
          RescaleQ(dts - RescaleQ(Correction(i, dts, tb), TIME_BASE_Q, tb), tb, TIME_BASE_Q), tb)
    {
      hide RescaleQ, Lands, WrapExplains;
      RescaleZero(TIME_BASE_Q, tb);
      if tb == TIME_BASE_Q {
        RescaleSame(dts, tb);
      }
      CorrectionLands(dts, Target(streams[i], lastTs), tb);
    }

    method Subtract(dts: int, pts: int, delta: int, tb: TimeBase) returns (dts': int, pts': int)
      ensures dts' == dts - RescaleQ(delta, TIME_BASE_Q, tb)
      ensures pts' == if pts == NOPTS then NOPTS else pts - RescaleQ(delta, TIME_BASE_Q, tb)
    {
      dts' := dts - RescaleQ(delta, TIME_BASE_Q, tb);
      pts' := if pts != NOPTS then pts - RescaleQ(delta, TIME_BASE_Q, tb) else pts;
    }

    /** ts_discontinuity_detect, on a packet of stream i with a dts. */
    method Detect(i: nat, pkt: Packet) returns (r: Packet)
      requires Valid() && i < |streams| && pkt.dts > NOPTS && pkt.pts >= NOPTS
      modifies this`tsOffsetDiscont, this`lastTs
      ensures tsOffsetDiscont == old(tsOffsetDiscont) - old(Correction(i, pkt.dts, pkt.tb))
      ensures r.dts != NOPTS ==> lastTs == RescaleQ(r.dts, r.tb, TIME_BASE_Q)
      // formats with discontinuities: both timestamps move with the offset
      ensures fmtIsDiscont ==>
        var shift := -RescaleQ(old(Correction(i, pkt.dts, pkt.tb)), TIME_BASE_Q, pkt.tb);
        r == pkt.(dts := pkt.dts + shift, pts := if pkt.pts == NOPTS then NOPTS else pkt.pts + shift)
      // and the dts follows the prediction
      ensures Corrects(i, pkt.dts, pkt.tb) && Proper(pkt.dts, pkt.tb) ==>
        Follows(streams[i], old(lastTs), dtsDeltaThreshold, lastTs, pkt.tb)
      // other formats lose the timestamps that are far from it, but not with -copyts
      ensures !fmtIsDiscont ==> r == pkt.(
        dts := if !copyTs && FarOff(i, Measured(pkt.dts, pkt.tb)) then NOPTS else pkt.dts,
        pts := if !copyTs && pkt.pts != NOPTS &&
          FarOff(i, RescaleQ(pkt.pts, pkt.tb, TIME_BASE_Q)) then NOPTS else pkt.pts)
    {
      var dts, pts := pkt.dts, pkt.pts;
      if fmtIsDiscont {
        var delta := DetectJump(i, dts, pkt.tb);
        LandsWhereCorrected(i, dts, pkt.tb);
        hide RescaleQ, Correction, Corrects, Follows;
        if delta != 0 {
          tsOffsetDiscont := tsOffsetDiscont - delta;
          dts, pts := Subtract(dts, pts, delta, pkt.tb);
        } else {
          RescaleZero(TIME_BASE_Q, pkt.tb);
        }
      } else {
        dts, pts := Discard(i, pkt);
      }
      lastTs := RescaleQ(dts, pkt.tb, TIME_BASE_Q);
      r := pkt.(dts := dts, pts := pts);
    }

    /** The packet's timestamps lie after NOPTS, and still do with the known offset. */
    ghost predicate InRange(pkt: Packet)
      reads this`tsOffsetDiscont
    {
      var offset := RescaleQ(tsOffsetDiscont, TIME_BASE_Q, pkt.tb);
      && (pkt.dts == NOPTS || (pkt.dts > NOPTS && pkt.dts + offset > NOPTS))
      && (pkt.pts == NOPTS || (pkt.pts > NOPTS && pkt.pts + offset > NOPTS))
    }

    /** The dts with the offset known so far. */
    ghost function Shifted(ts: int, tb: TimeBase): int
      reads this`tsOffsetDiscont
    {
      ts + RescaleQ(tsOffsetDiscont, TIME_BASE_Q, tb)
    }

    /** The packet is one that is looked at for a discontinuity. */
    predicate Examined(i: nat, pkt: Packet)
      requires i < |params|
    {
      params[i].mediaType in {Audio, Video} && pkt.dts != NOPTS
    }

    /** The program starts with a last timestamp of zero, not with none.  So the first packet that
        is examined is moved, to zero, if and only if it is further from there than the
        threshold. */
    lemma FirstPacketMoved(i: nat, dts: int, tb: TimeBase)
      requires Valid() && i < |streams| && fmtIsDiscont && !copyTs
      requires lastTs == 0 && streams[i].nextDts == NOPTS
      ensures Correction(i, dts, tb) != 0 <==> Jump(Measured(dts, tb), dtsDeltaThreshold)
      ensures Correction(i, dts, tb) != 0 && Proper(dts, tb) ==>
        Lands(RescaleQ(dts - RescaleQ(Correction(i, dts, tb), TIME_BASE_Q, tb), tb, TIME_BASE_Q), 0, tb)
    {
      if tb == TIME_BASE_Q {
        RescaleSame(dts, tb);
      }
      hide RescaleQ, Lands;
      CorrectionLands(dts, 0, tb);
    }

    /** ts_discontinuity_process: apply the known offset to a packet of any stream, and
        look for new jumps in audio and video. */
    method Process(i: nat, pkt: Packet) returns (r: Packet)
      requires Valid() && i < |streams| && InRange(pkt)
      modifies this`tsOffsetDiscont, this`lastTs
      ensures tsOffsetDiscont == old(tsOffsetDiscont) -
        if Examined(i, pkt) then old(Correction(i, Shifted(pkt.dts, pkt.tb), pkt.tb)) else 0
      ensures lastTs == if Examined(i, pkt) && r.dts != NOPTS then RescaleQ(r.dts, r.tb, TIME_BASE_Q)
        else if Examined(i, pkt) then lastTs else old(lastTs)
      ensures fmtIsDiscont || !Examined(i, pkt) ==> OffsetApplied(pkt, r, old(tsOffsetDiscont), tsOffsetDiscont)
      ensures Examined(i, pkt) ==>
        var dts := old(Shifted(pkt.dts, pkt.tb));
        // the dts leaves where the prediction wants it
        && (Corrects(i, dts, pkt.tb) && Proper(dts, pkt.tb) ==>
             Follows(streams[i], old(lastTs), dtsDeltaThreshold, lastTs, pkt.tb))
        // or else keeps its place, unless it is not to be believed
        && (!fmtIsDiscont ==> r.dts == if !copyTs && FarOff(i, Measured(dts, pkt.tb)) then NOPTS else dts)
      ensures !fmtIsDiscont && pkt.pts != NOPTS ==>
        var pts := old(Shifted(pkt.pts, pkt.tb));
        r.pts == if Examined(i, pkt) && !copyTs && FarOff(i, RescaleQ(pts, pkt.tb, TIME_BASE_Q)) then NOPTS else pts
      ensures r == pkt.(dts := r.dts, pts := r.pts) && (pkt.pts == NOPTS ==> r.pts == NOPTS)
    {
      hide RescaleQ, Follows, Correction, FarOff, Corrects;
      var offset := RescaleQ(tsOffsetDiscont, TIME_BASE_Q, pkt.tb);
      RescaleZero(TIME_BASE_Q, pkt.tb);
      r := pkt.(
        dts := if pkt.dts != NOPTS then pkt.dts + offset else NOPTS,
        pts := if pkt.pts != NOPTS then pkt.pts + offset else NOPTS);
      if (params[i].mediaType.Video? || params[i].mediaType.Audio?) && r.dts != NOPTS {
        r := Detect(i, r);
      }
      MovedByOffset(old(tsOffsetDiscont), tsOffsetDiscont, pkt.tb);
    }

    /** The dts assumed for the first packet of a stream. */
    function FirstDts(i: nat, pkt: Packet): int
      requires i < |params|
    {
      params[i].firstGuess + if pkt.pts != NOPTS then RescaleQ(pkt.pts, pkt.tb, TIME_BASE_Q) else 0
    }

    /** ist_dts_update: predict the dts of the stream's next packet.  `fields` is what the
        parser says of a coded picture. */
    method Update(i: nat, pkt: Packet, fields: nat)
      requires Valid() && i < |streams| && pkt.duration >= 0
      requires pkt.dts != NOPTS ==> RescaleQ(pkt.dts, pkt.tb, TIME_BASE_Q) > NOPTS
      requires pkt.dts == NOPTS && !streams[i].sawFirstTs ==> FirstDts(i, pkt) > NOPTS
      modifies this`streams
      ensures Valid() && |streams| == |old(streams)|
      ensures forall k :: 0 <= k < |streams| && k != i ==> streams[k] == old(streams)[k]
      ensures streams[i].sawFirstTs && streams[i].nextDts != NOPTS
      // the dts of this packet, known, predicted or guessed
      ensures streams[i].dts ==
        if pkt.dts != NOPTS then RescaleQ(pkt.dts, pkt.tb, TIME_BASE_Q)
        else if old(streams)[i].sawFirstTs then old(streams)[i].nextDts
        else FirstDts(i, pkt)
      // and the next one at a distance that fits the packet, never before it
      ensures streams[i].dts <= streams[i].nextDts
      ensures AdvanceOk(params[i], streams[i].dts, pkt, fields, streams[i].nextDts)
      ensures streams[i].firstDts == if old(streams)[i].sawFirstTs then old(streams)[i].firstDts else FirstDts(i, pkt)
    {
      hide RescaleQ, AdvanceOk;
      var ds, par := streams[i], params[i];
      if !ds.sawFirstTs {
        var first := par.firstGuess;
        if pkt.pts != NOPTS {
          first := first + RescaleQ(pkt.pts, pkt.tb, TIME_BASE_Q);
        }
        ds := ds.(dts := first, firstDts := first, sawFirstTs := true);
      }
      if ds.nextDts == NOPTS {
        ds := ds.(nextDts := ds.dts);
      }
      if pkt.dts != NOPTS {
        var dts := RescaleQ(pkt.dts, pkt.tb, TIME_BASE_Q);
        ds := ds.(dts := dts, nextDts := dts);
      }
      ds := ds.(dts := ds.nextDts);
      var next := Advance(par, ds.nextDts, pkt, fields);
      ds := ds.(nextDts := next);
      streams := streams[i := ds];
    }

    /** The dts of the packet stays within the range of timestamps when it is corrected. */
    ghost predicate NoOverflow(i: nat, pkt: Packet)
      requires i < |streams| == |params|
      reads this`tsOffsetDiscont, this`lastTs, this`streams
    {
      if pkt.dts == NOPTS then
        streams[i].sawFirstTs ||
        FirstDts(i, pkt.(pts := if pkt.pts == NOPTS then NOPTS else Shifted(pkt.pts, pkt.tb))) > NOPTS
      else
        var dts := Shifted(pkt.dts, pkt.tb);
        var correction := if Examined(i, pkt) then Correction(i, dts, pkt.tb) else 0;
        var leaving := dts - RescaleQ(correction, TIME_BASE_Q, pkt.tb);
        leaving > NOPTS && RescaleQ(leaving, pkt.tb, TIME_BASE_Q) > NOPTS
    }

    /** The timestamp part of ts_fixup after the shift for looping, on packets of any
        streams and time bases. */
    method Fixup(i: nat, pkt: Packet, fields: nat) returns (r: Packet)
      requires Valid() && i < |streams| && pkt.duration >= 0
      requires InRange(pkt) && NoOverflow(i, pkt)
      modifies this`tsOffsetDiscont, this`lastTs, this`streams
      ensures Valid() && |streams| == |old(streams)|
      ensures forall k :: 0 <= k < |streams| && k != i ==> streams[k] == old(streams)[k]
      ensures streams[i].sawFirstTs && streams[i].dts <= streams[i].nextDts
      // only timestamps change; the packet carries the offset in force after it
      ensures r == pkt.(dts := r.dts, pts := r.pts)
      ensures fmtIsDiscont || !Examined(i, pkt) ==> OffsetApplied(pkt, r, old(tsOffsetDiscont), tsOffsetDiscont)
      // or, in other formats, loses exactly the timestamps that are far from the prediction,
      // and with -copyts none
      ensures !fmtIsDiscont && Examined(i, pkt) ==>
        var dts, pts := old(Shifted(pkt.dts, pkt.tb)), old(Shifted(pkt.pts, pkt.tb));
        && r.dts == (if !copyTs && old(FarOff(i, Measured(dts, pkt.tb))) then NOPTS else dts)
        && r.pts == if pkt.pts == NOPTS || (!copyTs && old(FarOff(i, RescaleQ(pts, pkt.tb, TIME_BASE_Q)))) then NOPTS
             else pts
      // the stream's dts is that of the packet, and where discontinuities are corrected
      // it follows the prediction
      ensures r.dts != NOPTS ==> streams[i].dts == RescaleQ(r.dts, r.tb, TIME_BASE_Q)
      ensures Examined(i, pkt) && r.dts != NOPTS ==> lastTs == streams[i].dts
      ensures !Examined(i, pkt) ==> lastTs == old(lastTs)
      ensures r.dts == NOPTS ==>
        streams[i].dts == if old(streams)[i].sawFirstTs then old(streams)[i].nextDts else FirstDts(i, r)
      ensures streams[i].firstDts == if old(streams)[i].sawFirstTs then old(streams)[i].firstDts else FirstDts(i, r)
      ensures Examined(i, pkt) ==>
        var dts := old(Shifted(pkt.dts, pkt.tb));
        old(Corrects(i, dts, pkt.tb)) && Proper(dts, pkt.tb) ==>
          r.dts != NOPTS && Follows(old(streams)[i], old(lastTs), dtsDeltaThreshold, lastTs, pkt.tb)
      // the offset changes by what the packet is off, and only for one that would not follow by
      // itself
      ensures tsOffsetDiscont == old(tsOffsetDiscont) -
        if Examined(i, pkt) then old(Correction(i, Shifted(pkt.dts, pkt.tb), pkt.tb)) else 0
      ensures tsOffsetDiscont != old(tsOffsetDiscont) ==>
        var dts := old(Shifted(pkt.dts, pkt.tb));
        && Examined(i, pkt) && old(Corrects(i, dts, pkt.tb))
        && !NearPrediction(old(streams)[i], old(lastTs), dtsDeltaThreshold, Measured(dts, pkt.tb))
      // and the prediction moves on by the packet
      ensures AdvanceOk(params[i], streams[i].dts, r, fields, streams[i].nextDts)
    {
      hide RescaleQ, Follows, AdvanceOk, NearPrediction, WrapExplains;
      RescaleZero(TIME_BASE_Q, pkt.tb);
      r := Process(i, pkt);
      Update(i, r, fields);
    }
  }
}
