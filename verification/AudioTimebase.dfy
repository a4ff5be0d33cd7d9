/** The audio decoder's internal time base: fine enough to represent the timestamps
    of every sample rate seen so far. */
module AudioTimebase {
  import opened Divisors
  import opened Timestamps

  // --- the decoder ---------------------------------------------------------------------

  /** Chosen when no exact time base fits: the least common multiple of 192000 and
      44100. */
  const FALLBACK: int := 28224000

  /** The guard of the program, which keeps the result within an int. */
  predicate FallsBack(prev: int, sr: int)
    requires prev > 0 && sr > 0
  {
    prev / Gcd(prev, sr) >= INT_MAX / sr
  }

  /** It rejects every least common multiple that does not fit, and no other that is not
      within one sample rate of the limit. */
  lemma GuardIsTight(prev: int, sr: int)
    requires prev > 0 && 0 < sr <= INT_MAX
    ensures !FallsBack(prev, sr) ==> Lcm(prev, sr) <= INT_MAX - sr
    ensures FallsBack(prev, sr) ==> Lcm(prev, sr) > INT_MAX - sr
  {
    var p, q := prev / Gcd(prev, sr), INT_MAX / sr;
    assert INT_MAX == q * sr + INT_MAX % sr;
    if p < q {
      MulMonotone(p + 1, q, sr);
    } else {
      MulMonotone(q, p, sr);
    }
  }

  lemma GcdStep(a: int, b: int, r: int)
    requires a > 0 && b > 0 && r == a % b
    ensures Gcd(a, b) == Gcd(b, r)
  {
  }

  lemma GcdEnd(a: int)
    requires a > 0
    ensures Gcd(a, 0) == a
  {
  }

  lemma FallbackGcd()
    ensures Gcd(192000, 44100) == 300
  {
    GcdStep(192000, 44100, 15600);
    GcdStep(44100, 15600, 12900);
    GcdStep(15600, 12900, 2700);
    GcdStep(12900, 2700, 2100);
    GcdStep(2700, 2100, 600);
    GcdStep(2100, 600, 300);
    GcdStep(600, 300, 0);
    hide Gcd;
    assert Gcd(300, 0) == 300 by { GcdEnd(300); }
  }

  lemma FallbackIsLcm()
    ensures Divides(192000, FALLBACK) && Divides(44100, FALLBACK)
    ensures forall m :: m > 0 && Divides(192000, m) && Divides(44100, m) ==> Divides(FALLBACK, m)
  {
    hide Gcd, Divides;
    FallbackGcd();
    LcmIsLeast(192000, 44100);
    assert Lcm(192000, 44100) == FALLBACK;
  }

  /** A decoded audio frame; without a timestamp, `pts` is NOPTS. */
  datatype AudioFrame = AudioFrame(pts: int, tb: TimeBase, sampleRate: int, nbSamples: nat)

  predicate FrameOk(f: AudioFrame) {
    0 < f.sampleRate <= INT_MAX && f.tb.num <= INT_MAX && f.tb.den <= INT_MAX
  }

  predicate InRange(tb: TimeBase) { tb.num == 1 && tb.den <= INT_MAX }

  /** 1/n, where n is a proper multiple of `den`. */
  ghost predicate StrictlyFiner(tb: TimeBase, den: int)
  {
    tb.num == 1 && tb.den > den && exists k :: tb.den == k * den
  }

  lemma FinerIffDivides(tb: TimeBase, den: int)
    requires den > 0
    ensures StrictlyFiner(tb, den) <==> tb.num == 1 && tb.den > den && tb.den % den == 0
  {
    if tb.den % den == 0 {
      DividesQuotient(den, tb.den);
    }
    if k :| tb.den == k * den {
      DividesMultiple(den, tb.den, k);
    }
  }

  /** The time base for a new sample rate: the least common multiple, or a fallback, or
      the frame's own if that is strictly finer than either. */
  method ChooseTimeBase(prev: int, frame: AudioFrame) returns (tb: TimeBase, ghost fellBack: bool)
    requires 0 < prev <= INT_MAX && FrameOk(frame)
    ensures InRange(tb)
    ensures fellBack <==> FallsBack(prev, frame.sampleRate)
    ensures !fellBack ==> Divides(prev, tb.den) && Divides(frame.sampleRate, tb.den)
    ensures fellBack ==> Divides(FALLBACK, tb.den)
    ensures var den := if fellBack then FALLBACK else Lcm(prev, frame.sampleRate);
      if StrictlyFiner(frame.tb, den) then tb == frame.tb else tb.den == den
  {
    var sr := frame.sampleRate;
    var gcd := AvGcd(prev, sr);
    LcmIsLeast(prev, sr);
    GuardIsTight(prev, sr);
    fellBack := false;
    if prev / gcd >= INT_MAX / sr {
      fellBack := true;
      tb := PerSecond(FALLBACK);
    } else {
      tb := PerSecond(prev / gcd * sr);
    }
    FinerIffDivides(frame.tb, tb.den);
    if frame.tb.num == 1 && frame.tb.den > tb.den && frame.tb.den % tb.den == 0 {
      if !fellBack {
        DividesTrans(prev, tb.den, frame.tb.den);
        DividesTrans(sr, tb.den, frame.tb.den);
      }
      tb := frame.tb;
    }
  }

  /** Carrying a timestamp over to a multiple of its time base is exact. */
  lemma CarryExact(ts: int, old': TimeBase, new': TimeBase)
    requires old'.num == 1 && new'.num == 1 && Divides(old'.den, new'.den)
    ensures Seconds(RescaleQ(ts, old', new'), new') == Seconds(ts, old')
  {
    DividesQuotient(old'.den, new'.den);
    var k := new'.den / old'.den;
    assert k > 0 by {
      if k <= 0 {
        MulMonotone(k, 0, old'.den);
      }
    }
    assert new' == PerSecond(old'.den * k) && old' == PerSecond(old'.den);
    RescaleFiner(ts, old'.den, k);
  }

  // --- the clock of the decoder ------------------------------------------------------------

  /** The end of a frame, in seconds; before the first one, zero. */
  ghost function Clock(pts: int, duration: int, tb: TimeBase): real {
    if pts == NOPTS then 0.0 else Seconds(pts + duration, tb)
  }

  ghost predicate RatesDivide(rates: set<int>, tb: TimeBase) {
    forall r :: r in rates ==> r > 0 && Divides(r, tb.den)
  }

  lemma MoreRatesDivide(rates: set<int>, tb: TimeBase, sampleRate: int, tb': TimeBase)
    requires RatesDivide(rates, tb) && sampleRate > 0
    requires Divides(tb.den, tb'.den) && Divides(sampleRate, tb'.den)
    ensures RatesDivide(rates + {sampleRate}, tb')
  {
    forall r | r in rates
      ensures r > 0 && Divides(r, tb'.den)
    {
      DividesTrans(r, tb.den, tb'.den);
    }
  }

  /** The same instant in another time base, up to an error; an unknown one stays unknown. */
  ghost predicate Carried(ts: int, tb: TimeBase, ts': int, tb': TimeBase, error: real) {
    ts != NOPTS ==> Near(Seconds(ts', tb'), Seconds(ts, tb), error)
  }

  /** The predicted timestamp is the end of the last frame, up to twice the error. */
  lemma PredictionNear(pts: int, duration: int, tb: TimeBase, pts': int, duration': int, tb': TimeBase, error: real)
    requires Carried(pts, tb, pts', tb', error) && Near(Seconds(duration', tb'), Seconds(duration, tb), error)
    requires pts == NOPTS <==> pts' == NOPTS
    requires error >= 0.0
    ensures var predicted := if pts' == NOPTS then 0 else pts' + duration';
      Near(Seconds(predicted, tb'), Clock(pts, duration, tb), 2.0 * error)
  {
    hide Seconds;
    SecondsAdd(pts, duration, tb);
    SecondsAdd(pts', duration', tb');
    assert Seconds(0, tb') == 0.0 by { SecondsAdd(0, 0, tb'); }
  }

  /** A frame's duration is exact if its sample rate divides the time base, and else off by
      at most half a unit. */
  ghost function DurationError(sampleRate: int, tb: TimeBase): real
    requires sampleRate > 0
  {
    if Divides(sampleRate, tb.den) then 0.0 else 0.5 * Unit(tb)
  }

  lemma DurationNear(nbSamples: nat, sampleRate: int, tb: TimeBase)
    requires sampleRate > 0 && tb.num == 1
    ensures Near(Seconds(RescaleQ(nbSamples, PerSecond(sampleRate), tb), tb), Seconds(nbSamples, PerSecond(sampleRate)),
      DurationError(sampleRate, tb))
    ensures DurationError(sampleRate, tb) >= 0.0
  {
    UnitPositive(tb);
    if Divides(sampleRate, tb.den) {
      CarryExact(nbSamples, PerSecond(sampleRate), tb);
    }
    RescaleNearSeconds(nbSamples, PerSecond(sampleRate), tb);
  }

  /** What a change of sample rate costs in accuracy. */
  ghost function CarryError(fellBack: bool, tb: TimeBase): (e: real)
    ensures e >= 0.0
  {
    UnitPositive(tb);
    if fellBack then 0.5 * Unit(tb) else 0.0
  }

  lemma NearTrans(x: real, y: real, z: real, e: real, f: real)
    requires Near(x, y, e) && Near(y, z, f)
    ensures Near(x, z, f + e)
  {
  }

  /** The clock after a frame that starts near `at` and plays for about `playing`. */
  lemma ClockAfter(start: int, duration: int, tb: TimeBase, at: real, e: real, playing: real, f: real)
    requires start != NOPTS && Near(Seconds(start, tb), at, e) && Near(Seconds(duration, tb), playing, f)
    ensures Near(Clock(start, duration, tb), at + playing, e + f)
  {
    hide Seconds;
    SecondsAdd(start, duration, tb);
  }

  /** Where a frame should start: at its own timestamp, or where the clock should be. */
  ghost function At(frame: AudioFrame, elapsed: real): real {
    if frame.pts == NOPTS then elapsed else Seconds(frame.pts, frame.tb)
  }

  /** How far from there it may start. */
  ghost function Off(frame: AudioFrame, tb: TimeBase, fellBack: bool, slack: real): real {
    if frame.pts == NOPTS then slack + 2.0 * CarryError(fellBack, tb) else 0.5 * Unit(frame.tb) + Unit(tb)
  }

  /** No error is allowed exactly for frames without a timestamp, as long as there is no
      fallback and none has been made. */
  lemma OffZero(frame: AudioFrame, tb: TimeBase, fellBack: bool, slack: real)
    requires slack >= 0.0
    ensures Off(frame, tb, fellBack, slack) >= 0.0
    ensures Off(frame, tb, fellBack, slack) == 0.0 <==> frame.pts == NOPTS && !fellBack && slack == 0.0
  {
    UnitPositive(tb);
    UnitPositive(frame.tb);
  }

  lemma DurationErrorZero(sampleRate: int, tb: TimeBase)
    requires sampleRate > 0
    ensures DurationError(sampleRate, tb) == 0.0 <==> Divides(sampleRate, tb.den)
  {
    UnitPositive(tb);
  }

  /** One frame: the clock was (pts0, dur0) in time base tb0 and has been carried to (pts1,
      dur1) in tb; the frame is put at `start` for `dur`. */
  lemma FrameClock(frame: AudioFrame, pts0: int, dur0: int, tb0: TimeBase, pts1: int, dur1: int, tb: TimeBase,
      fellBack: bool,
      start: int, dur: int, elapsed: real, slack: real)
    requires FrameOk(frame) && tb.num == 1
    requires Near(Clock(pts0, dur0, tb0), elapsed, slack)
    requires pts0 == NOPTS <==> pts1 == NOPTS
    requires Carried(pts0, tb0, pts1, tb, CarryError(fellBack, tb))
    requires Near(Seconds(dur1, tb), Seconds(dur0, tb0), CarryError(fellBack, tb))
    requires frame.pts == NOPTS ==> start == if pts1 == NOPTS then 0 else pts1 + dur1
    requires frame.pts != NOPTS ==>
      Near(Seconds(start, tb), Seconds(frame.pts, frame.tb), 0.5 * Unit(frame.tb) + Unit(tb))
    requires dur == RescaleQ(frame.nbSamples, PerSecond(frame.sampleRate), tb)
    ensures frame.pts == NOPTS ==> Near(Seconds(start, tb), Clock(pts0, dur0, tb0), 2.0 * CarryError(fellBack, tb))
    ensures Near(Seconds(start, tb), At(frame, elapsed), Off(frame, tb, fellBack, slack))
    ensures start != NOPTS ==>
      Near(Clock(start, dur, tb), At(frame, elapsed) + Seconds(frame.nbSamples, PerSecond(frame.sampleRate)),
        Off(frame, tb, fellBack, slack) + DurationError(frame.sampleRate, tb))
  {
    hide Seconds, RescaleQ, DurationError, Clock, Near, Carried, Unit, CarryError;
    var error := CarryError(fellBack, tb);
    if frame.pts == NOPTS {
      PredictionNear(pts0, dur0, tb0, pts1, dur1, tb, error);
      NearTrans(Seconds(start, tb), Clock(pts0, dur0, tb0), elapsed, 2.0 * error, slack);
    }
    DurationNear(frame.nbSamples, frame.sampleRate, tb);
    if start != NOPTS {
      ClockAfter(start, dur, tb, At(frame, elapsed), Off(frame, tb, fellBack, slack),
        Seconds(frame.nbSamples, PerSecond(frame.sampleRate)), DurationError(frame.sampleRate, tb));
    }
  }

  lemma NearestSample(ts: int, tb: TimeBase, sampleRate: int)
    requires sampleRate > 0
    ensures Near(Seconds(RescaleQ(ts, tb, PerSecond(sampleRate)), PerSecond(sampleRate)), Seconds(ts, tb),
      0.5 * Unit(PerSecond(sampleRate)))
  {
    RescaleNearSeconds(ts, tb, PerSecond(sampleRate));
  }

  /** The conversion of a frame's timestamp to the internal time base: exact for a predicted
      one, and off by half of its own unit and one of the time base for another. */
  lemma ConversionNear(frame: AudioFrame, predicted: int, tb: TimeBase, last: int)
    ensures frame.pts == NOPTS ==> RescaleDelta(tb, predicted, tb, frame.nbSamples, last, tb).0 == predicted
    ensures frame.pts != NOPTS ==>
      Near(Seconds(RescaleDelta(frame.tb, frame.pts, tb, frame.nbSamples, last, tb).0, tb), Seconds(frame.pts, frame.tb),
        0.5 * Unit(frame.tb) + Unit(tb))
  {
    RescaleSame(predicted, tb);
    RescaleDeltaNearOwn(frame.tb, frame.pts, tb, frame.nbSamples, last);
  }

  // --- timestamps in a coarse time base ----------------------------------------------------

  /** The conversion remembers where the frame ends, in its own count of samples. */
  lemma ConversionRemembers(inTb: TimeBase, ts: int, tb: TimeBase, nbSamples: nat, last: int)
    ensures var r := RescaleDelta(inTb, ts, tb, nbSamples, last, tb); r.1 == r.0 + nbSamples
  {
    var lo, hi := RescaleQRnd(2 * ts - 1, inTb, tb, Down), RescaleQRnd(2 * ts + 1, inTb, tb, Up);
    RescaleSame(if last < lo / 2 then lo / 2 else if last > (hi + 1) / 2 then (hi + 1) / 2 else last, tb);
    hide RescaleQ, RescaleQRnd;
  }

  /** It does not look like a gap. */
  lemma RoundedIsNoGap(ts: int, inTb: TimeBase, expected: int, tb: TimeBase)
    requires Rounded(ts, inTb, expected, tb)
    ensures ts <= RescaleQRnd(expected, tb, inTb, Up)
  {
    var up := RescaleQRnd(expected, tb, inTb, Up);
    RescaleUpSeconds(expected, tb, inTb);
    hide Seconds, RescaleQRnd;
    UnitPositive(inTb);
    SecondsAdd(up, 1, inTb);
    SecondsMonotone(ts, up + 1, inTb);
  }

  /** In a time base that is not coarser, the nearest timestamp is the expected one. */
  lemma RoundedIsNearest(ts: int, inTb: TimeBase, expected: int, tb: TimeBase)
    requires Rounded(ts, inTb, expected, tb) && inTb.num * tb.den <= tb.num * inTb.den
    ensures RescaleQ(ts, inTb, tb) == expected
  {
    var r := RescaleQ(ts, inTb, tb);
    RescaleNearSeconds(ts, inTb, tb);
    CrossMultiply(1, inTb, 1, tb);
    CrossMultiply(1, tb, 1, inTb);
    ScalePositive(inTb, tb);
    if inTb.num * tb.den == tb.num * inTb.den {
      RescaleExact(ts, inTb.num * tb.den, tb.num * inTb.den, ts);
      assert r == ts;
      CrossMultiply(ts, inTb, r, tb);
      CrossMultiply(r, tb, ts, inTb);
    }
    hide Seconds, RescaleQ;
    UnitPositive(inTb);
    UnitPositive(tb);
    SecondsAdd(r, 1, tb);
    SecondsAdd(expected, 1, tb);
    SecondsMonotone(r, expected + 1, tb);
    SecondsMonotone(expected, r + 1, tb);
  }

  lemma GapIsLate(ts: int, inTb: TimeBase, expected: int, tb: TimeBase)
    requires Seconds(ts, inTb) >= Seconds(expected, tb) + Unit(inTb)
    ensures ts > RescaleQRnd(expected, tb, inTb, Up)
  {
    var up := RescaleQRnd(expected, tb, inTb, Up);
    RescaleUpSeconds(expected, tb, inTb);
    hide Seconds, RescaleQRnd;
    SecondsMonotone(up, ts, inTb);
  }

  /** What av_rescale_delta is for: timestamps that are no more than rounded do not move a
      frame from the end of the one before it. */
  lemma KeepsPlace(ts: int, inTb: TimeBase, expected: int, tb: TimeBase, nbSamples: nat)
    requires Rounded(ts, inTb, expected, tb) && nbSamples > 0 && expected != NOPTS
    ensures RescaleDelta(inTb, ts, tb, nbSamples, expected, tb).0 == expected
  {
    if inTb.num * tb.den <= tb.num * inTb.den {
      RoundedIsNearest(ts, inTb, expected, tb);
    } else {
      RoundedInRange(ts, inTb, expected, tb);
      RescaleSame(expected, tb);
    }
    hide RescaleQ, RescaleQRnd, Rounded;
  }

  /** It only does so while the time base counts samples.  After a change from 32000 to 48000 Hz
      it counts half samples, and the end that the conversion remembers falls short: a frame
      that is expected at 2048, and has a timestamp in milliseconds next to that, is put at 2016. */
  lemma GapAfterRateChange()
    ensures var ms: TimeBase := Rational(1, 1000);
      var tb: TimeBase := Rational(1, 96000);
      && Rounded(21, ms, 2048, tb)
      && RescaleDelta(ms, 0, tb, 1024, NOPTS, tb) == (0, 1024)
      && RescaleQ(1024, PerSecond(48000), tb) == 2048
      && RescaleDelta(ms, 21, tb, 1024, 1024, tb).0 == 2016
  {
  }

  /** With what the conversion remembers, the timestamp leaves the frame where it is expected. */
  ghost predicate Kept(ts: int, inTb: TimeBase, expected: int, tb: TimeBase, nbSamples: nat, last: int) {
    RescaleDelta(inTb, ts, tb, nbSamples, last, tb).0 == expected
  }

  /** The range for a timestamp of zero in a coarser time base. */
  lemma RangeAroundZero(inTb: TimeBase, tb: TimeBase)
    requires tb.num * inTb.den < inTb.num * tb.den
    ensures RescaleQRnd(-1, inTb, tb, Down) <= -2 && RescaleQRnd(1, inTb, tb, Up) >= 2
    ensures RescaleQ(0, inTb, tb) == 0
  {
    var lo, hi := RescaleQRnd(-1, inTb, tb, Down), RescaleQRnd(1, inTb, tb, Up);
    RescaleDownSeconds(-1, inTb, tb);
    RescaleUpSeconds(1, inTb, tb);
    CrossMultiply(1, inTb, 1, tb);
    CrossMultiply(-1, inTb, -1, tb);
    CrossMultiply(-1, inTb, lo, tb);
    CrossMultiply(1, inTb, hi, tb);
  }

  /** Timestamps that are no more than rounded leave every frame in its place, whatever the
      conversion remembers, if and only if their time base is not the coarser one. */
  lemma KeptIffNotCoarser(inTb: TimeBase, tb: TimeBase, nbSamples: nat)
    requires nbSamples > 0
    ensures (forall ts, expected, last :: Rounded(ts, inTb, expected, tb) ==>
      Kept(ts, inTb, expected, tb, nbSamples, last))
      <==> inTb.num * tb.den <= tb.num * inTb.den
  {
    if inTb.num * tb.den <= tb.num * inTb.den {
      forall ts, expected, last | Rounded(ts, inTb, expected, tb)
        ensures Kept(ts, inTb, expected, tb, nbSamples, last)
      {
        RoundedIsNearest(ts, inTb, expected, tb);
      }
    } else {
      RangeAroundZero(inTb, tb);
      RescaleSame(-1, tb);
      UnitPositive(inTb);
      assert Rounded(0, inTb, 0, tb);
      assert !Kept(0, inTb, 0, tb, nbSamples, -1);
    }
  }

  lemma OneUnitFits(inTb: TimeBase, tb: TimeBase)
    requires 2 * (tb.num * inTb.den) <= inTb.num * tb.den
    ensures Rounded(0, inTb, 1, tb) && Rounded(0, inTb, -1, tb)
  {
    CrossMultiply(1, inTb, 2, tb);
    SecondsAdd(1, 1, tb);
    SecondsAdd(1, -1, tb);
    UnitPositive(tb);
  }

  /** A timestamp of zero is not converted across zero. */
  lemma AwayFromOne(inTb: TimeBase, tb: TimeBase, nbSamples: nat, last: int)
    requires tb.num * inTb.den < inTb.num * tb.den
    ensures last <= 0 ==> !Kept(0, inTb, 1, tb, nbSamples, last)
    ensures last >= 0 ==> !Kept(0, inTb, -1, tb, nbSamples, last)
  {
    RangeAroundZero(inTb, tb);
    var a := RescaleQRnd(-1, inTb, tb, Down) / 2;
    var b := (RescaleQRnd(1, inTb, tb, Up) + 1) / 2;
    RescaleSame(if last < a then a else if last > b then b else last, tb);
    hide RescaleQ, RescaleQRnd;
  }

  /** In one that is at least twice as coarse, whatever the remembered end is off by, some frame
      with such a timestamp is moved. */
  lemma DriftMoves(inTb: TimeBase, tb: TimeBase, nbSamples: nat, drift: int) returns (expected: int)
    requires 2 * (tb.num * inTb.den) <= inTb.num * tb.den && nbSamples > 0 && drift != 0
    ensures Rounded(0, inTb, expected, tb) && !Kept(0, inTb, expected, tb, nbSamples, expected - drift)
  {
    expected := if drift > 0 then 1 else -1;
    OneUnitFits(inTb, tb);
    ScalePositive(tb, inTb);
    RangeAroundZero(inTb, tb);
    AwayFromOne(inTb, tb, nbSamples, expected - drift);
    hide RescaleQ, RescaleQRnd, Rounded, RescaleDelta;
  }

  class AudioDecoder {
    var lastFramePts: int
    var lastFrameDurationEst: int
    var lastFrameTb: TimeBase
    var lastFilterInRescaleDelta: int
    var lastFrameSampleRate: int
    /** The sample rates taken into account since the last fallback. */
    ghost var rates: set<int>
    /** The exact time at which the next frame should start: the last timestamp received, if
        any, plus the playing time of the frames since; and how far the clock may be from it. */
    ghost var elapsed: real
    ghost var slack: real
    /** A timestamp has come out as the value that stands for an unknown one. */
    ghost var overflowed: bool

    ghost predicate Valid()
      reads this
    {
      && InRange(lastFrameTb)
      && RatesDivide(rates, lastFrameTb)
      && slack >= 0.0 && lastFrameSampleRate >= 0
      && (slack == 0.0 && lastFrameSampleRate > 0 ==> Divides(lastFrameSampleRate, lastFrameTb.den))
      && (lastFramePts != NOPTS && lastFrameTb.den == lastFrameSampleRate ==>
           lastFilterInRescaleDelta == lastFramePts + lastFrameDurationEst)
      && (!overflowed ==> Near(Clock(lastFramePts, lastFrameDurationEst, lastFrameTb), elapsed, slack))
    }

    constructor ()
      ensures Valid() && elapsed == slack == 0.0 && !overflowed && rates == {}
      ensures lastFramePts == lastFilterInRescaleDelta == NOPTS && lastFrameDurationEst == lastFrameSampleRate == 0
      ensures lastFrameTb == Rational(1, 1)
    {
      lastFramePts := NOPTS;
      lastFrameDurationEst := 0;
      lastFrameTb := Rational(1, 1);
      lastFilterInRescaleDelta := NOPTS;
      lastFrameSampleRate := 0;
      rates, elapsed, slack, overflowed := {}, 0.0, 0.0, false;
    }

    /** audio_samplerate_update. */
    method SamplerateUpdate(frame: AudioFrame) returns (tb: TimeBase, ghost fellBack: bool)
      requires InRange(lastFrameTb) && RatesDivide(rates, lastFrameTb) && FrameOk(frame)
      modifies this`lastFramePts, this`lastFrameDurationEst, this`lastFrameTb, this`lastFrameSampleRate, this`rates
      ensures tb == lastFrameTb && InRange(tb) && RatesDivide(rates, tb)
      ensures lastFrameSampleRate == frame.sampleRate
      ensures fellBack <==>
        frame.sampleRate != old(lastFrameSampleRate) && FallsBack(old(lastFrameTb).den, frame.sampleRate)
      ensures frame.sampleRate == old(lastFrameSampleRate) ==>
        && rates == old(rates) && tb == old(lastFrameTb)
        && lastFramePts == old(lastFramePts) && lastFrameDurationEst == old(lastFrameDurationEst)
      ensures fellBack ==> rates == {} && Divides(FALLBACK, tb.den)
      // the time base serves all rates so far, and the last frame keeps its exact place
      ensures frame.sampleRate != old(lastFrameSampleRate) && !fellBack ==>
        && rates == old(rates) + {frame.sampleRate} && Divides(frame.sampleRate, tb.den)
        && (tb.den == Lcm(old(lastFrameTb).den, frame.sampleRate) || tb == frame.tb)
      ensures !fellBack ==> Divides(old(lastFrameTb).den, tb.den)
      // or, after a fallback, is off by half a unit
      ensures Carried(old(lastFramePts), old(lastFrameTb), lastFramePts, tb, CarryError(fellBack, tb))
      ensures Near(Seconds(lastFrameDurationEst, tb), Seconds(old(lastFrameDurationEst), old(lastFrameTb)),
        CarryError(fellBack, tb))
      ensures lastFramePts ==
        if old(lastFramePts) == NOPTS then NOPTS else RescaleQ(old(lastFramePts), old(lastFrameTb), tb)
    {
      hide Seconds, RescaleQ;
      var prev := lastFrameTb;
      DividesMultiple(prev.den, prev.den, 1);
      RescaleSame(lastFramePts, prev);
      if frame.sampleRate == lastFrameSampleRate {
        return lastFrameTb, false;
      }
      tb, fellBack := ChooseTimeBase(prev.den, frame);
      RescaleNearSeconds(lastFramePts, prev, tb);
      RescaleNearSeconds(lastFrameDurationEst, prev, tb);
      if !fellBack {
        CarryExact(lastFramePts, prev, tb);
        CarryExact(lastFrameDurationEst, prev, tb);
        MoreRatesDivide(rates, prev, frame.sampleRate, tb);
      }
      if lastFramePts != NOPTS {
        lastFramePts := RescaleQ(lastFramePts, prev, tb);
      }
      lastFrameDurationEst := RescaleQ(lastFrameDurationEst, prev, tb);
      lastFrameTb := tb;
      lastFrameSampleRate := frame.sampleRate;
      rates := if fellBack then {} else rates + {frame.sampleRate};
    }

    /** A frame with a timestamp that is next to where it is expected. */
    ghost predicate InStep(frame: AudioFrame, expected: int)
      reads this`lastFramePts, this`lastFrameTb
    {
      && frame.pts != NOPTS && lastFramePts != NOPTS && expected != NOPTS && frame.nbSamples > 0
      && Rounded(frame.pts, frame.tb, expected, lastFrameTb)
    }

    /** A frame that starts later than expected by at least a unit of its own time base. */
    ghost predicate LeavesGap(frame: AudioFrame, expected: int)
      reads this`lastFramePts, this`lastFrameTb
    {
      && frame.pts != NOPTS && lastFramePts != NOPTS
      && Seconds(frame.pts, frame.tb) >= Seconds(expected, lastFrameTb) + Unit(frame.tb)
    }

    /** The conversion of the frame's timestamp, or of the predicted one, and of its duration
        to the internal time base. */
    method Convert(frame: AudioFrame, predicted: int)
      requires FrameOk(frame)
      modifies this`lastFramePts, this`lastFrameDurationEst, this`lastFilterInRescaleDelta
      ensures frame.pts == NOPTS ==> lastFramePts == predicted
      ensures frame.pts != NOPTS ==>
        Near(Seconds(lastFramePts, lastFrameTb), Seconds(frame.pts, frame.tb), 0.5 * Unit(frame.tb) + Unit(lastFrameTb))
      ensures old(InStep(frame, predicted)) && old(lastFilterInRescaleDelta) == predicted ==> lastFramePts == predicted
      ensures old(LeavesGap(frame, predicted)) ==> lastFramePts == RescaleQ(frame.pts, frame.tb, lastFrameTb)
      ensures lastFrameDurationEst == RescaleQ(frame.nbSamples, PerSecond(frame.sampleRate), lastFrameTb)
      ensures lastFilterInRescaleDelta == lastFramePts + frame.nbSamples
    {
      var tb := lastFrameTb;
      if LeavesGap(frame, predicted) {
        GapIsLate(frame.pts, frame.tb, predicted, tb);
      }
      assert RescaleDelta(frame.tb, frame.pts, tb, frame.nbSamples, NOPTS, tb).0 == RescaleQ(frame.pts, frame.tb, tb);
      hide Seconds, RescaleQ, RescaleQRnd, RescaleDelta, Near, Rounded, LeavesGap;
      if InStep(frame, predicted) {
        RoundedIsNoGap(frame.pts, frame.tb, predicted, tb);
        KeepsPlace(frame.pts, frame.tb, predicted, tb, frame.nbSamples);
      }
      var framePts, frameTb := frame.pts, frame.tb;
      if framePts == NOPTS {
        framePts := predicted;
        frameTb := tb;
      } else if lastFramePts != NOPTS && framePts > RescaleQRnd(predicted, tb, frameTb, Up) {
        // the frame starts late, so the conversion forgets the samples before it
        lastFilterInRescaleDelta := NOPTS;
      }
      ConversionNear(frame, predicted, tb, lastFilterInRescaleDelta);
      ConversionRemembers(frameTb, framePts, tb, frame.nbSamples, lastFilterInRescaleDelta);
      var converted := RescaleDelta(frameTb, framePts, tb, frame.nbSamples, lastFilterInRescaleDelta, tb);
      lastFramePts := converted.0;
      lastFilterInRescaleDelta := converted.1;
      lastFrameDurationEst := RescaleQ(frame.nbSamples, PerSecond(frame.sampleRate), tb);
    }

    /** The first part of audio_ts_process: the frame's place in the internal time base.  `pts` and
        `duration` are those of the frame before it, carried over to that time base. */
    method Place(frame: AudioFrame) returns (ghost fellBack: bool, ghost pts: int, ghost duration: int)
      requires Valid() && FrameOk(frame)
      modifies this`lastFramePts, this`lastFrameDurationEst, this`lastFrameTb, this`lastFrameSampleRate, this`rates,
        this`lastFilterInRescaleDelta
      ensures InRange(lastFrameTb) && RatesDivide(rates, lastFrameTb) && lastFrameSampleRate == frame.sampleRate
      ensures fellBack <==>
        frame.sampleRate != old(lastFrameSampleRate) && FallsBack(old(lastFrameTb).den, frame.sampleRate)
      ensures frame.sampleRate != old(lastFrameSampleRate) && !fellBack ==> Divides(frame.sampleRate, lastFrameTb.den)
      ensures frame.sampleRate == old(lastFrameSampleRate) ==>
        lastFrameTb == old(lastFrameTb) && pts == old(lastFramePts) && duration == old(lastFrameDurationEst)
      ensures Carried(old(lastFramePts), old(lastFrameTb), pts, lastFrameTb, CarryError(fellBack, lastFrameTb))
      ensures Near(Seconds(duration, lastFrameTb), Seconds(old(lastFrameDurationEst), old(lastFrameTb)),
        CarryError(fellBack, lastFrameTb))
      ensures pts == if old(lastFramePts) == NOPTS then NOPTS else RescaleQ(old(lastFramePts), old(lastFrameTb),
        lastFrameTb)
      ensures frame.pts == NOPTS ==> lastFramePts == if pts == NOPTS then 0 else pts + duration
      ensures frame.pts != NOPTS ==>
        Near(Seconds(lastFramePts, lastFrameTb), Seconds(frame.pts, frame.tb), 0.5 * Unit(frame.tb) + Unit(lastFrameTb))
      ensures lastFrameDurationEst == RescaleQ(frame.nbSamples, PerSecond(frame.sampleRate), lastFrameTb)
      ensures lastFrameTb.den == frame.sampleRate ==> lastFilterInRescaleDelta == lastFramePts + lastFrameDurationEst
      ensures frame.sampleRate == old(lastFrameSampleRate) == old(lastFrameTb).den ==>
        var expected := old(lastFramePts + lastFrameDurationEst);
        old(InStep(frame, lastFramePts + lastFrameDurationEst)) ==> lastFramePts == expected
      ensures frame.sampleRate == old(lastFrameSampleRate) ==>
        old(LeavesGap(frame, lastFramePts + lastFrameDurationEst)) ==>
          lastFramePts == RescaleQ(frame.pts, frame.tb, lastFrameTb)
    {
      hide Seconds, RescaleQ, DurationError, Divides, FallsBack, Gcd, Lcm, Clock, Near, Carried, Unit, RatesDivide,
        CarryError, Rounded, RescaleQRnd, RescaleRnd, FrameOk;
      var tb;
      tb, fellBack := SamplerateUpdate(frame);
      pts, duration := lastFramePts, lastFrameDurationEst;
      var predicted := if lastFramePts == NOPTS then 0 else lastFramePts + lastFrameDurationEst;
      Convert(frame, predicted);
      if tb.den == frame.sampleRate {
        RescaleSame(frame.nbSamples, tb);
      }
    }

    /** audio_ts_process.  The result is the frame's timestamp in samples; `start` is the
        same in the internal time base. */
    method TsProcess(frame: AudioFrame) returns (pts: int, ghost start: int, ghost fellBack: bool)
      requires Valid() && FrameOk(frame)
      modifies this
      ensures Valid()
      ensures lastFramePts == start && lastFrameSampleRate == frame.sampleRate
      ensures fellBack <==>
        frame.sampleRate != old(lastFrameSampleRate) && FallsBack(old(lastFrameTb).den, frame.sampleRate)
      ensures frame.sampleRate != old(lastFrameSampleRate) && !fellBack ==> Divides(frame.sampleRate, lastFrameTb.den)
      ensures frame.sampleRate == old(lastFrameSampleRate) ==> lastFrameTb == old(lastFrameTb)
      ensures overflowed == (old(overflowed) || start == NOPTS ||
        (old(lastFramePts) != NOPTS && RescaleQ(old(lastFramePts), old(lastFrameTb), lastFrameTb) == NOPTS))
      // without a timestamp the frame starts where the last one ended, exactly if there is
      // no fallback
      ensures !overflowed && frame.pts == NOPTS ==>
        Near(Seconds(start, lastFrameTb), old(Clock(lastFramePts, lastFrameDurationEst, lastFrameTb)),
          2.0 * CarryError(fellBack, lastFrameTb))
      // in any case next to where it should, counting from the last timestamp
      ensures !overflowed ==>
        Near(Seconds(start, lastFrameTb), At(frame, old(elapsed)), Off(frame, lastFrameTb, fellBack, old(slack)))
      ensures slack == Off(frame, lastFrameTb, fellBack, old(slack)) + DurationError(frame.sampleRate, lastFrameTb)
      ensures elapsed == At(frame, old(elapsed)) + Seconds(frame.nbSamples, PerSecond(frame.sampleRate))
      // so that without timestamps and fallbacks, whatever the changes of rate, each frame
      // starts at exactly the playing time of those before it
      ensures slack == 0.0 <==> old(slack) == 0.0 && frame.pts == NOPTS && !fellBack
      // and while the rate is that of the time base, timestamps that are no more than rounded,
      // in however coarse a time base, leave no gap between frames
      ensures frame.sampleRate == old(lastFrameSampleRate) == old(lastFrameTb).den ==>
        var expected := old(lastFramePts + lastFrameDurationEst);
        old(InStep(frame, lastFramePts + lastFrameDurationEst)) ==> start == expected
      // one after a gap is put where its timestamp says, whatever came before
      ensures frame.sampleRate == old(lastFrameSampleRate) ==>
        old(LeavesGap(frame, lastFramePts + lastFrameDurationEst)) ==>
          start == RescaleQ(frame.pts, frame.tb, lastFrameTb)
      // and the result is the nearest sample
      ensures Near(Seconds(pts, PerSecond(frame.sampleRate)), Seconds(start, lastFrameTb),
        0.5 * Unit(PerSecond(frame.sampleRate)))
    {
      hide Seconds, RescaleQ, DurationError, Divides, FallsBack, Gcd, Lcm, Clock, Near, Carried, Unit, RatesDivide,
        CarryError, Off, Rounded, At, RescaleQRnd, RescaleRnd, FrameOk;
      ghost var tb0, pts0, dur0, elapsed0, slack0 := lastFrameTb, lastFramePts, lastFrameDurationEst, elapsed, slack;
      ghost var pts1, dur1;
      fellBack, pts1, dur1 := Place(frame);
      var tb := lastFrameTb;
      overflowed := overflowed || (pts0 != NOPTS && pts1 == NOPTS);
      start := lastFramePts;
      DurationNear(frame.nbSamples, frame.sampleRate, tb);
      if !overflowed {
        FrameClock(frame, pts0, dur0, tb0, pts1, dur1, tb, fellBack, start, lastFrameDurationEst, elapsed, slack);
      }
      overflowed := overflowed || start == NOPTS;
      slack := Off(frame, tb, fellBack, slack0) + DurationError(frame.sampleRate, tb);
      elapsed := At(frame, elapsed0) + Seconds(frame.nbSamples, PerSecond(frame.sampleRate));
      OffZero(frame, tb, fellBack, slack0);
      DurationErrorZero(frame.sampleRate, tb);
      pts := RescaleQ(lastFramePts, tb, PerSecond(frame.sampleRate));
      NearestSample(start, tb, frame.sampleRate);
    }
  }
}
