/** Looping an input (-stream_loop): every pass is shifted to follow the ones before.
    Packets of different streams have different time bases, so times are compared in
    seconds; only the conversions round. */
module DemuxLoop {
  import opened Timestamps

  datatype Timestamp = Timestamp(ts: int, tb: TimeBase)

  const UNKNOWN := Timestamp(NOPTS, Rational(1, 1))

  ghost function Time(t: Timestamp): real { Seconds(t.ts, t.tb) }

  ghost function MaxTime(a: real, b: real): real { if a < b then b else a }

  ghost function MinTime(a: real, b: real): real { if a > b then b else a }

  // --- the passes ------------------------------------------------------------------------

  ghost predicate InPass(passes: seq<seq<Timestamp>>, n: int, k: int) {
    0 <= n < |passes| && 0 <= k < |passes[n]|
  }

  /** Every timestamp of every pass lies between the two. */
  ghost predicate AllBetween(passes: seq<seq<Timestamp>>, lo: real, hi: real) {
    forall n, k :: InPass(passes, n, k) ==> lo <= Time(passes[n][k]) <= hi
  }

  ghost predicate EarlierAtMost(passes: seq<seq<Timestamp>>, hi: real) {
    forall n, k :: InPass(passes, n, k) && n < |passes| - 1 ==> Time(passes[n][k]) <= hi
  }

  ghost function Record(passes: seq<seq<Timestamp>>, t: Timestamp): (r: seq<seq<Timestamp>>)
    requires passes != []
    ensures |r| == |passes|
  {
    passes[|passes| - 1 := passes[|passes| - 1] + [t]]
  }

  lemma RecordKeeps(passes: seq<seq<Timestamp>>, t: Timestamp, lo: real, hi: real, lo': real, hi': real)
    requires passes != [] && lo' <= Time(t) <= hi'
    requires AllBetween(passes, lo, hi) && ((lo' <= lo && hi <= hi') || forall n, k :: !InPass(passes, n, k))
    ensures AllBetween(Record(passes, t), lo', hi')
    ensures forall h :: EarlierAtMost(passes, h) ==> EarlierAtMost(Record(passes, t), h)
  {
    var r := Record(passes, t);
    hide Time;
    forall n, k | InPass(r, n, k)
      ensures lo' <= Time(r[n][k]) <= hi'
      ensures n < |r| - 1 ==> InPass(passes, n, k) && r[n][k] == passes[n][k]
    {
      assert InPass(passes, n, k) || (n == |passes| - 1 && k == |passes[n]|);
    }
  }

  lemma EarlierMore(passes: seq<seq<Timestamp>>, hi: real, hi': real)
    requires EarlierAtMost(passes, hi) && hi <= hi'
    ensures EarlierAtMost(passes, hi')
  {
  }

  lemma NothingEarlier(passes: seq<seq<Timestamp>>, hi: real)
    requires |passes| == 1
    ensures EarlierAtMost(passes, hi)
    ensures passes[0] == [] ==> forall lo, hi' :: AllBetween(passes, lo, hi')
    ensures passes[0] == [] ==> forall n, k :: !InPass(passes, n, k)
  {
  }

  lemma NewPass(passes: seq<seq<Timestamp>>, lo: real, hi: real, hi': real)
    requires AllBetween(passes, lo, hi) && hi <= hi'
    ensures AllBetween(passes, lo, hi') && AllBetween(passes + [[]], lo, hi')
    ensures EarlierAtMost(passes + [[]], hi')
  {
    var r := passes + [[]];
    assert forall n, k :: InPass(r, n, k) ==> InPass(passes, n, k) && r[n][k] == passes[n][k];
  }

  // --- extreme timestamps --------------------------------------------------------------

  /** The later of two timestamps, and the earlier; an unknown one gives way. */
  function LaterOf(a: Timestamp, b: Timestamp): Timestamp {
    if a.ts == NOPTS || CompareTs(a.ts, a.tb, b.ts, b.tb) < 0 then b else a
  }

  function EarlierOf(a: Timestamp, b: Timestamp): Timestamp {
    if a.ts == NOPTS || CompareTs(a.ts, a.tb, b.ts, b.tb) > 0 then b else a
  }

  /** The comparison is exact, so no time is lost in whatever time bases. */
  lemma ExtremesAreExact(a: Timestamp, b: Timestamp)
    ensures LaterOf(a, b) == a || LaterOf(a, b) == b
    ensures EarlierOf(a, b) == a || EarlierOf(a, b) == b
    ensures Time(LaterOf(a, b)) == if a.ts == NOPTS then Time(b) else MaxTime(Time(a), Time(b))
    ensures Time(EarlierOf(a, b)) == if a.ts == NOPTS then Time(b) else MinTime(Time(a), Time(b))
    ensures a.ts == NOPTS ==> LaterOf(a, b) == EarlierOf(a, b) == b
    ensures a.ts != NOPTS && Time(a) <= Time(b) ==> EarlierOf(a, b) == a
  {
    hide Seconds, CompareTs;
    CompareTsIsExact(a.ts, a.tb, b.ts, b.tb);
  }

  // --- rounding ------------------------------------------------------------------------

  /** How far a conversion can be off. */
  ghost function ConversionError(from: TimeBase, to: TimeBase): (e: real)
    ensures e >= 0.0
  {
    UnitPositive(to);
    if from == to then 0.0 else 0.5 * Unit(to)
  }

  lemma ConversionNear(ts: int, from: TimeBase, to: TimeBase)
    ensures var s := Seconds(RescaleQ(ts, from, to), to);
      Seconds(ts, from) - ConversionError(from, to) <= s <= Seconds(ts, from) + ConversionError(from, to)
  {
    RescaleNearSeconds(ts, from, to);
    if from == to {
      RescaleSame(ts, to);
    }
  }

  /** A packet no earlier than the first pass follows all earlier passes. */
  lemma FollowsEarlier(passes: seq<seq<Timestamp>>, pts: int, duration: Timestamp, tb: TimeBase, firstMin: real,
      error: real)
    requires EarlierAtMost(passes, firstMin + Time(duration) + error) && Seconds(pts, tb) >= firstMin
    requires Time(duration) + error >= 0.0
    ensures Seconds(pts + RescaleQ(duration.ts, duration.tb, tb), tb) + error + ConversionError(duration.tb,
      tb) >= firstMin
    ensures EarlierAtMost(passes,
      Seconds(pts + RescaleQ(duration.ts, duration.tb, tb), tb) + error + ConversionError(duration.tb, tb))
  {
    hide Seconds, RescaleQ, ConversionError, EarlierAtMost;
    var offset := RescaleQ(duration.ts, duration.tb, tb);
    ConversionNear(duration.ts, duration.tb, tb);
    SecondsAdd(pts, offset, tb);
    EarlierMore(passes, firstMin + Time(duration) + error,
      Seconds(pts + offset, tb) + error + ConversionError(duration.tb, tb));
  }

  /** The duration leads from the earliest time to the latest, up to rounding. */
  lemma DurationNear(min: Timestamp, max: Timestamp, duration: Timestamp)
    requires duration == Timestamp(max.ts - RescaleQ(min.ts, min.tb, max.tb), max.tb)
    ensures var error := ConversionError(min.tb, max.tb);
      Time(max) - error <= Time(min) + Time(duration) <= Time(max) + error
  {
    hide Seconds, RescaleQ, ConversionError;
    var m := RescaleQ(min.ts, min.tb, max.tb);
    ConversionNear(min.ts, min.tb, max.tb);
    SecondsAdd(max.ts - m, m, max.tb);
  }

  /** What a new pass begins with. */
  lemma BeginPass(passes: seq<seq<Timestamp>>, min: Timestamp, max0: Timestamp, max: Timestamp, duration: Timestamp,
      firstMin: real)
    requires AllBetween(passes, Time(min), Time(max0)) && Time(min) <= Time(max0) <= Time(max) && Time(min) <= firstMin
    requires duration == Timestamp(max.ts - RescaleQ(min.ts, min.tb, max.tb), max.tb)
    ensures var error := ConversionError(min.tb, max.tb);
      && Time(max) - error <= Time(min) + Time(duration) <= Time(max) + error
      && Time(duration) + error >= 0.0
      && AllBetween(passes, Time(min), Time(max)) && AllBetween(passes + [[]], Time(min), Time(max))
      && EarlierAtMost(passes + [[]], firstMin + Time(duration) + error)
  {
    hide AllBetween, EarlierAtMost, Time, ConversionError, RescaleQ;
    var error := ConversionError(min.tb, max.tb);
    DurationNear(min, max, duration);
    NewPass(passes, Time(min), Time(max0), Time(max));
    EarlierMore(passes + [[]], Time(max), firstMin + Time(duration) + error);
  }

  /** The same if the latest time becomes that of the decoders, should it be later. */
  lemma BeginPassAt(passes: seq<seq<Timestamp>>, min: Timestamp, max0: Timestamp, endPts: Timestamp, max: Timestamp,
      duration: Timestamp, firstMin: real)
    requires AllBetween(passes, Time(min), Time(max0)) && Time(min) <= Time(max0) && Time(min) <= firstMin
    requires max0.ts != NOPTS && max == if endPts.ts == NOPTS then max0 else LaterOf(max0, endPts)
    requires duration == Timestamp(max.ts - RescaleQ(min.ts, min.tb, max.tb), max.tb)
    ensures var error := ConversionError(min.tb, max.tb);
      && Time(max0) <= Time(max) && Time(duration) + error >= 0.0
      && AllBetween(passes, Time(min), Time(max)) && AllBetween(passes + [[]], Time(min), Time(max))
      && EarlierAtMost(passes + [[]], firstMin + Time(duration) + error)
  {
    hide AllBetween, EarlierAtMost, Time, ConversionError, RescaleQ;
    ExtremesAreExact(max0, endPts);
    BeginPass(passes, min, max0, max, duration, firstMin);
  }

  class LoopTracker {
    /** The end of the file is known from an audio decoder, so durations do not count. */
    const haveAudioDec: bool
    /** By how much the next pass is shifted, and the extreme timestamps seen in any. */
    var duration: Timestamp
    var minPts: Timestamp
    var maxPts: Timestamp
    var loop: int
    /** The shifted timestamps of each pass; the last pass is the current one. */
    ghost var passes: seq<seq<Timestamp>>
    /** The earliest time in the first pass, and how far the duration is off by rounding. */
    ghost var firstMin: real
    ghost var durationError: real
    /** So far no packet had a negative duration, the first pass had a timestamp, no later
        one began before its earliest, and no timestamp has overflowed. */
    ghost var regular: bool

    ghost predicate Valid()
      reads this
    {
      passes != [] && durationError >= 0.0 && (regular ==>
        && (minPts.ts == NOPTS ==> maxPts.ts == NOPTS && |passes| == 1 && passes[0] == [])
        && (minPts.ts != NOPTS ==>
             && maxPts.ts != NOPTS && Time(minPts) <= firstMin && Time(minPts) <= Time(maxPts)
             && AllBetween(passes, Time(minPts), Time(maxPts)))
        && (|passes| == 1 ==> duration.ts == 0 && (minPts.ts != NOPTS ==> firstMin == Time(minPts)))
        && (|passes| > 1 ==>
             && Time(duration) + durationError >= 0.0
             && EarlierAtMost(passes, firstMin + Time(duration) + durationError)))
    }

    constructor (haveAudioDec: bool, loop: int)
      ensures Valid() && passes == [[]] && regular
      ensures duration == Timestamp(0, Rational(1, 1)) && minPts == maxPts == UNKNOWN
      ensures this.haveAudioDec == haveAudioDec && this.loop == loop
    {
      this.haveAudioDec := haveAudioDec;
      this.loop := loop;
      duration := Timestamp(0, Rational(1, 1));
      minPts, maxPts := UNKNOWN, UNKNOWN;
      passes, regular, firstMin, durationError := [[]], true, 0.0, 0.0;
    }

    /** How far back a packet of a later pass may go. */
    ghost function ShiftError(pktTb: TimeBase): real
      reads this`duration, this`durationError
    {
      durationError + ConversionError(duration.tb, pktTb)
    }

    /** The part of ts_fixup that shifts a packet by the duration of the passes before
        and keeps track of the extreme timestamps. */
    method Shift(pts: int, pktDuration: int, pktTb: TimeBase) returns (shifted: int)
      requires Valid() && pts > NOPTS
      modifies this`minPts, this`maxPts, this`passes, this`regular, this`firstMin
      ensures Valid() && passes == Record(old(passes), Timestamp(shifted, pktTb))
      ensures shifted == pts + RescaleQ(duration.ts, duration.tb, pktTb)
      ensures regular == (old(regular) && pktDuration >= 0 && shifted > NOPTS &&
        (|old(passes)| > 1 ==> Seconds(pts, pktTb) >= old(firstMin)))
      // in a regular run a later pass goes back behind an earlier one at most by rounding,
      // not at all if the time bases of this packet and of the extremes are the same
      ensures regular ==> EarlierAtMost(old(passes), Seconds(shifted, pktTb) + ShiftError(pktTb))
      ensures regular && |passes| == 1 ==> shifted == pts
      // the extremes are those of the timestamps, or of the ends of the packets
      ensures
        var end := Timestamp(shifted + if haveAudioDec then 0 else pktDuration, pktTb);
        && maxPts == LaterOf(old(maxPts), end) && minPts == EarlierOf(old(minPts), Timestamp(shifted, pktTb))
      // and the earliest time is that of the first pass, unless rounding takes a packet there
      ensures regular && |passes| > 1 ==>
        && firstMin == old(firstMin) && Seconds(shifted, pktTb) + ShiftError(pktTb) >= firstMin
        && (ShiftError(pktTb) == 0.0 ==> minPts == old(minPts))
    {
      hide AllBetween, EarlierAtMost, LaterOf, EarlierOf, RescaleQ, InPass, Record, Seconds, Unit, ConversionError;
      ghost var before, min0, max0 := passes, minPts, maxPts;
      var offset := RescaleQ(duration.ts, duration.tb, pktTb);
      var packetDuration := if haveAudioDec then 0 else pktDuration;
      shifted := pts + offset;
      regular := regular && pktDuration >= 0 && shifted > NOPTS && (|passes| > 1 ==> Seconds(pts, pktTb) >= firstMin);
      ghost var now, end := Timestamp(shifted, pktTb), Timestamp(shifted + packetDuration, pktTb);
      ExtremesAreExact(maxPts, end);
      ExtremesAreExact(minPts, now);
      maxPts := LaterOf(maxPts, Timestamp(shifted + packetDuration, pktTb));
      minPts := EarlierOf(minPts, Timestamp(shifted, pktTb));
      passes := Record(passes, now);
      if regular {
        SecondsMonotone(shifted + packetDuration, shifted, pktTb);
        assert Time(now) <= Time(end);
        if |before| == 1 {
          RescaleZero(duration.tb, pktTb);
          NothingEarlier(before, Seconds(shifted, pktTb) + ShiftError(pktTb));
          firstMin := Time(minPts);
        } else {
          FollowsEarlier(before, pts, duration, pktTb, firstMin, durationError);
        }
        if min0.ts == NOPTS {
          assert AllBetween(before, Time(now), Time(now));
          RecordKeeps(before, now, Time(now), Time(now), Time(minPts), Time(maxPts));
        } else {
          RecordKeeps(before, now, Time(min0), Time(max0), Time(minPts), Time(maxPts));
        }
      }
    }

    /** The first part of seek_to_start: where everything so far has ended, and by how much the
        next pass is shifted. */
    method TakeEnd(endPts: Timestamp)
      modifies this`maxPts, this`duration, this`durationError
      ensures maxPts == if endPts.ts == NOPTS then old(maxPts) else LaterOf(old(maxPts), endPts)
      ensures duration.tb == maxPts.tb && durationError == ConversionError(minPts.tb, maxPts.tb)
      ensures minPts.ts != NOPTS && maxPts.ts != NOPTS ==>
        && duration == Timestamp(maxPts.ts - RescaleQ(minPts.ts, minPts.tb, maxPts.tb), maxPts.tb)
        && Time(maxPts) - durationError <= Time(minPts) + Time(duration) <= Time(maxPts) + durationError
      ensures old(maxPts).ts != NOPTS ==> maxPts.ts != NOPTS
      ensures minPts.ts == NOPTS && maxPts.ts != NOPTS ==> duration == maxPts
      ensures maxPts.ts == NOPTS ==> duration.ts == old(duration).ts
    {
      hide RescaleQ, ConversionError, Time, LaterOf;
      ExtremesAreExact(maxPts, endPts);
      if endPts.ts != NOPTS {
        maxPts := LaterOf(maxPts, endPts);
      }
      RescaleZero(minPts.tb, maxPts.tb);
      if maxPts.ts != NOPTS {
        var min := if minPts.ts == NOPTS then 0 else minPts.ts;
        duration := Timestamp(maxPts.ts - RescaleQ(min, minPts.tb, maxPts.tb), duration.tb);
      }
      duration := Timestamp(duration.ts, maxPts.tb);
      durationError := ConversionError(minPts.tb, maxPts.tb);
      if minPts.ts != NOPTS && maxPts.ts != NOPTS {
        DurationNear(minPts, maxPts, duration);
      }
    }

    /** seek_to_start: begin another pass.  `endPts` is the end that the decoders report. */
    method SeekToStart(endPts: Timestamp)
      requires Valid() && endPts.ts >= NOPTS
      modifies this`maxPts, this`duration, this`loop, this`passes, this`regular, this`durationError
      ensures Valid() && passes == old(passes) + [[]]
      ensures regular == (old(regular) && minPts.ts != NOPTS)
      ensures loop == if old(loop) > 0 then old(loop) - 1 else old(loop)
      // the next pass starts where everything so far has ended
      ensures maxPts == if endPts.ts == NOPTS then old(maxPts) else LaterOf(old(maxPts), endPts)
      ensures regular ==> AllBetween(old(passes), Time(minPts), Time(maxPts))
      ensures duration.tb == maxPts.tb && durationError == ConversionError(minPts.tb, maxPts.tb)
      ensures minPts.ts != NOPTS && maxPts.ts != NOPTS ==>
        Time(maxPts) - durationError <= Time(minPts) + Time(duration) <= Time(maxPts) + durationError
      ensures regular ==> minPts.ts != NOPTS && maxPts.ts != NOPTS
      // without an earliest timestamp it counts from zero, and without a latest one it is kept
      ensures minPts.ts == NOPTS && maxPts.ts != NOPTS ==> duration == maxPts
      ensures maxPts.ts == NOPTS ==> duration.ts == old(duration).ts
    {
      hide AllBetween, EarlierAtMost, LaterOf, RescaleQ, Seconds, Unit, ConversionError, Record, InPass, Time, MaxTime,
        MinTime, CompareTs, EarlierOf;
      ghost var before, max0 := passes, maxPts;
      regular := regular && minPts.ts != NOPTS;
      TakeEnd(endPts);
      if loop > 0 {
        loop := loop - 1;
      }
      passes := passes + [[]];
      if regular {
        BeginPassAt(before, minPts, max0, endPts, maxPts, duration, firstMin);
      }
    }
  }
}
