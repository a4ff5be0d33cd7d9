/** The muxer's last repair of timestamps: mux_fixup_ts over a run of packets of one
    stream. */
module MuxFixup {
  import opened Packets
  import opened Results
  import opened Timestamps

  // --- the order of dts ------------------------------------------------------------------

  ghost function Step(nonStrict: bool): int { if nonStrict then 0 else 1 }

  /** The dts continues after `last`: it is greater, or not smaller if the format permits it. */
  ghost predicate Continues(last: int, dts: int, nonStrict: bool) {
    last + Step(nonStrict) <= dts
  }

  ghost predicate Late(dts: int, last: int, nonStrict: bool) {
    dts != NOPTS && last != NOPTS && !Continues(last, dts, nonStrict)
  }

  ghost predicate PtsNotBeforeDts(p: Packet) {
    p.pts != NOPTS && p.dts != NOPTS ==> p.dts <= p.pts
  }

  /** The packets from i to j all have a dts. */
  ghost predicate Block(ps: seq<Packet>, i: int, j: int) {
    0 <= i <= j < |ps| && forall k :: i <= k <= j ==> ps[k].dts != NOPTS
  }

  /** The order holds between any packets with no untimed one from the first to the last. */
  ghost predicate BlocksInOrder(ps: seq<Packet>, nonStrict: bool) {
    forall i, j :: i < j && Block(ps, i, j) ==> Continues(ps[i].dts, ps[j].dts, nonStrict)
  }

  /** The order holds between all packets that have a dts. */
  ghost predicate InOrder(ps: seq<Packet>, nonStrict: bool) {
    forall i, j :: 0 <= i < j < |ps| && ps[i].dts != NOPTS && ps[j].dts != NOPTS ==>
      Continues(ps[i].dts, ps[j].dts, nonStrict)
  }

  ghost predicate AllTimed(ps: seq<Packet>) {
    forall i :: 0 <= i < |ps| ==> ps[i].dts != NOPTS
  }

  /** Without untimed packets there is one block, so all is in order. */
  lemma AllTimedInOrder(ps: seq<Packet>, nonStrict: bool)
    requires AllTimed(ps) && BlocksInOrder(ps, nonStrict)
    ensures InOrder(ps, nonStrict)
  {
    forall i, j | 0 <= i < j < |ps|
      ensures Continues(ps[i].dts, ps[j].dts, nonStrict)
    {
      assert Block(ps, i, j);
    }
  }

  /** The dts of the last packet that has one. */
  ghost function LastTimed(ps: seq<Packet>): (last: int)
    ensures last == NOPTS <==> forall i :: 0 <= i < |ps| ==> ps[i].dts == NOPTS
    ensures last != NOPTS ==> exists i :: 0 <= i < |ps| && ps[i].dts == last
  {
    if ps == [] then NOPTS
    else
      var p := ps[|ps| - 1];
      if p.dts != NOPTS then p.dts else LastTimed(ps[..|ps| - 1])
  }

  /** After a packet with a dts, that is the last one. */
  lemma LastTimedIsLast(ps: seq<Packet>)
    ensures ps != [] && ps[|ps| - 1].dts != NOPTS ==> LastTimed(ps) == ps[|ps| - 1].dts
  {
  }

  lemma {:induction false} LastIsGreatest(ps: seq<Packet>, nonStrict: bool, i: nat)
    requires InOrder(ps, nonStrict) && i < |ps| && ps[i].dts != NOPTS
    ensures LastTimed(ps) != NOPTS && ps[i].dts <= LastTimed(ps)
    decreases |ps|
  {
    var n := |ps| - 1;
    if ps[n].dts == NOPTS {
      assert ps[..n][i] == ps[i];
      LastIsGreatest(ps[..n], nonStrict, i);
    }
  }

  /** One more packet keeps the order of blocks if it continues after the packet before it,
      unless one of the two has no dts. */
  lemma BlocksExtend(ps: seq<Packet>, r: Packet, nonStrict: bool)
    requires BlocksInOrder(ps, nonStrict)
    requires ps != [] && r.dts != NOPTS && ps[|ps| - 1].dts != NOPTS ==>
      Continues(ps[|ps| - 1].dts, r.dts, nonStrict)
    ensures BlocksInOrder(ps + [r], nonStrict)
  {
    var qs := ps + [r];
    forall i, j | i < j && Block(qs, i, j)
      ensures Continues(qs[i].dts, qs[j].dts, nonStrict)
    {
      assert forall k :: i <= k <= j && k < |ps| ==> qs[k] == ps[k] && ps[k].dts != NOPTS;
      if j < |ps| {
        assert Block(ps, i, j);
      } else {
        assert ps[j - 1].dts != NOPTS;
        if i < j - 1 {
          assert Block(ps, i, j - 1);
        }
      }
    }
  }

  /** And it keeps the whole order if and only if it continues after the last packet that
      has a dts. */
  lemma OrderExtends(ps: seq<Packet>, r: Packet, nonStrict: bool)
    ensures InOrder(ps + [r], nonStrict) <==>
      (InOrder(ps, nonStrict) && (r.dts != NOPTS && LastTimed(ps) != NOPTS ==>
        Continues(LastTimed(ps), r.dts, nonStrict)))
  {
    var qs := ps + [r];
    if InOrder(qs, nonStrict) {
      assert forall i :: 0 <= i < |ps| ==> qs[i] == ps[i];
      assert qs[|ps|] == r;
    } else if InOrder(ps, nonStrict) {
      var i, j :| 0 <= i < j < |qs| && qs[i].dts != NOPTS && qs[j].dts != NOPTS &&
        !Continues(qs[i].dts, qs[j].dts, nonStrict);
      assert j == |ps|;
      LastIsGreatest(ps, nonStrict, i);
    }
  }

  // --- the correction --------------------------------------------------------------------

  /** The guess the program computes from a sum, a minimum and a maximum. */
  function Guess(pts: int, dts: int, next: int): int {
    pts + dts + next - Min(pts, Min(dts, next)) - Max(pts, Max(dts, next))
  }

  /** It is the median of the three. */
  lemma GuessIsMedian(pts: int, dts: int, next: int)
    ensures Guess(pts, dts, next) == Median3(pts, dts, next)
  {
  }

  /** What the correction of a packet has to achieve; `corrected` tells that the order of
      dts matters in this format. */
  ghost predicate CorrectionOk(pts0: int, dts0: int, last: int, noTimestamps: bool, corrected: bool, nonStrict: bool,
      exitOnError: bool, ret: Ret, pts: int, dts: int)
  {
    if noTimestamps then
      ret == Ok && pts == pts0 && dts == dts0
    else
      // with dts after pts, both are first set to the median of the two and the next dts
      var swapped := pts0 != NOPTS && dts0 != NOPTS && pts0 < dts0;
      var p := if swapped then Median3(pts0, dts0, last + 1) else pts0;
      var d := if swapped then Median3(pts0, dts0, last + 1) else dts0;
      if corrected && Late(d, last, nonStrict) then
        // too late: an error, or moved to the earliest permitted dts, and pts no further than that
        var next := last + Step(nonStrict);
        && ret == (if exitOnError then Error else Ok)
        && (ret == Ok ==> dts == next && pts == if p == NOPTS then NOPTS else Max(p, next))
      else
        ret == Ok && pts == p && dts == d
  }

  /** The dts with which a packet leaves that follows an untimed one: its own, or its pts if
      that is earlier. */
  ghost function Unguided(pts: int, dts: int): int {
    if pts != NOPTS && dts != NOPTS && pts < dts then pts else dts
  }

  /** What a corrected packet is to those before it. */
  lemma CorrectionKeepsOrder(pkt: Packet, last: int, noTimestamps: bool, corrected: bool, nonStrict: bool,
      exitOnError: bool, ret: Ret, r: Packet)
    requires pkt.pts >= NOPTS && pkt.dts >= NOPTS && last >= NOPTS && (corrected ==> !noTimestamps)
    requires CorrectionOk(pkt.pts, pkt.dts, last, noTimestamps, corrected, nonStrict, exitOnError, ret, r.pts,
      r.dts) && ret == Ok
    ensures r.dts >= NOPTS
    ensures r.dts == NOPTS <==> pkt.dts == NOPTS
    ensures !noTimestamps ==> PtsNotBeforeDts(r)
    ensures corrected && r.dts != NOPTS && last != NOPTS ==> Continues(last, r.dts, nonStrict)
    ensures !noTimestamps && last == NOPTS ==> r.dts == Unguided(pkt.pts, pkt.dts)
  {
    MedianIsMiddle(pkt.pts, pkt.dts, last + 1);
  }

  /** A conversion that does not fit comes out as INT64_MIN, that is, as unknown. */
  function Checked(ts: int): (r: int)
    ensures r >= NOPTS
  {
    if -INT64_MAX <= ts <= INT64_MAX then ts else NOPTS
  }

  function RescaleKnown(ts: int, tb: TimeBase, tb': TimeBase): int {
    if ts == NOPTS then NOPTS else Checked(RescaleQ(ts, tb, tb'))
  }

  class MuxStream {
    const mediaType: MediaType
    /** The stream is copied, not encoded. */
    const streamcopy: bool
    /** The drop mode of frame-rate conversion: the muxer makes up all video timestamps. */
    const tsDrop: bool
    const streamTb: TimeBase
    const sampleRate: int
    /** AVFMT_NOTIMESTAMPS and AVFMT_TS_NONSTRICT. */
    const noTimestamps: bool
    const nonStrict: bool
    const exitOnError: bool

    var lastMuxDts: int
    var rescaleDeltaLast: int
    /** The packets that have been fixed successfully. */
    var muxed: seq<Packet>
    /** Every packet whose predecessor had no dts arrived with one that continues after the
        last dts before the gap. */
    ghost var gapsContinued: bool
    /** Where the last copied audio packet starts that was not in step with those before it, and
        the samples from there on. */
    ghost var anchor: int
    ghost var played: nat

    /** The formats and media types whose timestamps are corrected. */
    ghost predicate Corrected()
    {
      !noTimestamps && (mediaType.Audio? || mediaType.Video? || mediaType.Subtitle?)
    }

    /** The order of dts is kept within each block of timed packets, and across the gaps
        exactly if it was there on arrival. */
    ghost predicate Valid()
      reads this
    {
      && sampleRate > 0 && rescaleDeltaLast == anchor + played
      && lastMuxDts >= NOPTS && lastMuxDts == (if muxed == [] then NOPTS else muxed[|muxed| - 1].dts)
      && (Corrected() ==> BlocksInOrder(muxed, nonStrict))
      && (Corrected() ==> (InOrder(muxed, nonStrict) <==> gapsContinued))
      && (!noTimestamps ==> forall p :: p in muxed ==> PtsNotBeforeDts(p))
    }

    constructor (mediaType: MediaType, streamcopy: bool, tsDrop: bool, streamTb: TimeBase, sampleRate: int,
        noTimestamps: bool, nonStrict: bool, exitOnError: bool)
      requires sampleRate > 0
      ensures Valid() && muxed == [] && gapsContinued && rescaleDeltaLast == 0
      ensures this.mediaType == mediaType && this.noTimestamps == noTimestamps && this.nonStrict == nonStrict
      ensures this.streamTb == streamTb && this.streamcopy == streamcopy && this.tsDrop == tsDrop
      ensures this.exitOnError == exitOnError && this.sampleRate == sampleRate
    {
      this.mediaType, this.streamcopy, this.tsDrop := mediaType, streamcopy, tsDrop;
      this.streamTb, this.sampleRate := streamTb, sampleRate;
      this.noTimestamps, this.nonStrict, this.exitOnError := noTimestamps, nonStrict, exitOnError;
      lastMuxDts, rescaleDeltaLast, muxed, gapsContinued := NOPTS, 0, [], true;
      anchor, played := 0, 0;
    }

    /** Copied audio, whose timestamps go through av_rescale_delta. */
    predicate CopiedAudio() { mediaType.Audio? && streamcopy }

    /** A timestamp in the time base of the stream. */
    function Rescaled(ts: int, tb: TimeBase): int {
      if mediaType.Video? && tsDrop then NOPTS else RescaleKnown(ts, tb, streamTb)
    }

    /** How far the place of copied audio may move: half a unit of each time base and a sample. */
    ghost function CopyError(tb: TimeBase): real
      requires sampleRate > 0
    {
      0.5 * Unit(tb) + Unit(PerSecond(sampleRate)) + 0.5 * Unit(streamTb)
    }

    /** That may be beyond what a timestamp can hold. */
    ghost predicate AtLimit(ts: int, tb: TimeBase)
      requires sampleRate > 0
    {
      || Seconds(ts, tb) + CopyError(tb) >= Seconds(INT64_MAX + 1, streamTb)
      || Seconds(ts, tb) - CopyError(tb) <= Seconds(-INT64_MAX - 1, streamTb)
    }

    /** The time base of the samples of copied audio. */
    function Samples(): TimeBase
      requires sampleRate > 0
    {
      PerSecond(sampleRate)
    }

    /** The time base of the packets is so coarse that their timestamps do not tell where exactly
        they belong. */
    predicate Coarse(tb: TimeBase) { tb.num * streamTb.den > streamTb.num * tb.den }

    /** A copied audio packet whose timestamp is next to the end of the packet before it. */
    ghost predicate InStep(pkt: Packet, frameSamples: nat)
      requires sampleRate > 0
      reads this`rescaleDeltaLast
    {
      && CopiedAudio() && frameSamples > 0 && rescaleDeltaLast != NOPTS && Coarse(pkt.tb)
      && Rounded(pkt.dts, pkt.tb, rescaleDeltaLast, Samples())
    }

    /** A copied audio packet whose timestamp says where it belongs: in a time base that is not
        coarse, or after a gap. */
    ghost predicate OnItsOwn(pkt: Packet, frameSamples: nat)
      requires sampleRate > 0
      reads this`rescaleDeltaLast
    {
      CopiedAudio() &&
      (!Coarse(pkt.tb) || rescaleDeltaLast == NOPTS || frameSamples == 0 ||
       !Near(Seconds(rescaleDeltaLast, Samples()), Seconds(pkt.dts, pkt.tb), 1.5 * Unit(pkt.tb) + 3.0 * Unit(Samples())))
    }

    /** A timestamp that is unknown does not fit, and is next to one that is to be near. */
    lemma UnknownAtLimit(ts: int, tb: TimeBase, x: int)
      requires sampleRate > 0 && Near(Seconds(x, streamTb), Seconds(ts, tb), CopyError(tb))
      ensures x > INT64_MAX || x < -INT64_MAX ==> AtLimit(ts, tb)
    {
      SecondsMonotone(INT64_MAX + 1, x, streamTb);
      SecondsMonotone(x, INT64_MAX + 1, streamTb);
      SecondsMonotone(x, -INT64_MAX - 1, streamTb);
      SecondsMonotone(-INT64_MAX - 1, x, streamTb);
      hide Seconds;
    }

    /** What becomes of a packet in the time base of the stream. */
    ghost predicate RescaledOk(pkt: Packet, r: Packet)
      requires sampleRate > 0
    {
      && r.tb == streamTb && r.pts >= NOPTS && r.dts >= NOPTS
      && (if CopiedAudio() then
            // it has one timestamp, next to where it was
            && r.pts == r.dts
            && (r.dts != NOPTS ==> Near(Seconds(r.dts, streamTb), Seconds(pkt.dts, pkt.tb), CopyError(pkt.tb)))
            // and loses it only if that may not fit
            && (r.dts == NOPTS ==> AtLimit(pkt.dts, pkt.tb))
            && r.duration == RescaleQ(pkt.duration, pkt.tb, streamTb)
          else
            && r.pts == Rescaled(pkt.pts, pkt.tb) && r.dts == Rescaled(pkt.dts, pkt.tb)
            && r.duration == if pkt.duration > 0 then RescaleQ(pkt.duration, pkt.tb, streamTb) else pkt.duration)
    }

    /** av_rescale_delta on a copied audio packet: its dts in the time base of the stream. */
    method CopyTs(pkt: Packet, frameSamples: nat) returns (dts: int)
      requires sampleRate > 0 && CopiedAudio() && rescaleDeltaLast == anchor + played
      modifies this`rescaleDeltaLast, this`anchor, this`played
      ensures dts >= NOPTS
      ensures dts != NOPTS ==> Near(Seconds(dts, streamTb), Seconds(pkt.dts, pkt.tb), CopyError(pkt.tb))
      ensures dts == NOPTS ==> AtLimit(pkt.dts, pkt.tb)
      ensures rescaleDeltaLast == anchor + played
      ensures old(InStep(pkt, frameSamples)) ==>
        && anchor == old(anchor) && played == old(played) + frameSamples
        && dts == Checked(RescaleQ(old(anchor + played), Samples(), streamTb))
      ensures !old(InStep(pkt, frameSamples)) ==>
        played == frameSamples &&
        Near(Seconds(anchor, Samples()), Seconds(pkt.dts, pkt.tb), 0.5 * Unit(pkt.tb) + Unit(Samples()))
      ensures old(OnItsOwn(pkt, frameSamples)) ==> dts == Checked(RescaleQ(pkt.dts, pkt.tb, streamTb))
    {
      var last := rescaleDeltaLast;
      var converted := RescaleDelta(pkt.tb, pkt.dts, Samples(), frameSamples, last, streamTb);
      RescaleDeltaNear(pkt.tb, pkt.dts, Samples(), frameSamples, last, streamTb);
      RescaleDeltaStart(pkt.tb, pkt.dts, Samples(), frameSamples, last, streamTb);
      UnknownAtLimit(pkt.dts, pkt.tb, converted.0);
      if OnItsOwn(pkt, frameSamples) && Coarse(pkt.tb) && last != NOPTS && frameSamples > 0 {
        RescaleDeltaFar(pkt.tb, pkt.dts, Samples(), frameSamples, last, streamTb);
      }
      if InStep(pkt, frameSamples) {
        RescaleDeltaInStep(pkt.tb, pkt.dts, Samples(), frameSamples, last, streamTb);
        played := played + frameSamples;
      } else {
        anchor, played := converted.1 - frameSamples, frameSamples;
      }
      hide RescaleQ, RescaleQRnd, Seconds, Rounded, Near, AtLimit;
      rescaleDeltaLast := converted.1;
      dts := Checked(converted.0);
    }

    /** The first half of mux_fixup_ts: convert to the time base of the stream.
        `frameSamples` is the duration of a copied audio packet in samples. */
    method Rescale(pkt: Packet, frameSamples: nat) returns (r: Packet)
      requires sampleRate > 0 && rescaleDeltaLast == anchor + played
      requires CopiedAudio() ==> pkt.dts != NOPTS
      modifies this`rescaleDeltaLast, this`anchor, this`played
      ensures RescaledOk(pkt, r) && r.id == pkt.id && r.size == pkt.size
      // copied audio: however many packets are in step, each starts exactly where the samples of
      // those before it end, rounded once
      ensures rescaleDeltaLast == anchor + played
      ensures old(InStep(pkt, frameSamples)) ==>
        && anchor == old(anchor) && played == old(played) + frameSamples
        && r.dts == Checked(RescaleQ(old(anchor + played), Samples(), streamTb))
      ensures CopiedAudio() && !old(InStep(pkt, frameSamples)) ==>
        played == frameSamples &&
        Near(Seconds(anchor, Samples()), Seconds(pkt.dts, pkt.tb), 0.5 * Unit(pkt.tb) + Unit(Samples()))
      ensures old(OnItsOwn(pkt, frameSamples)) ==> r.dts == Checked(RescaleQ(pkt.dts, pkt.tb, streamTb))
      ensures !CopiedAudio() ==> anchor == old(anchor) && played == old(played)
    {
      hide RescaleQ, RescaleDelta, Seconds, Rounded, Near, AtLimit, CopyError;
      var pts, dts := pkt.pts, pkt.dts;
      if mediaType.Video? && tsDrop {
        pts, dts := NOPTS, NOPTS;
      }
      if mediaType.Audio? && streamcopy {
        var ts := CopyTs(pkt, frameSamples);
        r := pkt.(pts := ts, dts := ts, duration := RescaleQ(pkt.duration, pkt.tb, streamTb), tb := streamTb);
      } else {
        r := pkt.(
          pts := RescaleKnown(pts, pkt.tb, streamTb),
          dts := RescaleKnown(dts, pkt.tb, streamTb),
          duration := if pkt.duration > 0 then RescaleQ(pkt.duration, pkt.tb, streamTb) else pkt.duration,
          tb := streamTb);
      }
    }

    method CorrectTs(pts0: int, dts0: int, last: int) returns (ret: Ret, pts: int, dts: int)
      requires pts0 >= NOPTS && dts0 >= NOPTS && last >= NOPTS
      ensures CorrectionOk(pts0, dts0, last, noTimestamps, Corrected(), nonStrict, exitOnError, ret, pts, dts)
      ensures ret == Ok || (ret == Error && exitOnError)
    {
      pts, dts := pts0, dts0;
      if !noTimestamps {
        if dts != NOPTS && pts != NOPTS && dts > pts {
          GuessIsMedian(pts, dts, last + 1);
          MedianIsMiddle(pts, dts, last + 1);
          pts := Guess(pts, dts, last + 1);
          dts := pts;
        }
        if (mediaType.Audio? || mediaType.Video? || mediaType.Subtitle?) && dts != NOPTS && last != NOPTS {
          var max := last + if nonStrict then 0 else 1;
          if dts < max {
            if exitOnError {
              return Error, pts, dts;
            }
            if pts >= dts {
              pts := Max(pts, max);
            }
            dts := max;
          }
        }
      }
      return Ok, pts, dts;
    }

    /** The packet is the first timed one after a gap, and does not continue after the last
        dts before it. */
    ghost predicate BreaksOrder(pkt: Packet)
      reads this`lastMuxDts, this`muxed
    {
      var dts := Unguided(pkt.pts, pkt.dts);
      lastMuxDts == NOPTS && LastTimed(muxed) != NOPTS && dts != NOPTS && !Continues(LastTimed(muxed), dts, nonStrict)
    }

    /** The second half of mux_fixup_ts, on a packet in the time base of the stream. */
    method Correct(pkt: Packet) returns (ret: Ret, r: Packet)
      requires Valid() && pkt.pts >= NOPTS && pkt.dts >= NOPTS
      modifies this`lastMuxDts, this`muxed, this`gapsContinued
      ensures Valid()
      ensures r == pkt.(pts := r.pts, dts := r.dts)
      ensures CorrectionOk(pkt.pts, pkt.dts, old(lastMuxDts), noTimestamps, Corrected(), nonStrict, exitOnError,
        ret, r.pts, r.dts)
      ensures ret == Ok || (ret == Error && exitOnError && muxed == old(muxed) && gapsContinued == old(gapsContinued))
      ensures ret == Ok ==> muxed == old(muxed) + [r]
      // the order is lost exactly with a packet after a gap that arrives too late
      ensures ret == Ok ==> gapsContinued == (old(gapsContinued) && !old(BreaksOrder(pkt)))
      ensures ret == Ok && Corrected() && r.dts != NOPTS && old(LastTimed(muxed)) != NOPTS ==>
        (Continues(old(LastTimed(muxed)), r.dts, nonStrict) <==> !old(BreaksOrder(pkt)))
    {
      hide CorrectionOk, InOrder, BlocksInOrder, LastTimed;
      var pts, dts;
      ret, pts, dts := CorrectTs(pkt.pts, pkt.dts, lastMuxDts);
      r := pkt.(pts := pts, dts := dts);
      if ret == Ok {
        CorrectionKeepsOrder(pkt, lastMuxDts, noTimestamps, Corrected(), nonStrict, exitOnError, ret, r);
        if Corrected() {
          BlocksExtend(muxed, r, nonStrict);
          OrderExtends(muxed, r, nonStrict);
          LastTimedIsLast(muxed);
        }
        gapsContinued := gapsContinued && !BreaksOrder(pkt);
        lastMuxDts := dts;
        muxed := muxed + [r];
      }
    }

    /** mux_fixup_ts, as write_packet calls it for one packet after another. */
    method FixupTs(pkt: Packet, frameSamples: nat) returns (ret: Ret, r: Packet, ghost arrived: Packet)
      requires Valid()
      requires CopiedAudio() ==> pkt.dts != NOPTS
      modifies this
      ensures Valid()
      // `arrived` is the packet in the time base of the stream
      ensures RescaledOk(pkt, arrived) && r == arrived.(pts := r.pts, dts := r.dts)
      ensures r.id == pkt.id && r.size == pkt.size
      ensures old(InStep(pkt, frameSamples)) ==>
        && anchor == old(anchor) && played == old(played) + frameSamples
        && arrived.dts == Checked(RescaleQ(old(anchor + played), Samples(), streamTb))
      ensures CopiedAudio() && !old(InStep(pkt, frameSamples)) ==>
        played == frameSamples &&
        Near(Seconds(anchor, Samples()), Seconds(pkt.dts, pkt.tb), 0.5 * Unit(pkt.tb) + Unit(Samples()))
      ensures old(OnItsOwn(pkt, frameSamples)) ==> arrived.dts == Checked(RescaleQ(pkt.dts, pkt.tb, streamTb))
      ensures CorrectionOk(arrived.pts, arrived.dts, old(lastMuxDts), noTimestamps, Corrected(), nonStrict,
        exitOnError, ret, r.pts, r.dts)
      ensures ret == Ok || (ret == Error && exitOnError && muxed == old(muxed) && gapsContinued == old(gapsContinued))
      ensures ret == Ok ==> muxed == old(muxed) + [r]
      ensures ret == Ok ==> gapsContinued == (old(gapsContinued) && !old(BreaksOrder(arrived)))
      ensures ret == Ok && Corrected() && r.dts != NOPTS && old(LastTimed(muxed)) != NOPTS ==>
        (Continues(old(LastTimed(muxed)), r.dts, nonStrict) <==> !old(BreaksOrder(arrived)))
    {
      hide CorrectionOk, RescaleQ, Seconds, Rounded, Near, AtLimit, CopyError, BlocksInOrder, InOrder;
      r := Rescale(pkt, frameSamples);
      arrived := r;
      ret, r := Correct(r);
    }
  }

  /** The order does get lost.  A packet without a dts reaches the muxer when a bitstream
      filter has cleared it (a copied packet gets an estimate first, ffmpeg_mux.c:492); the
      muxer then forgets where it was, and takes a dts from before. */
  method UntimedPacketBreaksOrder() returns (muxed: seq<Packet>)
    ensures BlocksInOrder(muxed, false) && !InOrder(muxed, false)
  {
    var tb: TimeBase := Rational(1, 1000);
    var s := new MuxStream(Video, true, false, tb, 1, false, false, false);
    RescaleSame(10, tb);
    RescaleSame(5, tb);
    hide RescaleQ;
    var ret, first, untimed, last;
    ghost var arrived;
    ret, first, arrived := s.FixupTs(Packet(0, 10, 10, 1, tb, 0), 0);
    ret, untimed, arrived := s.FixupTs(Packet(1, NOPTS, NOPTS, 1, tb, 0), 0);
    ret, last, arrived := s.FixupTs(Packet(2, 5, 5, 1, tb, 0), 0);
    muxed := s.muxed;
    assert muxed == [first, untimed, last];
    assert !Continues(muxed[0].dts, muxed[2].dts, false);
  }
}
