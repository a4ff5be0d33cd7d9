/** Video frame-rate conversion: video_sync_process decides how often the current
    frame, and the one before it, go to the encoder; fg_output_frame sends them.

    Doubles are modelled by reals, llrint by rounding half to even. */
module VideoSync {
  import opened Results
  import opened Timestamps

  datatype Method = CFR | VSCFR | VFR | Passthrough | Drop

  /** The modes that make up the output timestamps, and those of them that leave no gaps. */
  predicate Generated(m: Method) { m.CFR? || m.VSCFR? || m.VFR? }

  predicate ConstantFps(m: Method) { m.CFR? || m.VSCFR? }

  /** A filtered frame; `pts` and `duration` are in units of the output time base and
      not rounded. */
  datatype Frame = Frame(id: int, pts: real, duration: real, key: bool)

  /** A frame sent to the encoder. */
  datatype Output = Output(pts: int, id: int, key: bool)

  // --- arithmetic ------------------------------------------------------------------------

  /** llrint: to nearest, ties to even. */
  function Llrint(x: real): (r: int)
    ensures x - 0.5 <= r as real <= x + 0.5
  {
    var f := x.Floor;
    var d := x - f as real;
    if d < 0.5 then f
    else if d > 0.5 then f + 1
    else if f % 2 == 0 then f
    else f + 1
  }

  /** Exactly between two, it goes to the even one. */
  lemma LlrintTie(n: int)
    ensures var r := Llrint(n as real + 0.5); r % 2 == 0 && (r == n || r == n + 1)
  {
  }

  lemma LlrintMonotone(x: real, y: real)
    requires x <= y
    ensures Llrint(x) <= Llrint(y)
  {
  }

  lemma LlrintAtLeast(x: real, n: int)
    requires x >= n as real
    ensures Llrint(x) >= n
  {
  }

  lemma LlrintAboveHalf(x: real, n: int)
    requires x > n as real + 0.5
    ensures Llrint(x) >= n + 1
  {
  }

  // --- the conversion ----------------------------------------------------------------------

  /** So many frames at once are taken for an error in the timestamps. */
  predicate Excessive(n: int, dtsErrorThreshold: real) {
    n as real > dtsErrorThreshold * 30.0
  }

  /** The frames to be sent that are no duplicates: the current one, and the previous
      one if it has not been sent yet. */
  function Again(nbFrames: int, nbPrev: int, lastDropped: int): int {
    Bit(nbPrev != 0 && lastDropped != 0) + Bit(nbFrames > nbPrev)
  }

  /** Output timestamps of the modes that generate them. */
  ghost predicate Ordered(sent: seq<Output>, nextPts: int) {
    && (forall i, j :: 0 <= i < j < |sent| ==> sent[i].pts < sent[j].pts)
    && (forall i :: 0 <= i < |sent| ==> sent[i].pts < nextPts)
  }

  /** With a constant rate there are no gaps. */
  ghost predicate Consecutive(sent: seq<Output>, nextPts: int) {
    && (forall i :: 0 <= i < |sent| ==> sent[i].pts == sent[0].pts + i)
    && (sent != [] ==> nextPts == sent[0].pts + |sent|)
  }

  lemma OrderKept(sent: seq<Output>, start: int, later: int)
    ensures start <= later && Ordered(sent, start) ==> Ordered(sent, later)
    ensures sent == [] ==> Consecutive(sent, later)
  {
  }

  /** There is a frame for each of n copies. */
  predicate HasSource(n: int, prev: int, last: Option<Frame>, frame: Option<Frame>) {
    frame.Some? || n <= 0 || (last.Some? && n <= prev)
  }

  /** The flag of the i-th of them: `due` is the flag of a key frame that was left out.  A
      frame loses its own flag when it has been sent once. */
  ghost function KeyAt(i: nat, prev: int, last: Option<Frame>, frame: Option<Frame>, due: bool): bool
    requires HasSource(i + 1, prev, last, frame)
  {
    || (i == 0 && due)
    || if i < prev && last.Some? then last.value.key else i <= prev && frame.value.key
  }

  /** n frames from timestamp `start` on: the previous frame `prev` times, then this one. */
  ghost function Copies(start: int, n: nat, prev: int, last: Option<Frame>, frame: Option<Frame>,
      due: bool): (r: seq<Output>)
    requires HasSource(n, prev, last, frame)
    ensures |r| == n
  {
    seq(n, i requires 0 <= i < n =>
      Output(start + i, if i < prev && last.Some? then last.value.id else frame.value.id,
        KeyAt(i, prev, last, frame, due)))
  }

  lemma CopiesStep(start: int, n: nat, prev: int, last: Option<Frame>, frame: Option<Frame>, due: bool)
    requires HasSource(n + 1, prev, last, frame)
    ensures Copies(start, n + 1, prev, last, frame, due) == Copies(start, n, prev, last, frame, due) +
      [Output(start + n, if n < prev && last.Some? then last.value.id else frame.value.id,
        KeyAt(n, prev, last, frame, due))]
  {
  }

  /** No key frame gets lost: its first copy has the flag, or if it was left out, whatever is
      sent next. */
  lemma KeyFramesKept(start: int, n: nat, prev: nat, last: Option<Frame>, frame: Option<Frame>, due: bool)
    requires HasSource(n, prev, last, frame)
    ensures var r := Copies(start, n, prev, last, frame, due);
      && (due && n > 0 ==> r[0].key)
      && (n > prev && frame.Some? && frame.value.key ==> r[prev].key && r[prev].id == frame.value.id)
  {
  }

  /** What is left of a frame's flag when n frames have been sent. */
  function AfterSending(frame: Option<Frame>, n: int, prev: int): (left: Option<Frame>)
    ensures left.Some? <==> frame.Some?
  {
    if frame.Some? && n > prev then Some(frame.value.(key := false)) else frame
  }

  lemma CopiesKeepOrder(sent: seq<Output>, start: int, n: nat, prev: int, last: Option<Frame>, frame: Option<Frame>,
      due: bool)
    requires HasSource(n, prev, last, frame)
    ensures Ordered(sent, start) ==> Ordered(sent + Copies(start, n, prev, last, frame, due), start + n)
    ensures Consecutive(sent, start) ==> Consecutive(sent + Copies(start, n, prev, last, frame, due), start + n)
  {
  }

  lemma AgainAtMost(nbFrames: int, nbPrev: int, lastDropped: int)
    requires 0 <= nbPrev <= nbFrames
    ensures 0 <= Again(nbFrames, nbPrev, lastDropped) <= nbFrames
  {
  }

  // --- what a decision has to achieve -----------------------------------------------------

  /** How far the output may lag behind the end of a frame, in output frames; half a frame
      more if the output begins with this frame, at the nearest timestamp. */
  ghost function Lag(threshold: real, begins: bool): real {
    (if threshold > 0.5 then threshold else 0.5) + if begins then 0.5 else 0.0
  }

  /** The frame ends at most that far beyond the output clock. */
  ghost predicate NotLagging(frame: Frame, clock: int, threshold: real, begins: bool) {
    frame.pts + frame.duration <= clock as real + Lag(threshold, begins)
  }

  /** The initial gap is skipped rather than filled. */
  predicate SkipsGap(m: Method, first: bool, clock: int, frame: Frame) {
    m == VSCFR && first && frame.pts - clock as real >= 0.5
  }

  /** A constant-rate decision, in terms of the output clock.  The start and the end of
      the frame lie `delta0` and `delta` ahead of it. */
  ghost predicate ConstantRateOk(delta0: real, delta: real, threshold: real, first: bool, wanted: int, nbPrev: int) {
    && 0 <= nbPrev <= wanted
    // a frame is left out exactly if its end lies too far behind
    && (wanted == 0 <==> delta < -1.1 || (threshold != 0.0 && delta < threshold && !first))
    // otherwise it is shown, and the clock ends up next to the end of the frame
    && (wanted > 0 && delta <= 1.1 ==> wanted == 1)
    && (wanted > 0 && delta > 1.1 ==> wanted as real - 0.5 <= delta <= wanted as real + 0.5)
    // the previous frame is repeated until shortly before the start of this one
    && (wanted > 0 ==> delta0 - nbPrev as real <= 1.1)
    && (nbPrev > 0 ==> delta0 - nbPrev as real >= 0.1)
  }

  /** The decision for a frame when the output clock stands at `clock`, and where it
      stands then. */
  ghost predicate DecisionOk(m: Method, threshold: real, first: bool, clock: int, frame: Frame,
      wanted: int, nbPrev: int, clock': int)
  {
    var delta0 := frame.pts - clock as real;
    var delta := delta0 + frame.duration;
    match m
    case CFR => clock' == clock && ConstantRateOk(delta0, delta, threshold, first, wanted, nbPrev)
    case VSCFR =>
      if SkipsGap(m, first, clock, frame) then
        clock' == Llrint(frame.pts) && ConstantRateOk(0.0, frame.duration, threshold, first, wanted, nbPrev)
      else
        clock' == clock && ConstantRateOk(delta0, delta, threshold, first, wanted, nbPrev)
    case VFR =>
      && nbPrev == 0 && wanted == Bit(delta > -0.6)
      && clock' == if delta > 0.6 then Max(clock, Llrint(frame.pts)) else clock
    case Passthrough => nbPrev == 0 && wanted == 1 && clock' == Llrint(frame.pts)
    case Drop => nbPrev == 0 && wanted == 1 && clock' == Llrint(frame.pts)
  }

  lemma DecisionBounds(m: Method, threshold: real, first: bool, clock: int, frame: Frame, wanted: int, nbPrev: int,
      clock': int)
    requires DecisionOk(m, threshold, first, clock, frame, wanted, nbPrev, clock')
    ensures 0 <= nbPrev <= wanted
    ensures Generated(m) ==> clock' >= clock
    ensures ConstantFps(m) && !first ==> clock' == clock
    ensures m == CFR ==> clock' == clock
  {
    if m == VSCFR && first && frame.pts - clock as real >= 0.5 {
      LlrintAtLeast(frame.pts, clock);
    }
  }

  /** The drift of a constant-rate output: once the frames of a call are sent, the
      frame ends at most Lag beyond the clock; and if any was sent, the clock is at
      most 2.1 beyond the end of the frame. */
  lemma DriftBound(m: Method, threshold: real, first: bool, clock: int, frame: Frame, wanted: int, nbPrev: int,
      clock': int)
    requires ConstantFps(m) && frame.duration >= 0.0
    requires DecisionOk(m, threshold, first, clock, frame, wanted, nbPrev, clock')
    ensures NotLagging(frame, clock' + wanted, threshold, SkipsGap(m, first, clock, frame))
    ensures wanted > 0 ==> (clock' + wanted) as real <= frame.pts + frame.duration + 2.1
  {
  }

  // --- the counters --------------------------------------------------------------------------

  /** A duplication is refused if there are duplicates and too many frames in all. */
  predicate Refused(wanted: int, nbPrev: int, lastDropped: int, dtsErrorThreshold: real) {
    wanted > Again(wanted, nbPrev, lastDropped) && Excessive(wanted, dtsErrorThreshold)
  }

  /** Frames are refused once, at 30 a second, they would fill more time than the threshold, unless
      none of them is a repetition. */
  lemma RefusedIff(wanted: int, nbPrev: int, lastDropped: int, dtsErrorThreshold: real)
    requires 0 <= nbPrev <= wanted
    ensures Refused(wanted, nbPrev, lastDropped, dtsErrorThreshold) <==>
      && wanted as real / 30.0 > dtsErrorThreshold
      && (wanted > 2 || (wanted == 2 && !(nbPrev == 1 && lastDropped != 0)) ||
          (wanted == 1 && nbPrev == 1 && lastDropped == 0))
  {
  }

  lemma NothingRefused(lastDropped: int, dtsErrorThreshold: real)
    ensures !Refused(0, 0, lastDropped, dtsErrorThreshold) && Again(0, 0, lastDropped) == 0
  {
  }

  /** The calls that count a frame as dropped once too often: one that refuses to
      duplicate a frame while an earlier one is still waiting and is not sent either,
      and the last one, if it finds a frame waiting and nothing to repeat, or if its
      own repetitions are refused. */
  ghost function Overcount(isLast: bool, wanted: int, nbPrev: int, lastDropped: int, dtsErrorThreshold: real): (n: int)
    ensures 0 <= n <= 1
  {
    var refused := Refused(wanted, nbPrev, lastDropped, dtsErrorThreshold);
    var unsent := lastDropped != 0 && nbPrev == 0;
    Bit(if isLast then refused || unsent else refused && unsent)
  }

  /** Before the last call it shows in the history: `usual` is the median of it. */
  lemma LastCallCounts(usual: int, lastDropped: int, dtsErrorThreshold: real)
    requires usual >= 0 && 0 <= lastDropped <= 1
    ensures Overcount(true, usual, usual, lastDropped, dtsErrorThreshold) == 1 <==>
      (usual == 0 && lastDropped == 1) || (usual > lastDropped && Excessive(usual, dtsErrorThreshold))
  {
  }

  /** The flush call marks a waiting frame twice, which changes nothing here. */
  lemma FlushedAlike(wanted: int, nbPrev: int, lastDropped: int, extra: int, dtsErrorThreshold: real)
    requires 0 <= extra <= lastDropped
    ensures Again(wanted, nbPrev, lastDropped + extra) == Again(wanted, nbPrev, lastDropped)
    ensures Refused(wanted, nbPrev, lastDropped + extra, dtsErrorThreshold) <==>
      Refused(wanted, nbPrev, lastDropped, dtsErrorThreshold)
    ensures Refused(wanted, nbPrev, lastDropped, dtsErrorThreshold) ==> wanted > Again(wanted, nbPrev, lastDropped)
  {
    hide Excessive;
  }

  /** What one call adds to the counters balances the frames it received and sends,
      but for a double count. */
  lemma CountersBalance(hasFrame: bool, wanted: int, nbPrev: int, lastDropped: int, dtsErrorThreshold: real,
      tooMany: bool, dups: int, drops: int, lastDropped': int)
    requires 0 <= nbPrev <= wanted && 0 <= lastDropped <= 1 && (!hasFrame ==> wanted == nbPrev)
    requires var flushed := lastDropped + Bit(!hasFrame && wanted == 0 && lastDropped != 0);
      && (tooMany <==> Refused(wanted, nbPrev, flushed, dtsErrorThreshold))
      && dups == (if tooMany then 0 else wanted - Again(wanted, nbPrev, flushed))
      && drops == flushed - lastDropped + Bit(nbPrev == 0 && flushed != 0) + Bit(tooMany)
      && lastDropped' == if tooMany then flushed else Bit(wanted == nbPrev && hasFrame)
    ensures (if tooMany then 0 else wanted) ==
      Bit(hasFrame) + dups - drops - Bit(lastDropped' != 0) + Bit(lastDropped != 0)
      + Overcount(!hasFrame, wanted, nbPrev, lastDropped, dtsErrorThreshold)
    ensures lastDropped' == if tooMany then lastDropped else Bit(wanted == nbPrev && hasFrame)
    ensures tooMany <==> Refused(wanted, nbPrev, lastDropped, dtsErrorThreshold)
    ensures Again(wanted, nbPrev, lastDropped) == Again(wanted, nbPrev,
      lastDropped + Bit(!hasFrame && wanted == 0 && lastDropped != 0))
  {
    FlushedAlike(wanted, nbPrev, lastDropped, Bit(!hasFrame && wanted == 0 && lastDropped != 0), dtsErrorThreshold);
    hide Refused;
  }

  /** A key frame is not sent itself. */
  predicate LeavesOutKey(frame: Option<Frame>, wanted: int, nbPrev: int, tooMany: bool) {
    frame.Some? && frame.value.key && wanted == nbPrev && !tooMany
  }

  class FpsConverter {
    const vsyncMethod: Method
    /** frame_drop_threshold and dts_error_threshold. */
    const frameDropThreshold: real
    const dtsErrorThreshold: real

    var nextPts: int
    var lastFrame: Option<Frame>
    var frameNumber: int
    /** How often the previous frame was repeated in the last three calls. */
    var hist: (int, int, int)
    /** Nonzero if the last frame has not been sent yet. */
    var lastDropped: int
    var nbDup: int
    var nbDrop: int
    /** A key frame was left out, and no frame has been sent since. */
    var droppedKey: bool
    /** No more frames are taken by the encoder. */
    var closed: bool
    /** The end of the output has been sent. */
    var eofSent: bool

    /** What has been sent, and how many frames have been received. */
    var sent: seq<Output>
    var received: int
    /** How often a frame has been counted as dropped once too many. */
    ghost var overcounted: int

    /** How many frames should have been sent: those received and duplicated, less those
        dropped and the one still waiting, but for the frames counted as dropped twice. */
    ghost function Balance(): int
      reads this`received, this`nbDup, this`nbDrop, this`lastDropped, this`overcounted
    {
      received + nbDup - nbDrop - Bit(lastDropped != 0) + overcounted
    }

    ghost predicate Valid()
      reads this
    {
      && frameNumber == |sent|
      && hist.0 >= 0 && hist.1 >= 0 && hist.2 >= 0
      && 0 <= lastDropped <= 1
      && overcounted >= 0
      && (Generated(vsyncMethod) ==> Ordered(sent, nextPts))
      && (ConstantFps(vsyncMethod) ==> Consecutive(sent, nextPts))
      && (!closed ==> |sent| == Balance() && (hist.0 > 0 || hist.1 > 0 || hist.2 > 0 ==> lastFrame.Some?))
    }

    constructor (vsyncMethod: Method, frameDropThreshold: real, dtsErrorThreshold: real)
      ensures Valid() && sent == [] && received == nbDup == nbDrop == overcounted == 0 && !closed && !eofSent &&
        !droppedKey
      ensures nextPts == 0 && hist == (0, 0, 0) && lastDropped == 0 && lastFrame.None?
      ensures this.vsyncMethod == vsyncMethod && this.frameDropThreshold == frameDropThreshold
      ensures this.dtsErrorThreshold == dtsErrorThreshold
    {
      this.vsyncMethod := vsyncMethod;
      this.frameDropThreshold := frameDropThreshold;
      this.dtsErrorThreshold := dtsErrorThreshold;
      nextPts, frameNumber, lastDropped, nbDup, nbDrop, received, overcounted := 0, 0, 0, 0, 0, 0, 0;
      lastFrame, hist, closed, eofSent, droppedKey, sent := None, (0, 0, 0), false, false, false, [];
    }

    /** The constant-rate case.  `delta` is how far the end of the frame lies ahead of
        the output clock, `delta0` how far its start does. */
    method ConstantRate(delta0: real, delta: real) returns (nbFrames: int, nbPrev: int)
      requires delta0 <= delta || delta0 <= 0.0
      ensures ConstantRateOk(delta0, delta, frameDropThreshold, frameNumber == 0, nbFrames, nbPrev)
    {
      nbFrames, nbPrev := 1, 0;
      if frameDropThreshold != 0.0 && delta < frameDropThreshold && frameNumber != 0 {
        nbFrames := 0;
      } else if delta < -1.1 {
        nbFrames := 0;
      } else if delta > 1.1 {
        nbFrames := Llrint(delta);
        LlrintAboveHalf(delta, 0);
        if delta0 > 1.1 {
          nbPrev := Llrint(delta0 - 0.6);
          LlrintAboveHalf(delta0 - 0.6, 0);
          LlrintMonotone(delta0 - 0.6, delta);
        }
      }
    }

    /** The switch over the sync methods: how often to send this frame and, of those,
        how often the previous one in its place. */
    method Decide(frame: Frame) returns (nbFrames: int, nbPrev: int)
      requires frame.duration >= 0.0
      modifies this`nextPts
      ensures DecisionOk(vsyncMethod, frameDropThreshold, frameNumber == 0, old(nextPts), frame, nbFrames, nbPrev,
        nextPts)
    {
      var duration := frame.duration;
      var syncIpts := frame.pts;
      var delta0 := syncIpts - nextPts as real;
      var delta := delta0 + duration;
      nbPrev := 0;
      nbFrames := 1;
      if delta0 < 0.0 && delta > 0.0 && vsyncMethod != Passthrough && vsyncMethod != Drop {
        syncIpts := nextPts as real;
        duration := duration + delta0;
        delta0 := 0.0;
      }
      if vsyncMethod == VSCFR && frameNumber == 0 && delta0 >= 0.5 {
        delta := duration;
        delta0 := 0.0;
        LlrintAtLeast(syncIpts, nextPts);
        nextPts := Llrint(syncIpts);
      }
      match vsyncMethod
      case VSCFR => nbFrames, nbPrev := ConstantRate(delta0, delta);
      case CFR => nbFrames, nbPrev := ConstantRate(delta0, delta);
      case VFR =>
        if delta <= -0.6 {
          nbFrames := 0;
        } else if delta > 0.6 {
          LlrintAtLeast(syncIpts, nextPts);
          nextPts := Llrint(syncIpts);
        }
      case Drop => nextPts := Llrint(syncIpts);
      case Passthrough => nextPts := Llrint(syncIpts);
    }

    /** The beginning of video_sync_process: without a frame, the last one is repeated as
        often as was usual. */
    method Plan(frame: Option<Frame>) returns (nbFrames: int, nbPrev: int)
      requires hist.0 >= 0 && hist.1 >= 0 && hist.2 >= 0
      requires frame.Some? ==> frame.value.duration >= 0.0
      modifies this`nextPts, this`lastDropped, this`nbDrop
      ensures 0 <= nbPrev <= nbFrames
      ensures frame.None? ==> nbFrames == nbPrev == Median3(hist.0, hist.1, hist.2) && nextPts == old(nextPts)
      ensures var again := Bit(frame.None? && nbFrames == 0 && old(lastDropped) != 0);
        nbDrop == old(nbDrop) + again && lastDropped == old(lastDropped) + again
      ensures frame.Some? ==>
        DecisionOk(vsyncMethod, frameDropThreshold, frameNumber == 0, old(nextPts), frame.value, nbFrames, nbPrev,
          nextPts)
    {
      hide DecisionOk, Median3;
      if frame.None? {
        MedianIsMiddle(hist.0, hist.1, hist.2);
        nbPrev := Median3(hist.0, hist.1, hist.2);
        nbFrames := nbPrev;
        if nbFrames == 0 && lastDropped != 0 {
          nbDrop := nbDrop + 1;
          lastDropped := lastDropped + 1;
        }
      } else {
        nbFrames, nbPrev := Decide(frame.value);
        DecisionBounds(vsyncMethod, frameDropThreshold, frameNumber == 0, old(nextPts), frame.value, nbFrames,
          nbPrev, nextPts);
      }
    }

    /** The end of video_sync_process: bring the history and the counters up to date. */
    method Account(frame: Option<Frame>, wanted: int, nbPrev: int) returns (nbFrames: int, ghost tooMany: bool)
      requires 0 <= nbPrev <= wanted
      modifies this`hist, this`lastDropped, this`droppedKey, this`nbDup, this`nbDrop
      ensures hist == (nbPrev, old(hist).0, old(hist).1)
      ensures tooMany <==> Refused(wanted, nbPrev, old(lastDropped), dtsErrorThreshold)
      ensures nbFrames == if tooMany then 0 else wanted
      ensures lastDropped == if tooMany then old(lastDropped) else Bit(wanted == nbPrev && frame.Some?)
      ensures droppedKey == (old(droppedKey) || LeavesOutKey(frame, wanted, nbPrev, tooMany))
      ensures nbDrop == old(nbDrop) + Bit(nbPrev == 0 && old(lastDropped) != 0) + Bit(tooMany)
      ensures nbDup == old(nbDup) + if tooMany then 0 else wanted - Again(wanted, nbPrev, old(lastDropped))
    {
      hide Again, Excessive, Bit;
      AgainAtMost(wanted, nbPrev, lastDropped);
      nbFrames := wanted;
      tooMany := false;
      hist := (nbPrev, hist.0, hist.1);
      if nbPrev == 0 && lastDropped != 0 {
        nbDrop := nbDrop + 1;
      }
      var again := Again(nbFrames, nbPrev, lastDropped);
      if nbFrames > again {
        if Excessive(nbFrames, dtsErrorThreshold) {
          nbDrop := nbDrop + 1;
          return 0, true;
        }
        nbDup := nbDup + nbFrames - again;
      }
      lastDropped := Bit(nbFrames == nbPrev && frame.Some?);
      droppedKey := droppedKey || (nbFrames == nbPrev && frame.Some? && frame.value.key);
    }

    /** video_sync_process.  `tooMany` tells that a duplication was refused. */
    method VideoSyncProcess(frame: Option<Frame>)
      returns (nbFrames: int, nbPrev: int, ghost tooMany: bool, ghost wanted: int)
      requires hist.0 >= 0 && hist.1 >= 0 && hist.2 >= 0 && 0 <= lastDropped <= 1
      requires frame.Some? ==> frame.value.duration >= 0.0
      modifies this`nextPts, this`hist, this`lastDropped, this`droppedKey, this`nbDup, this`nbDrop, this`received,
        this`overcounted
      ensures 0 <= nbPrev <= wanted && nbFrames == if tooMany then 0 else wanted
      ensures tooMany <==> Refused(wanted, nbPrev, old(lastDropped), dtsErrorThreshold)
      ensures hist == (nbPrev, old(hist).0, old(hist).1)
      ensures lastDropped == if tooMany then old(lastDropped) else Bit(wanted == nbPrev && frame.Some?)
      ensures droppedKey == (old(droppedKey) || LeavesOutKey(frame, wanted, nbPrev, tooMany))
      ensures frame.None? ==> nbPrev == Median3(old(hist).0, old(hist).1, old(hist).2) && nextPts == old(nextPts)
      ensures frame.None? ==> wanted == nbPrev
      ensures frame.Some? ==>
        DecisionOk(vsyncMethod, frameDropThreshold, frameNumber == 0, old(nextPts), frame.value, wanted, nbPrev, nextPts)
      // the frames to be sent are accounted for
      ensures received == old(received) + Bit(frame.Some?)
      ensures overcounted == old(overcounted) + Overcount(frame.None?, wanted, nbPrev, old(lastDropped),
        dtsErrorThreshold)
      ensures nbDup == old(nbDup) + if tooMany then 0 else wanted - Again(wanted, nbPrev, old(lastDropped))
      ensures Balance() == old(Balance()) + nbFrames
    {
      hide DecisionOk, Median3, ConstantRateOk, Refused, Overcount, Again, Bit;
      nbFrames, nbPrev := Plan(frame);
      wanted := nbFrames;
      nbFrames, tooMany := Account(frame, nbFrames, nbPrev);
      CountersBalance(frame.Some?, wanted, nbPrev, old(lastDropped), dtsErrorThreshold, tooMany,
        nbDup - old(nbDup), nbDrop - old(nbDrop), lastDropped);
      received := received + Bit(frame.Some?);
      overcounted := overcounted + Overcount(frame.None?, wanted, nbPrev, old(lastDropped), dtsErrorThreshold);
    }

    /** Valid, but for n frames that have been accounted for and not been sent yet. */
    ghost predicate AboutToSend(n: int, nbPrev: int, frame: Option<Frame>)
      reads this
    {
      && frameNumber == |sent|
      && hist.0 >= 0 && hist.1 >= 0 && hist.2 >= 0
      && 0 <= lastDropped <= 1
      && overcounted >= 0
      && (Generated(vsyncMethod) ==> Ordered(sent, nextPts))
      && (ConstantFps(vsyncMethod) ==> Consecutive(sent, nextPts))
      && |sent| + n == Balance()
      && n >= 0 && HasSource(n, nbPrev, lastFrame, frame)
      && (frame.None? ==> (hist.0 > 0 || hist.1 > 0 || hist.2 > 0 ==> lastFrame.Some?))
    }

    /** The decision of a call and its bookkeeping. */
    method PlanFrames(frame: Option<Frame>, gotFrame: bool)
      returns (nbFrames: int, nbPrev: int, ghost wanted: int, ghost tooMany: bool)
      requires Valid() && !closed && (frame.Some? ==> frame.value.duration >= 0.0)
      modifies this`nextPts, this`hist, this`lastDropped, this`droppedKey, this`nbDup, this`nbDrop, this`received,
        this`overcounted
      ensures AboutToSend(nbFrames, nbPrev, frame) && 0 <= nbPrev
      ensures droppedKey == (old(droppedKey) || LeavesOutKey(frame, wanted, nbPrev, tooMany))
      ensures received == old(received) + Bit(frame.Some?)
      ensures overcounted == old(overcounted) +
        if frame.Some? || gotFrame then Overcount(frame.None?, wanted, nbPrev, old(lastDropped),
          dtsErrorThreshold) else 0
      ensures frame.None? ==> wanted == nbPrev == if gotFrame then Median3(old(hist).0, old(hist).1, old(hist).2) else 0
      ensures frame.Some? ==>
        DecisionOk(vsyncMethod, frameDropThreshold, frameNumber == 0, old(nextPts), frame.value, wanted, nbPrev, nextPts)
      ensures tooMany <==> Refused(wanted, nbPrev, old(lastDropped), dtsErrorThreshold)
      ensures nbFrames == if tooMany then 0 else wanted
      ensures hist == if frame.Some? || gotFrame then (nbPrev, old(hist).0, old(hist).1) else old(hist)
      ensures frame.None? ==> nextPts == old(nextPts)
      ensures lastDropped ==
        if (frame.Some? || gotFrame) && !tooMany then Bit(wanted == nbPrev && frame.Some?) else old(lastDropped)
      ensures nbDup == old(nbDup) + if tooMany then 0 else wanted - Again(wanted, nbPrev, old(lastDropped))
      ensures Balance() == old(Balance()) + if tooMany then 0 else wanted
      ensures ConstantFps(vsyncMethod) && frame.Some? ==>
        NotLagging(frame.value, nextPts + wanted, frameDropThreshold,
          SkipsGap(vsyncMethod, frameNumber == 0, old(nextPts), frame.value))
    {
      hide Ordered, Consecutive, Overcount, DecisionOk, ConstantRateOk, Median3, NotLagging, SkipsGap, Refused, Bit,
        Balance, Again;
      MedianIsMiddle(hist.0, hist.1, hist.2);
      nbFrames, nbPrev := 0, 0;
      wanted, tooMany := 0, false;
      NothingRefused(lastDropped, dtsErrorThreshold);
      if frame.Some? || gotFrame {
        nbFrames, nbPrev, tooMany, wanted := VideoSyncProcess(frame);
        if frame.Some? {
          DecisionBounds(vsyncMethod, frameDropThreshold, frameNumber == 0, old(nextPts), frame.value, wanted,
            nbPrev, nextPts);
          if ConstantFps(vsyncMethod) {
            DriftBound(vsyncMethod, frameDropThreshold, frameNumber == 0, old(nextPts), frame.value, wanted, nbPrev,
              nextPts);
          }
        }
        OrderKept(sent, old(nextPts), nextPts);
      }
    }

    ghost predicate SentCopies(before: seq<Output>, nbPrev: int, last: Option<Frame>, frame: Option<Frame>, due: bool)
      reads this
    {
      var n := |sent| - |before|;
      && n >= 0 && HasSource(n, nbPrev, last, frame)
      && sent == before + Copies(nextPts - n, n, nbPrev, last, frame, due)
    }

    /** The loop that sends the frames to the encoder.  `left` is what remains of `frame`. */
    method SendFrames(frame: Option<Frame>, nbFrames: int, nbPrev: int, accepts: nat) returns (left: Option<Frame>)
      requires 0 <= nbFrames && 0 <= nbPrev && frameNumber == |sent| && !closed
      requires HasSource(nbFrames, nbPrev, lastFrame, frame)
      modifies this`sent, this`frameNumber, this`nextPts, this`closed, this`droppedKey
      ensures frameNumber == |sent| && nextPts == old(nextPts) + |sent| - |old(sent)|
      ensures |sent| == |old(sent)| + Min(accepts, nbFrames) && (closed <==> accepts < nbFrames)
      ensures SentCopies(old(sent), nbPrev, lastFrame, frame, old(droppedKey))
      ensures left == AfterSending(frame, |sent| - |old(sent)|, nbPrev)
      ensures droppedKey == (old(droppedKey) && nbFrames == 0)
      ensures old(Ordered(sent, nextPts)) ==> Ordered(sent, nextPts)
      ensures old(Consecutive(sent, nextPts)) ==> Consecutive(sent, nextPts)
    {
      hide Ordered, Consecutive, Copies;
      var i := 0;
      left := frame;
      while i < nbFrames
        modifies this`sent, this`frameNumber, this`nextPts, this`closed, this`droppedKey
        invariant 0 <= i <= nbFrames && i <= accepts && !closed
        invariant nextPts == old(nextPts) + i && frameNumber == |sent| == |old(sent)| + i
        invariant sent == old(sent) + Copies(old(nextPts), i, nbPrev, lastFrame, frame, old(droppedKey))
        invariant left == AfterSending(frame, i, nbPrev)
        invariant droppedKey == (old(droppedKey) && i == 0)
      {
        var frameIn := if i < nbPrev && lastFrame.Some? then lastFrame else left;
        var key := frameIn.value.key;
        if droppedKey {
          key := true;
          droppedKey := false;
        }
        if i == accepts {
          closed := true;
          break;
        }
        CopiesStep(old(nextPts), i, nbPrev, lastFrame, frame, old(droppedKey));
        sent := sent + [Output(nextPts, frameIn.value.id, key)];
        frameNumber := frameNumber + 1;
        nextPts := nextPts + 1;
        if i == nbPrev && left.Some? {
          left := Some(left.value.(key := false));
        }
        i := i + 1;
      }
      CopiesKeepOrder(old(sent), old(nextPts), i, nbPrev, lastFrame, frame, old(droppedKey));
    }

    /** The video half of fg_output_frame.  The encoder takes at most `accepts` more
        frames; `gotFrame` tells that the filtergraph has produced some frame before. */
    method OutputFrame(frame: Option<Frame>, gotFrame: bool, accepts: nat)
      returns (ghost wanted: int, ghost nbPrev: int, ghost tooMany: bool)
      requires Valid() && !closed && !eofSent && (frame.Some? ==> frame.value.duration >= 0.0)
      modifies this
      ensures Valid()
      ensures received == old(received) + Bit(frame.Some?)
      ensures overcounted == old(overcounted) +
        if frame.Some? || gotFrame then Overcount(frame.None?, wanted, nbPrev, old(lastDropped),
          dtsErrorThreshold) else 0
      // how many frames are sent, and from which timestamp on
      ensures frame.None? ==> wanted == nbPrev == if gotFrame then Median3(old(hist).0, old(hist).1, old(hist).2) else 0
      ensures frame.Some? ==>
        DecisionOk(vsyncMethod, frameDropThreshold, old(frameNumber) == 0, old(nextPts), frame.value, wanted, nbPrev,
          nextPts - (|sent| - |old(sent)|))
      ensures tooMany <==> Refused(wanted, nbPrev, old(lastDropped), dtsErrorThreshold)
      ensures |sent| == |old(sent)| + Min(accepts, if tooMany then 0 else wanted)
      ensures closed <==> accepts < if tooMany then 0 else wanted
      // first the previous frame, nbPrev times, and then this one
      ensures var due := old(droppedKey) || LeavesOutKey(frame, wanted, nbPrev, tooMany);
        && SentCopies(old(sent), nbPrev, old(lastFrame), frame, due)
        && droppedKey == (due && !closed && |sent| == |old(sent)|)
      ensures lastFrame ==
        if frame.Some? && !closed then AfterSending(frame, |sent| - |old(sent)|, nbPrev) else old(lastFrame)
      // the last call ends the output, unless the encoder has done so
      ensures eofSent <==> frame.None? && !closed
      ensures hist == if frame.Some? || gotFrame then (nbPrev, old(hist).0, old(hist).1) else old(hist)
      ensures frame.None? ==> nextPts == old(nextPts) + |sent| - |old(sent)|
      // and what the counters say, of which Balance determines that of dropped frames
      ensures lastDropped ==
        if (frame.Some? || gotFrame) && !tooMany then Bit(wanted == nbPrev && frame.Some?) else old(lastDropped)
      ensures nbDup == old(nbDup) + if tooMany then 0 else wanted - Again(wanted, nbPrev, old(lastDropped))
      ensures Balance() == old(Balance()) + if tooMany then 0 else wanted
      // the drift of a constant-rate output
      ensures ConstantFps(vsyncMethod) && frame.Some? && !closed && !tooMany ==>
        NotLagging(frame.value, nextPts, frameDropThreshold,
          SkipsGap(vsyncMethod, old(frameNumber) == 0, old(nextPts), frame.value))
    {
      hide Ordered, Consecutive, Overcount, DecisionOk, ConstantRateOk, Median3, NotLagging, SkipsGap, Refused, Bit,
        Copies, Again, Balance, LeavesOutKey, AfterSending;
      var nbFrames, prev;
      nbFrames, prev, wanted, tooMany := PlanFrames(frame, gotFrame);
      nbPrev := prev;
      var left := SendFrames(frame, nbFrames, prev, accepts);
      if closed {
        return;
      }
      if frame.Some? {
        lastFrame := left;
      } else {
        eofSent := true;
      }
    }
  }

  lemma DecisionOnTime(frame: Frame, wanted: int, nbPrev: int, clock: int)
    requires frame.pts == 0.0 && frame.duration == 1.0 && DecisionOk(CFR, 0.0, true, 0, frame, wanted, nbPrev, clock)
    ensures wanted == 1 && nbPrev == 0 && clock == 0 && !Refused(wanted, nbPrev, 0, 108000.0)
  {
  }

  lemma DecisionLate(frame: Frame, wanted: int, nbPrev: int, clock: int)
    requires frame.pts == -9.0 && frame.duration == 1.0 && DecisionOk(CFR, 0.0, false, 1, frame, wanted, nbPrev, clock)
    ensures wanted == 0 && nbPrev == 0 && clock == 1 && !Refused(wanted, nbPrev, 0, 108000.0)
  {
  }

  /** One frame on time and one that comes too late, and is left out. */
  method LateFrame() returns (c: FpsConverter)
    ensures fresh(c) && c.Valid() && !c.closed && !c.eofSent
    ensures |c.sent| == 1 && c.received == 2 && c.overcounted == 0 && c.lastDropped == 1 && c.hist == (0, 0, 0)
    ensures c.dtsErrorThreshold == 108000.0
  {
    hide Ordered, Consecutive, Copies, HasSource, LeavesOutKey, AfterSending, NotLagging, Lag, DecisionOk,
      ConstantRateOk, Refused, Excessive, Median3, Bit, Again;
    c := new FpsConverter(CFR, 0.0, 108000.0);
    var onTime, late := Frame(0, 0.0, 1.0, true), Frame(1, -9.0, 1.0, false);
    ghost var w, p, t;
    w, p, t := c.OutputFrame(Some(onTime), false, 5);
    DecisionOnTime(onTime, w, p, c.nextPts - |c.sent|);
    assert w == 1 && p == 0 && !t && c.lastDropped == 0 && c.nextPts == 1;
    w, p, t := c.OutputFrame(Some(late), true, 5);
    DecisionLate(late, w, p, c.nextPts - (|c.sent| - 1));
    assert w == 0 && p == 0 && !t;
  }

  /** The law does not hold after every last call: the frame that was left out is
      counted as dropped twice when the stream ends. */
  method DropCountedTwice() returns (sent: nat, received: int, nbDup: int, nbDrop: int)
    ensures sent == 1 && received == 2 && nbDup - nbDrop == -2
  {
    hide Ordered, Consecutive, Copies, HasSource, LeavesOutKey, AfterSending, NotLagging, Lag, DecisionOk,
      ConstantRateOk, Refused, Excessive, Median3, Bit, Again;
    var c := LateFrame();
    MedianIsMiddle(0, 0, 0);
    LastCallCounts(0, 1, 108000.0);
    NothingRefused(1, 108000.0);
    ghost var w, p, t;
    w, p, t := c.OutputFrame(None, true, 5);
    assert w == 0 && p == 0 && !t && c.overcounted == 1;
    return |c.sent|, c.received, c.nbDup, c.nbDrop;
  }
}
