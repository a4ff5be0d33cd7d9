/** Starting a muxer: packets sent before it runs are buffered per stream, and are
    merged into its queue by timestamp when it starts. */
module MuxStart {
  import opened Packets
  import opened Results
  import opened Timestamps

  /** An element of a pre-muxing FIFO; EOF is the program's NULL packet. */
  datatype Entry = Data(pkt: Packet) | Eof

  datatype Sent = Sent(stream: nat, pkt: Packet)

  // --- the muxer's queue -----------------------------------------------------------

  /** A thread queue as its sender sees it.  `log` is everything the queue has accepted; the
      receiver finishes a stream at any moment, told by the number of packets that the sender
      has tried to send by then. */
  class PacketQueue {
    const leaves: seq<nat>
    var clock: nat
    var log: seq<Sent>
    var sendFinished: seq<bool>

    ghost predicate Valid(n: nat)
      reads this
    {
      |sendFinished| == |leaves| == n
    }

    /** The receiver has finished the stream. */
    predicate Gone(stream: nat)
      requires stream < |leaves|
      reads this`clock
    {
      leaves[stream] <= clock
    }

    /** tq_send. */
    method Send(stream: nat, pkt: Packet) returns (ret: Ret)
      requires Valid(|sendFinished|) && stream < |sendFinished|
      modifies this`clock, this`log, this`sendFinished
      ensures Valid(|old(sendFinished)|) && clock == old(clock) + 1
      ensures ret == if old(sendFinished[stream]) then Error else if Gone(stream) then EndOfFile else Ok
      ensures log == if ret == Ok then old(log) + [Sent(stream, pkt)] else old(log)
      ensures sendFinished == if ret == EndOfFile then old(sendFinished)[stream := true] else old(sendFinished)
    {
      clock := clock + 1;
      if sendFinished[stream] {
        return Error;
      }
      if Gone(stream) {
        sendFinished := sendFinished[stream := true];
        return EndOfFile;
      }
      log := log + [Sent(stream, pkt)];
      return Ok;
    }

    /** tq_send_finish. */
    method SendFinish(stream: nat)
      requires Valid(|sendFinished|) && stream < |sendFinished|
      modifies this`sendFinished
      ensures sendFinished == old(sendFinished)[stream := true]
    {
      sendFinished := sendFinished[stream := true];
    }
  }

  /** What a log holds of one stream, in order. */
  ghost function Of(log: seq<Sent>, stream: nat): seq<Packet> {
    if log == [] then []
    else
      var last := log[|log| - 1];
      Of(log[..|log| - 1], stream) + if last.stream == stream then [last.pkt] else []
  }

  lemma OfAppend(log: seq<Sent>, s: Sent, stream: nat)
    ensures Of(log + [s], stream) == Of(log, stream) + if s.stream == stream then [s.pkt] else []
  {
    assert (log + [s])[..|log|] == log;
  }

  // --- FIFOs -----------------------------------------------------------------------

  ghost function PacketsOf(fifo: seq<Entry>): seq<Packet> {
    if fifo == [] then []
    else
      var last := fifo[|fifo| - 1];
      PacketsOf(fifo[..|fifo| - 1]) + if last.Data? then [last.pkt] else []
  }

  lemma PacketsAppend(fifo: seq<Entry>, e: Entry)
    ensures PacketsOf(fifo + [e]) == PacketsOf(fifo) + if e.Data? then [e.pkt] else []
  {
    assert (fifo + [e])[..|fifo|] == fifo;
  }

  lemma {:induction false} PacketsPrefix(fifo: seq<Entry>, n: nat)
    requires n <= |fifo|
    ensures PacketsOf(fifo[..n]) <= PacketsOf(fifo)
    decreases |fifo|
  {
    if n < |fifo| {
      var p := |fifo| - 1;
      assert fifo == fifo[..p] + [fifo[p]];
      PacketsPrefix(fifo[..p], n);
      assert fifo[..p][..n] == fifo[..n];
      assert PacketsOf(fifo[..p]) <= PacketsOf(fifo);
    } else {
      assert fifo[..n] == fifo;
    }
  }

  /** EOF is sent once, and nothing after it. */
  ghost predicate EofLast(fifo: seq<Entry>) {
    forall i :: 0 <= i < |fifo| && fifo[i] == Eof ==> i == |fifo| - 1
  }

  ghost function Time(p: Packet): real { Seconds(p.dts, p.tb) }

  ghost predicate Timed(fifo: seq<Entry>) {
    forall i :: 0 <= i < |fifo| && fifo[i].Data? ==> fifo[i].pkt.dts != NOPTS
  }

  ghost predicate Sorted(fifo: seq<Entry>) {
    forall i, j :: 0 <= i < j < |fifo| && fifo[i].Data? && fifo[j].Data? ==> Time(fifo[i].pkt) <= Time(fifo[j].pkt)
  }

  ghost predicate SortedLog(log: seq<Sent>) {
    forall i, j :: 0 <= i < j < |log| ==> Time(log[i].pkt) <= Time(log[j].pkt)
  }

  ghost function Backlog(fifos: seq<seq<Entry>>): nat {
    if fifos == [] then 0 else Backlog(fifos[..|fifos| - 1]) + |fifos[|fifos| - 1]|
  }

  lemma {:induction false} BacklogShrinks(fifos: seq<seq<Entry>>, s: nat)
    requires s < |fifos| && fifos[s] != []
    ensures Backlog(fifos[s := fifos[s][1..]]) == Backlog(fifos) - 1
    decreases |fifos|
  {
    var n := |fifos| - 1;
    var after := fifos[s := fifos[s][1..]];
    if s == n {
      assert after[..n] == fifos[..n];
    } else {
      assert after[..n] == fifos[..n][s := fifos[..n][s][1..]];
      BacklogShrinks(fifos[..n], s);
    }
  }

  lemma {:induction false} BacklogEmpty(fifos: seq<seq<Entry>>)
    ensures Backlog(fifos) == 0 <==> forall s :: 0 <= s < |fifos| ==> fifos[s] == []
    decreases |fifos|
  {
    if fifos == [] {
    } else {
      var n := |fifos| - 1;
      BacklogEmpty(fifos[..n]);
      if Backlog(fifos) == 0 {
        forall s | 0 <= s < |fifos| ensures fifos[s] == [] {
          if s < n {
            assert fifos[..n][s] == fifos[s];
          }
        }
      }
    }
  }

  // --- what a flush achieves -----------------------------------------------------------

  /** Of the FIFO `fifo`, only `rest` is left; the part taken off it went to the queue
      in order, up to the moment the receiver closed the stream (`closed`). */
  ghost predicate Accounted(fifo: seq<Entry>, rest: seq<Entry>, before: seq<Packet>, after: seq<Packet>,
      closed: bool, finished0: bool, finished: bool)
  {
    && |rest| <= |fifo| && rest == fifo[|fifo| - |rest|..]
    && (var taken := fifo[..|fifo| - |rest|];
        && before <= after
        && after[|before|..] <= PacketsOf(taken)
        && (!closed ==> after == before + PacketsOf(taken))
        && (Eof in taken ==> finished)
        && (finished ==> finished0 || closed || Eof in taken))
  }

  lemma AccountedTake(fifo: seq<Entry>, rest: seq<Entry>, before: seq<Packet>, after: seq<Packet>,
      closed: bool, finished0: bool, finished: bool, after': seq<Packet>, closed': bool, finished': bool)
    requires Accounted(fifo, rest, before, after, closed, finished0, finished) && rest != []
    requires closed ==> closed'
    requires finished ==> finished'
    requires finished' ==> finished || closed' || rest[0] == Eof
    requires match rest[0]
      case Eof => after' == after && finished' && closed' == closed
      case Data(p) => if closed' then after' == after else after' == after + [p]
    ensures Accounted(fifo, rest[1..], before, after', closed', finished0, finished')
  {
    var n := |fifo| - |rest|;
    var taken, taken' := fifo[..n], fifo[..n + 1];
    assert taken' == taken + [rest[0]];
    PacketsAppend(taken, rest[0]);
    PacketsPrefix(taken', n);
    assert taken'[..n] == taken;
    if !closed' && rest[0].Data? {
      assert after' == before + PacketsOf(taken');
    }
  }

  ghost predicate Flushed(fifos: seq<seq<Entry>>, rest: seq<seq<Entry>>, log: seq<Sent>, log': seq<Sent>,
      closed: seq<bool>, finished0: seq<bool>, finished: seq<bool>)
  {
    && |fifos| == |rest| == |closed| == |finished0| == |finished|
    && forall s: nat :: s < |fifos| ==>
         Accounted(fifos[s], rest[s], Of(log, s), Of(log', s), closed[s], finished0[s], finished[s])
  }

  lemma FlushedTake(fifos: seq<seq<Entry>>, rest: seq<seq<Entry>>, log: seq<Sent>, log1: seq<Sent>,
      closed: seq<bool>, finished0: seq<bool>, finished: seq<bool>, s: nat, log2: seq<Sent>, closed': seq<bool>,
        finished': seq<bool>)
    requires Flushed(fifos, rest, log, log1, closed, finished0, finished) && s < |fifos| && rest[s] != []
    requires |closed'| == |finished'| == |fifos|
    requires forall t :: 0 <= t < |fifos| && t != s ==> closed'[t] == closed[t] && finished'[t] == finished[t]
    requires closed[s] ==> closed'[s]
    requires finished[s] ==> finished'[s]
    requires finished'[s] ==> finished[s] || closed'[s] || rest[s][0] == Eof
    requires match rest[s][0]
      case Eof => log2 == log1 && finished'[s] && closed'[s] == closed[s]
      case Data(p) => if closed'[s] then log2 == log1 else log2 == log1 + [Sent(s, p)]
    ensures Flushed(fifos, rest[s := rest[s][1..]], log, log2, closed', finished0, finished')
  {
    hide Accounted;
    forall t: nat | t < |fifos|
      ensures Accounted(fifos[t], rest[s := rest[s][1..]][t], Of(log, t), Of(log2, t), closed'[t], finished0[t],
        finished'[t])
    {
      assert Accounted(fifos[t], rest[t], Of(log, t), Of(log1, t), closed[t], finished0[t], finished[t]);
      if log2 != log1 {
        OfAppend(log1, Sent(s, rest[s][0].pkt), t);
        assert t != s ==> Of(log2, t) == Of(log1, t);
      }
      if t == s {
        AccountedTake(fifos[s], rest[s], Of(log, s), Of(log1, s), closed[s], finished0[s], finished[s], Of(log2, s),
          closed'[s], finished'[s]);
      }
    }
  }

  /** Flushed, but for one element that has been taken off and not passed on. */
  ghost predicate LostOne(fifos: seq<seq<Entry>>, rest: seq<seq<Entry>>, log: seq<Sent>, log': seq<Sent>,
      closed: seq<bool>, finished0: seq<bool>, finished: seq<bool>)
  {
    exists s, e :: 0 <= s < |rest| &&
      Flushed(fifos, rest[s := [e] + rest[s]], log, log', closed, finished0, finished)
  }

  lemma LostHead(fifos: seq<seq<Entry>>, rest: seq<seq<Entry>>, log: seq<Sent>, log': seq<Sent>,
      closed: seq<bool>, finished0: seq<bool>, finished: seq<bool>, s: nat)
    requires Flushed(fifos, rest, log, log', closed, finished0, finished) && s < |rest| && rest[s] != []
    ensures LostOne(fifos, rest[s := rest[s][1..]], log, log', closed, finished0, finished)
  {
    hide Flushed;
    var rest' := rest[s := rest[s][1..]];
    assert rest[s] == [rest[s][0]] + rest[s][1..];
    assert rest'[s := [rest[s][0]] + rest'[s]] == rest;
  }

  /** The packets emitted so far are in order, and none left is earlier. */
  ghost predicate Merging(log: seq<Sent>, rest: seq<seq<Entry>>) {
    && SortedLog(log)
    && (forall s :: 0 <= s < |rest| ==> Timed(rest[s]) && Sorted(rest[s]))
    && forall k, s, i :: 0 <= k < |log| && 0 <= s < |rest| && 0 <= i < |rest[s]| && rest[s][i].Data? ==>
         Time(log[k].pkt) <= Time(rest[s][i].pkt)
  }

  /** Stream s holds an EOF or an untimed packet at its head, or no stream has an
      earlier packet there. */
  ghost predicate Earliest(fifos: seq<seq<Entry>>, s: nat) {
    && s < |fifos| && fifos[s] != []
    && ((fifos[s][0].Data? && fifos[s][0].pkt.dts != NOPTS) ==>
         forall t :: 0 <= t < |fifos| && fifos[t] != [] ==>
           && fifos[t][0].Data?
           && Time(fifos[s][0].pkt) <= Time(fifos[t][0].pkt)
           && (t < s ==> Time(fifos[s][0].pkt) < Time(fifos[t][0].pkt)))
  }

  /** A stream is closed only once its receiver has finished it. */
  ghost predicate ClosedByReceiver(closed: seq<bool>, closed': seq<bool>, leaves: seq<nat>, clock: nat) {
    && |closed| == |closed'| == |leaves|
    && forall s :: 0 <= s < |closed| ==> (closed[s] ==> closed'[s]) && (closed'[s] ==> closed[s] || leaves[s] <= clock)
  }

  lemma ClosedTrans(c0: seq<bool>, c1: seq<bool>, c2: seq<bool>, leaves: seq<nat>, clock1: nat, clock2: nat)
    requires clock1 <= clock2
    ensures ClosedByReceiver(c0, c1, leaves, clock1) && ClosedByReceiver(c1, c2, leaves, clock2) ==>
      ClosedByReceiver(c0, c2, leaves, clock2)
  {
  }

  ghost predicate EarliestUpTo(f: seq<seq<Entry>>, n: nat, s: nat)
    requires n <= |f|
  {
    && s < n && f[s] != [] && f[s][0].Data? && f[s][0].pkt.dts != NOPTS
    && forall t :: 0 <= t < n && f[t] != [] ==>
         && f[t][0].Data?
         && Time(f[s][0].pkt) <= Time(f[t][0].pkt)
         && (t < s ==> Time(f[s][0].pkt) < Time(f[t][0].pkt))
  }

  ghost predicate AllTimedAndSorted(fifos: seq<seq<Entry>>) {
    forall s :: 0 <= s < |fifos| ==> Timed(fifos[s]) && Sorted(fifos[s])
  }

  /** EOF comes last in each FIFO, and no stream that still has packets to send was
      finished before. */
  ghost predicate CanFlush(fifos: seq<seq<Entry>>, closed: seq<bool>, finished: seq<bool>)
    requires |fifos| == |closed| == |finished|
  {
    forall s :: 0 <= s < |fifos| ==> EofLast(fifos[s]) && (finished[s] && !closed[s] ==> fifos[s] == [])
  }

  lemma CanFlushTake(rest: seq<seq<Entry>>, closed: seq<bool>, finished: seq<bool>, s: nat,
      ok: bool, closed': seq<bool>, finished': seq<bool>)
    requires |rest| == |closed| == |finished| == |closed'| == |finished'|
    requires s < |rest| && rest[s] != [] && CanFlush(rest, closed, finished)
    requires forall t :: 0 <= t < |rest| && t != s ==> closed'[t] == closed[t] && finished'[t] == finished[t]
    requires !ok ==> rest[s][0].Data? && finished[s] && !closed[s]
    requires ok && rest[s][0].Data? && !closed'[s] ==> finished'[s] == finished[s] && !closed[s]
    ensures ok && CanFlush(rest[s := rest[s][1..]], closed', finished')
  {
    var rest' := rest[s := rest[s][1..]];
    assert EofLast(rest[s]) && !(finished[s] && !closed[s]);
    assert forall i :: 0 <= i < |rest'[s]| ==> rest'[s][i] == rest[s][i + 1];
  }

  lemma FlushedNothing(fifos: seq<seq<Entry>>, log: seq<Sent>, closed: seq<bool>, finished: seq<bool>)
    requires |fifos| == |closed| == |finished|
    ensures Flushed(fifos, fifos, log, log, closed, finished, finished)
  {
    forall s: nat | s < |fifos|
      ensures Accounted(fifos[s], fifos[s], Of(log, s), Of(log, s), closed[s], finished[s], finished[s])
    {
      assert fifos[s][..0] == [];
      assert fifos[s][0..] == fifos[s];
    }
  }

  lemma EarliestNonempty(fifos: seq<seq<Entry>>, s: nat)
    requires Earliest(fifos, s)
    ensures s < |fifos| && fifos[s] != []
  {
  }

  lemma MergingStart(fifos: seq<seq<Entry>>)
    requires AllTimedAndSorted(fifos)
    ensures Merging([], fifos)
  {
  }

  lemma MergingIsSorted(log: seq<Sent>, rest: seq<seq<Entry>>)
    requires Merging(log, rest)
    ensures SortedLog(log)
  {
  }

  lemma MergingTake(log: seq<Sent>, rest: seq<seq<Entry>>, s: nat, emitted: bool)
    requires Merging(log, rest) && Earliest(rest, s)
    requires emitted ==> rest[s][0].Data?
    ensures emitted ==> Merging(log + [Sent(s, rest[s][0].pkt)], rest[s := rest[s][1..]])
    ensures !emitted ==> Merging(log, rest[s := rest[s][1..]])
  {
    var rest' := rest[s := rest[s][1..]];
    assert forall t :: 0 <= t < |rest'| ==> Timed(rest'[t]) && Sorted(rest'[t]) by {
      assert Timed(rest[s]) && Sorted(rest[s]);
      assert forall i :: 0 <= i < |rest'[s]| ==> rest'[s][i] == rest[s][i + 1];
    }
    if emitted {
      var p := rest[s][0].pkt;
      forall t, i | 0 <= t < |rest'| && 0 <= i < |rest'[t]| && rest'[t][i].Data?
        ensures Time(p) <= Time(rest'[t][i].pkt)
      {
        assert Timed(rest[s]) && Timed(rest[t]) && Sorted(rest[t]);
        if t == s {
          assert rest'[t][i] == rest[t][i + 1];
        } else if i > 0 {
          assert rest[t][0].Data?;
        }
      }
    }
  }

  /** What passing on element e of stream s does to the queue and to the stream: it is accepted,
      discarded once the receiver is gone, or refused on a stream that was finished already. */
  ghost predicate Emitted(e: Entry, s: nat, ok: bool, log: seq<Sent>, log': seq<Sent>,
      closed: seq<bool>, closed': seq<bool>, finished: seq<bool>, finished': seq<bool>)
  {
    && s < |closed| == |closed'| == |finished| == |finished'|
    && (forall t :: 0 <= t < |closed| && t != s ==> closed'[t] == closed[t] && finished'[t] == finished[t])
    && (ok <==> !(e.Data? && finished[s] && !closed[s]))
    && (!ok ==> log' == log && closed' == closed && finished' == finished)
    && (ok ==> match e
         case Eof => log' == log && closed'[s] == closed[s] && finished'[s]
         case Data(p) =>
           && (closed[s] ==> closed'[s])
           && log' == (if closed'[s] then log else log + [Sent(s, p)])
           && finished'[s] == (finished[s] || (closed'[s] && !closed[s])))
  }

  // --- the muxer -------------------------------------------------------------------

  datatype PreMuxQueue = PreMuxQueue(fifo: seq<Entry>, capacity: nat, maxPackets: nat, dataSize: nat, dataThreshold: nat)

  ghost function TotalSize(ps: seq<Packet>): nat {
    if ps == [] then 0 else TotalSize(ps[..|ps| - 1]) + ps[|ps| - 1].size
  }

  ghost function FifosOf(queues: seq<PreMuxQueue>): (f: seq<seq<Entry>>)
    ensures |f| == |queues| && forall s :: 0 <= s < |f| ==> f[s] == queues[s].fifo
  {
    seq(|queues|, s requires 0 <= s < |queues| => queues[s].fifo)
  }

  ghost predicate QueueOk(q: PreMuxQueue) {
    0 < q.capacity && |q.fifo| <= q.capacity && q.dataSize == TotalSize(PacketsOf(q.fifo))
  }

  ghost predicate OverThreshold(q: PreMuxQueue, e: Entry) {
    TotalSize(PacketsOf(q.fifo)) + (if e.Data? then e.pkt.size else 0) > q.dataThreshold
  }

  /** A FIFO refuses to grow when it already holds the maximum and enough data. */
  ghost predicate CannotBuffer(q: PreMuxQueue, e: Entry) {
    |q.fifo| == q.capacity && |q.fifo| >= q.maxPackets && OverThreshold(q, e)
  }

  ghost predicate Buffered(q: PreMuxQueue, e: Entry, q': PreMuxQueue) {
    && q'.fifo == q.fifo + [e]
    && q'.maxPackets == q.maxPackets && q'.dataThreshold == q.dataThreshold
    // a full FIFO doubles, but no further than the maximum once it holds enough data
    && q'.capacity == if |q.fifo| < q.capacity then q.capacity
         else if OverThreshold(q, e) then Min(2 * |q.fifo|, q.maxPackets) else 2 * |q.fifo|
  }

  /** Nothing but the elements of the FIFOs has changed. */
  ghost predicate OnlyTaken(before: seq<PreMuxQueue>, after: seq<PreMuxQueue>) {
    |after| == |before| && forall s :: 0 <= s < |after| ==> after[s] == before[s].(fifo := after[s].fifo)
  }

  lemma TotalSizeAppend(fifo: seq<Entry>, e: Entry)
    ensures TotalSize(PacketsOf(fifo + [e])) == TotalSize(PacketsOf(fifo)) + if e.Data? then e.pkt.size else 0
  {
    PacketsAppend(fifo, e);
    if e.Eof? {
      assert PacketsOf(fifo + [e]) == PacketsOf(fifo);
    } else {
      var ps := PacketsOf(fifo);
      var qs := PacketsOf(fifo + [e]);
      assert qs == ps + [e.pkt];
      assert qs[..|qs| - 1] == ps && qs[|qs| - 1] == e.pkt;
    }
  }

  // --- a flush, round by round ---------------------------------------------------------

  datatype FlushState = FlushState(
    queues: seq<PreMuxQueue>,
    log: seq<Sent>,
    clock: nat,
    closed: seq<bool>,
    finished: seq<bool>)

  /** The head of stream s has been taken off and passed on, or refused. */
  ghost predicate Moved(a: FlushState, b: FlushState, leaves: seq<nat>, s: nat, ok: bool) {
    && s < |a.queues| == |b.queues| && a.queues[s].fifo != []
    && b.queues == a.queues[s := a.queues[s].(fifo := a.queues[s].fifo[1..])]
    && Emitted(a.queues[s].fifo[0], s, ok, a.log, b.log, a.closed, b.closed, a.finished, b.finished)
    && ClosedByReceiver(a.closed, b.closed, leaves, b.clock)
    && a.clock <= b.clock <= a.clock + 1
  }

  /** What a flush that began in state a has achieved by state b, whether or not its last round
      has failed. */
  ghost predicate Underway(a: FlushState, b: FlushState, leaves: seq<nat>, ok: bool) {
    var fifos, rest := FifosOf(a.queues), FifosOf(b.queues);
    && |a.queues| == |a.closed| == |a.finished| == |b.closed| == |b.finished|
    && OnlyTaken(a.queues, b.queues) && a.log <= b.log
    && (if ok then Flushed(fifos, rest, a.log, b.log, b.closed, a.finished, b.finished)
        else LostOne(fifos, rest, a.log, b.log, b.closed, a.finished, b.finished))
    && ClosedByReceiver(a.closed, b.closed, leaves, b.clock)
    && a.clock <= b.clock <= a.clock + Backlog(fifos) - Backlog(rest)
    && (AllTimedAndSorted(fifos) ==> Merging(b.log[|a.log|..], rest))
    && (CanFlush(fifos, a.closed, a.finished) ==> ok && CanFlush(rest, b.closed, b.finished))
  }

  lemma NotYetUnderway(a: FlushState, leaves: seq<nat>)
    requires |a.queues| == |a.closed| == |a.finished| == |leaves|
    ensures Underway(a, a, leaves, true)
  {
    var fifos := FifosOf(a.queues);
    FlushedNothing(fifos, a.log, a.closed, a.finished);
    assert a.log[|a.log|..] == [];
    if AllTimedAndSorted(fifos) {
      MergingStart(fifos);
    }
    hide Flushed, LostOne, Merging, AllTimedAndSorted, CanFlush, Backlog;
  }

  /** One round keeps the accounts and the merge. */
  lemma RoundKeeps(a: FlushState, b: FlushState, c: FlushState, leaves: seq<nat>, s: nat, ok: bool)
    requires Underway(a, b, leaves, true) && Moved(b, c, leaves, s, ok) && Earliest(FifosOf(b.queues), s)
    ensures Underway(a, c, leaves, ok) && Backlog(FifosOf(c.queues)) < Backlog(FifosOf(b.queues))
  {
    var fifos, rest := FifosOf(a.queues), FifosOf(b.queues);
    hide Flushed, LostOne, Merging, Earliest, CanFlush, Backlog, ClosedByReceiver, AllTimedAndSorted;
    assert FifosOf(c.queues) == rest[s := rest[s][1..]];
    BacklogShrinks(rest, s);
    ClosedTrans(a.closed, b.closed, c.closed, leaves, b.clock, c.clock);
    var e := rest[s][0];
    assert c.log != b.log ==> c.log[|a.log|..] == b.log[|a.log|..] + [Sent(s, e.pkt)];
    if Merging(b.log[|a.log|..], rest) {
      MergingTake(b.log[|a.log|..], rest, s, c.log != b.log);
    }
    if !ok {
      LostHead(fifos, rest, a.log, b.log, b.closed, a.finished, b.finished, s);
    } else {
      FlushedTake(fifos, rest, a.log, b.log, b.closed, a.finished, b.finished, s, c.log, c.closed, c.finished);
    }
    if CanFlush(rest, b.closed, b.finished) {
      CanFlushTake(rest, b.closed, b.finished, s, ok, c.closed, c.finished);
    }
  }

  /** What that comes to when the loop ends. */
  lemma Achieved(a: FlushState, b: FlushState, leaves: seq<nat>, ok: bool)
    requires Underway(a, b, leaves, ok)
    ensures OnlyTaken(a.queues, b.queues) && a.log <= b.log
    ensures |a.queues| == |a.closed| == |a.finished|
    ensures ClosedByReceiver(a.closed, b.closed, leaves, b.clock)
    ensures a.clock <= b.clock <= a.clock + Backlog(FifosOf(a.queues))
    ensures if ok then Flushed(FifosOf(a.queues), FifosOf(b.queues), a.log, b.log, b.closed, a.finished, b.finished)
      else LostOne(FifosOf(a.queues), FifosOf(b.queues), a.log, b.log, b.closed, a.finished, b.finished)
    ensures AllTimedAndSorted(FifosOf(a.queues)) ==> SortedLog(b.log[|a.log|..])
    ensures CanFlush(FifosOf(a.queues), a.closed, a.finished) ==> ok
  {
    hide Flushed, LostOne, Merging, AllTimedAndSorted, CanFlush, ClosedByReceiver, SortedLog, Backlog, OnlyTaken;
    if AllTimedAndSorted(FifosOf(a.queues)) {
      MergingIsSorted(b.log[|a.log|..], FifosOf(b.queues));
    }
  }

  method Buffer(q: PreMuxQueue, e: Entry) returns (ret: Ret, q': PreMuxQueue)
    requires QueueOk(q)
    ensures ret == if CannotBuffer(q, e) then Error else Ok
    ensures ret == Ok ==> QueueOk(q') && Buffered(q, e, q')
    ensures ret == Error ==> q' == q
  {
    q' := q;
    var pktSize := if e.Data? then e.pkt.size else 0;
    if |q.fifo| == q.capacity {
      var packets := |q.fifo|;
      var thresholdReached := q.dataSize + pktSize > q.dataThreshold;
      var newSize := if thresholdReached then Min(2 * packets, q.maxPackets) else 2 * packets;
      if newSize <= packets {
        return Error, q;
      }
      q' := q.(capacity := newSize);
    }
    TotalSizeAppend(q.fifo, e);
    q' := q'.(fifo := q.fifo + [e], dataSize := q.dataSize + pktSize);
    return Ok, q';
  }

  class Mux {
    var queues: seq<PreMuxQueue>
    var initEof: seq<bool>
    var started: bool
    const queue: PacketQueue

    /** sch_add_mux_stream and sch_mux_stream_buffering for each of n streams. */
    constructor (queue: PacketQueue, n: nat, maxPackets: nat, dataThreshold: nat)
      requires queue.Valid(n)
      ensures Valid() && !started && this.queue == queue
      ensures |queues| == n && forall s :: 0 <= s < n ==>
        queues[s] == PreMuxQueue([], 8, maxPackets, 0, dataThreshold) && !initEof[s]
    {
      this.queue := queue;
      queues := seq(n, _ => PreMuxQueue([], 8, maxPackets, 0, dataThreshold));
      initEof := seq(n, _ => false);
      started := false;
    }

    ghost predicate Shape()
      reads this, queue
    {
      |initEof| == |queues| && queue.Valid(|queues|)
    }

    /** While packets are being buffered: `dataSize` is their total size.  A flush
        takes packets off without updating it. */
    ghost predicate Valid()
      reads this, queue
    {
      && Shape()
      && forall s :: 0 <= s < |queues| ==>
           QueueOk(queues[s])
    }

    /** mux_queue_packet: buffer a packet, or EOF, of stream s. */
    method QueuePacket(s: nat, e: Entry) returns (ret: Ret)
      requires Valid() && s < |queues| && !started
      modifies this`queues
      ensures Valid()
      ensures ret == if CannotBuffer(old(queues)[s], e) then Error else Ok
      ensures ret == Error ==> queues == old(queues)
      ensures ret == Ok ==> exists q :: queues == old(queues)[s := q] && Buffered(old(queues)[s], e, q)
    {
      var q;
      ret, q := Buffer(queues[s], e);
      if ret == Ok {
        queues := queues[s := q];
      }
    }

    /** The inner loop of the flush: whose packet is the next to go. */
    method FindEarliest() returns (minStream: int)
      requires Shape()
      ensures minStream < 0 ==> forall s :: 0 <= s < |queues| ==> queues[s].fifo == []
      ensures minStream >= 0 ==> Earliest(FifosOf(queues), minStream)
    {
      ghost var f: seq<seq<Entry>> := FifosOf(queues);
      minStream := -1;
      var minTs := NOPTS;
      var minTb: TimeBase := Rational(1, 1);
      for i := 0 to |queues|
        invariant -1 <= minStream < i
        invariant minStream == -1 ==> minTs == NOPTS && forall t :: 0 <= t < i ==> f[t] == []
        invariant minStream >= 0 ==> EarliestUpTo(f, i, minStream)
        invariant minStream >= 0 ==> minTs == f[minStream][0].pkt.dts && minTb == f[minStream][0].pkt.tb
      {
        if queues[i].fifo == [] {
          continue;
        }
        var e := queues[i].fifo[0];
        if e.Eof? || e.pkt.dts == NOPTS {
          minStream := i;
          break;
        }
        CompareTsIsExact(minTs, minTb, e.pkt.dts, e.pkt.tb);
        if minTs == NOPTS || CompareTs(minTs, minTb, e.pkt.dts, e.pkt.tb) > 0 {
          minStream := i;
          minTs, minTb := e.pkt.dts, e.pkt.tb;
        }
      }
    }

    /** Pass one FIFO element on to the muxer's queue. */
    method Emit(s: nat, e: Entry) returns (ok: bool)
      requires Shape() && s < |queues|
      modifies this`initEof, queue
      ensures Shape()
      ensures ClosedByReceiver(old(initEof), initEof, queue.leaves, queue.clock)
      ensures queue.clock == old(queue.clock) + Bit(e.Data? && !old(initEof)[s])
      ensures ok && e.Data? && queue.Gone(s) ==> initEof[s]
      ensures Emitted(e, s, ok, old(queue.log), queue.log, old(initEof), initEof, old(queue.sendFinished),
        queue.sendFinished)
    {
      ok := true;
      if e.Data? {
        var ret := Ok;
        if !initEof[s] {
          ret := queue.Send(s, e.pkt);
        }
        if ret == EndOfFile {
          initEof := initEof[s := true];
        } else if ret == Error {
          ok := false;
        }
      } else {
        queue.SendFinish(s);
      }
    }

    /** The state that a flush works on. */
    ghost function Now(): (st: FlushState)
      reads this, queue
    {
      FlushState(queues, queue.log, queue.clock, initEof, queue.sendFinished)
    }

    /** One round of the flush: move the head of stream s to the muxer's queue. */
    method Take(s: nat) returns (ok: bool)
      requires Shape() && s < |queues| && queues[s].fifo != []
      modifies this`queues, this`initEof, queue
      ensures Shape() && Moved(old(Now()), Now(), queue.leaves, s, ok)
    {
      hide Emitted, ClosedByReceiver;
      var e := queues[s].fifo[0];
      queues := queues[s := queues[s].(fifo := queues[s].fifo[1..])];
      ok := Emit(s, e);
    }

    /** One pass of the flush loop: find whose packet is next, and move it. */
    method Round(ghost start: FlushState) returns (found: bool, ok: bool)
      requires Shape() && Underway(start, Now(), queue.leaves, true)
      modifies this`queues, this`initEof, queue
      ensures Shape() && |queues| == |old(queues)| && Underway(start, Now(), queue.leaves, ok)
      ensures found ==> Backlog(FifosOf(queues)) < Backlog(FifosOf(old(queues)))
      ensures !found ==> ok && forall s :: 0 <= s < |queues| ==> queues[s].fifo == []
    {
      hide Underway, Emitted, ClosedByReceiver, Backlog, Earliest;
      var minStream := FindEarliest();
      if minStream < 0 {
        return false, true;
      }
      ghost var before := Now();
      EarliestNonempty(FifosOf(queues), minStream);
      ok := Take(minStream);
      RoundKeeps(start, before, Now(), queue.leaves, minStream, ok);
      found := true;
    }

    /** The flush loop. */
    method Flush(ghost start: FlushState) returns (ok: bool)
      requires Shape() && Underway(start, Now(), queue.leaves, true)
      modifies this`queues, this`initEof, queue
      ensures Shape() && |queues| == |old(queues)| && Underway(start, Now(), queue.leaves, ok)
      ensures ok ==> forall s :: 0 <= s < |queues| ==> queues[s].fifo == []
    {
      hide Underway, Backlog, FifosOf;
      while true
        invariant Shape() && |queues| == |old(queues)| && Underway(start, Now(), queue.leaves, true)
        decreases Backlog(FifosOf(queues))
      {
        var found;
        found, ok := Round(start);
        if !found || !ok {
          return;
        }
      }
    }

    /** mux_task_start, once the thread exists: what has been buffered moves to the queue. */
    method Start() returns (ok: bool)
      requires Shape() && !started
      modifies this`queues, this`initEof, this`started, queue
      ensures Shape() && started == ok
      ensures OnlyTaken(old(queues), queues)
      ensures ClosedByReceiver(old(initEof), initEof, queue.leaves, queue.clock)
      ensures old(queue.clock) <= queue.clock <= old(queue.clock) + Backlog(FifosOf(old(queues)))
      // nothing is left, lost, reordered or duplicated; only a stream that the
      // receiver closed meanwhile has its remaining packets discarded
      ensures ok ==> forall s :: 0 <= s < |queues| ==> queues[s].fifo == []
      ensures ok ==> Flushed(FifosOf(old(queues)), FifosOf(queues), old(queue.log), queue.log, initEof,
        old(queue.sendFinished), queue.sendFinished)
      // or a failure loses the one element that could not be sent, and leaves the rest
      ensures !ok ==> LostOne(FifosOf(old(queues)), FifosOf(queues), old(queue.log), queue.log, initEof,
        old(queue.sendFinished), queue.sendFinished)
      // packets with known, sorted timestamps come out in global order
      ensures old(queue.log) <= queue.log
      ensures AllTimedAndSorted(FifosOf(old(queues))) ==> SortedLog(queue.log[|old(queue.log)|..])
      // the only failure is sending on a stream that has already been finished
      ensures CanFlush(FifosOf(old(queues)), old(initEof), old(queue.sendFinished)) ==> ok
    {
      ghost var start := Now();
      NotYetUnderway(start, queue.leaves);
      hide Flushed, LostOne, AllTimedAndSorted, CanFlush, ClosedByReceiver, SortedLog, Backlog, OnlyTaken, Underway,
        FifosOf;
      ok := Flush(start);
      started := ok;
      ghost var end := Now();
      hide Now;
      Achieved(start, end, queue.leaves, ok);
    }
  }
}
