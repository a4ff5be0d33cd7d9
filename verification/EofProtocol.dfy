/** How the end of a stream is passed on: the destination slots of demuxer streams,
    decoder outputs and encoders, and the inputs of a filtergraph. */
module EofProtocol {

  import opened Results

  /** What a destination is sent. */
  datatype Event = Data(id: int) | Finish

  /** At most one finish, nothing after it, and `finished` says whether it was sent. */
  ghost predicate SlotOk(events: seq<Event>, finished: bool) {
    && (forall k :: 0 <= k < |events| - 1 ==> events[k] != Finish)
    && (finished <==> events != [] && events[|events| - 1] == Finish)
  }

  /** What sending `data` (NULL: None) without an error does to one slot.  A finished
      one ignores it; one that is to end, or whose receiver is gone, is finished; any
      other takes the data. */
  ghost predicate SlotStep(before: seq<Event>, wasFinished: bool, data: Option<int>, asEof: bool, gone: bool,
      after: seq<Event>, isFinished: bool)
  {
    if wasFinished then after == before && isFinished
    else if data.None? || asEof || gone then after == before + [Finish] && isFinished
    else after == before + [Data(data.value)] && !isFinished
  }

  /** The destinations of one demuxer stream, decoder output or encoder. */
  class Outputs {
    /** Which destinations are muxers. */
    const toMux: seq<bool>
    /** When each receiver stops receiving, and when sending to it fails, counted in calls of
        SendToDst. */
    const leaves: seq<nat>
    const faults: seq<set<nat>>
    var clock: nat
    var finished: seq<bool>
    /** What each destination has been sent. */
    var events: seq<seq<Event>>

    ghost predicate Valid()
      reads this
    {
      && |toMux| == |leaves| == |faults| == |finished| == |events|
      && forall i :: 0 <= i < |finished| ==> SlotOk(events[i], finished[i])
    }

    constructor (toMux: seq<bool>, leaves: seq<nat>, faults: seq<set<nat>>)
      requires |toMux| == |leaves| == |faults|
      ensures Valid() && this.toMux == toMux && this.leaves == leaves && this.faults == faults && clock == 0
      ensures forall i :: 0 <= i < |finished| ==> !finished[i] && events[i] == []
    {
      this.toMux, this.leaves, this.faults := toMux, leaves, faults;
      clock := 0;
      finished := seq(|toMux|, _ => false);
      events := seq(|toMux|, _ => []);
    }

    ghost predicate AllFinished()
      reads this
    {
      forall i :: 0 <= i < |finished| ==> finished[i]
    }

    /** The data would be passed on to slot i, at some time. */
    ghost predicate PassesOn(i: nat, wasFinished: bool, data: Option<int>, streamcopyEof: bool, time: nat)
      requires i < |toMux| == |leaves|
    {
      !wasFinished && data.Some? && !(streamcopyEof && toMux[i]) && leaves[i] > time
    }

    /** The receiver takes the data, is gone, or fails. */
    method Sink(i: nat, id: int) returns (ret: Ret)
      requires Valid() && i < |finished| && !finished[i]
      modifies this`events
      ensures ret == if leaves[i] <= clock then EndOfFile else if clock in faults[i] then Error else Ok
      ensures events == if ret == Ok then old(events)[i := old(events)[i] + [Data(id)]] else old(events)
    {
      if leaves[i] <= clock {
        return EndOfFile;
      }
      if clock in faults[i] {
        return Error;
      }
      events := events[i := events[i] + [Data(id)]];
      return Ok;
    }

    /** demux_stream_send_to_dst, dec_send_to_dst and enc_send_to_dst.  A demuxer may
        flag a packet to be treated as EOF by muxers. */
    method SendToDst(i: nat, data: Option<int>, streamcopyEof: bool) returns (ret: Ret)
      requires Valid() && i < |finished|
      modifies this`finished, this`events, this`clock
      ensures Valid() && |finished| == |old(finished)| && clock == old(clock) + 1
      ensures forall k :: 0 <= k < |finished| && k != i ==>
        finished[k] == old(finished)[k] && events[k] == old(events)[k]
      ensures ret == Error <==> PassesOn(i, old(finished)[i], data, streamcopyEof, clock) && clock in faults[i]
      ensures ret == Error ==> events == old(events) && finished == old(finished)
      ensures ret != Error ==>
        SlotStep(old(events)[i], old(finished)[i], data, streamcopyEof && toMux[i], leaves[i] <= clock, events[i],
          finished[i])
      ensures ret == EndOfFile <==> finished[i]
    {
      clock := clock + 1;
      if finished[i] {
        return EndOfFile;
      }
      var item := data;
      if item.Some? && toMux[i] && streamcopyEof {
        item := None;
      }
      if item.Some? {
        ret := Sink(i, item.value);
        if ret != EndOfFile {
          return ret;
        }
      }
      events := events[i := events[i] + [Finish]];
      finished := finished[i := true];
      return EndOfFile;
    }

    /** Since the slots had these events and flags, the first n have taken their step, one after
        the other, and the others are as they were. */
    ghost predicate Stepped(n: nat, events0: seq<seq<Event>>, finished0: seq<bool>, clock0: nat, data: Option<int>,
        streamcopyEof: bool)
      requires Valid()
      reads this
    {
      && n <= |finished| == |finished0| == |events0|
      && (forall i :: 0 <= i < n ==>
           SlotStep(events0[i], finished0[i], data, streamcopyEof && toMux[i], leaves[i] <= clock0 + i + 1, events[i],
             finished[i]))
      && forall i :: n <= i < |finished| ==> finished[i] == finished0[i] && events[i] == events0[i]
    }

    /** Slot i is one that cannot take the data when its turn comes. */
    ghost predicate Fails(i: nat, finished0: seq<bool>, clock0: nat, data: Option<int>, streamcopyEof: bool)
      requires i < |finished0| == |toMux| == |leaves| == |faults|
    {
      PassesOn(i, finished0[i], data, streamcopyEof, clock0 + i + 1) && clock0 + i + 1 in faults[i]
    }

    /** demux_send_for_stream and sch_dec_send: one packet or frame to all
        destinations.  EOF is reported exactly if all of them are finished; an error is that of
        the first slot that fails, and those after it are not tried. */
    method SendToAll(data: Option<int>, streamcopyEof: bool) returns (ret: Ret, ghost at: nat)
      requires Valid()
      modifies this`finished, this`events, this`clock
      ensures Valid() && Stepped(at, old(events), old(finished), old(clock), data, streamcopyEof)
      ensures forall i: nat :: i < at ==> !Fails(i, old(finished), old(clock), data, streamcopyEof)
      ensures clock == old(clock) + at + Bit(ret == Error)
      ensures ret != Error ==> at == |finished| && (ret == EndOfFile <==> AllFinished())
      ensures ret == Error ==> at < |finished| && Fails(at, old(finished), old(clock), data, streamcopyEof)
    {
      var done: nat := 0;
      at := 0;
      for i := 0 to |finished|
        invariant Valid() && at == i && clock == old(clock) + i
        invariant Stepped(i, old(events), old(finished), old(clock), data, streamcopyEof)
        invariant forall k: nat :: k < i ==> !Fails(k, old(finished), old(clock), data, streamcopyEof)
        invariant done <= i && (done == i <==> forall k :: 0 <= k < i ==> finished[k])
      {
        ret := SendToDst(i, data, streamcopyEof);
        if ret == EndOfFile {
          done := done + 1;
        } else if ret == Error {
          return;
        }
        at := at + 1;
      }
      ret := if done == |finished| then EndOfFile else Ok;
    }

    /** sch_enc_send: like SendToAll, but it never reports EOF. */
    method EncSend(data: Option<int>) returns (ret: Ret, ghost at: nat)
      requires Valid()
      modifies this`finished, this`events, this`clock
      ensures Valid() && Stepped(at, old(events), old(finished), old(clock), data, false)
      ensures forall i: nat :: i < at ==> !Fails(i, old(finished), old(clock), data, false)
      ensures clock == old(clock) + at + Bit(ret == Error)
      ensures ret != Error ==> at == |finished| && ret == Ok
      ensures ret == Error ==> at < |finished| && Fails(at, old(finished), old(clock), data, false)
    {
      at := 0;
      for i := 0 to |finished|
        invariant Valid() && at == i && clock == old(clock) + i
        invariant Stepped(i, old(events), old(finished), old(clock), data, false)
        invariant forall k: nat :: k < i ==> !Fails(k, old(finished), old(clock), data, false)
      {
        ret := SendToDst(i, data, false);
        if ret == Error {
          return;
        }
        at := at + 1;
      }
      ret := Ok;
    }

    /** demux_done, dec_done and enc_done for these destinations: whatever was sent
        before, every one of them has now got exactly one finish, as its last event. */
    method Done()
      requires Valid()
      modifies this`finished, this`events, this`clock
      ensures Valid() && |finished| == |old(finished)| && AllFinished() && clock == old(clock) + |finished|
      ensures forall i :: 0 <= i < |finished| ==>
        events[i] == if old(finished)[i] then old(events)[i] else old(events)[i] + [Finish]
    {
      for i := 0 to |finished|
        invariant Valid() && |finished| == |old(finished)| && clock == old(clock) + i
        invariant forall k :: 0 <= k < i ==> finished[k]
        invariant forall k :: 0 <= k < i ==>
          events[k] == if old(finished)[k] then old(events)[k] else old(events)[k] + [Finish]
        invariant forall k :: i <= k < |finished| ==> finished[k] == old(finished)[k] && events[k] == old(events)[k]
      {
        var _ := SendToDst(i, None, false);
      }
    }
  }

  // --- the inputs of a filtergraph ---------------------------------------------------

  ghost function Count(flags: seq<bool>): (n: nat)
    ensures n <= |flags|
  {
    if flags == [] then 0
    else Count(flags[..|flags| - 1]) + if flags[|flags| - 1] then 1 else 0
  }

  lemma {:induction false} CountSet(flags: seq<bool>, i: nat)
    requires i < |flags| && !flags[i]
    ensures Count(flags[i := true]) == Count(flags) + 1
    decreases |flags|
  {
    var n := |flags| - 1;
    var set' := flags[i := true];
    if i == n {
      assert set'[..n] == flags[..n];
    } else {
      assert set'[..n] == flags[..n][i := true];
      CountSet(flags[..n], i);
    }
  }

  lemma {:induction false} CountAll(flags: seq<bool>)
    ensures Count(flags) == |flags| <==> forall i :: 0 <= i < |flags| ==> flags[i]
    decreases |flags|
  {
    if flags == [] {
    } else {
      var n := |flags| - 1;
      CountAll(flags[..n]);
      assert forall i :: 0 <= i < n ==> flags[..n][i] == flags[i];
    }
  }

  lemma {:induction false} CountNone(flags: seq<bool>)
    requires forall i :: 0 <= i < |flags| ==> !flags[i]
    ensures Count(flags) == 0
    decreases |flags|
  {
    if flags == [] {
    } else {
      CountNone(flags[..|flags| - 1]);
    }
  }

  /** One side, sending or receiving, of the queue of a filtergraph.  `closes` counts how
      often each stream of it has been finished; the last is the control stream.  `taskEnds`
      counts how often the filtergraph's own task has finished them all. */
  datatype Side = Side(finished: seq<bool>, nbFinished: nat, closes: seq<nat>, taskEnds: nat)

  ghost predicate AllSet(flags: seq<bool>) {
    forall i :: 0 <= i < |flags| ==> flags[i]
  }

  /** The counter tells how many inputs are closed, apart from the end of the task.  Each is
      closed once, and the control stream once with the last of them; the end of the task
      closes everything once more. */
  ghost predicate SideOk(s: Side) {
    var n := |s.finished|;
    && |s.closes| == n + 1
    && s.nbFinished == Count(s.finished)
    && (forall i :: 0 <= i < n ==> s.closes[i] == Bit(s.finished[i]) + s.taskEnds)
    && s.closes[n] == Bit(n > 0 && AllSet(s.finished)) + s.taskEnds
  }

  /** The queue of a filtergraph; only its receiving side is finished by its task. */
  datatype FilterQueue = FilterQueue(send: Side, receive: Side)

  ghost predicate QueueOk(q: FilterQueue) {
    SideOk(q.send) && SideOk(q.receive) && |q.send.finished| == |q.receive.finished| && q.send.taskEnds == 0
  }

  function NewQueue(n: nat): (q: FilterQueue)
    ensures QueueOk(q) && |q.send.finished| == n && q.receive == q.send
    ensures forall i :: 0 <= i < n ==> !q.send.finished[i]
  {
    var none := seq(n, _ => false);
    CountNone(none);
    var side := Side(none, 0, seq(n + 1, _ => 0), 0);
    FilterQueue(side, side)
  }

  /** Close an input once, and the control stream with the last of them. */
  method Close(s: Side, i: nat) returns (r: Side)
    requires SideOk(s) && i < |s.finished|
    ensures SideOk(r) && r.finished == s.finished[i := true] && r.taskEnds == s.taskEnds
    // what has been closed stays so
    ensures |r.closes| == |s.closes| && forall k :: 0 <= k < |s.closes| ==> s.closes[k] <= r.closes[k]
  {
    r := s;
    if !s.finished[i] {
      var n := |s.finished|;
      CountSet(s.finished, i);
      CountAll(s.finished[i := true]);
      r := r.(finished := r.finished[i := true], closes := r.closes[i := r.closes[i] + 1],
        nbFinished := r.nbFinished + 1);
      if r.nbFinished == n {
        r := r.(closes := r.closes[n := r.closes[n] + 1]);
      }
    }
  }

  /** The beginning of filter_done: every stream, and the control stream, is closed for
      receiving, past the counter and the flags. */
  method CloseAll(s: Side) returns (r: Side)
    requires SideOk(s)
    ensures SideOk(r) && r.finished == s.finished && r.nbFinished == s.nbFinished && r.taskEnds == s.taskEnds + 1
    ensures |r.closes| == |s.closes| && forall k :: 0 <= k < |s.closes| ==> r.closes[k] == s.closes[k] + 1
  {
    var closes := s.closes;
    for i := 0 to |closes|
      invariant |closes| == |s.closes|
      invariant forall k :: 0 <= k < |closes| ==> closes[k] == s.closes[k] + if k < i then 1 else 0
    {
      closes := closes[i := closes[i] + 1];
    }
    r := s.(closes := closes, taskEnds := s.taskEnds + 1);
  }
}
