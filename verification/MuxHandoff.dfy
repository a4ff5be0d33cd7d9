/** Senders racing with the start of a muxer.

    Each stream of the muxer has one sender, which calls send_to_mux for one packet
    after another.  A starter flushes the pre-muxing FIFOs under mux_ready_lock and
    then sets mux_started.  Every atomic access and lock operation is a step of its
    own, and steps of different threads interleave in any order. */
module MuxHandoff {

  /** A packet, or the NULL packet that ends the stream. */
  datatype Item = Packet(id: int) | EndOfStream

  /** A call of send_to_mux, and whether it has returned an error because the packet could
      not be buffered. */
  datatype Attempt = Attempt(item: Item, refused: bool)

  /** Where a sender is in send_to_mux. */
  datatype Sender =
    | Idle
    | Called(item: Item)       // about to load mux_started
    | WantLock(item: Item)     // it was not set
    | HasLock(item: Item)      // about to load it again
    | Queued                   // buffered; about to unlock and return
    | Refused                  // not buffered; about to unlock and return an error
    | FallThrough(item: Item)  // it is set now; about to unlock
    | Direct(item: Item)       // about to send to the muxer's queue

  /** Where the starter is in mux_task_start and its caller. */
  datatype Starter = Waiting | Flushing | HasStarted | HasFailed | Started | Failed

  datatype Owner = Free | BySender(stream: nat) | ByStarter

  /** `fifo`, `queue`, `sender` and `called` have one entry for each stream: the FIFO,
      what the muxer's queue has accepted, the sender and all its calls.  `closed` says
      that the queue has returned EOF for the stream, `failed` that the flush gave up on
      a packet of it. */
  datatype State = State(
    started: bool,
    lock: Owner,
    fifo: seq<seq<Item>>,
    queue: seq<seq<Item>>,
    closed: seq<bool>,
    failed: seq<bool>,
    sender: seq<Sender>,
    starter: Starter,
    called: seq<seq<Attempt>>)

  /** `eof`: the receiver has finished the stream by the time of the step. */
  datatype Step =
    | Call(s: nat, item: Item)
    | Load(s: nat)
    | Acquire(s: nat)
    | Recheck(s: nat)
    | Refuse(s: nat)
    | Release(s: nat)
    | Send(s: nat, eof: bool)
    | StarterAcquire
    | Flush(s: nat, eof: bool)
    | StartFails
    | FlushFails(s: nat)
    | SetStarted
    | StarterRelease

  predicate HasStream(st: State, s: nat) {
    && s < |st.sender|
    && |st.sender| == |st.fifo| == |st.queue| == |st.closed| == |st.failed| == |st.called|
  }

  /** The end of the stream is the last thing a sender is called with (EofProtocol.SlotOk). */
  predicate Ended(called: seq<Attempt>) {
    called != [] && called[|called| - 1].item.EndOfStream?
  }

  predicate HoldsLock(p: Sender) { p.HasLock? || p.Queued? || p.Refused? || p.FallThrough? }

  predicate Enabled(st: State, step: Step) {
    match step
    case Call(s, _) => HasStream(st, s) && st.sender[s].Idle? && !Ended(st.called[s])
    case Load(s) => HasStream(st, s) && st.sender[s].Called?
    case Acquire(s) => HasStream(st, s) && st.sender[s].WantLock? && st.lock == Free
    case Recheck(s) => HasStream(st, s) && st.sender[s].HasLock?
    case Refuse(s) => HasStream(st, s) && st.sender[s].HasLock? && !st.started && st.called[s] != []
    case Release(s) => HasStream(st, s) && HoldsLock(st.sender[s]) && !st.sender[s].HasLock?
    case Send(s, _) => HasStream(st, s) && st.sender[s].Direct?
    case StarterAcquire => st.starter == Waiting && st.lock == Free
    case Flush(s, _) => HasStream(st, s) && st.starter == Flushing && st.fifo[s] != []
    case StartFails => st.starter == Flushing
    case FlushFails(s) => HasStream(st, s) && st.starter == Flushing && st.fifo[s] != []
    case SetStarted => st.starter == Flushing && forall s :: 0 <= s < |st.fifo| ==> st.fifo[s] == []
    case StarterRelease => st.starter == HasStarted || st.starter == HasFailed
  }

  /** Hand an item to the queue, which discards it once the stream is closed. */
  function Deliver(st: State, s: nat, item: Item, eof: bool): State
    requires HasStream(st, s)
  {
    if st.closed[s] || eof then st.(closed := st.closed[s := true])
    else st.(queue := st.queue[s := st.queue[s] + [item]])
  }

  /** The last call has been refused. */
  function MarkRefused(called: seq<Attempt>): seq<Attempt>
    requires called != []
  {
    called[..|called| - 1] + [Attempt(called[|called| - 1].item, true)]
  }

  function Apply(st: State, step: Step): State
    requires Enabled(st, step)
  {
    match step
    case Call(s, item) =>
      st.(sender := st.sender[s := Called(item)], called := st.called[s := st.called[s] + [Attempt(item, false)]])
    case Load(s) =>
      var item := st.sender[s].item;
      st.(sender := st.sender[s := if st.started then Direct(item) else WantLock(item)])
    case Acquire(s) => st.(sender := st.sender[s := HasLock(st.sender[s].item)], lock := BySender(s))
    case Recheck(s) =>
      var item := st.sender[s].item;
      if st.started then st.(sender := st.sender[s := FallThrough(item)])
      else st.(sender := st.sender[s := Queued], fifo := st.fifo[s := st.fifo[s] + [item]])
    case Refuse(s) => st.(sender := st.sender[s := Refused], called := st.called[s := MarkRefused(st.called[s])])
    case Release(s) =>
      st.(sender := st.sender[s := if st.sender[s].FallThrough? then Direct(st.sender[s].item) else Idle], lock := Free)
    case Send(s, eof) => Deliver(st, s, st.sender[s].item, eof).(sender := st.sender[s := Idle])
    case StarterAcquire => st.(starter := Flushing, lock := ByStarter)
    case Flush(s, eof) => Deliver(st, s, st.fifo[s][0], eof).(fifo := st.fifo[s := st.fifo[s][1..]])
    case StartFails => st.(starter := HasFailed)
    case FlushFails(s) =>
      st.(starter := HasFailed, failed := st.failed[s := true], fifo := st.fifo[s := st.fifo[s][1..]])
    case SetStarted => st.(started := true, starter := HasStarted)
    case StarterRelease => st.(starter := if st.starter == HasStarted then Started else Failed, lock := Free)
  }

  ghost predicate Init(st: State) {
    && !st.started && st.lock == Free && st.starter == Waiting
    && |st.sender| == |st.fifo| == |st.queue| == |st.closed| == |st.failed| == |st.called|
    && forall s :: 0 <= s < |st.sender| ==>
         && st.sender[s] == Idle && st.fifo[s] == [] && st.queue[s] == []
         && !st.closed[s] && !st.failed[s] && st.called[s] == []
  }

  ghost predicate Next(st: State, st': State) {
    exists step :: Enabled(st, step) && st' == Apply(st, step)
  }

  ghost predicate IsRun(run: seq<State>) {
    && run != [] && Init(run[0])
    && forall i :: 0 <= i < |run| - 1 ==> Next(run[i], run[i + 1])
  }

  // --- what has become of the calls --------------------------------------------------

  /** The items of the calls that were not refused, in call order. */
  ghost function Kept(called: seq<Attempt>): seq<Item> {
    if called == [] then []
    else
      var last := called[|called| - 1];
      Kept(called[..|called| - 1]) + if last.refused then [] else [last.item]
  }

  lemma KeptAppend(called: seq<Attempt>, a: Attempt)
    ensures Kept(called + [a]) == Kept(called) + if a.refused then [] else [a.item]
  {
    assert (called + [a])[..|called|] == called;
  }

  ghost predicate NothingRefused(called: seq<Attempt>) {
    forall k :: 0 <= k < |called| ==> !called[k].refused
  }

  lemma {:induction false} AllKept(called: seq<Attempt>)
    requires NothingRefused(called)
    ensures |Kept(called)| == |called|
    ensures forall k :: 0 <= k < |called| ==> Kept(called)[k] == called[k].item
  {
    if called == [] {
    } else {
      AllKept(called[..|called| - 1]);
    }
  }

  /** The item a sender has been called with and not yet passed on. */
  function InFlight(p: Sender): seq<Item> {
    match p
    case Idle => []
    case Queued => []
    case Refused => []
    case Called(item) => [item]
    case WantLock(item) => [item]
    case HasLock(item) => [item]
    case FallThrough(item) => [item]
    case Direct(item) => [item]
  }

  /** The calls before the one in flight. */
  ghost function Past(p: Sender, called: seq<Attempt>): seq<Attempt> {
    if InFlight(p) == [] || called == [] then called else called[..|called| - 1]
  }

  // --- the invariant -----------------------------------------------------------------

  /** Between what has been taken and what is buffered, one item is missing. */
  ghost predicate OneLost(taken: seq<Item>, buffered: seq<Item>, all: seq<Item>) {
    |taken| < |all| && taken == all[..|taken|] && buffered == all[|taken| + 1..]
  }

  ghost predicate StreamInv(st: State, s: nat)
    requires HasStream(st, s)
  {
    var p, called := st.sender[s], st.called[s];
    && (HoldsLock(p) <==> st.lock == BySender(s))
    && (p.FallThrough? || p.Direct? ==> st.started)
    && (p.Queued? || p.Refused? ==> !st.started)
    && (st.started ==> st.fifo[s] == [])
    && (st.failed[s] ==> st.starter == HasFailed || st.starter == Failed)
    && (InFlight(p) != [] ==> called != [] && called[|called| - 1] == Attempt(InFlight(p)[0], false))
    && (if st.closed[s] then st.queue[s] <= Kept(Past(p, called))
        else if st.failed[s] then OneLost(st.queue[s], st.fifo[s], Kept(Past(p, called)))
        else st.queue[s] + st.fifo[s] == Kept(Past(p, called)))
  }

  ghost predicate Inv(st: State) {
    && |st.sender| == |st.fifo| == |st.queue| == |st.closed| == |st.failed| == |st.called|
    && (st.lock == ByStarter <==> st.starter == Flushing || st.starter == HasStarted || st.starter == HasFailed)
    && (st.started <==> st.starter == HasStarted || st.starter == Started)
    && forall s: nat :: s < |st.sender| ==> StreamInv(st, s)
  }

  predicate BySenderThread(step: Step) {
    step.Call? || step.Load? || step.Acquire? || step.Recheck? || step.Refuse? || step.Release? || step.Send?
  }

  /** The call in flight is the last one. */
  lemma PastAndPresent(p: Sender, called: seq<Attempt>)
    requires InFlight(p) != [] ==> called != [] && called[|called| - 1] == Attempt(InFlight(p)[0], false)
    ensures Kept(called) == Kept(Past(p, called)) + InFlight(p)
  {
    hide Kept;
    if InFlight(p) != [] {
      var n := |called| - 1;
      assert called == called[..n] + [called[n]];
      KeptAppend(called[..n], called[n]);
    }
  }

  lemma RefusedIsNotKept(called: seq<Attempt>)
    requires called != []
    ensures Kept(MarkRefused(called)) == Kept(called[..|called| - 1])
  {
    var n := |called| - 1;
    KeptAppend(called[..n], Attempt(called[n].item, true));
  }

  /** A sender's step leaves the other streams alone, but for the lock. */
  lemma OtherStreamSame(st: State, step: Step, t: nat)
    requires Enabled(st, step) && BySenderThread(step) && t < |st.sender| && t != step.s
    ensures HasStream(st, step.s) && HasStream(Apply(st, step), t)
    ensures var st' := Apply(st, step);
      && st'.sender[t] == st.sender[t] && st'.called[t] == st.called[t]
      && st'.fifo[t] == st.fifo[t] && st'.queue[t] == st.queue[t]
      && st'.closed[t] == st.closed[t] && st'.failed[t] == st.failed[t]
      && st'.started == st.started && st'.starter == st.starter
      && (st'.lock == st.lock || (st.lock == Free && st'.lock == BySender(step.s)) ||
           (HoldsLock(st.sender[step.s]) && st'.lock == Free))
  {
  }

  lemma OtherStreamKept(st: State, step: Step, t: nat)
    requires Inv(st) && Enabled(st, step) && t < |st.sender| && BySenderThread(step) && t != step.s
    ensures HasStream(Apply(st, step), t) && StreamInv(Apply(st, step), t)
  {
    OtherStreamSame(st, step, t);
    hide Kept, Past, Enabled, Apply;
    assert StreamInv(st, t) && StreamInv(st, step.s);
  }

  /** A sender looks whether the muxer has started, and waits for the lock if not. */
  lemma LoadKeepsStream(st: State, step: Step)
    requires Inv(st) && Enabled(st, step) && (step.Load? || step.Acquire?)
    ensures HasStream(Apply(st, step), step.s) && StreamInv(Apply(st, step), step.s)
  {
    assert StreamInv(st, step.s);
    hide Kept;
  }

  /** It looks again under the lock, buffers the item or goes on, and unlocks. */
  lemma LockedKeepsStream(st: State, step: Step)
    requires Inv(st) && Enabled(st, step) && (step.Recheck? || step.Release?)
    ensures HasStream(Apply(st, step), step.s) && StreamInv(Apply(st, step), step.s)
  {
    hide Kept;
    assert StreamInv(st, step.s);
    PastAndPresent(st.sender[step.s], st.called[step.s]);
  }

  /** A sender enters a call. */
  lemma CallKeepsStream(st: State, s: nat, item: Item)
    requires Inv(st) && Enabled(st, Call(s, item))
    ensures HasStream(Apply(st, Call(s, item)), s) && StreamInv(Apply(st, Call(s, item)), s)
  {
    assert StreamInv(st, s);
    var called := st.called[s];
    assert (called + [Attempt(item, false)])[..|called|] == called;
    hide Kept;
  }

  /** It is going to return an error. */
  lemma RefuseKeepsStream(st: State, s: nat)
    requires Inv(st) && Enabled(st, Refuse(s))
    ensures HasStream(Apply(st, Refuse(s)), s) && StreamInv(Apply(st, Refuse(s)), s)
  {
    assert StreamInv(st, s);
    RefusedIsNotKept(st.called[s]);
    hide Kept;
  }

  /** It leaves with what it was called with. */
  lemma SendKeepsStream(st: State, s: nat, eof: bool)
    requires Inv(st) && Enabled(st, Send(s, eof))
    ensures HasStream(Apply(st, Send(s, eof)), s) && StreamInv(Apply(st, Send(s, eof)), s)
  {
    assert StreamInv(st, s);
    PastAndPresent(st.sender[s], st.called[s]);
    assert st.queue[s] + [] == st.queue[s];
    hide Kept;
  }

  lemma SenderStepKeepsStream(st: State, step: Step, t: nat)
    requires Inv(st) && Enabled(st, step) && t < |st.sender| && BySenderThread(step)
    ensures HasStream(Apply(st, step), t) && StreamInv(Apply(st, step), t)
  {
    hide Enabled, StreamInv, Apply;
    if t != step.s {
      OtherStreamKept(st, step, t);
    } else if step.Call? {
      CallKeepsStream(st, step.s, step.item);
    } else if step.Refuse? {
      RefuseKeepsStream(st, step.s);
    } else if step.Send? {
      SendKeepsStream(st, step.s, step.eof);
    } else if step.Load? || step.Acquire? {
      LoadKeepsStream(st, step);
    } else {
      LockedKeepsStream(st, step);
    }
  }

  /** The starter passes on a buffered item. */
  lemma FlushKeepsStream(st: State, s: nat, eof: bool, t: nat)
    requires Inv(st) && Enabled(st, Flush(s, eof)) && t < |st.sender|
    ensures HasStream(Apply(st, Flush(s, eof)), t) && StreamInv(Apply(st, Flush(s, eof)), t)
  {
    hide Kept, Past;
    assert StreamInv(st, t);
    if t == s {
      assert st.fifo[t] == [st.fifo[t][0]] + st.fifo[t][1..];
    }
  }

  /** The starter gives up on a buffered item. */
  lemma FlushFailsKeepsStream(st: State, s: nat, t: nat)
    requires Inv(st) && Enabled(st, FlushFails(s)) && t < |st.sender|
    ensures HasStream(Apply(st, FlushFails(s)), t) && StreamInv(Apply(st, FlushFails(s)), t)
  {
    hide Kept, Past;
    assert StreamInv(st, t);
  }

  lemma StarterStepKeepsStream(st: State, step: Step, t: nat)
    requires Inv(st) && Enabled(st, step) && t < |st.sender| && !BySenderThread(step)
    ensures HasStream(Apply(st, step), t) && StreamInv(Apply(st, step), t)
  {
    hide Kept, Past, Deliver;
    if step.Flush? {
      FlushKeepsStream(st, step.s, step.eof, t);
    } else if step.FlushFails? {
      FlushFailsKeepsStream(st, step.s, t);
    } else {
      assert StreamInv(st, t);
    }
  }

  lemma StepKeepsInv(st: State, step: Step)
    requires Inv(st) && Enabled(st, step)
    ensures Inv(Apply(st, step))
  {
    var st' := Apply(st, step);
    forall t: nat | t < |st'.sender|
      ensures HasStream(st', t) && StreamInv(st', t)
    {
      if BySenderThread(step) {
        SenderStepKeepsStream(st, step, t);
      } else {
        StarterStepKeepsStream(st, step, t);
      }
    }
    if step.Release? {
      assert StreamInv(st, step.s);
    }
  }

  lemma {:induction false} RunKeepsInv(run: seq<State>, i: nat)
    requires IsRun(run) && i < |run|
    ensures Inv(run[i])
  {
    if i == 0 {
      forall s: nat | s < |run[0].sender| ensures StreamInv(run[0], s) {}
    } else {
      RunKeepsInv(run, i - 1);
      assert Next(run[i - 1], run[i - 1 + 1]);
      var step :| Enabled(run[i - 1], step) && run[i] == Apply(run[i - 1], step);
      StepKeepsInv(run[i - 1], step);
    }
  }

  /** In every reachable state a started muxer has no buffered packet left, and the queue
      has taken each stream's packets in call order: all of them up to those still buffered
      or in flight, but for those whose call has returned an error.  Once the receiver has
      closed the stream, or a flush has given up on it, they are a prefix of that. */
  lemma HandoffKeepsOrder(run: seq<State>, i: nat, s: nat)
    requires IsRun(run) && i < |run| && s < |run[i].sender|
    ensures HasStream(run[i], s)
    ensures run[i].started ==> run[i].fifo[s] == []
    ensures run[i].queue[s] <= Kept(run[i].called[s])
    ensures !run[i].closed[s] && !run[i].failed[s] ==>
      Kept(run[i].called[s]) == run[i].queue[s] + run[i].fifo[s] + InFlight(run[i].sender[s])
    // or but for the one packet that the flush could not pass on
    ensures !run[i].closed[s] && run[i].failed[s] ==>
      OneLost(run[i].queue[s], run[i].fifo[s] + InFlight(run[i].sender[s]), Kept(run[i].called[s]))
    // no stream of a muxer that has started was given up
    ensures run[i].started ==> !run[i].failed[s]
  {
    RunKeepsInv(run, i);
    assert StreamInv(run[i], s);
    var called := run[i].called[s];
    if called != [] {
      assert called == called[..|called| - 1] + [called[|called| - 1]];
    }
  }

  /** Once the muxer has started, a sender that has returned from all its calls has had
      everything delivered that was not refused, unless the stream was closed. */
  lemma NothingStaysBehind(run: seq<State>, i: nat, s: nat)
    requires IsRun(run) && i < |run| && s < |run[i].sender|
    requires run[i].started && run[i].sender[s] == Idle && HasStream(run[i], s) && !run[i].closed[s]
    ensures run[i].queue[s] == Kept(run[i].called[s])
    ensures NothingRefused(run[i].called[s]) ==>
      |run[i].queue[s]| == |run[i].called[s]| && forall k :: 0 <= k < |run[i].queue[s]| ==>
        run[i].queue[s][k] == run[i].called[s][k].item
  {
    HandoffKeepsOrder(run, i, s);
    assert run[i].queue[s] + [] + [] == run[i].queue[s];
    if NothingRefused(run[i].called[s]) {
      AllKept(run[i].called[s]);
    }
  }

  lemma FailedIsFinal(st: State, step: Step)
    requires Inv(st) && Enabled(st, step) && st.starter == Failed
    ensures Apply(st, step).starter == Failed && Apply(st, step).queue == st.queue
  {
    if BySenderThread(step) {
      assert StreamInv(st, step.s);
    }
  }

  /** After a failed start nothing reaches the queue any more. */
  lemma {:induction false} FailedStartStaysSilent(run: seq<State>, i: nat, j: nat)
    requires IsRun(run) && i <= j < |run| && run[i].starter == Failed
    ensures run[j].starter == Failed && run[j].queue == run[i].queue
    decreases j
  {
    hide Enabled, Apply, Inv;
    if i == j {
    } else {
      FailedStartStaysSilent(run, i, j - 1);
      RunKeepsInv(run, j - 1);
      assert Next(run[j - 1], run[j - 1 + 1]);
      var step :| Enabled(run[j - 1], step) && run[j] == Apply(run[j - 1], step);
      FailedIsFinal(run[j - 1], step);
    }
  }

  /** No two threads are ever in the section that mux_ready_lock protects. */
  lemma LockIsExclusive(run: seq<State>, i: nat, s: nat, t: nat)
    requires IsRun(run) && i < |run| && s < |run[i].sender| && t < |run[i].sender|
    requires HoldsLock(run[i].sender[s])
    ensures HoldsLock(run[i].sender[t]) ==> s == t
    ensures run[i].starter != Flushing
  {
    RunKeepsInv(run, i);
    assert StreamInv(run[i], s) && StreamInv(run[i], t);
  }

  // --- what the steps of a run make of a stream --------------------------------------------

  /** A run with the steps that it takes. */
  ghost predicate IsTrace(run: seq<State>, steps: seq<Step>) {
    && |run| == |steps| + 1 && Init(run[0])
    && forall i :: 0 <= i < |steps| ==> Enabled(run[i], steps[i]) && run[i + 1] == Apply(run[i], steps[i])
  }

  lemma TraceIsRun(run: seq<State>, steps: seq<Step>)
    requires IsTrace(run, steps)
    ensures IsRun(run)
  {
    hide Enabled, Apply, Init;
    forall i | 0 <= i < |run| - 1
      ensures Next(run[i], run[i + 1])
    {
      assert Enabled(run[i], steps[i]);
    }
  }

  /** The calls that the first i steps make for stream s, and which of them they refuse. */
  function CallsOf(steps: seq<Step>, i: nat, s: nat): seq<Attempt>
    requires i <= |steps|
  {
    if i == 0 then []
    else
      var before := CallsOf(steps, i - 1, s);
      match steps[i - 1]
      case Call(t, item) => if t == s then before + [Attempt(item, false)] else before
      case Refuse(t) => if t == s && before != [] then MarkRefused(before) else before
      case _ => before
  }

  /** In one of the first i steps, the queue returns EOF for the stream. */
  predicate ClosedIn(steps: seq<Step>, i: nat, s: nat)
    requires i <= |steps|
  {
    Send(s, true) in steps[..i] || Flush(s, true) in steps[..i]
  }

  predicate HasFailedStart(st: State) { st.starter == HasFailed || st.starter == Failed }

  lemma StreamStep(st: State, step: Step, s: nat)
    requires HasStream(st, s) && Enabled(st, step)
    ensures HasStream(Apply(st, step), s) && |Apply(st, step).sender| == |st.sender|
    ensures Apply(st, step).called[s] == match step
      case Call(t, item) => if t == s then st.called[s] + [Attempt(item, false)] else st.called[s]
      case Refuse(t) => if t == s && st.called[s] != [] then MarkRefused(st.called[s]) else st.called[s]
      case _ => st.called[s]
    ensures Apply(st, step).closed[s] <==> st.closed[s] || step == Send(s, true) || step == Flush(s, true)
    ensures Apply(st, step).failed[s] <==> st.failed[s] || step == FlushFails(s)
    ensures Apply(st, step).started <==> st.started || step == SetStarted
    ensures HasFailedStart(Apply(st, step)) <==> HasFailedStart(st) || step == StartFails || step.FlushFails?
  {
  }

  /** A stream is closed only when the queue has said so, is given up only in a flush that
      fails, and has been called as the steps say. */
  lemma {:induction false} HistoryOfStream(run: seq<State>, steps: seq<Step>, i: nat, s: nat)
    requires IsTrace(run, steps) && i < |run| && s < |run[0].sender|
    ensures HasStream(run[i], s) && |run[i].sender| == |run[0].sender|
    ensures run[i].called[s] == CallsOf(steps, i, s)
    ensures run[i].closed[s] <==> ClosedIn(steps, i, s)
    ensures run[i].failed[s] <==> FlushFails(s) in steps[..i]
    ensures run[i].started <==> SetStarted in steps[..i]
    ensures HasFailedStart(run[i]) <==> StartFails in steps[..i] || exists t :: FlushFails(t) in steps[..i]
  {
    if i > 0 {
      assert Enabled(run[i - 1], steps[i - 1]) && run[i - 1 + 1] == Apply(run[i - 1], steps[i - 1]);
      hide Enabled, Apply, MarkRefused;
      HistoryOfStream(run, steps, i - 1, s);
      assert steps[..i] == steps[..i - 1] + [steps[i - 1]];
      StreamStep(run[i - 1], steps[i - 1], s);
    }
  }

  /** No packet gets lost: as long as the queue has not returned EOF for the stream and no flush
      has given up on it, every packet of its calls that was not refused is in the queue,
      buffered, or in flight, in call order. */
  lemma NothingIsLost(run: seq<State>, steps: seq<Step>, i: nat, s: nat)
    requires IsTrace(run, steps) && i < |run| && s < |run[0].sender|
    requires !ClosedIn(steps, i, s) && FlushFails(s) !in steps[..i]
    ensures HasStream(run[i], s)
    ensures Kept(CallsOf(steps, i, s)) == run[i].queue[s] + run[i].fifo[s] + InFlight(run[i].sender[s])
  {
    hide IsTrace, CallsOf, ClosedIn;
    HistoryOfStream(run, steps, i, s);
    TraceIsRun(run, steps);
    HandoffKeepsOrder(run, i, s);
  }

  lemma DeadStaysDead(st: State, step: Step, s: nat)
    requires Inv(st) && HasStream(st, s) && Enabled(st, step) && (st.closed[s] || st.failed[s])
    ensures HasStream(Apply(st, step), s) && Apply(st, step).queue[s] == st.queue[s]
    ensures Apply(st, step).closed[s] || Apply(st, step).failed[s]
  {
    hide Kept;
    assert StreamInv(st, s);
  }

  /** What the queue has taken of a stream by then is all that it ever takes. */
  lemma {:induction false} QueueIsFinal(run: seq<State>, steps: seq<Step>, k: nat, i: nat, s: nat)
    requires IsTrace(run, steps) && k <= i < |run| && s < |run[0].sender|
    requires ClosedIn(steps, k, s) || FlushFails(s) in steps[..k]
    ensures HasStream(run[k], s) && HasStream(run[i], s) && run[i].queue[s] == run[k].queue[s]
    ensures run[i].closed[s] || run[i].failed[s]
    decreases i
  {
    hide Enabled, Apply, Inv, CallsOf, ClosedIn;
    HistoryOfStream(run, steps, k, s);
    if i > k {
      QueueIsFinal(run, steps, k, i - 1, s);
      assert Enabled(run[i - 1], steps[i - 1]) && run[i - 1 + 1] == Apply(run[i - 1], steps[i - 1]);
      TraceIsRun(run, steps);
      RunKeepsInv(run, i - 1);
      DeadStaysDead(run[i - 1], steps[i - 1], s);
    }
  }

  /** Nobody is left waiting for a lock that is not given back. */
  lemma NobodyIsBlocked(run: seq<State>, i: nat, s: nat, item: Item)
    requires IsRun(run) && i < |run| && s < |run[i].sender|
    ensures HasStream(run[i], s)
    // a sender can go on, unless it waits for the lock or has sent the end of its stream
    ensures var p := run[i].sender[s]; !(p.WantLock? && run[i].lock != Free) && !(p.Idle? && Ended(run[i].called[s])) ==>
      exists step :: step in {Call(s, item), Load(s), Acquire(s), Recheck(s), Release(s), Send(s, false)} &&
        Enabled(run[i], step)
    // one that is about to buffer its packet may find that it cannot
    ensures run[i].sender[s].HasLock? && !run[i].started ==> Enabled(run[i], Refuse(s))
    // whoever holds the lock can go on
    ensures run[i].lock == BySender(s) ==> Enabled(run[i], Recheck(s)) || Enabled(run[i], Release(s))
    ensures run[i].lock == ByStarter ==>
      Enabled(run[i], SetStarted) || Enabled(run[i], StarterRelease) || exists t :: Enabled(run[i], Flush(t, false))
    ensures run[i].starter == Waiting && run[i].lock == Free ==> Enabled(run[i], StarterAcquire)
  {
    RunKeepsInv(run, i);
    var st := run[i];
    assert StreamInv(st, s);
    hide Kept, Past, StreamInv;
    var next := match st.sender[s]
      case Idle => Call(s, item)
      case Called(_) => Load(s)
      case WantLock(_) => Acquire(s)
      case HasLock(_) => Recheck(s)
      case Direct(_) => Send(s, false)
      case _ => Release(s);
    assert !(st.sender[s].WantLock? && st.lock != Free) && !(st.sender[s].Idle? && Ended(st.called[s])) ==>
      Enabled(st, next);
    if st.starter == Flushing {
      if t: nat :| t < |st.fifo| && st.fifo[t] != [] {
        assert Enabled(st, Flush(t, false));
      }
    }
  }

  lemma Extend(run: seq<State>, steps: seq<Step>, step: Step) returns (run': seq<State>, steps': seq<Step>)
    requires IsTrace(run, steps) && run != [] && Enabled(run[|run| - 1], step)
    ensures IsTrace(run', steps') && run' == run + [Apply(run[|run| - 1], step)] && steps' == steps + [step]
  {
    hide Enabled, Apply, Init;
    run' := run + [Apply(run[|run| - 1], step)];
    steps' := steps + [step];
    forall i | 0 <= i < |steps'|
      ensures Enabled(run'[i], steps'[i]) && run'[i + 1] == Apply(run'[i], steps'[i])
    {
      if i < |steps| {
        assert Enabled(run[i], steps[i]);
      }
    }
  }

  /** A muxer with one stream, whose sender is between two calls. */
  ghost function Resting(started: bool, fifo: seq<Item>, queue: seq<Item>, called: seq<Attempt>): State {
    State(started, Free, [fifo], [queue], [false], [false], [Idle], if started then Started else Waiting, [called])
  }

  lemma IsResting(st: State, started: bool, fifo: seq<Item>, queue: seq<Item>, called: seq<Attempt>)
    requires st.started == started && st.lock == Free && st.starter == if started then Started else Waiting
    requires |st.sender| == 1 && HasStream(st, 0) && st.sender[0] == Idle && !st.closed[0] && !st.failed[0]
    requires st.fifo[0] == fifo && st.queue[0] == queue && st.called[0] == called
    ensures st == Resting(started, fifo, queue, called)
  {
    assert st.sender == [Idle] && st.closed == [false] && st.failed == [false];
    assert st.fifo == [fifo] && st.queue == [queue] && st.called == [called];
  }

  lemma Buffers(run: seq<State>, steps: seq<Step>, p: Item) returns (run': seq<State>, steps': seq<Step>)
    requires IsTrace(run, steps) && run != [] && run[|run| - 1] == Resting(false, [], [], [])
    ensures IsTrace(run', steps') && run' != [] && run'[|run'| - 1] == Resting(false, [p], [], [Attempt(p, false)])
  {
    hide IsTrace;
    run', steps' := Extend(run, steps, Call(0, p));
    run', steps' := Extend(run', steps', Load(0));
    run', steps' := Extend(run', steps', Acquire(0));
    run', steps' := Extend(run', steps', Recheck(0));
    run', steps' := Extend(run', steps', Release(0));
    IsResting(run'[|run'| - 1], false, [p], [], [Attempt(p, false)]);
  }

  lemma Starts(run: seq<State>, steps: seq<Step>, p: Item) returns (run': seq<State>, steps': seq<Step>)
    requires IsTrace(run, steps) && run != []
    requires run[|run| - 1] == Resting(false, [p], [], [Attempt(p, false)])
    ensures IsTrace(run', steps') && run' != [] && run'[|run'| - 1] == Resting(true, [], [p], [Attempt(p, false)])
  {
    hide IsTrace;
    run', steps' := Extend(run, steps, StarterAcquire);
    run', steps' := Extend(run', steps', Flush(0, false));
    run', steps' := Extend(run', steps', SetStarted);
    run', steps' := Extend(run', steps', StarterRelease);
    IsResting(run'[|run'| - 1], true, [], [p], [Attempt(p, false)]);
  }

  /** One packet before the start and one after it: both arrive. */
  lemma BothArrive(p: Item, q: Item) returns (run: seq<State>, steps: seq<Step>)
    requires p.Packet?
    ensures IsTrace(run, steps) && run != [] && run[|run| - 1].queue == [[p, q]]
  {
    run, steps := [Resting(false, [], [], [])], [];
    assert IsTrace(run, steps);
    hide IsTrace;
    run, steps := Buffers(run, steps, p);
    run, steps := Starts(run, steps, p);
    run, steps := Extend(run, steps, Call(0, q));
    run, steps := Extend(run, steps, Load(0));
    run, steps := Extend(run, steps, Send(0, false));
    IsResting(run[|run| - 1], true, [], [p, q], [Attempt(p, false), Attempt(q, false)]);
  }
}
