/** Choking a task: waiter_wait against waiter_set, with every lock operation, atomic
    access, signal and wakeup a step of its own.

    One task waits.  Two threads set: the updater, which runs schedule updates one at
    a time and may choke or unchoke at any moment, and the stopper, which runs
    sch_stop: it sets `terminate` without the lock and then chokes the waiter. */
module Waiter {

  /** Where the task is in waiter_wait. */
  datatype Task =
    | Outside        // not waiting; about to look at `choked` without the lock
    | WantLock       // it was set
    | AtTest         // holds the lock; about to evaluate the loop condition
    | GoingToSleep   // the condition held; about to wait
    | Asleep         // has released the lock and waits for a signal
    | Woken          // signalled, or woken for no reason; wants the lock back
    | Leaving        // the condition did not hold; about to load `terminate`
    | Unlocking(result: bool)

  /** Where a setter is in waiter_set. */
  datatype Setter =
    | Idle
    | Wanting(value: bool)
    | Holding(value: bool)
    | Stored         // has stored the value; about to signal
    | Signalled      // about to unlock

  datatype Owner = Free | ByTask | ByUpdater | ByStopper

  /** `stopping`: sch_stop has set `terminate`; `stopSignalled`: it has also signalled
      this waiter. */
  datatype State = State(
    choked: bool,
    terminate: bool,
    lock: Owner,
    task: Task,
    updater: Setter,
    stopper: Setter,
    stopSignalled: bool)

  datatype Who = Updater | Stopper

  datatype Step =
    | FastCheck
    | TaskLock
    | Test
    | Sleep
    | SpuriousWakeup
    | Relock
    | LoadTerminate
    | TaskUnlock
    | BeginSet(value: bool)
    | BeginStop
    | SetterLock(who: Who)
    | Store(who: Who)
    | Signal(who: Who)
    | SetterUnlock(who: Who)

  function SetterOf(st: State, who: Who): Setter {
    if who.Updater? then st.updater else st.stopper
  }

  function WithSetter(st: State, who: Who, p: Setter): State {
    if who.Updater? then st.(updater := p) else st.(stopper := p)
  }

  function OwnerOf(who: Who): Owner {
    if who.Updater? then ByUpdater else ByStopper
  }

  predicate Enabled(st: State, step: Step) {
    match step
    case FastCheck => st.task == Outside
    case TaskLock => st.task == WantLock && st.lock == Free
    case Test => st.task == AtTest
    case Sleep => st.task == GoingToSleep
    case SpuriousWakeup => st.task == Asleep
    case Relock => st.task == Woken && st.lock == Free
    case LoadTerminate => st.task == Leaving
    case TaskUnlock => st.task.Unlocking?
    case BeginSet(_) => st.updater == Idle
    case BeginStop => st.stopper == Idle && !st.terminate
    case SetterLock(who) => SetterOf(st, who).Wanting? && st.lock == Free
    case Store(who) => SetterOf(st, who).Holding?
    case Signal(who) => SetterOf(st, who) == Stored
    case SetterUnlock(who) => SetterOf(st, who) == Signalled
  }

  function Apply(st: State, step: Step): State
    requires Enabled(st, step)
  {
    match step
    case FastCheck => if st.choked then st.(task := WantLock) else st
    case TaskLock => st.(task := AtTest, lock := ByTask)
    case Test => st.(task := if st.choked && !st.terminate then GoingToSleep else Leaving)
    case Sleep => st.(task := Asleep, lock := Free)
    case SpuriousWakeup => st.(task := Woken)
    case Relock => st.(task := AtTest, lock := ByTask)
    case LoadTerminate => st.(task := Unlocking(st.terminate))
    case TaskUnlock => st.(task := Outside, lock := Free)
    case BeginSet(value) => st.(updater := Wanting(value))
    case BeginStop => st.(terminate := true, stopper := Wanting(true))
    case SetterLock(who) => WithSetter(st, who, Holding(SetterOf(st, who).value)).(lock := OwnerOf(who))
    case Store(who) => WithSetter(st, who, Stored).(choked := SetterOf(st, who).value)
    case Signal(who) =>
      var signalled := WithSetter(st, who, Signalled);
      signalled.(
        task := if st.task == Asleep then Woken else st.task,
        stopSignalled := st.stopSignalled || who.Stopper?)
    case SetterUnlock(who) => WithSetter(st, who, Idle).(lock := Free)
  }

  ghost predicate Init(st: State) {
    st == State(false, false, Free, Outside, Idle, Idle, false)
  }

  ghost predicate Next(st: State, st': State) {
    exists step :: Enabled(st, step) && st' == Apply(st, step)
  }

  ghost predicate IsRun(run: seq<State>) {
    && run != [] && Init(run[0])
    && forall i :: 0 <= i < |run| - 1 ==> Next(run[i], run[i + 1])
  }

  // --- the invariant -----------------------------------------------------------------

  predicate TaskHolds(t: Task) { t.AtTest? || t.GoingToSleep? || t.Leaving? || t.Unlocking? }

  predicate SetterHolds(p: Setter) { p.Holding? || p.Stored? || p.Signalled? }

  /** Some setter has stored a value and is about to signal. */
  predicate SignalPending(st: State) { st.updater == Stored || st.stopper == Stored }

  ghost predicate Inv(st: State) {
    && (TaskHolds(st.task) <==> st.lock == ByTask)
    && (SetterHolds(st.updater) <==> st.lock == ByUpdater)
    && (SetterHolds(st.stopper) <==> st.lock == ByStopper)
    && (st.stopSignalled ==> st.terminate)
    && (st.stopper != Idle ==> st.terminate)
    && ((st.task.GoingToSleep? || st.task.Asleep?) ==> (st.choked || SignalPending(st)) && !st.stopSignalled)
    && (st.terminate && (st.stopper == Idle || st.stopper == Signalled) ==> st.stopSignalled)
    && (st.task == Leaving ==> !st.choked || st.terminate)
    && (st.task.Unlocking? ==> if st.task.result then st.terminate else !st.choked)
    && (st.task.Unlocking? && st.stopSignalled ==> st.task.result)
  }

  lemma StepKeepsInv(st: State, step: Step)
    requires Inv(st) && Enabled(st, step)
    ensures Inv(Apply(st, step))
  {
  }

  lemma {:induction false} RunKeepsInv(run: seq<State>, i: nat)
    requires IsRun(run) && i < |run|
    ensures Inv(run[i])
  {
    if i == 0 {
    } else {
      RunKeepsInv(run, i - 1);
      assert Next(run[i - 1], run[i - 1 + 1]);
      var step :| Enabled(run[i - 1], step) && run[i] == Apply(run[i - 1], step);
      StepKeepsInv(run[i - 1], step);
    }
  }

  /** No wakeup is lost: in every reachable state a sleeping task is either choked or
      about to be signalled, and none sleeps once sch_stop has signalled it. */
  lemma NoLostWakeup(run: seq<State>, i: nat)
    requires IsRun(run) && i < |run| && run[i].task == Asleep
    ensures !run[i].choked ==> SignalPending(run[i])
    ensures run[i].terminate ==> SetterHolds(run[i].stopper) || run[i].stopper.Wanting?
    ensures !run[i].stopSignalled
  {
    RunKeepsInv(run, i);
  }

  /** A task that has waited goes on only while it is not choked, and gives up only on
      termination. */
  lemma WaitResult(run: seq<State>, i: nat)
    requires IsRun(run) && i < |run| && run[i].task.Unlocking?
    ensures run[i].task.result ==> run[i].terminate
    ensures !run[i].task.result ==> !run[i].choked
  {
    RunKeepsInv(run, i);
  }

  lemma WakesFromSleep(st: State, step: Step)
    requires Enabled(st, step) && st.task == Asleep && Apply(st, step).task != Asleep
    ensures Apply(st, step).task == Woken
  {
  }

  /** A sleeper stops sleeping only by being woken. */
  lemma {:induction false} LeavesSleepWoken(run: seq<State>, i: nat, j: nat)
    requires IsRun(run) && i <= j < |run| && run[i].task == Asleep && run[j].task != Asleep
    ensures exists k :: i < k <= j && run[k].task == Woken
    decreases j
  {
    hide Enabled, Apply;
    if run[j - 1].task != Asleep {
      LeavesSleepWoken(run, i, j - 1);
    } else {
      assert Next(run[j - 1], run[j - 1 + 1]);
      var step :| Enabled(run[j - 1], step) && run[j] == Apply(run[j - 1], step);
      WakesFromSleep(run[j - 1], step);
    }
  }

  /** A setter that has stored a value does nothing else before it has signalled. */
  lemma StoredUntilSignal(st: State, step: Step, who: Who)
    requires Enabled(st, step) && SetterOf(st, who) == Stored && SetterOf(Apply(st, step), who) != Stored
    ensures Apply(st, step).task != Asleep
  {
  }

  lemma {:induction false} WokenBySetter(run: seq<State>, i: nat, j: nat, who: Who)
    requires IsRun(run) && i <= j < |run| && run[i].task == Asleep
    requires SetterOf(run[i], who) == Stored && SetterOf(run[j], who) != Stored
    ensures exists k :: i < k <= j && run[k].task == Woken
    decreases j
  {
    hide Enabled, Apply, SetterOf;
    if SetterOf(run[j - 1], who) != Stored {
      WokenBySetter(run, i, j - 1, who);
    } else {
      assert Next(run[j - 1], run[j - 1 + 1]);
      var step :| Enabled(run[j - 1], step) && run[j] == Apply(run[j - 1], step);
      StoredUntilSignal(run[j - 1], step, who);
      LeavesSleepWoken(run, i, j);
    }
  }

  /** Whenever the task sleeps without being choked, some setter holds the lock and is about to
      signal, and by the time that it has gone on, in whatever run, the task has been woken. */
  lemma SleeperIsWoken(run: seq<State>, i: nat) returns (who: Who)
    requires IsRun(run) && i < |run| && run[i].task == Asleep && !run[i].choked
    ensures SetterOf(run[i], who) == Stored && run[i].lock == OwnerOf(who) && Enabled(run[i], Signal(who))
    ensures forall j: nat :: i <= j < |run| && SetterOf(run[j], who) != Stored ==>
      exists k :: i < k <= j && run[k].task == Woken
  {
    RunKeepsInv(run, i);
    who := if run[i].updater == Stored then Updater else Stopper;
    forall j: nat | i <= j < |run| && SetterOf(run[j], who) != Stored
      ensures exists k :: i < k <= j && run[k].task == Woken
    {
      WokenBySetter(run, i, j, who);
    }
  }

  lemma {:induction false} StaysSignalled(run: seq<State>, i: nat, j: nat)
    requires IsRun(run) && i <= j < |run| && run[i].stopSignalled
    ensures run[j].stopSignalled
    decreases j
  {
    if i < j {
      StaysSignalled(run, i, j - 1);
      assert Next(run[j - 1], run[j - 1 + 1]);
    }
  }

  /** From the moment when sch_stop has signalled, in every run, the task never sleeps again, and
      every wait that goes on returns the order to terminate. */
  lemma StoppedTaskLeaves(run: seq<State>, i: nat, j: nat)
    requires IsRun(run) && i <= j < |run| && run[i].stopSignalled
    ensures run[j].task != GoingToSleep && run[j].task != Asleep
    ensures run[j].task.Unlocking? ==> run[j].task.result
  {
    StaysSignalled(run, i, j);
    RunKeepsInv(run, j);
  }

  // --- what the steps of a run have to do with each other --------------------------------

  /** A run with the steps that it takes. */
  ghost predicate IsTrace(run: seq<State>, steps: seq<Step>) {
    && |run| == |steps| + 1 && Init(run[0])
    && forall i :: 0 <= i < |steps| ==> Enabled(run[i], steps[i]) && run[i + 1] == Apply(run[i], steps[i])
  }

  lemma TraceIsRun(run: seq<State>, steps: seq<Step>)
    requires IsTrace(run, steps)
    ensures IsRun(run)
  {
    hide Enabled, Apply, Init;
    forall i | 0 <= i < |run| - 1
      ensures Next(run[i], run[i + 1])
    {
      assert Enabled(run[i], steps[i]);
    }
  }

  /** The value of the last waiter_set that `who` has begun in the first i steps. */
  function Asked(steps: seq<Step>, i: nat, who: Who): bool
    requires i <= |steps|
  {
    if i == 0 then false
    else match steps[i - 1]
      case BeginSet(value) => if who.Updater? then value else Asked(steps, i - 1, who)
      case BeginStop => if who.Stopper? then true else Asked(steps, i - 1, who)
      case _ => Asked(steps, i - 1, who)
  }

  /** The value of the last waiter_set that has stored it. */
  function LastSet(steps: seq<Step>, i: nat): bool
    requires i <= |steps|
  {
    if i == 0 then false
    else if steps[i - 1].Store? then Asked(steps, i - 1, steps[i - 1].who)
    else LastSet(steps, i - 1)
  }

  predicate Carries(p: Setter, value: bool) { p.Wanting? || p.Holding? ==> p.value == value }

  lemma FlagStep(st: State, step: Step, who: Who, v: bool)
    requires Enabled(st, step) && Carries(SetterOf(st, who), v)
    ensures Apply(st, step).choked == if step.Store? then SetterOf(st, step.who).value else st.choked
    ensures step.Store? ==> SetterOf(st, step.who).Holding?
    ensures Apply(st, step).terminate == (st.terminate || step == BeginStop)
    ensures Carries(SetterOf(Apply(st, step), who),
      if who.Updater? && step.BeginSet? then step.value else if who.Stopper? && step == BeginStop then true else v)
  {
  }

  /** Nothing else changes the flags, and a setter keeps to the value it was called with. */
  lemma {:induction false} FlagIsLastSet(run: seq<State>, steps: seq<Step>, i: nat)
    requires IsTrace(run, steps) && i < |run|
    ensures run[i].choked == LastSet(steps, i)
    ensures run[i].terminate <==> BeginStop in steps[..i]
    ensures forall who :: Carries(SetterOf(run[i], who), Asked(steps, i, who))
  {
    hide Enabled, Apply;
    if i > 0 {
      FlagIsLastSet(run, steps, i - 1);
      assert steps[..i] == steps[..i - 1] + [steps[i - 1]];
      assert Enabled(run[i - 1], steps[i - 1]) && run[i - 1 + 1] == Apply(run[i - 1], steps[i - 1]);
      forall who: Who
        ensures Carries(SetterOf(run[i], who), Asked(steps, i, who))
      {
        FlagStep(run[i - 1], steps[i - 1], who, Asked(steps, i - 1, who));
      }
      FlagStep(run[i - 1], steps[i - 1], Updater, Asked(steps, i - 1, Updater));
    }
  }

  /** In waiter_wait, from the time when the flag was found set until it is not found so. */
  predicate InWait(t: Task) { t.WantLock? || t.AtTest? || t.GoingToSleep? || t.Asleep? || t.Woken? }

  lemma WaitGoesOn(st: State, step: Step)
    requires Enabled(st, step) && InWait(st.task)
    ensures InWait(Apply(st, step).task) || !st.choked || st.terminate
  {
  }

  lemma {:induction false} WaitsUntilOpen(run: seq<State>, steps: seq<Step>, i: nat, j: nat)
    requires IsTrace(run, steps) && i < j < |run| && steps[i] == FastCheck && run[i].choked
    ensures InWait(run[j].task) || exists k :: i < k < j && (!run[k].choked || run[k].terminate)
    decreases j
  {
    assert Enabled(run[i], steps[i]) && run[i + 1] == Apply(run[i], steps[i]);
    if j > i + 1 {
      WaitsUntilOpen(run, steps, i, j - 1);
      if InWait(run[j - 1].task) {
        assert Enabled(run[j - 1], steps[j - 1]) && run[j - 1 + 1] == Apply(run[j - 1], steps[j - 1]);
        WaitGoesOn(run[j - 1], steps[j - 1]);
      }
    }
  }

  /** Choking takes effect: a task that looks at the flag while it is set is out of waiter_wait
      again only after a moment at which it was not choked, or was told to terminate. */
  lemma ChokedTaskWaits(run: seq<State>, steps: seq<Step>, i: nat, j: nat)
    requires IsTrace(run, steps) && i < j < |run|
    requires steps[i] == FastCheck && run[i].choked && run[j].task == Outside
    ensures exists k :: i < k < j && (!run[k].choked || run[k].terminate)
  {
    hide Enabled, Apply;
    WaitsUntilOpen(run, steps, i, j);
  }

  /** waiter_wait returns in step j, with this result. */
  predicate Returns(st: State, step: Step, result: bool) {
    || (step == FastCheck && !st.choked && !result)
    || (step == TaskUnlock && st.task.Unlocking? && st.task.result == result)
  }

  lemma LeavesByLook(st: State, step: Step)
    requires Inv(st) && Enabled(st, step) && (Apply(st, step).task.Leaving? || Apply(st, step).task.Unlocking?)
    ensures st.task.Leaving? || st.task.Unlocking? || (step == Test && (!st.choked || st.terminate))
    ensures st.task.Leaving? || st.task.Unlocking? || Apply(st, step).task.Leaving?
    ensures st.terminate ==> Apply(st, step).terminate
    ensures st.task.Unlocking? ==> Apply(st, step).task == st.task
    ensures st.task.Leaving? && Apply(st, step).task.Unlocking? ==> Apply(st, step).task.result == st.terminate
  {
  }

  /** The look with which a task that is about to return has left its loop. */
  lemma {:induction false} LastLook(run: seq<State>, steps: seq<Step>, j: nat) returns (k: nat)
    requires IsTrace(run, steps) && j < |run| && (run[j].task.Leaving? || run[j].task.Unlocking?)
    ensures k < j && steps[k] == Test && (!run[k].choked || run[k].terminate)
    ensures forall m :: k < m <= j ==> run[m].task.Leaving? || run[m].task.Unlocking?
    ensures run[k].terminate ==> run[j].terminate
    ensures run[k].terminate && run[j].task.Unlocking? ==> run[j].task.result
  {
    hide Enabled, Apply;
    TraceIsRun(run, steps);
    k := 0;
    if j > 0 {
      RunKeepsInv(run, j - 1);
      assert Enabled(run[j - 1], steps[j - 1]) && run[j - 1 + 1] == Apply(run[j - 1], steps[j - 1]);
      LeavesByLook(run[j - 1], steps[j - 1]);
      if run[j - 1].task.Leaving? || run[j - 1].task.Unlocking? {
        k := LastLook(run, steps, j - 1);
      } else {
        k := j - 1;
      }
    }
  }

  /** A task is told to go on only after it has itself seen, since its call, that it is not
      choked: in the look without the lock, or in the last test of its loop. */
  lemma GoesOnWhenOpen(run: seq<State>, steps: seq<Step>, j: nat) returns (k: nat)
    requires IsTrace(run, steps) && j < |steps| && Returns(run[j], steps[j], false)
    ensures k <= j && !run[k].choked && (k < j ==> steps[k] == Test) && (k == j ==> steps[k] == FastCheck)
    ensures forall m :: k < m <= j ==> run[m].task.Leaving? || run[m].task.Unlocking?
  {
    if steps[j] == FastCheck {
      k := j;
    } else {
      k := LastLook(run, steps, j);
    }
  }

  /** Nobody is left waiting for a lock that is not given back: a task in waiter_wait that does
      not sleep can go on, or a setter that holds the lock can, and a setter likewise.  One that
      sleeps may be woken for no reason. */
  lemma NobodyIsBlocked(run: seq<State>, i: nat)
    requires IsRun(run) && i < |run|
    ensures run[i].task == Asleep ==>
      Enabled(run[i], SpuriousWakeup) && Apply(run[i], SpuriousWakeup) == run[i].(task := Woken)
    ensures run[i].lock == ByTask || (run[i].lock == Free && run[i].task != Asleep) ==>
      exists step :: step in {FastCheck, TaskLock, Test, Sleep, Relock, LoadTerminate, TaskUnlock} &&
        Enabled(run[i], step)
    ensures forall who :: run[i].lock == OwnerOf(who) || (run[i].lock == Free && SetterOf(run[i], who) != Idle) ==>
      exists step :: step in {SetterLock(who), Store(who), Signal(who), SetterUnlock(who)} && Enabled(run[i], step)
  {
    RunKeepsInv(run, i);
    var st := run[i];
    var own := match st.task
      case Outside => FastCheck
      case WantLock => TaskLock
      case AtTest => Test
      case GoingToSleep => Sleep
      case Asleep => SpuriousWakeup
      case Woken => Relock
      case Leaving => LoadTerminate
      case Unlocking(_) => TaskUnlock;
    assert st.lock == ByTask || (st.lock == Free && st.task != Asleep) ==> Enabled(st, own);
    forall who | st.lock == OwnerOf(who) || (st.lock == Free && SetterOf(st, who) != Idle)
      ensures exists step :: step in {SetterLock(who), Store(who), Signal(who), SetterUnlock(who)} && Enabled(st, step)
    {
      var next := match SetterOf(st, who)
        case Wanting(_) => SetterLock(who)
        case Holding(_) => Store(who)
        case Stored => Signal(who)
        case _ => SetterUnlock(who);
      assert Enabled(st, next);
    }
  }

  lemma Extend(run: seq<State>, steps: seq<Step>, step: Step) returns (run': seq<State>, steps': seq<Step>)
    requires IsTrace(run, steps) && Enabled(run[|run| - 1], step)
    ensures IsTrace(run', steps') && run' == run + [Apply(run[|run| - 1], step)] && steps' == steps + [step]
  {
    hide Enabled, Apply, Init;
    run' := run + [Apply(run[|run| - 1], step)];
    steps' := steps + [step];
    forall i | 0 <= i < |steps'|
      ensures Enabled(run'[i], steps'[i]) && run'[i + 1] == Apply(run'[i], steps'[i])
    {
      if i < |steps| {
        assert Enabled(run[i], steps[i]);
      }
    }
  }

  /** A setter with the lock stores its value, wakes a sleeper and unlocks. */
  lemma Stores(run: seq<State>, steps: seq<Step>, who: Who, value: bool)
      returns (run': seq<State>, steps': seq<Step>)
    requires IsTrace(run, steps) && run != []
    requires var st := run[|run| - 1]; SetterOf(st, who) == Holding(value)
    ensures IsTrace(run', steps') && run <= run' && |run'| == |run| + 3
    ensures var st := run[|run| - 1];
      run'[|run'| - 1] == WithSetter(st, who, Idle).(
        lock := Free,
        choked := value,
        task := if st.task == Asleep then Woken else st.task,
        stopSignalled := st.stopSignalled || who.Stopper?)
  {
    hide IsTrace;
    run', steps' := Extend(run, steps, Store(who));
    run', steps' := Extend(run', steps', Signal(who));
    run', steps' := Extend(run', steps', SetterUnlock(who));
  }

  lemma TraceLengths(run: seq<State>, steps: seq<Step>)
    requires IsTrace(run, steps)
    ensures |run| == |steps| + 1
  {
  }

  /** A setter calls waiter_set while nobody holds the lock. */
  lemma SetsFlag(run: seq<State>, steps: seq<Step>, who: Who, value: bool)
      returns (run': seq<State>, steps': seq<Step>)
    requires IsTrace(run, steps) && (who.Stopper? ==> value)
    requires var st := run[|run| - 1]; SetterOf(st, who) == Idle && st.lock == Free && (who.Stopper? ==> !st.terminate)
    ensures IsTrace(run', steps') && run <= run' && |run'| == |run| + 5
    ensures var st := run[|run| - 1];
      run'[|run'| - 1] == st.(
        choked := value,
        task := if st.task == Asleep then Woken else st.task,
        terminate := st.terminate || who.Stopper?,
        stopSignalled := st.stopSignalled || who.Stopper?)
  {
    TraceLengths(run, steps);
    hide IsTrace;
    run', steps' := Extend(run, steps, if who.Updater? then BeginSet(value) else BeginStop);
    run', steps' := Extend(run', steps', SetterLock(who));
    run', steps' := Stores(run', steps', who, value);
  }

  lemma TraceStart(run: seq<State>)
    requires |run| == 1 && Init(run[0])
    ensures IsTrace(run, [])
  {
  }

  lemma FallsAsleep(run: seq<State>, steps: seq<Step>) returns (run': seq<State>, steps': seq<Step>)
    requires IsTrace(run, steps)
    requires var st := run[|run| - 1]; st.task == Outside && st.choked && !st.terminate && st.lock == Free
    ensures IsTrace(run', steps') && run' != [] && run'[|run'| - 1] == run[|run| - 1].(task := Asleep)
  {
    TraceLengths(run, steps);
    hide IsTrace;
    run', steps' := Extend(run, steps, FastCheck);
    run', steps' := Extend(run', steps', TaskLock);
    run', steps' := Extend(run', steps', Test);
    run', steps' := Extend(run', steps', Sleep);
  }

  lemma WakesUp(run: seq<State>, steps: seq<Step>) returns (run': seq<State>, steps': seq<Step>, j: nat)
    requires IsTrace(run, steps)
    requires var st := run[|run| - 1]; st.task == Woken && (!st.choked || st.terminate) && st.lock == Free
    ensures IsTrace(run', steps') && run <= run' && |run| <= j < |steps'| && |run'| == j + 2
    ensures Returns(run'[j], steps'[j], run[|run| - 1].terminate) && run'[j + 1] == run[|run| - 1].(task := Outside)
  {
    TraceLengths(run, steps);
    hide IsTrace;
    run', steps' := Extend(run, steps, Relock);
    run', steps' := Extend(run', steps', Test);
    run', steps' := Extend(run', steps', LoadTerminate);
    j := |run'| - 1;
    run', steps' := Extend(run', steps', TaskUnlock);
  }

  /** A task that is choked falls asleep, and goes on once it is unchoked; or gives up when the
      program stops. */
  lemma SleepsAndReturns(stop: bool) returns (run: seq<State>, steps: seq<Step>, i: nat, j: nat)
    ensures IsTrace(run, steps) && i < j < |steps| && |run| == |steps| + 1
    ensures run[i].task == Asleep && run[i].choked && Returns(run[j], steps[j], stop)
    ensures run[j + 1] == State(stop, stop, Free, Outside, Idle, Idle, stop)
  {
    run, steps := [State(false, false, Free, Outside, Idle, Idle, false)], [];
    TraceStart(run);
    hide IsTrace, Enabled, Apply, Returns;
    run, steps := SetsFlag(run, steps, Updater, true);
    run, steps := FallsAsleep(run, steps);
    i := |run| - 1;
    run, steps := SetsFlag(run, steps, if stop then Stopper else Updater, stop);
    run, steps, j := WakesUp(run, steps);
    TraceLengths(run, steps);
  }
}
