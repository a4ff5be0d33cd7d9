/** Which sources may run: the state the schedule lock protects, and the update
    that recomputes it after every event. */
module Scheduling {
  import opened Cycles
  import opened EofProtocol
  import opened Results
  import opened Timestamps
  import opened Topology
  import opened Waking

  const SCHEDULE_TOLERANCE: int := 100 * 1000

  /** A task that can be choked, with the internal state of an update. */
  datatype TaskState = TaskState(choked: bool, chokedPrev: bool, chokedNext: bool, exited: bool)

  /** `lastDts` is the end of the last packet sent, in microseconds. */
  datatype MuxStream = MuxStream(lastDts: int, sourceFinished: bool)

  // --- trailing timestamp ----------------------------------------------------------

  ghost predicate IsStream(mux: seq<seq<MuxStream>>, i: int, j: int) {
    0 <= i < |mux| && 0 <= j < |mux[i]|
  }

  ghost predicate Counted(mux: seq<seq<MuxStream>>, i: int, j: int, countFinished: bool) {
    IsStream(mux, i, j) && (countFinished || !mux[i][j].sourceFinished)
  }

  /** The earliest end among the counted streams; unknown if one has not started,
      or if none of them lies before INT64_MAX. */
  ghost predicate IsTrailing(mux: seq<seq<MuxStream>>, countFinished: bool, dts: int) {
    if exists i, j :: Counted(mux, i, j, countFinished) && mux[i][j].lastDts == NOPTS then
      dts == NOPTS
    else if exists i, j :: Counted(mux, i, j, countFinished) && mux[i][j].lastDts < INT64_MAX then
      && (exists i, j :: Counted(mux, i, j, countFinished) && mux[i][j].lastDts == dts)
      && (forall i, j :: Counted(mux, i, j, countFinished) ==> dts <= mux[i][j].lastDts)
    else
      dts == NOPTS
  }

  /** The stream still gets packets, and its clock is within the tolerance of the trailing one. */
  predicate Eligible(ms: MuxStream, dts: int) {
    && !ms.sourceFinished
    && !(dts == NOPTS && ms.lastDts != NOPTS)
    && !(dts != NOPTS && ms.lastDts - dts >= SCHEDULE_TOLERANCE)
  }

  ghost predicate SomeEligible(mux: seq<seq<MuxStream>>, dts: int) {
    exists i, j :: IsStream(mux, i, j) && Eligible(mux[i][j], dts)
  }

  ghost predicate DtsInRange(mux: seq<seq<MuxStream>>) {
    forall i, j :: IsStream(mux, i, j) ==> NOPTS <= mux[i][j].lastDts <= INT64_MAX
  }

  ghost predicate Unfinished(mux: seq<seq<MuxStream>>, i: int, j: int) {
    IsStream(mux, i, j) && !mux[i][j].sourceFinished && mux[i][j].lastDts < INT64_MAX
  }

  /** What the tolerance tests mean: once all streams that still get packets have started, one of
      them is eligible if and only if it is less than the tolerance ahead of each of the others;
      before that, if and only if it has not started. */
  lemma EligibleIff(mux: seq<seq<MuxStream>>, dts: int, i: int, j: int)
    requires DtsInRange(mux) && IsTrailing(mux, false, dts) && Unfinished(mux, i, j)
    ensures Eligible(mux[i][j], dts) <==>
      if exists k, l :: Counted(mux, k, l, false) && mux[k][l].lastDts == NOPTS then mux[i][j].lastDts == NOPTS
      else forall k, l :: Counted(mux, k, l, false) ==> mux[i][j].lastDts - mux[k][l].lastDts < SCHEDULE_TOLERANCE
  {
    assert Counted(mux, i, j, false);
  }

  /** Some stream passes the tolerance tests exactly while some stream is unfinished
      and its clock has not run out; so only then is there no need to fall back to
      running an arbitrary source. */
  lemma TrailingStreamIsEligible(mux: seq<seq<MuxStream>>, dts: int)
    requires DtsInRange(mux) && IsTrailing(mux, false, dts)
    ensures SomeEligible(mux, dts) <==> exists i, j :: Unfinished(mux, i, j)
    ensures forall i, j :: IsStream(mux, i, j) && !mux[i][j].sourceFinished && mux[i][j].lastDts == dts ==>
      Eligible(mux[i][j], dts)
  {
    if i, j :| Unfinished(mux, i, j) {
      assert Counted(mux, i, j, false);
      if i', j' :| Counted(mux, i', j', false) && mux[i'][j'].lastDts == NOPTS {
        assert Eligible(mux[i'][j'], dts);
      } else {
        var i', j' :| Counted(mux, i', j', false) && mux[i'][j'].lastDts == dts;
        assert Eligible(mux[i'][j'], dts);
      }
    }
    if i, j :| IsStream(mux, i, j) && Eligible(mux[i][j], dts) {
      assert Counted(mux, i, j, false);
      if mux[i][j].lastDts == INT64_MAX {
        assert Unfinished(mux, i, j) || exists i', j' :: Unfinished(mux, i', j') by {
          if i', j' :| Counted(mux, i', j', false) && mux[i'][j'].lastDts == dts && dts != NOPTS && dts < INT64_MAX {
            assert Unfinished(mux, i', j');
          }
        }
      } else {
        assert Unfinished(mux, i, j);
      }
    }
  }

  // --- sets of tasks -----------------------------------------------------------------

  ghost function ToRun(demux: seq<TaskState>, filters: seq<TaskState>): set<Task> {
    (set i: nat | i < |demux| && !demux[i].chokedNext :: DemuxTask(i)) +
    (set f: nat | f < |filters| && !filters[f].chokedNext :: FilterTask(f))
  }

  ghost function Running(demux: seq<TaskState>, filters: seq<TaskState>): set<Task> {
    (set i: nat | i < |demux| && !demux[i].choked :: DemuxTask(i)) +
    (set f: nat | f < |filters| && !filters[f].choked :: FilterTask(f))
  }

  /** Only chokedNext differs, and only from true to false. */
  ghost predicate OnlyUnchoked(a: seq<TaskState>, b: seq<TaskState>) {
    |a| == |b| && forall i :: 0 <= i < |a| ==>
      b[i] == a[i].(chokedNext := b[i].chokedNext) && (b[i].chokedNext ==> a[i].chokedNext)
  }

  ghost function ChokedSet(ts: seq<TaskState>): set<int> {
    set i | 0 <= i < |ts| && ts[i].chokedNext
  }

  lemma SubsetSize(a: set<int>, b: set<int>)
    requires a <= b
    ensures |a| <= |b|
    ensures a < b ==> |a| < |b|
  {
    assert b == a + (b - a);
  }

  lemma OneFewerChoked(a: seq<TaskState>, i: nat)
    requires i < |a| && a[i].chokedNext
    ensures |ChokedSet(a[i := a[i].(chokedNext := false)])| < |ChokedSet(a)|
  {
    assert i in ChokedSet(a) && i !in ChokedSet(a[i := a[i].(chokedNext := false)]);
    SubsetSize(ChokedSet(a[i := a[i].(chokedNext := false)]), ChokedSet(a));
  }

  /** A demuxer of `after` that is not in `before` has everything it needs in `after`. */
  ghost predicate NewlyClosed(g: Graph, best: seq<nat>, before: set<Task>, after: set<Task>)
    requires Startable(g) && BestOk(g, best)
  {
    && before <= after
    && forall d: nat :: d < |g.demux| && DemuxTask(d) in after && DemuxTask(d) !in before ==>
         AllServed(g, best, DemuxTargets(g, d), after)
  }

  /** What a walk may do to the tasks: unchoke some, leave no newly running demuxer
      without what it needs, and stay within S. */
  ghost predicate Advances(g: Graph, best: seq<nat>, S: set<Task>,
      demux: seq<TaskState>, filters: seq<TaskState>, demux': seq<TaskState>, filters': seq<TaskState>)
    requires Startable(g) && BestOk(g, best)
  {
    && OnlyUnchoked(demux, demux') && OnlyUnchoked(filters, filters')
    && NewlyClosed(g, best, ToRun(demux, filters), ToRun(demux', filters'))
    && ToRun(demux', filters') <= S
    && |ChokedSet(demux')| <= |ChokedSet(demux)|
  }

  lemma AdvancesTrans(g: Graph, best: seq<nat>, S: set<Task>, d0: seq<TaskState>, f0: seq<TaskState>,
      d1: seq<TaskState>, f1: seq<TaskState>, d2: seq<TaskState>, f2: seq<TaskState>)
    requires Startable(g) && BestOk(g, best)
    requires Advances(g, best, S, d0, f0, d1, f1) && Advances(g, best, S, d1, f1, d2, f2)
    ensures Advances(g, best, S, d0, f0, d2, f2)
    ensures ToRun(d1, f1) <= ToRun(d2, f2)
  {
  }

  lemma AdvancesRefl(g: Graph, best: seq<nat>, S: set<Task>, d: seq<TaskState>, f: seq<TaskState>)
    requires Startable(g) && BestOk(g, best) && ToRun(d, f) <= S
    ensures Advances(g, best, S, d, f, d, f)
  {
  }

  lemma AdvancesByFilter(g: Graph, best: seq<nat>, S: set<Task>, d: seq<TaskState>, f: seq<TaskState>, i: nat)
    requires Startable(g) && BestOk(g, best) && ToRun(d, f) <= S && i < |f| && FilterTask(i) in S
    ensures Advances(g, best, S, d, f, d, f[i := f[i].(chokedNext := false)])
    ensures FilterTask(i) in ToRun(d, f[i := f[i].(chokedNext := false)])
  {
  }

  /** A demuxer that has been unchoked, and whose streams have all been served since. */
  lemma AdvancesByDemux(g: Graph, best: seq<nat>, S: set<Task>, d0: seq<TaskState>, f0: seq<TaskState>,
      i: nat, d1: seq<TaskState>, f1: seq<TaskState>)
    requires Startable(g) && BestOk(g, best) && i < |g.demux| && i < |d0| && d0[i].chokedNext
    requires Advances(g, best, S, d0[i := d0[i].(chokedNext := false)], f0, d1, f1)
    requires AllServed(g, best, DemuxTargets(g, i), ToRun(d1, f1))
    ensures Advances(g, best, S, d0, f0, d1, f1)
    ensures DemuxTask(i) in ToRun(d1, f1)
  {
    hide AllServed, Startable;
    OneFewerChoked(d0, i);
    assert ToRun(d0[i := d0[i].(chokedNext := false)], f0) == ToRun(d0, f0) + {DemuxTask(i)};
  }

  lemma ServedMore(g: Graph, best: seq<nat>, dsts: seq<Node>, n: nat, T: set<Task>, T': set<Task>)
    requires Startable(g) && BestOk(g, best) && n < |dsts| && ValidDst(g, dsts[n])
    requires AllServed(g, best, dsts[..n], T) && T <= T' && Served(g, best, dsts[n], T')
    ensures AllServed(g, best, dsts[..n + 1], T')
  {
    forall k | 0 <= k < n + 1
      ensures ValidDst(g, dsts[k]) && Served(g, best, dsts[k], T')
    {
      if k < n {
        assert dsts[..n][k] == dsts[k];
      }
    }
  }

  /** A set grown from nothing, never leaving a demuxer without what it needs and
      never leaving Least(seeds), is Least(seeds) once it holds the seeds. */
  lemma LeastReached(g: Graph, best: seq<nat>, seeds: set<Task>, T: set<Task>)
    requires Startable(g) && BestOk(g, best) && seeds <= Tasks(g)
    requires NewlyClosed(g, best, {}, T) && T <= Least(g, best, seeds) && seeds <= T
    ensures T == Least(g, best, seeds)
  {
    LeastIsLeast(g, best, seeds);
    assert Closed(g, best, T);
  }

  // --- what an update has to unchoke ---------------------------------------------

  /** The inputs that no longer read while their source still sends. */
  predicate Closing(inputs: seq<FilterQueue>, f: int, j: int) {
    && 0 <= f < |inputs| && 0 <= j < |inputs[f].receive.finished| && j < |inputs[f].send.finished|
    && inputs[f].receive.finished[j] && !inputs[f].send.finished[j]
  }

  ghost predicate ShapeOk(g: Graph, mux: seq<seq<MuxStream>>, inputs: seq<FilterQueue>) {
    && |mux| == |g.mux| && (forall i :: 0 <= i < |mux| ==> |mux[i]| == |g.mux[i]|)
    && |inputs| == |g.filters|
    && forall f :: 0 <= f < |inputs| ==>
         |inputs[f].send.finished| == |inputs[f].receive.finished| == |g.filters[f].inputs|
  }

  ghost predicate MuxSeed(g: Graph, best: seq<nat>, mux: seq<seq<MuxStream>>, dts: int, i: int, j: int, w: Task)
    requires Startable(g) && BestOk(g, best)
  {
    0 <= i < |mux| && 0 <= j < |mux[i]| && i < |g.mux| && j < |g.mux[i]| &&
    Eligible(mux[i][j], dts) && w == MuxOrigin(g, best, i, j)
  }

  ghost predicate InputSeed(g: Graph, best: seq<nat>, inputs: seq<FilterQueue>, f: int, j: int, w: Task)
    requires Startable(g) && BestOk(g, best)
  {
    Closing(inputs, f, j) && f < |g.filters| && j < |g.filters[f].inputs| && w == InputOrigin(g, best, f, j)
  }

  /** The origins of the eligible muxer streams and of the inputs that are closing. */
  ghost function Seeds(g: Graph, best: seq<nat>, mux: seq<seq<MuxStream>>, inputs: seq<FilterQueue>, dts: int): set<Task>
    requires Startable(g) && BestOk(g, best)
  {
    set w | w in Tasks(g) &&
      ((exists i, j :: MuxSeed(g, best, mux, dts, i, j, w)) || (exists f, j :: InputSeed(g, best, inputs, f, j, w)))
  }

  ghost predicate FirstAlive(ts: seq<TaskState>, i: nat) {
    i < |ts| && !ts[i].exited && forall k :: 0 <= k < i ==> ts[k].exited
  }

  /** If no stream is eligible, the first source that has not exited runs as well. */
  ghost function Fallback(demux: seq<TaskState>, filters: seq<TaskState>): set<Task> {
    if exists i :: FirstAlive(demux, i) then
      var i :| FirstAlive(demux, i);
      {DemuxTask(i)}
    else if exists f :: FirstAlive(filters, f) then
      var f :| FirstAlive(filters, f);
      {FilterTask(f)}
    else {}
  }

  ghost function ShouldRun(g: Graph, best: seq<nat>, mux: seq<seq<MuxStream>>, inputs: seq<FilterQueue>, dts: int,
      demux: seq<TaskState>, filters: seq<TaskState>): set<Task>
    requires Startable(g) && BestOk(g, best)
  {
    Least(g, best, Seeds(g, best, mux, inputs, dts)) +
    if SomeEligible(mux, dts) then {} else Fallback(demux, filters)
  }

  ghost predicate SameExits(a: seq<TaskState>, b: seq<TaskState>) {
    |a| == |b| && forall i :: 0 <= i < |a| ==> a[i].exited == b[i].exited
  }

  lemma FirstAliveUnique(ts: seq<TaskState>, i: nat, j: nat)
    requires FirstAlive(ts, i) && FirstAlive(ts, j)
    ensures i == j
  {
  }

  lemma FallbackSame(d: seq<TaskState>, f: seq<TaskState>, d': seq<TaskState>, f': seq<TaskState>)
    requires SameExits(d, d') && SameExits(f, f')
    ensures Fallback(d, f) == Fallback(d', f')
  {
    assert forall i: nat :: FirstAlive(d, i) <==> FirstAlive(d', i);
    assert forall i: nat :: FirstAlive(f, i) <==> FirstAlive(f', i);
    forall i: nat, j: nat | FirstAlive(d, i) && FirstAlive(d, j) ensures i == j { FirstAliveUnique(d, i, j); }
    forall i: nat, j: nat | FirstAlive(f, i) && FirstAlive(f, j) ensures i == j { FirstAliveUnique(f, i, j); }
  }

  lemma ShouldRunSame(g: Graph, best: seq<nat>, mux: seq<seq<MuxStream>>, inputs: seq<FilterQueue>, dts: int,
      d: seq<TaskState>, f: seq<TaskState>, d': seq<TaskState>, f': seq<TaskState>)
    requires Startable(g) && BestOk(g, best) && SameExits(d, d') && SameExits(f, f')
    ensures ShouldRun(g, best, mux, inputs, dts, d, f) == ShouldRun(g, best, mux, inputs, dts, d', f')
  {
    FallbackSame(d, f, d', f');
  }

  lemma FindFirstAlive(ts: seq<TaskState>, i: nat) returns (k: nat)
    requires i < |ts| && !ts[i].exited
    ensures FirstAlive(ts, k)
  {
    if j: nat :| j < i && !ts[j].exited {
      k := FindFirstAlive(ts, j);
    } else {
      k := i;
    }
  }

  lemma NobodyAlive(ts: seq<TaskState>)
    requires forall i :: !FirstAlive(ts, i)
    ensures forall i :: 0 <= i < |ts| ==> ts[i].exited
  {
    if i :| 0 <= i < |ts| && !ts[i].exited {
      var k := FindFirstAlive(ts, i);
    }
  }

  lemma SeedsAreTasks(g: Graph, best: seq<nat>, mux: seq<seq<MuxStream>>, inputs: seq<FilterQueue>, dts: int)
    requires Startable(g) && BestOk(g, best)
    ensures Seeds(g, best, mux, inputs, dts) <= Tasks(g)
  {
  }

  /** The source of every eligible stream runs; with TrailingStreamIsEligible, so
      does that of every stream which holds the others back. */
  lemma EligibleSourceRuns(g: Graph, best: seq<nat>, mux: seq<seq<MuxStream>>, inputs: seq<FilterQueue>, dts: int,
      demux: seq<TaskState>, filters: seq<TaskState>, i: nat, j: nat)
    requires Startable(g) && BestOk(g, best) && ShapeOk(g, mux, inputs)
    requires IsStream(mux, i, j) && Eligible(mux[i][j], dts)
    ensures MuxOrigin(g, best, i, j) in ShouldRun(g, best, mux, inputs, dts, demux, filters)
  {
    var w := MuxOrigin(g, best, i, j);
    MuxSrcValid(g, i, j);
    OriginIsTask(g, best, g.mux[i][j]);
    assert MuxSeed(g, best, mux, dts, i, j, w);
    SeedsAreTasks(g, best, mux, inputs, dts);
    LeastIsLeast(g, best, Seeds(g, best, mux, inputs, dts));
  }

  /** The source of every input that is closed for reading and still sent to runs, so that it
      finds out. */
  lemma ClosingSourceRuns(g: Graph, best: seq<nat>, mux: seq<seq<MuxStream>>, inputs: seq<FilterQueue>, dts: int,
      demux: seq<TaskState>, filters: seq<TaskState>, f: nat, j: nat)
    requires Startable(g) && BestOk(g, best) && ShapeOk(g, mux, inputs)
    requires Closing(inputs, f, j)
    ensures f < |g.filters| && j < |g.filters[f].inputs|
    ensures InputOrigin(g, best, f, j) in ShouldRun(g, best, mux, inputs, dts, demux, filters)
  {
    var w := InputOrigin(g, best, f, j);
    InputValid(g, f, j);
    OriginIsTask(g, best, g.filters[f].inputs[j]);
    assert InputSeed(g, best, inputs, f, j, w);
    SeedsAreTasks(g, best, mux, inputs, dts);
    LeastIsLeast(g, best, Seeds(g, best, mux, inputs, dts));
  }

  /** While some stream is eligible, the tasks that run are a closed set. */
  lemma RunningIsClosed(g: Graph, best: seq<nat>, mux: seq<seq<MuxStream>>, inputs: seq<FilterQueue>, dts: int,
      demux: seq<TaskState>, filters: seq<TaskState>)
    requires Startable(g) && BestOk(g, best) && SomeEligible(mux, dts)
    ensures Closed(g, best, ShouldRun(g, best, mux, inputs, dts, demux, filters))
  {
    SeedsAreTasks(g, best, mux, inputs, dts);
    LeastIsLeast(g, best, Seeds(g, best, mux, inputs, dts));
    assert ShouldRun(g, best, mux, inputs, dts, demux, filters) == Least(g, best, Seeds(g, best, mux, inputs, dts));
  }

  /** After an update some waiter is open, unless every demuxer and filtergraph has exited.
      FallbackLive tells when there is a thread behind it. */
  lemma SomethingRuns(g: Graph, best: seq<nat>, mux: seq<seq<MuxStream>>, inputs: seq<FilterQueue>, dts: int,
      demux: seq<TaskState>, filters: seq<TaskState>)
    requires Startable(g) && BestOk(g, best) && ShapeOk(g, mux, inputs)
    requires ShouldRun(g, best, mux, inputs, dts, demux, filters) == {}
    ensures forall i :: 0 <= i < |demux| ==> demux[i].exited
    ensures forall f :: 0 <= f < |filters| ==> filters[f].exited
  {
    if i, j :| IsStream(mux, i, j) && Eligible(mux[i][j], dts) {
      EligibleSourceRuns(g, best, mux, inputs, dts, demux, filters, i, j);
      assert false;
    }
    assert !SomeEligible(mux, dts);
    NobodyAlive(demux);
    NobodyAlive(filters);
  }

  /** The task has a thread, which a demuxer without streams never gets, and has not exited. */
  ghost predicate Live(g: Graph, demux: seq<TaskState>, filters: seq<TaskState>, w: Task) {
    match w
    case DemuxTask(i) => i < |demux| && i < |g.demux| && g.demux[i] != [] && !demux[i].exited
    case FilterTask(f) => f < |filters| && !filters[f].exited
  }

  /** The source that runs when no stream is eligible is a live one if and only if the first
      demuxer that has not exited has streams, or all have exited and a filtergraph has not.
      A demuxer without streams does not exit before sch_stop, and keeps the fallback from what
      comes after it. */
  lemma FallbackLive(g: Graph, demux: seq<TaskState>, filters: seq<TaskState>)
    requires |demux| == |g.demux|
    ensures (exists w :: w in Fallback(demux, filters) && Live(g, demux, filters, w)) <==>
      ((exists i: nat :: FirstAlive(demux, i) && g.demux[i] != []) ||
       ((forall i :: 0 <= i < |demux| ==> demux[i].exited) && exists f: nat :: f < |filters| && !filters[f].exited))
  {
    if i: nat :| FirstAlive(demux, i) {
      forall j: nat | FirstAlive(demux, j) ensures i == j { FirstAliveUnique(demux, i, j); }
      assert Fallback(demux, filters) == {DemuxTask(i)};
      assert Live(g, demux, filters, DemuxTask(i)) <==> g.demux[i] != [];
    } else {
      NobodyAlive(demux);
      if f: nat :| FirstAlive(filters, f) {
        forall j: nat | FirstAlive(filters, j) ensures f == j { FirstAliveUnique(filters, f, j); }
        assert Fallback(demux, filters) == {FilterTask(f)};
        assert Live(g, demux, filters, FilterTask(f));
      } else {
        NobodyAlive(filters);
      }
    }
  }

  function Unchoke(t: TaskState): TaskState { t.(chokedNext := false) }

  lemma FallbackIsDemux(d: seq<TaskState>, f: seq<TaskState>, i: nat)
    requires FirstAlive(d, i)
    ensures Fallback(d[i := Unchoke(d[i])], f) == {DemuxTask(i)}
    ensures ToRun(d[i := Unchoke(d[i])], f) == ToRun(d, f) + {DemuxTask(i)}
  {
    var d' := d[i := Unchoke(d[i])];
    assert FirstAlive(d', i);
    forall j: nat | FirstAlive(d', j) ensures i == j { FirstAliveUnique(d', i, j); }
  }

  lemma FallbackIsFilter(d: seq<TaskState>, f: seq<TaskState>, i: nat)
    requires (forall k :: 0 <= k < |d| ==> d[k].exited) && FirstAlive(f, i)
    ensures Fallback(d, f[i := Unchoke(f[i])]) == {FilterTask(i)}
    ensures ToRun(d, f[i := Unchoke(f[i])]) == ToRun(d, f) + {FilterTask(i)}
  {
    var f' := f[i := Unchoke(f[i])];
    assert FirstAlive(f', i);
    forall j: nat | FirstAlive(f', j) ensures i == j { FirstAliveUnique(f', i, j); }
  }

  lemma FallbackIsNone(d: seq<TaskState>, f: seq<TaskState>)
    requires forall i :: 0 <= i < |d| ==> d[i].exited
    requires forall i :: 0 <= i < |f| ==> f[i].exited
    ensures Fallback(d, f) == {}
  {
  }

  /** Initialise the internal state: everything is to be choked. */
  method StartWaiters(ts: seq<TaskState>) returns (r: seq<TaskState>)
    ensures |r| == |ts|
    ensures forall i :: 0 <= i < |r| ==>
      r[i].chokedNext && r[i].chokedPrev == r[i].choked == ts[i].choked && r[i].exited == ts[i].exited
  {
    r := ts;
    for i := 0 to |r|
      invariant |r| == |ts|
      invariant forall k :: 0 <= k < i ==>
        r[k].chokedNext && r[k].chokedPrev == r[k].choked == ts[k].choked && r[k].exited == ts[k].exited
      invariant forall k :: i <= k < |r| ==> r[k] == ts[k]
    {
      r := r[i := r[i].(chokedPrev := r[i].choked, chokedNext := true)];
    }
  }

  method UnchokeFirstAlive(ts: seq<TaskState>) returns (r: seq<TaskState>, found: bool, ghost at: nat)
    ensures found ==> FirstAlive(ts, at) && r == ts[at := Unchoke(ts[at])]
    ensures !found ==> r == ts && forall i :: 0 <= i < |ts| ==> ts[i].exited
  {
    for i := 0 to |ts|
      invariant forall k :: 0 <= k < i ==> ts[k].exited
    {
      if !ts[i].exited {
        return ts[i := Unchoke(ts[i])], true, i;
      }
    }
    return ts, false, 0;
  }

  /** Apply the decisions: change the flag of every task that has to change it. */
  method FinishWaiters(ts: seq<TaskState>) returns (r: seq<TaskState>)
    requires forall i :: 0 <= i < |ts| ==> ts[i].choked == ts[i].chokedPrev
    ensures |r| == |ts|
    ensures forall i :: 0 <= i < |r| ==> r[i] == ts[i].(choked := ts[i].chokedNext)
  {
    r := ts;
    for i := 0 to |r|
      invariant |r| == |ts|
      invariant forall k :: 0 <= k < i ==> r[k] == ts[k].(choked := ts[k].chokedNext)
      invariant forall k :: i <= k < |r| ==> r[k] == ts[k]
    {
      if r[i].chokedPrev != r[i].chokedNext {
        r := r[i := r[i].(choked := r[i].chokedNext)];
      }
    }
  }

  lemma SeedsReached(g: Graph, best: seq<nat>, mux: seq<seq<MuxStream>>, inputs: seq<FilterQueue>, dts: int,
      T: set<Task>)
    requires Startable(g) && BestOk(g, best)
    requires forall i, j, w :: MuxSeed(g, best, mux, dts, i, j, w) ==> w in T
    requires forall f, j, w :: InputSeed(g, best, inputs, f, j, w) ==> w in T
    ensures Seeds(g, best, mux, inputs, dts) <= T
  {
  }

  // --- the queues of the decoders --------------------------------------------------------

  ghost predicate AllChoked(ts: seq<TaskState>) {
    forall i :: 0 <= i < |ts| ==> ts[i].choked
  }

  ghost predicate IsFirst(g: Graph, d: nat, s: int, k: nat)
    requires d < |g.demux|
  {
    0 <= s < |g.demux[d]| && g.demux[d][s] != [] && g.demux[d][s][0] == DecIn(k)
  }

  /** Decoder k is the first destination of a stream of demuxer d. */
  ghost predicate FeedsFirst(g: Graph, d: nat, k: nat) {
    d < |g.demux| && exists s :: IsFirst(g, d, s, k)
  }

  lemma FeederExists(g: Graph, d: nat, k: nat)
    requires FeedsFirst(g, d, k)
    ensures d < |g.demux|
  {
  }

  /** It is so of one demuxer only. */
  lemma FeedsFirstUnique(g: Graph, d: nat, e: nat, k: nat)
    requires Linked(g) && FeedsFirst(g, d, k) && FeedsFirst(g, e, k)
    ensures d == e && k < |g.dec|
  {
    var s :| IsFirst(g, d, s, k);
    var t :| IsFirst(g, e, t, k);
    assert ForwardLinked(g, Demux(d, s));
    assert Dsts(g, Demux(d, s))[0] == DecIn(k) && Dsts(g, Demux(e, t))[0] == DecIn(k);
    OneSourcePerDst(g, Demux(d, s), Demux(e, t), DecIn(k));
  }

  /** The queue of a decoder: whether it is kept from being read, and whether what feeds the
      decoder has ended its stream. */
  datatype DecQueue = DecQueue(choked: bool, ended: bool)

  /** A queue follows the demuxer that feeds it first, unless its stream has been ended since
      that demuxer was last choked or unchoked: the end opens the queue.  `changes` counts how
      often each demuxer was, and `endedAt` remembers that count for the end of each stream. */
  ghost predicate QueuesFollow(g: Graph, demux: seq<TaskState>, dec: seq<DecQueue>, endedAt: seq<nat>, changes: seq<nat>,
      terminate: bool)
  {
    && |dec| == |endedAt| == |g.dec| && |changes| == |demux|
    && (forall d: nat, k: nat :: d < |demux| && k < |dec| && FeedsFirst(g, d, k) ==>
         && endedAt[k] <= changes[d]
         && dec[k].choked == (demux[d].choked && !terminate && !(dec[k].ended && endedAt[k] == changes[d])))
    && (forall k: nat :: k < |dec| && (forall d: nat :: !FeedsFirst(g, d, k)) ==> !dec[k].choked)
  }

  /** Only the queues that demuxer d feeds first have been choked or unchoked. */
  ghost predicate QueuesSet(g: Graph, d: nat, choked: bool, before: seq<DecQueue>, after: seq<DecQueue>) {
    |after| == |before| && forall k: nat :: k < |after| ==>
      after[k] == if FeedsFirst(g, d, k) then before[k].(choked := choked) else before[k]
  }

  lemma QueuesFollowOne(g: Graph, demux: seq<TaskState>, dec: seq<DecQueue>, endedAt: seq<nat>, changes: seq<nat>,
      d: nat, t: TaskState, dec': seq<DecQueue>)
    requires Linked(g) && d < |demux| && QueuesFollow(g, demux, dec, endedAt, changes, false)
    requires QueuesSet(g, d, t.choked, dec, dec')
    ensures QueuesFollow(g, demux[d := t], dec', endedAt, changes[d := changes[d] + 1], false)
  {
    var changes' := changes[d := changes[d] + 1];
    forall e: nat, k: nat | e < |demux| && k < |dec'| && FeedsFirst(g, e, k)
      ensures endedAt[k] <= changes'[e]
      ensures dec'[k].choked == (demux[d := t][e].choked && !(dec'[k].ended && endedAt[k] == changes'[e]))
    {
      if FeedsFirst(g, d, k) {
        FeedsFirstUnique(g, d, e, k);
      }
    }
  }

  lemma QueuesFollowSame(g: Graph, demux: seq<TaskState>, demux': seq<TaskState>, dec: seq<DecQueue>, endedAt: seq<nat>,
      changes: seq<nat>, terminate: bool)
    requires QueuesFollow(g, demux, dec, endedAt, changes, terminate) && |demux'| == |demux|
    requires forall i :: 0 <= i < |demux| ==> demux'[i].choked == demux[i].choked
    ensures QueuesFollow(g, demux', dec, endedAt, changes, terminate)
  {
  }

  /** What the end of its stream is remembered with. */
  ghost function LastChange(g: Graph, changes: seq<nat>, k: nat): nat {
    if exists d: nat :: d < |changes| && FeedsFirst(g, d, k) then
      var d: nat :| d < |changes| && FeedsFirst(g, d, k);
      changes[d]
    else 0
  }

  lemma QueuesFollowEnd(g: Graph, demux: seq<TaskState>, dec: seq<DecQueue>, endedAt: seq<nat>, changes: seq<nat>,
      terminate: bool, k: nat)
    requires Linked(g) && k < |dec| && QueuesFollow(g, demux, dec, endedAt, changes, terminate)
    ensures QueuesFollow(g, demux, dec[k := DecQueue(false, true)], endedAt[k := LastChange(g, changes, k)],
      changes, terminate)
  {
    forall d: nat | d < |changes| && FeedsFirst(g, d, k)
      ensures LastChange(g, changes, k) == changes[d]
    {
      var e: nat :| e < |changes| && FeedsFirst(g, e, k) && LastChange(g, changes, k) == changes[e];
      FeedsFirstUnique(g, d, e, k);
    }
  }

  /** Every demuxer that is choked or unchoked is counted. */
  ghost predicate ChangesCounted(demux: seq<TaskState>, changes: seq<nat>, demux': seq<TaskState>, changes': seq<nat>) {
    && |demux| == |demux'| == |changes| == |changes'|
    && forall d :: 0 <= d < |demux| ==> changes'[d] == changes[d] + if demux'[d].choked != demux[d].choked then 1 else 0
  }

  /** Nobody's stream has ended. */
  ghost predicate SameEnds(a: seq<DecQueue>, b: seq<DecQueue>) {
    |a| == |b| && forall k :: 0 <= k < |a| ==> a[k].ended == b[k].ended
  }

  /** One of the first i streams of demuxer d, or of the first j destinations of the next, leads
      to decoder k. */
  ghost predicate FeedsUpTo(g: Graph, d: nat, i: int, j: int, k: nat) {
    d < |g.demux| && exists s, n ::
      && 0 <= s < |g.demux[d]| && 0 <= n < |g.demux[d][s]|
      && (s < i || (s == i && n < j)) && g.demux[d][s][n] == DecIn(k)
  }

  /** Decoder k is a destination of a stream of demuxer d. */
  ghost predicate FeedsDecoder(g: Graph, d: nat, k: nat) {
    d < |g.demux| && FeedsUpTo(g, d, |g.demux[d]|, 0, k)
  }

  lemma DemuxDstValid(g: Graph, d: nat, i: nat, j: nat)
    requires Linked(g) && d < |g.demux| && i < |g.demux[d]| && j < |g.demux[d][i]|
    ensures ValidDst(g, g.demux[d][i][j])
  {
    assert ForwardLinked(g, Demux(d, i));
    assert Dsts(g, Demux(d, i))[j] == g.demux[d][i][j];
  }

  lemma NothingChanged(demux: seq<TaskState>, changes: seq<nat>, dec: seq<DecQueue>)
    requires |changes| == |demux|
    ensures ChangesCounted(demux, changes, demux, changes) && SameEnds(dec, dec)
  {
  }

  /** The internal state of an update does not matter. */
  lemma ChangesCountedFrom(demux: seq<TaskState>, demux1: seq<TaskState>, changes: seq<nat>, demux': seq<TaskState>,
      changes': seq<nat>)
    requires |demux| == |demux1| && forall i :: 0 <= i < |demux| ==> demux1[i].choked == demux[i].choked
    requires ChangesCounted(demux1, changes, demux', changes')
    ensures ChangesCounted(demux, changes, demux', changes')
  {
  }

  lemma FirstIsFed(g: Graph, d: nat, k: nat)
    requires FeedsFirst(g, d, k)
    ensures FeedsDecoder(g, d, k)
  {
    var s :| IsFirst(g, d, s, k);
    assert g.demux[d][s][0] == DecIn(k);
  }

  /** A queue whose stream has just been ended is open after an update, unless that has choked
      a demuxer which was running. */
  lemma EndedQueueAfter(g: Graph, demux: seq<TaskState>, dec: seq<DecQueue>, endedAt: seq<nat>, changes: seq<nat>,
      demux': seq<TaskState>, dec': seq<DecQueue>, changes': seq<nat>, d: nat, k: nat)
    requires QueuesFollow(g, demux, dec, endedAt, changes, false) &&
      QueuesFollow(g, demux', dec', endedAt, changes', false)
    requires ChangesCounted(demux, changes, demux', changes') && SameEnds(dec, dec')
    requires d < |demux| && k < |dec| && FeedsFirst(g, d, k) && dec[k] == DecQueue(false, true)
    ensures dec'[k].choked == (demux'[d].choked && !demux[d].choked)
  {
  }

  // --- the ends of filtergraphs ----------------------------------------------------------

  /** The sources of exactly these ports have ended, besides those that had before. */
  ghost predicate InputsEnd(before: seq<FilterQueue>, ends: seq<Node>, after: seq<FilterQueue>) {
    |after| == |before| && forall k: nat :: k < |after| ==>
      && after[k].receive == before[k].receive
      && |after[k].send.finished| == |before[k].send.finished|
      && forall j: nat :: j < |after[k].send.finished| ==>
           after[k].send.finished[j] == (before[k].send.finished[j] || FilterIn(k, j) in ends)
  }

  ghost predicate EncodersEnd(before: seq<bool>, ends: seq<Node>, after: seq<bool>) {
    |after| == |before| && forall e: nat :: e < |after| ==> after[e] == (before[e] || Enc(e) in ends)
  }

  lemma NothingEnds(inputs: seq<FilterQueue>, encEnded: seq<bool>)
    ensures InputsEnd(inputs, [], inputs) && EncodersEnd(encEnded, [], encEnded)
  {
  }

  lemma OneMoreEncoder(inputs0: seq<FilterQueue>, enc0: seq<bool>, ends: seq<Node>, inputs: seq<FilterQueue>,
      enc: seq<bool>, e: nat)
    requires InputsEnd(inputs0, ends, inputs) && EncodersEnd(enc0, ends, enc) && e < |enc|
    ensures InputsEnd(inputs0, ends + [Enc(e)], inputs) && EncodersEnd(enc0, ends + [Enc(e)], enc[e := true])
  {
    assert forall n: Node :: n in ends + [Enc(e)] <==> n in ends || n == Enc(e);
  }

  lemma OneMoreInput(inputs0: seq<FilterQueue>, enc0: seq<bool>, ends: seq<Node>, inputs: seq<FilterQueue>,
      enc: seq<bool>, f: nat, i: nat, inputs': seq<FilterQueue>)
    requires InputsEnd(inputs0, ends, inputs) && EncodersEnd(enc0, ends, enc)
    requires f < |inputs| && i < |inputs[f].send.finished| && |inputs'| == |inputs|
    requires forall k :: 0 <= k < |inputs| && k != f ==> inputs'[k] == inputs[k]
    requires inputs'[f].receive == inputs[f].receive
    requires inputs'[f].send.finished == inputs[f].send.finished[i := true]
    ensures InputsEnd(inputs0, ends + [FilterIn(f, i)], inputs') && EncodersEnd(enc0, ends + [FilterIn(f, i)], enc)
  {
    assert forall n: Node :: n in ends + [FilterIn(f, i)] <==> n in ends || n == FilterIn(f, i);
  }

  lemma FilterOutputValid(g: Graph, f: nat, o: nat)
    requires Ready(g) && f < |g.filters| && o < |g.filters[f].outputs|
    ensures var dst := g.filters[f].outputs[o]; ValidDst(g, dst) && (dst.FilterIn? || dst.Enc?)
  {
    assert FilterConnected(g, f);
    assert ForwardLinked(g, FilterOut(f, o));
    assert Dsts(g, FilterOut(f, o))[0] == g.filters[f].outputs[o];
  }

  class Scheduler {
    const g: Graph
    var best: seq<nat>
    var demux: seq<TaskState>
    var filters: seq<TaskState>
    var mux: seq<seq<MuxStream>>
    var inputs: seq<FilterQueue>
    var lastDts: int
    var terminate: bool

    var dec: seq<DecQueue>
    /** Whether each encoder has been told of the end of its input. */
    var encEnded: seq<bool>
    /** How often each demuxer has been choked or unchoked, and the count when each decoder's
        stream was ended. */
    ghost var changes: seq<nat>
    ghost var endedAt: seq<nat>

    /** What the walks rely on. */
    ghost predicate Shape()
      reads this
    {
      && Startable(g) && BestOk(g, best)
      && |demux| == |g.demux| && |filters| == |g.filters|
      && ShapeOk(g, mux, inputs)
      && DtsInRange(mux)
    }

    /** The queues of the filtergraphs are consistent; a decoder's queue is kept from being read
        while the demuxer that feeds it first is choked, until its stream is ended; after a
        request to terminate, every task is choked for good, and nothing keeps the decoders from
        reading. */
    ghost predicate Valid()
      reads this
    {
      && Shape()
      && (forall f :: 0 <= f < |inputs| ==> QueueOk(inputs[f]))
      && |dec| == |endedAt| == |g.dec| && |changes| == |g.demux| && |encEnded| == |g.enc|
      && QueuesFollow(g, demux, dec, endedAt, changes, terminate)
      && (terminate ==> AllChoked(demux) && AllChoked(filters))
    }

    constructor (g: Graph)
      requires Startable(g)
      ensures Valid() && this.g == g && !terminate && lastDts == 0
      ensures forall i :: 0 <= i < |demux| ==> !demux[i].choked && !demux[i].exited
      ensures forall f :: 0 <= f < |filters| ==> best[f] == 0 && !filters[f].choked && !filters[f].exited
      ensures forall i, j :: IsStream(mux, i, j) ==> mux[i][j] == MuxStream(NOPTS, false)
      ensures forall f, j :: 0 <= f < |inputs| && 0 <= j < |inputs[f].send.finished| ==>
        !inputs[f].send.finished[j] && !inputs[f].receive.finished[j]
      ensures forall k :: 0 <= k < |dec| ==> dec[k] == DecQueue(false, false)
      ensures forall e :: 0 <= e < |encEnded| ==> !encEnded[e]
    {
      hide Startable, QueueOk;
      this.g := g;
      best := seq(|g.filters|, _ => 0);
      demux := seq(|g.demux|, _ => TaskState(false, false, false, false));
      filters := seq(|g.filters|, _ => TaskState(false, false, false, false));
      mux := seq(|g.mux|, i requires 0 <= i < |g.mux| => seq(|g.mux[i]|, _ => MuxStream(NOPTS, false)));
      inputs := seq(|g.filters|, f requires 0 <= f < |g.filters| => NewQueue(|g.filters[f].inputs|));
      dec := seq(|g.dec|, _ => DecQueue(false, false));
      encEnded := seq(|g.enc|, _ => false);
      changes, endedAt := seq(|g.demux|, _ => 0), seq(|g.dec|, _ => 0);
      lastDts := 0;
      terminate := false;
    }

    /** trailing_dts. */
    method TrailingDts(countFinished: bool) returns (dts: int)
      requires Shape()
      ensures IsTrailing(mux, countFinished, dts)
    {
      dts := INT64_MAX;
      for i := 0 to |mux|
        invariant dts <= INT64_MAX
        invariant dts < INT64_MAX ==> exists a, b :: Counted(mux, a, b, countFinished) && mux[a][b].lastDts == dts
        invariant forall a, b :: a < i && Counted(mux, a, b, countFinished) ==> NOPTS != mux[a][b].lastDts >= dts
      {
        for j := 0 to |mux[i]|
          invariant dts <= INT64_MAX
          invariant dts < INT64_MAX ==> exists a, b :: Counted(mux, a, b, countFinished) && mux[a][b].lastDts == dts
          invariant forall a, b :: a < i && Counted(mux, a, b, countFinished) ==> NOPTS != mux[a][b].lastDts >= dts
          invariant forall b :: b < j && Counted(mux, i, b, countFinished) ==> NOPTS != mux[i][b].lastDts >= dts
        {
          var ms := mux[i][j];
          if ms.sourceFinished && !countFinished {
            continue;
          }
          assert Counted(mux, i, j, countFinished);
          if ms.lastDts == NOPTS {
            return NOPTS;
          }
          dts := Min(dts, ms.lastDts);
        }
      }
      if dts == INT64_MAX {
        return NOPTS;
      }
    }

    /** unchoke_downstream.  `S` is any closed set that already contains what is
        needed; the walk stays within it.  Nothing is done for muxers. */
    method UnchokeDownstream(dst: Node, ghost S: set<Task>)
      requires Shape() && ValidDst(g, dst)
      requires Closed(g, best, S) && ToRun(demux, filters) <= S && Served(g, best, dst, S)
      modifies this`demux, this`filters
      ensures Shape() && Advances(g, best, S, old(demux), old(filters), demux, filters)
      ensures Served(g, best, dst, ToRun(demux, filters))
      decreases |ChokedSet(demux)|, 3, ToGo(g, dst), 1
    {
      hide Served, NewlyClosed, Closed, Reaches, Startable;
      AdvancesRefl(g, best, S, demux, filters);
      if dst.FilterIn? {
        ServedFilter(g, best, dst, S);
        UnchokeFilter(dst.idx, S);
        ServedFilter(g, best, dst, ToRun(demux, filters));
      } else if dst.Mux? {
        ServedByTargets(g, best, dst, ToRun(demux, filters));
      } else {
        UnchokeTargets(dst, S);
      }
    }

    function NextOutput(d: nat, o: nat): Node
      requires Ready(g) && d < |g.dec| && o < |g.dec[d].outputs|
    {
      assert DecConnected(g, d);
      g.dec[d].outputs[o][0]
    }

    /** The decoder and encoder cases: on to the destinations. */
    method UnchokeTargets(dst: Node, ghost S: set<Task>)
      requires Shape() && ValidDst(g, dst) && (dst.DecIn? || dst.Enc?)
      requires Closed(g, best, S) && ToRun(demux, filters) <= S && Served(g, best, dst, S)
      modifies this`demux, this`filters
      ensures Shape() && Advances(g, best, S, old(demux), old(filters), demux, filters)
      ensures Served(g, best, dst, ToRun(demux, filters))
      decreases |ChokedSet(demux)|, 3, ToGo(g, dst), 0
    {
      hide Served, NewlyClosed, Closed, Reaches, Startable;
      AdvancesRefl(g, best, S, demux, filters);
      ghost var ts := Targets(g, dst);
      ServedByTargets(g, best, dst, S);
      for i := 0 to if dst.DecIn? then |g.dec[dst.idx].outputs| else |g.enc[dst.idx].dst|
        invariant Shape() && Advances(g, best, S, old(demux), old(filters), demux, filters)
        invariant AllServed(g, best, ts[..i], ToRun(demux, filters))
      {
        ghost var d1, f1, T := demux, filters, ToRun(demux, filters);
        var next := if dst.DecIn? then NextOutput(dst.idx, i) else g.enc[dst.idx].dst[i];
        assert next == ts[i];
        UnchokeDownstream(next, S);
        AdvancesTrans(g, best, S, old(demux), old(filters), d1, f1, demux, filters);
        ServedMore(g, best, ts, i, T, ToRun(demux, filters));
      }
      assert ts[..|ts|] == ts;
      ServedByTargets(g, best, dst, ToRun(demux, filters));
    }

    /** The filtergraph case: whatever the filtergraph waits for has to run. */
    method UnchokeFilter(f: nat, ghost S: set<Task>)
      requires Shape() && f < |g.filters|
      requires Closed(g, best, S) && ToRun(demux, filters) <= S && OfFilter(g, best, f) in S
      modifies this`demux, this`filters
      ensures Shape() && Advances(g, best, S, old(demux), old(filters), demux, filters)
      ensures OfFilter(g, best, f) in ToRun(demux, filters)
      decreases |ChokedSet(demux)|, 2, 0
    {
      hide Served, NewlyClosed, Closed;
      if best[f] == |g.filters[f].inputs| {
        AdvancesByFilter(g, best, S, demux, filters, f);
        filters := filters[f := filters[f].(chokedNext := false)];
      } else {
        InputRankLower(g, f, best[f]);
        UnchokeForStream(g.filters[f].inputs[best[f]], S);
      }
    }

    /** unchoke_for_stream: the task at the origin of `source` will run, and so will
        everything that a demuxer which starts to run needs; nothing else will. */
    method UnchokeForStream(source: Node, ghost S: set<Task>)
      requires Shape() && ValidSrc(g, source)
      requires Closed(g, best, S) && ToRun(demux, filters) <= S && Origin(g, best, source) in S
      modifies this`demux, this`filters
      ensures Shape() && Advances(g, best, S, old(demux), old(filters), demux, filters)
      ensures Origin(g, best, source) in ToRun(demux, filters)
      decreases |ChokedSet(demux)|, 1
    {
      hide Served, NewlyClosed, Closed, Origin, Rank, ChainLength, Startable;
      var src := source;
      AdvancesRefl(g, best, S, demux, filters);
      while true
        invariant ValidSrc(g, src) && Origin(g, best, src) == Origin(g, best, source)
        invariant demux == old(demux) && filters == old(filters)
        decreases Rank(g, src), ChainLength(g, src)
      {
        OriginStep(g, best, src);
        if src.Demux? {
          if demux[src.idx].chokedNext {  // otherwise it runs already
            UnchokeDemux(src.idx, S);
          }
          return;
        } else if src.FilterOut? {
          var f := src.idx;
          if best[f] == |g.filters[f].inputs| {
            AdvancesByFilter(g, best, S, demux, filters, f);
            filters := filters[f := filters[f].(chokedNext := false)];
            return;
          }
          src := g.filters[f].inputs[best[f]];
        } else {
          src := UpOne(g, src);
        }
      }
    }

    /** The demuxer case of unchoke_for_stream. */
    method UnchokeDemux(d: nat, ghost S: set<Task>)
      requires Shape() && d < |demux| && demux[d].chokedNext
      requires Closed(g, best, S) && ToRun(demux, filters) <= S && DemuxTask(d) in S
      modifies this`demux, this`filters
      ensures Shape() && Advances(g, best, S, old(demux), old(filters), demux, filters)
      ensures DemuxTask(d) in ToRun(demux, filters)
      decreases |ChokedSet(demux)|, 0
    {
      OneFewerChoked(demux, d);
      demux := demux[d := demux[d].(chokedNext := false)];
      assert ToRun(demux, filters) <= S;
      AdvancesRefl(g, best, S, demux, filters);
      ghost var d0 := demux;
      ghost var ts := DemuxTargets(g, d);
      assert AllServed(g, best, ts, S);
      hide Served, NewlyClosed, Closed;
      for i := 0 to |g.demux[d]|
        invariant Shape() && Advances(g, best, S, d0, old(filters), demux, filters)
        invariant AllServed(g, best, ts[..i], ToRun(demux, filters))
      {
        ghost var d1, f1, T := demux, filters, ToRun(demux, filters);
        UnchokeDownstream(g.demux[d][i][0], S);
        AdvancesTrans(g, best, S, d0, old(filters), d1, f1, demux, filters);
        ServedMore(g, best, ts, i, T, ToRun(demux, filters));
      }
      assert ts[..|ts|] == ts;
      AdvancesByDemux(g, best, S, old(demux), old(filters), d, demux, filters);
    }

    method UnchokeAny()
      requires Shape()
      modifies this`demux, this`filters
      ensures Shape() && OnlyUnchoked(old(demux), demux) && OnlyUnchoked(old(filters), filters)
      ensures ToRun(demux, filters) == old(ToRun(demux, filters)) + Fallback(demux, filters)
    {
      hide Startable, ShapeOk, DtsInRange, BestOk;
      var found;
      ghost var at;
      demux, found, at := UnchokeFirstAlive(demux);
      if found {
        FallbackIsDemux(old(demux), filters, at);
        return;
      }
      filters, found, at := UnchokeFirstAlive(filters);
      if found {
        FallbackIsFilter(demux, old(filters), at);
      } else {
        FallbackIsNone(demux, filters);
      }
    }

    /** The loop over all muxer streams: what the eligible ones come from has to run. */
    method UnchokeMuxSources(ghost S: set<Task>) returns (haveUnchoked: bool)
      requires Shape() && Closed(g, best, S) && ToRun(demux, filters) <= S
      requires Seeds(g, best, mux, inputs, lastDts) <= S
      modifies this`demux, this`filters
      ensures Shape() && Advances(g, best, S, old(demux), old(filters), demux, filters)
      ensures haveUnchoked <==> SomeEligible(mux, lastDts)
      ensures forall i, j, w :: MuxSeed(g, best, mux, lastDts, i, j, w) ==> w in ToRun(demux, filters)
    {
      hide Closed, NewlyClosed, Startable, Origin;
      haveUnchoked := false;
      AdvancesRefl(g, best, S, demux, filters);
      for i := 0 to |mux|
        invariant Shape() && Advances(g, best, S, old(demux), old(filters), demux, filters)
        invariant haveUnchoked <==> exists a, b :: a < i && IsStream(mux, a, b) && Eligible(mux[a][b], lastDts)
        invariant forall a, b, w :: a < i && MuxSeed(g, best, mux, lastDts, a, b, w) ==> w in ToRun(demux, filters)
      {
        for j := 0 to |mux[i]|
          invariant Shape() && Advances(g, best, S, old(demux), old(filters), demux, filters)
          invariant haveUnchoked <==>
            exists a, b :: (a < i || (a == i && b < j)) && IsStream(mux, a, b) && Eligible(mux[a][b], lastDts)
          invariant forall a, b, w :: (a < i || (a == i && b < j)) && MuxSeed(g, best, mux, lastDts, a, b, w) ==>
            w in ToRun(demux, filters)
        {
          if !Eligible(mux[i][j], lastDts) {
            continue;
          }
          MuxSrcValid(g, i, j);
          ghost var w := MuxOrigin(g, best, i, j);
          OriginIsTask(g, best, g.mux[i][j]);
          assert MuxSeed(g, best, mux, lastDts, i, j, w);
          assert w in Seeds(g, best, mux, inputs, lastDts);
          ghost var d1, f1 := demux, filters;
          UnchokeForStream(g.mux[i][j], S);
          AdvancesTrans(g, best, S, old(demux), old(filters), d1, f1, demux, filters);
          haveUnchoked := true;
          assert IsStream(mux, i, j);
        }
      }
    }

    /** The loop over all filtergraph inputs: what still sends to a closed one has to run, or it
        would never find out. */
    method UnchokeClosingSources(ghost S: set<Task>)
      requires Shape() && Closed(g, best, S) && ToRun(demux, filters) <= S
      requires Seeds(g, best, mux, inputs, lastDts) <= S
      modifies this`demux, this`filters
      ensures Shape() && Advances(g, best, S, old(demux), old(filters), demux, filters)
      ensures forall f, j, w :: InputSeed(g, best, inputs, f, j, w) ==> w in ToRun(demux, filters)
    {
      hide Closed, NewlyClosed, Startable, Origin;
      AdvancesRefl(g, best, S, demux, filters);
      for f := 0 to |filters|
        invariant Shape() && Advances(g, best, S, old(demux), old(filters), demux, filters)
        invariant forall a, b, w :: a < f && InputSeed(g, best, inputs, a, b, w) ==> w in ToRun(demux, filters)
      {
        for j := 0 to |inputs[f].receive.finished|
          invariant Shape() && Advances(g, best, S, old(demux), old(filters), demux, filters)
          invariant forall a, b, w :: (a < f || (a == f && b < j)) && InputSeed(g, best, inputs, a, b, w) ==>
            w in ToRun(demux, filters)
        {
          if inputs[f].receive.finished[j] && !inputs[f].send.finished[j] {
            InputValid(g, f, j);
            ghost var w := InputOrigin(g, best, f, j);
            OriginIsTask(g, best, g.filters[f].inputs[j]);
            assert InputSeed(g, best, inputs, f, j, w);
            assert w in Seeds(g, best, mux, inputs, lastDts);
            ghost var d1, f1 := demux, filters;
            UnchokeForStream(g.filters[f].inputs[j], S);
            AdvancesTrans(g, best, S, old(demux), old(filters), d1, f1, demux, filters);
          }
        }
      }
    }

    /** The middle of an update: mark the tasks that are to run. */
    method ChooseSources()
      requires Shape() && ToRun(demux, filters) == {}
      modifies this`demux, this`filters
      ensures Shape() && OnlyUnchoked(old(demux), demux) && OnlyUnchoked(old(filters), filters)
      ensures ToRun(demux, filters) == ShouldRun(g, best, mux, inputs, lastDts, demux, filters)
    {
      hide Closed, Startable, Seeds, Least;
      ghost var d0, f0 := demux, filters;
      ghost var seeds := Seeds(g, best, mux, inputs, lastDts);
      SeedsAreTasks(g, best, mux, inputs, lastDts);
      ghost var S := Least(g, best, seeds);
      LeastIsLeast(g, best, seeds);

      var haveUnchoked := UnchokeMuxSources(S);
      ghost var d1, f1 := demux, filters;
      UnchokeClosingSources(S);
      AdvancesTrans(g, best, S, d0, f0, d1, f1, demux, filters);
      SeedsReached(g, best, mux, inputs, lastDts, ToRun(demux, filters));
      LeastReached(g, best, seeds, ToRun(demux, filters));
      assert ToRun(demux, filters) == S;

      if !haveUnchoked {
        UnchokeAny();
      }
    }

    /** choke_demux: keep what demuxer d feeds first from reading, or let it read. */
    method ChokeDemux(d: nat, choked: bool)
      requires Ready(g) && d < |g.demux| && |dec| == |g.dec|
      modifies this`dec
      ensures |dec| == |g.dec| && QueuesSet(g, d, choked, old(dec), dec)
    {
      StreamHeads(g, d);
      for i := 0 to |g.demux[d]|
        invariant |dec| == |g.dec|
        invariant forall k: nat :: k < |dec| ==>
          dec[k] == if exists s :: s < i && IsFirst(g, d, s, k) then old(dec)[k].(choked := choked) else old(dec)[k]
      {
        var dst := g.demux[d][i][0];
        if dst.DecIn? {
          dec := dec[dst.idx := dec[dst.idx].(choked := choked)];
          assert IsFirst(g, d, i, dst.idx);
        }
      }
    }

    /** The end of an update, for the demuxers: with each one that changes, its queues do. */
    method FinishDemux()
      requires Ready(g) && |demux| == |g.demux| && |dec| == |g.dec| && |changes| == |demux|
      requires QueuesFollow(g, demux, dec, endedAt, changes, false)
      requires forall i :: 0 <= i < |demux| ==> demux[i].choked == demux[i].chokedPrev
      modifies this`demux, this`dec, this`changes
      ensures |demux| == |old(demux)| == |changes| && |dec| == |g.dec|
      ensures QueuesFollow(g, demux, dec, endedAt, changes, false)
      ensures ChangesCounted(old(demux), old(changes), demux, changes) && SameEnds(old(dec), dec)
      ensures forall i :: 0 <= i < |demux| ==>
        demux[i].choked == old(demux)[i].chokedNext && demux[i].exited == old(demux)[i].exited
    {
      hide QueuesFollow, FullyConnected, ChainsEnd, FeedsFirst;
      for i := 0 to |demux|
        invariant |demux| == |old(demux)| && |dec| == |g.dec| && |changes| == |demux|
        invariant QueuesFollow(g, demux, dec, endedAt, changes, false)
        invariant ChangesCounted(old(demux), old(changes), demux, changes) && SameEnds(old(dec), dec)
        invariant forall k :: 0 <= k < i ==>
          demux[k].choked == old(demux)[k].chokedNext && demux[k].exited == old(demux)[k].exited
        invariant forall k :: i <= k < |demux| ==> demux[k] == old(demux)[k]
      {
        if demux[i].chokedPrev != demux[i].chokedNext {
          ghost var before, queues := demux, dec;
          demux := demux[i := demux[i].(choked := demux[i].chokedNext)];
          ChokeDemux(i, demux[i].choked);
          QueuesFollowOne(g, before, queues, endedAt, changes, i, demux[i], dec);
          changes := changes[i := changes[i] + 1];
        }
      }
    }

    /** What is in force after an update: exactly the tasks run that should. */
    ghost predicate Updated()
      requires Shape()
      reads this
    {
      !terminate ==>
        && IsTrailing(mux, false, lastDts)
        && Running(demux, filters) == ShouldRun(g, best, mux, inputs, lastDts, demux, filters)
    }

    /** The first half of an update: decide, without changing any flag. */
    method MarkSources()
      requires Shape()
      modifies this`demux, this`filters, this`lastDts
      ensures Shape() && IsTrailing(mux, false, lastDts)
      ensures SameExits(old(demux), demux) && SameExits(old(filters), filters)
      ensures forall i :: 0 <= i < |demux| ==> demux[i].choked == demux[i].chokedPrev == old(demux)[i].choked
      ensures forall i :: 0 <= i < |filters| ==> filters[i].choked == filters[i].chokedPrev
      ensures ToRun(demux, filters) == ShouldRun(g, best, mux, inputs, lastDts, demux, filters)
    {
      hide Startable, IsTrailing, ShouldRun, BestOk, ShapeOk, DtsInRange;
      lastDts := TrailingDts(false);
      demux := StartWaiters(demux);
      filters := StartWaiters(filters);
      assert ToRun(demux, filters) == {};
      ChooseSources();
    }

    /** schedule_update_locked. */
    method ScheduleUpdate()
      requires Valid()
      modifies this`demux, this`filters, this`lastDts, this`dec, this`changes
      ensures Valid() && Updated() && SameExits(old(demux), demux) && SameExits(old(filters), filters)
      ensures ChangesCounted(old(demux), old(changes), demux, changes) && SameEnds(old(dec), dec)
      ensures terminate ==> demux == old(demux) && filters == old(filters) && lastDts == old(lastDts)
    {
      hide Startable, IsTrailing, ShouldRun, BestOk, ShapeOk, DtsInRange, QueuesFollow, QueueOk, SameEnds;
      if terminate {
        NothingChanged(demux, changes, dec);
        return;
      }
      MarkSources();
      ghost var d, f := demux, filters;
      QueuesFollowSame(g, old(demux), demux, dec, endedAt, changes, false);
      FinishDemux();
      filters := FinishWaiters(filters);
      hide ChangesCounted;
      ChangesCountedFrom(old(demux), d, old(changes), demux, changes);
      ShouldRunSame(g, best, mux, inputs, lastDts, d, f, demux, filters);
      assert Running(demux, filters) == ToRun(d, f);
    }

    // --- events, each followed by an update ------------------------------------------------

    /** sch_filter_receive: filtergraph f now waits for `input`, or for nothing if that is
        the number of its inputs.  Without a change nothing is done. */
    method WantInput(f: nat, input: nat)
      requires Valid() && f < |g.filters| && input <= |g.filters[f].inputs|
      modifies this`best, this`demux, this`filters, this`lastDts, this`dec, this`changes
      ensures Valid() && best == old(best)[f := input]
      ensures old(best[f]) != input ==> Updated()
      ensures old(best[f]) == input ==> demux == old(demux) && filters == old(filters) && lastDts == old(lastDts)
      ensures SameExits(old(demux), demux) && SameExits(old(filters), filters)
    {
      hide Startable, IsTrailing, ShouldRun, DtsInRange, QueuesFollow, QueueOk;
      if input != best[f] {
        best := best[f := input];
        ScheduleUpdate();
      } else {
        assert old(best)[f := input] == best;
      }
    }

    /** sch_filter_choke_inputs: filtergraph f wants nothing from upstream, in any case with an
        update. */
    method ChokeInputs(f: nat)
      requires Valid() && f < |g.filters|
      modifies this`best, this`demux, this`filters, this`lastDts, this`dec, this`changes
      ensures Valid() && Updated() && best == old(best)[f := |g.filters[f].inputs|]
      ensures SameExits(old(demux), demux) && SameExits(old(filters), filters)
    {
      hide Startable, IsTrailing, ShouldRun, DtsInRange, QueuesFollow, QueueOk;
      best := best[f := |g.filters[f].inputs|];
      ScheduleUpdate();
    }

    /** The end of send_to_mux and sch_mux_receive_finish: a stream has received a
        packet that ends at `dts`, or has finished. */
    method MuxStreamEvent(i: nat, j: nat, finished: bool, dts: int)
      requires Valid() && i < |mux| && j < |mux[i]| && NOPTS < dts <= INT64_MAX
      modifies this`mux, this`demux, this`filters, this`lastDts, this`dec, this`changes
      ensures Valid() && Updated()
      ensures mux == old(mux)[i := old(mux)[i][j :=
        if finished then old(mux)[i][j].(sourceFinished := true) else old(mux)[i][j].(lastDts := dts)]]
      ensures SameExits(old(demux), demux) && SameExits(old(filters), filters)
    {
      hide Startable, IsTrailing, ShouldRun, BestOk, QueuesFollow, QueueOk;
      if finished {
        mux := mux[i := mux[i][j := mux[i][j].(sourceFinished := true)]];
      } else {
        mux := mux[i := mux[i][j := mux[i][j].(lastDts := dts)]];
      }
      ScheduleUpdate();
    }

    /** send_to_filter without a frame: the source of input j of filtergraph f has ended. */
    method SendFinish(f: nat, j: nat)
      requires Valid() && f < |inputs| && j < |inputs[f].send.finished|
      modifies this`inputs, this`demux, this`filters, this`lastDts, this`dec, this`changes
      ensures Valid() && |inputs| == |old(inputs)|
      ensures forall k :: 0 <= k < |inputs| && k != f ==> inputs[k] == old(inputs)[k]
      ensures inputs[f].receive == old(inputs)[f].receive
      ensures inputs[f].send.finished == old(inputs)[f].send.finished[j := true]
      ensures !old(inputs)[f].send.finished[j] ==> Updated()
      ensures old(inputs)[f].send.finished[j] ==>
        inputs == old(inputs) && demux == old(demux) && filters == old(filters) && lastDts == old(lastDts)
      ensures old(inputs)[f].send.finished[j] && old(Updated()) ==> Updated()
      ensures SameExits(old(demux), demux) && SameExits(old(filters), filters)
    {
      hide Startable, IsTrailing, ShouldRun, BestOk, DtsInRange, QueuesFollow, SideOk;
      if !inputs[f].send.finished[j] {
        var side := Close(inputs[f].send, j);
        inputs := inputs[f := inputs[f].(send := side)];
        ScheduleUpdate();
      } else {
        assert inputs[f].send.finished[j := true] == inputs[f].send.finished;
      }
    }

    /** sch_filter_receive_finish: filtergraph f wants no more of its input j. */
    method ReceiveFinish(f: nat, j: nat)
      requires Valid() && f < |inputs| && j < |inputs[f].receive.finished|
      modifies this`inputs, this`demux, this`filters, this`lastDts, this`dec, this`changes
      ensures Valid() && |inputs| == |old(inputs)|
      ensures forall k :: 0 <= k < |inputs| && k != f ==> inputs[k] == old(inputs)[k]
      ensures inputs[f].send == old(inputs)[f].send
      ensures inputs[f].receive.finished == old(inputs)[f].receive.finished[j := true]
      ensures !old(inputs)[f].receive.finished[j] ==> Updated()
      ensures old(inputs)[f].receive.finished[j] ==>
        inputs == old(inputs) && demux == old(demux) && filters == old(filters) && lastDts == old(lastDts)
      ensures SameExits(old(demux), demux) && SameExits(old(filters), filters)
    {
      hide Startable, IsTrailing, ShouldRun, BestOk, DtsInRange, QueuesFollow, SideOk;
      if !inputs[f].receive.finished[j] {
        var side := Close(inputs[f].receive, j);
        inputs := inputs[f := inputs[f].(receive := side)];
        ScheduleUpdate();
      } else {
        assert inputs[f].receive.finished[j := true] == inputs[f].receive.finished;
      }
    }

    /** demux_stream_send_to_dst and enc_send_to_dst at the end of a stream to decoder k: the
        first time, its queue is finished, which also opens it. */
    method EndDecoder(k: nat)
      requires Valid() && k < |dec|
      modifies this`dec, this`endedAt
      ensures Valid() && |dec| == |old(dec)|
      ensures dec == old(dec)[k := if old(dec)[k].ended then old(dec)[k] else DecQueue(false, true)]
    {
      hide Startable, BestOk, ShapeOk, DtsInRange, QueuesFollow, QueueOk;
      if !dec[k].ended {
        QueuesFollowEnd(g, demux, dec, endedAt, changes, terminate, k);
        dec := dec[k := dec[k].(ended := true)];
        dec := dec[k := dec[k].(choked := false)];
        endedAt := endedAt[k := LastChange(g, changes, k)];
        assert dec == old(dec)[k := DecQueue(false, true)];
      }
    }

    /** The first part of demux_done: the streams of demuxer d have ended for all decoders. */
    method EndStreams(d: nat)
      requires Valid() && d < |g.demux|
      modifies this`dec, this`endedAt
      ensures Valid() && |dec| == |old(dec)|
      ensures forall k: nat :: k < |dec| ==>
        dec[k] == if FeedsDecoder(g, d, k) && !old(dec)[k].ended then DecQueue(false, true) else old(dec)[k]
    {
      hide Startable, BestOk, ShapeOk, DtsInRange, QueuesFollow, QueueOk;
      for i := 0 to |g.demux[d]|
        invariant Valid() && |dec| == |old(dec)|
        invariant forall k: nat :: k < |dec| ==>
          dec[k] == if FeedsUpTo(g, d, i, 0, k) && !old(dec)[k].ended then DecQueue(false, true) else old(dec)[k]
      {
        for j := 0 to |g.demux[d][i]|
          invariant Valid() && |dec| == |old(dec)|
          invariant forall k: nat :: k < |dec| ==>
            dec[k] == if FeedsUpTo(g, d, i, j, k) && !old(dec)[k].ended then DecQueue(false, true) else old(dec)[k]
        {
          var dst := g.demux[d][i][j];
          if dst.DecIn? {
            DemuxDstValid(g, d, i, j);
            EndDecoder(dst.idx);
          }
        }
      }
    }

    /** The last part of demux_done: the task is gone. */
    method ExitDemux(d: nat)
      requires Valid() && d < |demux|
      modifies this`demux, this`filters, this`lastDts, this`dec, this`changes
      ensures Valid() && Updated() && SameExits(old(filters), filters)
      ensures ChangesCounted(old(demux), old(changes), demux, changes) && SameEnds(old(dec), dec)
      ensures |demux| == |old(demux)| && forall i :: 0 <= i < |demux| ==>
        demux[i].exited == (i == d || old(demux)[i].exited)
    {
      hide Startable, IsTrailing, ShouldRun, BestOk, ShapeOk, DtsInRange, QueuesFollow, QueueOk;
      demux := demux[d := demux[d].(exited := true)];
      QueuesFollowSame(g, old(demux), demux, dec, endedAt, changes, terminate);
      ScheduleUpdate();
    }

    /** demux_done: the streams of demuxer d are ended, and its task is gone.  Its muxers are told
        by events of their own. */
    method DemuxDone(d: nat)
      requires Valid() && d < |g.demux| == |demux|
      modifies this`demux, this`filters, this`lastDts, this`dec, this`changes, this`endedAt
      ensures Valid() && Updated() && SameExits(old(filters), filters)
      ensures |demux| == |old(demux)| && forall i :: 0 <= i < |demux| ==>
        demux[i].exited == (i == d || old(demux)[i].exited)
      // every decoder that it feeds learns of it, and one that could not read its queue now can,
      // but for a demuxer that is choked only now
      ensures |dec| == |old(dec)| && forall k: nat :: k < |dec| ==>
        dec[k].ended == (FeedsDecoder(g, d, k) || old(dec)[k].ended)
      ensures !terminate ==> forall k: nat :: k < |dec| && FeedsFirst(g, d, k) && !old(dec)[k].ended ==>
        dec[k].choked == (demux[d].choked && !old(demux)[d].choked)
    {
      hide Startable, IsTrailing, ShouldRun, BestOk, ShapeOk, DtsInRange, QueueOk, FeedsFirst, FeedsDecoder,
        QueuesFollow;
      EndStreams(d);
      ghost var demux1, dec1, changes1 := demux, dec, changes;
      ExitDemux(d);
      if !terminate {
        forall k: nat | k < |dec| && FeedsFirst(g, d, k) && !old(dec)[k].ended
          ensures dec[k].choked == (demux[d].choked && !old(demux)[d].choked)
        {
          FirstIsFed(g, d, k);
          EndedQueueAfter(g, demux1, dec1, endedAt, changes1, demux, dec, changes, d, k);
        }
      }
    }

    /** The first part of filter_done: all inputs, and the control stream, are closed for
        reading, past the counter. */
    method EndReading(f: nat)
      requires Valid() && f < |inputs|
      modifies this`inputs
      ensures Valid() && |inputs| == |old(inputs)|
      ensures forall k :: 0 <= k < |inputs| && k != f ==> inputs[k] == old(inputs)[k]
      ensures inputs[f].send == old(inputs)[f].send
      ensures inputs[f].receive.finished == old(inputs)[f].receive.finished
      ensures inputs[f].receive.taskEnds == old(inputs)[f].receive.taskEnds + 1
    {
      hide Startable, BestOk, DtsInRange, QueuesFollow, SideOk;
      var side := CloseAll(inputs[f].receive);
      inputs := inputs[f := inputs[f].(receive := side)];
    }

    /** The second part: what the filtergraph feeds has come to its end, and nothing else. */
    method EndOutputs(f: nat)
      requires Valid() && f < |g.filters|
      modifies this`inputs, this`demux, this`filters, this`lastDts, this`dec, this`changes, this`encEnded
      ensures Valid()
      ensures InputsEnd(old(inputs), g.filters[f].outputs, inputs)
      ensures EncodersEnd(old(encEnded), g.filters[f].outputs, encEnded)
      ensures SameExits(old(demux), demux) && SameExits(old(filters), filters)
      ensures Updated() || (demux == old(demux) && filters == old(filters) && lastDts == old(lastDts))
    {
      hide IsTrailing, ShouldRun, BestOk, DtsInRange, QueuesFollow, QueueOk, FullyConnected, ChainsEnd, HasCycle,
        InputsEnd, EncodersEnd;
      ghost var outputs := g.filters[f].outputs;
      NothingEnds(inputs, encEnded);
      for o := 0 to |g.filters[f].outputs|
        invariant Valid()
        invariant InputsEnd(old(inputs), outputs[..o], inputs) && EncodersEnd(old(encEnded), outputs[..o], encEnded)
        invariant SameExits(old(demux), demux) && SameExits(old(filters), filters)
        invariant Updated() || (demux == old(demux) && filters == old(filters) && lastDts == old(lastDts))
      {
        var dst := g.filters[f].outputs[o];
        FilterOutputValid(g, f, o);
        assert outputs[..o + 1] == outputs[..o] + [dst];
        if dst.Enc? {
          OneMoreEncoder(old(inputs), old(encEnded), outputs[..o], inputs, encEnded, dst.idx);
          encEnded := encEnded[dst.idx := true];
        } else {
          ghost var before := inputs;
          SendFinish(dst.idx, dst.stream);
          OneMoreInput(old(inputs), old(encEnded), outputs[..o], before, encEnded, dst.idx, dst.stream, inputs);
        }
      }
      assert outputs[..|outputs|] == outputs;
    }

    /** The last part: the task is gone. */
    method ExitFilter(f: nat)
      requires Valid() && f < |filters|
      modifies this`demux, this`filters, this`lastDts, this`dec, this`changes
      ensures Valid() && Updated() && SameExits(old(demux), demux)
      ensures |filters| == |old(filters)| && forall i :: 0 <= i < |filters| ==>
        filters[i].exited == (i == f || old(filters)[i].exited)
    {
      hide Startable, IsTrailing, ShouldRun, BestOk, ShapeOk, DtsInRange, QueuesFollow, QueueOk;
      filters := filters[f := filters[f].(exited := true)];
      ScheduleUpdate();
    }

    /** filter_done: filtergraph f reads no more, ends what it feeds, and its task is gone. */
    method FilterDone(f: nat)
      requires Valid() && f < |g.filters| == |filters| == |inputs|
      modifies this`inputs, this`demux, this`filters, this`lastDts, this`dec, this`changes, this`encEnded
      ensures Valid() && Updated() && SameExits(old(demux), demux)
      ensures |filters| == |old(filters)| && forall i :: 0 <= i < |filters| ==>
        filters[i].exited == (i == f || old(filters)[i].exited)
      // its own inputs are closed for good, without being counted
      ensures |inputs| == |old(inputs)|
      ensures forall k :: 0 <= k < |inputs| && k != f ==> inputs[k].receive == old(inputs)[k].receive
      ensures inputs[f].receive.finished == old(inputs)[f].receive.finished
      ensures inputs[f].receive.taskEnds == old(inputs)[f].receive.taskEnds + 1
      // and exactly what it feeds has got EOF
      ensures forall k: nat, j: nat :: k < |inputs| && j < |old(inputs)[k].send.finished| ==>
        && |inputs[k].send.finished| == |old(inputs)[k].send.finished|
        && inputs[k].send.finished[j] == (old(inputs)[k].send.finished[j] || FilterIn(k, j) in g.filters[f].outputs)
      ensures EncodersEnd(old(encEnded), g.filters[f].outputs, encEnded)
    {
      hide Startable, IsTrailing, ShouldRun, BestOk, ShapeOk, DtsInRange, QueuesFollow, QueueOk, AllChoked, Updated,
        EncodersEnd;
      EndReading(f);
      EndOutputs(f);
      ExitFilter(f);
    }

    /** mux_done: muxer i takes no more from any stream. */
    method MuxDone(i: nat)
      requires Valid() && i < |mux|
      modifies this`mux, this`demux, this`filters, this`lastDts, this`dec, this`changes
      ensures Valid() && Updated()
      ensures |mux| == |old(mux)| && |mux[i]| == |old(mux)[i]|
      ensures forall k :: 0 <= k < |mux| && k != i ==> mux[k] == old(mux)[k]
      ensures forall j :: 0 <= j < |mux[i]| ==> mux[i][j] == old(mux)[i][j].(sourceFinished := true)
      ensures SameExits(old(demux), demux) && SameExits(old(filters), filters)
    {
      hide Startable, IsTrailing, ShouldRun, BestOk, QueuesFollow, QueueOk;
      var streams := mux[i];
      for j := 0 to |streams|
        invariant |streams| == |mux[i]|
        invariant forall k :: 0 <= k < |streams| ==>
          streams[k] == if k < j then mux[i][k].(sourceFinished := true) else mux[i][k]
      {
        streams := streams[j := streams[j].(sourceFinished := true)];
      }
      mux := mux[i := streams];
      ScheduleUpdate();
    }

    /** The beginning of sch_stop: from now on every task is choked, whatever happens, and the
        decoders may read what is left. */
    method Stop()
      requires Valid()
      modifies this`terminate, this`demux, this`filters, this`dec, this`changes
      ensures Valid() && terminate && SameExits(old(demux), demux) && SameExits(old(filters), filters)
      ensures SameEnds(old(dec), dec) && forall k :: 0 <= k < |dec| ==> !dec[k].choked
    {
      hide Startable, BestOk, ShapeOk, DtsInRange, QueueOk, FeedsFirst;
      terminate := true;
      for i := 0 to |filters|
        modifies this`filters
        invariant |filters| == |old(filters)| && SameExits(old(filters), filters)
        invariant forall k :: 0 <= k < i ==> filters[k].choked
      {
        filters := filters[i := filters[i].(choked := true)];
      }
      for i := 0 to |demux|
        modifies this`demux, this`dec, this`changes
        invariant |demux| == |old(demux)| && SameExits(old(demux), demux) && SameEnds(old(dec), dec)
        invariant |changes| == |demux| && forall d :: 0 <= d < |changes| ==> changes[d] >= old(changes)[d]
        invariant forall k :: 0 <= k < i ==> demux[k].choked
        invariant forall d: nat, k: nat :: d < i && k < |dec| && FeedsFirst(g, d, k) ==> !dec[k].choked
        invariant forall k: nat :: k < |dec| && (forall d: nat :: !FeedsFirst(g, d, k)) ==> !dec[k].choked
      {
        demux := demux[i := demux[i].(choked := true)];
        ChokeDemux(i, false);
        changes := changes[i := changes[i] + 1];
      }
      forall k: nat | k < |dec|
        ensures !dec[k].choked
      {
        if d: nat :| FeedsFirst(g, d, k) {
          FeederExists(g, d, k);
        }
      }
    }
  }
}
