/** When an output that is not ahead of the others can come to a halt all the same.

    The walks of the scheduler unchoke, for every eligible muxer stream, the task it comes from,
    and what the first destinations of a demuxer need.  Tasks wait in more ways than that: for
    all their destinations, and behind the outputs of filtergraphs.  Here is which graphs make
    a difference. */
module Progress {
  import opened Cycles
  import opened EofDrain
  import opened EofProtocol
  import opened Scheduling
  import opened Stalls
  import opened Timestamps
  import opened Topology
  import opened Waking

  /** What the scheduler knows when it updates, with the time that it derives. */
  datatype Moment = Moment(
    best: seq<nat>,
    mux: seq<seq<MuxStream>>,
    inputs: seq<FilterQueue>,
    dts: int,
    demux: seq<TaskState>,
    filters: seq<TaskState>)

  ghost predicate MomentOk(g: Graph, m: Moment)
    requires Startable(g)
  {
    && BestOk(g, m.best)
    && ShapeOk(g, m.mux, m.inputs) && (forall f :: 0 <= f < |m.inputs| ==> QueueOk(m.inputs[f]))
    && DtsInRange(m.mux) && IsTrailing(m.mux, false, m.dts)
    && |m.demux| == |g.demux| && |m.filters| == |g.filters|
  }

  /** The tasks that run after the update. */
  ghost function Runs(g: Graph, m: Moment): set<Task>
    requires Startable(g) && MomentOk(g, m)
  {
    ShouldRun(g, m.best, m.mux, m.inputs, m.dts, m.demux, m.filters)
  }

  /** An eligible stream gets nothing, because its sender, or what that waits for, is held up. */
  ghost predicate Starves(g: Graph, m: Moment, i: nat, j: nat)
    requires Startable(g) && MomentOk(g, m)
  {
    && IsStream(m.mux, i, j) && Eligible(m.mux[i][j], m.dts)
    && HeldUp(g, m.best, Runs(g, m), ForOutput(g.mux[i][j]))
  }

  /** At any moment: an eligible stream can be starved if and only if a filtergraph that wants to
      be scheduled directly, and does not run, is below the end of its upstream walk. */
  lemma StarvesIff(g: Graph, m: Moment, i: nat, j: nat)
    requires Startable(g) && MomentOk(g, m) && IsStream(m.mux, i, j) && Eligible(m.mux[i][j], m.dts)
    ensures ValidSrc(g, g.mux[i][j])
    ensures Starves(g, m, i, j) <==>
      exists f :: DirectBelow(g, m.best, g.mux[i][j], f) && FilterTask(f) !in Runs(g, m)
  {
    hide HeldUp, Startable, Awaited, DirectBelow, ShouldRun, IsTrailing, DtsInRange;
    MuxSrcValid(g, i, j);
    var src := g.mux[i][j];
    HeldUpIffAwaits(g, m.best, Runs(g, m), ForOutput(src));
    EligibleSourceRuns(g, m.best, m.mux, m.inputs, m.dts, m.demux, m.filters, i, j);
    forall w ensures Awaited(g, m.best, ForOutput(src), w) <==>
      w == Origin(g, m.best, src) || (w.FilterTask? && DirectBelow(g, m.best, src, w.idx))
    {
      AwaitedIff(g, m.best, src, w);
    }
    if f :| DirectBelow(g, m.best, src, f) && FilterTask(f) !in Runs(g, m) {
      assert Awaited(g, m.best, ForOutput(src), FilterTask(f));
    }
  }

  // --- the graphs that can starve a stream ---------------------------------------------------

  /** A way upstream: from a source to one of those that feed its component. */
  ghost predicate Climbs(g: Graph, src: Node, up: Node) {
    ValidSrc(g, src) &&
    if src.DecOut? || src.Enc? then up == UpOne(g, src)
    else src.FilterOut? && up in g.filters[src.idx].inputs
  }

  ghost predicate FromMux(g: Graph, src: Node) {
    exists i, j :: 0 <= i < |g.mux| && 0 <= j < |g.mux[i]| && src == g.mux[i][j]
  }

  /** From the source of a muxer stream upstream to a demuxer or filtergraph. */
  ghost predicate IsClimb(g: Graph, p: seq<Node>) {
    && p != []
    && (forall i :: 0 <= i < |p| ==> ValidSrc(g, p[i]))
    && (forall i :: 0 <= i < |p| - 1 ==> Climbs(g, p[i], p[i + 1]))
    && (p[|p| - 1].Demux? || p[|p| - 1].FilterOut?)
  }

  ghost predicate OnPath(p: seq<Node>, f: nat) {
    exists i :: 0 <= i < |p| && p[i].FilterOut? && p[i].idx == f
  }

  /** The walk along the first destinations of a demuxer arrives at filtergraph f. */
  ghost predicate Walked(g: Graph, d: nat, f: nat)
    requires Startable(g)
  {
    d < |g.demux| && exists k :: 0 <= k < |DemuxTargets(g, d)| && Reaches(g, DemuxTargets(g, d)[k], f)
  }

  /** Filtergraph f gets something from where the climb ends, and neither the way back nor the
      walk of the scheduler passes it. */
  ghost predicate Missed(g: Graph, p: seq<Node>, f: nat)
    requires Startable(g)
  {
    && IsClimb(g, p) && FromMux(g, p[0])
    && f < |g.filters| && !OnPath(p, f) && FilterBelow(g, p[|p| - 1], f)
    && (p[|p| - 1].Demux? ==> !Walked(g, p[|p| - 1].idx, f))
  }

  lemma ClimbFirst(g: Graph, src: Node, q: seq<Node>)
    requires IsClimb(g, q) && Climbs(g, src, q[0])
    ensures IsClimb(g, [src] + q)
  {
    var p := [src] + q;
    assert ValidSrc(g, src);
    hide Climbs;
    forall i | 0 <= i < |p| - 1
      ensures Climbs(g, p[i], p[i + 1])
    {
      if i > 0 {
        assert Climbs(g, q[i - 1], q[i - 1 + 1]);
      }
    }
    assert p[|p| - 1] == q[|q| - 1];
  }

  /** The filtergraphs on the way want an input. */
  ghost predicate NoneDirect(g: Graph, best: seq<nat>, p: seq<Node>) {
    forall i :: 0 <= i < |p| - 1 && p[i].FilterOut? ==> !Direct(g, best, p[i].idx)
  }

  lemma {:induction false} ClimbToTop(g: Graph, best: seq<nat>, src: Node) returns (p: seq<Node>)
    requires Startable(g) && BestOk(g, best) && ValidSrc(g, src)
    ensures IsClimb(g, p) && p[0] == src && p[|p| - 1] == Top(g, best, src)
    ensures NoneDirect(g, best, p)
    decreases Rank(g, src), ChainLength(g, src)
  {
    hide Startable;
    TopOrUp(g, best, src);
    if up :| Wants(g, best, src, up) {
      TopUp(g, best, src, up);
      var q := ClimbToTop(g, best, up);
      p := [src] + q;
      ClimbFirst(g, src, q);
    } else {
      p := [src];
    }
  }

  /** A running demuxer's walk serves every filtergraph it arrives at. */
  lemma WalkedRuns(g: Graph, best: seq<nat>, S: set<Task>, d: nat, f: nat)
    requires Startable(g) && BestOk(g, best) && Closed(g, best, S) && DemuxTask(d) in S
    requires Walked(g, d, f) && Direct(g, best, f)
    ensures FilterTask(f) in S
  {
    var ts := DemuxTargets(g, d);
    assert AllServed(g, best, ts, S);
    var k :| 0 <= k < |ts| && Reaches(g, ts[k], f);
    assert Served(g, best, ts[k], S);
  }

  lemma StarvedIsMissed(g: Graph, m: Moment, i: nat, j: nat) returns (p: seq<Node>, f: nat)
    requires Startable(g) && MomentOk(g, m) && Starves(g, m, i, j)
    ensures Missed(g, p, f)
  {
    hide HeldUp, Startable, FilterBelow, Closed, Walked, IsTrailing, DtsInRange;
    StarvesIff(g, m, i, j);
    var src := g.mux[i][j];
    f :| DirectBelow(g, m.best, src, f) && FilterTask(f) !in Runs(g, m);
    p := ClimbToTop(g, m.best, src);
    var top := Top(g, m.best, src);
    EligibleSourceRuns(g, m.best, m.mux, m.inputs, m.dts, m.demux, m.filters, i, j);
    RunningIsClosed(g, m.best, m.mux, m.inputs, m.dts, m.demux, m.filters);
    assert !OnPath(p, f);
    if top.Demux? && Walked(g, top.idx, f) {
      WalkedRuns(g, m.best, Runs(g, m), top.idx, f);
    }
    assert FromMux(g, p[0]);
  }

  // --- and each of them can --------------------------------------------------------------------

  /** The climb goes on through filtergraph f. */
  ghost predicate Passes(p: seq<Node>, f: nat) {
    exists i :: 0 <= i < |p| - 1 && p[i].FilterOut? && p[i].idx == f
  }

  /** The filtergraphs on the way up want the input that the climb takes, all others themselves. */
  ghost predicate Follows(g: Graph, best: seq<nat>, p: seq<Node>) {
    && BestOk(g, best)
    && (forall i :: 0 <= i < |p| - 1 && ValidSrc(g, p[i]) ==> Wants(g, best, p[i], p[i + 1]))
    && forall f :: 0 <= f < |best| && !Direct(g, best, f) ==> Passes(p, f)
  }

  lemma ClimbDrops(g: Graph, src: Node, up: Node)
    requires Startable(g) && Climbs(g, src, up)
    ensures ValidSrc(g, up) && Rank(g, up) <= Rank(g, src)
    ensures src.FilterOut? ==> Rank(g, up) < Rank(g, src) == Height(g, src.idx) + 1
  {
    RankBounded(g, src);
    EndStep(g, src);
    if src.FilterOut? {
      var j :| 0 <= j < |g.filters[src.idx].inputs| && up == g.filters[src.idx].inputs[j];
      InputRankLower(g, src.idx, j);
    }
  }

  /** A climb passes no filtergraph twice. */
  lemma {:induction false} ClimbOnce(g: Graph, p: seq<Node>, i: nat, k: nat)
    requires Startable(g) && IsClimb(g, p) && i < k < |p| && p[i].FilterOut?
    ensures Rank(g, p[k]) < Rank(g, p[i])
    ensures p[k].FilterOut? ==> p[k].idx != p[i].idx
    decreases k
  {
    hide Startable;
    assert Climbs(g, p[k - 1], p[k - 1 + 1]);
    ClimbDrops(g, p[k - 1], p[k]);
    if i < k - 1 {
      ClimbOnce(g, p, i, k - 1);
    }
    RankBounded(g, p[i]);
    RankBounded(g, p[k]);
  }

  ghost predicate Takes(g: Graph, p: seq<Node>, f: nat, i: int, j: int) {
    && 0 <= i < |p| - 1 && p[i].FilterOut? && p[i].idx == f
    && f < |g.filters| && 0 <= j < |g.filters[f].inputs| && g.filters[f].inputs[j] == p[i + 1]
  }

  ghost function Pick(g: Graph, p: seq<Node>, f: nat): nat
    requires f < |g.filters|
  {
    if exists i, j :: Takes(g, p, f, i, j) then
      var i, j :| Takes(g, p, f, i, j);
      j
    else |g.filters[f].inputs|
  }

  lemma PickAlong(g: Graph, p: seq<Node>) returns (best: seq<nat>)
    requires Startable(g) && IsClimb(g, p)
    ensures Follows(g, best, p)
  {
    assert forall i :: 0 <= i < |p| - 1 ==> Climbs(g, p[i], p[i + 1]);
    hide Startable, IsClimb;
    best := seq(|g.filters|, f requires 0 <= f < |g.filters| => Pick(g, p, f));
    forall i | 0 <= i < |p| - 1 && ValidSrc(g, p[i])
      ensures Wants(g, best, p[i], p[i + 1])
    {
      assert Climbs(g, p[i], p[i + 1]);
      if p[i].FilterOut? {
        var f := p[i].idx;
        var j :| 0 <= j < |g.filters[f].inputs| && p[i + 1] == g.filters[f].inputs[j];
        assert Takes(g, p, f, i, j);
        var k, l :| Takes(g, p, f, k, l) && best[f] == l;
        if k < i { ClimbOnce(g, p, k, i); }
        if i < k { ClimbOnce(g, p, i, k); }
      }
    }
    forall f: nat | f < |best| && !Direct(g, best, f)
      ensures Passes(p, f)
    {
      var i, j :| Takes(g, p, f, i, j);
    }
  }

  lemma {:induction false} TopAlong(g: Graph, best: seq<nat>, p: seq<Node>, i: nat)
    requires Startable(g) && IsClimb(g, p) && Follows(g, best, p) && i < |p|
    ensures Top(g, best, p[i]) == p[|p| - 1]
    decreases |p| - i
  {
    hide Startable;
    if i == |p| - 1 {
      if p[i].FilterOut? {
        forall k | 0 <= k < i && p[k].FilterOut?
          ensures p[k].idx != p[i].idx
        {
          ClimbOnce(g, p, k, i);
        }
        assert !Passes(p, p[i].idx);
      }
    } else {
      TopAlong(g, best, p, i + 1);
      assert Wants(g, best, p[i], p[i + 1]);
      TopUp(g, best, p[i], p[i + 1]);
    }
  }

  ghost function TaskBehind(top: Node): Task
    requires top.Demux? || top.FilterOut?
  {
    if top.Demux? then DemuxTask(top.idx) else FilterTask(top.idx)
  }

  lemma OriginAlong(g: Graph, best: seq<nat>, p: seq<Node>, i: nat)
    requires Startable(g) && IsClimb(g, p) && Follows(g, best, p) && i < |p|
    ensures Origin(g, best, p[i]) == TaskBehind(p[|p| - 1])
  {
    TopAlong(g, best, p, i);
  }

  /** What the walk around the end of the climb unchokes. */
  ghost function FromTop(g: Graph, p: seq<Node>): set<Task>
    requires Startable(g) && IsClimb(g, p)
  {
    {TaskBehind(p[|p| - 1])} +
    set f: nat | f < |g.filters| && p[|p| - 1].Demux? && Walked(g, p[|p| - 1].idx, f) && !OnPath(p, f) :: FilterTask(f)
  }

  lemma ServedFromTop(g: Graph, best: seq<nat>, p: seq<Node>, f: nat)
    requires Startable(g) && IsClimb(g, p) && Follows(g, best, p) && p[|p| - 1].Demux?
    requires f < |g.filters| && Walked(g, p[|p| - 1].idx, f)
    ensures OfFilter(g, best, f) in FromTop(g, p)
  {
    hide Startable, Walked;
    if OnPath(p, f) {
      var i :| 0 <= i < |p| && p[i].FilterOut? && p[i].idx == f;
      OriginAlong(g, best, p, i);
      OriginStep(g, best, p[i]);
    } else {
      assert !Passes(p, f);
      assert Direct(g, best, f);
    }
  }

  lemma ClosedByWalks(g: Graph, best: seq<nat>, S: set<Task>, d: nat)
    requires Startable(g) && BestOk(g, best) && d < |g.demux|
    requires forall f: nat :: f < |g.filters| && Walked(g, d, f) ==> OfFilter(g, best, f) in S
    ensures AllServed(g, best, DemuxTargets(g, d), S)
  {
    hide Startable, BestOk, OfFilter, Reaches;
    var ts := DemuxTargets(g, d);
    forall k: nat, f: nat | k < |ts| && f < |g.filters| && Reaches(g, ts[k], f)
      ensures OfFilter(g, best, f) in S
    {
      assert Walked(g, d, f);
    }
  }

  lemma FromTopClosed(g: Graph, best: seq<nat>, p: seq<Node>)
    requires Startable(g) && IsClimb(g, p) && Follows(g, best, p)
    ensures Closed(g, best, FromTop(g, p))
  {
    assert BestOk(g, best);
    hide Startable, Follows, Walked, AllServed, OfFilter;
    var S := FromTop(g, p);
    forall d: nat | d < |g.demux| && DemuxTask(d) in S
      ensures AllServed(g, best, DemuxTargets(g, d), S)
    {
      forall f: nat | f < |g.filters| && Walked(g, d, f)
        ensures OfFilter(g, best, f) in S
      {
        ServedFromTop(g, best, p, f);
      }
      ClosedByWalks(g, best, S, d);
    }
  }

  /** Stream j of muxer i has ended a packet at zero, all others twice the tolerance later. */
  ghost function ClockOf(i: nat, j: nat, k: nat, l: nat): MuxStream {
    MuxStream(if k == i && l == j then 0 else 2 * SCHEDULE_TOLERANCE, false)
  }

  ghost function Alone(g: Graph, best: seq<nat>, i: nat, j: nat): Moment {
    Moment(best,
      seq(|g.mux|, k requires 0 <= k < |g.mux| => seq(|g.mux[k]|, l requires 0 <= l => ClockOf(i, j, k, l))),
      seq(|g.filters|, f requires 0 <= f < |g.filters| => NewQueue(|g.filters[f].inputs|)),
      0,
      seq(|g.demux|, _ => TaskState(false, false, false, false)),
      seq(|g.filters|, _ => TaskState(false, false, false, false)))
  }

  /** Stream j of muxer i is the only one eligible, and no input is closed. */
  ghost predicate OnlyFor(m: Moment, i: nat, j: nat) {
    && (forall k, l :: IsStream(m.mux, k, l) ==> (Eligible(m.mux[k][l], m.dts) <==> k == i && l == j))
    && forall f, n :: !Closing(m.inputs, f, n)
  }

  lemma AloneOk(g: Graph, best: seq<nat>, i: nat, j: nat)
    requires Startable(g) && BestOk(g, best) && i < |g.mux| && j < |g.mux[i]|
    ensures var m := Alone(g, best, i, j);
      MomentOk(g, m) && m.best == best && OnlyFor(m, i, j)
  {
    hide Startable;
    var m := Alone(g, best, i, j);
    forall k, l | IsStream(m.mux, k, l)
      ensures m.mux[k][l] == ClockOf(i, j, k, l)
    {
    }
    assert Counted(m.mux, i, j, false) && m.mux[i][j].lastDts == 0;
    forall f | 0 <= f < |m.inputs|
      ensures QueueOk(m.inputs[f]) && m.inputs[f] == NewQueue(|g.filters[f].inputs|)
    {
    }
  }

  lemma LeastMonotone(g: Graph, best: seq<nat>, A: set<Task>, B: set<Task>)
    requires Startable(g) && BestOk(g, best) && A <= B
    ensures Least(g, best, A) <= Least(g, best, B)
  {
    hide Startable, BestOk, Closed;
    assert forall w :: InEveryClosed(g, best, A, w) ==> InEveryClosed(g, best, B, w);
  }

  /** What runs for the sake of a muxer stream does not include a filtergraph that wants to be
      scheduled directly and that it may come to wait for. */
  ghost predicate Neglects(g: Graph, best: seq<nat>, i: nat, j: nat, f: nat)
    requires Startable(g) && BestOk(g, best)
  {
    && i < |g.mux| && j < |g.mux[i]| && ValidSrc(g, g.mux[i][j])
    && DirectBelow(g, best, g.mux[i][j], f)
    && FilterTask(f) !in Least(g, best, {Origin(g, best, g.mux[i][j])})
  }

  lemma OneSeed(g: Graph, m: Moment, i: nat, j: nat)
    requires Startable(g) && BestOk(g, m.best) && ShapeOk(g, m.mux, m.inputs) && i < |g.mux| && j < |g.mux[i]|
    requires OnlyFor(m, i, j)
    ensures Seeds(g, m.best, m.mux, m.inputs, m.dts) <= {MuxOrigin(g, m.best, i, j)}
  {
    hide Startable, BestOk, Eligible, Closing, MuxOrigin;
  }

  lemma NeglectStarves(g: Graph, m: Moment, i: nat, j: nat, f: nat)
    requires Startable(g) && MomentOk(g, m) && OnlyFor(m, i, j) && Neglects(g, m.best, i, j, f)
    ensures Starves(g, m, i, j) && FilterTask(f) !in Runs(g, m)
  {
    hide Startable, HeldUp, IsTrailing, DtsInRange, Eligible, Closing, Least, Seeds, DirectBelow, Origin, QueueOk;
    OneSeed(g, m, i, j);
    LeastMonotone(g, m.best, Seeds(g, m.best, m.mux, m.inputs, m.dts), {MuxOrigin(g, m.best, i, j)});
    assert IsStream(m.mux, i, j) && SomeEligible(m.mux, m.dts);
    StarvesIff(g, m, i, j);
  }

  lemma NeglectedStarves(g: Graph, best: seq<nat>, i: nat, j: nat, f: nat) returns (m: Moment)
    requires Startable(g) && BestOk(g, best) && Neglects(g, best, i, j, f)
    ensures MomentOk(g, m) && m.best == best && Starves(g, m, i, j)
  {
    m := Alone(g, best, i, j);
    AloneOk(g, best, i, j);
    hide Startable, MomentOk, Starves, Alone, OnlyFor;
    NeglectStarves(g, m, i, j, f);
  }

  lemma StarvedIsNeglected(g: Graph, m: Moment, i: nat, j: nat) returns (f: nat)
    requires Startable(g) && MomentOk(g, m) && Starves(g, m, i, j)
    ensures Neglects(g, m.best, i, j, f)
  {
    hide Startable, HeldUp, IsTrailing, DtsInRange, Eligible, InEveryClosed, DirectBelow;
    StarvesIff(g, m, i, j);
    var src := g.mux[i][j];
    f :| DirectBelow(g, m.best, src, f) && FilterTask(f) !in Runs(g, m);
    OriginIsTask(g, m.best, src);
    assert MuxSeed(g, m.best, m.mux, m.dts, i, j, Origin(g, m.best, src));
    var seeds := Seeds(g, m.best, m.mux, m.inputs, m.dts);
    LeastMonotone(g, m.best, {Origin(g, m.best, src)}, seeds);
  }

  /** Given what each filtergraph wants, and whatever the clocks: an eligible stream can be
      starved if and only if the walks for some stream, by itself, neglect a filtergraph. */
  lemma StarvesForWants(g: Graph, best: seq<nat>)
    requires Startable(g) && BestOk(g, best)
    ensures (exists m, i, j :: MomentOk(g, m) && m.best == best && Starves(g, m, i, j)) <==>
      exists i, j, f :: Neglects(g, best, i, j, f)
  {
    hide Startable, BestOk, MomentOk, Starves, Neglects, Alone, OnlyFor;
    if m, i, j :| MomentOk(g, m) && m.best == best && Starves(g, m, i, j) {
      var f := StarvedIsNeglected(g, m, i, j);
    }
    if i: nat, j: nat, f: nat :| Neglects(g, best, i, j, f) {
      var m := NeglectedStarves(g, best, i, j, f);
    }
  }

  lemma MissedIsNeglected(g: Graph, best: seq<nat>, p: seq<Node>, f: nat, i: nat, j: nat)
    requires Startable(g) && Missed(g, p, f) && Follows(g, best, p)
    requires i < |g.mux| && j < |g.mux[i]| && p[0] == g.mux[i][j]
    ensures Neglects(g, best, i, j, f)
  {
    assert BestOk(g, best);
    assert !Passes(p, f);
    assert Direct(g, best, f);
    hide Startable, FilterBelow, Walked, Follows, Closed;
    OriginAlong(g, best, p, 0);
    FromTopClosed(g, best, p);
    OriginIsTask(g, best, p[0]);
    LeastIsLeast(g, best, {Origin(g, best, p[0])});
    assert FilterTask(f) !in FromTop(g, p);
    TopAlong(g, best, p, 0);
  }

  lemma MissedStarves(g: Graph, p: seq<Node>, f: nat) returns (m: Moment, i: nat, j: nat)
    requires Startable(g) && Missed(g, p, f)
    ensures MomentOk(g, m) && Starves(g, m, i, j)
  {
    var best := PickAlong(g, p);
    assert BestOk(g, best);
    i, j :| i < |g.mux| && j < |g.mux[i]| && p[0] == g.mux[i][j];
    MissedIsNeglected(g, best, p, f, i, j);
    hide Startable, MomentOk, Starves, Neglects, Missed, Follows;
    m := NeglectedStarves(g, best, i, j, f);
  }

  /** The graphs on which an eligible stream can be starved, at some moment, are exactly those
      where some filtergraph is missed.  Here every filtergraph may want to be scheduled
      directly, as the scheduler allows it; for wants that are known, such as when only those
      with internal sources do, StarvesForWants has the condition. */
  lemma StarvingGraphs(g: Graph)
    requires Startable(g)
    ensures (exists m, i, j :: MomentOk(g, m) && Starves(g, m, i, j)) <==> (exists p, f :: Missed(g, p, f))
  {
    hide Startable, MomentOk, Starves, Missed;
    if m, i, j :| MomentOk(g, m) && Starves(g, m, i, j) {
      var p, f := StarvedIsMissed(g, m, i, j);
    }
    if p, f :| Missed(g, p, f) {
      var m, i, j := MissedStarves(g, p, f);
    }
  }

  // --- graphs without side branches, and one with ------------------------------------------------

  /** Filtergraph outputs lead to encoders, encoders to muxers, and every other port has one
      destination. */
  ghost predicate Plain(g: Graph) {
    && (forall s :: ValidSrc(g, s) && (s.Demux? || s.DecOut?) ==> |Dsts(g, s)| == 1)
    && (forall s, d :: ValidSrc(g, s) && s.FilterOut? && d in Dsts(g, s) ==> d.Enc?)
    && (forall s, d :: ValidSrc(g, s) && s.Enc? && d in Dsts(g, s) ==> d.Mux?)
  }

  lemma PlainDst(g: Graph, s: Node, d: Node)
    requires Ready(g) && Plain(g) && ValidSrc(g, s) && d in Dsts(g, s)
    ensures s.Demux? ==> d in DemuxTargets(g, s.idx)
    ensures s.DecOut? ==> d in Targets(g, DecIn(s.idx))
    ensures s.FilterOut? ==> d.Enc?
    ensures s.Enc? ==> d in Targets(g, s) && d.Mux?
  {
    hide Ready;
    var k :| 0 <= k < |Dsts(g, s)| && Dsts(g, s)[k] == d;
    assert s.Demux? ==> DemuxTargets(g, s.idx)[s.stream] == d;
    assert s.DecOut? ==> Targets(g, DecIn(s.idx))[s.stream] == d;
  }

  lemma PlainEncoder(g: Graph, e: Node, f: nat)
    requires Ready(g) && Plain(g) && ValidDst(g, e) && e.Enc?
    ensures !Reaches(g, e, f)
  {
    hide Ready;
    forall l | 0 <= l < |Targets(g, e)|
      ensures !Reaches(g, Targets(g, e)[l], f)
    {
      assert Targets(g, e)[l] in Dsts(g, e);
    }
  }

  /** From a decoder or encoder, every way down is that of the walk; a filtergraph leads to no
      other. */
  lemma PlainStep(g: Graph, n: Node, next: Node, f: nat)
    requires Ready(g) && Plain(g) && ValidDst(g, n) && Sends(g, n, next)
    requires ValidDst(g, next) && Reaches(g, next, f)
    ensures Reaches(g, n, f)
  {
    hide Ready, Plain, Dsts, Targets;
    var s :| Outlet(n, s) && ValidSrc(g, s) && next in Dsts(g, s);
    PlainDst(g, s, next);
    if s.FilterOut? {
      PlainEncoder(g, next, f);
    } else {
      assert next in Targets(g, n);
    }
  }

  lemma {:induction false} PlainReaches(g: Graph, q: seq<Node>, f: nat)
    requires Ready(g) && Plain(g) && IsFlow(g, q) && ValidDst(g, q[0])
    requires q[|q| - 1].FilterIn? && q[|q| - 1].idx == f
    ensures Reaches(g, q[0], f)
    decreases |q|
  {
    assert Linked(g);
    hide Ready, Plain, Sends;
    if |q| > 1 {
      FlowTail(g, q);
      SendsValid(g, q[0], q[1]);
      PlainReaches(g, q[1..], f);
      PlainStep(g, q[0], q[1], f);
    }
  }

  lemma PlainTop(g: Graph, top: Node, next: Node, f: nat)
    requires Startable(g) && Plain(g) && ValidSrc(g, top) && (top.Demux? || top.FilterOut?)
    requires Sends(g, top, next) && ValidDst(g, next) && Reaches(g, next, f)
    ensures top.Demux? && Walked(g, top.idx, f)
  {
    hide Startable, Plain, Dsts, Reaches;
    assert Ready(g);
    var s :| Outlet(top, s) && ValidSrc(g, s) && next in Dsts(g, s);
    PlainDst(g, s, next);
    if top.FilterOut? {
      PlainEncoder(g, next, f);
    }
  }

  lemma PlainMisses(g: Graph, p: seq<Node>, f: nat)
    requires Startable(g) && Plain(g) && IsClimb(g, p) && FilterBelow(g, p[|p| - 1], f)
    ensures p[|p| - 1].Demux? && Walked(g, p[|p| - 1].idx, f)
  {
    assert Linked(g);
    hide Startable, Plain, Sends, Dsts, DemuxTargets;
    assert Ready(g);
    var top := p[|p| - 1];
    var j :| Below(g, top, FilterIn(f, j));
    var q :| IsFlow(g, q) && |q| >= 2 && q[0] == top && q[|q| - 1] == FilterIn(f, j);
    FlowTail(g, q);
    SendsValid(g, top, q[1]);
    PlainReaches(g, q[1..], f);
    PlainTop(g, top, q[1], f);
  }

  /** On these, no eligible stream is ever starved. */
  lemma PlainNeverStarves(g: Graph)
    requires Startable(g) && Plain(g)
    ensures forall m, i, j :: MomentOk(g, m) ==> !Starves(g, m, i, j)
  {
    hide Startable, MomentOk, Starves, IsClimb;
    forall p, f
      ensures !Missed(g, p, f)
    {
      if Missed(g, p, f) {
        PlainMisses(g, p, f);
      }
    }
    StarvingGraphs(g);
  }

  /** A decoder feeds a filtergraph with two outputs, to encoder 0 and to a second filtergraph,
      which has an internal source as well and feeds encoder 1. */
  function SideBranch(): Graph {
    Graph(
      [[[DecIn(0)]]],
      [[Enc(0), Enc(1)]],
      [DecLinks(Demux(0, 0), [[FilterIn(0, 0)]])],
      [EncLinks(FilterOut(0, 0), [Mux(0, 0)]), EncLinks(FilterOut(1, 0), [Mux(0, 1)])],
      [FilterLinks([DecOut(0, 0)], [Enc(0), FilterIn(1, 0)]), FilterLinks([FilterOut(0, 1)], [Enc(1)])])
  }

  lemma SideBranchForward(s: Node)
    ensures ForwardLinked(SideBranch(), s)
  {
  }

  lemma SideBranchBackward(d: Node)
    ensures BackwardLinked(SideBranch(), d)
  {
    var g := SideBranch();
    if d == Mux(0, 0) {
      assert Dsts(g, Enc(0))[0] == d;
    } else if d == Mux(0, 1) {
      assert Dsts(g, Enc(1))[0] == d;
    } else if d == DecIn(0) {
      assert Dsts(g, Demux(0, 0))[0] == d;
    } else if d == FilterIn(0, 0) {
      assert Dsts(g, DecOut(0, 0))[0] == d;
    }
  }

  lemma SideBranchLinked()
    ensures Linked(SideBranch()) && FullyConnected(SideBranch())
  {
    hide ForwardLinked, BackwardLinked;
    forall s ensures ForwardLinked(SideBranch(), s) { SideBranchForward(s); }
    forall d ensures BackwardLinked(SideBranch(), d) { SideBranchBackward(d); }
  }

  lemma SideBranchStartable()
    ensures Startable(SideBranch())
  {
    var g := SideBranch();
    SideBranchLinked();
    forall s | ValidSrc(g, s) ensures Resolves(g, s, ChainBound(g)) {
      assert Resolves(g, Demux(0, 0), 2) && Resolves(g, FilterOut(0, 0), 2) && Resolves(g, FilterOut(1, 0), 2);
    }
    EndStep(g, Demux(0, 0));
    forall x: nat, y: nat | Feeds(g, x, y) ensures x == 1 && y == 0 {
      var j :| 0 <= j < |Inputs(g, x)| && FedBy(g, x, j, y);
      InputValid(g, x, j);
      EndStep(g, Inputs(g, x)[j]);
    }
    forall p: seq<nat> | IsPath(g, p) && |p| >= 2 ensures p[0] != p[|p| - 1] {
      assert Feeds(g, p[0], p[0 + 1]);
      var k := |p| - 2;
      assert Feeds(g, p[k], p[k + 1]);
    }
  }

  lemma SideBranchFlow()
    ensures Below(SideBranch(), Demux(0, 0), FilterIn(1, 0))
  {
    var g := SideBranch();
    var q := [Demux(0, 0), DecIn(0), FilterIn(0, 0), FilterIn(1, 0)];
    assert q[1] in Dsts(g, Demux(0, 0)) && q[2] in Dsts(g, DecOut(0, 0)) && q[3] in Dsts(g, FilterOut(0, 1));
    hide Dsts;
    assert IsFlow(g, q);
  }

  lemma SideBranchClimb()
    ensures IsClimb(SideBranch(), [Enc(0), FilterOut(0, 0), DecOut(0, 0), Demux(0, 0)])
    ensures FromMux(SideBranch(), Enc(0))
  {
    var g := SideBranch();
    assert g.filters[0].inputs[0] == DecOut(0, 0);
    assert g.mux[0][0] == Enc(0);
  }

  lemma SideBranchWalk()
    ensures Startable(SideBranch()) && !Walked(SideBranch(), 0, 1)
  {
    var g := SideBranch();
    SideBranchStartable();
    hide Startable;
    assert DemuxTargets(g, 0) == [DecIn(0)];
    assert Targets(g, DecIn(0)) == [FilterIn(0, 0)];
  }

  lemma SideBranchMissed()
    ensures Startable(SideBranch())
    ensures Missed(SideBranch(), [Enc(0), FilterOut(0, 0), DecOut(0, 0), Demux(0, 0)], 1)
  {
    SideBranchFlow();
    SideBranchClimb();
    SideBranchWalk();
    hide Startable, Below, IsClimb, FromMux, Walked;
  }

  lemma SideBranchOnly(m: Moment)
    requires Startable(SideBranch()) && MomentOk(SideBranch(), m)
    requires m.mux == [[MuxStream(0, false), MuxStream(200000, false)]] && forall f, n :: !Closing(m.inputs, f, n)
    ensures OnlyFor(m, 0, 0)
  {
    hide Startable, Closing, BestOk, ShapeOk, QueueOk, SideBranch;
    assert Counted(m.mux, 0, 0, false);
    assert m.dts == 0;
  }

  lemma SideBranchFollows()
    ensures Follows(SideBranch(), [0, 1], [Enc(0), FilterOut(0, 0), DecOut(0, 0), Demux(0, 0)])
  {
    var p := [Enc(0), FilterOut(0, 0), DecOut(0, 0), Demux(0, 0)];
    assert Passes(p, 0) by { assert p[1] == FilterOut(0, 0); }
    hide Passes;
  }

  lemma SideBranchNeglects()
    ensures Startable(SideBranch()) && BestOk(SideBranch(), [0, 1]) && Neglects(SideBranch(), [0, 1], 0, 0, 1)
  {
    var g := SideBranch();
    assert |g.mux| == 1 && |g.mux[0]| == 2 && g.mux[0][0] == Enc(0) && BestOk(g, [0, 1]);
    hide SideBranch, Startable, Missed, Neglects, Follows;
    SideBranchMissed();
    SideBranchFollows();
    MissedIsNeglected(g, [0, 1], [Enc(0), FilterOut(0, 0), DecOut(0, 0), Demux(0, 0)], 1, 0, 0);
  }

  /** With the decoder's output wanted by the first filtergraph, the second one wanting to be
      scheduled directly, and stream 1 ahead, stream 0 is eligible and can be starved: the second
      filtergraph sleeps, and the first is blocked on its queue. */
  lemma SideBranchStarves(m: Moment)
    requires m.best == [0, 1] && m.mux == [[MuxStream(0, false), MuxStream(200000, false)]]
    requires forall f, n :: !Closing(m.inputs, f, n)
    requires Startable(SideBranch()) ==> MomentOk(SideBranch(), m)
    ensures Startable(SideBranch()) && Starves(SideBranch(), m, 0, 0)
    ensures FilterTask(1) !in Runs(SideBranch(), m)
  {
    hide Startable, HeldUp, MomentOk, ShouldRun, Neglects, Closing, SideBranch;
    SideBranchNeglects();
    SideBranchOnly(m);
    NeglectStarves(SideBranch(), m, 0, 0, 1);
  }

  /** A run of the scheduler that gets there. */
  method SideBranchRun() returns (s: Scheduler)
    ensures s.Valid() && s.g == SideBranch() && !s.terminate && s.filters[1].choked
    ensures var m := Moment(s.best, s.mux, s.inputs, s.lastDts, s.demux, s.filters);
      Startable(SideBranch()) && MomentOk(SideBranch(), m) && Starves(SideBranch(), m, 0, 0)
  {
    hide Startable, HeldUp, ShouldRun, IsTrailing, DtsInRange, QueuesFollow, QueueOk, Starves;
    SideBranchStartable();
    s := new Scheduler(SideBranch());
    s.WantInput(1, 1);
    s.MuxStreamEvent(0, 0, false, 0);
    s.MuxStreamEvent(0, 1, false, 200000);
    ghost var m := Moment(s.best, s.mux, s.inputs, s.lastDts, s.demux, s.filters);
    assert s.best == [0, 1];
    assert s.mux[0] == [MuxStream(0, false), MuxStream(200000, false)];
    assert s.mux == [s.mux[0]];
    SideBranchStarves(m);
    assert FilterTask(1) !in Running(s.demux, s.filters);
  }

  // --- the end of the inputs -----------------------------------------------------------------

  function PortOf(c: Component): Node {
    match c
    case DemuxC(i) => Demux(i, 0)
    case DecC(i) => DecIn(i)
    case EncC(i) => Enc(i)
    case FilterC(i) => FilterIn(i, 0)
  }

  /** What keeps a component from ending: the reader of a queue that it sends to, or the
      scheduler. */
  ghost predicate Kept(g: Graph, running: set<Task>, W: set<Wait>, c: Component) {
    || (exists dst :: ForReader(dst) in W && Sends(g, PortOf(c), dst))
    || (c.DemuxC? && DemuxTask(c.idx) !in running)
    || (c.FilterC? && FilterTask(c.idx) !in running)
  }

  lemma AwaitedIsTask(g: Graph, best: seq<nat>, a: Wait, w: Task)
    requires BestOk(g, best) && Awaited(g, best, a, w)
    ensures w in Tasks(g)
  {
    var b :| Comes(g, best, a, b) && Awaits(g, best, b, w);
    var c :| IsChain(g, best, c) && c[0] == a && c[|c| - 1] == b;
  }

  /** The end of the inputs gets through full queues as well: if every task whose inputs have
      ended has ended too, or is kept from it, then all have ended, or one is choked. */
  lemma DrainsUnlessChoked(g: Graph, best: seq<nat>, running: set<Task>, W: set<Wait>, ended: set<Component>)
    requires Startable(g) && BestOk(g, best) && Stuck(g, best, running, W)
    requires forall c :: IsComponent(g, c) && InputsEnded(g, ended, c) && c !in ended ==> Kept(g, running, W, c)
    ensures Drained(g, ended) || exists w :: w in Tasks(g) && w !in running
  {
    hide Sends, Stuck, Awaited;
    if c :| IsComponent(g, c) && InputsEnded(g, ended, c) && c !in ended {
      if dst :| ForReader(dst) in W && Sends(g, PortOf(c), dst) {
        var w := StuckAwaits(g, best, running, W, ForReader(dst));
        AwaitedIsTask(g, best, ForReader(dst), w);
      }
    } else {
      AcyclicDrains(g, ended);
    }
  }
}
