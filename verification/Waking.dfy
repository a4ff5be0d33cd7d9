/** Which tasks have to run so that a given stream can make progress: the meaning
    of the scheduler's unchoke walks. */
module Waking {
  import opened Topology
  import opened Cycles

  /** The tasks that can be choked. */
  datatype Task = DemuxTask(idx: nat) | FilterTask(idx: nat)

  /** A graph that sch_start accepts. */
  ghost predicate Startable(g: Graph)
    ensures Startable(g) ==> Ready(g)
  {
    Ready(g) && !HasCycle(g)
  }

  /** Each filtergraph wants one of its inputs, or itself (best == number of inputs). */
  ghost predicate BestOk(g: Graph, best: seq<nat>) {
    |best| == |g.filters| && forall f :: 0 <= f < |best| ==> best[f] <= |g.filters[f].inputs|
  }

  ghost function Rank(g: Graph, src: Node): nat
    requires Startable(g) && ValidSrc(g, src)
  {
    var e := End(g, src);
    if e.FilterOut? then Height(g, e.idx) + 1 else 0
  }

  lemma InputRankLower(g: Graph, f: nat, j: nat)
    requires Startable(g) && f < |g.filters| && j < |Inputs(g, f)|
    ensures ValidSrc(g, Inputs(g, f)[j])
    ensures Rank(g, Inputs(g, f)[j]) < Height(g, f) + 1
  {
    InputValid(g, f, j);
    var e := End(g, Inputs(g, f)[j]);
    if e.FilterOut? {
      assert FedBy(g, f, j, e.idx);
      assert Feeds(g, f, e.idx);
      FeederIsLower(g, f, e.idx);
    }
  }

  /** The task that has to run for filtergraph f to get the input it wants. */
  ghost function OfFilter(g: Graph, best: seq<nat>, f: nat): Task
    requires Startable(g) && BestOk(g, best) && f < |g.filters|
    decreases Height(g, f) + 1, 0
  {
    if best[f] == |g.filters[f].inputs| then FilterTask(f)
    else
      InputRankLower(g, f, best[f]);
      Origin(g, best, g.filters[f].inputs[best[f]])
  }

  /** The task that has to run for `src` to produce something. */
  ghost function Origin(g: Graph, best: seq<nat>, src: Node): Task
    requires Startable(g) && BestOk(g, best) && ValidSrc(g, src)
    decreases Rank(g, src), 1
  {
    EndStep(g, src);
    match End(g, src)
    case Demux(i, _) => DemuxTask(i)
    case FilterOut(f, _) => OfFilter(g, best, f)
  }

  ghost function ChainLength(g: Graph, src: Node): nat
    requires Startable(g) && ValidSrc(g, src)
  {
    Hops(g, src, ChainBound(g))
  }

  /** One step of the upstream walk keeps its destination and comes closer to it. */
  lemma OriginStep(g: Graph, best: seq<nat>, src: Node)
    requires Startable(g) && BestOk(g, best) && ValidSrc(g, src)
    ensures src.Demux? ==> Origin(g, best, src) == DemuxTask(src.idx)
    ensures src.FilterOut? ==> Origin(g, best, src) == OfFilter(g, best, src.idx)
    ensures src.FilterOut? && best[src.idx] == |g.filters[src.idx].inputs| ==>
      Origin(g, best, src) == FilterTask(src.idx)
    ensures src.FilterOut? && best[src.idx] < |g.filters[src.idx].inputs| ==>
      var up := g.filters[src.idx].inputs[best[src.idx]];
      ValidSrc(g, up) && Origin(g, best, up) == Origin(g, best, src) && Rank(g, up) < Rank(g, src)
    ensures src.DecOut? || src.Enc? ==>
      var up := UpOne(g, src);
      && ValidSrc(g, up) && Origin(g, best, up) == Origin(g, best, src)
      && Rank(g, up) == Rank(g, src) && ChainLength(g, up) < ChainLength(g, src)
  {
    EndStep(g, src);
    if src.FilterOut? {
      if best[src.idx] < |g.filters[src.idx].inputs| {
        InputRankLower(g, src.idx, best[src.idx]);
      }
    } else if src.DecOut? || src.Enc? {
      ResolveStable(g, UpOne(g, src), ChainBound(g) - 1, ChainBound(g));
    }
  }

  ghost function Tasks(g: Graph): set<Task> {
    (set i: nat | i < |g.demux| :: DemuxTask(i)) + (set f: nat | f < |g.filters| :: FilterTask(f))
  }

  lemma {:induction false} OriginIsTask(g: Graph, best: seq<nat>, src: Node)
    requires Startable(g) && BestOk(g, best) && ValidSrc(g, src)
    ensures Origin(g, best, src) in Tasks(g)
    decreases Rank(g, src)
  {
    EndStep(g, src);
    match End(g, src)
    case Demux(_, _) =>
    case FilterOut(f, _) =>
      if best[f] < |g.filters[f].inputs| {
        InputRankLower(g, f, best[f]);
        OriginIsTask(g, best, g.filters[f].inputs[best[f]]);
      }
  }

  // --- what a running demuxer can get stuck on -----------------------------------

  ghost function ToGo(g: Graph, dst: Node): nat
    requires Ready(g) && ValidDst(g, dst)
  {
    ConnectedPorts(g);
    ChainBound(g) - Hops(g, SrcOf(g, dst), ChainBound(g))
  }

  /** The chain behind a decoder or encoder is one longer than that behind its source. */
  lemma ChainGrows(g: Graph, src: Node, input: Node)
    requires Ready(g) && ValidSrc(g, src) && ValidDst(g, input)
    requires (src.DecOut? && input == DecIn(src.idx)) || (src.Enc? && input == src)
    ensures ValidSrc(g, SrcOf(g, input))
    ensures Hops(g, src, ChainBound(g)) == 1 + Hops(g, SrcOf(g, input), ChainBound(g))
  {
    ConnectedPorts(g);
    ResolveStable(g, SrcOf(g, input), ChainBound(g) - 1, ChainBound(g));
  }

  lemma DownstreamStep(g: Graph, src: Node, k: nat)
    requires Ready(g) && ValidSrc(g, src) && k < |Dsts(g, src)|
    ensures ValidDst(g, Dsts(g, src)[k])
    ensures src.DecOut? ==> ToGo(g, Dsts(g, src)[k]) < ToGo(g, DecIn(src.idx))
    ensures src.Enc? ==> ToGo(g, Dsts(g, src)[k]) < ToGo(g, src)
  {
    hide FullyConnected;
    var n := ChainBound(g);
    assert ForwardLinked(g, src);
    ConnectedPorts(g);
    if src.DecOut? {
      ChainGrows(g, src, DecIn(src.idx));
    } else if src.Enc? {
      ChainGrows(g, src, src);
    }
  }

  /** The first destination of each port. */
  function Heads(ports: seq<seq<Node>>): (hs: seq<Node>)
    requires forall o :: 0 <= o < |ports| ==> ports[o] != []
    ensures |hs| == |ports| && forall o :: 0 <= o < |ports| ==> hs[o] == ports[o][0]
  {
    if ports == [] then [] else [ports[0][0]] + Heads(ports[1..])
  }

  lemma OutputHeads(g: Graph, d: nat)
    requires Ready(g) && d < |g.dec|
    ensures forall o :: 0 <= o < |g.dec[d].outputs| ==>
      var port := g.dec[d].outputs[o];
      port != [] && ValidDst(g, port[0]) && ToGo(g, port[0]) < ToGo(g, DecIn(d))
  {
    forall o: nat | o < |g.dec[d].outputs|
      ensures var port := g.dec[d].outputs[o];
        port != [] && ValidDst(g, port[0]) && ToGo(g, port[0]) < ToGo(g, DecIn(d))
    {
      ConnectedPorts(g);
      assert Dsts(g, DecOut(d, o)) == g.dec[d].outputs[o];
      DownstreamStep(g, DecOut(d, o), 0);
    }
  }

  lemma StreamHeads(g: Graph, d: nat)
    requires Ready(g) && d < |g.demux|
    ensures forall s :: 0 <= s < |g.demux[d]| ==> g.demux[d][s] != [] && ValidDst(g, g.demux[d][s][0])
  {
    forall s: nat | s < |g.demux[d]|
      ensures g.demux[d][s] != [] && ValidDst(g, g.demux[d][s][0])
    {
      ConnectedPorts(g);
      assert Dsts(g, Demux(d, s)) == g.demux[d][s];
      DownstreamStep(g, Demux(d, s), 0);
    }
  }

  lemma EncoderDsts(g: Graph, e: nat)
    requires Ready(g) && e < |g.enc|
    ensures forall k :: 0 <= k < |g.enc[e].dst| ==>
      ValidDst(g, g.enc[e].dst[k]) && ToGo(g, g.enc[e].dst[k]) < ToGo(g, Enc(e))
  {
    forall k | 0 <= k < |g.enc[e].dst|
      ensures ValidDst(g, g.enc[e].dst[k]) && ToGo(g, g.enc[e].dst[k]) < ToGo(g, Enc(e))
    {
      DownstreamStep(g, Enc(e), k);
    }
  }

  /** Where the downstream walk goes from a node: the first destination of each
      decoder output, but every destination of an encoder. */
  ghost function Targets(g: Graph, dst: Node): (ts: seq<Node>)
    requires Ready(g) && ValidDst(g, dst)
    ensures forall k :: 0 <= k < |ts| ==> ValidDst(g, ts[k]) && ToGo(g, ts[k]) < ToGo(g, dst)
  {
    match dst
    case DecIn(i) =>
      OutputHeads(g, i);
      Heads(g.dec[i].outputs)
    case Enc(i) =>
      EncoderDsts(g, i);
      g.enc[i].dst
    case _ => []
  }

  /** From a demuxer the walk goes to the first destination of each stream. */
  ghost function DemuxTargets(g: Graph, d: nat): (ts: seq<Node>)
    requires Ready(g) && d < |g.demux|
    ensures |ts| == |g.demux[d]|
    ensures forall s :: 0 <= s < |ts| ==> g.demux[d][s] != [] && ts[s] == g.demux[d][s][0] && ValidDst(g, ts[s])
  {
    StreamHeads(g, d);
    Heads(g.demux[d])
  }

  /** The walk downstream of `dst` arrives at an input of filtergraph f. */
  ghost predicate Reaches(g: Graph, dst: Node, f: nat)
    requires Ready(g) && ValidDst(g, dst)
    decreases ToGo(g, dst)
  {
    if dst.FilterIn? then dst.idx == f
    else exists k :: 0 <= k < |Targets(g, dst)| && Reaches(g, Targets(g, dst)[k], f)
  }

  /** Every filtergraph the walk from `dst` reaches finds in S the task it waits for. */
  ghost predicate Served(g: Graph, best: seq<nat>, dst: Node, S: set<Task>)
    requires Startable(g) && BestOk(g, best) && ValidDst(g, dst)
  {
    forall f: nat :: f < |g.filters| && Reaches(g, dst, f) ==> OfFilter(g, best, f) in S
  }

  ghost predicate AllServed(g: Graph, best: seq<nat>, dsts: seq<Node>, S: set<Task>)
    requires Startable(g) && BestOk(g, best)
  {
    forall k :: 0 <= k < |dsts| ==> ValidDst(g, dsts[k]) && Served(g, best, dsts[k], S)
  }

  lemma ServedFilter(g: Graph, best: seq<nat>, dst: Node, T: set<Task>)
    requires Startable(g) && BestOk(g, best) && ValidDst(g, dst) && dst.FilterIn?
    ensures Served(g, best, dst, T) <==> OfFilter(g, best, dst.idx) in T
  {
    assert Reaches(g, dst, dst.idx);
  }

  lemma ServedByTargets(g: Graph, best: seq<nat>, dst: Node, T: set<Task>)
    requires Startable(g) && BestOk(g, best) && ValidDst(g, dst) && !dst.FilterIn?
    ensures Served(g, best, dst, T) <==> AllServed(g, best, Targets(g, dst), T)
  {
    var ts := Targets(g, dst);
    if Served(g, best, dst, T) {
      forall k, f: nat | 0 <= k < |ts| && f < |g.filters| && Reaches(g, ts[k], f)
        ensures OfFilter(g, best, f) in T
      {
        assert Reaches(g, dst, f);
      }
    } else {
      var f: nat :| f < |g.filters| && Reaches(g, dst, f) && OfFilter(g, best, f) !in T;
      var k :| 0 <= k < |ts| && Reaches(g, ts[k], f);
      assert !Served(g, best, ts[k], T);
    }
  }

  /** Along the first destination of each stream and decoder output, and all of encoders, no
      demuxer of S comes to a filtergraph that wants what a task outside S would produce. */
  ghost predicate Closed(g: Graph, best: seq<nat>, S: set<Task>)
    requires Startable(g) && BestOk(g, best)
  {
    forall d: nat :: d < |g.demux| && DemuxTask(d) in S ==> AllServed(g, best, DemuxTargets(g, d), S)
  }

  ghost predicate InEveryClosed(g: Graph, best: seq<nat>, seeds: set<Task>, w: Task)
    requires Startable(g) && BestOk(g, best)
  {
    forall S :: Closed(g, best, S) && seeds <= S ==> w in S
  }

  /** The smallest closed set of tasks around `seeds`. */
  ghost function Least(g: Graph, best: seq<nat>, seeds: set<Task>): set<Task>
    requires Startable(g) && BestOk(g, best)
  {
    set w | w in Tasks(g) && InEveryClosed(g, best, seeds, w)
  }

  lemma OfFilterIsTask(g: Graph, best: seq<nat>, f: nat)
    requires Startable(g) && BestOk(g, best) && f < |g.filters|
    ensures OfFilter(g, best, f) in Tasks(g)
  {
    if best[f] < |g.filters[f].inputs| {
      InputRankLower(g, f, best[f]);
      OriginIsTask(g, best, g.filters[f].inputs[best[f]]);
    }
  }

  lemma LeastIsLeast(g: Graph, best: seq<nat>, seeds: set<Task>)
    requires Startable(g) && BestOk(g, best) && seeds <= Tasks(g)
    ensures Least(g, best, seeds) <= Tasks(g)
    ensures seeds <= Least(g, best, seeds)
    ensures Closed(g, best, Least(g, best, seeds))
    ensures forall S :: Closed(g, best, S) && seeds <= S ==> Least(g, best, seeds) <= S
  {
    var L := Least(g, best, seeds);
    forall d: nat | d < |g.demux| && DemuxTask(d) in L
      ensures AllServed(g, best, DemuxTargets(g, d), L)
    {
      var ts := DemuxTargets(g, d);
      forall k, f: nat | 0 <= k < |ts| && f < |g.filters| && Reaches(g, ts[k], f)
        ensures OfFilter(g, best, f) in L
      {
        OfFilterIsTask(g, best, f);
        forall S | Closed(g, best, S) && seeds <= S
          ensures OfFilter(g, best, f) in S
        {
          assert InEveryClosed(g, best, seeds, DemuxTask(d));
          assert Served(g, best, ts[k], S);
        }
        assert InEveryClosed(g, best, seeds, OfFilter(g, best, f));
      }
    }
    forall S | Closed(g, best, S) && seeds <= S
      ensures L <= S
    {
      assert forall w :: w in L ==> InEveryClosed(g, best, seeds, w);
    }
  }

  // --- the sources of muxer streams and filtergraph inputs -----------------------

  lemma MuxSrcValid(g: Graph, i: nat, j: nat)
    requires Ready(g) && i < |g.mux| && j < |g.mux[i]|
    ensures ValidSrc(g, g.mux[i][j])
  {
    ConnectedPorts(g);
    assert ValidDst(g, Mux(i, j));
  }

  ghost function MuxOrigin(g: Graph, best: seq<nat>, i: nat, j: nat): Task
    requires Startable(g) && BestOk(g, best) && i < |g.mux| && j < |g.mux[i]|
  {
    MuxSrcValid(g, i, j);
    Origin(g, best, g.mux[i][j])
  }

  ghost function InputOrigin(g: Graph, best: seq<nat>, f: nat, j: nat): Task
    requires Startable(g) && BestOk(g, best) && f < |g.filters| && j < |g.filters[f].inputs|
  {
    InputValid(g, f, j);
    Origin(g, best, g.filters[f].inputs[j])
  }
}
