/** The cycle check of sch_start: an iterative depth-first search with an explicit
    stack.  It explores every simple path, because it does not skip nodes it has
    already finished. */
module CycleCheck {
  import opened Topology
  import opened Cycles
  import opened Rings

  datatype Mark = New | Started | Done

  /** A filtergraph and its next input to explore. */
  datatype Frame = Frame(idx: nat, next: nat)

  function Advance(f: Frame): Frame { Frame(f.idx, f.next + 1) }

  // --- the state of a search -----------------------------------------------------

  ghost function Nodes(fr: seq<Frame>): (p: seq<nat>)
    ensures |p| == |fr|
    ensures forall k :: 0 <= k < |fr| ==> p[k] == fr[k].idx
  {
    seq(|fr|, k requires 0 <= k < |fr| => fr[k].idx)
  }

  /** Nothing upstream of input j of filtergraph x lies on a cycle. */
  ghost predicate SafeInput(g: Graph, x: nat, j: nat)
    requires Ready(g) && x < |g.filters| && j < |Inputs(g, x)|
  {
    Feeder(g, x, j).FilterOut? ==> !Lasso(g, Feeder(g, x, j).idx)
  }

  ghost predicate FrameOk(g: Graph, f: Frame)
    requires Ready(g)
  {
    f.idx < |g.filters| && f.next <= |Inputs(g, f.idx)|
  }

  ghost predicate AllOk(g: Graph, fr: seq<Frame>)
    requires Ready(g)
  {
    forall k :: 0 <= k < |fr| ==> FrameOk(g, fr[k])
  }

  /** All inputs before `upTo` have been found safe. */
  ghost predicate Explored(g: Graph, f: Frame, upTo: int)
    requires Ready(g) && FrameOk(g, f) && upTo <= f.next
  {
    forall j :: 0 <= j < upTo ==> SafeInput(g, f.idx, j)
  }

  /** The stack plus the current frame: a simple path of Started nodes, each stacked
      frame being in the middle of the input that leads to the frame above it. */
  ghost predicate Searching(g: Graph, start: nat, fr: seq<Frame>)
    requires Ready(g)
  {
    && fr != [] && fr[0].idx == start
    && AllOk(g, fr)
    && Distinct(Nodes(fr))
    && (forall k :: 0 <= k < |fr| - 1 ==>
          fr[k].next > 0 && FedBy(g, fr[k].idx, fr[k].next - 1, fr[k + 1].idx)
          && Explored(g, fr[k], fr[k].next - 1))
    && Explored(g, fr[|fr| - 1], fr[|fr| - 1].next)
  }

  lemma SearchIsPath(g: Graph, start: nat, fr: seq<Frame>)
    requires Ready(g) && Searching(g, start, fr)
    ensures IsPath(g, Nodes(fr))
    ensures |fr| <= |g.filters|
  {
    var p := Nodes(fr);
    forall k | 0 <= k < |p| - 1
      ensures Feeds(g, p[k], p[k + 1])
    {
      assert FrameOk(g, fr[k]);
      assert FedBy(g, fr[k].idx, fr[k].next - 1, fr[k + 1].idx);
    }
    PathInRange(g, p);
    Pigeonhole(p, |g.filters|);
  }

  /** Meeting a node of the current path closes a cycle. */
  lemma StartedNodeClosesCycle(g: Graph, start: nat, fr: seq<Frame>, y: nat)
    requires Ready(g) && Searching(g, start, fr)
    requires Feeds(g, fr[|fr| - 1].idx, y) && y in Nodes(fr)
    ensures Lasso(g, start)
  {
    SearchIsPath(g, start, fr);
    var p := Nodes(fr);
    var q := p + [y];
    var k :| 0 <= k < |p| && p[k] == y;
    assert q[k] == q[|p|];
    assert IsPath(g, q) by {
      forall i | 0 <= i < |q| - 1
        ensures Feeds(g, q[i], q[i + 1])
      {
        if i < |p| - 1 {
          assert Feeds(g, p[i], p[i + 1]);
        }
      }
    }
  }

  lemma SafeInputHolds(g: Graph, f: Frame, j: nat)
    requires Ready(g) && FrameOk(g, f) && Explored(g, f, f.next) && j < f.next
    ensures SafeInput(g, f.idx, j)
  {
  }

  /** A filtergraph all of whose inputs were explored is safe itself. */
  lemma FinishedFrameIsSafe(g: Graph, f: Frame)
    requires Ready(g) && FrameOk(g, f) && f.next == |Inputs(g, f.idx)| && Explored(g, f, f.next)
    ensures !Lasso(g, f.idx)
  {
    if Lasso(g, f.idx) {
      LassoThroughFeeder(g, f.idx);
      var y: nat :| Feeds(g, f.idx, y) && Lasso(g, y);
      var j :| 0 <= j < |Inputs(g, f.idx)| && FedBy(g, f.idx, j, y);
      SafeInputHolds(g, f, j);
    }
  }

  lemma Push(g: Graph, start: nat, fr: seq<Frame>, st: seq<Frame>, cur: Frame, y: nat)
    requires Ready(g) && Searching(g, start, fr)
    requires fr == st + [cur] && cur.next < |Inputs(g, cur.idx)|
    requires FedBy(g, cur.idx, cur.next, y) && y !in Nodes(fr)
    ensures Searching(g, start, st + [Advance(cur)] + [Frame(y, 0)])
  {
    assert fr[|st|] == cur;
    var fr' := st + [Advance(cur)] + [Frame(y, 0)];
    assert Feeds(g, cur.idx, y);
    FeedsInRange(g, cur.idx, y);
    assert forall k :: 0 <= k < |fr| ==> fr'[k].idx == fr[k].idx;
    assert Nodes(fr') == Nodes(fr) + [y];
    assert forall k :: 0 <= k < |st| ==> fr'[k] == fr[k];
    assert Explored(g, Advance(cur), cur.next);
  }

  lemma Skip(g: Graph, start: nat, fr: seq<Frame>, st: seq<Frame>, cur: Frame)
    requires Ready(g) && Searching(g, start, fr)
    requires fr == st + [cur] && cur.next < |Inputs(g, cur.idx)| && SafeInput(g, cur.idx, cur.next)
    ensures Searching(g, start, st + [Advance(cur)])
  {
    var fr' := st + [Advance(cur)];
    assert fr[|st|] == cur;
    assert forall k :: 0 <= k < |fr| ==> fr'[k].idx == fr[k].idx;
    assert Nodes(fr') == Nodes(fr);
    assert forall k :: 0 <= k < |st| ==> fr'[k] == fr[k];
  }

  lemma Pop(g: Graph, start: nat, fr: seq<Frame>, st: seq<Frame>, cur: Frame)
    requires Ready(g) && Searching(g, start, fr)
    requires fr == st + [cur] && st != [] && cur.next == |Inputs(g, cur.idx)|
    ensures Searching(g, start, st)
  {
    var top := |st| - 1;
    assert fr[top] == st[top] && fr[top + 1] == cur;
    FinishedFrameIsSafe(g, cur);
    assert Nodes(st) == Nodes(fr)[..|st|];
    assert forall k :: 0 <= k < |st| ==> st[k] == fr[k];
    assert FedBy(g, st[top].idx, st[top].next - 1, cur.idx);
    assert Explored(g, st[top], st[top].next);
  }

  // --- termination ---------------------------------------------------------------

  ghost function MaxInputs(fs: seq<FilterLinks>): (m: nat)
    ensures forall i :: 0 <= i < |fs| ==> |fs[i].inputs| <= m
  {
    if fs == [] then 0
    else
      var rest := MaxInputs(fs[..|fs| - 1]);
      if rest < |fs[|fs| - 1].inputs| then |fs[|fs| - 1].inputs| else rest
  }

  /** Iterations that suffice for a frame with `r` inputs left and at most `room`
      further frames above it, when a filtergraph has at most m inputs. */
  ghost function Cost(m: nat, room: nat, r: nat): (c: nat)
    ensures c > 0
    decreases room, r
  {
    if r == 0 then 1
    else Cost(m, room, r - 1) + 1 + if room == 0 then 0 else Cost(m, room - 1, m)
  }

  lemma {:induction false} CostMonotone(m: nat, room: nat, r: nat, s: nat)
    requires r <= s
    ensures Cost(m, room, r) <= Cost(m, room, s)
    decreases s
  {
    if r == s {
    } else {
      CostMonotone(m, room, r, s - 1);
    }
  }

  ghost function FrameCost(g: Graph, f: Frame, room: int): nat {
    if f.idx < |g.filters| && f.next <= |g.filters[f.idx].inputs| then
      Cost(MaxInputs(g.filters), if room < 0 then 0 else room, |g.filters[f.idx].inputs| - f.next)
    else
      0
  }

  /** Iterations that suffice for the stack `st` with `cur` on top. */
  ghost function Work(g: Graph, st: seq<Frame>, cur: Frame): nat
    decreases |st|
  {
    FrameCost(g, cur, |g.filters| - |st| - 1) +
    if st == [] then 0 else Work(g, st[..|st| - 1], st[|st| - 1])
  }

  lemma SkipDecreases(g: Graph, st: seq<Frame>, cur: Frame)
    requires Ready(g) && FrameOk(g, cur) && cur.next < |Inputs(g, cur.idx)|
    ensures Work(g, st, Advance(cur)) < Work(g, st, cur)
  {
  }

  lemma PushDecreases(g: Graph, st: seq<Frame>, cur: Frame, y: nat)
    requires Ready(g) && y < |g.filters| && |st| + 2 <= |g.filters|
    requires FrameOk(g, cur) && cur.next < |Inputs(g, cur.idx)|
    ensures Work(g, st + [Advance(cur)], Frame(y, 0)) < Work(g, st, cur)
  {
    var m, room := MaxInputs(g.filters), |g.filters| - |st| - 1;
    var st' := st + [Advance(cur)];
    assert st'[..|st|] == st && st'[|st|] == Advance(cur);
    assert Work(g, st', Frame(y, 0)) == FrameCost(g, Frame(y, 0), room - 1) + Work(g, st, Advance(cur));
    CostMonotone(m, room - 1, |Inputs(g, y)|, m);
    assert FrameCost(g, cur, room) == FrameCost(g, Advance(cur), room) + 1 + Cost(m, room - 1, m);
  }

  lemma WorkPop(g: Graph, st: seq<Frame>, cur: Frame)
    requires Ready(g) && FrameOk(g, cur) && st != []
    ensures Work(g, st[..|st| - 1], st[|st| - 1]) < Work(g, st, cur)
  {
  }

  // --- marks ---------------------------------------------------------------------

  /** The Started nodes are exactly the nodes of the path. */
  ghost predicate Marked(visited: seq<Mark>, fr: seq<Frame>) {
    forall v: nat :: v < |visited| ==> (visited[v] == Started <==> v in Nodes(fr))
  }

  lemma MarkPush(visited: seq<Mark>, st: seq<Frame>, cur: Frame, y: nat)
    requires Marked(visited, st + [cur]) && y < |visited|
    ensures Marked(visited[y := Started], st + [Advance(cur)] + [Frame(y, 0)])
  {
    assert Nodes(st + [Advance(cur)] + [Frame(y, 0)]) == Nodes(st + [cur]) + [y];
  }

  lemma MarkSkip(visited: seq<Mark>, st: seq<Frame>, cur: Frame)
    requires Marked(visited, st + [cur]) && cur.idx < |visited|
    ensures Marked(visited[cur.idx := Started], st + [Advance(cur)])
  {
    assert Nodes(st + [Advance(cur)]) == Nodes(st + [cur]);
    assert Nodes(st + [cur])[|st|] == cur.idx;
  }

  lemma MarkPop(visited: seq<Mark>, st: seq<Frame>, cur: Frame)
    requires Marked(visited, st + [cur]) && cur.idx < |visited| && Distinct(Nodes(st + [cur]))
    ensures Marked(visited[cur.idx := Done], st)
    ensures st != [] && st[|st| - 1].idx < |visited| ==>
      Marked(visited[cur.idx := Done][st[|st| - 1].idx := Started], st)
  {
    var fr := st + [cur];
    assert Nodes(fr) == Nodes(st) + [cur.idx];
    assert cur.idx !in Nodes(st) by {
      assert forall k :: 0 <= k < |st| ==> Nodes(st)[k] == Nodes(fr)[k] != Nodes(fr)[|st|];
    }
    assert forall v: nat :: v in Nodes(fr) <==> v in Nodes(st) || v == cur.idx;
    if st != [] {
      assert Nodes(st)[|st| - 1] == st[|st| - 1].idx;
    }
  }

  // --- one iteration -------------------------------------------------------------

  /** The loop invariant; the current node is about to be marked Started. */
  ghost predicate SearchState(g: Graph, start: nat, visited: seq<Mark>, st: seq<Frame>, cur: Frame)
    requires Ready(g)
  {
    && |visited| == |g.filters|
    && Searching(g, start, st + [cur])
    && |st| < |g.filters| && FrameOk(g, cur)
    && Marked(visited[cur.idx := Started], st + [cur])
  }

  lemma SearchStart(g: Graph, start: nat, visited: seq<Mark>)
    requires Ready(g) && start < |g.filters| == |visited|
    requires forall v :: 0 <= v < |visited| ==> visited[v] == New
    ensures SearchState(g, start, visited, [], Frame(start, 0))
  {
    var cur := Frame(start, 0);
    assert [] + [cur] == [cur];
    assert Nodes([cur]) == [start];
  }

  lemma PushStep(g: Graph, start: nat, visited: seq<Mark>, st: seq<Frame>, cur: Frame, y: nat)
    requires Ready(g) && SearchState(g, start, visited, st, cur) && cur.next < |Inputs(g, cur.idx)|
    requires FedBy(g, cur.idx, cur.next, y) && y < |g.filters| && visited[cur.idx := Started][y] != Started
    ensures |st| + 1 < |g.filters|
    ensures SearchState(g, start, visited[cur.idx := Started], st + [Advance(cur)], Frame(y, 0))
    ensures Work(g, st + [Advance(cur)], Frame(y, 0)) < Work(g, st, cur)
  {
    var fr := st + [cur];
    assert fr[|st|] == cur && forall k :: 0 <= k < |st| ==> fr[k] == st[k];
    Push(g, start, fr, st, cur, y);
    SearchIsPath(g, start, st + [Advance(cur)] + [Frame(y, 0)]);
    PushDecreases(g, st, cur, y);
    MarkPush(visited[cur.idx := Started], st, cur, y);
  }

  lemma SkipStep(g: Graph, start: nat, visited: seq<Mark>, st: seq<Frame>, cur: Frame)
    requires Ready(g) && SearchState(g, start, visited, st, cur) && cur.next < |Inputs(g, cur.idx)|
    requires Feeder(g, cur.idx, cur.next).Demux?
    ensures SearchState(g, start, visited[cur.idx := Started], st, Advance(cur))
    ensures Work(g, st, Advance(cur)) < Work(g, st, cur)
  {
    var fr := st + [cur];
    assert fr[|st|] == cur && forall k :: 0 <= k < |st| ==> fr[k] == st[k];
    Skip(g, start, fr, st, cur);
    SkipDecreases(g, st, cur);
    MarkSkip(visited[cur.idx := Started], st, cur);
  }

  lemma StackedFrameOk(g: Graph, start: nat, fr: seq<Frame>, k: nat)
    requires Ready(g) && Searching(g, start, fr) && k < |fr|
    ensures FrameOk(g, fr[k])
  {
  }

  lemma PathIsDistinct(g: Graph, start: nat, fr: seq<Frame>)
    requires Ready(g) && Searching(g, start, fr)
    ensures Distinct(Nodes(fr))
  {
  }

  /** When the node the search began with is finished, no cycle was upstream of it. */
  lemma LastStep(g: Graph, start: nat, visited: seq<Mark>, cur: Frame)
    requires Ready(g) && SearchState(g, start, visited, [], cur) && cur.next == |Inputs(g, cur.idx)|
    ensures !Lasso(g, start)
  {
    hide Lasso, SafeInput;
    assert [] + [cur] == [cur];
    FinishedFrameIsSafe(g, cur);
  }

  lemma PopStep(g: Graph, start: nat, visited: seq<Mark>, st: seq<Frame>, cur: Frame)
    requires Ready(g) && SearchState(g, start, visited, st, cur) && cur.next == |Inputs(g, cur.idx)| && st != []
    ensures var top := |st| - 1;
      && SearchState(g, start, visited[cur.idx := Done], st[..top], st[top]) && FrameOk(g, st[top])
      && Work(g, st[..top], st[top]) < Work(g, st, cur)
  {
    var fr := st + [cur];
    var top := |st| - 1;
    assert fr[|st|] == cur && fr[top] == st[top];
    StackedFrameOk(g, start, fr, top);
    StackedFrameOk(g, start, fr, |st|);
    hide Lasso, Work, Marked, FrameCost, Explored, SafeInput, Searching;
    Pop(g, start, fr, st, cur);
    WorkPop(g, st, cur);
    PathIsDistinct(g, start, fr);
    MarkPop(visited[cur.idx := Started], st, cur);
    assert st == st[..top] + [st[top]];
    assert visited[cur.idx := Started][cur.idx := Done] == visited[cur.idx := Done];
  }

  lemma CycleFound(g: Graph, start: nat, visited: seq<Mark>, st: seq<Frame>, cur: Frame, y: nat)
    requires Ready(g) && SearchState(g, start, visited, st, cur) && cur.next < |Inputs(g, cur.idx)|
    requires FedBy(g, cur.idx, cur.next, y) && y < |g.filters| && visited[cur.idx := Started][y] == Started
    ensures Lasso(g, start)
  {
    assert (st + [cur])[|st|] == cur;
    assert Feeds(g, cur.idx, y);
    StartedNodeClosesCycle(g, start, st + [cur], y);
  }

  // --- the program ---------------------------------------------------------------

  /** src_filtergraph: follow decoders and encoders to what feeds them. */
  method SrcFiltergraph(g: Graph, src: Node) returns (node: Node)
    requires Ready(g) && ValidSrc(g, src)
    ensures node == End(g, src)
    ensures ValidSrc(g, node) && (node.Demux? || node.FilterOut?)
  {
    node := src;
    EndStep(g, src);
    while node.DecOut? || node.Enc?
      invariant ValidSrc(g, node) && End(g, node) == End(g, src)
      decreases Hops(g, node, ChainBound(g))
    {
      EndStep(g, node);
      ghost var before := node;
      node := if node.DecOut? then g.dec[node.idx].src else g.enc[node.idx].src;
      ResolveStable(g, node, ChainBound(g) - 1, ChainBound(g));
    }
    EndStep(g, node);
  }

  /** check_acyclic_for_output: search upstream of one filtergraph. */
  method CheckAcyclicForOutput(g: Graph, start: nat, visited: array<Mark>, stack: array<Frame>)
    returns (cyclic: bool)
    requires Ready(g) && start < |g.filters|
    requires visited.Length == stack.Length == |g.filters|
    modifies visited, stack
    ensures cyclic <==> Lasso(g, start)
  {
    hide SearchState, Work;
    for v := 0 to visited.Length
      invariant forall u :: 0 <= u < v ==> visited[u] == New
    {
      visited[v] := New;
    }
    var cur := Frame(start, 0);
    var depth: nat := 0;
    SearchStart(g, start, visited[..]);
    assert stack[..0] == [];
    while true
      invariant depth < stack.Length
      invariant FrameOk(g, cur)
      invariant SearchState(g, start, visited[..], stack[..depth], cur)
      decreases Work(g, stack[..depth], cur)
    {
      ghost var marks, st := visited[..], stack[..depth];
      visited[cur.idx] := Started;
      assert visited[..] == marks[cur.idx := Started];

      if cur.next < |g.filters[cur.idx].inputs| {
        InputValid(g, cur.idx, cur.next);
        var node := SrcFiltergraph(g, g.filters[cur.idx].inputs[cur.next]);
        if node.Demux? {
          SkipStep(g, start, marks, st, cur);
          cur := Advance(cur);
          continue;
        }
        assert FedBy(g, cur.idx, cur.next, node.idx);
        if visited[node.idx] == Started {
          CycleFound(g, start, marks, st, cur, node.idx);
          return true;
        }
        PushStep(g, start, marks, st, cur, node.idx);
        assert depth < |g.filters|;  // the program's assertion before it pushes
        stack[depth] := Advance(cur);
        depth := depth + 1;
        assert stack[..depth] == st + [Advance(cur)];
        cur := Frame(node.idx, 0);
        continue;
      }

      visited[cur.idx] := Done;
      assert visited[..] == marks[cur.idx := Done];
      if depth > 0 {
        PopStep(g, start, marks, st, cur);
        depth := depth - 1;
        assert stack[..depth] == st[..depth];
        cur := stack[depth];
        continue;
      }
      LastStep(g, start, marks, cur);
      return false;
    }
  }

  /** check_acyclic succeeds exactly on the graphs without a cycle. */
  method CheckAcyclic(g: Graph) returns (ok: bool)
    requires Ready(g)
    ensures ok <==> !HasCycle(g)
  {
    LassoIffCycle(g);
    if |g.filters| == 0 {
      return true;
    }
    var visited := new Mark[|g.filters|];
    var stack := new Frame[|g.filters|];
    for i := 0 to |g.filters|
      invariant forall x: nat :: x < i ==> !Lasso(g, x)
    {
      var cyclic := CheckAcyclicForOutput(g, i, visited, stack);
      if cyclic {
        return false;
      }
    }
    return true;
  }

  /** start_prepare: the graph must be fully connected and have no cycle. */
  method StartPrepare(g: Graph) returns (ok: bool)
    requires Linked(g) && !HasRing(g)
    ensures FullyConnected(g) ==> ChainsEnd(g)
    ensures ok <==> FullyConnected(g) && !HasCycle(g)
  {
    if FullyConnected(g) {
      ChainsEndIffNoRing(g);
    }
    for i := 0 to |g.demux|
      invariant forall k :: 0 <= k < i ==> DemuxConnected(g, k)
    {
      if !DemuxConnected(g, i) {
        return false;
      }
    }
    for i := 0 to |g.dec|
      invariant forall k :: 0 <= k < i ==> DecConnected(g, k)
    {
      if !DecConnected(g, i) {
        return false;
      }
    }
    for i := 0 to |g.enc|
      invariant forall k :: 0 <= k < i ==> EncConnected(g, k)
    {
      if !EncConnected(g, i) {
        return false;
      }
    }
    for i := 0 to |g.mux|
      invariant forall k :: 0 <= k < i ==> MuxConnected(g, k)
    {
      if !MuxConnected(g, i) {
        return false;
      }
    }
    for i := 0 to |g.filters|
      invariant forall k :: 0 <= k < i ==> FilterConnected(g, k)
    {
      if !FilterConnected(g, i) {
        return false;
      }
    }
    ok := CheckAcyclic(g);
  }
}
