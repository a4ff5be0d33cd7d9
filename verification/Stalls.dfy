/** Who waits for whom.

    A component waits for the reader of a queue that is full, or for what fills a queue that is
    empty.  Waits chain: a component that is blocked on one of its destinations neither reads
    nor sends anything else, and one that has nothing to read sends nothing.  A filtergraph
    that wants an input reads all of them from one queue, so it keeps a queue full only while
    it is blocked itself; one that wants to be scheduled directly sleeps until it is unchoked
    and reads nothing.  Muxers always read.  A decoder's queue is kept from being read only
    while the demuxer in front of it is choked, which is waited for in any case. */
module Stalls {
  import opened Cycles
  import opened Topology
  import opened Waking

  datatype Wait =
    | ForReader(dst: Node)  // until something is read there
    | ForOutput(src: Node)  // until something comes from there

  ghost predicate WaitOk(g: Graph, a: Wait) {
    match a
    case ForReader(dst) => ValidDst(g, dst)
    case ForOutput(src) => ValidSrc(g, src)
  }

  /** `s` is an output of the component that has port n. */
  predicate Outlet(n: Node, s: Node) {
    match n
    case Demux(i, _) => s.Demux? && s.idx == i
    case DecIn(i) => s.DecOut? && s.idx == i
    case DecOut(i, _) => s.DecOut? && s.idx == i
    case Enc(_) => s == n
    case FilterIn(i, _) => s.FilterOut? && s.idx == i
    case FilterOut(i, _) => s.FilterOut? && s.idx == i
    case _ => false
  }

  /** The component that has port n sends to `dst`. */
  ghost predicate Sends(g: Graph, n: Node, dst: Node) {
    exists s :: Outlet(n, s) && ValidSrc(g, s) && dst in Dsts(g, s)
  }

  /** `src` is idle for want of something from `up`. */
  ghost predicate Wants(g: Graph, best: seq<nat>, src: Node, up: Node)
    requires BestOk(g, best) && ValidSrc(g, src)
  {
    if src.DecOut? || src.Enc? then up == UpOne(g, src)
    else
      src.FilterOut? && best[src.idx] < |g.filters[src.idx].inputs| &&
      up == g.filters[src.idx].inputs[best[src.idx]]
  }

  ghost predicate Direct(g: Graph, best: seq<nat>, f: nat) {
    f < |best| && f < |g.filters| && best[f] == |g.filters[f].inputs|
  }

  /** Whoever is waited for in `a` may itself be waiting in `b`. */
  ghost predicate Leads(g: Graph, best: seq<nat>, a: Wait, b: Wait)
    requires BestOk(g, best) && WaitOk(g, a)
  {
    match a
    case ForReader(dst) => b.ForReader? && Sends(g, dst, b.dst)
    case ForOutput(src) => if b.ForReader? then Sends(g, src, b.dst) else Wants(g, best, src, b.src)
  }

  /** In `a` somebody waits for task w to be unchoked. */
  ghost predicate Awaits(g: Graph, best: seq<nat>, a: Wait, w: Task) {
    match a
    case ForReader(dst) => dst.FilterIn? && Direct(g, best, dst.idx) && w == FilterTask(dst.idx)
    case ForOutput(src) =>
      || (src.Demux? && w == DemuxTask(src.idx))
      || (src.FilterOut? && Direct(g, best, src.idx) && w == FilterTask(src.idx))
  }

  ghost predicate IsChain(g: Graph, best: seq<nat>, c: seq<Wait>)
    requires BestOk(g, best)
  {
    && c != []
    && (forall i :: 0 <= i < |c| ==> WaitOk(g, c[i]))
    && forall i :: 0 <= i < |c| - 1 ==> Leads(g, best, c[i], c[i + 1])
  }

  ghost predicate Comes(g: Graph, best: seq<nat>, a: Wait, b: Wait)
    requires BestOk(g, best)
  {
    exists c :: IsChain(g, best, c) && c[0] == a && c[|c| - 1] == b
  }

  /** Along some chain of full and empty queues, whoever waits in `a` waits for task w. */
  ghost predicate Awaited(g: Graph, best: seq<nat>, a: Wait, w: Task)
    requires BestOk(g, best)
  {
    exists b :: Comes(g, best, a, b) && Awaits(g, best, b, w)
  }

  lemma ComesItself(g: Graph, best: seq<nat>, a: Wait)
    requires BestOk(g, best) && WaitOk(g, a)
    ensures Comes(g, best, a, a)
  {
    assert IsChain(g, best, [a]);
  }

  lemma ComesFirst(g: Graph, best: seq<nat>, a: Wait, b: Wait, z: Wait)
    requires BestOk(g, best) && WaitOk(g, a) && Leads(g, best, a, b) && Comes(g, best, b, z)
    ensures Comes(g, best, a, z)
  {
    hide WaitOk, Leads;
    var c :| IsChain(g, best, c) && c[0] == b && c[|c| - 1] == z;
    var e := [a] + c;
    forall i | 0 <= i < |e| - 1
      ensures WaitOk(g, e[i]) && Leads(g, best, e[i], e[i + 1])
    {
      if i > 0 {
        assert Leads(g, best, c[i - 1], c[i - 1 + 1]);
      }
    }
    assert e[|e| - 1] == c[|c| - 1];
    assert IsChain(g, best, e);
  }

  // --- downstream --------------------------------------------------------------------------

  ghost predicate IsFlow(g: Graph, q: seq<Node>) {
    q != [] && forall i :: 0 <= i < |q| - 1 ==> Sends(g, q[i], q[i + 1])
  }

  /** What the component with port n sends may get to `dst`, through any destinations. */
  ghost predicate Below(g: Graph, n: Node, dst: Node) {
    exists q :: IsFlow(g, q) && |q| >= 2 && q[0] == n && q[|q| - 1] == dst
  }

  ghost predicate FilterBelow(g: Graph, n: Node, f: nat) {
    exists j :: Below(g, n, FilterIn(f, j))
  }

  lemma FlowTail(g: Graph, q: seq<Node>)
    requires IsFlow(g, q) && |q| >= 2
    ensures IsFlow(g, q[1..]) && Sends(g, q[0], q[1])
  {
    hide Sends;
    assert Sends(g, q[0], q[0 + 1]);
    forall i | 0 <= i < |q[1..]| - 1
      ensures Sends(g, q[1..][i], q[1..][i + 1])
    {
      assert Sends(g, q[i + 1], q[i + 1 + 1]);
    }
  }

  lemma SendsValid(g: Graph, n: Node, dst: Node)
    requires Linked(g) && Sends(g, n, dst)
    ensures ValidDst(g, dst) && ValidSrc(g, SrcOf(g, dst)) && Outlet(n, SrcOf(g, dst))
  {
    var s :| Outlet(n, s) && ValidSrc(g, s) && dst in Dsts(g, s);
    assert ForwardLinked(g, s);
  }

  lemma FeedsDst(g: Graph, dst: Node)
    requires Ready(g) && ValidDst(g, dst)
    ensures ValidSrc(g, SrcOf(g, dst)) && Sends(g, SrcOf(g, dst), dst)
  {
    ConnectedPorts(g);
    assert BackwardLinked(g, dst);
    assert Outlet(SrcOf(g, dst), SrcOf(g, dst));
  }

  lemma BelowFirst(g: Graph, n: Node, dst: Node)
    requires Sends(g, n, dst)
    ensures Below(g, n, dst)
  {
    assert IsFlow(g, [n, dst]);
  }

  lemma BelowNext(g: Graph, n: Node, dst: Node, next: Node)
    requires Below(g, n, dst) && Sends(g, dst, next)
    ensures Below(g, n, next)
  {
    hide Sends;
    var q :| IsFlow(g, q) && |q| >= 2 && q[0] == n && q[|q| - 1] == dst;
    var e := q + [next];
    forall i | 0 <= i < |e| - 1
      ensures Sends(g, e[i], e[i + 1])
    {
      if i < |q| - 1 {
        assert Sends(g, q[i], q[i + 1]);
      }
    }
    assert IsFlow(g, e);
  }

  // --- waits are not circular ----------------------------------------------------------------

  /** Waits lead upstream first, then downstream. */
  ghost function Major(g: Graph, a: Wait): int
    requires Startable(g) && WaitOk(g, a)
  {
    match a
    case ForOutput(src) => |g.filters| + 2 + Rank(g, src)
    case ForReader(dst) => FeedsDst(g, dst); |g.filters| + 1 - Rank(g, SrcOf(g, dst))
  }

  ghost function Minor(g: Graph, a: Wait): int
    requires Startable(g) && WaitOk(g, a)
  {
    match a
    case ForOutput(src) => ChainLength(g, src)
    case ForReader(dst) => ToGo(g, dst)
  }

  lemma RankBounded(g: Graph, src: Node)
    requires Startable(g) && ValidSrc(g, src)
    ensures Rank(g, src) <= |g.filters| + 1
    ensures src.FilterOut? ==> Rank(g, src) == Height(g, src.idx) + 1
  {
    EndStep(g, src);
  }

  /** From a full queue to the one that its reader is blocked on. */
  lemma ReaderDrops(g: Graph, dst: Node, next: Node)
    requires Startable(g) && ValidDst(g, dst) && Sends(g, dst, next)
    ensures ValidDst(g, next) && ValidSrc(g, SrcOf(g, next)) && ValidSrc(g, SrcOf(g, dst))
    ensures Rank(g, SrcOf(g, next)) >= Rank(g, SrcOf(g, dst))
    ensures Rank(g, SrcOf(g, next)) == Rank(g, SrcOf(g, dst)) ==> ToGo(g, next) < ToGo(g, dst)
  {
    SendsValid(g, dst, next);
    FeedsDst(g, dst);
    var s := SrcOf(g, next);
    if dst.FilterIn? {
      InputRankLower(g, dst.idx, dst.stream);
      RankBounded(g, s);
    } else {
      FeedsDst(g, next);
      EndStep(g, s);
      assert ForwardLinked(g, s);
      var k :| 0 <= k < |Dsts(g, s)| && Dsts(g, s)[k] == next by {
        var t :| Outlet(dst, t) && ValidSrc(g, t) && next in Dsts(g, t);
        assert ForwardLinked(g, t);
      }
      DownstreamStep(g, s, k);
    }
  }

  lemma LeadsDrops(g: Graph, best: seq<nat>, a: Wait, b: Wait)
    requires Startable(g) && BestOk(g, best) && WaitOk(g, a) && Leads(g, best, a, b)
    ensures WaitOk(g, b)
    ensures 0 <= Major(g, b) <= Major(g, a)
    ensures Major(g, b) == Major(g, a) ==> 0 <= Minor(g, b) < Minor(g, a)
  {
    if a.ForReader? {
      ReaderDrops(g, a.dst, b.dst);
      RankBounded(g, SrcOf(g, b.dst));
    } else if b.ForReader? {
      SendsValid(g, a.src, b.dst);
      RankBounded(g, SrcOf(g, b.dst));
    } else {
      OriginStep(g, best, a.src);
    }
  }

  /** What is waited for in `a` waits in turn, as W says, or is a task that does not run. */
  ghost predicate Blocked(g: Graph, best: seq<nat>, running: set<Task>, W: set<Wait>, a: Wait)
    requires BestOk(g, best)
  {
    && WaitOk(g, a)
    && ((exists b :: b in W && Leads(g, best, a, b)) || (exists w :: Awaits(g, best, a, w) && w !in running))
  }

  /** Nobody in W can go on. */
  ghost predicate Stuck(g: Graph, best: seq<nat>, running: set<Task>, W: set<Wait>)
    requires BestOk(g, best)
  {
    forall a :: a in W ==> Blocked(g, best, running, W, a)
  }

  ghost predicate HeldUp(g: Graph, best: seq<nat>, running: set<Task>, a: Wait)
    requires BestOk(g, best)
  {
    exists W :: Stuck(g, best, running, W) && a in W
  }

  lemma {:induction false} StuckAwaits(g: Graph, best: seq<nat>, running: set<Task>, W: set<Wait>, a: Wait)
      returns (w: Task)
    requires Startable(g) && BestOk(g, best) && Stuck(g, best, running, W) && a in W
    ensures Awaited(g, best, a, w) && w !in running
    decreases Major(g, a), Minor(g, a)
  {
    hide Leads, Awaits, WaitOk, Startable, BestOk;
    if v :| Awaits(g, best, a, v) && v !in running {
      ComesItself(g, best, a);
      w := v;
    } else {
      var b :| b in W && Leads(g, best, a, b);
      LeadsDrops(g, best, a, b);
      w := StuckAwaits(g, best, running, W, b);
      var z :| Comes(g, best, b, z) && Awaits(g, best, z, w);
      ComesFirst(g, best, a, b, z);
    }
  }

  /** Without a cycle of filtergraphs, components never hold up one another: whatever cannot go
      on waits for a task that is choked. */
  lemma HeldUpIffAwaits(g: Graph, best: seq<nat>, running: set<Task>, a: Wait)
    requires Startable(g) && BestOk(g, best)
    ensures HeldUp(g, best, running, a) <==> exists w :: Awaited(g, best, a, w) && w !in running
  {
    hide Leads, Awaits, WaitOk, Startable, BestOk;
    if HeldUp(g, best, running, a) {
      var W :| Stuck(g, best, running, W) && a in W;
      var w := StuckAwaits(g, best, running, W, a);
    }
    if w :| Awaited(g, best, a, w) && w !in running {
      var b :| Comes(g, best, a, b) && Awaits(g, best, b, w);
      var c :| IsChain(g, best, c) && c[0] == a && c[|c| - 1] == b;
      var W := set x | x in c;
      forall x | x in W
        ensures Blocked(g, best, running, W, x)
      {
        var i :| 0 <= i < |c| && c[i] == x;
        if i < |c| - 1 {
          assert Leads(g, best, c[i], c[i + 1]) && c[i + 1] in W;
        }
      }
      assert Stuck(g, best, running, W);
    }
  }

  // --- which tasks are waited for ---------------------------------------------------------------

  /** The port at which the upstream walk from `src` ends. */
  ghost function Top(g: Graph, best: seq<nat>, src: Node): (top: Node)
    requires Startable(g) && BestOk(g, best) && ValidSrc(g, src)
    ensures ValidSrc(g, top) && (top.Demux? || (top.FilterOut? && Direct(g, best, top.idx)))
    ensures Awaits(g, best, ForOutput(top), Origin(g, best, src))
    decreases Rank(g, src), ChainLength(g, src)
  {
    OriginStep(g, best, src);
    if src.DecOut? || src.Enc? then Top(g, best, UpOne(g, src))
    else if src.FilterOut? && !Direct(g, best, src.idx) then
      Top(g, best, g.filters[src.idx].inputs[best[src.idx]])
    else src
  }

  lemma TopOrUp(g: Graph, best: seq<nat>, src: Node)
    requires Startable(g) && BestOk(g, best) && ValidSrc(g, src)
    ensures Top(g, best, src) == src || exists up :: Wants(g, best, src, up)
  {
    if src.DecOut? || src.Enc? {
      assert Wants(g, best, src, UpOne(g, src));
    } else if src.FilterOut? && !Direct(g, best, src.idx) {
      assert Wants(g, best, src, g.filters[src.idx].inputs[best[src.idx]]);
    }
  }

  /** The task behind the end of the upstream walk. */
  lemma SameOrigin(g: Graph, best: seq<nat>, s: Node, t: Node)
    requires Startable(g) && BestOk(g, best) && ValidSrc(g, s) && ValidSrc(g, t)
    requires Top(g, best, s) == Top(g, best, t)
    ensures Origin(g, best, s) == Origin(g, best, t)
  {
  }

  lemma TopUp(g: Graph, best: seq<nat>, src: Node, up: Node)
    requires Startable(g) && BestOk(g, best) && ValidSrc(g, src) && Wants(g, best, src, up)
    ensures ValidSrc(g, up) && Top(g, best, up) == Top(g, best, src)
    ensures Rank(g, up) <= Rank(g, src) && (Rank(g, up) == Rank(g, src) ==> ChainLength(g, up) < ChainLength(g, src))
    ensures exists x :: Sends(g, up, x) && forall s :: Outlet(x, s) <==> Outlet(src, s)
  {
    OriginStep(g, best, src);
    var x := match src
      case DecOut(i, _) => DecIn(i)
      case FilterOut(f, _) => FilterIn(f, best[f])
      case _ => src;
    FeedsDst(g, x);
  }

  /** What a component on the upstream walk sends to lies below the end of the walk. */
  lemma {:induction false} BelowTop(g: Graph, best: seq<nat>, src: Node, dst: Node)
    requires Startable(g) && BestOk(g, best) && ValidSrc(g, src) && Sends(g, src, dst)
    ensures Below(g, Top(g, best, src), dst)
    decreases Rank(g, src), ChainLength(g, src)
  {
    hide Startable, BestOk, Below;
    if up :| Wants(g, best, src, up) {
      TopUp(g, best, src, up);
      var x :| Sends(g, up, x) && forall s :: Outlet(x, s) <==> Outlet(src, s);
      BelowTop(g, best, up, x);
      assert Sends(g, x, dst);
      BelowNext(g, Top(g, best, src), x, dst);
    } else {
      TopOrUp(g, best, src);
      BelowFirst(g, src, dst);
    }
  }

  /** The wait is for a port on the upstream walk that ends at `top`, or for a reader below. */
  ghost predicate Traced(g: Graph, best: seq<nat>, top: Node, a: Wait)
    requires Startable(g) && BestOk(g, best) && WaitOk(g, a)
  {
    match a
    case ForReader(dst) => Below(g, top, dst)
    case ForOutput(src) => Top(g, best, src) == top
  }

  lemma LeadsTraced(g: Graph, best: seq<nat>, top: Node, a: Wait, b: Wait)
    requires Startable(g) && BestOk(g, best) && WaitOk(g, a) && Traced(g, best, top, a)
    requires WaitOk(g, b) && Leads(g, best, a, b)
    ensures Traced(g, best, top, b)
  {
    hide Startable, BestOk, Below, Sends;
    if a.ForReader? {
      BelowNext(g, top, a.dst, b.dst);
    } else if b.ForReader? {
      BelowTop(g, best, a.src, b.dst);
    } else {
      TopUp(g, best, a.src, b.src);
    }
  }

  lemma {:induction false} ChainTraced(g: Graph, best: seq<nat>, top: Node, c: seq<Wait>, i: nat)
    requires Startable(g) && BestOk(g, best) && IsChain(g, best, c) && i < |c| && Traced(g, best, top, c[0])
    ensures Traced(g, best, top, c[i])
  {
    hide Startable, BestOk, Traced, Leads;
    if i == 0 {
    } else {
      ChainTraced(g, best, top, c, i - 1);
      assert Leads(g, best, c[i - 1], c[i - 1 + 1]);
      LeadsTraced(g, best, top, c[i - 1], c[i]);
    }
  }

  lemma ComesTraced(g: Graph, best: seq<nat>, src: Node, z: Wait)
    requires Startable(g) && BestOk(g, best) && ValidSrc(g, src) && Comes(g, best, ForOutput(src), z)
    ensures WaitOk(g, z) && Traced(g, best, Top(g, best, src), z)
  {
    hide Startable, BestOk, Leads;
    var c :| IsChain(g, best, c) && c[0] == ForOutput(src) && c[|c| - 1] == z;
    ChainTraced(g, best, Top(g, best, src), c, |c| - 1);
  }

  lemma {:induction false} ComesByTop(g: Graph, best: seq<nat>, src: Node, z: Wait)
    requires Startable(g) && BestOk(g, best) && ValidSrc(g, src)
    requires Comes(g, best, ForOutput(Top(g, best, src)), z)
    ensures Comes(g, best, ForOutput(src), z)
    decreases Rank(g, src), ChainLength(g, src)
  {
    hide Startable, BestOk, Comes;
    TopOrUp(g, best, src);
    if src != Top(g, best, src) {
      var up :| Wants(g, best, src, up);
      TopUp(g, best, src, up);
      ComesByTop(g, best, up, z);
      ComesFirst(g, best, ForOutput(src), ForOutput(up), z);
    }
  }

  lemma {:induction false} ComesDown(g: Graph, best: seq<nat>, q: seq<Node>)
    requires Startable(g) && BestOk(g, best) && IsFlow(g, q) && ValidDst(g, q[0])
    ensures Comes(g, best, ForReader(q[0]), ForReader(q[|q| - 1]))
  {
    assert Linked(g);
    hide Startable, BestOk, Comes, Sends;
    if |q| == 1 {
      ComesItself(g, best, ForReader(q[0]));
    } else {
      FlowTail(g, q);
      SendsValid(g, q[0], q[1]);
      ComesDown(g, best, q[1..]);
      ComesFirst(g, best, ForReader(q[0]), ForReader(q[1]), ForReader(q[|q| - 1]));
    }
  }

  /** A filtergraph that wants to be scheduled directly is below the end of the upstream walk. */
  ghost predicate DirectBelow(g: Graph, best: seq<nat>, src: Node, f: nat)
    requires Startable(g) && BestOk(g, best) && ValidSrc(g, src)
  {
    Direct(g, best, f) && FilterBelow(g, Top(g, best, src), f)
  }

  lemma DirectIsAwaited(g: Graph, best: seq<nat>, src: Node, f: nat)
    requires Startable(g) && BestOk(g, best) && ValidSrc(g, src) && DirectBelow(g, best, src, f)
    ensures Awaited(g, best, ForOutput(src), FilterTask(f))
  {
    assert Linked(g);
    hide Startable, BestOk, Sends, Comes;
    var top := Top(g, best, src);
    var j :| Below(g, top, FilterIn(f, j));
    var q :| IsFlow(g, q) && |q| >= 2 && q[0] == top && q[|q| - 1] == FilterIn(f, j);
    FlowTail(g, q);
    SendsValid(g, top, q[1]);
    ComesDown(g, best, q[1..]);
    ComesFirst(g, best, ForOutput(top), ForReader(q[1]), ForReader(FilterIn(f, j)));
    ComesByTop(g, best, src, ForReader(FilterIn(f, j)));
  }

  /** Whoever waits for something from `src` waits, in the end, for the task at the end of the
      upstream walk, or for a filtergraph anywhere below it that wants to be scheduled directly;
      and for each of them under some fill of the queues. */
  lemma AwaitedIff(g: Graph, best: seq<nat>, src: Node, w: Task)
    requires Startable(g) && BestOk(g, best) && ValidSrc(g, src)
    ensures Awaited(g, best, ForOutput(src), w) <==>
      w == Origin(g, best, src) || (w.FilterTask? && DirectBelow(g, best, src, w.idx))
  {
    hide Startable, BestOk, Below, Comes;
    var top := Top(g, best, src);
    if Awaited(g, best, ForOutput(src), w) {
      var z :| Comes(g, best, ForOutput(src), z) && Awaits(g, best, z, w);
      ComesTraced(g, best, src, z);
      if z.ForOutput? {
        OriginStep(g, best, z.src);
        SameOrigin(g, best, z.src, src);
      } else {
        assert Below(g, top, FilterIn(z.dst.idx, z.dst.stream));
      }
    }
    if w == Origin(g, best, src) {
      ComesItself(g, best, ForOutput(top));
      ComesByTop(g, best, src, ForOutput(top));
    }
    if w.FilterTask? && DirectBelow(g, best, src, w.idx) {
      DirectIsAwaited(g, best, src, w.idx);
    }
  }
}
