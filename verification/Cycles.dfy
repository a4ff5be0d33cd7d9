/** Paths and cycles in the relation "a filtergraph input is fed, through
    decoders and encoders, by another filtergraph". */
module Cycles {
  import opened Topology

  /** What sch_start has established before it looks for cycles, plus the end of
      every decoder/encoder chain, which it relies on. */
  ghost predicate Ready(g: Graph) {
    Linked(g) && FullyConnected(g) && ChainsEnd(g)
  }

  ghost function End(g: Graph, src: Node): Node
    requires Ready(g) && ValidSrc(g, src)
  {
    Resolve(g, src, ChainBound(g))
  }

  lemma {:induction false} ResolveValid(g: Graph, src: Node, n: nat)
    requires Ready(g) && ValidSrc(g, src) && Resolves(g, src, n)
    ensures ValidSrc(g, Resolve(g, src, n))
    decreases n
  {
    ConnectedPorts(g);
    match src
    case DecOut(i, _) =>
      assert ValidDst(g, DecIn(i));
      ResolveValid(g, g.dec[i].src, n - 1);
    case Enc(i) =>
      assert ValidDst(g, Enc(i));
      ResolveValid(g, g.enc[i].src, n - 1);
    case _ =>
  }

  lemma EndStep(g: Graph, src: Node)
    requires Ready(g) && ValidSrc(g, src)
    ensures ValidSrc(g, End(g, src))
    ensures src.DecOut? ==> ValidSrc(g, g.dec[src.idx].src) && End(g, src) == End(g, g.dec[src.idx].src)
    ensures src.Enc? ==> ValidSrc(g, g.enc[src.idx].src) && End(g, src) == End(g, g.enc[src.idx].src)
    ensures src.Demux? || src.FilterOut? ==> End(g, src) == src
  {
    var n := ChainBound(g);
    ResolveValid(g, src, n);
    ConnectedPorts(g);
    match src
    case DecOut(i, _) =>
      assert ValidDst(g, DecIn(i));
      ResolveStable(g, g.dec[i].src, n - 1, n);
    case Enc(i) =>
      assert ValidDst(g, Enc(i));
      ResolveStable(g, g.enc[i].src, n - 1, n);
    case _ =>
  }

  ghost function Inputs(g: Graph, x: nat): seq<Node>
    requires x < |g.filters|
  {
    g.filters[x].inputs
  }

  lemma InputValid(g: Graph, x: nat, j: nat)
    requires Ready(g) && x < |g.filters| && j < |Inputs(g, x)|
    ensures ValidSrc(g, Inputs(g, x)[j])
  {
    ConnectedPorts(g);
    assert ValidDst(g, FilterIn(x, j));
  }

  /** The demuxer or filtergraph port that feeds input j of filtergraph x. */
  ghost function Feeder(g: Graph, x: nat, j: nat): Node
    requires Ready(g) && x < |g.filters| && j < |Inputs(g, x)|
  {
    InputValid(g, x, j);
    End(g, Inputs(g, x)[j])
  }

  ghost predicate FedBy(g: Graph, x: nat, j: nat, y: nat)
    requires Ready(g) && x < |g.filters| && j < |Inputs(g, x)|
  {
    Feeder(g, x, j).FilterOut? && Feeder(g, x, j).idx == y
  }

  ghost predicate Feeds(g: Graph, x: nat, y: nat)
    requires Ready(g)
  {
    x < |g.filters| && exists j :: 0 <= j < |Inputs(g, x)| && FedBy(g, x, j, y)
  }

  lemma FeedsInRange(g: Graph, x: nat, y: nat)
    requires Ready(g) && Feeds(g, x, y)
    ensures y < |g.filters|
  {
    var j :| 0 <= j < |Inputs(g, x)| && FedBy(g, x, j, y);
    InputValid(g, x, j);
    EndStep(g, Inputs(g, x)[j]);
  }

  /** A path leads upstream, from a filtergraph to the ones that feed it. */
  ghost predicate IsPath(g: Graph, p: seq<nat>)
    requires Ready(g)
  {
    && p != []
    && p[0] < |g.filters|
    && forall i :: 0 <= i < |p| - 1 ==> Feeds(g, p[i], p[i + 1])
  }

  ghost predicate HasCycle(g: Graph)
    requires Ready(g)
  {
    exists p: seq<nat> :: IsPath(g, p) && |p| >= 2 && p[0] == p[|p| - 1]
  }

  /** Some path from x visits a filtergraph twice: a cycle is reachable from x. */
  ghost predicate Lasso(g: Graph, x: nat)
    requires Ready(g)
  {
    exists p: seq<nat> :: IsPath(g, p) && p[0] == x && !Distinct(p)
  }

  lemma PathInRange(g: Graph, p: seq<nat>)
    requires Ready(g) && IsPath(g, p)
    ensures Within(p, |g.filters|)
  {
    forall i | 0 <= i < |p|
      ensures p[i] < |g.filters|
    {
      if i > 0 {
        assert Feeds(g, p[i - 1], p[i - 1 + 1]);
        FeedsInRange(g, p[i - 1], p[i]);
      }
    }
  }

  lemma LassoIffCycle(g: Graph)
    requires Ready(g)
    ensures HasCycle(g) <==> exists x: nat :: x < |g.filters| && Lasso(g, x)
  {
    if HasCycle(g) {
      var p: seq<nat> :| IsPath(g, p) && |p| >= 2 && p[0] == p[|p| - 1];
      assert Lasso(g, p[0]);
    }
    if x: nat :| x < |g.filters| && Lasso(g, x) {
      var p: seq<nat> :| IsPath(g, p) && p[0] == x && !Distinct(p);
      var i, j :| 0 <= i < j < |p| && p[i] == p[j];
      PathInRange(g, p);
      var q := p[i..j + 1];
      assert forall k :: 0 <= k < |q| ==> q[k] == p[i + k];
      assert IsPath(g, q);
    }
  }

  /** A filtergraph none of whose feeders reaches a cycle does not reach one. */
  lemma LassoThroughFeeder(g: Graph, x: nat)
    requires Ready(g) && Lasso(g, x)
    ensures exists y: nat :: Feeds(g, x, y) && Lasso(g, y)
  {
    var p: seq<nat> :| IsPath(g, p) && p[0] == x && !Distinct(p);
    var i, j :| 0 <= i < j < |p| && p[i] == p[j];
    var y := p[1];
    assert Feeds(g, p[0], p[0 + 1]);
    FeedsInRange(g, x, y);
    if i > 0 {
      var q := p[1..];
      assert q[i - 1] == q[j - 1];
      assert IsPath(g, q);
    } else {
      var q := p[1..j + 1] + [y];
      assert q[0] == q[j];
      assert IsPath(g, q);
    }
  }

  // --- heights: acyclic graphs have a rank -------------------------------------

  ghost predicate HasPathOfLength(g: Graph, x: nat, n: nat)
    requires Ready(g)
  {
    exists p: seq<nat> :: IsPath(g, p) && p[0] == x && |p| == n
  }

  ghost function LongestUpTo(g: Graph, x: nat, n: nat): (h: nat)
    requires Ready(g)
    ensures h <= n
    ensures h > 0 ==> HasPathOfLength(g, x, h)
    ensures forall k: nat :: h < k <= n ==> !HasPathOfLength(g, x, k)
  {
    if n == 0 || HasPathOfLength(g, x, n) then n else LongestUpTo(g, x, n - 1)
  }

  /** The number of filtergraphs on the longest path upstream of x. */
  ghost function Height(g: Graph, x: nat): nat
    requires Ready(g)
  {
    LongestUpTo(g, x, |g.filters|)
  }

  lemma AcyclicPathShort(g: Graph, p: seq<nat>)
    requires Ready(g) && !HasCycle(g) && IsPath(g, p)
    ensures |p| <= |g.filters|
  {
    PathInRange(g, p);
    if !Distinct(p) {
      assert Lasso(g, p[0]);
      LassoIffCycle(g);
    }
    Pigeonhole(p, |g.filters|);
  }

  /** On a graph the cycle check accepts, every feeder is strictly lower. */
  lemma FeederIsLower(g: Graph, x: nat, y: nat)
    requires Ready(g) && !HasCycle(g) && Feeds(g, x, y)
    ensures Height(g, y) < Height(g, x)
  {
    FeedsInRange(g, x, y);
    assert IsPath(g, [y]);
    assert HasPathOfLength(g, y, 1);
    var h := Height(g, y);
    assert h > 0;
    var p: seq<nat> :| IsPath(g, p) && p[0] == y && |p| == h;
    var q := [x] + p;
    assert IsPath(g, q);
    AcyclicPathShort(g, q);
    assert HasPathOfLength(g, x, h + 1);
  }
}
