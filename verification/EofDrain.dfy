/** What the cycle check is for: the end of the inputs reaches every output.

    A decoder, encoder or filtergraph task ends when all its inputs have ended, and
    then ends all its outputs. */
module EofDrain {
  import opened Topology
  import opened Cycles

  datatype Component = DemuxC(idx: nat) | DecC(idx: nat) | EncC(idx: nat) | FilterC(idx: nat)

  /** The component behind a source port. */
  function OwnerOf(src: Node): Component
    requires src.Demux? || src.DecOut? || src.Enc? || src.FilterOut?
  {
    match src
    case Demux(i, _) => DemuxC(i)
    case DecOut(i, _) => DecC(i)
    case Enc(i) => EncC(i)
    case FilterOut(i, _) => FilterC(i)
  }

  predicate IsComponent(g: Graph, c: Component) {
    match c
    case DemuxC(i) => i < |g.demux|
    case DecC(i) => i < |g.dec|
    case EncC(i) => i < |g.enc|
    case FilterC(i) => i < |g.filters|
  }

  ghost predicate SourceEnded(g: Graph, ended: set<Component>, dst: Node)
    requires Ready(g) && ValidDst(g, dst)
  {
    ConnectedPorts(g);
    OwnerOf(SrcOf(g, dst)) in ended
  }

  ghost predicate InputsEnded(g: Graph, ended: set<Component>, c: Component)
    requires Ready(g) && IsComponent(g, c)
  {
    match c
    case DemuxC(_) => true
    case DecC(i) => SourceEnded(g, ended, DecIn(i))
    case EncC(i) => SourceEnded(g, ended, Enc(i))
    case FilterC(i) => forall j: nat :: j < |Inputs(g, i)| ==> SourceEnded(g, ended, FilterIn(i, j))
  }

  /** All inputs of the program have ended, and no task that could end is left. */
  ghost predicate Settled(g: Graph, ended: set<Component>)
    requires Ready(g)
  {
    forall c :: IsComponent(g, c) && InputsEnded(g, ended, c) ==> c in ended
  }

  ghost predicate Drained(g: Graph, ended: set<Component>)
    requires Ready(g)
  {
    && (forall c :: IsComponent(g, c) ==> c in ended)
    && forall i: nat, j: nat :: i < |g.mux| && j < |g.mux[i]| ==> SourceEnded(g, ended, Mux(i, j))
  }

  // --- what is bound to end --------------------------------------------------------------

  /** Nothing upstream of a port can be waiting for itself. */
  ghost predicate Safe(g: Graph, src: Node)
    requires Ready(g) && ValidSrc(g, src)
  {
    End(g, src).FilterOut? ==> !Lasso(g, End(g, src).idx)
  }

  ghost predicate SafeDst(g: Graph, dst: Node)
    requires Ready(g) && ValidDst(g, dst)
  {
    ConnectedPorts(g);
    Safe(g, SrcOf(g, dst))
  }

  /** What can end when the filtergraphs upstream of which there is a cycle wait for
      one another. */
  ghost function SafeComponents(g: Graph): (r: set<Component>)
    requires Ready(g)
    ensures forall i: nat :: DemuxC(i) in r <==> i < |g.demux|
    ensures forall i: nat :: DecC(i) in r <==> i < |g.dec| && SafeDst(g, DecIn(i))
    ensures forall i: nat :: EncC(i) in r <==> i < |g.enc| && SafeDst(g, Enc(i))
    ensures forall x: nat :: FilterC(x) in r <==> x < |g.filters| && !Lasso(g, x)
  {
    (set i: nat | i < |g.demux| :: DemuxC(i)) +
    (set i: nat | i < |g.dec| && SafeDst(g, DecIn(i)) :: DecC(i)) +
    (set i: nat | i < |g.enc| && SafeDst(g, Enc(i)) :: EncC(i)) +
    (set x: nat | x < |g.filters| && !Lasso(g, x) :: FilterC(x))
  }

  /** Decoders and encoders end with what feeds them. */
  lemma {:induction false} ChainEnds(g: Graph, ended: set<Component>, src: Node)
    requires Ready(g) && Settled(g, ended) && ValidSrc(g, src)
    requires ValidSrc(g, End(g, src)) && OwnerOf(End(g, src)) in ended
    ensures OwnerOf(src) in ended
    decreases Hops(g, src, ChainBound(g))
  {
    EndStep(g, src);
    if src.Demux? || src.FilterOut? {
    } else {
      ResolveStable(g, UpOne(g, src), ChainBound(g) - 1, ChainBound(g));
      ChainEnds(g, ended, UpOne(g, src));
      assert InputsEnded(g, ended, OwnerOf(src));
    }
  }

  lemma PathExtends(g: Graph, p: seq<nat>, y: nat)
    requires Ready(g) && IsPath(g, p) && Feeds(g, p[|p| - 1], y)
    ensures IsPath(g, p + [y])
  {
    var q := p + [y];
    forall i | 0 <= i < |q| - 1
      ensures Feeds(g, q[i], q[i + 1])
    {
      if i < |p| - 1 {
        assert Feeds(g, p[i], p[i + 1]);
      }
    }
  }

  lemma PathIsShort(g: Graph, p: seq<nat>)
    requires Ready(g) && IsPath(g, p) && !Lasso(g, p[0])
    ensures |p| <= |g.filters|
  {
    PathInRange(g, p);
    assert Distinct(p);
    Pigeonhole(p, |g.filters|);
  }

  /** A filtergraph with no cycle upstream is bound to end: each path upstream of it visits
      different filtergraphs, so it comes to an end itself. */
  lemma {:induction false} SafePathEnds(g: Graph, ended: set<Component>, p: seq<nat>)
    requires Ready(g) && Settled(g, ended) && IsPath(g, p) && !Lasso(g, p[0])
    ensures FilterC(p[|p| - 1]) in ended
    ensures |p| <= |g.filters|
    decreases |g.filters| - |p|
  {
    PathInRange(g, p);
    PathIsShort(g, p);
    var x := p[|p| - 1];
    assert x < |g.filters|;
    forall j: nat | j < |Inputs(g, x)|
      ensures SourceEnded(g, ended, FilterIn(x, j))
    {
      InputValid(g, x, j);
      var src := Inputs(g, x)[j];
      EndStep(g, src);
      var e := End(g, src);
      assert SrcOf(g, FilterIn(x, j)) == src;
      if e.FilterOut? {
        assert FedBy(g, x, j, e.idx);
        assert Feeds(g, x, e.idx);
        PathExtends(g, p, e.idx);
        PathIsShort(g, p + [e.idx]);
        SafePathEnds(g, ended, p + [e.idx]);
      } else {
        assert InputsEnded(g, ended, DemuxC(e.idx));
      }
      ChainEnds(g, ended, src);
    }
    assert InputsEnded(g, ended, FilterC(x));
  }

  lemma SafeSourceEnds(g: Graph, ended: set<Component>, src: Node)
    requires Ready(g) && Settled(g, ended) && ValidSrc(g, src) && Safe(g, src)
    ensures OwnerOf(src) in ended
  {
    EndStep(g, src);
    var e := End(g, src);
    if e.FilterOut? {
      assert IsPath(g, [e.idx]);
      SafePathEnds(g, ended, [e.idx]);
    } else {
      assert InputsEnded(g, ended, DemuxC(e.idx));
    }
    ChainEnds(g, ended, src);
  }

  lemma OwnerSafe(g: Graph, src: Node)
    requires Ready(g) && ValidSrc(g, src)
    ensures OwnerOf(src) in SafeComponents(g) <==> Safe(g, src)
  {
    EndStep(g, src);
    ConnectedPorts(g);
    match src
    case DecOut(i, _) => assert ValidDst(g, DecIn(i));
    case Enc(i) => assert ValidDst(g, Enc(i));
    case _ =>
  }

  lemma SafeComponentsSettle(g: Graph)
    requires Ready(g)
    ensures Settled(g, SafeComponents(g))
  {
    var ended := SafeComponents(g);
    ConnectedPorts(g);
    forall c | IsComponent(g, c) && InputsEnded(g, ended, c)
      ensures c in ended
    {
      match c
      case DemuxC(_) =>
      case DecC(i) =>
        assert ValidDst(g, DecIn(i));
        OwnerSafe(g, SrcOf(g, DecIn(i)));
      case EncC(i) =>
        assert ValidDst(g, Enc(i));
        OwnerSafe(g, SrcOf(g, Enc(i)));
      case FilterC(x) =>
        if Lasso(g, x) {
          LassoThroughFeeder(g, x);
          var y: nat :| Feeds(g, x, y) && Lasso(g, y);
          var j: nat :| j < |Inputs(g, x)| && FedBy(g, x, j, y);
          assert SourceEnded(g, ended, FilterIn(x, j));
          InputValid(g, x, j);
          OwnerSafe(g, Inputs(g, x)[j]);
          assert false;
        }
    }
  }

  /** And each of them is bound to end: they are the smallest settled set. */
  lemma SafeComponentsEnd(g: Graph, ended: set<Component>)
    requires Ready(g) && Settled(g, ended)
    ensures SafeComponents(g) <= ended
  {
    ConnectedPorts(g);
    forall c | c in SafeComponents(g)
      ensures c in ended
    {
      match c
      case DemuxC(_) => assert InputsEnded(g, ended, c);
      case DecC(i) =>
        assert ValidDst(g, DecIn(i));
        SafeSourceEnds(g, ended, SrcOf(g, DecIn(i)));
        assert InputsEnded(g, ended, c);
      case EncC(i) =>
        assert ValidDst(g, Enc(i));
        SafeSourceEnds(g, ended, SrcOf(g, Enc(i)));
        assert InputsEnded(g, ended, c);
      case FilterC(x) =>
        assert IsPath(g, [x]);
        SafePathEnds(g, ended, [x]);
    }
  }

  // --- the graphs that drain -------------------------------------------------------------

  lemma AcyclicDrains(g: Graph, ended: set<Component>)
    requires Ready(g) && !HasCycle(g) && Settled(g, ended)
    ensures Drained(g, ended)
  {
    ConnectedPorts(g);
    LassoIffCycle(g);
    forall src | ValidSrc(g, src)
      ensures Safe(g, src)
    {
      EndStep(g, src);
    }
    SafeComponentsEnd(g, ended);
    forall c | IsComponent(g, c)
      ensures c in SafeComponents(g)
    {
      match c
      case DemuxC(_) =>
      case DecC(i) => assert ValidDst(g, DecIn(i));
      case EncC(i) => assert ValidDst(g, Enc(i));
      case FilterC(_) =>
    }
    forall i: nat, j: nat | i < |g.mux| && j < |g.mux[i]|
      ensures SourceEnded(g, ended, Mux(i, j))
    {
      assert ValidDst(g, Mux(i, j));
      SafeSourceEnds(g, ended, SrcOf(g, Mux(i, j)));
    }
  }

  /** The end of all inputs is bound to reach every task and every muxer stream
      exactly in the graphs that check_acyclic accepts. */
  lemma DrainsIffAcyclic(g: Graph)
    requires Ready(g)
    ensures (forall ended :: Settled(g, ended) ==> Drained(g, ended)) <==> !HasCycle(g)
  {
    if HasCycle(g) {
      LassoIffCycle(g);
      var x: nat :| x < |g.filters| && Lasso(g, x);
      SafeComponentsSettle(g);
      assert IsComponent(g, FilterC(x)) && FilterC(x) !in SafeComponents(g);
      assert !Drained(g, SafeComponents(g));
    } else {
      forall ended | Settled(g, ended)
        ensures Drained(g, ended)
      {
        AcyclicDrains(g, ended);
      }
    }
  }
}
