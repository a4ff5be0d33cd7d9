/** The transcoding graph: which component feeds which.

    Every component records its links twice, as the destination list of the
    sender and as the source field of the receiver.  `Connect` writes both. */
module Topology {

  /** A port of a component.  A decoder has one input and several outputs; both
      are SCH_NODE_TYPE_DEC in the program, told apart here. */
  datatype Node =
    | Unset
    | Demux(idx: nat, stream: nat)
    | Mux(idx: nat, stream: nat)
    | DecIn(idx: nat)
    | DecOut(idx: nat, stream: nat)
    | Enc(idx: nat)
    | FilterIn(idx: nat, stream: nat)
    | FilterOut(idx: nat, stream: nat)

  datatype DecLinks = DecLinks(src: Node, outputs: seq<seq<Node>>)
  datatype EncLinks = EncLinks(src: Node, dst: seq<Node>)
  datatype FilterLinks = FilterLinks(inputs: seq<Node>, outputs: seq<Node>)

  datatype Graph = Graph(
    demux: seq<seq<seq<Node>>>,
    mux: seq<seq<Node>>,
    dec: seq<DecLinks>,
    enc: seq<EncLinks>,
    filters: seq<FilterLinks>)

  predicate ValidSrc(g: Graph, n: Node) {
    match n
    case Demux(i, s) => i < |g.demux| && s < |g.demux[i]|
    case DecOut(i, s) => i < |g.dec| && s < |g.dec[i].outputs|
    case Enc(i) => i < |g.enc|
    case FilterOut(i, s) => i < |g.filters| && s < |g.filters[i].outputs|
    case _ => false
  }

  predicate ValidDst(g: Graph, n: Node) {
    match n
    case Mux(i, s) => i < |g.mux| && s < |g.mux[i]|
    case DecIn(i) => i < |g.dec|
    case Enc(i) => i < |g.enc|
    case FilterIn(i, s) => i < |g.filters| && s < |g.filters[i].inputs|
    case _ => false
  }

  /** Packets go to decoders and muxers, frames to filtergraphs and encoders. */
  predicate Allowed(src: Node, dst: Node) {
    match src
    case Demux(_, _) => dst.DecIn? || dst.Mux?
    case Enc(_) => dst.DecIn? || dst.Mux?
    case DecOut(_, _) => dst.FilterIn? || dst.Enc?
    case FilterOut(_, _) => dst.FilterIn? || dst.Enc?
    case _ => false
  }

  function Dsts(g: Graph, src: Node): seq<Node>
    requires ValidSrc(g, src)
  {
    match src
    case Demux(i, s) => g.demux[i][s]
    case DecOut(i, s) => g.dec[i].outputs[s]
    case Enc(i) => g.enc[i].dst
    case FilterOut(i, s) => if g.filters[i].outputs[s].Unset? then [] else [g.filters[i].outputs[s]]
  }

  function SrcOf(g: Graph, dst: Node): Node
    requires ValidDst(g, dst)
  {
    match dst
    case Mux(i, s) => g.mux[i][s]
    case DecIn(i) => g.dec[i].src
    case Enc(i) => g.enc[i].src
    case FilterIn(i, s) => g.filters[i].inputs[s]
  }

  // --- consistency of the two records -----------------------------------------

  ghost predicate ForwardLinked(g: Graph, s: Node) {
    ValidSrc(g, s) ==>
      forall k :: 0 <= k < |Dsts(g, s)| ==>
        var d := Dsts(g, s)[k];
        ValidDst(g, d) && Allowed(s, d) && SrcOf(g, d) == s
  }

  ghost predicate BackwardLinked(g: Graph, d: Node) {
    ValidDst(g, d) && SrcOf(g, d) != Unset ==>
      ValidSrc(g, SrcOf(g, d)) && Allowed(SrcOf(g, d), d) && d in Dsts(g, SrcOf(g, d))
  }

  ghost predicate Linked(g: Graph) {
    && (forall s :: ForwardLinked(g, s))
    && (forall d :: BackwardLinked(g, d))
  }

  /** What the assertions of sch_connect demand of its caller. */
  predicate CanConnect(g: Graph, src: Node, dst: Node) {
    && ValidSrc(g, src) && ValidDst(g, dst) && Allowed(src, dst)
    && SrcOf(g, dst) == Unset
    && (src.FilterOut? ==> g.filters[src.idx].outputs[src.stream] == Unset)
  }

  function AddDst(g: Graph, src: Node, dst: Node): Graph
    requires ValidSrc(g, src)
  {
    match src
    case Demux(i, s) => g.(demux := g.demux[i := g.demux[i][s := g.demux[i][s] + [dst]]])
    case DecOut(i, s) =>
      g.(dec := g.dec[i := g.dec[i].(outputs := g.dec[i].outputs[s := g.dec[i].outputs[s] + [dst]])])
    case Enc(i) => g.(enc := g.enc[i := g.enc[i].(dst := g.enc[i].dst + [dst])])
    case FilterOut(i, s) =>
      g.(filters := g.filters[i := g.filters[i].(outputs := g.filters[i].outputs[s := dst])])
  }

  function SetSrc(g: Graph, src: Node, dst: Node): Graph
    requires ValidDst(g, dst)
  {
    match dst
    case Mux(i, s) => g.(mux := g.mux[i := g.mux[i][s := src]])
    case DecIn(i) => g.(dec := g.dec[i := g.dec[i].(src := src)])
    case Enc(i) => g.(enc := g.enc[i := g.enc[i].(src := src)])
    case FilterIn(i, s) =>
      g.(filters := g.filters[i := g.filters[i].(inputs := g.filters[i].inputs[s := src])])
  }

  lemma AddDstAt(g: Graph, src: Node, dst: Node, n: Node)
    requires ValidSrc(g, src)
    requires src.FilterOut? ==> g.filters[src.idx].outputs[src.stream] == Unset && dst != Unset
    ensures var g' := AddDst(g, src, dst);
      && (ValidSrc(g', n) <==> ValidSrc(g, n))
      && (ValidDst(g', n) <==> ValidDst(g, n))
      && (ValidSrc(g, n) ==> Dsts(g', n) == if n == src then Dsts(g, n) + [dst] else Dsts(g, n))
      && (ValidDst(g, n) ==> SrcOf(g', n) == SrcOf(g, n))
  {
    match src
    case Demux(i, s) =>
    case DecOut(i, s) =>
    case Enc(i) =>
    case FilterOut(i, s) =>
  }

  /** The graph with one more connection. */
  function Connected(g: Graph, src: Node, dst: Node): Graph
    requires CanConnect(g, src, dst)
  {
    AddDstAt(g, src, dst, dst);
    SetSrc(AddDst(g, src, dst), src, dst)
  }

  lemma SetSrcAt(g: Graph, src: Node, dst: Node, n: Node)
    requires ValidDst(g, dst)
    ensures var g' := SetSrc(g, src, dst);
      && (ValidSrc(g', n) <==> ValidSrc(g, n))
      && (ValidDst(g', n) <==> ValidDst(g, n))
      && (ValidSrc(g, n) ==> Dsts(g', n) == Dsts(g, n))
      && (ValidDst(g, n) ==> SrcOf(g', n) == if n == dst then src else SrcOf(g, n))
  {
    match dst
    case Mux(i, s) =>
    case DecIn(i) =>
    case Enc(i) =>
    case FilterIn(i, s) =>
  }

  /** Connecting adds exactly one link: `dst` is appended to the destinations of
      `src`, `src` becomes the source of `dst`, and nothing else changes. */
  lemma ConnectAddsOneLink(g: Graph, src: Node, dst: Node, n: Node)
    requires CanConnect(g, src, dst)
    ensures ValidDst(AddDst(g, src, dst), dst)
    ensures var g' := Connected(g, src, dst);
      && (ValidSrc(g', n) <==> ValidSrc(g, n))
      && (ValidDst(g', n) <==> ValidDst(g, n))
      && (ValidSrc(g, n) ==> Dsts(g', n) == if n == src then Dsts(g, n) + [dst] else Dsts(g, n))
      && (ValidDst(g, n) ==> SrcOf(g', n) == if n == dst then src else SrcOf(g, n))
  {
    AddDstAt(g, src, dst, dst);
    AddDstAt(g, src, dst, n);
    SetSrcAt(AddDst(g, src, dst), src, dst, n);
  }

  lemma ConnectKeepsForward(g: Graph, src: Node, dst: Node, s: Node)
    requires CanConnect(g, src, dst) && Linked(g)
    ensures ForwardLinked(Connected(g, src, dst), s)
  {
    var g' := Connected(g, src, dst);
    ConnectAddsOneLink(g, src, dst, s);
    if ValidSrc(g', s) {
      forall k | 0 <= k < |Dsts(g', s)|
        ensures var d := Dsts(g', s)[k];
          ValidDst(g', d) && Allowed(s, d) && SrcOf(g', d) == s
      {
        assert ForwardLinked(g, s);
        ConnectAddsOneLink(g, src, dst, Dsts(g', s)[k]);
      }
    }
  }

  lemma ConnectKeepsBackward(g: Graph, src: Node, dst: Node, d: Node)
    requires CanConnect(g, src, dst) && Linked(g)
    ensures BackwardLinked(Connected(g, src, dst), d)
  {
    var g' := Connected(g, src, dst);
    ConnectAddsOneLink(g, src, dst, d);
    if ValidDst(g', d) && SrcOf(g', d) != Unset {
      ConnectAddsOneLink(g, src, dst, SrcOf(g', d));
      assert BackwardLinked(g, d);
    }
  }

  /** Whatever sequence of connections builds a graph, its two records agree. */
  lemma ConnectKeepsLinked(g: Graph, src: Node, dst: Node)
    requires CanConnect(g, src, dst) && Linked(g)
    ensures Linked(Connected(g, src, dst))
  {
    var g' := Connected(g, src, dst);
    forall s ensures ForwardLinked(g', s) {
      ConnectKeepsForward(g, src, dst, s);
    }
    forall d ensures BackwardLinked(g', d) {
      ConnectKeepsBackward(g, src, dst, d);
    }
  }

  /** Each destination is listed by one source only: the one it names. */
  lemma OneSourcePerDst(g: Graph, s: Node, t: Node, d: Node)
    requires Linked(g) && ValidSrc(g, s) && ValidSrc(g, t)
    requires d in Dsts(g, s) && d in Dsts(g, t)
    ensures s == t
  {
    assert ForwardLinked(g, s) && ForwardLinked(g, t);
  }

  // --- completeness, as start_prepare checks it -------------------------------

  predicate DemuxConnected(g: Graph, i: nat)
    requires i < |g.demux|
  {
    forall j :: 0 <= j < |g.demux[i]| ==> g.demux[i][j] != []
  }

  predicate DecConnected(g: Graph, i: nat)
    requires i < |g.dec|
  {
    g.dec[i].src != Unset && forall j :: 0 <= j < |g.dec[i].outputs| ==> g.dec[i].outputs[j] != []
  }

  predicate EncConnected(g: Graph, i: nat)
    requires i < |g.enc|
  {
    g.enc[i].src != Unset && g.enc[i].dst != []
  }

  predicate MuxConnected(g: Graph, i: nat)
    requires i < |g.mux|
  {
    forall j :: 0 <= j < |g.mux[i]| ==> g.mux[i][j] != Unset
  }

  predicate FilterConnected(g: Graph, i: nat)
    requires i < |g.filters|
  {
    && (forall j :: 0 <= j < |g.filters[i].inputs| ==> g.filters[i].inputs[j] != Unset)
    && (forall j :: 0 <= j < |g.filters[i].outputs| ==> g.filters[i].outputs[j] != Unset)
  }

  predicate FullyConnected(g: Graph) {
    && (forall i :: 0 <= i < |g.demux| ==> DemuxConnected(g, i))
    && (forall i :: 0 <= i < |g.dec| ==> DecConnected(g, i))
    && (forall i :: 0 <= i < |g.enc| ==> EncConnected(g, i))
    && (forall i :: 0 <= i < |g.mux| ==> MuxConnected(g, i))
    && (forall i :: 0 <= i < |g.filters| ==> FilterConnected(g, i))
  }

  /** Nothing else is asked for. */
  lemma PortsSuffice(g: Graph)
    requires forall s :: ValidSrc(g, s) ==> Dsts(g, s) != []
    requires forall d :: ValidDst(g, d) ==> SrcOf(g, d) != Unset
    ensures FullyConnected(g)
  {
    forall i: nat | i < |g.demux| ensures DemuxConnected(g, i) {
      assert forall j: nat :: j < |g.demux[i]| ==> Dsts(g, Demux(i, j)) == g.demux[i][j];
    }
    forall i: nat | i < |g.dec| ensures DecConnected(g, i) {
      assert ValidDst(g, DecIn(i));
      assert forall j: nat :: j < |g.dec[i].outputs| ==> Dsts(g, DecOut(i, j)) == g.dec[i].outputs[j];
    }
    forall i: nat | i < |g.enc| ensures EncConnected(g, i) {
      assert ValidDst(g, Enc(i)) && ValidSrc(g, Enc(i));
    }
    forall i: nat | i < |g.mux| ensures MuxConnected(g, i) {
      assert forall j: nat :: j < |g.mux[i]| ==> SrcOf(g, Mux(i, j)) == g.mux[i][j];
    }
    forall i: nat | i < |g.filters| ensures FilterConnected(g, i) {
      assert forall j: nat :: j < |g.filters[i].inputs| ==> SrcOf(g, FilterIn(i, j)) == g.filters[i].inputs[j];
      forall j: nat | j < |g.filters[i].outputs| ensures g.filters[i].outputs[j] != Unset {
        assert Dsts(g, FilterOut(i, j)) != [];
      }
    }
  }

  /** In a fully connected graph every port has its partner. */
  lemma ConnectedPorts(g: Graph)
    requires FullyConnected(g) && Linked(g)
    ensures forall s :: ValidSrc(g, s) ==> Dsts(g, s) != []
    ensures forall d :: ValidDst(g, d) ==> ValidSrc(g, SrcOf(g, d)) && Allowed(SrcOf(g, d), d)
  {
    forall s | ValidSrc(g, s)
      ensures Dsts(g, s) != []
    {
      match s
      case Demux(i, _) => assert DemuxConnected(g, i);
      case DecOut(i, _) => assert DecConnected(g, i);
      case Enc(i) => assert EncConnected(g, i);
      case FilterOut(i, _) => assert FilterConnected(g, i);
    }
    forall d | ValidDst(g, d)
      ensures ValidSrc(g, SrcOf(g, d)) && Allowed(SrcOf(g, d), d)
    {
      assert BackwardLinked(g, d);
      match d
      case Mux(i, _) => assert MuxConnected(g, i);
      case DecIn(i) => assert DecConnected(g, i);
      case Enc(i) => assert EncConnected(g, i);
      case FilterIn(i, _) => assert FilterConnected(g, i);
    }
  }

  // --- decoder and encoder chains ----------------------------------------------

  /** `src` leads, by at most `n` steps from a decoder or encoder to its own
      source, to a demuxer or a filtergraph. */
  predicate Resolves(g: Graph, src: Node, n: nat)
    decreases n
  {
    match src
    case Demux(_, _) => true
    case FilterOut(_, _) => true
    case DecOut(i, _) => i < |g.dec| && n > 0 && Resolves(g, g.dec[i].src, n - 1)
    case Enc(i) => i < |g.enc| && n > 0 && Resolves(g, g.enc[i].src, n - 1)
    case _ => false
  }

  function ChainBound(g: Graph): nat { |g.dec| + |g.enc| }

  /** Every walk from a source to what feeds it ends.  Rings.ChainsEndIffNoRing says when. */
  ghost predicate ChainsEnd(g: Graph) {
    forall s :: ValidSrc(g, s) ==> Resolves(g, s, ChainBound(g))
  }

  /** What a decoder or encoder is fed by. */
  function UpOne(g: Graph, src: Node): Node
    requires ValidSrc(g, src) && (src.DecOut? || src.Enc?)
  {
    if src.DecOut? then g.dec[src.idx].src else g.enc[src.idx].src
  }

  lemma ResolvesMore(g: Graph, src: Node, n: nat, m: nat)
    requires Resolves(g, src, n) && n <= m
    ensures Resolves(g, src, m)
    decreases n
  {
    match src
    case DecOut(i, _) => ResolvesMore(g, g.dec[i].src, n - 1, m - 1);
    case Enc(i) => ResolvesMore(g, g.enc[i].src, n - 1, m - 1);
    case _ =>
  }

  /** The end of the chain. */
  ghost function Resolve(g: Graph, src: Node, n: nat): (r: Node)
    requires Resolves(g, src, n)
    ensures r.Demux? || r.FilterOut?
    decreases n
  {
    if src.DecOut? then Resolve(g, g.dec[src.idx].src, n - 1)
    else if src.Enc? then Resolve(g, g.enc[src.idx].src, n - 1)
    else src
  }

  /** The length of the chain. */
  ghost function Hops(g: Graph, src: Node, n: nat): (h: nat)
    requires Resolves(g, src, n)
    ensures h <= n
    decreases n
  {
    if src.DecOut? then 1 + Hops(g, g.dec[src.idx].src, n - 1)
    else if src.Enc? then 1 + Hops(g, g.enc[src.idx].src, n - 1)
    else 0
  }

  lemma ResolveStable(g: Graph, src: Node, n: nat, m: nat)
    requires Resolves(g, src, n) && Resolves(g, src, m)
    ensures Resolve(g, src, n) == Resolve(g, src, m)
    ensures Hops(g, src, n) == Hops(g, src, m)
    ensures Resolves(g, src, Hops(g, src, n))
    decreases n
  {
    match src
    case DecOut(i, _) => ResolveStable(g, g.dec[i].src, n - 1, m - 1);
    case Enc(i) => ResolveStable(g, g.enc[i].src, n - 1, m - 1);
    case _ =>
  }

  // --- the bound on chains is no restriction -----------------------------------

  ghost predicate Distinct(s: seq<int>) {
    forall i, j :: 0 <= i < j < |s| ==> s[i] != s[j]
  }

  ghost predicate Within(s: seq<int>, n: nat) {
    forall i :: 0 <= i < |s| ==> 0 <= s[i] < n
  }

  /** Distinct numbers below n are at most n many. */
  lemma {:induction false} Pigeonhole(s: seq<int>, n: nat)
    requires Distinct(s) && Within(s, n)
    ensures |s| <= n
    decreases n
  {
    if s == [] {
      return;
    }
    assert 0 <= s[0] < n;
    if i :| 0 <= i < |s| && s[i] == n - 1 {
      var t := s[..i] + s[i + 1..];
      assert forall k :: 0 <= k < |t| ==> t[k] == if k < i then s[k] else s[k + 1];
      Pigeonhole(t, n - 1);
    } else {
      Pigeonhole(s, n - 1);
    }
  }

  /** Decoders and encoders numbered together. */
  function ChainId(g: Graph, src: Node): int {
    match src
    case DecOut(i, _) => i
    case Enc(i) => |g.dec| + i
    case _ => -1
  }

  lemma SameIdSameHops(g: Graph, s: Node, t: Node, n: nat, m: nat)
    requires Resolves(g, s, n) && Resolves(g, t, m)
    requires ChainId(g, s) == ChainId(g, t) != -1
    ensures Hops(g, s, n) == Hops(g, t, m)
  {
    match s
    case DecOut(i, _) => ResolveStable(g, g.dec[i].src, n - 1, m - 1);
    case Enc(i) => ResolveStable(g, g.enc[i].src, n - 1, m - 1);
  }

  ghost predicate OnChain(g: Graph, id: int, h: nat) {
    exists t, m :: Resolves(g, t, m) && ChainId(g, t) == id && Hops(g, t, m) <= h
  }

  /** The components a chain passes through are distinct: their chains have
      different lengths. */
  lemma {:induction false} ChainIds(g: Graph, src: Node, n: nat) returns (ids: seq<int>)
    requires Resolves(g, src, n)
    ensures |ids| == Hops(g, src, n)
    ensures Distinct(ids) && Within(ids, ChainBound(g))
    ensures forall k :: 0 <= k < |ids| ==> OnChain(g, ids[k], Hops(g, src, n))
    decreases n
  {
    if src.Demux? || src.FilterOut? {
      ids := [];
    } else {
      var next := if src.DecOut? then g.dec[src.idx].src else g.enc[src.idx].src;
      var rest := ChainIds(g, next, n - 1);
      ids := [ChainId(g, src)] + rest;
      var h := Hops(g, src, n);
      assert OnChain(g, ids[0], h);
      forall k | 0 <= k < |rest|
        ensures rest[k] != ids[0] && OnChain(g, rest[k], h)
      {
        var t, m :| Resolves(g, t, m) && ChainId(g, t) == rest[k] && Hops(g, t, m) <= Hops(g, next, n - 1);
        if rest[k] == ids[0] {
          SameIdSameHops(g, src, t, n, m);
        }
      }
    }
  }

  /** Following sources terminates at all exactly if it does within ChainBound
      steps, so ChainsEnd asks no more than that src_filtergraph returns. */
  lemma {:induction false} ChainBoundSuffices(g: Graph, src: Node, n: nat)
    requires Resolves(g, src, n)
    ensures Resolves(g, src, ChainBound(g))
  {
    var ids := ChainIds(g, src, n);
    Pigeonhole(ids, ChainBound(g));
    ResolveStable(g, src, n, n);
    ResolvesMore(g, src, Hops(g, src, n), ChainBound(g));
  }
}
