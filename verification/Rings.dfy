/** Rings of decoders and encoders: when the walk from a decoder or encoder to what feeds
    it ends, and why it does in the graphs that the program builds. */
module Rings {
  import opened Topology

  predicate IsCodec(n: Node) { n.DecOut? || n.Enc? }

  /** Ports of the same decoder or encoder. */
  predicate SameCodec(s: Node, t: Node) {
    (s.DecOut? && t.DecOut? && s.idx == t.idx) || (s.Enc? && t.Enc? && s.idx == t.idx)
  }

  /** Each node but the last is an output of a decoder or encoder, and is followed by what
      feeds that. */
  ghost predicate IsWalk(g: Graph, w: seq<Node>) {
    && w != []
    && forall k :: 0 <= k < |w| - 1 ==> IsCodec(w[k]) && ValidSrc(g, w[k]) && w[k + 1] == UpOne(g, w[k])
  }

  ghost predicate IsRing(g: Graph, w: seq<Node>) {
    IsWalk(g, w) && |w| >= 2 && ValidSrc(g, w[|w| - 1]) && SameCodec(w[0], w[|w| - 1])
  }

  /** Some decoder or encoder feeds itself through other decoders and encoders. */
  ghost predicate HasRing(g: Graph) {
    exists w :: IsRing(g, w)
  }

  // --- a ring is what keeps a walk from ending ---------------------------------------

  /** Each step of a walk brings its end one step nearer. */
  lemma {:induction false} WalkResolves(g: Graph, w: seq<Node>, n: nat)
    requires IsWalk(g, w) && Resolves(g, w[0], n)
    ensures |w| - 1 <= n && Resolves(g, w[|w| - 1], n - (|w| - 1))
    ensures Hops(g, w[0], n) == Hops(g, w[|w| - 1], n - (|w| - 1)) + |w| - 1
    decreases |w|
  {
    if |w| == 1 {
    } else {
      var rest := w[1..];
      assert w[1] == UpOne(g, w[0]);
      assert forall k :: 0 <= k < |rest| - 1 ==>
        IsCodec(rest[k]) && ValidSrc(g, rest[k]) && rest[k + 1] == UpOne(g, rest[k]) by {
        assert forall k :: 0 <= k < |rest| ==> rest[k] == w[k + 1];
      }
      WalkResolves(g, rest, n - 1);
    }
  }

  lemma RingNeverResolves(g: Graph, w: seq<Node>, n: nat)
    requires IsRing(g, w)
    ensures !Resolves(g, w[0], n)
  {
    if Resolves(g, w[0], n) {
      WalkResolves(g, w, n);
      SameIdSameHops(g, w[0], w[|w| - 1], n, n - (|w| - 1));
    }
  }

  /** A walk that has not ended after n steps is n steps long. */
  lemma {:induction false} EndlessWalk(g: Graph, s: Node, n: nat) returns (w: seq<Node>)
    requires Linked(g) && FullyConnected(g) && ValidSrc(g, s) && !Resolves(g, s, n)
    ensures IsWalk(g, w) && |w| == n + 1 && w[0] == s
    ensures forall k :: 0 <= k < |w| ==> IsCodec(w[k]) && ValidSrc(g, w[k])
    decreases n
  {
    if n == 0 {
      w := [s];
    } else {
      var up := UpOne(g, s);
      assert ValidSrc(g, up) by {
        ConnectedPorts(g);
        assert ValidDst(g, if s.DecOut? then DecIn(s.idx) else s);
      }
      var rest := EndlessWalk(g, up, n - 1);
      w := [s] + rest;
      assert forall k :: 0 < k < |w| ==> w[k] == rest[k - 1];
    }
  }

  lemma SegmentIsRing(g: Graph, w: seq<Node>, i: nat, j: nat)
    requires IsWalk(g, w) && i < j < |w| && ValidSrc(g, w[j]) && SameCodec(w[i], w[j])
    ensures HasRing(g)
  {
    var ring := w[i..j + 1];
    assert forall k :: 0 <= k < |ring| ==> ring[k] == w[i + k];
    assert IsRing(g, ring);
  }

  /** One that is longer than there are decoders and encoders goes round in a ring. */
  lemma LongWalkHasRing(g: Graph, w: seq<Node>)
    requires IsWalk(g, w) && |w| > ChainBound(g)
    requires forall k :: 0 <= k < |w| ==> IsCodec(w[k]) && ValidSrc(g, w[k])
    ensures HasRing(g)
  {
    var ids := seq(|w|, k requires 0 <= k < |w| => ChainId(g, w[k]));
    assert Within(ids, ChainBound(g));
    if Distinct(ids) {
      Pigeonhole(ids, ChainBound(g));
    }
    var i, j :| 0 <= i < j < |ids| && ids[i] == ids[j];
    assert SameCodec(w[i], w[j]);
    hide IsWalk, HasRing, Distinct, Within;
    SegmentIsRing(g, w, i, j);
  }

  /** In a graph that passes the connection checks, following sources always ends if and
      only if no decoder or encoder feeds itself. */
  lemma ChainsEndIffNoRing(g: Graph)
    requires Linked(g) && FullyConnected(g)
    ensures ChainsEnd(g) <==> !HasRing(g)
  {
    if HasRing(g) {
      var w: seq<Node> :| IsRing(g, w);
      RingNeverResolves(g, w, ChainBound(g));
      assert ValidSrc(g, w[0]);
    } else if !ChainsEnd(g) {
      var s :| ValidSrc(g, s) && !Resolves(g, s, ChainBound(g));
      var w := EndlessWalk(g, s, ChainBound(g));
      LongWalkHasRing(g, w);
    }
  }

  /** The checks do not look for rings: this graph is linked, fully connected and has no
      filtergraph at all. */
  lemma DecEncRing()
    ensures var ring := Graph([], [], [DecLinks(Enc(0), [[Enc(0)]])], [EncLinks(DecOut(0, 0), [DecIn(0)])], []);
      Linked(ring) && FullyConnected(ring) && HasRing(ring)
  {
    var ring := Graph([], [], [DecLinks(Enc(0), [[Enc(0)]])], [EncLinks(DecOut(0, 0), [DecIn(0)])], []);
    forall s ensures ForwardLinked(ring, s) {
    }
    forall d ensures BackwardLinked(ring, d) {
      if d == DecIn(0) {
        assert Dsts(ring, Enc(0))[0] == d;
      } else if d == Enc(0) {
        assert Dsts(ring, DecOut(0, 0))[0] == d;
      }
    }
    assert IsRing(ring, [Enc(0), DecOut(0, 0), Enc(0)]);
  }

  // --- how rings come about ------------------------------------------------------------

  /** An output of the decoder or encoder with input `dst`. */
  predicate OutputOf(n: Node, dst: Node) {
    (dst.DecIn? && n.DecOut? && n.idx == dst.idx) || (dst.Enc? && n == dst)
  }

  /** What feeds `src` is fed by `dst`. */
  ghost predicate ComesFrom(g: Graph, src: Node, dst: Node) {
    exists w :: IsWalk(g, w) && w[0] == src && ValidSrc(g, w[|w| - 1]) && OutputOf(w[|w| - 1], dst)
  }

  /** Connecting changes what one decoder or encoder is fed by. */
  lemma ConnectChangesUp(g: Graph, src: Node, dst: Node, n: Node)
    requires CanConnect(g, src, dst)
    ensures ValidSrc(Connected(g, src, dst), n) <==> ValidSrc(g, n)
    ensures ValidSrc(g, n) && IsCodec(n) ==>
      UpOne(Connected(g, src, dst), n) == if OutputOf(n, dst) then src else UpOne(g, n)
    ensures ValidSrc(g, n) && IsCodec(n) && OutputOf(n, dst) ==> UpOne(g, n) == Unset
  {
    ConnectAddsOneLink(g, src, dst, n);
    if ValidSrc(g, n) && IsCodec(n) {
      ConnectAddsOneLink(g, src, dst, if n.DecOut? then DecIn(n.idx) else n);
    }
  }

  /** A walk that does not go on from `dst` is not affected. */
  lemma SameWalk(g: Graph, src: Node, dst: Node, w: seq<Node>)
    requires CanConnect(g, src, dst) && w != []
    requires forall k :: 0 <= k < |w| - 1 ==> !OutputOf(w[k], dst)
    ensures IsWalk(Connected(g, src, dst), w) <==> IsWalk(g, w)
  {
    var g' := Connected(g, src, dst);
    forall k | 0 <= k < |w| - 1
      ensures IsCodec(w[k]) && ValidSrc(g, w[k]) && w[k + 1] == UpOne(g, w[k]) <==>
        IsCodec(w[k]) && ValidSrc(g', w[k]) && w[k + 1] == UpOne(g', w[k])
    {
      ConnectChangesUp(g, src, dst, w[k]);
    }
  }

  /** While `dst` is not connected, a walk to a decoder or encoder does not pass it. */
  lemma WalkStopsAt(g: Graph, src: Node, dst: Node, w: seq<Node>)
    requires CanConnect(g, src, dst) && IsWalk(g, w) && IsCodec(w[|w| - 1])
    ensures forall k :: 0 <= k < |w| - 1 ==> !OutputOf(w[k], dst)
  {
    forall k | 0 <= k < |w| - 1
      ensures !OutputOf(w[k], dst)
    {
      ConnectChangesUp(g, src, dst, w[k]);
      assert IsCodec(w[k + 1]) && w[k + 1] == UpOne(g, w[k]);
    }
  }

  /** A ring through `dst`, cut open there. */
  lemma CutRing(g: Graph, w: seq<Node>, dst: Node, k: nat) returns (r: seq<Node>)
    requires IsRing(g, w) && k < |w| - 1 && OutputOf(w[k], dst)
    ensures IsWalk(g, r) && r[0] == w[k + 1] && ValidSrc(g, r[|r| - 1]) && OutputOf(r[|r| - 1], dst)
  {
    if k == 0 {
      r := w[1..];
      assert forall i :: 0 <= i < |r| ==> r[i] == w[i + 1];
      if |r| > 1 {
        assert IsCodec(r[0]);
      }
    } else {
      var a := w[k + 1..];
      r := a + w[1..k + 1];
      var m := |a| - 1;
      assert forall i :: 0 <= i < |a| ==> r[i] == w[k + 1 + i];
      assert forall i :: |a| <= i < |r| ==> r[i] == w[i - m];
      assert r[|r| - 1] == w[k];
      forall i | 0 <= i < |r| - 1
        ensures IsCodec(r[i]) && ValidSrc(g, r[i]) && r[i + 1] == UpOne(g, r[i])
      {
        if i < m {
          assert r[i] == w[k + 1 + i] && r[i + 1] == w[k + 1 + i + 1];
        } else if i == m {
          assert r[i] == w[|w| - 1] && r[i + 1] == w[0 + 1];
        } else {
          assert r[i] == w[i - m] && r[i + 1] == w[i - m + 1];
        }
      }
    }
  }

  /** The first node of a walk that is an output of `dst`. */
  lemma {:induction false} FirstArrival(w: seq<Node>, dst: Node) returns (m: nat)
    requires w != [] && OutputOf(w[|w| - 1], dst)
    ensures m < |w| && OutputOf(w[m], dst) && forall k :: 0 <= k < m ==> !OutputOf(w[k], dst)
    decreases |w|
  {
    if k: nat :| k < |w| - 1 && OutputOf(w[k], dst) {
      m := FirstArrival(w[..k + 1], dst);
      assert forall i :: 0 <= i <= m ==> w[..k + 1][i] == w[i];
    } else {
      m := |w| - 1;
    }
  }

  /** A walk to `dst` closes a ring when that is connected to where it began. */
  lemma ClosingMakesRing(g: Graph, src: Node, dst: Node)
    requires CanConnect(g, src, dst) && ComesFrom(g, src, dst)
    ensures HasRing(Connected(g, src, dst))
  {
    var g' := Connected(g, src, dst);
    var w: seq<Node> :| IsWalk(g, w) && w[0] == src && ValidSrc(g, w[|w| - 1]) && OutputOf(w[|w| - 1], dst);
    WalkStopsAt(g, src, dst, w);
    SameWalk(g, src, dst, w);
    var last := w[|w| - 1];
    ConnectChangesUp(g, src, dst, last);
    var ring := [last] + w;
    assert forall k :: 0 < k < |ring| ==> ring[k] == w[k - 1];
    assert IsRing(g', ring);
  }

  lemma RingStays(g: Graph, src: Node, dst: Node)
    requires CanConnect(g, src, dst) && HasRing(g)
    ensures HasRing(Connected(g, src, dst))
  {
    var w: seq<Node> :| IsRing(g, w);
    WalkStopsAt(g, src, dst, w);
    SameWalk(g, src, dst, w);
    ConnectChangesUp(g, src, dst, w[|w| - 1]);
    assert IsRing(Connected(g, src, dst), w);
  }

  /** A ring that does not go on from `dst` has been there before. */
  lemma RingWasThere(g: Graph, src: Node, dst: Node, w: seq<Node>)
    requires CanConnect(g, src, dst) && IsRing(Connected(g, src, dst), w)
    requires forall k :: 0 <= k < |w| - 1 ==> !OutputOf(w[k], dst)
    ensures HasRing(g)
  {
    SameWalk(g, src, dst, w);
    ConnectChangesUp(g, src, dst, w[|w| - 1]);
    assert IsRing(g, w);
  }

  /** A walk to `dst` in the new graph, up to where it first arrives, is one in the old. */
  lemma ArrivesFrom(g: Graph, src: Node, dst: Node, r: seq<Node>)
    requires CanConnect(g, src, dst) && IsWalk(Connected(g, src, dst), r) && r[0] == src
    requires ValidSrc(Connected(g, src, dst), r[|r| - 1]) && OutputOf(r[|r| - 1], dst)
    ensures ComesFrom(g, src, dst)
  {
    hide Connected, UpOne, CanConnect;
    var m := FirstArrival(r, dst);
    var q := r[..m + 1];
    assert forall i :: 0 <= i <= m ==> q[i] == r[i];
    assert IsWalk(Connected(g, src, dst), q);
    SameWalk(g, src, dst, q);
    ConnectChangesUp(g, src, dst, q[m]);
    assert m < |r| - 1 ==> ValidSrc(Connected(g, src, dst), r[m]);
    assert q[|q| - 1] == q[m];
  }

  lemma RingIsOldOrClosed(g: Graph, src: Node, dst: Node)
    requires CanConnect(g, src, dst) && HasRing(Connected(g, src, dst)) && !HasRing(g)
    ensures ComesFrom(g, src, dst)
  {
    var g' := Connected(g, src, dst);
    var w: seq<Node> :| IsRing(g', w);
    if k: nat :| k < |w| - 1 && OutputOf(w[k], dst) {
      assert IsCodec(w[k]) && w[k + 1] == UpOne(g', w[k]);
      ConnectChangesUp(g, src, dst, w[k]);
      hide Connected, UpOne, ComesFrom, CanConnect;
      var r := CutRing(g', w, dst, k);
      ArrivesFrom(g, src, dst, r);
    } else {
      RingWasThere(g, src, dst, w);
    }
  }

  /** A connection closes a ring if and only if what feeds its source is fed by its
      destination. */
  lemma ConnectRing(g: Graph, src: Node, dst: Node)
    requires CanConnect(g, src, dst)
    ensures HasRing(Connected(g, src, dst)) <==> HasRing(g) || ComesFrom(g, src, dst)
  {
    if HasRing(g) {
      RingStays(g, src, dst);
    } else if ComesFrom(g, src, dst) {
      ClosingMakesRing(g, src, dst);
    } else if HasRing(Connected(g, src, dst)) {
      RingIsOldOrClosed(g, src, dst);
    }
  }

  /** The order in which the program connects: a decoder or encoder is connected to another
      one before it is connected to anything itself. */
  ghost predicate InOrder(g: Graph, src: Node, dst: Node) {
    IsCodec(src) ==> forall n :: ValidSrc(g, n) && OutputOf(n, dst) ==> Dsts(g, n) == []
  }

  /** What feeds a decoder or encoder lists it. */
  lemma FeederIsConnected(g: Graph, n: Node)
    requires Linked(g) && ValidSrc(g, n) && IsCodec(n) && ValidSrc(g, UpOne(g, n))
    ensures Dsts(g, UpOne(g, n)) != []
  {
    assert BackwardLinked(g, if n.DecOut? then DecIn(n.idx) else n);
  }

  /** In that order no ring is ever closed. */
  lemma InOrderNoRing(g: Graph, src: Node, dst: Node)
    requires CanConnect(g, src, dst) && Linked(g) && InOrder(g, src, dst)
    ensures !ComesFrom(g, src, dst)
  {
    forall w: seq<Node> | IsWalk(g, w) && w[0] == src && ValidSrc(g, w[|w| - 1])
      ensures !OutputOf(w[|w| - 1], dst)
    {
      if |w| > 1 {
        assert IsCodec(w[0]);
        assert w[|w| - 2 + 1] == UpOne(g, w[|w| - 2]);
        FeederIsConnected(g, w[|w| - 2]);
      }
    }
  }

  // --- building a graph ------------------------------------------------------------------

  /** Nothing is connected yet. */
  ghost predicate Unconnected(g: Graph) {
    && (forall s :: ValidSrc(g, s) ==> Dsts(g, s) == [])
    && (forall d :: ValidDst(g, d) ==> SrcOf(g, d) == Unset)
  }

  lemma UnconnectedNoRing(g: Graph)
    requires Unconnected(g)
    ensures Linked(g) && !HasRing(g)
  {
    forall w: seq<Node> | IsWalk(g, w) && |w| >= 2
      ensures !IsCodec(w[|w| - 1])
    {
      var n := w[|w| - 2];
      assert w[|w| - 2 + 1] == UpOne(g, n);
      assert SrcOf(g, if n.DecOut? then DecIn(n.idx) else n) == Unset;
    }
  }

  /** The scheduler while its graph is being put together. */
  class Builder {
    var g: Graph
    /** All connections so far were made in the order of the program. */
    ghost var inOrder: bool

    ghost predicate Valid()
      reads this
    {
      Linked(g) && (inOrder ==> !HasRing(g))
    }

    constructor (g: Graph)
      requires Unconnected(g)
      ensures Valid() && this.g == g && inOrder
    {
      this.g := g;
      inOrder := true;
      UnconnectedNoRing(g);
    }

    /** sch_connect. */
    method Connect(src: Node, dst: Node)
      requires Valid() && CanConnect(g, src, dst)
      modifies this
      ensures Valid() && g == Connected(old(g), src, dst)
      ensures inOrder == (old(inOrder) && InOrder(old(g), src, dst))
      ensures HasRing(g) <==> HasRing(old(g)) || ComesFrom(old(g), src, dst)
    {
      hide Linked, HasRing, ComesFrom, InOrder;
      ConnectKeepsLinked(g, src, dst);
      ConnectRing(g, src, dst);
      inOrder := inOrder && InOrder(g, src, dst);
      if inOrder {
        InOrderNoRing(g, src, dst);
      }
      AddDstAt(g, src, dst, dst);
      g := AddDst(g, src, dst);
      g := SetSrc(g, src, dst);
    }
  }
}
