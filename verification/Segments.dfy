/** Rings with the coordinates of their nodes: what they are made of, node by node. */
module Segments {
  import opened GoInts
  import opened DeltaNodes
  import opened Rings

  /** Two neighbouring nodes, coordinates included, whichever the direction. */
  datatype Segment = Segment(a: Node, b: Node)

  function SegmentOf(a: Node, b: Node): (s: Segment)
  {
    if a.id <= b.id then Segment(a, b) else Segment(b, a)
  }

  ghost function Segments(nodes: seq<Node>): (r: multiset<Segment>)
  {
    if |nodes| < 2 then multiset{} else multiset{SegmentOf(nodes[0], nodes[1])} + Segments(nodes[1..])
  }

  ghost function SegmentTotal(pool: seq<Ring>, live: set<nat>): (t: multiset<Segment>)
  {
    if pool == [] then multiset{}
    else
      var n := |pool| - 1;
      SegmentTotal(pool[..n], live) + if n in live then Segments(pool[n].nodes) else multiset{}
  }

  // Nodes

  ghost predicate NodesIn(r: Ring, all: set<Node>)
  {
    forall n <- r.nodes :: n in all
  }

  ghost predicate MadeOf(pool: seq<Ring>, all: set<Node>)
  {
    forall i :: 0 <= i < |pool| ==> NodesIn(pool[i], all)
  }

  ghost function NodesOf(pool: seq<Ring>): (all: set<Node>)
    ensures MadeOf(pool, all)
    ensures forall n <- all :: exists i :: 0 <= i < |pool| && n in pool[i].nodes
  {
    if pool == [] then {}
    else
      var n := |pool| - 1;
      var some, last := NodesOf(pool[..n]), set x <- pool[n].nodes;
      assert MadeOf(pool[..n], some);
      some + last
  }

  lemma JoinedNodes(a: Ring, b: Ring, all: set<Node>)
    requires Long(a) && Long(b) && NodesIn(a, all) && NodesIn(b, all)
    ensures NodesIn(Append(a, b), all) && NodesIn(Attach(a, b), all) && NodesIn(Turned(a), all)
  {
    var back := Turned(a).nodes;
    forall n | n in back ensures n in a.nodes {
      var i :| 0 <= i < |back| && back[i] == n;
      assert a.nodes[|back| - 1 - i] == n;
    }
  }

  // Segments and edges

  /** Nodes with the same id are the same node. */
  ghost predicate OneEach(all: set<Node>)
  {
    forall n, m :: n in all && m in all && n.id == m.id ==> n == m
  }

  predicate Ordered(all: set<Node>, s: Segment)
  {
    s.a in all && s.b in all && s.a.id <= s.b.id
  }

  /** Where ids tell nodes apart, the segments of a ring are counted like the edges between the ids. */
  lemma {:induction false} SegmentsCount(refs: seq<int64>, nodes: seq<Node>, all: set<Node>, s: Segment)
    requires |refs| == |nodes| && (forall i :: 0 <= i < |refs| ==> nodes[i].id == refs[i])
    requires OneEach(all) && forall n <- nodes :: n in all
    ensures Segments(nodes)[s] == if Ordered(all, s) then Edges(refs)[Edge(s.a.id, s.b.id)] else 0
    decreases |refs|
  {
    if |refs| >= 2 {
      assert nodes[0] in nodes && nodes[1] in nodes;
      SegmentsCount(refs[1..], nodes[1..], all, s);
      OneSegment(nodes[0], nodes[1], all, s);
    }
  }

  lemma OneSegment(a: Node, b: Node, all: set<Node>, s: Segment)
    requires OneEach(all) && a in all && b in all
    ensures SegmentOf(a, b) == s <==> Ordered(all, s) && EdgeOf(a.id, b.id) == Edge(s.a.id, s.b.id)
  {
  }

  lemma NoEdgeInWays(ways: seq<int64>, e: Part)
    requires e.Edge?
    ensures WaysOf(ways)[e] == 0
  {
  }

  lemma {:induction false} TotalCount(pool: seq<Ring>, live: set<nat>, all: set<Node>, s: Segment)
    requires forall i :: 0 <= i < |pool| ==> Aligned(pool[i])
    requires MadeOf(pool, all) && OneEach(all)
    ensures SegmentTotal(pool, live)[s] == if Ordered(all, s) then Total(pool, live)[Edge(s.a.id, s.b.id)] else 0
    decreases |pool|
  {
    hide Segments, Edges, WaysOf, OneEach, Ordered;
    if pool != [] {
      var n := |pool| - 1;
      TotalCount(pool[..n], live, all, s);
      SegmentsCount(pool[n].refs, pool[n].nodes, all, s);
      NoEdgeInWays(pool[n].ways, Edge(s.a.id, s.b.id));
    }
  }

  /** Rings with no more edges have no more segments, and rings with the same edges the same segments. */
  lemma SegmentsFollow(pool: seq<Ring>, live: set<nat>, rings: seq<Ring>, added: set<nat>, all: set<Node>)
    requires forall i :: 0 <= i < |pool| ==> Aligned(pool[i])
    requires forall i :: 0 <= i < |rings| ==> Aligned(rings[i])
    requires MadeOf(pool, all) && MadeOf(rings, all) && OneEach(all)
    requires Total(pool, live) <= Total(rings, added)
    ensures SegmentTotal(pool, live) <= SegmentTotal(rings, added)
    ensures Total(pool, live) == Total(rings, added) ==> SegmentTotal(pool, live) == SegmentTotal(rings, added)
  {
    hide Total, SegmentTotal, MadeOf, OneEach, Aligned;
    forall s: Segment
      ensures SegmentTotal(pool, live)[s] <= SegmentTotal(rings, added)[s]
      ensures Total(pool, live) == Total(rings, added) ==>
        SegmentTotal(pool, live)[s] == SegmentTotal(rings, added)[s]
    {
      TotalCount(pool, live, all, s);
      TotalCount(rings, added, all, s);
    }
  }
}
