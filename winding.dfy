/** The point-in-polygon test run over a vertex list. */
module Winding {
  import opened Util
  import opened VertexLists

  /** `inside`: walks the ring from `start`, summing each edge's winding
      contribution, and reports whether the total is odd under JavaScript's
      remainder. */
  method Inside(point: Point, poly: VertexList, start: nat) returns (r: bool)
    requires poly.Valid() && start < |poly.nodes|
    ensures r == InsideOdd(point, poly.Ring(start))
  {
    TraceOfWalk(poly, start);
    ghost var closed := poly.Ring(start) + [poly.Ring(start)[0]];
    var wn := WalkWinding(point, poly, start, poly.Walk(start), closed);
    WindingUpToChain(point, closed, |closed| - 1);
    assert closed[..|closed|] == closed;
    r := JsRem(wn, 2) == 1;
  }

  /** The loop of `inside`: following next from start until it comes back,
      the running sum of the edge contributions is the sum along closed. */
  method WalkWinding(point: Point, poly: VertexList, start: nat, ghost w: seq<nat>, ghost closed: seq<Point>) returns (wn: int)
    requires |w| == |poly.nodes| && |closed| == |w| + 1 && start < |poly.nodes| && w[0] == start
    requires forall index :: 0 <= index < |w| ==> TraceStep(poly, start, w, closed, index)
    ensures wn == WindingUpTo(point, closed, |w|)
  {
    wn := 0;
    var index := 0;
    var curr: int := start;
    while curr != NULL && (curr != start || index == 0)
      invariant 0 <= index <= |w|
      invariant index < |w| ==> curr == w[index]
      invariant index == |w| ==> curr == start
      invariant 0 < index < |w| ==> curr != start
      invariant wn == WindingUpTo(point, closed, index)
      decreases |w| - index
    {
      assert TraceStep(poly, start, w, closed, index);
      var a := poly.nodes[curr].vertex;
      var next := poly.nodes[curr].next;
      var nx := if next == NULL then start else next;
      var b := poly.nodes[nx].vertex;
      wn := wn + EdgeWinding(point, a, b);
      curr := next;
      index := index + 1;
      if index < |w| {
        assert TraceStep(poly, start, w, closed, index);
      }
    }
  }

  /** The facts a walk w from start and the closed ring of its points give one
      step of Inside: the index-th node links to the next node of the walk, or
      back to start after the last; it is not start again; and it and its
      successor carry the index-th edge of closed. */
  ghost predicate TraceStep(poly: VertexList, start: nat, w: seq<nat>, closed: seq<Point>, index: nat)
    reads poly
    requires |closed| == |w| + 1 && index < |w|
  {
    w[index] < |poly.nodes| &&
    0 <= poly.nodes[w[index]].next < |poly.nodes| &&
    poly.nodes[w[index]].next == (if index + 1 < |w| then w[index + 1] else start) &&
    (index > 0 ==> w[index] != start) &&
    closed[index] == poly.nodes[w[index]].vertex &&
    closed[index + 1] == poly.nodes[poly.nodes[w[index]].next].vertex
  }

  /** Every step of the walk from start and of its closed ring is a step of
      Inside. */
  lemma TraceOfWalk(poly: VertexList, start: nat)
    requires poly.Valid() && start < |poly.nodes|
    ensures var w := poly.Walk(start);
      var closed := poly.Ring(start) + [poly.Ring(start)[0]];
      |w| == |poly.nodes| && |closed| == |w| + 1 && w[0] == start &&
      forall index :: 0 <= index < |w| ==> TraceStep(poly, start, w, closed, index)
  {
    var w := poly.Walk(start);
    var closed := poly.Ring(start) + [poly.Ring(start)[0]];
    poly.WalkAt(start, 0);
    forall index | 0 <= index < |w|
      ensures TraceStep(poly, start, w, closed, index)
    {
      InsideStep(poly, start, w, closed, index);
    }
  }

  /** One step of the walk w from start and of the closed ring of its points. */
  lemma InsideStep(poly: VertexList, start: nat, w: seq<nat>, closed: seq<Point>, index: nat)
    requires poly.Valid() && start < |poly.nodes| && index < |poly.nodes|
    requires w == poly.Walk(start) && closed == poly.Ring(start) + [poly.Ring(start)[0]]
    ensures |w| == |poly.nodes| && |closed| == |w| + 1
    ensures TraceStep(poly, start, w, closed, index)
  {
    poly.WalkStep(start, index);
    poly.WalkReturns(start);
    poly.WalkAt(start, 0);
    poly.RingAt(start, index);
    poly.RingAt(start, 0);
    if index + 1 < |poly.nodes| {
      poly.RingAt(start, index + 1);
    }
  }

  /** The answer does not depend on where the walk around the ring starts. */
  lemma InsideAnyStart(point: Point, poly: VertexList, s1: nat, s2: nat)
    requires poly.Valid() && s1 < |poly.nodes| && s2 < |poly.nodes|
    ensures InsideOdd(point, poly.Ring(s1)) == InsideOdd(point, poly.Ring(s2))
  {
    var k := poly.RingRotation(s1, s2);
    WindingNumberRotation(point, poly.Ring(s1), k);
  }
}
