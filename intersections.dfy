/** Phase 1 of the clipper: every pair of source edges is classified and the
    intersection vertices are inserted into both lists, between the two source
    vertices of their edge and in order of their position (alpha) on it. */
module Intersections {
  import opened Util
  import opened VertexLists
  import opened Classification

  /** The source vertices are exactly the first n arena slots, and they follow
      each other along the cycle in index order (the order of the input). */
  ghost predicate SourcesFirst(ns: seq<Node>, order: seq<nat>, pos: seq<nat>, n: nat)
  {
    Cycle(ns, order, pos) && 2 <= n <= |ns| &&
    (forall i :: 0 <= i < |ns| ==> (ns[i].source <==> i < n) && (n <= i ==> ns[i].alpha.Some?)) &&
    (forall i, j :: 0 <= i < j < n ==> Place(pos, i) < Place(pos, j))
  }

  /** pos[i], under a name of its own so that the ordering of the sources is
      only brought to bear where a proof mentions it. */
  ghost function Place(pos: seq<nat>, i: nat): nat
  {
    if i < |pos| then pos[i] else 0
  }

  /** Two neighbours on the cycle that are both intersections are in alpha order. */
  ghost predicate SortedStep(ns: seq<Node>, order: seq<nat>, k: nat)
  {
    k + 1 < |order| && order[k] < |ns| && order[k + 1] < |ns| &&
    !ns[order[k]].source && !ns[order[k + 1]].source ==>
      ns[order[k]].alpha.Some? && ns[order[k + 1]].alpha.Some? &&
      ns[order[k]].alpha.value <= ns[order[k + 1]].alpha.value
  }

  /** Between two consecutive source vertices the inserted vertices are in
      non-decreasing alpha order. */
  ghost predicate AlphaSorted(ns: seq<Node>, order: seq<nat>)
  {
    forall k {:trigger SortedStep(ns, order, k)} :: 0 <= k < |order| ==> SortedStep(ns, order, k)
  }

  /** The shape of a list during the intersection phase. */
  ghost predicate WellFormed(l: VertexList, n: nat)
    reads l
  {
    SourcesFirst(l.nodes, l.order, l.pos, n) && AlphaSorted(l.nodes, l.order)
  }

  /** Where the run of vertices after source k ends on the cycle: at source
      k + 1, or at the end of the cycle after the last source. */
  ghost function SegmentEnd(order: seq<nat>, pos: seq<nat>, n: nat, k: nat): nat
  {
    if k + 1 < n && k + 1 < |pos| then pos[k + 1] else |order|
  }

  /** The first `i + 1` places of the cycle are as before. */
  ghost predicate KeepsPrefix(before: seq<nat>, after: seq<nat>, i: nat)
  {
    i < |before| <= |after| && forall k :: 0 <= k <= i ==> after[k] == before[k]
  }

  /** The source after source k, wrapping round: (k + 1) % n. */
  function Following(k: nat, n: nat): nat
  {
    if k + 1 < n then k + 1 else 0
  }

  /** The search predicate of `Pcurr.find(...)` for Pnext: another source vertex. */
  function OtherSource(ns: seq<Node>, self: nat): (nat, nat) -> bool
  {
    (c: nat, k: nat) => c < |ns| && c != self && ns[c].source
  }

  /** The run after source k is not empty and lies within the cycle. */
  lemma SegmentBounds(l: VertexList, n: nat, k: nat)
    requires SourcesFirst(l.nodes, l.order, l.pos, n) && k < n
    ensures l.pos[k] < SegmentEnd(l.order, l.pos, n, k) <= |l.order|
  {
    if k + 1 < n {
      assert Place(l.pos, k) < Place(l.pos, k + 1);
    }
  }

  /** Inside its segment the walk from source k follows the cycle order. */
  lemma SegmentWalkInside(l: VertexList, n: nat, k: nat, i: nat)
    requires SourcesFirst(l.nodes, l.order, l.pos, n) && k < n
    requires i < SegmentEnd(l.order, l.pos, n, k) - l.pos[k]
    ensures |l.Walk(k)| == |l.nodes| && i < |l.nodes|
    ensures l.Walk(k)[i] == l.order[l.pos[k] + i]
    ensures 0 < i ==> !l.nodes[l.Walk(k)[i]].source
  {
    SegmentBounds(l, n, k);
    l.WalkAt(k, i);
    if 0 < i {
      SourcesAt(l.nodes, l.order, l.pos, n, k, l.pos[k] + i);
    }
  }

  /** Right after the segment of source k comes source k + 1; only the
      segment of the last source runs to the end of the cycle. */
  lemma SegmentSuccessor(l: VertexList, n: nat, k: nat)
    requires SourcesFirst(l.nodes, l.order, l.pos, n) && k < n
    ensures SegmentEnd(l.order, l.pos, n, k) < |l.order| ==> k + 1 < n && l.order[SegmentEnd(l.order, l.pos, n, k)] == k + 1
    ensures SegmentEnd(l.order, l.pos, n, k) == |l.order| ==> k + 1 == n && 0 < l.pos[k]
  {
    if k + 1 < n {
      assert l.order[l.pos[k + 1]] == k + 1;
    } else {
      assert Place(l.pos, 0) < Place(l.pos, k);
    }
  }

  /** Right after its segment the walk from source k meets source k + 1, or
      the head (source 0) after the last source. */
  lemma SegmentWalkEnd(l: VertexList, n: nat, k: nat)
    requires SourcesFirst(l.nodes, l.order, l.pos, n) && k < n
    ensures |l.Walk(k)| == |l.nodes| && l.pos[k] < SegmentEnd(l.order, l.pos, n, k)
    ensures SegmentEnd(l.order, l.pos, n, k) - l.pos[k] < |l.nodes|
    ensures l.Walk(k)[SegmentEnd(l.order, l.pos, n, k) - l.pos[k]] == Following(k, n)
  {
    SegmentBounds(l, n, k);
    SegmentSuccessor(l, n, k);
    var d := SegmentEnd(l.order, l.pos, n, k) - l.pos[k];
    l.WalkAt(k, d);
  }

  /** The next source vertex after source k, as `find` computes it, is source
      k + 1, wrapping to the first. */
  lemma NextSource(l: VertexList, n: nat, k: nat)
    requires SourcesFirst(l.nodes, l.order, l.pos, n) && k < n
    ensures FirstMatch(l.Walk(k), OtherSource(l.nodes, k)) == Following(k, n)
  {
    var w := l.Walk(k);
    var p := OtherSource(l.nodes, k);
    var d := SegmentEnd(l.order, l.pos, n, k) - l.pos[k];
    SegmentBounds(l, n, k);
    SegmentWalkInside(l, n, k, 0);
    SegmentWalkEnd(l, n, k);
    forall i | 0 <= i < d
      ensures !p(w[i], i)
    {
      SegmentWalkInside(l, n, k, i);
    }
    assert p(w[d], d);
  }

  /** JavaScript's `node.alpha > x`: false when alpha is unset. */
  function AlphaAbove(a: Option<real>, x: real): bool
  {
    a.Some? && a.value > x
  }

  /** The search predicate of `findInsertionPoint` on node c: the next
      vertex is the upper bound, missing, or has a larger alpha. */
  predicate InsertionAt(ns: seq<Node>, alpha: real, ub: nat, c: nat)
  {
    c < |ns| && (ns[c].next == ub || ns[c].next == NULL ||
      (0 <= ns[c].next < |ns| && AlphaAbove(ns[ns[c].next].alpha, alpha)))
  }

  /** The same predicate in the shape `find` takes. */
  function InsertionTest(ns: seq<Node>, alpha: real, ub: nat): (nat, nat) -> bool
  {
    (c: nat, k: nat) => InsertionAt(ns, alpha, ub, c)
  }

  /** Inside the segment of source lb the test holds at the i-th vertex exactly
      when it is the last of the segment or the following vertex has a larger
      alpha. */
  lemma InsertionTestAt(l: VertexList, n: nat, lb: nat, alpha: real, i: nat)
    requires SourcesFirst(l.nodes, l.order, l.pos, n) && lb < n
    requires i < SegmentEnd(l.order, l.pos, n, lb) - l.pos[lb]
    ensures |l.Walk(lb)| == |l.nodes| && i < |l.nodes| && l.Walk(lb)[i] == l.order[l.pos[lb] + i]
    ensures InsertionAt(l.nodes, alpha, Following(lb, n), l.Walk(lb)[i]) <==>
      (l.pos[lb] + i + 1 == SegmentEnd(l.order, l.pos, n, lb) ||
       AlphaAbove(l.nodes[l.order[l.pos[lb] + i + 1]].alpha, alpha))
  {
    var d := SegmentEnd(l.order, l.pos, n, lb) - l.pos[lb];
    var w := l.Walk(lb);
    SegmentWalkInside(l, n, lb, i);
    SegmentWalkEnd(l, n, lb);
    l.WalkStep(lb, i);
    assert l.nodes[w[i]].next == w[i + 1];
    if i + 1 < d {
      SegmentWalkInside(l, n, lb, i + 1);
      assert w[i + 1] != Following(lb, n);
    }
  }

  /** Where the search of `findInsertionPoint` stops: m places after source
      lb, inside its segment, after every vertex whose alpha is not larger and
      right before the first one whose alpha is. */
  lemma InsertionPlace(l: VertexList, n: nat, lb: nat, alpha: real) returns (m: nat)
    requires SourcesFirst(l.nodes, l.order, l.pos, n) && lb < n
    ensures l.pos[lb] + m < SegmentEnd(l.order, l.pos, n, lb)
    ensures FirstMatch(l.Walk(lb), InsertionTest(l.nodes, alpha, Following(lb, n))) == l.order[l.pos[lb] + m]
    ensures forall q :: l.pos[lb] < q <= l.pos[lb] + m ==> !AlphaAbove(l.nodes[l.order[q]].alpha, alpha)
    ensures l.pos[lb] + m + 1 < SegmentEnd(l.order, l.pos, n, lb) ==> AlphaAbove(l.nodes[l.order[l.pos[lb] + m + 1]].alpha, alpha)
  {
    m := InsertionStop(l, n, lb, alpha);
    InsertionTestAt(l, n, lb, alpha, m);
    InsertionPassed(l, n, lb, alpha, m);
  }

  /** The search stops inside the segment. */
  lemma InsertionStop(l: VertexList, n: nat, lb: nat, alpha: real) returns (m: nat)
    requires SourcesFirst(l.nodes, l.order, l.pos, n) && lb < n
    ensures l.pos[lb] + m < SegmentEnd(l.order, l.pos, n, lb)
    ensures m == FirstMatchIndex(l.Walk(lb), InsertionTest(l.nodes, alpha, Following(lb, n)), 0)
  {
    var p := InsertionTest(l.nodes, alpha, Following(lb, n));
    var w := l.Walk(lb);
    var d := SegmentEnd(l.order, l.pos, n, lb) - l.pos[lb];
    SegmentBounds(l, n, lb);
    InsertionTestAt(l, n, lb, alpha, d - 1);
    assert p(w[d - 1], d - 1);
    m := FirstMatchIndex(w, p, 0);
  }

  /** Every vertex the search passes has an alpha that is not larger. */
  lemma InsertionPassed(l: VertexList, n: nat, lb: nat, alpha: real, m: nat)
    requires SourcesFirst(l.nodes, l.order, l.pos, n) && lb < n
    requires l.pos[lb] + m < SegmentEnd(l.order, l.pos, n, lb)
    requires m == FirstMatchIndex(l.Walk(lb), InsertionTest(l.nodes, alpha, Following(lb, n)), 0)
    ensures forall q :: l.pos[lb] < q <= l.pos[lb] + m ==> !AlphaAbove(l.nodes[l.order[q]].alpha, alpha)
  {
    var p := InsertionTest(l.nodes, alpha, Following(lb, n));
    var w := l.Walk(lb);
    forall q | l.pos[lb] < q <= l.pos[lb] + m
      ensures !AlphaAbove(l.nodes[l.order[q]].alpha, alpha)
    {
      var i := q - l.pos[lb] - 1;
      InsertionTestAt(l, n, lb, alpha, i);
      assert !p(w[i], i);
    }
  }

  /** `findInsertionPoint`: the last vertex, from source lb on, after which a
      vertex with the given alpha belongs: every vertex passed has an alpha
      at most `alpha`, and the one after the result, if it is still an
      intersection of this edge, has a larger alpha. */
  method FindInsertionPoint(l: VertexList, alpha: real, lb: nat, ub: nat, ghost n: nat) returns (r: nat)
    requires SourcesFirst(l.nodes, l.order, l.pos, n) && lb < n && ub == Following(lb, n)
    ensures r < |l.nodes| && l.pos[lb] <= l.pos[r] < SegmentEnd(l.order, l.pos, n, lb)
    ensures forall q :: l.pos[lb] < q <= l.pos[r] ==> !AlphaAbove(l.nodes[l.order[q]].alpha, alpha)
    ensures l.pos[r] + 1 < SegmentEnd(l.order, l.pos, n, lb) ==> AlphaAbove(l.nodes[l.order[l.pos[r] + 1]].alpha, alpha)
  {
    var found := l.Find(lb, InsertionTest(l.nodes, alpha, ub));
    ghost var m := InsertionPlace(l, n, lb, alpha);
    SegmentBounds(l, n, lb);
    r := found;
    assert l.pos[r] == l.pos[lb] + m;
  }

  /** Splicing a non-source record in after place p keeps the sources first
      and in order. */
  lemma SpliceSources(ns: seq<Node>, order: seq<nat>, pos: seq<nat>, ns': seq<Node>, p: nat, n: nat)
    requires SourcesFirst(ns, order, pos, n) && p < |ns|
    requires Cycle(ns', SpliceOrder(order, p, |ns|), SplicePos(pos, p))
    requires SameData(ns, ns') && !ns'[|ns|].source && ns'[|ns|].alpha.Some?
    ensures SourcesFirst(ns', SpliceOrder(order, p, |ns|), SplicePos(pos, p), n)
  {
    var pos' := SplicePos(pos, p);
    forall i | 0 <= i < |ns'|
      ensures (ns'[i].source <==> i < n) && (n <= i ==> ns'[i].alpha.Some?)
    {
      if i < |ns| {
        assert Kept(ns, ns', i);
      }
    }
    forall i, j | 0 <= i < j < n
      ensures Place(pos', i) < Place(pos', j)
    {
      assert Place(pos, i) < Place(pos, j);
    }
  }

  /** What SpliceSorted assumes: ns' is ns with one more record, spliced in
      after place p, whose alpha fits between its new neighbours. */
  ghost predicate FitsBetween(ns: seq<Node>, order: seq<nat>, pos: seq<nat>, ns': seq<Node>, p: nat)
  {
    Cycle(ns, order, pos) && p < |ns| && AlphaSorted(ns, order) &&
    Cycle(ns', SpliceOrder(order, p, |ns|), SplicePos(pos, p)) &&
    SameData(ns, ns') && !ns'[|ns|].source && ns'[|ns|].alpha.Some? &&
    (!ns[order[p]].source ==>
      ns[order[p]].alpha.Some? && ns[order[p]].alpha.value <= ns'[|ns|].alpha.value) &&
    (p + 1 < |ns| && !ns[order[p + 1]].source ==>
      ns[order[p + 1]].alpha.Some? && ns'[|ns|].alpha.value <= ns[order[p + 1]].alpha.value)
  }

  /** Splicing a record in after place p keeps the alpha order, provided its
      alpha is at least that of the record before it (when that is an
      intersection) and below that of the record after it (likewise). */
  lemma SpliceSorted(ns: seq<Node>, order: seq<nat>, pos: seq<nat>, ns': seq<Node>, p: nat)
    requires FitsBetween(ns, order, pos, ns', p)
    ensures AlphaSorted(ns', SpliceOrder(order, p, |ns|))
  {
    var order' := SpliceOrder(order, p, |ns|);
    forall k | 0 <= k < |order'|
      ensures SortedStep(ns', order', k)
    {
      SpliceSortedAt(ns, order, pos, ns', p, k);
    }
  }

  /** One step of SpliceSorted: the neighbours at places k and k + 1. */
  lemma SpliceSortedAt(ns: seq<Node>, order: seq<nat>, pos: seq<nat>, ns': seq<Node>, p: nat, k: nat)
    requires FitsBetween(ns, order, pos, ns', p)
    ensures SortedStep(ns', SpliceOrder(order, p, |ns|), k)
  {
    var e := |ns|;
    var order' := SpliceOrder(order, p, e);
    if k + 1 < |order'| {
      if k < p {
        assert order'[k] == order[k] && order'[k + 1] == order[k + 1];
        assert SortedStep(ns, order, k);
        assert Kept(ns, ns', order[k]);
        assert Kept(ns, ns', order[k + 1]);
      } else if k == p {
        assert order'[k] == order[p] && order'[k + 1] == e;
        assert Kept(ns, ns', order[p]);
      } else if k == p + 1 {
        assert order'[k] == e && order'[k + 1] == order[p + 1];
        assert Kept(ns, ns', order[p + 1]);
      } else {
        assert order'[k] == order[k - 1] && order'[k + 1] == order[k];
        assert SortedStep(ns, order, k - 1);
        assert Kept(ns, ns', order[k - 1]);
        assert Kept(ns, ns', order[k]);
      }
    }
  }

  /** What the search of `findInsertionPoint` leaves for the insertion: the
      new record ns'[|ns|] goes after place p of the segment of source lb,
      past every record with an alpha not larger than its own and before the
      first with a larger one. */
  ghost predicate Placed(ns: seq<Node>, order: seq<nat>, pos: seq<nat>, ns': seq<Node>, n: nat, lb: nat, p: nat)
  {
    SourcesFirst(ns, order, pos, n) && AlphaSorted(ns, order) && lb < n &&
    pos[lb] <= p < SegmentEnd(order, pos, n, lb) &&
    Cycle(ns', SpliceOrder(order, p, |ns|), SplicePos(pos, p)) &&
    SameData(ns, ns') && !ns'[|ns|].source && ns'[|ns|].alpha.Some? &&
    (forall q :: pos[lb] < q <= p ==> !AlphaAbove(ns[order[q]].alpha, ns'[|ns|].alpha.value)) &&
    (p + 1 < SegmentEnd(order, pos, n, lb) ==> AlphaAbove(ns[order[p + 1]].alpha, ns'[|ns|].alpha.value))
  }

  /** The arena facts behind InsertBetween: splicing the new record in at
      the place the search found keeps the sources first, the alphas sorted
      and the prefix up to source lb, and lengthens the segment by one. */
  lemma InsertedBetween(ns: seq<Node>, order: seq<nat>, pos: seq<nat>, ns': seq<Node>, order': seq<nat>, pos': seq<nat>,
                         n: nat, lb: nat, p: nat, entry: Node)
    requires SourcesFirst(ns, order, pos, n) && AlphaSorted(ns, order) && lb < n
    requires !entry.source && entry.alpha.Some? && pos[lb] <= p < SegmentEnd(order, pos, n, lb)
    requires forall q :: pos[lb] < q <= p ==> !AlphaAbove(ns[order[q]].alpha, entry.alpha.value)
    requires p + 1 < SegmentEnd(order, pos, n, lb) ==> AlphaAbove(ns[order[p + 1]].alpha, entry.alpha.value)
    requires Cycle(ns', order', pos') && order' == SpliceOrder(order, p, |ns|) && pos' == SplicePos(pos, p)
    requires |ns'| == |ns| + 1 && Data(ns'[|ns|]) == Data(entry)
    requires SameData(ns, ns')
    ensures SourcesFirst(ns', order', pos', n) && AlphaSorted(ns', order')
    ensures |ns| < |pos'| && pos'[lb] == pos[lb] && pos[lb] < pos'[|ns|] < SegmentEnd(order', pos', n, lb)
    ensures SegmentEnd(order', pos', n, lb) == SegmentEnd(order, pos, n, lb) + 1
    ensures KeepsPrefix(order, order', pos[lb])
    ensures forall q :: pos'[lb] < q < pos'[|ns|] ==> !AlphaAbove(ns'[order'[q]].alpha, entry.alpha.value)
    ensures pos'[|ns|] + 1 < SegmentEnd(order', pos', n, lb) ==>
      AlphaAbove(ns'[order'[pos'[|ns|] + 1]].alpha, entry.alpha.value)
  {
    assert Placed(ns, order, pos, ns', n, lb, p);
    PlacedFits(ns, order, pos, n, lb, p, entry.alpha.value);
    assert FitsBetween(ns, order, pos, ns', p);
    PlacedNeighbours(ns, order, pos, ns', n, lb, p);
    SpliceSources(ns, order, pos, ns', p, n);
    SpliceSorted(ns, order, pos, ns', p);
    SpliceSegment(order, pos, n, lb, p);
  }

  /** The place found fits the new record between its neighbours. */
  lemma PlacedFits(ns: seq<Node>, order: seq<nat>, pos: seq<nat>, n: nat, lb: nat, p: nat, a: real)
    requires SourcesFirst(ns, order, pos, n) && lb < n && pos[lb] <= p < SegmentEnd(order, pos, n, lb)
    requires forall q :: pos[lb] < q <= p ==> !AlphaAbove(ns[order[q]].alpha, a)
    requires p + 1 < SegmentEnd(order, pos, n, lb) ==> AlphaAbove(ns[order[p + 1]].alpha, a)
    ensures p < |ns| && order[p] < |ns|
    ensures !ns[order[p]].source ==> ns[order[p]].alpha.Some? && ns[order[p]].alpha.value <= a
    ensures p + 1 < |ns| && !ns[order[p + 1]].source ==>
      ns[order[p + 1]].alpha.Some? && a <= ns[order[p + 1]].alpha.value
  {
    if p > pos[lb] {
      PlacedAfterSource(ns, order, pos, n, lb, p);
      assert !AlphaAbove(ns[order[p]].alpha, a);
    }
    if p + 1 < SegmentEnd(order, pos, n, lb) {
      PlacedAfterSource(ns, order, pos, n, lb, p + 1);
    } else if p + 1 < |ns| {
      SegmentEndSource(ns, order, pos, n, lb);
    }
  }

  /** A place inside the segment of source k, past the source itself, holds
      an intersection with an alpha; the place of the source holds it. */
  lemma PlacedAfterSource(ns: seq<Node>, order: seq<nat>, pos: seq<nat>, n: nat, k: nat, q: nat)
    requires SourcesFirst(ns, order, pos, n) && k < n
    requires pos[k] < q < SegmentEnd(order, pos, n, k)
    ensures q < |order| && order[q] < |ns| && !ns[order[q]].source && ns[order[q]].alpha.Some?
    ensures order[pos[k]] == k && ns[k].source
  {
    SourcesAt(ns, order, pos, n, k, q);
  }

  /** A segment that ends before the end of the cycle ends at the next source. */
  lemma SegmentEndSource(ns: seq<Node>, order: seq<nat>, pos: seq<nat>, n: nat, k: nat)
    requires Cycle(ns, order, pos) && k < n <= |ns|
    requires SegmentEnd(order, pos, n, k) < |ns|
    ensures k + 1 < n && order[SegmentEnd(order, pos, n, k)] == k + 1
  {
  }

  /** After the splice, the records before the new one in its segment have
      alphas that are not larger, and the one after it a larger alpha. */
  lemma PlacedNeighbours(ns: seq<Node>, order: seq<nat>, pos: seq<nat>, ns': seq<Node>, n: nat, lb: nat, p: nat)
    requires Placed(ns, order, pos, ns', n, lb, p)
    ensures var order' := SpliceOrder(order, p, |ns|);
      (forall q :: pos[lb] < q <= p ==> !AlphaAbove(ns'[order'[q]].alpha, ns'[|ns|].alpha.value)) &&
      (p + 1 < SegmentEnd(order, pos, n, lb) ==> AlphaAbove(ns'[order'[p + 2]].alpha, ns'[|ns|].alpha.value))
  {
    var order' := SpliceOrder(order, p, |ns|);
    var a := ns'[|ns|].alpha.value;
    forall q | pos[lb] < q <= p
      ensures !AlphaAbove(ns'[order'[q]].alpha, a)
    {
      assert order'[q] == order[q];
      assert Kept(ns, ns', order[q]);
    }
    if p + 1 < SegmentEnd(order, pos, n, lb) {
      assert order'[p + 2] == order[p + 1];
      assert Kept(ns, ns', order[p + 1]);
    }
  }

  /** Splicing after place p, inside the segment of source lb, moves nothing up
      to source lb and lengthens that segment by one. */
  lemma SpliceSegment(order: seq<nat>, pos: seq<nat>, n: nat, lb: nat, p: nat)
    requires |order| == |pos| && n <= |pos| && lb < n
    requires pos[lb] <= p < SegmentEnd(order, pos, n, lb) <= |order|
    ensures var order', pos' := SpliceOrder(order, p, |order|), SplicePos(pos, p);
      pos'[lb] == pos[lb] && pos'[|pos|] == p + 1 &&
      SegmentEnd(order', pos', n, lb) == SegmentEnd(order, pos, n, lb) + 1 &&
      KeepsPrefix(order, order', pos[lb])
  {
  }

  /** The places strictly inside the segment of source k hold intersections. */
  lemma SourcesAt(ns: seq<Node>, order: seq<nat>, pos: seq<nat>, n: nat, k: nat, q: nat)
    requires SourcesFirst(ns, order, pos, n) && k < n
    requires pos[k] < q < SegmentEnd(order, pos, n, k)
    ensures q < |order| && order[q] >= n && !ns[order[q]].source
  {
    if k + 1 < n {
      assert Place(pos, k) < Place(pos, k + 1);
    }
    var x := order[q];
    assert Place(pos, x) == q && Place(pos, k) == pos[k];
  }

  /** `findInsertionPoint(entry, lb, ub).insert(entry)`: puts a new
      intersection record on the edge from source lb to source ub, after
      every record of that edge with an alpha not larger than its own and
      before the first with a larger one. The first places of the cycle, up
      to source lb, do not move. */
  method InsertBetween(l: VertexList, entry: Node, lb: nat, ub: nat, ghost n: nat) returns (e: nat)
    requires WellFormed(l, n) && lb < n && ub == Following(lb, n)
    requires !entry.source && entry.alpha.Some?
    modifies l
    ensures WellFormed(l, n)
    ensures e == old(|l.nodes|) && |l.nodes| == e + 1
    ensures Data(l.nodes[e]) == Data(entry) && SameData(old(l.nodes), l.nodes)
    ensures l.pos[lb] == old(l.pos[lb]) && l.pos[lb] < l.pos[e] < SegmentEnd(l.order, l.pos, n, lb)
    ensures SegmentEnd(l.order, l.pos, n, lb) == old(SegmentEnd(l.order, l.pos, n, lb)) + 1
    ensures KeepsPrefix(old(l.order), l.order, old(l.pos[lb]))
    ensures forall q :: l.pos[lb] < q < l.pos[e] ==> !AlphaAbove(l.nodes[l.order[q]].alpha, entry.alpha.value)
    ensures l.pos[e] + 1 < SegmentEnd(l.order, l.pos, n, lb) ==>
      AlphaAbove(l.nodes[l.order[l.pos[e] + 1]].alpha, entry.alpha.value)
  {
    var r := FindInsertionPoint(l, entry.alpha.value, lb, ub, n);
    ghost var ns, order, pos := l.nodes, l.order, l.pos;
    ghost var p := pos[r];
    e := l.Insert(r, entry);
    InsertedBetween(ns, order, pos, l.nodes, l.order, l.pos, n, lb, p, entry);
  }
}
