/** Phase 1 as a whole: the nested walk over the source edges of both lists,
    with each pair of edges classified and its intersection or overlap vertices
    inserted into the lists. */
module IntersectionPhase {
  import opened Util
  import opened VertexLists
  import opened Classification
  import opened Intersections

  /** A partner reference of a record of one list points into the other list,
      of m records: subject records refer to clip records and vice versa. */
  predicate RefInto(r: Ref, toClip: bool, m: nat)
  {
    match r
    case NoRef => true
    case Clip(j) => toClip && j < m
    case Subject(j) => !toClip && j < m
  }

  /** Record i of a list whose first n records are its sources: its partner, if
      any, lies in the other list (of m records); an intersection has a
      partner; and every record added after the sources is an intersection. */
  ghost predicate LinkedAt(ns: seq<Node>, n: nat, toClip: bool, m: nat, i: nat)
  {
    i < |ns| && RefInto(ns[i].corresponding, toClip, m) &&
    (ns[i].intersection ==> !ns[i].corresponding.NoRef?) &&
    (n <= i ==> ns[i].intersection)
  }

  ghost predicate Linked(ns: seq<Node>, n: nat, toClip: bool, m: nat)
  {
    forall i :: 0 <= i < |ns| ==> LinkedAt(ns, n, toClip, m, i)
  }

  /** Source record i still holds the i-th input point. */
  ghost predicate PointAt(ns: seq<Node>, poly: seq<Point>, i: nat)
  {
    i < |poly| && i < |ns| && ns[i].vertex == poly[i]
  }

  ghost predicate SourcePoints(ns: seq<Node>, poly: seq<Point>)
  {
    |poly| <= |ns| && forall i :: 0 <= i < |poly| ==> PointAt(ns, poly, i)
  }

  /** One list during and after phase 1: its sources first, in input order
      and with their input points, its inserted records sorted by alpha along
      each source edge, and partner references into the other list, of m
      records. */
  ghost predicate Side(ns: seq<Node>, order: seq<nat>, pos: seq<nat>, poly: seq<Point>, toClip: bool, m: nat)
  {
    SourcesFirst(ns, order, pos, |poly|) && AlphaSorted(ns, order) &&
    SourcePoints(ns, poly) && Linked(ns, |poly|, toClip, m)
  }

  /** The two lists during and after phase 1. */
  ghost predicate Lists(S: VertexList, C: VertexList, subject: seq<Point>, clip: seq<Point>)
    reads S, C
  {
    S != C &&
    Side(S.nodes, S.order, S.pos, subject, true, |C.nodes|) &&
    Side(C.nodes, C.order, C.pos, clip, false, |S.nodes|)
  }

  /** Records agree on everything but their links, except record i, which
      may differ in its intersection flag and partner. */
  ghost predicate ChangedOnly(ns: seq<Node>, ns': seq<Node>, i: nat)
  {
    |ns| <= |ns'| && i < |ns| &&
    (forall j :: 0 <= j < |ns| && j != i ==> Data(ns'[j]) == Data(ns[j])) &&
    Data(ns'[i]).(intersection := false, corresponding := NoRef) == Data(ns[i]).(intersection := false, corresponding := NoRef)
  }

  /** Relabelling record i (its flag and partner, not its source flag, alpha
      or links) keeps the shape of phase 1. */
  lemma RelabelShape(ns: seq<Node>, order: seq<nat>, pos: seq<nat>, n: nat, i: nat, node: Node)
    requires SourcesFirst(ns, order, pos, n) && AlphaSorted(ns, order) && i < |ns|
    requires node.source == ns[i].source && node.alpha == ns[i].alpha
    requires node.next == ns[i].next && node.prev == ns[i].prev
    ensures SourcesFirst(ns[i := node], order, pos, n) && AlphaSorted(ns[i := node], order)
  {
    var ns' := ns[i := node];
    RelabelCycle(ns, order, pos, i, node);
    forall k | 0 <= k < |order|
      ensures SortedStep(ns', order, k)
    {
      assert SortedStep(ns, order, k);
    }
  }

  /** `X.intersection = true; X.corresponding = r` (or only the partner when
      flag is false) on record i of list l. */
  method Mark(l: VertexList, i: nat, r: Ref, flag: bool, ghost n: nat)
    requires WellFormed(l, n) && i < |l.nodes|
    modifies l
    ensures WellFormed(l, n) && l.order == old(l.order) && l.pos == old(l.pos)
    ensures l.nodes == old(l.nodes)[i := old(l.nodes[i]).(intersection := old(l.nodes[i].intersection) || flag, corresponding := r)]
  {
    var node := l.nodes[i].(intersection := l.nodes[i].intersection || flag, corresponding := r);
    RelabelShape(l.nodes, l.order, l.pos, n, i, node);
    l.Set(i, node);
  }

  /** Records kept with their data and new records that are linked keep a
      list linked, also when the other list grows. */
  lemma GrowLinked(ns: seq<Node>, ns': seq<Node>, n: nat, toClip: bool, m: nat, m': nat)
    requires Linked(ns, n, toClip, m) && m <= m' && SameData(ns, ns')
    requires forall j :: |ns| <= j < |ns'| ==> LinkedAt(ns', n, toClip, m', j)
    ensures Linked(ns', n, toClip, m')
  {
    forall i | 0 <= i < |ns'|
      ensures LinkedAt(ns', n, toClip, m', i)
    {
      if i < |ns| {
        assert LinkedAt(ns, n, toClip, m, i);
        assert Kept(ns, ns', i);
      }
    }
  }

  /** Records kept with their data keep their points. */
  lemma GrowPoints(ns: seq<Node>, ns': seq<Node>, poly: seq<Point>)
    requires SourcePoints(ns, poly) && SameData(ns, ns')
    ensures SourcePoints(ns', poly)
  {
    forall i | 0 <= i < |poly|
      ensures PointAt(ns', poly, i)
    {
      assert PointAt(ns, poly, i);
      assert Kept(ns, ns', i);
    }
  }

  /** A list stays a side of phase 1 when the other list grows. */
  lemma SideWiden(ns: seq<Node>, order: seq<nat>, pos: seq<nat>, poly: seq<Point>, toClip: bool, m: nat, m': nat)
    requires Side(ns, order, pos, poly, toClip, m) && m <= m'
    ensures Side(ns, order, pos, poly, toClip, m')
  {
    forall i | 0 <= i < |ns|
      ensures LinkedAt(ns, |poly|, toClip, m', i)
    {
      assert LinkedAt(ns, |poly|, toClip, m, i);
    }
  }

  /** A list that gains a linked intersection record, keeping its shape,
      stays a side of phase 1. */
  lemma SideGrow(ns: seq<Node>, order: seq<nat>, pos: seq<nat>, ns': seq<Node>, order': seq<nat>, pos': seq<nat>,
                 poly: seq<Point>, toClip: bool, m: nat)
    requires Side(ns, order, pos, poly, toClip, m)
    requires SourcesFirst(ns', order', pos', |poly|) && AlphaSorted(ns', order')
    requires SameData(ns, ns') && |ns'| == |ns| + 1 && LinkedAt(ns', |poly|, toClip, m, |ns|)
    ensures Side(ns', order', pos', poly, toClip, m)
  {
    GrowLinked(ns, ns', |poly|, toClip, m, m);
    GrowPoints(ns, ns', poly);
  }

  /** Giving record i a partner in the other list, now of m' records (and
      perhaps the intersection flag), keeps a side of phase 1. */
  lemma SideMark(ns: seq<Node>, order: seq<nat>, pos: seq<nat>, poly: seq<Point>, toClip: bool, m: nat, m': nat,
                 i: nat, r: Ref, flag: bool)
    requires Side(ns, order, pos, poly, toClip, m) && m <= m' && i < |ns|
    requires RefInto(r, toClip, m') && !r.NoRef?
    ensures Side(ns[i := ns[i].(intersection := ns[i].intersection || flag, corresponding := r)], order, pos, poly, toClip, m')
  {
    var node := ns[i].(intersection := ns[i].intersection || flag, corresponding := r);
    var ns' := ns[i := node];
    RelabelShape(ns, order, pos, |poly|, i, node);
    forall j | 0 <= j < |ns'|
      ensures LinkedAt(ns', |poly|, toClip, m', j)
    {
      assert LinkedAt(ns, |poly|, toClip, m, j);
    }
    forall j | 0 <= j < |poly|
      ensures PointAt(ns', poly, j)
    {
      assert PointAt(ns, poly, j);
    }
  }

  /** The T-intersection and T-overlap at Pcurr: the clip gains `entry` (a
      point of Pcurr, partnered with it) on the edge from Qcurr to Qnext, and
      Pcurr becomes an intersection partnered with the new record. */
  method InsertIntoClip(S: VertexList, C: VertexList, p: nat, q: nat, qn: nat, entry: Node,
                        ghost subject: seq<Point>, ghost clip: seq<Point>) returns (f: nat)
    requires Lists(S, C, subject, clip) && p < |subject| && q < |clip| && qn == Following(q, |clip|)
    requires !entry.source && entry.intersection && entry.alpha.Some? && entry.corresponding == Subject(p)
    modifies S, C
    ensures Lists(S, C, subject, clip)
    ensures S.order == old(S.order) && S.pos == old(S.pos)
    ensures S.nodes == old(S.nodes)[p := old(S.nodes[p]).(intersection := true, corresponding := Clip(f))]
    ensures f == old(|C.nodes|) && |C.nodes| == f + 1 && Data(C.nodes[f]) == Data(entry)
    ensures SameData(old(C.nodes), C.nodes)
    ensures C.pos[q] == old(C.pos[q]) && KeepsPrefix(old(C.order), C.order, old(C.pos[q]))
  {
    f := |C.nodes|;
    ghost var ns, cs, co, cp := S.nodes, C.nodes, C.order, C.pos;
    Mark(S, p, Clip(f), true, |subject|);
    var e := InsertBetween(C, entry, q, qn, |clip|);
    Inserted(ns, S.order, S.pos, subject, true, p, cs, co, cp, C.nodes, C.order, C.pos, clip, entry);
  }

  /** The lists after the relabelling of record p of one list (to partner
      the record added at the end of the other) and the insertion of that
      record into the other list are lists of phase 1. */
  lemma Inserted(ns: seq<Node>, order: seq<nat>, pos: seq<nat>, poly: seq<Point>, toClip: bool, p: nat,
                 cs: seq<Node>, co: seq<nat>, cp: seq<nat>, cs': seq<Node>, co': seq<nat>, cp': seq<nat>,
                 other: seq<Point>, entry: Node)
    requires Side(ns, order, pos, poly, toClip, |cs|) && Side(cs, co, cp, other, !toClip, |ns|) && p < |poly|
    requires entry.intersection && entry.corresponding == (if toClip then Subject(p) else Clip(p))
    requires SourcesFirst(cs', co', cp', |other|) && AlphaSorted(cs', co')
    requires |cs'| == |cs| + 1 && Data(cs'[|cs|]) == Data(entry) && SameData(cs, cs')
    ensures var r := if toClip then Clip(|cs|) else Subject(|cs|);
      Side(ns[p := ns[p].(intersection := true, corresponding := r)], order, pos, poly, toClip, |cs'|) &&
      Side(cs', co', cp', other, !toClip, |ns|)
  {
    var r := if toClip then Clip(|cs|) else Subject(|cs|);
    SideMark(ns, order, pos, poly, toClip, |cs|, |cs'|, p, r, true);
    assert ns[p].(intersection := ns[p].intersection || true, corresponding := r) == ns[p].(intersection := true, corresponding := r);
    assert LinkedAt(cs', |other|, !toClip, |ns|, |cs|);
    SideGrow(cs, co, cp, cs', co', cp', other, !toClip, |ns|);
  }

  /** The mirror image at Qcurr: the subject gains `entry` on the edge from
      Pcurr to Pnext, and Qcurr becomes an intersection partnered with it. */
  method InsertIntoSubject(S: VertexList, C: VertexList, p: nat, pn: nat, q: nat, entry: Node,
                           ghost subject: seq<Point>, ghost clip: seq<Point>) returns (e: nat)
    requires Lists(S, C, subject, clip) && p < |subject| && pn == Following(p, |subject|) && q < |clip|
    requires !entry.source && entry.intersection && entry.alpha.Some? && entry.corresponding == Clip(q)
    modifies S, C
    ensures Lists(S, C, subject, clip)
    ensures C.order == old(C.order) && C.pos == old(C.pos)
    ensures C.nodes == old(C.nodes)[q := old(C.nodes[q]).(intersection := true, corresponding := Subject(e))]
    ensures e == old(|S.nodes|) && |S.nodes| == e + 1 && Data(S.nodes[e]) == Data(entry)
    ensures SameData(old(S.nodes), S.nodes)
    ensures S.pos[p] == old(S.pos[p]) && KeepsPrefix(old(S.order), S.order, old(S.pos[p]))
  {
    e := |S.nodes|;
    ghost var cs, ns, no, np := C.nodes, S.nodes, S.order, S.pos;
    Mark(C, q, Subject(e), true, |clip|);
    var e' := InsertBetween(S, entry, p, pn, |subject|);
    Inserted(cs, C.order, C.pos, clip, false, q, ns, no, np, S.nodes, S.order, S.pos, subject, entry);
  }

  /** A new intersection record: its point (and that point's identity), its
      alpha on the edge it is inserted into, and its partner. */
  function NewRecord(vertex: Point, vid: nat, alpha: real, r: Ref): Node
  {
    Fresh(vertex, vid).(intersection := true, alpha := Some(alpha), corresponding := r)
  }

  /** A list that gains a record at its end, an intersection partnered into
      the other list (now of m' records), keeping its shape, stays a side of
      phase 1. */
  lemma Grown(ns: seq<Node>, order: seq<nat>, pos: seq<nat>, ns': seq<Node>, order': seq<nat>, pos': seq<nat>,
              poly: seq<Point>, toClip: bool, m: nat, m': nat)
    requires Side(ns, order, pos, poly, toClip, m) && m <= m'
    requires SourcesFirst(ns', order', pos', |poly|) && AlphaSorted(ns', order')
    requires SameData(ns, ns') && |ns'| == |ns| + 1
    requires ns'[|ns|].intersection && RefInto(ns'[|ns|].corresponding, toClip, m') && !ns'[|ns|].corresponding.NoRef?
    ensures Side(ns', order', pos', poly, toClip, m')
  {
    SideWiden(ns, order, pos, poly, toClip, m, m');
    assert LinkedAt(ns', |poly|, toClip, m', |ns|);
    SideGrow(ns, order, pos, ns', order', pos', poly, toClip, m');
  }

  /** The X-intersection: one record for the crossing point is inserted into
      each list, on the edges from Pcurr and from Qcurr, and the two are each
      other's partners. */
  method Cross(S: VertexList, C: VertexList, p: nat, pn: nat, q: nat, qn: nat, point: Point, vid: nat,
               alpha: real, beta: real, ghost subject: seq<Point>, ghost clip: seq<Point>) returns (e: nat, f: nat)
    requires Lists(S, C, subject, clip)
    requires p < |subject| && pn == Following(p, |subject|) && q < |clip| && qn == Following(q, |clip|)
    modifies S, C
    ensures Lists(S, C, subject, clip)
    ensures e == old(|S.nodes|) && |S.nodes| == e + 1 && f == old(|C.nodes|) && |C.nodes| == f + 1
    ensures Data(S.nodes[e]) == NewRecord(point, vid, alpha, Clip(f)) && Data(C.nodes[f]) == NewRecord(point, vid, beta, Subject(e))
    ensures SameData(old(S.nodes), S.nodes) && SameData(old(C.nodes), C.nodes)
    ensures S.pos[p] == old(S.pos[p]) && KeepsPrefix(old(S.order), S.order, old(S.pos[p]))
    ensures C.pos[q] == old(C.pos[q]) && KeepsPrefix(old(C.order), C.order, old(C.pos[q]))
  {
    e, f := |S.nodes|, |C.nodes|;
    ghost var ns, no, np, cs, co, cp := S.nodes, S.order, S.pos, C.nodes, C.order, C.pos;
    var e' := InsertBetween(S, NewRecord(point, vid, alpha, Clip(f)), p, pn, |subject|);
    var f' := InsertBetween(C, NewRecord(point, vid, beta, Subject(e)), q, qn, |clip|);
    CrossShape(ns, no, np, cs, co, cp, S.nodes, S.order, S.pos, C.nodes, C.order, C.pos, subject, clip);
  }

  /** The lists of the X-intersection: one partnered record added to each. */
  lemma CrossShape(ns: seq<Node>, no: seq<nat>, np: seq<nat>, cs: seq<Node>, co: seq<nat>, cp: seq<nat>,
                   ns': seq<Node>, no': seq<nat>, np': seq<nat>, cs': seq<Node>, co': seq<nat>, cp': seq<nat>,
                   subject: seq<Point>, clip: seq<Point>)
    requires Side(ns, no, np, subject, true, |cs|) && Side(cs, co, cp, clip, false, |ns|)
    requires SourcesFirst(ns', no', np', |subject|) && AlphaSorted(ns', no')
    requires SourcesFirst(cs', co', cp', |clip|) && AlphaSorted(cs', co')
    requires SameData(ns, ns') && |ns'| == |ns| + 1 && ns'[|ns|].intersection && ns'[|ns|].corresponding == Clip(|cs|)
    requires SameData(cs, cs') && |cs'| == |cs| + 1 && cs'[|cs|].intersection && cs'[|cs|].corresponding == Subject(|ns|)
    ensures Side(ns', no', np', subject, true, |cs'|) && Side(cs', co', cp', clip, false, |ns'|)
  {
    Grown(ns, no, np, ns', no', np', subject, true, |cs|, |cs| + 1);
    Grown(cs, co, cp, cs', co', cp', clip, false, |ns|, |ns| + 1);
  }

  /** The X-overlap: each start vertex lies inside the other edge, so a copy of
      Qcurr (same point object, partnered with Qcurr) goes into the subject and
      a copy of Pcurr into the clip; Pcurr and Qcurr are partnered with the
      copies but, as written, not flagged as intersections. */
  method Overlap(S: VertexList, C: VertexList, p: nat, pn: nat, q: nat, qn: nat,
                 alpha: real, beta: real, ghost subject: seq<Point>, ghost clip: seq<Point>) returns (e: nat, f: nat)
    requires Lists(S, C, subject, clip)
    requires p < |subject| && pn == Following(p, |subject|) && q < |clip| && qn == Following(q, |clip|)
    modifies S, C
    ensures Lists(S, C, subject, clip)
    ensures e == old(|S.nodes|) && |S.nodes| == e + 1 && f == old(|C.nodes|) && |C.nodes| == f + 1
    ensures Data(S.nodes[e]) == NewRecord(old(C.nodes[q].vertex), old(C.nodes[q].vid), alpha, Clip(q))
    ensures Data(C.nodes[f]) == NewRecord(old(S.nodes[p].vertex), old(S.nodes[p].vid), beta, Subject(p))
    ensures SameData(old(S.nodes)[p := old(S.nodes[p]).(corresponding := Clip(f))], S.nodes)
    ensures SameData(old(C.nodes)[q := old(C.nodes[q]).(corresponding := Subject(e))], C.nodes)
    ensures S.pos[p] == old(S.pos[p]) && KeepsPrefix(old(S.order), S.order, old(S.pos[p]))
    ensures C.pos[q] == old(C.pos[q]) && KeepsPrefix(old(C.order), C.order, old(C.pos[q]))
  {
    e, f := |S.nodes|, |C.nodes|;
    var entryP := NewRecord(C.nodes[q].vertex, C.nodes[q].vid, alpha, Clip(q));
    var entryQ := NewRecord(S.nodes[p].vertex, S.nodes[p].vid, beta, Subject(p));
    ghost var ns, cs := S.nodes, C.nodes;
    Mark(S, p, Clip(f), false, |subject|);
    Mark(C, q, Subject(e), false, |clip|);
    ghost var ns1, no, np, cs1, co, cp := S.nodes, S.order, S.pos, C.nodes, C.order, C.pos;
    var e' := InsertBetween(S, entryP, p, pn, |subject|);
    var f' := InsertBetween(C, entryQ, q, qn, |clip|);
    OverlapShape(ns, cs, ns1, no, np, cs1, co, cp, S.nodes, S.order, S.pos, C.nodes, C.order, C.pos, subject, clip, p, q);
  }

  /** The lists of the X-overlap: both partners set, then one record added to
      each list. */
  lemma OverlapShape(ns: seq<Node>, cs: seq<Node>,
                     ns1: seq<Node>, no: seq<nat>, np: seq<nat>, cs1: seq<Node>, co: seq<nat>, cp: seq<nat>,
                     ns': seq<Node>, no': seq<nat>, np': seq<nat>, cs': seq<Node>, co': seq<nat>, cp': seq<nat>,
                     subject: seq<Point>, clip: seq<Point>, p: nat, q: nat)
    requires Side(ns, no, np, subject, true, |cs|) && Side(cs, co, cp, clip, false, |ns|)
    requires p < |subject| && q < |clip|
    requires ns1 == ns[p := ns[p].(intersection := ns[p].intersection || false, corresponding := Clip(|cs|))]
    requires cs1 == cs[q := cs[q].(intersection := cs[q].intersection || false, corresponding := Subject(|ns|))]
    requires SourcesFirst(ns', no', np', |subject|) && AlphaSorted(ns', no')
    requires SourcesFirst(cs', co', cp', |clip|) && AlphaSorted(cs', co')
    requires SameData(ns1, ns') && |ns'| == |ns| + 1 && ns'[|ns|].intersection && ns'[|ns|].corresponding == Clip(q)
    requires SameData(cs1, cs') && |cs'| == |cs| + 1 && cs'[|cs|].intersection && cs'[|cs|].corresponding == Subject(p)
    ensures Side(ns', no', np', subject, true, |cs'|) && Side(cs', co', cp', clip, false, |ns'|)
  {
    MarkGrow(ns, no, np, subject, true, |cs|, p, Clip(|cs|), ns1, ns', no', np', |cs| + 1);
    MarkGrow(cs, co, cp, clip, false, |ns|, q, Subject(|ns|), cs1, cs', co', cp', |ns| + 1);
  }

  /** One list of the X-overlap: record p gets a partner among the m' records
      of the other list, then the list gains a partnered intersection record. */
  lemma MarkGrow(ns: seq<Node>, order: seq<nat>, pos: seq<nat>, poly: seq<Point>, toClip: bool, m: nat,
                 p: nat, r: Ref, ns1: seq<Node>, ns': seq<Node>, order': seq<nat>, pos': seq<nat>, m': nat)
    requires Side(ns, order, pos, poly, toClip, m) && m <= m' && p < |ns| && RefInto(r, toClip, m') && !r.NoRef?
    requires ns1 == ns[p := ns[p].(intersection := ns[p].intersection || false, corresponding := r)]
    requires SourcesFirst(ns', order', pos', |poly|) && AlphaSorted(ns', order')
    requires SameData(ns1, ns') && |ns'| == |ns| + 1 && ns'[|ns|].intersection
    requires RefInto(ns'[|ns|].corresponding, toClip, m') && !ns'[|ns|].corresponding.NoRef?
    ensures Side(ns', order', pos', poly, toClip, m')
  {
    SideMark(ns, order, pos, poly, toClip, m, m', p, r, false);
    Grown(ns1, order, pos, ns', order', pos', poly, toClip, m', m');
  }

  /** The V-intersection and the shared start: Pcurr and Qcurr become
      intersections partnered with each other; nothing is inserted. */
  method LinkBoth(S: VertexList, C: VertexList, p: nat, q: nat, ghost subject: seq<Point>, ghost clip: seq<Point>)
    requires Lists(S, C, subject, clip) && p < |subject| && q < |clip|
    modifies S, C
    ensures Lists(S, C, subject, clip)
    ensures S.order == old(S.order) && S.pos == old(S.pos) && C.order == old(C.order) && C.pos == old(C.pos)
    ensures S.nodes == old(S.nodes)[p := old(S.nodes[p]).(intersection := true, corresponding := Clip(q))]
    ensures C.nodes == old(C.nodes)[q := old(C.nodes[q]).(intersection := true, corresponding := Subject(p))]
  {
    ghost var ns, no, np, cs, co, cp := S.nodes, S.order, S.pos, C.nodes, C.order, C.pos;
    Mark(S, p, Clip(q), true, |subject|);
    Mark(C, q, Subject(p), true, |clip|);
    LinkShape(ns, no, np, cs, co, cp, subject, clip, p, q);
  }

  /** The lists of the V-intersection. */
  lemma LinkShape(ns: seq<Node>, no: seq<nat>, np: seq<nat>, cs: seq<Node>, co: seq<nat>, cp: seq<nat>,
                  subject: seq<Point>, clip: seq<Point>, p: nat, q: nat)
    requires Side(ns, no, np, subject, true, |cs|) && Side(cs, co, cp, clip, false, |ns|)
    requires p < |subject| && q < |clip|
    ensures Side(ns[p := ns[p].(intersection := true, corresponding := Clip(q))], no, np, subject, true, |cs|)
    ensures Side(cs[q := cs[q].(intersection := true, corresponding := Subject(p))], co, cp, clip, false, |ns|)
  {
    SideMark(ns, no, np, subject, true, |cs|, |cs|, p, Clip(q), true);
    SideMark(cs, co, cp, clip, false, |ns|, |ns|, q, Subject(p), true);
    assert ns[p].(intersection := ns[p].intersection || true, corresponding := Clip(q)) == ns[p].(intersection := true, corresponding := Clip(q));
    assert cs[q].(intersection := cs[q].intersection || true, corresponding := Subject(p)) == cs[q].(intersection := true, corresponding := Subject(p));
  }

  /** How many records a pair case adds to the subject and to the clip. */
  function SubjectGain(c: PairCase): nat
  {
    if c.XIntersection? || c.TIntersectionQ? || c.XOverlap? || c.TOverlapQ? then 1 else 0
  }

  function ClipGain(c: PairCase): nat
  {
    if c.XIntersection? || c.TIntersectionP? || c.XOverlap? || c.TOverlapP? then 1 else 0
  }

  /** How many new point objects a pair case creates (the computed point I). */
  function NewPoints(c: PairCase): nat
  {
    if c.XIntersection? || c.TIntersectionP? || c.TIntersectionQ? then 1 else 0
  }

  /** What the handling of the pair (Pcurr = p, Pnext = pn, Qcurr = q) does to
      the records of the subject (ns to ns') and the clip (cs to cs'), new
      point objects getting identity vid. */
  ghost predicate PairEffect(c: PairCase, ns: seq<Node>, cs: seq<Node>, ns': seq<Node>, cs': seq<Node>,
                             p: nat, pn: nat, q: nat, vid: nat)
  {
    p < |ns| && pn < |ns| && q < |cs| &&
    var pc, pnext := ns[p].vertex, ns[pn].vertex;
    var markP := ns[p].(intersection := true, corresponding := Clip(|cs|));
    var markQ := cs[q].(intersection := true, corresponding := Subject(|ns|));
    match c
    case XIntersection(a, b) =>
      var point := IntersectionPoint(pc, pnext, a);
      |ns'| == |ns| + 1 && SameData(ns, ns') && Data(ns'[|ns|]) == NewRecord(point, vid, a, Clip(|cs|)) &&
      |cs'| == |cs| + 1 && SameData(cs, cs') && Data(cs'[|cs|]) == NewRecord(point, vid, b, Subject(|ns|))
    case TIntersectionP(b) =>
      ns' == ns[p := markP] &&
      |cs'| == |cs| + 1 && SameData(cs, cs') &&
      Data(cs'[|cs|]) == NewRecord(IntersectionPoint(pc, pnext, 0.0), vid, b, Subject(p))
    case TIntersectionQ(a) =>
      |ns'| == |ns| + 1 && SameData(ns, ns') &&
      Data(ns'[|ns|]) == NewRecord(IntersectionPoint(pc, pnext, a), vid, a, Clip(q)) &&
      cs' == cs[q := markQ]
    case XOverlap(a, b) =>
      |ns'| == |ns| + 1 && SameData(ns[p := ns[p].(corresponding := Clip(|cs|))], ns') &&
      Data(ns'[|ns|]) == NewRecord(cs[q].vertex, cs[q].vid, a, Clip(q)) &&
      |cs'| == |cs| + 1 && SameData(cs[q := cs[q].(corresponding := Subject(|ns|))], cs') &&
      Data(cs'[|cs|]) == NewRecord(ns[p].vertex, ns[p].vid, b, Subject(p))
    case TOverlapP(b) =>
      ns' == ns[p := markP] &&
      |cs'| == |cs| + 1 && SameData(cs, cs') && Data(cs'[|cs|]) == NewRecord(ns[p].vertex, ns[p].vid, b, Subject(p))
    case TOverlapQ(a) =>
      |ns'| == |ns| + 1 && SameData(ns, ns') && Data(ns'[|ns|]) == NewRecord(cs[q].vertex, cs[q].vid, a, Clip(q)) &&
      cs' == cs[q := markQ]
    case VIntersection =>
      ns' == ns[p := ns[p].(intersection := true, corresponding := Clip(q))] &&
      cs' == cs[q := cs[q].(intersection := true, corresponding := Subject(p))]
    case SharedStart =>
      ns' == ns[p := ns[p].(intersection := true, corresponding := Clip(q))] &&
      cs' == cs[q := cs[q].(intersection := true, corresponding := Subject(p))]
    case NoInteraction =>
      ns' == ns && cs' == cs
  }

  /** Each case adds its gains' worth of records to either list. */
  lemma EffectGains(c: PairCase, ns: seq<Node>, cs: seq<Node>, ns': seq<Node>, cs': seq<Node>, p: nat, pn: nat, q: nat, vid: nat)
    requires PairEffect(c, ns, cs, ns', cs', p, pn, q, vid)
    ensures |ns'| == |ns| + SubjectGain(c) && |cs'| == |cs| + ClipGain(c)
  {
  }

  /** The body of the inner `forEach` for source vertices Pcurr = p and
      Qcurr = q: classify the two edges and insert or mark accordingly. */
  method ProcessPair(S: VertexList, C: VertexList, p: nat, pn: nat, q: nat, qn: nat, vid: nat,
                     ghost subject: seq<Point>, ghost clip: seq<Point>) returns (vid': nat, c: PairCase)
    requires Lists(S, C, subject, clip)
    requires p < |subject| && pn == Following(p, |subject|) && q < |clip| && qn == Following(q, |clip|)
    modifies S, C
    ensures Lists(S, C, subject, clip)
    ensures c == Classify(subject[p], subject[pn], clip[q], clip[qn]) && vid' == vid + NewPoints(c)
    ensures PairEffect(c, old(S.nodes), old(C.nodes), S.nodes, C.nodes, p, pn, q, vid)
    ensures S.pos[p] == old(S.pos[p]) && KeepsPrefix(old(S.order), S.order, old(S.pos[p]))
    ensures C.pos[q] == old(C.pos[q]) && KeepsPrefix(old(C.order), C.order, old(C.pos[q]))
  {
    assert PointAt(S.nodes, subject, p) && PointAt(S.nodes, subject, pn);
    assert PointAt(C.nodes, clip, q) && PointAt(C.nodes, clip, qn);
    var pc, pnext := S.nodes[p].vertex, S.nodes[pn].vertex;
    c := Classify(pc, pnext, C.nodes[q].vertex, C.nodes[qn].vertex);
    vid' := vid + NewPoints(c);
    match c
    case XIntersection(alpha, beta) =>
      var e, f := Cross(S, C, p, pn, q, qn, IntersectionPoint(pc, pnext, alpha), vid, alpha, beta, subject, clip);
    case TIntersectionP(beta) =>
      var entryQ := NewRecord(IntersectionPoint(pc, pnext, 0.0), vid, beta, Subject(p));
      var f := InsertIntoClip(S, C, p, q, qn, entryQ, subject, clip);
    case TIntersectionQ(alpha) =>
      var entryP := NewRecord(IntersectionPoint(pc, pnext, alpha), vid, alpha, Clip(q));
      var e := InsertIntoSubject(S, C, p, pn, q, entryP, subject, clip);
    case VIntersection =>
      LinkBoth(S, C, p, q, subject, clip);
    case XOverlap(alpha, beta) =>
      var e, f := Overlap(S, C, p, pn, q, qn, alpha, beta, subject, clip);
    case TOverlapP(beta) =>
      var entryQ := NewRecord(pc, S.nodes[p].vid, beta, Subject(p));
      var f := InsertIntoClip(S, C, p, q, qn, entryQ, subject, clip);
    case TOverlapQ(alpha) =>
      var entryP := NewRecord(C.nodes[q].vertex, C.nodes[q].vid, alpha, Clip(q));
      var e := InsertIntoSubject(S, C, p, pn, q, entryP, subject, clip);
    case SharedStart =>
      LinkBoth(S, C, p, q, subject, clip);
    case NoInteraction =>
  }

  /** The cases of the pairs of subject edge p with every clip edge, in clip
      order. */
  function Row(subject: seq<Point>, clip: seq<Point>, p: nat): (row: seq<PairCase>)
    requires p < |subject|
    ensures |row| == |clip|
  {
    var pn := Following(p, |subject|);
    seq(|clip|, q requires 0 <= q < |clip| => Classify(subject[p], subject[pn], clip[q], clip[Following(q, |clip|)]))
  }

  /** The cases of all pairs, subject-major, for the first k subject edges. */
  function Pairs(subject: seq<Point>, clip: seq<Point>, k: nat): seq<PairCase>
    requires k <= |subject|
  {
    if k == 0 then [] else Pairs(subject, clip, k - 1) + Row(subject, clip, k - 1)
  }

  /** The records the cases add to the subject and to the clip. */
  function SubjectGains(cases: seq<PairCase>): nat
  {
    if cases == [] then 0 else SubjectGains(cases[..|cases| - 1]) + SubjectGain(cases[|cases| - 1])
  }

  function ClipGains(cases: seq<PairCase>): nat
  {
    if cases == [] then 0 else ClipGains(cases[..|cases| - 1]) + ClipGain(cases[|cases| - 1])
  }

  /** The gains of consecutive runs of cases add up. */
  lemma {:induction false} GainsAppend(a: seq<PairCase>, b: seq<PairCase>)
    ensures SubjectGains(a + b) == SubjectGains(a) + SubjectGains(b)
    ensures ClipGains(a + b) == ClipGains(a) + ClipGains(b)
    decreases |b|
  {
    if b != [] {
      var b' := b[..|b| - 1];
      assert (a + b)[..|a + b| - 1] == a + b';
      GainsAppend(a, b');
    } else {
      assert a + b == a;
    }
  }

  /** The records of both lists and the next point identity, as they stand
      between the handling of two pairs. */
  datatype Snapshot = Snapshot(subject: seq<Node>, clip: seq<Node>, vid: nat)

  /** The pair of subject edge p and clip edge q handled, taking the lists
      from a to b: the effect its case calls for, and the identities of the
      new points it creates. */
  ghost predicate Handled(subject: seq<Point>, clip: seq<Point>, p: nat, q: nat, a: Snapshot, b: Snapshot)
  {
    p < |subject| && q < |clip| &&
    var c := Row(subject, clip, p)[q];
    PairEffect(c, a.subject, a.clip, b.subject, b.clip, p, Following(p, |subject|), q, a.vid) &&
    b.vid == a.vid + NewPoints(c)
  }

  /** The pairs of subject edge p with the first k clip edges handled in clip
      order, the lists passing through states[0], ..., states[k]. */
  ghost predicate RowTrace(subject: seq<Point>, clip: seq<Point>, p: nat, states: seq<Snapshot>, k: nat)
  {
    p < |subject| && k <= |clip| && |states| == k + 1 &&
    forall q :: 0 <= q < k ==> Handled(subject, clip, p, q, states[q], states[q + 1])
  }

  /** The rows of the first k subject edges handled in subject order, from
      first to last, each row starting where the one before it ended. */
  ghost predicate PhaseTrace(subject: seq<Point>, clip: seq<Point>, rows: seq<seq<Snapshot>>, k: nat,
                             first: Snapshot, last: Snapshot)
  {
    k <= |subject| && |rows| == k &&
    (forall p :: 0 <= p < k ==> |rows[p]| == |clip| + 1) &&
    (forall p :: 0 <= p < k ==> RowTrace(subject, clip, p, rows[p], |clip|)) &&
    (forall p :: 0 < p < k ==> rows[p][0] == rows[p - 1][|clip|]) &&
    (if k == 0 then last == first else rows[0][0] == first && rows[k - 1][|clip|] == last)
  }

  /** A row handled one more pair, the k-th clip edge's, further. */
  lemma RowTraceStep(subject: seq<Point>, clip: seq<Point>, p: nat, pn: nat, states: seq<Snapshot>, k: nat,
                     c: PairCase, b: Snapshot)
    requires RowTrace(subject, clip, p, states, k) && k < |clip| && pn == Following(p, |subject|)
    requires c == Classify(subject[p], subject[pn], clip[k], clip[Following(k, |clip|)])
    requires PairEffect(c, states[k].subject, states[k].clip, b.subject, b.clip, p, pn, k, states[k].vid)
    requires b.vid == states[k].vid + NewPoints(c)
    ensures RowTrace(subject, clip, p, states + [b], k + 1)
    ensures (states + [b])[0] == states[0] && (states + [b])[k + 1] == b
  {
    var states' := states + [b];
    assert Row(subject, clip, p)[k] == c;
    forall q | 0 <= q < k + 1
      ensures Handled(subject, clip, p, q, states'[q], states'[q + 1])
    {
      if q < k {
        assert states'[q] == states[q] && states'[q + 1] == states[q + 1];
      } else {
        assert states'[q] == states[k] && states'[q + 1] == b;
      }
    }
  }

  /** The phase handled one more row further. */
  lemma PhaseTraceStep(subject: seq<Point>, clip: seq<Point>, rows: seq<seq<Snapshot>>, k: nat,
                       first: Snapshot, last: Snapshot, row: seq<Snapshot>, last': Snapshot)
    requires PhaseTrace(subject, clip, rows, k, first, last) && k < |subject|
    requires RowTrace(subject, clip, k, row, |clip|) && row[0] == last && row[|clip|] == last'
    ensures PhaseTrace(subject, clip, rows + [row], k + 1, first, last')
  {
    var rows' := rows + [row];
    assert forall p :: 0 <= p < k ==> rows'[p] == rows[p];
    assert rows'[k] == row;
  }

  /** Two snapshots holding the same records, links aside, and the same next
      identity. */
  ghost predicate Alike(a: Snapshot, b: Snapshot)
  {
    |a.subject| == |b.subject| && SameData(a.subject, b.subject) &&
    |a.clip| == |b.clip| && SameData(a.clip, b.clip) && a.vid == b.vid
  }

  /** Records alike stay alike when the same record is relabelled alike. */
  lemma AlikeUpdate(ns: seq<Node>, ms: seq<Node>, i: nat, x: Node, y: Node)
    requires |ns| == |ms| && SameData(ns, ms) && i < |ns| && Data(x) == Data(y)
    ensures SameData(ns[i := x], ms[i := y])
  {
    var ns', ms' := ns[i := x], ms[i := y];
    forall j | 0 <= j < |ns|
      ensures Kept(ns', ms', j)
    {
      assert Kept(ns, ms, j);
    }
  }

  /** Records alike that grow by one record each, alike, stay alike. */
  lemma AlikeGrow(ns: seq<Node>, ms: seq<Node>, ns': seq<Node>, ms': seq<Node>, n: nat)
    requires |ns| == |ms| == n && SameData(ns, ms) && |ns'| == |ms'| == n + 1
    requires SameData(ns, ns') && SameData(ms, ms') && Data(ns'[n]) == Data(ms'[n])
    ensures SameData(ns', ms')
  {
    forall j | 0 <= j < n + 1
      ensures Kept(ns', ms', j)
    {
      if j < n {
        assert Kept(ns, ms, j) && Kept(ns, ns', j) && Kept(ms, ms', j);
      }
    }
  }

  /** What a pair does to the subject is determined by the records it starts
      from, links aside. */
  lemma SubjectDetermined(c: PairCase, ns: seq<Node>, cs: seq<Node>, ns': seq<Node>, cs': seq<Node>,
                          ms: seq<Node>, ds: seq<Node>, ms': seq<Node>, ds': seq<Node>, p: nat, pn: nat, q: nat, vid: nat)
    requires |ns| == |ms| && SameData(ns, ms) && |cs| == |ds| && SameData(cs, ds)
    requires PairEffect(c, ns, cs, ns', cs', p, pn, q, vid) && PairEffect(c, ms, ds, ms', ds', p, pn, q, vid)
    ensures |ns'| == |ms'| && SameData(ns', ms')
  {
    assert Kept(ns, ms, p) && Kept(ns, ms, pn) && Kept(cs, ds, q);
    match c
    case XIntersection(_, _) =>
      AlikeGrow(ns, ms, ns', ms', |ns|);
    case TIntersectionQ(_) =>
      AlikeGrow(ns, ms, ns', ms', |ns|);
    case TOverlapQ(_) =>
      AlikeGrow(ns, ms, ns', ms', |ns|);
    case XOverlap(_, _) =>
      var ns1, ms1 := ns[p := ns[p].(corresponding := Clip(|cs|))], ms[p := ms[p].(corresponding := Clip(|ds|))];
      AlikeUpdate(ns, ms, p, ns1[p], ms1[p]);
      AlikeGrow(ns1, ms1, ns', ms', |ns|);
    case NoInteraction =>
    case _ =>
      AlikeUpdate(ns, ms, p, ns'[p], ms'[p]);
  }

  /** What a pair does to the clip is determined likewise. */
  lemma ClipDetermined(c: PairCase, ns: seq<Node>, cs: seq<Node>, ns': seq<Node>, cs': seq<Node>,
                       ms: seq<Node>, ds: seq<Node>, ms': seq<Node>, ds': seq<Node>, p: nat, pn: nat, q: nat, vid: nat)
    requires |ns| == |ms| && SameData(ns, ms) && |cs| == |ds| && SameData(cs, ds)
    requires PairEffect(c, ns, cs, ns', cs', p, pn, q, vid) && PairEffect(c, ms, ds, ms', ds', p, pn, q, vid)
    ensures |cs'| == |ds'| && SameData(cs', ds')
  {
    assert Kept(ns, ms, p) && Kept(ns, ms, pn) && Kept(cs, ds, q);
    match c
    case XIntersection(_, _) =>
      AlikeGrow(cs, ds, cs', ds', |cs|);
    case TIntersectionP(_) =>
      AlikeGrow(cs, ds, cs', ds', |cs|);
    case TOverlapP(_) =>
      AlikeGrow(cs, ds, cs', ds', |cs|);
    case XOverlap(_, _) =>
      var cs1, ds1 := cs[q := cs[q].(corresponding := Subject(|ns|))], ds[q := ds[q].(corresponding := Subject(|ms|))];
      AlikeUpdate(cs, ds, q, cs1[q], ds1[q]);
      AlikeGrow(cs1, ds1, cs', ds', |cs|);
    case NoInteraction =>
    case _ =>
      AlikeUpdate(cs, ds, q, cs'[q], ds'[q]);
  }

  /** Handling the same pair from alike lists gives alike lists. */
  lemma EffectDetermined(subject: seq<Point>, clip: seq<Point>, p: nat, q: nat,
                         a: Snapshot, b: Snapshot, a': Snapshot, b': Snapshot)
    requires Alike(a, a') && Handled(subject, clip, p, q, a, b) && Handled(subject, clip, p, q, a', b')
    ensures Alike(b, b')
  {
    var c := Row(subject, clip, p)[q];
    var pn := Following(p, |subject|);
    SubjectDetermined(c, a.subject, a.clip, b.subject, b.clip, a'.subject, a'.clip, b'.subject, b'.clip, p, pn, q, a.vid);
    ClipDetermined(c, a.subject, a.clip, b.subject, b.clip, a'.subject, a'.clip, b'.subject, b'.clip, p, pn, q, a.vid);
  }

  /** A row handled from alike lists ends alike. */
  lemma {:induction false} RowDetermined(subject: seq<Point>, clip: seq<Point>, p: nat, s: seq<Snapshot>, s': seq<Snapshot>, k: nat)
    requires RowTrace(subject, clip, p, s, k) && RowTrace(subject, clip, p, s', k) && Alike(s[0], s'[0])
    ensures Alike(s[k], s'[k])
  {
    if k > 0 {
      var j := k - 1;
      RowDetermined(subject, clip, p, s[..k], s'[..k], j);
      assert Handled(subject, clip, p, j, s[j], s[k]) && Handled(subject, clip, p, j, s'[j], s'[k]);
      EffectDetermined(subject, clip, p, j, s[j], s[k], s'[j], s'[k]);
    }
  }

  /** Phase 1 is a function of its inputs: run from alike lists, it ends with
      alike lists, whatever their links. */
  lemma {:induction false} PhaseDetermined(subject: seq<Point>, clip: seq<Point>, rows: seq<seq<Snapshot>>,
                                           rows': seq<seq<Snapshot>>, k: nat,
                                           first: Snapshot, last: Snapshot, first': Snapshot, last': Snapshot)
    requires PhaseTrace(subject, clip, rows, k, first, last) && PhaseTrace(subject, clip, rows', k, first', last')
    requires Alike(first, first')
    ensures Alike(last, last')
  {
    if k > 0 {
      var j := k - 1;
      var mid := if j == 0 then first else rows[j - 1][|clip|];
      var mid' := if j == 0 then first' else rows'[j - 1][|clip|];
      PhaseDetermined(subject, clip, rows[..j], rows'[..j], j, first, mid, first', mid');
      RowDetermined(subject, clip, j, rows[j], rows'[j], |clip|);
    }
  }

  /** Two lists on the same first i + 1 places put every node of the old one
      at or before place i at the same place, and no other node there. */
  lemma PrefixPlaces(ns: seq<Node>, order: seq<nat>, pos: seq<nat>, ns': seq<Node>, order': seq<nat>, pos': seq<nat>,
                     i: nat, j: nat)
    requires Cycle(ns, order, pos) && Cycle(ns', order', pos') && KeepsPrefix(order, order', i) && j < |ns|
    ensures Place(pos', j) <= i <==> Place(pos, j) <= i
    ensures Place(pos, j) <= i ==> Place(pos', j) == Place(pos, j)
  {
    if Place(pos, j) <= i {
      assert order'[pos[j]] == order[pos[j]] == j;
    }
    if Place(pos', j) <= i {
      assert order[pos'[j]] == order'[pos'[j]] == j;
    }
  }

  /** The first i + 1 places kept twice are kept. */
  lemma PrefixTrans(a: seq<nat>, b: seq<nat>, c: seq<nat>, i: nat)
    requires KeepsPrefix(a, b, i) && KeepsPrefix(b, c, i)
    ensures KeepsPrefix(a, c, i)
  {
  }

  /** The cursor of `clip.forEach` (or `subject.forEach`): at place index of a
      list with n sources, of which exactly the first t lie before it. */
  ghost predicate Cursor(ns: seq<Node>, order: seq<nat>, pos: seq<nat>, n: nat, index: nat, curr: int, t: nat)
  {
    SourcesFirst(ns, order, pos, n) && index <= |order| && t <= n &&
    (index < |order| ==> curr == order[index]) && (index == |order| ==> curr == 0) &&
    forall j :: 0 <= j < n ==> (Place(pos, j) < index <==> j < t)
  }

  /** A cursor that is not back at the head stands on a node; on a source it
      stands on the t-th. */
  lemma CursorAt(ns: seq<Node>, order: seq<nat>, pos: seq<nat>, n: nat, index: nat, curr: int, t: nat)
    requires Cursor(ns, order, pos, n, index, curr, t) && (curr != 0 || index == 0)
    ensures index < |order| && 0 <= curr < |ns| && pos[curr] == index
    ensures ns[curr].source ==> curr == t && t < n
  {
    if ns[curr].source {
      assert curr < n;
      var c: nat := curr;
      assert Place(pos, c) == index;
      assert t < n ==> Place(pos, t) >= index;
    }
  }

  /** Advancing the cursor along next, after the list changed behind it only
      (its first index + 1 places kept), past a source (the t-th) or not. */
  lemma CursorStep(ns: seq<Node>, order: seq<nat>, pos: seq<nat>, ns': seq<Node>, order': seq<nat>, pos': seq<nat>,
                   n: nat, index: nat, curr: nat, t: nat)
    requires Cursor(ns, order, pos, n, index, curr, t) && index < |order| && pos[curr] == index
    requires SourcesFirst(ns', order', pos', n) && KeepsPrefix(order, order', index) && |ns| <= |ns'|
    requires ns[curr].source ==> curr == t
    ensures Cursor(ns', order', pos', n, index + 1, ns'[curr].next, if ns[curr].source then t + 1 else t)
  {
    var t' := if ns[curr].source then t + 1 else t;
    forall j | 0 <= j < n
      ensures Place(pos', j) < index + 1 <==> j < t'
    {
      PrefixPlaces(ns, order, pos, ns', order', pos', index, j);
    }
    assert order'[index] == curr;
    CycleNext(ns', order', pos', index);
  }

  /** `clip.forEach(Qcurr => ...)` for the subject edge from Pcurr = p: every
      clip source Qcurr, in clip order, is paired with the edge, Qnext being
      found with `find`; records inserted after the cursor are visited and
      skipped as non-sources. */
  method ClipPass(S: VertexList, C: VertexList, p: nat, pn: nat, vid: nat,
                  ghost subject: seq<Point>, ghost clip: seq<Point>)
    returns (vid': nat, ghost row: seq<PairCase>, ghost states: seq<Snapshot>)
    requires Lists(S, C, subject, clip) && p < |subject| && pn == Following(p, |subject|)
    modifies S, C
    ensures Lists(S, C, subject, clip)
    ensures row == Row(subject, clip, p) && vid' >= vid
    ensures RowTrace(subject, clip, p, states, |clip|)
    ensures states[0] == Snapshot(old(S.nodes), old(C.nodes), vid) && states[|clip|] == Snapshot(S.nodes, C.nodes, vid')
    ensures |S.nodes| == old(|S.nodes|) + SubjectGains(row) && |C.nodes| == old(|C.nodes|) + ClipGains(row)
    ensures S.pos[p] == old(S.pos[p]) && KeepsPrefix(old(S.order), S.order, old(S.pos[p]))
  {
    vid', row, states := vid, [], [Snapshot(S.nodes, C.nodes, vid)];
    var index := 0;
    var curr: int := 0;
    ghost var t := 0;
    while curr != NULL && (curr != 0 || index == 0)
      invariant Lists(S, C, subject, clip)
      invariant Cursor(C.nodes, C.order, C.pos, |clip|, index, curr, t)
      invariant row == Row(subject, clip, p)[..t] && vid' >= vid
      invariant RowTrace(subject, clip, p, states, t)
      invariant states[0] == Snapshot(old(S.nodes), old(C.nodes), vid) && states[t] == Snapshot(S.nodes, C.nodes, vid')
      invariant |S.nodes| == old(|S.nodes|) + SubjectGains(row) && |C.nodes| == old(|C.nodes|) + ClipGains(row)
      invariant S.pos[p] == old(S.pos[p]) && KeepsPrefix(old(S.order), S.order, old(S.pos[p]))
      decreases |clip| - t, |C.order| - index
    {
      CursorAt(C.nodes, C.order, C.pos, |clip|, index, curr, t);
      vid', curr, t, row, states := ClipStep(S, C, p, pn, curr, index, vid', t, row, states, old(S.order), old(S.pos[p]),
                                             old(|S.nodes|), old(|C.nodes|), subject, clip);
      index := index + 1;
    }
    CursorDone(C.nodes, C.order, C.pos, |clip|, index, curr, t);
    assert Row(subject, clip, p)[..|clip|] == Row(subject, clip, p);
  }

  /** One step of `clip.forEach`: at a source Qcurr = q (the t-th), find
      Qnext and handle the pair, extending the row and its trace by one pair;
      then move the cursor on. */
  method ClipStep(S: VertexList, C: VertexList, p: nat, pn: nat, q: nat, index: nat, vid: nat, ghost t: nat,
                  ghost row: seq<PairCase>, ghost states: seq<Snapshot>, ghost o0: seq<nat>, ghost at: nat,
                  ghost n0: int, ghost m0: int, ghost subject: seq<Point>, ghost clip: seq<Point>)
    returns (vid': nat, next: int, ghost t': nat, ghost row': seq<PairCase>, ghost states': seq<Snapshot>)
    requires Lists(S, C, subject, clip) && p < |subject| && pn == Following(p, |subject|)
    requires Cursor(C.nodes, C.order, C.pos, |clip|, index, q, t)
    requires index < |C.order| && q < |C.nodes| && C.pos[q] == index
    requires C.nodes[q].source ==> q == t && t < |clip|
    requires row == Row(subject, clip, p)[..t] && RowTrace(subject, clip, p, states, t)
    requires states[t] == Snapshot(S.nodes, C.nodes, vid)
    requires |S.nodes| == n0 + SubjectGains(row) && |C.nodes| == m0 + ClipGains(row)
    requires S.pos[p] == at && KeepsPrefix(o0, S.order, at)
    modifies S, C
    ensures Lists(S, C, subject, clip) && vid' >= vid
    ensures Cursor(C.nodes, C.order, C.pos, |clip|, index + 1, next, t')
    ensures row' == Row(subject, clip, p)[..t'] && RowTrace(subject, clip, p, states', t')
    ensures states'[0] == states[0] && states'[t'] == Snapshot(S.nodes, C.nodes, vid')
    ensures |S.nodes| == n0 + SubjectGains(row') && |C.nodes| == m0 + ClipGains(row')
    ensures S.pos[p] == at && KeepsPrefix(o0, S.order, at)
    ensures t' == t + 1 || (t' == t && |C.order| == old(|C.order|))
  {
    ghost var ns, no, cs, co, cp := S.nodes, S.order, C.nodes, C.order, C.pos;
    vid', t', row', states' := vid, t, row, states;
    if C.nodes[q].source {
      var qn := FindNext(C, q, |clip|);
      var c;
      vid', c := ProcessPair(S, C, p, pn, q, qn, vid, subject, clip);
      ghost var ns', no', cs' := S.nodes, S.order, C.nodes;
      EffectGains(c, ns, cs, ns', cs', p, pn, q, vid);
      PrefixTrans(o0, no, no', at);
      RowStep(subject, clip, p, row, c, t);
      RowTraceStep(subject, clip, p, pn, states, t, c, Snapshot(ns', cs', vid'));
      t', row', states' := t + 1, row + [c], states + [Snapshot(ns', cs', vid')];
    }
    CursorStep(cs, co, cp, C.nodes, C.order, C.pos, |clip|, index, q, t);
    next := C.nodes[q].next;
  }

  /** A cursor back at the head after leaving it has passed every source. */
  lemma CursorDone(ns: seq<Node>, order: seq<nat>, pos: seq<nat>, n: nat, index: nat, curr: int, t: nat)
    requires Cursor(ns, order, pos, n, index, curr, t) && curr == 0 && index > 0
    ensures t == n
  {
    assert pos[0] == 0;
    assert index == |order|;
    assert t < n ==> Place(pos, t) < |order|;
  }

  /** Appending the case of the t-th clip edge to the first t cases of the row. */
  lemma RowStep(subject: seq<Point>, clip: seq<Point>, p: nat, row: seq<PairCase>, c: PairCase, t: nat)
    requires p < |subject| && t < |clip| && row == Row(subject, clip, p)[..t]
    requires c == Classify(subject[p], subject[Following(p, |subject|)], clip[t], clip[Following(t, |clip|)])
    ensures row + [c] == Row(subject, clip, p)[..t + 1]
    ensures SubjectGains(row + [c]) == SubjectGains(row) + SubjectGain(c)
    ensures ClipGains(row + [c]) == ClipGains(row) + ClipGain(c)
  {
    assert (row + [c])[..t] == row;
  }

  /** `Pcurr.find(Pnext => Pnext !== Pcurr && Pnext.source)`: the next source
      vertex along the list, wrapping round to the first. */
  method FindNext(l: VertexList, k: nat, ghost n: nat) returns (r: nat)
    requires SourcesFirst(l.nodes, l.order, l.pos, n) && k < n
    ensures r == Following(k, n)
  {
    NextSource(l, n, k);
    var found := l.Find(k, OtherSource(l.nodes, k));
    r := found;
  }

  /** The intersection phase: `subject.forEach(Pcurr => ...)` over the
      subject sources, each paired (in `ClipPass`) with every clip source.
      Every pair of a subject edge and a clip edge is handled exactly once,
      subject-major, and the lists keep the shape of phase 1 throughout. */
  method FindIntersections(S: VertexList, C: VertexList, vid: nat, ghost subject: seq<Point>, ghost clip: seq<Point>)
    returns (vid': nat, ghost cases: seq<PairCase>, ghost rows: seq<seq<Snapshot>>)
    requires Lists(S, C, subject, clip)
    modifies S, C
    ensures Lists(S, C, subject, clip)
    ensures cases == Pairs(subject, clip, |subject|) && vid' >= vid
    ensures |S.nodes| == old(|S.nodes|) + SubjectGains(cases) && |C.nodes| == old(|C.nodes|) + ClipGains(cases)
    ensures PhaseTrace(subject, clip, rows, |subject|, Snapshot(old(S.nodes), old(C.nodes), vid), Snapshot(S.nodes, C.nodes, vid'))
  {
    vid', cases, rows := vid, [], [];
    var index := 0;
    var curr: int := 0;
    ghost var t := 0;
    while curr != NULL && (curr != 0 || index == 0)
      invariant Lists(S, C, subject, clip)
      invariant Cursor(S.nodes, S.order, S.pos, |subject|, index, curr, t)
      invariant cases == Pairs(subject, clip, t) && vid' >= vid
      invariant |S.nodes| == old(|S.nodes|) + SubjectGains(cases) && |C.nodes| == old(|C.nodes|) + ClipGains(cases)
      invariant PhaseTrace(subject, clip, rows, t, Snapshot(old(S.nodes), old(C.nodes), vid), Snapshot(S.nodes, C.nodes, vid'))
      decreases |subject| - t, |S.order| - index
    {
      CursorAt(S.nodes, S.order, S.pos, |subject|, index, curr, t);
      vid', curr, t, cases, rows := SubjectStep(S, C, curr, index, vid', t, cases, rows, Snapshot(old(S.nodes), old(C.nodes), vid),
                                               old(|S.nodes|), old(|C.nodes|), subject, clip);
      index := index + 1;
    }
    CursorDone(S.nodes, S.order, S.pos, |subject|, index, curr, t);
  }

  /** One step of `subject.forEach`: at a source Pcurr (the t-th), find Pnext
      and pair the edge with every clip edge; then move the cursor on. */
  method SubjectStep(S: VertexList, C: VertexList, curr: nat, index: nat, vid: nat, ghost t: nat,
                     ghost cases: seq<PairCase>, ghost rows: seq<seq<Snapshot>>, ghost first: Snapshot,
                     ghost s0: int, ghost c0: int, ghost subject: seq<Point>, ghost clip: seq<Point>)
    returns (vid': nat, next: int, ghost t': nat, ghost cases': seq<PairCase>, ghost rows': seq<seq<Snapshot>>)
    requires Lists(S, C, subject, clip) && Cursor(S.nodes, S.order, S.pos, |subject|, index, curr, t)
    requires index < |S.order| && curr < |S.nodes| && S.pos[curr] == index
    requires S.nodes[curr].source ==> curr == t && t < |subject|
    requires cases == Pairs(subject, clip, t)
    requires |S.nodes| == s0 + SubjectGains(cases) && |C.nodes| == c0 + ClipGains(cases)
    requires PhaseTrace(subject, clip, rows, t, first, Snapshot(S.nodes, C.nodes, vid))
    modifies S, C
    ensures PhaseTrace(subject, clip, rows', t', first, Snapshot(S.nodes, C.nodes, vid'))
    ensures Lists(S, C, subject, clip) && Cursor(S.nodes, S.order, S.pos, |subject|, index + 1, next, t')
    ensures cases' == Pairs(subject, clip, t') && vid' >= vid
    ensures |S.nodes| == s0 + SubjectGains(cases') && |C.nodes| == c0 + ClipGains(cases')
    ensures t' == t + 1 || (t' == t && |S.order| == old(|S.order|))
  {
    ghost var ns, no, np := S.nodes, S.order, S.pos;
    vid', t', cases', rows' := vid, t, cases, rows;
    if S.nodes[curr].source {
      vid', cases', rows' := PairSubjectEdge(S, C, curr, vid, cases, rows, first, s0, c0, subject, clip);
      t' := t + 1;
    }
    ghost var ns', no', np' := S.nodes, S.order, S.pos;
    CursorStep(ns, no, np, ns', no', np', |subject|, index, curr, t);
    next := S.nodes[curr].next;
  }

  /** The body of `subject.forEach` at the source Pcurr = p: find Pnext,
      then pair the edge with every clip edge. */
  method PairSubjectEdge(S: VertexList, C: VertexList, p: nat, vid: nat, ghost cases: seq<PairCase>,
                         ghost rows: seq<seq<Snapshot>>, ghost first: Snapshot,
                         ghost s0: int, ghost c0: int, ghost subject: seq<Point>, ghost clip: seq<Point>)
    returns (vid': nat, ghost cases': seq<PairCase>, ghost rows': seq<seq<Snapshot>>)
    requires Lists(S, C, subject, clip) && p < |subject| && cases == Pairs(subject, clip, p)
    requires |S.nodes| == s0 + SubjectGains(cases) && |C.nodes| == c0 + ClipGains(cases)
    requires PhaseTrace(subject, clip, rows, p, first, Snapshot(S.nodes, C.nodes, vid))
    modifies S, C
    ensures PhaseTrace(subject, clip, rows', p + 1, first, Snapshot(S.nodes, C.nodes, vid'))
    ensures Lists(S, C, subject, clip) && cases' == Pairs(subject, clip, p + 1) && vid' >= vid
    ensures |S.nodes| == s0 + SubjectGains(cases') && |C.nodes| == c0 + ClipGains(cases')
    ensures S.pos[p] == old(S.pos[p]) && KeepsPrefix(old(S.order), S.order, old(S.pos[p]))
  {
    var pn := FindNext(S, p, |subject|);
    ghost var row, states;
    ghost var last := Snapshot(S.nodes, C.nodes, vid);
    vid', row, states := ClipPass(S, C, p, pn, vid, subject, clip);
    GainsAppend(cases, row);
    PhaseTraceStep(subject, clip, rows, p, first, last, states, Snapshot(S.nodes, C.nodes, vid'));
    cases', rows' := cases + row, rows + [states];
  }

  /** The lists `fromArray` builds from the two inputs, the subject's points
      with identities 0, 1, ... and the clip's continuing after them. */
  method Prepare(subject: seq<Point>, clip: seq<Point>) returns (S: VertexList, C: VertexList)
    requires |subject| >= 3 && |clip| >= 3
    ensures fresh(S) && fresh(C) && Lists(S, C, subject, clip)
    ensures |S.nodes| == |subject| && |C.nodes| == |clip|
    ensures forall k :: 0 <= k < |subject| ==> S.nodes[k].vid == k
    ensures forall k :: 0 <= k < |clip| ==> C.nodes[k].vid == |subject| + k
  {
    S := new VertexList.FromArray(subject, 0);
    C := new VertexList.FromArray(clip, |subject|);
    InitialSide(S.nodes, S.order, S.pos, subject, true, |clip|, 0);
    InitialSide(C.nodes, C.order, C.pos, clip, false, |subject|, |subject|);
  }

  /** A list just built from poly is a side of phase 1 before any pair is
      handled. */
  lemma InitialSide(ns: seq<Node>, order: seq<nat>, pos: seq<nat>, poly: seq<Point>, toClip: bool, m: nat, v: nat)
    requires Cycle(ns, order, pos) && order == Range(|poly|) && |ns| == |poly| >= 2
    requires forall k :: 0 <= k < |ns| ==>
      ns[k] == Fresh(poly[k], v + k).(source := true, next := ns[k].next, prev := ns[k].prev)
    ensures Side(ns, order, pos, poly, toClip, m)
  {
    forall i | 0 <= i < |ns|
      ensures Place(pos, i) == i
    {
      assert order[pos[i]] == i;
    }
    forall k | 0 <= k < |order|
      ensures SortedStep(ns, order, k)
    {
    }
    forall i | 0 <= i < |ns|
      ensures LinkedAt(ns, |poly|, toClip, m, i) && PointAt(ns, poly, i)
    {
    }
  }
}
