/** `greinerHormann`: input validation, the three phases over two vertex
    lists, the no-crossing fallback and the collinear post-processing. */
module Engine {
  import opened Util
  import opened VertexLists
  import opened IntersectionPhase
  import opened Labelling
  import opened Tracing
  import opened Collinear
  import Winding
  import Policies

  /** What a call of the engine comes to: a policy answer, the error thrown
      for an operand of one or two points, a TypeError, or a loop that never
      ends. */
  datatype Outcome = Answer(answer: Policies.Answer) | TooFewPoints | TypeError | Loops

  /** `subject ??= []`: a missing operand is the empty polygon. */
  function Operand(p: Option<seq<Point>>): (r: seq<Point>)
    ensures p.None? ==> r == []
    ensures p.Some? ==> r == p.value
  {
    if p.None? then [] else p.value
  }

  /** The answers settled before any list is built: an empty subject first,
      then an empty clip, then an operand too short to be a polygon. */
  function Early(subject: seq<Point>, clip: seq<Point>, op: Policies.Op): (r: Option<Outcome>)
    ensures r.None? <==> |subject| >= 3 && |clip| >= 3
    ensures |subject| == 0 ==> r == Some(Answer(Policies.Table(op, Policies.SubjectEmpty, subject, clip)))
    ensures |subject| > 0 && |clip| == 0 ==> r == Some(Answer(Policies.Table(op, Policies.ClipEmpty, subject, clip)))
    ensures r == Some(TooFewPoints) <==> 0 < |subject| && 0 < |clip| && (|subject| < 3 || |clip| < 3)
  {
    if |subject| == 0 then Some(Answer(Policies.Table(op, Policies.SubjectEmpty, subject, clip)))
    else if |clip| == 0 then Some(Answer(Policies.Table(op, Policies.ClipEmpty, subject, clip)))
    else if |subject| < 3 || |clip| < 3 then Some(TooFewPoints)
    else None
  }

  /** Some record of ns has its point inside the polygon ring. */
  ghost predicate AnyInside(ns: seq<Node>, ring: seq<Point>)
  {
    exists i :: 0 <= i < |ns| && InsideOdd(ns[i].vertex, ring)
  }

  /** The no-crossing fallback, as intended: the clip lies inside the subject
      when one of its points does, else the subject inside the clip when one
      of its points does, else the two are disjoint. */
  ghost function Settle(ns: seq<Node>, cs: seq<Node>, sRing: seq<Point>, cRing: seq<Point>): (c: Policies.Case)
    ensures c == Policies.ClipContained <==> AnyInside(cs, sRing)
    ensures c == Policies.SubjectContained <==> !AnyInside(cs, sRing) && AnyInside(ns, cRing)
    ensures c == Policies.Disjoint <==> !AnyInside(cs, sRing) && !AnyInside(ns, cRing)
  {
    if AnyInside(cs, sRing) then Policies.ClipContained
    else if AnyInside(ns, cRing) then Policies.SubjectContained
    else Policies.Disjoint
  }

  /** The no-crossing fallback as written: it calls `some` on a vertex list,
      which has no such method, so it always throws a TypeError. */
  function FallbackAsWritten(ns: seq<Node>, cs: seq<Node>): (r: Outcome)
    ensures !r.Answer?
  {
    Outcome.TypeError
  }

  /** Whenever phase 3 finds no crossing, the fallback as written throws where
      the intended one answers with the policy's containment or disjoint
      result. */
  lemma FallbackDisagrees(op: Policies.Op, subject: seq<Point>, clip: seq<Point>,
                          ns: seq<Node>, cs: seq<Node>, sRing: seq<Point>, cRing: seq<Point>)
    ensures FallbackAsWritten(ns, cs) == Outcome.TypeError
    ensures Finish(op, subject, clip, NoCrossing, Settle(ns, cs, sRing, cRing)).Answer?
    ensures Finish(op, subject, clip, NoCrossing, Settle(ns, cs, sRing, cRing)) != FallbackAsWritten(ns, cs)
  {
  }

  /** What the engine answers once phase 3 has run: the fallback's case
      when nothing crossed, the error of a broken trace, or the traced
      components after post-processing. */
  ghost function Finish(op: Policies.Op, subject: seq<Point>, clip: seq<Point>, t: Trace, c: Policies.Case): (r: Outcome)
    ensures r.Answer? <==> t.NoCrossing? || t.Traced?
    ensures t.Traced? ==> r.answer.Polygons? && |r.answer.polys| == |t.polys|
  {
    match t
    case NoCrossing => Answer(Policies.Table(op, c, subject, clip))
    case Raised => Outcome.TypeError
    case Endless => Loops
    case Traced(polys) => Answer(Policies.Polygons(PruneAll(polys)))
  }

  /** Only a difference whose clip lies inside the subject, with nothing
      crossing, asks for the hole split. */
  lemma SplitOnlyContained(op: Policies.Op, subject: seq<Point>, clip: seq<Point>, t: Trace, c: Policies.Case)
    ensures Finish(op, subject, clip, t, c) == Answer(Policies.SplitSubject) <==>
      op == Policies.Difference && t == NoCrossing && c == Policies.ClipContained
  {
    Policies.TableShape(op, c, subject, clip);
  }

  /** Every traced component after post-processing. */
  function PruneAll(polys: seq<seq<Point>>): (r: seq<seq<Point>>)
    ensures |r| == |polys|
  {
    seq(|polys|, k requires 0 <= k < |polys| => Pruned(polys[k]))
  }

  /** Post-processing keeps every traced component's points in order and
      never lengthens it. */
  lemma PruneAllKeepsOrder(polys: seq<seq<Point>>)
    ensures forall k :: 0 <= k < |polys| ==>
      |PruneAll(polys)[k]| <= |polys[k]| && exists idx :: Picks(PruneAll(polys)[k], polys[k], idx)
  {
    forall k | 0 <= k < |polys|
      ensures |PruneAll(polys)[k]| <= |polys[k]| && exists idx :: Picks(PruneAll(polys)[k], polys[k], idx)
    {
      var idx := PrunedKeepsOrder(polys[k]);
      assert Picks(PruneAll(polys)[k], polys[k], idx);
    }
  }

  /** With nothing crossing: intersection answers the clip when one of its
      points lies inside the subject, union answers both polygons when
      neither has a point inside the other, and difference asks for the hole
      split exactly when a clip point lies inside the subject. */
  lemma NoCrossingOutcome(op: Policies.Op, subject: seq<Point>, clip: seq<Point>,
                          ns: seq<Node>, cs: seq<Node>, sRing: seq<Point>, cRing: seq<Point>)
    ensures var r := Finish(op, subject, clip, NoCrossing, Settle(ns, cs, sRing, cRing));
      (op == Policies.Intersect && AnyInside(cs, sRing) ==> r == Answer(Policies.Polygons([clip]))) &&
      (op == Policies.Intersect && !AnyInside(cs, sRing) && AnyInside(ns, cRing) ==> r == Answer(Policies.Polygons([subject]))) &&
      (op == Policies.Union && !AnyInside(cs, sRing) && !AnyInside(ns, cRing) ==> r == Answer(Policies.Polygons([subject, clip]))) &&
      (op == Policies.Difference ==> (r == Answer(Policies.SplitSubject) <==> AnyInside(cs, sRing)))
  {
  }

  /** `list.some(entry => inside(entry.vertex, other))`, walking the list
      from its head, as the fallback means it. */
  method SomeInside(l: VertexList, other: VertexList) returns (r: bool)
    requires l.Valid() && other.Valid()
    ensures r <==> AnyInside(l.nodes, other.Ring(0))
  {
    l.WalkPermutation(0);
    ghost var w := l.Walk(0);
    var index := 0;
    var curr: int := 0;
    while curr != NULL && (curr != 0 || index == 0)
      invariant 0 <= index <= |w|
      invariant index < |w| ==> curr == w[index]
      invariant index == |w| ==> curr == 0
      invariant forall j :: 0 <= j < index ==> !InsideOdd(l.nodes[w[j]].vertex, other.Ring(0))
      decreases |w| - index
    {
      l.WalkAt(0, 0);
      l.WalkAt(0, index);
      var inside := Winding.Inside(l.nodes[curr].vertex, other, 0);
      if inside {
        return true;
      }
      l.WalkStep(0, index);
      curr := l.nodes[curr].next;
      index := index + 1;
    }
    forall i | 0 <= i < |l.nodes|
      ensures !InsideOdd(l.nodes[i].vertex, other.Ring(0))
    {
      assert i in w;
      var j :| 0 <= j < |w| && w[j] == i;
    }
    r := false;
  }

  /** The no-crossing fallback over the two lists, as intended. */
  method Containment(S: VertexList, C: VertexList) returns (c: Policies.Case)
    requires S.Valid() && C.Valid()
    ensures c == Settle(S.nodes, C.nodes, S.Ring(0), C.Ring(0))
  {
    var clipInside := SomeInside(C, S);
    if clipInside {
      return Policies.ClipContained;
    }
    var subjectInside := SomeInside(S, C);
    if subjectInside {
      return Policies.SubjectContained;
    }
    return Policies.Disjoint;
  }

  /** Phase 3 and what follows it, over lists that phase 2 has labelled. */
  method Conclude(S: VertexList, C: VertexList, op: Policies.Op, subject: seq<Point>, clip: seq<Point>)
    returns (r: Outcome)
    requires Pair(S, C)
    modifies S, C
    ensures Threaded(old(S.nodes), old(C.nodes)) && Within(old(S.Walk(0)), old(|S.nodes|))
    ensures r == Finish(op, subject, clip, TraceSpec(old(S.nodes), old(C.nodes), op, old(S.Walk(0))),
                        Settle(old(S.nodes), old(C.nodes), old(S.Ring(0)), old(C.Ring(0))))
  {
    ghost var sRing, cRing := S.Ring(0), C.Ring(0);
    var t := TracePhase(S, C, op);
    match t
    case NoCrossing =>
      assert S.Ring(0) == sRing && C.Ring(0) == cRing;
      var c := Containment(S, C);
      r := Answer(Policies.Table(op, c, subject, clip));
    case Raised =>
      r := Outcome.TypeError;
    case Endless =>
      r := Loops;
    case Traced(polys) =>
      var pruned := PostProcess(polys);
      assert pruned == PruneAll(polys);
      r := Answer(Policies.Polygons(pruned));
  }

  /** One run of the engine: its answer, the phase it reached, and the
      records, subject walk and rings phase 3 finds. */
  datatype Run = Run(r: Outcome, phase: Phase, ns: seq<Node>, cs: seq<Node>, w: seq<nat>,
                     sRing: seq<Point>, cRing: seq<Point>)

  /** What `greinerHormann(subject, clip, op)` answers in a run: an early
      answer when an operand is short; otherwise WITH_SELF for identical
      inputs, a TypeError when no start exists, and once started `Finish` of
      the trace and the containment case; the hole split is asked for exactly
      in the contained-clip DIFFERENCE case with nothing crossing. */
  ghost predicate Answers(subject: seq<Point>, clip: seq<Point>, op: Policies.Op, run: Run)
  {
    (Early(subject, clip, op).Some? ==> run.r == Early(subject, clip, op).value) &&
    (Early(subject, clip, op).None? ==>
      (run.phase.Identical? ==> run.r == Answer(Policies.Table(op, Policies.WithSelf, subject, clip))) &&
      (run.phase.Unstartable? ==> run.r == Outcome.TypeError) &&
      (run.phase.Started? ==>
        Threaded(run.ns, run.cs) && Within(run.w, |run.ns|) &&
        run.r == Finish(op, subject, clip, TraceSpec(run.ns, run.cs, op, run.w),
                        Settle(run.ns, run.cs, run.sRing, run.cRing)))) &&
    (run.r == Answer(Policies.SplitSubject) <==>
      op == Policies.Difference && Early(subject, clip, op).None? && run.phase.Started? &&
      TraceSpec(run.ns, run.cs, op, run.w) == NoCrossing &&
      Settle(run.ns, run.cs, run.sRing, run.cRing) == Policies.ClipContained)
  }

  /** `greinerHormann(subject, clip, mode)`: validation, then the lists, the
      intersection phase, the labelling phase and, once both lists have a
      seed, phase 3 and what follows it. The ghost outputs are the records,
      the subject walk and the rings as phase 3 finds them. */
  method GreinerHormann(subject0: Option<seq<Point>>, clip0: Option<seq<Point>>, op: Policies.Op)
    returns (r: Outcome, ghost phase: Phase, ghost ns: seq<Node>, ghost cs: seq<Node>, ghost w: seq<nat>,
             ghost sRing: seq<Point>, ghost cRing: seq<Point>)
    ensures Answers(Operand(subject0), Operand(clip0), op, Run(r, phase, ns, cs, w, sRing, cRing))
  {
    var subject, clip := Operand(subject0), Operand(clip0);
    var early := Early(subject, clip, op);
    if early.Some? {
      Policies.TableShape(op, Policies.SubjectEmpty, subject, clip);
      Policies.TableShape(op, Policies.ClipEmpty, subject, clip);
      return early.value, Identical, [], [], [], [], [];
    }
    var S, C := Prepare(subject, clip);
    var vid, cases, rows := FindIntersections(S, C, |subject| + |clip|, subject, clip);
    ListsPair(S, C, subject, clip);
    var labelled, vid', ns1, cs1, ns2, cs2 := LabelPhase(S, C, vid);
    phase := labelled;
    ns, cs, w, sRing, cRing := [], [], [], [], [];
    match labelled
    case Identical =>
      Policies.TableShape(op, Policies.WithSelf, subject, clip);
      r := Answer(Policies.Table(op, Policies.WithSelf, subject, clip));
    case Unstartable =>
      r := Outcome.TypeError;
    case Started(_, _) =>
      ns, cs, w, sRing, cRing := S.nodes, C.nodes, S.Walk(0), S.Ring(0), C.Ring(0);
      r := Conclude(S, C, op, subject, clip);
      SplitOnlyContained(op, subject, clip, TraceSpec(ns, cs, op, w), Settle(ns, cs, sRing, cRing));
  }
}
