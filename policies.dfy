/** The operation policies: what intersection, union and difference answer
    in the cases the engine settles without tracing, and which way they
    walk the polygons while tracing. */
module Policies {
  import opened Util
  import opened VertexLists

  /** The three operations. */
  datatype Op = Intersect | Union | Difference

  /** A traversal direction along a vertex list: `'next'` or `'prev'`. */
  datatype Dir = Next | Prev

  /** The cases the engine settles without tracing. */
  datatype Case = WithSelf | SubjectEmpty | ClipEmpty | SubjectContained | ClipContained | Disjoint

  /** A policy's answer in a settled case: a list of polygons, or, for a
      difference whose clip lies inside the subject, the hole split. */
  datatype Answer = Polygons(polys: seq<seq<Point>>) | SplitSubject

  /** The polygon-valued members of the three tables. */
  function Table(op: Op, c: Case, subject: seq<Point>, clip: seq<Point>): (r: Answer)
    ensures r.SplitSubject? <==> op == Difference && c == ClipContained
    ensures r.Polygons? ==> 1 <= |r.polys| <= 2
  {
    match op
    case Intersect =>
      (match c
       case WithSelf => Polygons([subject])
       case SubjectEmpty => Polygons([[]])
       case ClipEmpty => Polygons([[]])
       case SubjectContained => Polygons([subject])
       case ClipContained => Polygons([clip])
       case Disjoint => Polygons([[]]))
    case Union =>
      (match c
       case WithSelf => Polygons([subject])
       case SubjectEmpty => Polygons([clip])
       case ClipEmpty => Polygons([subject])
       case SubjectContained => Polygons([clip])
       case ClipContained => Polygons([subject])
       case Disjoint => Polygons([subject, clip]))
    case Difference =>
      (match c
       case WithSelf => Polygons([[]])
       case SubjectEmpty => Polygons([[]])
       case ClipEmpty => Polygons([subject])
       case SubjectContained => Polygons([[]])
       case ClipContained => SplitSubject
       case Disjoint => Polygons([subject]))
  }

  /** The polygon of the two that lies inside the other. */
  function Inner(c: Case, subject: seq<Point>, clip: seq<Point>): seq<Point>
    requires c == SubjectContained || c == ClipContained
  {
    if c == SubjectContained then subject else clip
  }

  /** The polygon of the two that contains the other. */
  function Outer(c: Case, subject: seq<Point>, clip: seq<Point>): seq<Point>
    requires c == SubjectContained || c == ClipContained
  {
    if c == SubjectContained then clip else subject
  }

  /** When one polygon contains the other, the intersection is the inner
      polygon and the union the outer one; the difference is empty when the
      subject is the inner one and needs the hole split otherwise. */
  lemma Containment(c: Case, subject: seq<Point>, clip: seq<Point>)
    requires c == SubjectContained || c == ClipContained
    ensures Table(Intersect, c, subject, clip) == Polygons([Inner(c, subject, clip)])
    ensures Table(Union, c, subject, clip) == Polygons([Outer(c, subject, clip)])
    ensures Table(Difference, c, subject, clip) == if c == SubjectContained then Polygons([[]]) else SplitSubject
  {
  }

  /** Every settled answer but the hole split is one or two polygons, each
      the subject, the clip or the empty polygon; the clip appears only in
      intersection and union, and two polygons only in the union of
      disjoint operands. */
  lemma TableShape(op: Op, c: Case, subject: seq<Point>, clip: seq<Point>)
    ensures var r := Table(op, c, subject, clip);
      (r.SplitSubject? <==> op == Difference && c == ClipContained) &&
      (r.Polygons? ==>
        1 <= |r.polys| <= 2 && (|r.polys| == 2 <==> op == Union && c == Disjoint) &&
        (forall p :: p in r.polys ==> p == subject || p == clip || p == []) &&
        (op == Difference ==> forall p :: p in r.polys ==> p == subject || p == []))
  {
  }

  /** The opposite direction. */
  function Reverse(d: Dir): (r: Dir)
    ensures r != d
  {
    if d == Next then Prev else Next
  }

  /** `INITIAL_DIRECTION(entry)`: a label is truthy only when it is ENTRY
      (EXIT is false and an unset label undefined). Intersection walks
      forward from an entry; union and difference walk backward. */
  function InitialDirection(op: Op, entry: Label): (d: Dir)
    ensures op == Intersect ==> (d == Next <==> entry == Entry)
    ensures op != Intersect ==> (d == Prev <==> entry == Entry)
  {
    match op
    case Intersect => if entry == Entry then Next else Prev
    case Union => if entry == Entry then Prev else Next
    case Difference => if entry == Entry then Prev else Next
  }

  /** `SWITCHED_POLYGON(dir)`: the identity for intersection and union;
      difference reverses its direction on every switch. */
  function Switched(op: Op, d: Dir): (r: Dir)
    ensures op == Difference ==> r != d
    ensures op != Difference ==> r == d
  {
    if op == Difference then (if d == Prev then Next else Prev) else d
  }

  /** Union and difference start every walk the other way from
      intersection, and switching polygons twice restores the direction. */
  lemma Directions(op: Op, entry: Label, d: Dir)
    ensures InitialDirection(Union, entry) == InitialDirection(Difference, entry) == Reverse(InitialDirection(Intersect, entry))
    ensures Switched(op, Switched(op, d)) == d
    ensures Switched(Difference, d) == Reverse(d)
  {
  }
}
