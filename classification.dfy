/** The local geometric decisions of the clipper: on which side of a polygonal
    chain a point lies, and how two edges meet (Foster et al.'s X, T and V
    intersections and X and T overlaps). */
module Classification {
  import opened Util

  /** LEFT (+1) or RIGHT (-1) of a polygonal chain. */
  datatype SideOf = Left | Right
  {
    function Flip(): SideOf
    {
      if this == Left then Right else Left
    }
  }

  /** `side`: where Q lies with respect to the chain P1 -> P2 -> P3. For a left
      turn Q must be left of both edges, for a right turn of either, and for a
      straight chain of the first. */
  function Side(q: Point, p1: Point, p2: Point, p3: Point): (s: SideOf)
    ensures A(q, p1, p2) > 0.0 && A(q, p2, p3) > 0.0 ==> s == Left
    ensures A(q, p1, p2) <= 0.0 && A(q, p2, p3) <= 0.0 ==> s == Right
    ensures s == Left && Sign(A(p1, p2, p3)) != -1 ==> A(q, p1, p2) > 0.0
  {
    var s1 := A(q, p1, p2);
    var s2 := A(q, p2, p3);
    var s3 := A(p1, p2, p3);
    if Sign(s3) == 1 then (if s1 > 0.0 && s2 > 0.0 then Left else Right)
    else if Sign(s3) == 0 then (if s1 > 0.0 then Left else Right)
    else (if s1 > 0.0 || s2 > 0.0 then Left else Right)
  }

  /** Walking the chain the other way round exchanges left and right, for a
      point on neither edge's line (and, when the chain is nearly straight,
      on the same side of both lines). */
  lemma SideReverse(q: Point, p1: Point, p2: Point, p3: Point)
    requires A(q, p1, p2) != 0.0 && A(q, p2, p3) != 0.0
    requires Sign(A(p1, p2, p3)) == 0 ==> (A(q, p1, p2) > 0.0 <==> A(q, p2, p3) > 0.0)
    ensures Side(q, p3, p2, p1) == Side(q, p1, p2, p3).Flip()
  {
    ASwap(p3, p2, p1);
    ARotate(p1, p2, p3);
    ASwap(q, p2, p1);
    ASwap(q, p3, p2);
    SignNegate(A(p1, p2, p3));
  }

  /** How the edges Pcurr -> Pnext and Qcurr -> Qnext meet. alpha and beta
      place a point on the subject and the clip edge respectively. */
  datatype PairCase =
    | XIntersection(alpha: real, beta: real)  // proper crossing of the edge interiors
    | TIntersectionP(beta: real)              // Pcurr lies inside the clip edge
    | TIntersectionQ(alpha: real)             // Qcurr lies inside the subject edge
    | VIntersection                           // Pcurr and Qcurr coincide, edges not parallel
    | XOverlap(alpha: real, beta: real)       // collinear, each start lies inside the other edge
    | TOverlapP(beta: real)                   // collinear, only Pcurr lies inside the clip edge
    | TOverlapQ(alpha: real)                  // collinear, only Qcurr lies inside the subject edge
    | SharedStart                             // collinear, Pcurr and Qcurr coincide
    | NoInteraction
  {
    /** The same meeting seen with subject and clip exchanged. */
    function Swapped(): PairCase
    {
      match this
      case XIntersection(a, b) => XIntersection(b, a)
      case TIntersectionP(b) => TIntersectionQ(b)
      case TIntersectionQ(a) => TIntersectionP(a)
      case VIntersection => VIntersection
      case XOverlap(a, b) => XOverlap(b, a)
      case TOverlapP(b) => TOverlapQ(b)
      case TOverlapQ(a) => TOverlapP(a)
      case SharedStart => SharedStart
      case NoInteraction => NoInteraction
    }
  }

  /** The four signed areas differ by opposite amounts: APcurr - APnext ==
      -(AQcurr - AQnext), so both divisions of the non-parallel case are safe. */
  lemma AreaDifferences(pc: Point, pn: Point, qc: Point, qn: Point)
    ensures A(qc, pc, pn) - A(qn, pc, pn) == -(A(pc, qc, qn) - A(pn, qc, qn))
  {
  }

  /** The squared length of a -> b, the JavaScript `**2` sum. */
  function Norm2(a: Point, b: Point): real
  {
    (b.x - a.x) * (b.x - a.x) + (b.y - a.y) * (b.y - a.y)
  }

  /** Where the projection of q falls on the line a -> b, in units of a -> b;
      None where JavaScript computes 0/0 = NaN (a == b), which fails every
      comparison. */
  function Project(q: Point, a: Point, b: Point): Option<real>
  {
    var d := Norm2(a, b);
    if d == 0.0 then None
    else Some(((q.x - a.x) * (b.x - a.x) + (q.y - a.y) * (b.y - a.y)) / d)
  }

  /** The edge-pair classification of the intersection phase. */
  function Classify(pc: Point, pn: Point, qc: Point, qn: Point): (c: PairCase)
    ensures c.XIntersection? || c.XOverlap? ==> 0.0 < c.alpha < 1.0 && 0.0 < c.beta < 1.0
    ensures c.TIntersectionP? || c.TOverlapP? ==> 0.0 < c.beta < 1.0
    ensures c.TIntersectionQ? || c.TOverlapQ? ==> 0.0 < c.alpha < 1.0
    ensures c.XIntersection? || c.TIntersectionP? || c.TIntersectionQ? || c.VIntersection? ==>
      Abs(A(pc, qc, qn) - A(pn, qc, qn)) > EPSILON
    ensures c.XOverlap? || c.TOverlapP? || c.TOverlapQ? || c.SharedStart? ==>
      Sign(A(pc, qc, qn)) == 0 && Sign(A(pn, qc, qn)) == 0 && pc != pn && qc != qn
  {
    var apc := A(pc, qc, qn);
    var apn := A(pn, qc, qn);
    var aqc := A(qc, pc, pn);
    var aqn := A(qn, pc, pn);
    if Abs(apc - apn) > EPSILON then
      // not parallel: one intersection point of the two lines
      AreaDifferences(pc, pn, qc, qn);
      var alpha := apc / (apc - apn);
      var beta := aqc / (aqc - aqn);
      if 0.0 < alpha < 1.0 && 0.0 < beta < 1.0 then XIntersection(alpha, beta)
      else if alpha == 0.0 && 0.0 < beta < 1.0 then TIntersectionP(beta)
      else if 0.0 < alpha < 1.0 && beta == 0.0 then TIntersectionQ(alpha)
      else if alpha == 0.0 && beta == 0.0 then VIntersection
      else NoInteraction
    else if Sign(apc) == 0 && Sign(apn) == 0 && Sign(aqc) == 0 && Sign(aqn) == 0 then
      // collinear: the edges may overlap
      match (Project(qc, pc, pn), Project(pc, qc, qn))
      case (Some(alpha), Some(beta)) =>
        if 0.0 < alpha < 1.0 && 0.0 < beta < 1.0 then XOverlap(alpha, beta)
        else if (alpha < 0.0 || alpha >= 1.0) && 0.0 < beta < 1.0 then TOverlapP(beta)
        else if 0.0 < alpha < 1.0 && (beta < 0.0 || beta >= 1.0) then TOverlapQ(alpha)
        else if alpha == 0.0 && beta == 0.0 then SharedStart
        else NoInteraction
      case _ => NoInteraction
    else
      // parallel and apart
      NoInteraction
  }

  /** The intersection point of a non-parallel pair: alpha of the way from
      Pcurr to Pnext. */
  function IntersectionPoint(pc: Point, pn: Point, alpha: real): Point
  {
    Point(pc.x + alpha * (pn.x - pc.x), pc.y + alpha * (pn.y - pc.y))
  }

  /** Exchanging the roles of subject and clip edge swaps alpha and beta and
      the P and Q variants of every case. */
  lemma ClassifySymmetric(pc: Point, pn: Point, qc: Point, qn: Point)
    ensures Classify(qc, qn, pc, pn) == Classify(pc, pn, qc, qn).Swapped()
  {
    AreaDifferences(pc, pn, qc, qn);
  }

  /** The first argument of A enters affinely. */
  lemma AAffine(pc: Point, pn: Point, alpha: real, qc: Point, qn: Point)
    ensures A(IntersectionPoint(pc, pn, alpha), qc, qn) == A(pc, qc, qn) + alpha * (A(pn, qc, qn) - A(pc, qc, qn))
  {
  }

  /** In the non-parallel cases the computed point lies on the clip edge's line,
      and alpha is zero exactly when Pcurr does. */
  lemma IntersectionOnClipLine(pc: Point, pn: Point, qc: Point, qn: Point)
    requires Abs(A(pc, qc, qn) - A(pn, qc, qn)) > EPSILON
    ensures var alpha := A(pc, qc, qn) / (A(pc, qc, qn) - A(pn, qc, qn));
      A(IntersectionPoint(pc, pn, alpha), qc, qn) == 0.0 &&
      (alpha == 0.0 <==> A(pc, qc, qn) == 0.0)
  {
    var apc, apn := A(pc, qc, qn), A(pn, qc, qn);
    var d := apc - apn;
    var alpha := apc / d;
    assert alpha * d == apc;
    AAffine(pc, pn, alpha, qc, qn);
    assert alpha * (apn - apc) == -(alpha * d);
  }

  /** A proper crossing puts Pcurr and Pnext strictly on opposite sides of the
      clip edge's line, and Qcurr and Qnext on opposite sides of the subject's. */
  lemma CrossingSeparates(pc: Point, pn: Point, qc: Point, qn: Point)
    requires Classify(pc, pn, qc, qn).XIntersection?
    ensures (A(pc, qc, qn) > 0.0 && A(pn, qc, qn) < 0.0) || (A(pc, qc, qn) < 0.0 && A(pn, qc, qn) > 0.0)
    ensures (A(qc, pc, pn) > 0.0 && A(qn, pc, pn) < 0.0) || (A(qc, pc, pn) < 0.0 && A(qn, pc, pn) > 0.0)
  {
    AreaDifferences(pc, pn, qc, qn);
    var apc, apn := A(pc, qc, qn), A(pn, qc, qn);
    var aqc, aqn := A(qc, pc, pn), A(qn, pc, pn);
    Between01(apc, apn);
    Between01(aqc, aqn);
  }

  /** a / (a - b) strictly between 0 and 1 means a and b have opposite signs. */
  lemma Between01(a: real, b: real)
    requires a - b != 0.0 && 0.0 < a / (a - b) < 1.0
    ensures (a > 0.0 && b < 0.0) || (a < 0.0 && b > 0.0)
  {
    var d := a - b;
    var t := a / d;
    assert t * d == a;
    var e := if d > 0.0 then d else -d;
    ProductPositive(t, e);
    ProductPositive(1.0 - t, e);
    assert (1.0 - t) * e == e - t * e;
    if d > 0.0 {
      assert t * e == a;
    } else {
      assert t * e == -(t * d);
    }
  }
}
