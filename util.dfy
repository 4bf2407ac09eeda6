/** Geometric predicates of the clipper: twice the signed triangle area, the
    epsilon-tolerant sign, JavaScript's truncating remainder and the winding
    number of a point with respect to a closed ring of points. */
module Util {

  datatype Option<T> = None | Some(value: T)

  /** A point of the plane; coordinates are exact reals. */
  datatype Point = Point(x: real, y: real)

  /** Two numbers closer than this are treated as equal (1.0e-8). */
  const EPSILON: real := 0.00000001

  function Abs(x: real): real { if x < 0.0 then -x else x }

  /** Twice the signed area of the triangle P, Q, R: the cross product
      (Q - P) x (R - P). A triangle with two equal corners has no area. */
  function A(p: Point, q: Point, r: Point): (a: real)
    ensures p == q || q == r || r == p ==> a == 0.0
  {
    (q.x - p.x) * (r.y - p.y) - (q.y - p.y) * (r.x - p.x)
  }

  /** Swapping the first two corners negates the area. */
  lemma ASwap(p: Point, q: Point, r: Point)
    ensures A(q, p, r) == -A(p, q, r)
  {
  }

  /** A cyclic rotation of the corners keeps the area. */
  lemma ARotate(p: Point, q: Point, r: Point)
    ensures A(q, r, p) == A(p, q, r)
  {
  }

  /** The point reached from a by going s along the direction a->b and t along
      that direction turned a quarter counter-clockwise. */
  function Offset(a: Point, b: Point, s: real, t: real): Point
  {
    Point(a.x + s * (b.x - a.x) - t * (b.y - a.y), a.y + s * (b.y - a.y) + t * (b.x - a.x))
  }

  function SquaredLength(a: Point, b: Point): real
  {
    (b.x - a.x) * (b.x - a.x) + (b.y - a.y) * (b.y - a.y)
  }

  /** "isLeft": A(a, b, p) is positive for a point left of the directed line a->b,
      zero on it and negative right of it; its value is the left offset scaled
      by the squared length of a->b. */
  lemma IsLeft(a: Point, b: Point, s: real, t: real)
    ensures A(a, b, Offset(a, b, s, t)) == t * SquaredLength(a, b)
    ensures SquaredLength(a, b) > 0.0 ==> (A(a, b, Offset(a, b, s, t)) > 0.0 <==> t > 0.0)
    ensures SquaredLength(a, b) > 0.0 ==> (A(a, b, Offset(a, b, s, t)) < 0.0 <==> t < 0.0)
  {
    var dx, dy := b.x - a.x, b.y - a.y;
    var p := Offset(a, b, s, t);
    calc {
      A(a, b, p);
      dx * (s * dy + t * dx) - dy * (s * dx - t * dy);
      { assert dx * (s * dy + t * dx) == s * dx * dy + t * dx * dx;
        assert dy * (s * dx - t * dy) == s * dx * dy - t * dy * dy; }
      t * (dx * dx + dy * dy);
    }
    var l := SquaredLength(a, b);
    if l > 0.0 {
      if t > 0.0 { ProductPositive(t, l); }
      if t < 0.0 { ProductPositive(-t, l); }
    }
  }

  lemma ProductPositive(x: real, y: real)
    requires x > 0.0 && y > 0.0
    ensures x * y > 0.0
  {
  }

  /** The epsilon-tolerant sign: 0 within EPSILON of zero, otherwise the mathematical sign. */
  function Sign(x: real): (s: int)
    ensures s == 0 || s == 1 || s == -1
    ensures s == 0 <==> -EPSILON < x < EPSILON
    ensures s == 1 <==> x >= EPSILON
    ensures s == -1 <==> x <= -EPSILON
  {
    if Abs(x) < EPSILON then 0 else if x > 0.0 then 1 else -1
  }

  /** Sign is odd. */
  lemma SignNegate(x: real)
    ensures Sign(-x) == -Sign(x)
  {
  }

  /** JavaScript's `%`: the remainder takes the sign of the dividend. */
  function JsRem(a: int, b: int): int
    requires b != 0
  {
    var m := if b < 0 then -b else b;
    if a >= 0 then a % m else -((-a) % m)
  }

  /** `wn % 2 === 1` holds exactly for positive odd counts; negative odd counts give -1. */
  lemma JsRemOdd(wn: int)
    ensures JsRem(wn, 2) == 1 <==> wn > 0 && wn % 2 == 1
    ensures wn < 0 && wn % 2 == 1 ==> JsRem(wn, 2) == -1
  {
    if wn < 0 {
      assert (-wn) % 2 == 0 <==> wn % 2 == 0;
    }
  }

  /** The contribution of the edge a->b to the winding number of p: +1 for an
      upward edge (a.y <= p.y < b.y) with p strictly left of it, -1 for a downward
      edge (b.y <= p.y < a.y) with p strictly right of it, 0 otherwise. */
  function EdgeWinding(p: Point, a: Point, b: Point): (w: int)
    ensures -1 <= w <= 1
    ensures w != 0 ==> A(a, b, p) != 0.0 && a.y != b.y
  {
    if a.y <= p.y then
      (if b.y > p.y && A(a, b, p) > 0.0 then 1 else 0)
    else
      (if b.y <= p.y && A(a, b, p) < 0.0 then -1 else 0)
  }

  /** What each edge contributes, stated by direction; a horizontal edge never counts. */
  lemma EdgeWindingCases(p: Point, a: Point, b: Point)
    ensures EdgeWinding(p, a, b) == 1 <==> a.y <= p.y < b.y && A(a, b, p) > 0.0
    ensures EdgeWinding(p, a, b) == -1 <==> b.y <= p.y < a.y && A(a, b, p) < 0.0
    ensures EdgeWinding(p, a, b) == 0 <==> !(a.y <= p.y < b.y && A(a, b, p) > 0.0) && !(b.y <= p.y < a.y && A(a, b, p) < 0.0)
    ensures a.y == b.y ==> EdgeWinding(p, a, b) == 0
  {
  }

  /** Sum of the edge contributions along the open chain s[0] -> s[1] -> ... -> s[|s|-1]. */
  function ChainWinding(p: Point, s: seq<Point>): (wn: int)
    ensures -|s| < wn < |s| || (|s| == 0 && wn == 0)
    decreases |s|
  {
    if |s| < 2 then 0 else EdgeWinding(p, s[0], s[1]) + ChainWinding(p, s[1..])
  }

  /** The winding number of p with respect to the closed ring poly (the last
      point joined back to the first). */
  function WindingNumber(p: Point, poly: seq<Point>): (wn: int)
    ensures -|poly| <= wn <= |poly|
    ensures |poly| <= 1 ==> wn == 0
  {
    if |poly| == 0 then 0 else ChainWinding(p, poly + [poly[0]])
  }

  /** The inside test: an odd winding number under JavaScript's `%`. */
  function InsideOdd(p: Point, poly: seq<Point>): bool
  {
    JsRem(WindingNumber(p, poly), 2) == 1
  }

  /** A point is inside exactly when its winding number is positive and odd. */
  lemma InsideOddMeansPositiveOdd(p: Point, poly: seq<Point>)
    ensures InsideOdd(p, poly) <==> WindingNumber(p, poly) > 0 && WindingNumber(p, poly) % 2 == 1
    ensures WindingNumber(p, poly) == -1 ==> !InsideOdd(p, poly)
  {
    JsRemOdd(WindingNumber(p, poly));
  }

  /** Appending one point to a chain adds the contribution of the new last edge. */
  lemma {:induction false} ChainWindingSnoc(p: Point, s: seq<Point>, b: Point)
    requires |s| >= 1
    ensures ChainWinding(p, s + [b]) == ChainWinding(p, s) + EdgeWinding(p, s[|s| - 1], b)
    decreases |s|
  {
    if |s| == 1 {
      assert s + [b] == [s[0], b];
      assert (s + [b])[1..] == [b];
    } else {
      assert (s + [b])[1..] == s[1..] + [b];
      ChainWindingSnoc(p, s[1..], b);
    }
  }

  /** The running sum of the first i edges of the chain s, the quantity a walk
      along s accumulates. */
  function WindingUpTo(p: Point, s: seq<Point>, i: nat): int
    requires i < |s|
  {
    if i == 0 then 0 else WindingUpTo(p, s, i - 1) + EdgeWinding(p, s[i - 1], s[i])
  }

  /** Summed up to the last point, the running sum is the chain's winding sum. */
  lemma {:induction false} WindingUpToChain(p: Point, s: seq<Point>, i: nat)
    requires i < |s|
    ensures WindingUpTo(p, s, i) == ChainWinding(p, s[..i + 1])
    decreases i
  {
    if i == 0 {
      assert |s[..1]| == 1;
    } else {
      WindingUpToChain(p, s, i - 1);
      assert s[..i + 1] == s[..i] + [s[i]];
      ChainWindingSnoc(p, s[..i], s[i]);
    }
  }

  /** Moving the first point of the ring to its end keeps the winding number. */
  lemma RotateOnce(p: Point, poly: seq<Point>)
    requires |poly| >= 1
    ensures WindingNumber(p, poly[1..] + [poly[0]]) == WindingNumber(p, poly)
  {
    if |poly| == 1 {
      assert poly[1..] + [poly[0]] == poly;
    } else {
      var r := poly[1..] + [poly[0]];
      assert r[0] == poly[1];
      var closed := poly + [poly[0]];
      assert closed[1..] == r;
      assert ChainWinding(p, closed) == EdgeWinding(p, poly[0], poly[1]) + ChainWinding(p, r);
      ChainWindingSnoc(p, r, poly[1]);
      assert r[|r| - 1] == poly[0];
    }
  }

  /** The winding number does not depend on which point of the ring comes first. */
  lemma {:induction false} WindingNumberRotation(p: Point, poly: seq<Point>, k: nat)
    requires k <= |poly|
    ensures WindingNumber(p, poly[k..] + poly[..k]) == WindingNumber(p, poly)
    decreases k
  {
    if k == 0 {
      assert poly[0..] + poly[..0] == poly;
    } else {
      WindingNumberRotation(p, poly, k - 1);
      var r := poly[k - 1..] + poly[..k - 1];
      assert r[0] == poly[k - 1];
      assert r[1..] + [r[0]] == poly[k..] + poly[..k];
      RotateOnce(p, r);
    }
  }
}
