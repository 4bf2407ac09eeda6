/** The hole split of a difference whose clip lies inside the subject: the
    subject is cut along a horizontal segment through the clip into two
    pieces, each of which crosses the clip, and the difference is taken of
    each piece. Coordinates are exact reals. */
module HoleSplit {
  import opened Util

  /** `Math.min(...poly.map(v => v.y))` */
  function MinY(poly: seq<Point>): (m: real)
    requires |poly| > 0
    ensures forall i :: 0 <= i < |poly| ==> m <= poly[i].y
    ensures exists i :: 0 <= i < |poly| && poly[i].y == m
    decreases |poly|
  {
    if |poly| == 1 then poly[0].y
    else
      var rest := MinY(poly[1..]);
      assert forall i :: 1 <= i < |poly| ==> poly[i] == poly[1..][i - 1];
      if poly[0].y <= rest then poly[0].y else rest
  }

  /** `Math.max(...poly.map(v => v.y))` */
  function MaxY(poly: seq<Point>): (m: real)
    requires |poly| > 0
    ensures forall i :: 0 <= i < |poly| ==> m >= poly[i].y
    ensures exists i :: 0 <= i < |poly| && poly[i].y == m
    decreases |poly|
  {
    if |poly| == 1 then poly[0].y
    else
      var rest := MaxY(poly[1..]);
      assert forall i :: 1 <= i < |poly| ==> poly[i] == poly[1..][i - 1];
      if poly[0].y >= rest then poly[0].y else rest
  }

  /** The height of the cutting line: halfway between the clip's lowest and
      highest point, so strictly between them unless the clip is flat. */
  function SplitY(clip: seq<Point>): (y: real)
    requires |clip| > 0
    ensures MinY(clip) <= y <= MaxY(clip)
    ensures MinY(clip) < MaxY(clip) ==> MinY(clip) < y < MaxY(clip)
  {
    (MinY(clip) + MaxY(clip)) / 2.0
  }

  /** The first i in [from, n) with p(i); n when there is none. */
  function FirstIndex(n: nat, p: nat -> bool, from: nat): (r: nat)
    requires from <= n
    ensures from <= r <= n && (r < n ==> p(r))
    ensures forall j :: from <= j < r ==> !p(j)
    decreases n - from
  {
    if from == n then n else if p(from) then from else FirstIndex(n, p, from + 1)
  }

  /** The edge from poly[i] to its successor (the closing edge included). */
  function Succ(poly: seq<Point>, i: nat): Point
    requires i < |poly|
  {
    poly[(i + 1) % |poly|]
  }

  /** The edge a->b crosses height y, counting an end on the line as below. */
  predicate Straddles(a: Point, b: Point, y: real)
  {
    (a.y <= y && b.y > y) || (a.y > y && b.y <= y)
  }

  /** The edge a->b crosses height y going up. */
  predicate Upward(a: Point, b: Point, y: real)
  {
    a.y <= y && b.y > y
  }

  /** The edge a->b crosses height y going down. */
  predicate Downward(a: Point, b: Point, y: real)
  {
    a.y > y && b.y <= y
  }

  /** Where the line through a and b (not horizontal) meets height y. */
  function CrossX(a: Point, b: Point, y: real): real
    requires a.y != b.y
  {
    a.x + (y - a.y) / (b.y - a.y) * (b.x - a.x)
  }

  /** Cx: where the first clip edge, in index order, that straddles the
      line meets it; None (the source's undefined) when none does. */
  function ClipX(clip: seq<Point>, y: real): Option<real>
    requires |clip| > 0
  {
    var k := FirstIndex(|clip|, (i: nat) => i < |clip| && Straddles(clip[i], Succ(clip, i), y), 0);
    if k < |clip| then Some(CrossX(clip[k], Succ(clip, k), y)) else None
  }

  /** Cx is undefined exactly when no clip edge straddles the line, and
      otherwise it lies on the first edge that does. */
  lemma ClipXNone(clip: seq<Point>, y: real)
    requires |clip| > 0
    ensures ClipX(clip, y).None? <==> forall i :: 0 <= i < |clip| ==> !Straddles(clip[i], Succ(clip, i), y)
    ensures ClipX(clip, y).Some? ==>
      exists i :: 0 <= i < |clip| && Straddles(clip[i], Succ(clip, i), y) && ClipX(clip, y).value == CrossX(clip[i], Succ(clip, i), y)
  {
    var p := (i: nat) => i < |clip| && Straddles(clip[i], Succ(clip, i), y);
    var k := FirstIndex(|clip|, p, 0);
    if k < |clip| {
      assert p(k);
    } else {
      forall i | 0 <= i < |clip|
        ensures !Straddles(clip[i], Succ(clip, i), y)
      {
        assert !p(i);
      }
    }
  }

  /** The search for Cx: a loop over the clip's edges that stops at the
      first one straddling the line. */
  method FindClipX(clip: seq<Point>, y: real) returns (cx: Option<real>)
    requires |clip| > 0
    ensures cx == ClipX(clip, y)
  {
    ghost var p := (i: nat) => i < |clip| && Straddles(clip[i], Succ(clip, i), y);
    cx := None;
    var i := 0;
    while i < |clip|
      invariant 0 <= i <= |clip| && FirstIndex(|clip|, p, 0) == FirstIndex(|clip|, p, i)
    {
      var q1, q2 := clip[i], clip[(i + 1) % |clip|];
      if (q1.y <= y && q2.y > y) || (q1.y > y && q2.y <= y) {
        cx := Some(CrossX(q1, q2, y));
        return;
      }
      i := i + 1;
    }
  }

  /** A point on the cutting line, with the index of the subject edge it
      lies on. */
  datatype Cut = Cut(at: Point, edge: nat)

  /** x is strictly nearer to Cx than x0; with Cx undefined every distance
      is NaN and no comparison holds. */
  predicate Nearer(x: real, x0: real, cx: Option<real>)
  {
    cx.Some? && Abs(x - cx.value) < Abs(x0 - cx.value)
  }

  /** S1 and i1 after the loop has looked at the first k subject edges:
      the upward crossing nearest Cx, the earliest one on ties. */
  function NearestUp(subject: seq<Point>, y: real, cx: Option<real>, k: nat): (r: Option<Cut>)
    requires k <= |subject|
    ensures r.Some? ==>
      r.value.edge < k && Upward(subject[r.value.edge], Succ(subject, r.value.edge), y) &&
      r.value.at == Point(CrossX(subject[r.value.edge], Succ(subject, r.value.edge), y), y)
  {
    if k == 0 then None
    else
      var prior := NearestUp(subject, y, cx, k - 1);
      var p1, p2 := subject[k - 1], Succ(subject, k - 1);
      if Upward(p1, p2, y) && (prior.None? || Nearer(CrossX(p1, p2, y), prior.value.at.x, cx))
      then Some(Cut(Point(CrossX(p1, p2, y), y), k - 1))
      else prior
  }

  /** The crossing x of the upward subject edge i. */
  function UpX(subject: seq<Point>, y: real, i: nat): real
    requires i < |subject| && Upward(subject[i], Succ(subject, i), y)
  {
    CrossX(subject[i], Succ(subject, i), y)
  }

  /** S1 is found exactly when some subject edge crosses the line upward. */
  lemma {:induction false} NearestUpFound(subject: seq<Point>, y: real, cx: Option<real>, k: nat)
    requires k <= |subject|
    ensures NearestUp(subject, y, cx, k).None? <==> forall j :: 0 <= j < k ==> !Upward(subject[j], Succ(subject, j), y)
  {
    if k > 0 {
      NearestUpFound(subject, y, cx, k - 1);
    }
  }

  /** With Cx known, no upward crossing is nearer to it than S1. */
  lemma {:induction false} NearestUpNearest(subject: seq<Point>, y: real, cx: Option<real>, k: nat, j: nat)
    requires j < k <= |subject| && Upward(subject[j], Succ(subject, j), y) && cx.Some?
    ensures NearestUp(subject, y, cx, k).Some?
    ensures Abs(UpX(subject, y, j) - cx.value) >= Abs(NearestUp(subject, y, cx, k).value.at.x - cx.value)
  {
    var r := NearestUp(subject, y, cx, k);
    var prior := NearestUp(subject, y, cx, k - 1);
    if j < k - 1 {
      NearestUpNearest(subject, y, cx, k - 1, j);
      if r != prior {
        assert Nearer(UpX(subject, y, k - 1), prior.value.at.x, cx);
      }
    } else if r != prior {
      assert r.value.at.x == UpX(subject, y, j);
    } else {
      assert !Nearer(UpX(subject, y, j), prior.value.at.x, cx);
    }
  }

  /** With Cx known, every upward crossing before S1's edge is strictly
      farther from Cx: ties keep the earliest. */
  lemma {:induction false} NearestUpEarliest(subject: seq<Point>, y: real, cx: Option<real>, k: nat, j: nat)
    requires j < k <= |subject| && cx.Some? && Upward(subject[j], Succ(subject, j), y)
    requires NearestUp(subject, y, cx, k).Some? && j < NearestUp(subject, y, cx, k).value.edge
    ensures Abs(UpX(subject, y, j) - cx.value) > Abs(NearestUp(subject, y, cx, k).value.at.x - cx.value)
  {
    var prior := NearestUp(subject, y, cx, k - 1);
    if NearestUp(subject, y, cx, k) == prior {
      NearestUpEarliest(subject, y, cx, k - 1, j);
    } else {
      NearestUpNearest(subject, y, cx, k - 1, j);
    }
  }

  /** With Cx undefined no distance compares, so S1 is the first upward
      crossing. */
  lemma {:induction false} NearestUpFirst(subject: seq<Point>, y: real, k: nat, j: nat)
    requires k <= |subject| && NearestUp(subject, y, None, k).Some? && j < NearestUp(subject, y, None, k).value.edge
    ensures !Upward(subject[j], Succ(subject, j), y)
  {
    var prior := NearestUp(subject, y, None, k - 1);
    if NearestUp(subject, y, None, k) == prior {
      NearestUpFirst(subject, y, k - 1, j);
    } else {
      NearestUpFound(subject, y, None, k - 1);
    }
  }

  /** The search for S1: a loop over every subject edge keeping the upward
      crossing nearest Cx. */
  method FindS1(subject: seq<Point>, y: real, cx: Option<real>) returns (s1: Option<Cut>)
    requires |subject| > 0
    ensures s1 == NearestUp(subject, y, cx, |subject|)
  {
    s1 := None;
    var i := 0;
    while i < |subject|
      invariant 0 <= i <= |subject| && s1 == NearestUp(subject, y, cx, i)
    {
      var p1, p2 := subject[i], subject[(i + 1) % |subject|];
      if p1.y <= y && p2.y > y {
        var x := CrossX(p1, p2, y);
        if s1.None? || Nearer(x, s1.value.at.x, cx) {
          s1 := Some(Cut(Point(x, y), i));
        }
      }
      i := i + 1;
    }
  }

  /** x and x1 lie on different sides of Cx (by the epsilon sign, so one of
      them may be on it); with Cx undefined both signs are NaN, which differ. */
  predicate OtherSide(x: real, x1: real, cx: Option<real>)
  {
    cx.None? || Sign(x - cx.value) != Sign(x1 - cx.value)
  }

  /** The j-th subject edge after edge i1, wrapping around. */
  function After(subject: seq<Point>, i1: nat, j: nat): nat
    requires |subject| > 0
    ensures After(subject, i1, j) < |subject|
  {
    (i1 + j) % |subject|
  }

  /** The edges j = 1 .. n - 1 after i1 that cross the line downward on the
      other side of Cx from S1. */
  predicate S2At(subject: seq<Point>, y: real, cx: Option<real>, s1: Cut, j: nat)
    requires |subject| > 0
  {
    1 <= j < |subject| &&
    var e := After(subject, s1.edge, j);
    Downward(subject[e], Succ(subject, e), y) && OtherSide(CrossX(subject[e], Succ(subject, e), y), s1.at.x, cx)
  }

  /** S2 and i2: the first edge after S1's, going round, that crosses the
      line downward on the other side of Cx; None when there is none. */
  function FirstS2(subject: seq<Point>, y: real, cx: Option<real>, s1: Cut): (r: Option<Cut>)
    requires s1.edge < |subject|
    ensures r.Some? ==> r.value.edge != s1.edge && r.value.edge < |subject|
  {
    var k := FirstIndex(|subject|, (j: nat) => S2At(subject, y, cx, s1, j), 1);
    if k < |subject| then
      var e := After(subject, s1.edge, k);
      assert e != s1.edge by { ModSmall(s1.edge + k, |subject|); }
      Some(Cut(Point(CrossX(subject[e], Succ(subject, e), y), y), e))
    else None
  }

  /** Below 2n, the remainder by n subtracts n at most once. */
  lemma ModSmall(x: int, n: int)
    requires 0 < n && 0 <= x < 2 * n
    ensures x % n == if x < n then x else x - n
  {
    if x < n {
      assert x == 0 * n + x;
    } else {
      assert x == 1 * n + (x - n);
    }
  }

  /** The search for S2: a loop over the edges after S1's that stops at
      the first one crossing downward on the other side of Cx. */
  method FindS2(subject: seq<Point>, y: real, cx: Option<real>, s1: Cut) returns (s2: Option<Cut>)
    requires s1.edge < |subject|
    ensures s2 == FirstS2(subject, y, cx, s1)
  {
    ghost var p := (j: nat) => S2At(subject, y, cx, s1, j);
    var n := |subject|;
    var j := 1;
    while j < n
      invariant 1 <= j <= n || n == 1
      invariant j <= n ==> FirstIndex(n, p, 1) == FirstIndex(n, p, j)
      invariant j > n ==> FirstIndex(n, p, 1) == n
    {
      var e := (s1.edge + j) % n;
      var p1, p2 := subject[e], subject[(e + 1) % n];
      if p1.y > y && p2.y <= y {
        var x := CrossX(p1, p2, y);
        if OtherSide(x, s1.at.x, cx) {
          assert p(j);
          return Some(Cut(Point(x, y), e));
        }
      }
      j := j + 1;
    }
    s2 := None;
  }

  /** The two pieces, with i1 < i2 after the swap: the subject up to edge
      i1, the cut S1 S2 and the rest after edge i2; and the subject between
      the two edges closed by the cut S2 S1. */
  function Pieces(subject: seq<Point>, a: Cut, b: Cut): (r: (seq<Point>, seq<Point>))
    requires a.edge < b.edge < |subject|
  {
    (subject[..a.edge + 1] + [a.at, b.at] + subject[b.edge + 1..], subject[a.edge + 1..b.edge + 1] + [b.at, a.at])
  }

  /** Every subject vertex lands in exactly one piece, in order; the pieces
      add the two cut points to each; their lengths sum to n + 4, and each
      has at least three vertices. */
  lemma PiecesPartition(subject: seq<Point>, a: Cut, b: Cut)
    requires a.edge < b.edge < |subject|
    ensures var (p1, p2) := Pieces(subject, a, b);
      p1[..a.edge + 1] + p2[..|p2| - 2] + p1[a.edge + 3..] == subject &&
      p1[a.edge + 1..a.edge + 3] == [a.at, b.at] && p2[|p2| - 2..] == [b.at, a.at] &&
      |p1| + |p2| == |subject| + 4 && |p1| >= 3 && |p2| >= 3
  {
    var (p1, p2) := Pieces(subject, a, b);
    assert p1[..a.edge + 1] == subject[..a.edge + 1];
    assert p2[..|p2| - 2] == subject[a.edge + 1..b.edge + 1];
    assert p1[a.edge + 3..] == subject[b.edge + 1..];
    assert subject[..a.edge + 1] + subject[a.edge + 1..b.edge + 1] + subject[b.edge + 1..] == subject;
  }

  /** The two pieces the hole split produces, or None where it fails: no
      upward subject edge for S1, or no S2. */
  function Halves(subject: seq<Point>, clip: seq<Point>): Option<(seq<Point>, seq<Point>)>
    requires |clip| > 0
  {
    var y := SplitY(clip);
    var cx := ClipX(clip, y);
    var s1 := NearestUp(subject, y, cx, |subject|);
    if s1.None? then None
    else
      var s2 := FirstS2(subject, y, cx, s1.value);
      if s2.None? then None
      else if s1.value.edge < s2.value.edge then Some(Pieces(subject, s1.value, s2.value))
      else Some(Pieces(subject, s2.value, s1.value))
  }

  /** `DIFFERENCE.CLIP_CONTAINED` up to its two recursive calls: the
      cutting line, Cx, S1 and S2, the swap that orders them along the
      subject, and the two pieces. None where the source fails: no upward
      subject edge (i1 undefined, read as an index) or no S2 (undefined
      points handed on into the pieces). */
  method Split(subject: seq<Point>, clip: seq<Point>) returns (r: Option<(seq<Point>, seq<Point>)>)
    requires |subject| >= 3 && |clip| >= 3
    ensures r == Halves(subject, clip)
    ensures var y := SplitY(clip);
      var s1 := NearestUp(subject, y, ClipX(clip, y), |subject|);
      r.Some? <==> s1.Some? && FirstS2(subject, y, ClipX(clip, y), s1.value).Some?
    ensures r.Some? ==>
      var y := SplitY(clip);
      var s1 := NearestUp(subject, y, ClipX(clip, y), |subject|).value;
      var s2 := FirstS2(subject, y, ClipX(clip, y), s1).value;
      r.value == if s1.edge < s2.edge then Pieces(subject, s1, s2) else Pieces(subject, s2, s1)
  {
    var y := SplitY(clip);
    var cx := FindClipX(clip, y);
    var s1 := FindS1(subject, y, cx);
    if s1.None? {
      return None;
    }
    var s2 := FindS2(subject, y, cx, s1.value);
    if s2.None? {
      return None;
    }
    var a, b := s1.value, s2.value;
    if a.edge > b.edge {
      a, b := b, a;
    }
    r := Some(Pieces(subject, a, b));
  }
}
