/** Post-processing of the engine: every traced component loses, in one
    backward pass, the vertices that lie on the line through their current
    neighbours. */
module Collinear {
  import opened Util

  /** The vertex before index i, cyclically. */
  function Before(c: seq<Point>, i: nat): Point
    requires i < |c|
  {
    c[(i - 1 + |c|) % |c|]
  }

  /** The vertex after index i, cyclically. */
  function After(c: seq<Point>, i: nat): Point
    requires i < |c|
  {
    c[(i + 1) % |c|]
  }

  /** The vertex at i spans no area with its two neighbours (an exact test). */
  predicate Flat(c: seq<Point>, i: nat)
    requires i < |c|
  {
    A(Before(c, i), c[i], After(c, i)) == 0.0
  }

  /** `splice(i, 1)`: c without its element at i. */
  function Remove(c: seq<Point>, i: nat): (r: seq<Point>)
    requires i < |c|
    ensures |r| == |c| - 1
  {
    c[..i] + c[i + 1..]
  }

  /** The backward pass over the component c from index i down to 0, each
      step looking at the neighbours in the component as it is by then. */
  function Pass(c: seq<Point>, i: int): (r: seq<Point>)
    requires -1 <= i < |c|
    ensures |c| - (i + 1) <= |r| <= |c|
    decreases i + 1
  {
    if i < 0 then c
    else if Flat(c, i) then Pass(Remove(c, i), i - 1)
    else Pass(c, i - 1)
  }

  /** The pass never touches the vertices after its starting index: they
      end the result unchanged. */
  lemma {:induction false} PassKeepsTail(c: seq<Point>, i: int)
    requires -1 <= i < |c|
    ensures var r := Pass(c, i); r[|r| - (|c| - (i + 1))..] == c[i + 1..]
    decreases i + 1
  {
    if i >= 0 {
      if Flat(c, i) {
        PassKeepsTail(Remove(c, i), i - 1);
        assert Remove(c, i)[i..] == c[i + 1..];
      } else {
        PassKeepsTail(c, i - 1);
        var r := Pass(c, i - 1);
        assert r[|r| - (|c| - (i + 1))..] == r[|r| - (|c| - i)..][1..];
      }
    }
  }

  /** A component after post-processing: never longer than it was. */
  function Pruned(c: seq<Point>): (r: seq<Point>)
    ensures |r| <= |c|
  {
    Pass(c, |c| - 1)
  }

  /** r is the elements of c at the strictly increasing indices idx. */
  ghost predicate Picks(r: seq<Point>, c: seq<Point>, idx: seq<nat>)
  {
    |idx| == |r| &&
    (forall k :: 0 <= k < |idx| ==> idx[k] < |c| && r[k] == c[idx[k]]) &&
    (forall j, k :: 0 <= j < k < |idx| ==> idx[j] < idx[k])
  }

  /** The indices of c that survive removing index i. */
  function Skip(n: nat, i: nat): (idx: seq<nat>)
    requires i < n
    ensures |idx| == n - 1
  {
    seq(n - 1, k requires 0 <= k < n - 1 => if k < i then k else k + 1)
  }

  lemma RemovePicks(c: seq<Point>, i: nat)
    requires i < |c|
    ensures Picks(Remove(c, i), c, Skip(|c|, i))
  {
  }

  lemma PicksTrans(r: seq<Point>, m: seq<Point>, c: seq<Point>, inner: seq<nat>, outer: seq<nat>) returns (idx: seq<nat>)
    requires Picks(r, m, inner) && Picks(m, c, outer)
    ensures Picks(r, c, idx)
  {
    idx := seq(|inner|, k requires 0 <= k < |inner| => outer[inner[k]]);
  }

  lemma PicksAll(c: seq<Point>)
    ensures Picks(c, c, seq(|c|, k requires 0 <= k < |c| => k))
  {
  }

  /** The pass keeps the order of the component: its result is the
      component at some strictly increasing indices. */
  lemma {:induction false} PassKeepsOrder(c: seq<Point>, i: int) returns (idx: seq<nat>)
    requires -1 <= i < |c|
    ensures Picks(Pass(c, i), c, idx)
    decreases i + 1
  {
    if i < 0 {
      PicksAll(c);
      idx := seq(|c|, k requires 0 <= k < |c| => k);
    } else if Flat(c, i) {
      var inner := PassKeepsOrder(Remove(c, i), i - 1);
      RemovePicks(c, i);
      idx := PicksTrans(Pass(Remove(c, i), i - 1), Remove(c, i), c, inner, Skip(|c|, i));
    } else {
      idx := PassKeepsOrder(c, i - 1);
    }
  }

  /** Post-processing returns a subsequence of the component: no vertex is
      added or moved, and there are never more vertices than before. */
  lemma PrunedKeepsOrder(c: seq<Point>) returns (idx: seq<nat>)
    ensures Picks(Pruned(c), c, idx) && |Pruned(c)| <= |c|
  {
    idx := PassKeepsOrder(c, |c| - 1);
  }

  /** A pass over vertices none of which is flat changes nothing. */
  lemma {:induction false} PassUnchanged(c: seq<Point>, i: int)
    requires -1 <= i < |c|
    requires forall j :: 0 <= j <= i ==> !Flat(c, j)
    ensures Pass(c, i) == c
    decreases i + 1
  {
    if i >= 0 {
      PassUnchanged(c, i - 1);
    }
  }

  /** A component without a vertex collinear with its neighbours comes out
      as it went in. */
  lemma PrunedUnchanged(c: seq<Point>)
    requires forall j :: 0 <= j < |c| ==> !Flat(c, j)
    ensures Pruned(c) == c
  {
    PassUnchanged(c, |c| - 1);
  }

  /** A component of one or two points has no area at any vertex and
      vanishes. */
  lemma ShortVanishes(c: seq<Point>)
    requires |c| <= 2
    ensures Pruned(c) == []
  {
    if |c| == 2 {
      assert Flat(c, 1);
      assert Remove(c, 1) == [c[0]];
      assert Flat([c[0]], 0);
      assert Pass(Remove(c, 1), 0) == Pass([], -1);
    } else if |c| == 1 {
      assert Flat(c, 0);
    }
  }

  /** The backward `for` loop of the post-processing, splicing the current
      component in place. */
  method RemoveCollinear(component: seq<Point>) returns (r: seq<Point>)
    ensures r == Pruned(component)
  {
    r := component;
    var i := |r| - 1;
    while i >= 0
      invariant -1 <= i < |r|
      invariant Pass(r, i) == Pruned(component)
      decreases i + 1
    {
      var rMinus := r[(i - 1 + |r|) % |r|];
      var rPlus := r[(i + 1) % |r|];
      if A(rMinus, r[i], rPlus) == 0.0 {
        r := r[..i] + r[i + 1..];
      }
      i := i - 1;
    }
  }

  /** The outer `for ... of` over the traced components. */
  method PostProcess(result: seq<seq<Point>>) returns (r: seq<seq<Point>>)
    ensures |r| == |result| && forall k :: 0 <= k < |r| ==> r[k] == Pruned(result[k])
  {
    r := [];
    var k := 0;
    while k < |result|
      invariant k <= |result| && |r| == k
      invariant forall j :: 0 <= j < k ==> r[j] == Pruned(result[j])
    {
      var c := RemoveCollinear(result[k]);
      assert forall j :: 0 <= j < k ==> (r + [c])[j] == r[j];
      r := r + [c];
      k := k + 1;
    }
  }
}
