/** The vertex store: a circular doubly-linked list of vertex records. The
    records live in an arena (a sequence indexed by node number) and `next` /
    `prev` are arena indices, with NULL standing for a missing link. */
module VertexLists {
  import opened Util

  /** The missing link. */
  const NULL: int := -1

  /** A reference from a node to its partner in the other polygon's list. */
  datatype Ref = NoRef | Subject(i: nat) | Clip(i: nat)

  /** Crossing/bouncing classification of an intersection (unset until labelled). */
  datatype Kind = Undecided | Crossing | Bouncing

  /** Entry/exit label of a crossing intersection (unset until labelled). */
  datatype Label = Unlabelled | Entry | Exit

  /** How a vertex sits on a run of shared edges (Foster et al.). */
  datatype Chain = NoChain | LeftOn | RightOn | OnOn | OnLeft | OnRight
  {
    /** The numeric codes LEFT_ON = 1 ... ON_RIGHT = 5; 0 for no chain. */
    function Code(): int
    {
      match this
      case NoChain => 0
      case LeftOn => 1
      case RightOn => 2
      case OnOn => 3
      case OnLeft => 4
      case OnRight => 5
    }
  }

  /** One vertex record. `vid` is the identity of the point object the record
      holds: two records share a vid exactly when they share the same point
      object. `alpha` is unset (None) on every record built without one. */
  datatype Node = Node(
    vertex: Point,
    vid: nat,
    source: bool,
    intersection: bool,
    alpha: Option<real>,
    corresponding: Ref,
    crossing: Kind,
    entry: Label,
    chain: Chain,
    processed: bool,
    next: int,
    prev: int)

  /** A freshly constructed record: only the given data set, both links NULL. */
  function Fresh(vertex: Point, vid: nat): Node
  {
    Node(vertex, vid, false, false, None, NoRef, Undecided, Unlabelled, NoChain, false, NULL, NULL)
  }

  /** A record without its links. */
  function Data(n: Node): Node
  {
    n.(next := NULL, prev := NULL)
  }

  /** Record j agrees in both sequences on everything but its links. */
  ghost predicate Kept(ns: seq<Node>, ns': seq<Node>, j: nat)
  {
    j < |ns| && j < |ns'| && Data(ns'[j]) == Data(ns[j])
  }

  /** Records that agree on everything but their links. */
  ghost predicate SameData(ns: seq<Node>, ns': seq<Node>)
  {
    |ns| <= |ns'| && forall j :: 0 <= j < |ns| ==> Kept(ns, ns', j)
  }

  /** The index of the first element of w (from position `from` on) that
      satisfies p, given the element and its position; |w| if there is none. */
  function FirstMatchIndex(w: seq<nat>, p: (nat, nat) -> bool, from: nat): (k: nat)
    requires from <= |w|
    ensures from <= k <= |w|
    ensures k < |w| ==> p(w[k], k)
    ensures forall j :: from <= j < k ==> !p(w[j], j)
    decreases |w| - from
  {
    if from == |w| then |w|
    else if p(w[from], from) then from
    else FirstMatchIndex(w, p, from + 1)
  }

  /** The first element of w satisfying p, or NULL. */
  function FirstMatch(w: seq<nat>, p: (nat, nat) -> bool): int
  {
    var k := FirstMatchIndex(w, p, 0);
    if k < |w| then w[k] else NULL
  }

  /** FirstMatch is NULL exactly when no element matches, and otherwise the
      earliest matching element. */
  lemma FirstMatchSpec(w: seq<nat>, p: (nat, nat) -> bool)
    ensures FirstMatch(w, p) == NULL <==> forall k :: 0 <= k < |w| ==> !p(w[k], k)
    ensures FirstMatch(w, p) != NULL ==>
      exists k :: 0 <= k < |w| && FirstMatch(w, p) == w[k] && p(w[k], k) &&
        forall j :: 0 <= j < k ==> !p(w[j], j)
  {
    var k := FirstMatchIndex(w, p, 0);
    if k < |w| {
      assert w[k] >= 0;
    }
  }

  /** 0, 1, ..., n - 1 */
  function Range(n: nat): (r: seq<nat>)
    ensures |r| == n && forall k :: 0 <= k < n ==> r[k] == k
  {
    if n == 0 then [] else Range(n - 1) + [n - 1]
  }

  /** a turned left by k places: a[k], ..., a[|a| - 1], a[0], ..., a[k - 1]. */
  function Rotate<T>(a: seq<T>, k: nat): (r: seq<T>)
    requires k <= |a|
    ensures |r| == |a|
  {
    a[k..] + a[..k]
  }

  /** The j-th element of a rotation. */
  lemma RotateAt<T>(a: seq<T>, k: nat, j: nat)
    requires k <= |a| && j < |a|
    ensures Rotate(a, k)[j] == a[if k + j < |a| then k + j else k + j - |a|]
  {
    if k + j < |a| {
      assert Rotate(a, k)[j] == a[k..][j];
    } else {
      assert Rotate(a, k)[j] == a[..k][j - (|a| - k)];
    }
  }

  /** Two rotations of the same sequence are rotations of each other. */
  lemma RotateTwice<T>(a: seq<T>, s1: nat, s2: nat) returns (k: nat)
    requires s1 < |a| && s2 < |a|
    ensures k < |a| && Rotate(a, s2) == Rotate(Rotate(a, s1), k)
  {
    var n := |a|;
    k := if s2 >= s1 then s2 - s1 else s2 + n - s1;
    var b := Rotate(a, s1);
    forall j | 0 <= j < n
      ensures Rotate(a, s2)[j] == Rotate(b, k)[j]
    {
      RotateAt(a, s2, j);
      var i := if k + j < n then k + j else k + j - n;
      RotateAt(b, k, j);
      RotateAt(a, s1, i);
    }
  }

  /** The points of the records listed in w. */
  function Points(ns: seq<Node>, w: seq<nat>): (r: seq<Point>)
    requires forall k :: 0 <= k < |w| ==> w[k] < |ns|
    ensures |r| == |w| && forall k :: 0 <= k < |w| ==> r[k] == ns[w[k]].vertex
  {
    seq(|w|, k requires 0 <= k < |w| => ns[w[k]].vertex)
  }

  /** `order` lists every arena index once, starting at the head 0, `pos` is
      its inverse, and the links of `ns` follow `order` around the cycle. */
  ghost predicate Cycle(ns: seq<Node>, order: seq<nat>, pos: seq<nat>)
  {
    |ns| >= 1 && |order| == |ns| && |pos| == |ns| && order[0] == 0 &&
    (forall k :: 0 <= k < |order| ==> order[k] < |ns| && pos[order[k]] == k) &&
    (forall i :: 0 <= i < |pos| ==> pos[i] < |order| && order[pos[i]] == i) &&
    (forall k {:trigger ns[order[k]]} :: 0 <= k < |order| - 1 ==> ns[order[k]].next == order[k + 1]) &&
    (forall k {:trigger ns[order[k]]} :: 0 < k < |order| ==> ns[order[k]].prev == order[k - 1]) &&
    ns[order[|order| - 1]].next == 0 && ns[0].prev == order[|order| - 1]
  }

  /** The successor of the node at place q is the node at the next place,
      or the head after the last place. */
  lemma CycleNext(ns: seq<Node>, order: seq<nat>, pos: seq<nat>, q: nat)
    requires Cycle(ns, order, pos) && q < |ns|
    ensures order[q] < |ns| && ns[order[q]].next == (if q + 1 < |ns| then order[q + 1] else 0)
  {
  }

  /** Changing a record without touching its links keeps the cycle. */
  lemma RelabelCycle(ns: seq<Node>, order: seq<nat>, pos: seq<nat>, i: nat, node: Node)
    requires Cycle(ns, order, pos) && i < |ns| && node.next == ns[i].next && node.prev == ns[i].prev
    ensures Cycle(ns[i := node], order, pos)
  {
    var ns' := ns[i := node];
    assert forall k :: 0 <= k < |order| ==> ns'[order[k]].next == ns[order[k]].next;
    assert forall k :: 0 <= k < |order| ==> ns'[order[k]].prev == ns[order[k]].prev;
  }

  /** The cycle with the new index e placed after position p. */
  ghost function SpliceOrder(order: seq<nat>, p: nat, e: nat): seq<nat>
    requires p < |order|
  {
    seq(|order| + 1, k requires 0 <= k <= |order| =>
      if k <= p then order[k] else if k == p + 1 then e else order[k - 1])
  }

  /** The inverse of SpliceOrder(order, p, |pos|): later places move up by one. */
  ghost function SplicePos(pos: seq<nat>, p: nat): seq<nat>
  {
    seq(|pos| + 1, i requires 0 <= i <= |pos| =>
      if i == |pos| then p + 1 else if pos[i] <= p then pos[i] else pos[i] + 1)
  }

  /** The pointer updates of `insert` on an arena: the new record becomes
      index |ns|, between `at` and its successor (if there is one). */
  method LinkAfter(ns: seq<Node>, at: nat, entry: Node) returns (r: seq<Node>)
    requires at < |ns| && (ns[at].next == NULL || 0 <= ns[at].next < |ns|)
    ensures |r| == |ns| + 1
    ensures r[at].next == |ns| && r[|ns|].prev == at && r[|ns|].next == ns[at].next
    ensures ns[at].next != NULL ==> r[ns[at].next].prev == |ns|
    ensures forall j :: 0 <= j < |ns| && j != at ==> r[j].next == ns[j].next
    ensures forall j :: 0 <= j < |ns| && j != ns[at].next ==> r[j].prev == ns[j].prev
    ensures Data(r[|ns|]) == Data(entry)
    ensures SameData(ns, r)
  {
    var e := |ns|;
    var nx := ns[at].next;
    r := ns + [entry];
    if nx != NULL { r := r[nx := r[nx].(prev := e)]; }   // this.next.prev = entry
    r := r[e := r[e].(next := nx)];                      // entry.next = this.next
    r := r[at := r[at].(next := e)];                     // this.next = entry
    r := r[e := r[e].(prev := at)];                      // entry.prev = this
  }

  /** The pointer updates of `insertBefore` on an arena: the new record
      becomes index |ns|, between the predecessor of `at` (if any) and `at`. */
  method LinkBefore(ns: seq<Node>, at: nat, entry: Node) returns (r: seq<Node>)
    requires at < |ns| && (ns[at].prev == NULL || 0 <= ns[at].prev < |ns|)
    ensures |r| == |ns| + 1
    ensures r[at].prev == |ns| && r[|ns|].next == at && r[|ns|].prev == ns[at].prev
    ensures ns[at].prev != NULL ==> r[ns[at].prev].next == |ns|
    ensures forall j :: 0 <= j < |ns| && j != at ==> r[j].prev == ns[j].prev
    ensures forall j :: 0 <= j < |ns| && j != ns[at].prev ==> r[j].next == ns[j].next
    ensures Data(r[|ns|]) == Data(entry)
    ensures SameData(ns, r)
  {
    var e := |ns|;
    var pv := ns[at].prev;
    r := ns + [entry];
    if pv != NULL { r := r[pv := r[pv].(next := e)]; }   // this.prev.next = entry
    r := r[e := r[e].(prev := pv)];                      // entry.prev = this.prev
    r := r[at := r[at].(prev := e)];                     // this.prev = entry
    r := r[e := r[e].(next := at)];                      // entry.next = this
  }

  /** What InsertCycle assumes: e := |ns| was relinked between the node at
      place p and its successor nx, and no other link changed. */
  ghost predicate Relinked(ns: seq<Node>, order: seq<nat>, pos: seq<nat>, ns': seq<Node>, p: nat, at: nat, nx: int)
  {
    Cycle(ns, order, pos) && p < |ns| && order[p] == at && ns[at].next == nx &&
    |ns'| == |ns| + 1 &&
    ns'[at].next == |ns| && ns'[|ns|].prev == at && ns'[|ns|].next == nx &&
    0 <= nx < |ns| && ns'[nx].prev == |ns| &&
    (forall j :: 0 <= j < |ns| && j != at ==> ns'[j].next == ns[j].next) &&
    (forall j :: 0 <= j < |ns| && j != nx ==> ns'[j].prev == ns[j].prev)
  }

  /** Relinking a new node e between the node at place p and its successor
      keeps a cycle, provided no other link changed. */
  lemma InsertCycle(ns: seq<Node>, order: seq<nat>, pos: seq<nat>, ns': seq<Node>, p: nat, at: nat, nx: int)
    requires Relinked(ns, order, pos, ns', p, at, nx)
    ensures Cycle(ns', SpliceOrder(order, p, |ns|), SplicePos(pos, p))
  {
    SpliceInverse(order, pos, p, |ns|);
    SplicedNext(ns, order, pos, ns', p, at, nx);
    SplicedPrev(ns, order, pos, ns', p, at, nx);
    SplicedClose(ns, order, pos, ns', p, at, nx);
  }

  /** The successor of the node at place p, before the splice. */
  lemma SuccessorAt(ns: seq<Node>, order: seq<nat>, pos: seq<nat>, ns': seq<Node>, p: nat, at: nat, nx: int)
    requires Relinked(ns, order, pos, ns', p, at, nx)
    ensures nx == (if p + 1 < |ns| then order[p + 1] else 0)
  {
    if p + 1 < |ns| { assert ns[order[p]].next == order[p + 1]; }
  }

  /** After the splice every `next` link follows the new order. */
  lemma SplicedNext(ns: seq<Node>, order: seq<nat>, pos: seq<nat>, ns': seq<Node>, p: nat, at: nat, nx: int)
    requires Relinked(ns, order, pos, ns', p, at, nx)
    ensures var order' := SpliceOrder(order, p, |ns|);
      forall k :: 0 <= k < |ns| ==> ns'[order'[k]].next == order'[k + 1]
  {
    var e := |ns|;
    var order' := SpliceOrder(order, p, e);
    SuccessorAt(ns, order, pos, ns', p, at, nx);
    forall k | 0 <= k < e
      ensures ns'[order'[k]].next == order'[k + 1]
    {
      if k < p {
        assert order'[k] == order[k] && order'[k + 1] == order[k + 1];
        assert ns[order[k]].next == order[k + 1];
        assert order[k] != at by { assert pos[order[k]] == k; }
      } else if k > p + 1 {
        assert order'[k] == order[k - 1] && order'[k + 1] == order[k];
        assert ns[order[k - 1]].next == order[k];
        assert order[k - 1] != at by { assert pos[order[k - 1]] == k - 1; }
      }
    }
  }

  /** After the splice every `prev` link follows the new order. */
  lemma SplicedPrev(ns: seq<Node>, order: seq<nat>, pos: seq<nat>, ns': seq<Node>, p: nat, at: nat, nx: int)
    requires Relinked(ns, order, pos, ns', p, at, nx)
    ensures var order' := SpliceOrder(order, p, |ns|);
      forall k :: 0 < k <= |ns| ==> ns'[order'[k]].prev == order'[k - 1]
  {
    var e := |ns|;
    var order' := SpliceOrder(order, p, e);
    SuccessorAt(ns, order, pos, ns', p, at, nx);
    forall k | 0 < k <= e
      ensures ns'[order'[k]].prev == order'[k - 1]
    {
      if k <= p {
        assert order'[k] == order[k] && order'[k - 1] == order[k - 1];
        assert ns[order[k]].prev == order[k - 1];
        assert order[k] != nx by { assert pos[order[k]] == k; }
      } else if k == p + 2 {
        assert order'[k] == order[p + 1];
      } else if k > p + 2 {
        assert order'[k] == order[k - 1] && order'[k - 1] == order[k - 2];
        assert ns[order[k - 1]].prev == order[k - 2];
        assert order[k - 1] != nx by { assert pos[order[k - 1]] == k - 1; }
      }
    }
  }

  /** After the splice the last node links back to the head and the head to it. */
  lemma SplicedClose(ns: seq<Node>, order: seq<nat>, pos: seq<nat>, ns': seq<Node>, p: nat, at: nat, nx: int)
    requires Relinked(ns, order, pos, ns', p, at, nx)
    ensures var order' := SpliceOrder(order, p, |ns|);
      ns'[order'[|ns|]].next == 0 && ns'[0].prev == order'[|ns|]
  {
    var e := |ns|;
    var order' := SpliceOrder(order, p, e);
    SuccessorAt(ns, order, pos, ns', p, at, nx);
    if p + 1 < e {
      assert order'[e] == order[e - 1];
      assert ns[order[e - 1]].next == 0;
      assert ns[0].prev == order[e - 1];
      assert pos[order[e - 1]] == e - 1 && pos[order[p + 1]] == p + 1 && pos[0] == 0;
      assert ns'[order'[e]].next == 0;
      assert ns'[0].prev == order'[e];
    } else {
      assert order'[e] == e && nx == 0;
    }
  }

  /** The links `insert` leaves on a cycle make a cycle again, with the new
      node spliced in right after `at`. */
  lemma AfterCycle(ns: seq<Node>, order: seq<nat>, pos: seq<nat>, at: nat, r: seq<Node>)
    requires Cycle(ns, order, pos) && at < |ns|
    requires |r| == |ns| + 1
    requires r[at].next == |ns| && r[|ns|].prev == at && r[|ns|].next == ns[at].next
    requires 0 <= ns[at].next < |ns| && r[ns[at].next].prev == |ns|
    requires forall j :: 0 <= j < |ns| && j != at ==> r[j].next == ns[j].next
    requires forall j :: 0 <= j < |ns| && j != ns[at].next ==> r[j].prev == ns[j].prev
    ensures Cycle(r, SpliceOrder(order, pos[at], |ns|), SplicePos(pos, pos[at]))
  {
    assert order[pos[at]] == at;
    InsertCycle(ns, order, pos, r, pos[at], at, ns[at].next);
  }

  /** The links `insertBefore` leaves on a cycle make a cycle again, with the
      new node spliced in after the old predecessor of `at`. */
  lemma BeforeCycle(ns: seq<Node>, order: seq<nat>, pos: seq<nat>, at: nat, r: seq<Node>)
    requires Cycle(ns, order, pos) && at < |ns|
    requires |r| == |ns| + 1
    requires r[at].prev == |ns| && r[|ns|].next == at && r[|ns|].prev == ns[at].prev
    requires 0 <= ns[at].prev < |ns| && r[ns[at].prev].next == |ns|
    requires forall j :: 0 <= j < |ns| && j != at ==> r[j].prev == ns[j].prev
    requires forall j :: 0 <= j < |ns| && j != ns[at].prev ==> r[j].next == ns[j].next
    ensures Cycle(r, SpliceOrder(order, pos[ns[at].prev], |ns|), SplicePos(pos, pos[ns[at].prev]))
  {
    var k := pos[at];
    var n := |ns|;
    assert order[k] == at;
    var pv: nat := if k > 0 then order[k - 1] else order[n - 1];
    if k > 0 {
      assert ns[order[k]].prev == order[k - 1];
      assert ns[order[k - 1]].next == order[k];
    } else {
      assert at == 0;
      assert ns[order[n - 1]].next == 0;
    }
    assert ns[at].prev == pv && ns[pv].next == at && order[pos[pv]] == pv;
    InsertCycle(ns, order, pos, r, pos[pv], pv, at);
  }

  /** SplicePos is the inverse of SpliceOrder. */
  lemma SpliceInverse(order: seq<nat>, pos: seq<nat>, p: nat, e: nat)
    requires |order| == e && |pos| == e && p < e && order[0] == 0
    requires forall k :: 0 <= k < e ==> order[k] < e && pos[order[k]] == k
    requires forall i :: 0 <= i < e ==> pos[i] < e && order[pos[i]] == i
    ensures var order', pos' := SpliceOrder(order, p, e), SplicePos(pos, p);
      |order'| == e + 1 && |pos'| == e + 1 && order'[0] == 0 &&
      (forall k :: 0 <= k < e + 1 ==> order'[k] < e + 1 && pos'[order'[k]] == k) &&
      (forall i :: 0 <= i < e + 1 ==> pos'[i] < e + 1 && order'[pos'[i]] == i)
  {
    var order', pos' := SpliceOrder(order, p, e), SplicePos(pos, p);
    forall k | 0 <= k < e + 1
      ensures order'[k] < e + 1 && pos'[order'[k]] == k
    {
      if k < p + 1 {
        assert order'[k] == order[k];
      } else if k > p + 1 {
        assert order'[k] == order[k - 1];
      }
    }
    forall i | 0 <= i < e + 1
      ensures pos'[i] < e + 1 && order'[pos'[i]] == i
    {
      if i < e {
        assert order'[pos'[i]] == order[pos[i]];
      }
    }
  }

  /** What `forEach` does with a callback that rewrites the record it visits
      from that record and a running state: the records and the state after
      visiting the nodes of w in order, starting from state s0. */
  function Fold<St>(ns: seq<Node>, w: seq<nat>, step: (Node, St) -> (Node, St), s0: St): (r: (seq<Node>, St))
    requires forall k :: 0 <= k < |w| ==> w[k] < |ns|
    ensures |r.0| == |ns|
  {
    if w == [] then (ns, s0)
    else
      var prior := Fold(ns, w[..|w| - 1], step, s0);
      var visited := step(prior.0[w[|w| - 1]], prior.1);
      (prior.0[w[|w| - 1] := visited.0], visited.1)
  }

  /** A callback that leaves the links of the record it rewrites alone. */
  ghost predicate KeepsLinks<St(!new)>(step: (Node, St) -> (Node, St))
  {
    forall n: Node, s: St :: step(n, s).0.next == n.next && step(n, s).0.prev == n.prev
  }

  /** Records the walk does not visit are left as they were. */
  lemma {:induction false} FoldFrame<St>(ns: seq<Node>, w: seq<nat>, step: (Node, St) -> (Node, St), s0: St, i: nat)
    requires forall k :: 0 <= k < |w| ==> w[k] < |ns|
    requires i < |ns| && i !in w
    ensures Fold(ns, w, step, s0).0[i] == ns[i]
    decreases |w|
  {
    if w != [] {
      assert forall j :: 0 <= j < |w| - 1 ==> w[..|w| - 1][j] == w[j];
      FoldFrame(ns, w[..|w| - 1], step, s0, i);
    }
  }

  /** On a walk that visits every node once, the k-th node visited ends up
      as the callback made it from its own old record and the state reached
      after the first k visits. */
  lemma {:induction false} FoldAt<St>(ns: seq<Node>, w: seq<nat>, step: (Node, St) -> (Node, St), s0: St, k: nat)
    requires forall j :: 0 <= j < |w| ==> w[j] < |ns|
    requires forall i, j :: 0 <= i < j < |w| ==> w[i] != w[j]
    requires k < |w|
    ensures Fold(ns, w, step, s0).0[w[k]] == step(ns[w[k]], Fold(ns, w[..k], step, s0).1).0
    decreases |w|
  {
    var last := |w| - 1;
    if k == last {
      assert forall j :: 0 <= j < last ==> w[..last][j] == w[j];
      FoldFrame(ns, w[..last], step, s0, w[k]);
    } else {
      var v := w[..last];
      FoldAt(ns, v, step, s0, k);
      assert v[k] == w[k] && v[..k] == w[..k];
    }
  }

  /** The facts a `forEach` from start uses about the walk w over records
      ns: its index-th node links to the next node of the walk, or back to
      start after the last, and is not start again. */
  ghost predicate Visit(ns: seq<Node>, start: nat, w: seq<nat>, index: nat)
    requires index < |w|
  {
    w[index] < |ns| && ns[w[index]].next == (if index + 1 < |w| then w[index + 1] else start) &&
    (index > 0 ==> w[index] != start)
  }

  /** w is a walk of the cycle through ns from start: one visit per record,
      every record once. */
  ghost predicate Tour(ns: seq<Node>, start: nat, w: seq<nat>)
  {
    |w| == |ns| && |w| > 0 && w[0] == start &&
    (forall k :: 0 <= k < |w| ==> w[k] < |ns|) &&
    (forall index :: 0 <= index < |w| ==> Visit(ns, start, w, index)) &&
    (forall j, k :: 0 <= j < k < |w| ==> w[j] != w[k]) &&
    (forall i :: 0 <= i < |ns| ==> i in w)
  }

  /** The records of ns' have the links of those of ns. */
  ghost predicate SameLinks(ns: seq<Node>, ns': seq<Node>)
  {
    |ns'| == |ns| && forall i :: 0 <= i < |ns| ==> ns'[i].next == ns[i].next && ns'[i].prev == ns[i].prev
  }

  /** One more visit of a fold along a tour: the records stay linked as
      before, and the fold takes one more step. */
  lemma FoldStep<St(!new)>(ns0: seq<Node>, ns: seq<Node>, start: nat, w: seq<nat>, step: (Node, St) -> (Node, St),
                           s0: St, s: St, index: nat)
    requires Tour(ns0, start, w) && index < |w| && KeepsLinks(step)
    requires SameLinks(ns0, ns) && (ns, s) == Fold(ns0, w[..index], step, s0)
    ensures w[index] < |ns| && ns[w[index]].next == ns0[w[index]].next
    ensures ns0[w[index]].next == (if index + 1 < |w| then w[index + 1] else start)
    ensures index + 1 < |w| ==> w[index + 1] != start
    ensures step(ns[w[index]], s).0.next == ns[w[index]].next && step(ns[w[index]], s).0.prev == ns[w[index]].prev
    ensures var visited := step(ns[w[index]], s);
      var ns' := ns[w[index] := visited.0];
      SameLinks(ns0, ns') && (ns', visited.1) == Fold(ns0, w[..index + 1], step, s0)
  {
    assert Visit(ns0, start, w, index);
    if index + 1 < |w| {
      assert Visit(ns0, start, w, index + 1);
    }
    assert w[..index + 1][..index] == w[..index];
  }

  class VertexList {
    /** The arena; node 0 is the head, the node the list was built from. */
    var nodes: seq<Node>
    /** The cycle in `next` order, starting at the head. */
    ghost var order: seq<nat>
    /** The inverse of `order`: the place of every node on the cycle. */
    ghost var pos: seq<nat>

    /** The arena holds exactly one circular list through all its nodes, with
        `next` and `prev` inverse to each other. */
    ghost predicate Valid()
      reads this
    {
      Cycle(nodes, order, pos)
    }

    /** The nodes in traversal order from `start`: start, start.next, ... */
    ghost function Walk(start: nat): seq<nat>
      reads this`order, this`pos
    {
      if start < |pos| && pos[start] <= |order| then Rotate(order, pos[start]) else []
    }

    /** The points along the walk from `start`. */
    ghost function Ring(start: nat): (r: seq<Point>)
      requires Valid() && start < |nodes|
      reads this
      ensures |r| == |nodes|
    {
      Rotate(Points(nodes, order), pos[start])
    }

    /** The k-th point of the ring is the vertex of the k-th node of the walk. */
    lemma RingAt(start: nat, k: nat)
      requires Valid() && start < |nodes| && k < |nodes|
      ensures Walk(start)[k] < |nodes| && Ring(start)[k] == nodes[Walk(start)[k]].vertex
    {
      WalkAt(start, k);
      RotateAt(Points(nodes, order), pos[start], k);
    }

    /** Every link of a valid list is in range, and next and prev undo each other. */
    lemma Links(i: nat)
      requires Valid() && i < |nodes|
      ensures 0 <= nodes[i].next < |nodes| && 0 <= nodes[i].prev < |nodes|
      ensures nodes[nodes[i].next].prev == i && nodes[nodes[i].prev].next == i
      ensures nodes[i].next == (if pos[i] + 1 < |nodes| then order[pos[i] + 1] else 0)
      ensures nodes[i].prev == (if pos[i] > 0 then order[pos[i] - 1] else order[|nodes| - 1])
    {
      var n := |nodes|;
      var k := pos[i];
      assert order[k] == i;
      if k + 1 < n {
        assert nodes[order[k]].next == order[k + 1];
        assert nodes[order[k + 1]].prev == order[k];
      } else {
        assert nodes[order[n - 1]].next == 0;
      }
      if k > 0 {
        assert nodes[order[k]].prev == order[k - 1];
        assert nodes[order[k - 1]].next == order[k];
      } else {
        assert i == 0;
        if n > 1 {
          assert nodes[order[n - 1]].next == 0;
        }
      }
    }

    /** The k-th node of the walk from start is k steps after start on the cycle. */
    lemma WalkAt(start: nat, k: nat)
      requires Valid() && start < |nodes| && k < |nodes|
      ensures |Walk(start)| == |nodes|
      ensures Walk(start)[k] == (if pos[start] + k < |nodes| then order[pos[start] + k] else order[pos[start] + k - |nodes|])
      ensures Walk(start)[k] < |nodes|
      ensures Walk(start)[0] == start
    {
      RotateAt(order, pos[start], k);
      RotateAt(order, pos[start], 0);
    }

    /** One step along the walk follows `next`; the last step returns to start. */
    lemma WalkStep(start: nat, k: nat)
      requires Valid() && start < |nodes| && k < |nodes|
      ensures Walk(start)[k] < |nodes|
      ensures nodes[Walk(start)[k]].next == (if k + 1 < |nodes| then Walk(start)[k + 1] else start)
    {
      var n := |nodes|;
      var s := pos[start];
      var w := Walk(start);
      WalkAt(start, k);
      var q := if s + k < n then s + k else s + k - n;
      assert w[k] == order[q];
      CycleNext(nodes, order, pos, q);
      if k + 1 < n {
        WalkAt(start, k + 1);
        if s + k + 1 < n {
          assert w[k + 1] == order[q + 1];
        } else if s + k + 1 == n {
          assert q + 1 == n && w[k + 1] == order[0];
        } else {
          assert w[k + 1] == order[q + 1];
        }
      } else {
        assert order[s] == start;
        if s == 0 {
          assert q + 1 == n;
        } else {
          assert q + 1 == s;
        }
      }
    }

    /** The walk comes back to its start only at its end. */
    lemma WalkReturns(start: nat)
      requires Valid() && start < |nodes|
      ensures |Walk(start)| == |nodes|
      ensures forall k :: 0 < k < |nodes| ==> Walk(start)[k] != start
    {
      forall k | 0 < k < |nodes|
        ensures Walk(start)[k] != start
      {
        WalkAt(start, k);
      }
    }

    /** The walk from any node passes every node exactly once. */
    lemma WalkPermutation(start: nat)
      requires Valid() && start < |nodes|
      ensures |Walk(start)| == |nodes|
      ensures forall j, k :: 0 <= j < k < |nodes| ==> Walk(start)[j] != Walk(start)[k]
      ensures forall i :: 0 <= i < |nodes| ==> i in Walk(start)
    {
      var n := |nodes|;
      WalkAt(start, 0);
      var w := Walk(start);
      forall j, k | 0 <= j < k < n
        ensures w[j] != w[k]
      {
        WalkAt(start, j);
        WalkAt(start, k);
      }
      forall i | 0 <= i < n
        ensures i in w
      {
        var k := if pos[i] >= pos[start] then pos[i] - pos[start] else pos[i] + n - pos[start];
        WalkAt(start, k);
        assert w[k] == i;
      }
    }

    /** The walk from another node is the walk from start, rotated by k. */
    lemma WalkRotation(start: nat, other: nat) returns (k: nat)
      requires Valid() && start < |nodes| && other < |nodes|
      ensures k < |nodes| && Walk(other) == Rotate(Walk(start), k)
    {
      k := RotateTwice(order, pos[start], pos[other]);
    }

    /** The ring of points from another node is the ring from start, rotated by k. */
    lemma RingRotation(start: nat, other: nat) returns (k: nat)
      requires Valid() && start < |nodes| && other < |nodes|
      ensures k <= |nodes|
      ensures Ring(other) == Ring(start)[k..] + Ring(start)[..k]
    {
      k := RotateTwice(Points(nodes, order), pos[start], pos[other]);
    }

    /** The place of node i on the walk from start. */
    lemma WalkIndexOf(start: nat, i: nat) returns (k: nat)
      requires Valid() && start < |nodes| && i < |nodes|
      ensures k < |nodes| && Walk(start)[k] == i
      ensures k == 0 <==> i == start
    {
      var n := |nodes|;
      k := if pos[i] >= pos[start] then pos[i] - pos[start] else pos[i] + n - pos[start];
      WalkAt(start, k);
    }

    /** Builds the list from a non-empty sequence of points, one source record
        per point, in order, closing the cycle from the last back to the first.
        The record of vertices[k] gets the point identity firstVid + k. */
    constructor FromArray(vertices: seq<Point>, firstVid: nat)
      requires |vertices| >= 1
      ensures Valid()
      ensures |nodes| == |vertices| && order == Range(|vertices|)
      ensures forall k :: 0 <= k < |nodes| ==>
        nodes[k].vertex == vertices[k] && nodes[k].vid == firstVid + k && nodes[k].source &&
        nodes[k] == Fresh(vertices[k], firstVid + k).(source := true, next := nodes[k].next, prev := nodes[k].prev)
    {
      var ns: seq<Node> := [];
      var curr: int := NULL;
      var k := 0;
      while k < |vertices|
        invariant 0 <= k <= |vertices| && |ns| == k
        invariant curr == k - 1
        invariant forall j :: 0 <= j < k ==>
          ns[j] == Fresh(vertices[j], firstVid + j).(source := true, next := ns[j].next, prev := ns[j].prev)
        invariant forall j :: 0 <= j < k - 1 ==> ns[j].next == j + 1
        invariant forall j :: 0 < j < k ==> ns[j].prev == j - 1
        invariant k > 0 ==> ns[k - 1].next == NULL && ns[0].prev == NULL
      {
        var entry := Fresh(vertices[k], firstVid + k).(source := true);
        if curr != NULL {
          // curr.insert(entry) at the open tail, whose next is still NULL
          entry := entry.(next := ns[curr].next, prev := curr);
          ns := ns[curr := ns[curr].(next := k)];
        }
        ns := ns + [entry];
        curr := k;
        k := k + 1;
      }
      // first.prev = curr; curr.next = first
      ns := ns[0 := ns[0].(prev := curr)];
      ns := ns[curr := ns[curr].(next := 0)];
      nodes := ns;
      order := Range(|vertices|);
      pos := Range(|vertices|);
    }

    /** `insert`: puts a new record directly after node `at`. Only links
        change: the cycle gains the new node right after `at`. */
    method Insert(at: nat, entry: Node) returns (e: nat)
      requires Valid() && at < |nodes|
      modifies this
      ensures Valid()
      ensures e == old(|nodes|) && |nodes| == e + 1
      ensures order == SpliceOrder(old(order), old(pos[at]), e) && pos == SplicePos(old(pos), old(pos[at]))
      ensures nodes[at].next == e && nodes[e].next == old(nodes[at].next)
      ensures Data(nodes[e]) == Data(entry)
      ensures SameData(old(nodes), nodes)
    {
      Links(at);
      e := |nodes|;
      var ns := LinkAfter(nodes, at, entry);
      AfterCycle(nodes, order, pos, at, ns);
      nodes, order, pos := ns, SpliceOrder(order, pos[at], e), SplicePos(pos, pos[at]);
    }

    /** `insertBefore`: puts a new record directly before node `at`. Only
        links change: the cycle gains the new node right before `at` (on the
        cycle, a record put before the head comes last). */
    method InsertBefore(at: nat, entry: Node) returns (e: nat)
      requires Valid() && at < |nodes|
      modifies this
      ensures Valid()
      ensures e == old(|nodes|) && |nodes| == e + 1
      ensures 0 <= old(nodes[at].prev) < e
      ensures order == SpliceOrder(old(order), old(pos[nodes[at].prev]), e)
      ensures pos == SplicePos(old(pos), old(pos[nodes[at].prev]))
      ensures nodes[at].prev == e && nodes[e].prev == old(nodes[at].prev)
      ensures Data(nodes[e]) == Data(entry)
      ensures SameData(old(nodes), nodes)
    {
      Links(at);
      e := |nodes|;
      var pv := nodes[at].prev;
      var ns := LinkBefore(nodes, at, entry);
      BeforeCycle(nodes, order, pos, at, ns);
      nodes, order, pos := ns, SpliceOrder(order, pos[pv], e), SplicePos(pos, pos[pv]);
    }

    /** Overwrites the fields of node i other than its links (a JavaScript
        field assignment on that node). */
    method Set(i: nat, node: Node)
      requires Valid() && i < |nodes| && node.next == nodes[i].next && node.prev == nodes[i].prev
      modifies this
      ensures Valid() && order == old(order) && pos == old(pos)
      ensures nodes == old(nodes)[i := node]
    {
      RelabelCycle(nodes, order, pos, i, node);
      nodes := nodes[i := node];
    }

    /** `find`: the first node, in traversal order from `start`, that satisfies
        the predicate (given the node and its visit index), or NULL. */
    method Find(start: nat, p: (nat, nat) -> bool) returns (r: int)
      requires Valid() && start < |nodes|
      ensures r == FirstMatch(Walk(start), p)
    {
      WalkPermutation(start);
      ghost var w := Walk(start);
      var index := 0;
      var curr: int := start;
      while curr != NULL && (curr != start || index == 0)
        invariant 0 <= index <= |w|
        invariant index < |w| ==> curr == w[index]
        invariant index == |w| ==> curr == start
        invariant FirstMatchIndex(w, p, 0) == FirstMatchIndex(w, p, index)
        decreases |w| - index
      {
        WalkAt(start, 0);
        if p(curr, index) {
          return curr;
        }
        WalkStep(start, index);
        curr := nodes[curr].next;
        index := index + 1;
      }
      WalkAt(start, 0);
      r := NULL;
    }

    /** `every`: despite its name, the first node that FAILS the predicate, or
        NULL when every node satisfies it. */
    method Every(start: nat, p: (nat, nat) -> bool) returns (r: int)
      requires Valid() && start < |nodes|
      ensures r == NULL <==> forall k :: 0 <= k < |Walk(start)| ==> p(Walk(start)[k], k)
      ensures r != NULL ==>
        exists k :: 0 <= k < |Walk(start)| && r == Walk(start)[k] && !p(Walk(start)[k], k) &&
          forall j :: 0 <= j < k ==> p(Walk(start)[j], j)
    {
      var notP := (c: nat, k: nat) => !p(c, k);
      r := Find(start, notP);
      FirstMatchSpec(Walk(start), notP);
    }

    /** `forEach`: visits the nodes from `start` in `next` order, each once,
        handing each to the callback with the running state; the callback
        rewrites the record (not its links) and the state. Because the
        cursor reads `next` after the callback has run, the records end up as
        the fold of the callback along the walk. */
    method ForEach<St(!new)>(start: nat, step: (Node, St) -> (Node, St), s0: St) returns (s: St)
      requires Valid() && start < |nodes| && KeepsLinks(step)
      modifies this
      ensures Valid() && order == old(order) && pos == old(pos)
      ensures (nodes, s) == Fold(old(nodes), old(Walk(start)), step, s0)
    {
      WalkTour(start);
      s := Sweep(start, step, s0, Walk(start));
    }

    /** The loop of `forEach` along the tour w from start. */
    method Sweep<St(!new)>(start: nat, step: (Node, St) -> (Node, St), s0: St, ghost w: seq<nat>) returns (s: St)
      requires Valid() && Tour(nodes, start, w) && KeepsLinks(step)
      modifies this
      ensures Valid() && order == old(order) && pos == old(pos)
      ensures (nodes, s) == Fold(old(nodes), w, step, s0)
    {
      ghost var ns0 := nodes;
      s := s0;
      var index := 0;
      var curr: int := start;
      while curr != NULL && (curr != start || index == 0)
        invariant Valid() && order == old(order) && pos == old(pos)
        invariant Tour(ns0, start, w) && SameLinks(ns0, nodes)
        invariant 0 <= index <= |w|
        invariant index < |w| ==> curr == w[index]
        invariant index == |w| ==> curr == start
        invariant (nodes, s) == Fold(ns0, w[..index], step, s0)
        decreases |w| - index
      {
        FoldStep(ns0, nodes, start, w, step, s0, s, index);
        var visited := step(nodes[curr], s);
        Set(curr, visited.0);
        s := visited.1;
        curr := visited.0.next;
        index := index + 1;
      }
      assert w[..index] == w;
    }

    /** The walk of a valid list from any of its nodes is a tour. */
    lemma WalkTour(start: nat)
      requires Valid() && start < |nodes|
      ensures Tour(nodes, start, Walk(start))
    {
      WalkPermutation(start);
      WalkReturns(start);
      WalkAt(start, 0);
      forall index | 0 <= index < |nodes|
        ensures Visit(nodes, start, Walk(start), index)
      {
        WalkStep(start, index);
      }
    }

    /** `toArray`: the records in traversal order from `start`. */
    method ToArray(start: nat) returns (result: seq<Node>)
      requires Valid() && start < |nodes|
      ensures |result| == |nodes|
      ensures forall k :: 0 <= k < |result| ==> result[k] == nodes[Walk(start)[k]]
    {
      WalkPermutation(start);
      ghost var w := Walk(start);
      result := [];
      var index := 0;
      var curr: int := start;
      while curr != NULL && (curr != start || index == 0)
        invariant 0 <= index <= |w| && |result| == index
        invariant index < |w| ==> curr == w[index]
        invariant index == |w| ==> curr == start
        invariant forall k :: 0 <= k < index ==> result[k] == nodes[w[k]]
        decreases |w| - index
      {
        WalkAt(start, 0);
        WalkStep(start, index);
        result := result + [nodes[curr]];
        curr := nodes[curr].next;
        index := index + 1;
      }
    }
  }

  /** Building a list from points and reading it back from its head yields the
      same points, in the same order. */
  method VerticesRoundTrip(vertices: seq<Point>) returns (back: seq<Point>)
    requires |vertices| >= 1
    ensures back == vertices
  {
    var list := new VertexList.FromArray(vertices, 0);
    var records := list.ToArray(0);
    back := seq(|records|, k requires 0 <= k < |records| => records[k].vertex);
    assert list.Walk(0) == list.order;
  }
}
