/** Phase 2, the labelling phase: every intersection of the subject is
    labelled crossing or bouncing (directly, or by the delayed decision on a
    chain of shared edges), the labels are copied to the clip, both lists get
    a start vertex off the other polygon's edges, and the crossings are
    labelled entry and exit alternately. */
module Labelling {
  import opened Util
  import opened VertexLists
  import opened Classification
  import opened Winding
  import opened IntersectionPhase

  /** Every partner reference of ns points into the other list, of m
      records, and every intersection has one. */
  ghost predicate Partnered(ns: seq<Node>, toClip: bool, m: nat)
  {
    forall i :: 0 <= i < |ns| ==>
      RefInto(ns[i].corresponding, toClip, m) && (ns[i].intersection ==> !ns[i].corresponding.NoRef?)
  }

  /** The two lists from phase 2 on: two distinct valid lists whose partner
      references point into each other. */
  ghost predicate Pair(S: VertexList, C: VertexList)
    reads S, C
  {
    S != C && S.Valid() && C.Valid() &&
    Partnered(S.nodes, true, |C.nodes|) && Partnered(C.nodes, false, |S.nodes|)
  }

  /** The lists phase 1 leaves behind are a pair. */
  lemma ListsPair(S: VertexList, C: VertexList, subject: seq<Point>, clip: seq<Point>)
    requires Lists(S, C, subject, clip)
    ensures Pair(S, C)
  {
    forall i | 0 <= i < |S.nodes|
      ensures RefInto(S.nodes[i].corresponding, true, |C.nodes|) &&
        (S.nodes[i].intersection ==> !S.nodes[i].corresponding.NoRef?)
    {
      assert LinkedAt(S.nodes, |subject|, true, |C.nodes|, i);
    }
    forall i | 0 <= i < |C.nodes|
      ensures RefInto(C.nodes[i].corresponding, false, |S.nodes|) &&
        (C.nodes[i].intersection ==> !C.nodes[i].corresponding.NoRef?)
    {
      assert LinkedAt(C.nodes, |clip|, false, |S.nodes|, i);
    }
  }

  /** A record without the fields phases 2 and 3 write: the chain tag, the
      crossing and entry labels and the processed flag. */
  function Skeleton(n: Node): Node
  {
    n.(crossing := Undecided, entry := Unlabelled, chain := NoChain, processed := false)
  }

  /** ns' is ns with (at most) those fields rewritten. */
  ghost predicate Relabelled(ns: seq<Node>, ns': seq<Node>)
  {
    |ns'| == |ns| && forall i :: 0 <= i < |ns| ==> Skeleton(ns'[i]) == Skeleton(ns[i])
  }

  lemma RelabelledTrans(a: seq<Node>, b: seq<Node>, c: seq<Node>)
    requires Relabelled(a, b) && Relabelled(b, c)
    ensures Relabelled(a, c)
  {
  }

  /** Relabelling keeps the partner references. */
  lemma PartneredRelabelled(ns: seq<Node>, ns': seq<Node>, toClip: bool, m: nat)
    requires Partnered(ns, toClip, m) && Relabelled(ns, ns')
    ensures Partnered(ns', toClip, m)
  {
    forall i | 0 <= i < |ns'|
      ensures RefInto(ns'[i].corresponding, toClip, m) && (ns'[i].intersection ==> !ns'[i].corresponding.NoRef?)
    {
      assert Skeleton(ns'[i]) == Skeleton(ns[i]);
    }
  }

  /** Relabelling keeps the links, hence the tours. */
  lemma TourRelabelled(ns: seq<Node>, ns': seq<Node>, start: nat, w: seq<nat>)
    requires Tour(ns, start, w) && Relabelled(ns, ns')
    ensures Tour(ns', start, w)
  {
    forall index | 0 <= index < |w|
      ensures Visit(ns', start, w, index)
    {
      assert Visit(ns, start, w, index);
      assert Skeleton(ns'[w[index]]) == Skeleton(ns[w[index]]);
    }
  }

  /** The visited prefix of a tour grows by the node at the cursor, which it
      did not hold yet. */
  lemma TourPrefix(w: seq<nat>, index: nat)
    requires index < |w| && forall j, k :: 0 <= j < k < |w| ==> w[j] != w[k]
    ensures w[..index + 1] == w[..index] + [w[index]] && w[index] !in w[..index]
  {
    assert w[..index + 1] == w[..index] + [w[index]];
  }

  /** The links of both lists are in range and every subject intersection
      has a clip partner: what step-1 labelling reads. */
  ghost predicate Wired(ns: seq<Node>, cs: seq<Node>)
  {
    (forall k :: 0 <= k < |ns| ==>
      0 <= ns[k].next < |ns| && 0 <= ns[k].prev < |ns| &&
      RefInto(ns[k].corresponding, true, |cs|) && (ns[k].intersection ==> ns[k].corresponding.Clip?)) &&
    (forall k :: 0 <= k < |cs| ==> 0 <= cs[k].next < |cs| && 0 <= cs[k].prev < |cs|)
  }

  lemma PairWired(S: VertexList, C: VertexList)
    requires Pair(S, C)
    ensures Wired(S.nodes, C.nodes)
  {
    forall k | 0 <= k < |S.nodes|
      ensures 0 <= S.nodes[k].next < |S.nodes| && 0 <= S.nodes[k].prev < |S.nodes|
    {
      S.Links(k);
    }
    forall k | 0 <= k < |C.nodes|
      ensures 0 <= C.nodes[k].next < |C.nodes| && 0 <= C.nodes[k].prev < |C.nodes|
    {
      C.Links(k);
    }
  }

  lemma WiredRelabelled(ns: seq<Node>, ns': seq<Node>, cs: seq<Node>)
    requires Wired(ns, cs) && Relabelled(ns, ns')
    ensures Wired(ns', cs)
  {
    forall k | 0 <= k < |ns'|
      ensures 0 <= ns'[k].next < |ns'| && 0 <= ns'[k].prev < |ns'| &&
        RefInto(ns'[k].corresponding, true, |cs|) && (ns'[k].intersection ==> ns'[k].corresponding.Clip?)
    {
      assert Skeleton(ns'[k]) == Skeleton(ns[k]);
    }
  }

  // ---------------------------------------------------------------------
  // Step 1: overlap or intersection, chain tag or crossing/bouncing
  // ---------------------------------------------------------------------

  /** The chain tag of an overlap vertex curr, from the partners pp and pm of
      its neighbours P+ and P-, the neighbours qp and qm of its own partner
      (as references into the clip), and the sides of Q- and Q+ with respect
      to the chain P-, curr, P+; the tag it had when no rule applies. */
  function ChainTag(pp: Ref, pm: Ref, qp: Ref, qm: Ref, sideQm: SideOf, sideQp: SideOf, before: Chain): (r: Chain)
    ensures (pp == qp || pp == qm || pm == qp || pm == qm) ==> r != NoChain
    ensures !(pp == qp || pp == qm || pm == qp || pm == qm) ==> r == before
    ensures r != before && r == OnOn ==> (pp == qp && pm == qm) || (pp == qm && pm == qp)
    ensures r != before && (r == LeftOn || r == RightOn) ==> pp == qp || pp == qm
    ensures r != before && (r == OnLeft || r == OnRight) ==> pm == qp || pm == qm
  {
    assert sideQm == Left || sideQm == Right;
    assert sideQp == Left || sideQp == Right;
    if (pp == qp && pm == qm) || (pp == qm && pm == qp) then OnOn
    else if (pp == qp && sideQm == Right) || (pp == qm && sideQp == Right) then LeftOn
    else if (pp == qp && sideQm == Left) || (pp == qm && sideQp == Left) then RightOn
    else if (pm == qm && sideQp == Right) || (pm == qp && sideQm == Right) then OnLeft
    else if (pm == qm && sideQp == Left) || (pm == qp && sideQm == Left) then OnRight
    else before
  }

  /** The overlap test at subject intersection i: P+ or P- is an
      intersection partnered with Q+ or Q-, the neighbours of i's partner. */
  predicate IsOverlap(ns: seq<Node>, cs: seq<Node>, i: nat)
    requires i < |ns| && Wired(ns, cs) && ns[i].intersection
  {
    var q := cs[ns[i].corresponding.i];
    var pPlus, pMinus := ns[ns[i].next], ns[ns[i].prev];
    (pPlus.intersection && (pPlus.corresponding == Clip(q.next) || pPlus.corresponding == Clip(q.prev))) ||
    (pMinus.intersection && (pMinus.corresponding == Clip(q.next) || pMinus.corresponding == Clip(q.prev)))
  }

  /** `side(Qminus, Pminus, curr, Pplus)` and `side(Qplus, Pminus, curr,
      Pplus)` at subject intersection i. */
  function Sides(ns: seq<Node>, cs: seq<Node>, i: nat): (SideOf, SideOf)
    requires i < |ns| && Wired(ns, cs) && ns[i].intersection
  {
    var q := cs[ns[i].corresponding.i];
    var pPlus, pMinus := ns[ns[i].next].vertex, ns[ns[i].prev].vertex;
    (Classification.Side(cs[q.prev].vertex, pMinus, ns[i].vertex, pPlus),
     Classification.Side(cs[q.next].vertex, pMinus, ns[i].vertex, pPlus))
  }

  /** The step-1 callback at subject record i: an overlap vertex gets its
      chain tag, any other intersection is CROSSING when Q- and Q+ lie on
      different sides of P-, curr, P+ and BOUNCING otherwise, and a record
      that is not an intersection is left alone. */
  function LabelOne(ns: seq<Node>, cs: seq<Node>, i: nat): (r: Node)
    requires i < |ns| && Wired(ns, cs)
    ensures Skeleton(r) == Skeleton(ns[i]) && r.entry == ns[i].entry && r.processed == ns[i].processed
    ensures !ns[i].intersection ==> r == ns[i]
    ensures ns[i].intersection && IsOverlap(ns, cs, i) ==> r.crossing == ns[i].crossing && r.chain != NoChain
    ensures ns[i].intersection && !IsOverlap(ns, cs, i) ==>
      r.chain == ns[i].chain && (r.crossing == Crossing <==> Sides(ns, cs, i).0 != Sides(ns, cs, i).1) &&
      (r.crossing == Bouncing <==> Sides(ns, cs, i).0 == Sides(ns, cs, i).1)
  {
    var n := ns[i];
    if !n.intersection then n
    else
      var q := cs[n.corresponding.i];
      var (sideQm, sideQp) := Sides(ns, cs, i);
      if IsOverlap(ns, cs, i) then
        n.(chain := ChainTag(ns[n.next].corresponding, ns[n.prev].corresponding, Clip(q.next), Clip(q.prev), sideQm, sideQp, n.chain))
      else
        n.(crossing := if sideQm != sideQp then Crossing else Bouncing)
  }

  /** The callback reads only what relabelling keeps, besides the record
      itself. */
  lemma LabelOneRelabelled(ns: seq<Node>, ns': seq<Node>, cs: seq<Node>, i: nat)
    requires Wired(ns, cs) && Relabelled(ns, ns') && i < |ns| && ns'[i] == ns[i]
    ensures Wired(ns', cs) && LabelOne(ns', cs, i) == LabelOne(ns, cs, i)
  {
    WiredRelabelled(ns, ns', cs);
    var n := ns[i];
    assert Skeleton(ns'[n.next]) == Skeleton(ns[n.next]);
    assert Skeleton(ns'[n.prev]) == Skeleton(ns[n.prev]);
  }

  /** The records of the first index nodes of the walk w are labelled, the
      others are as phase 1 left them. */
  ghost predicate LabelledUpTo(ns0: seq<Node>, ns: seq<Node>, cs: seq<Node>, w: seq<nat>, index: nat)
  {
    Wired(ns0, cs) && Relabelled(ns0, ns) && index <= |w| &&
    forall i :: 0 <= i < |ns0| ==> ns[i] == if i in w[..index] then LabelOne(ns0, cs, i) else ns0[i]
  }

  /** One more step of the walk labels one more record. */
  lemma LabelAdvance(ns0: seq<Node>, ns: seq<Node>, cs: seq<Node>, w: seq<nat>, index: nat)
    requires Tour(ns0, 0, w) && index < |w| && LabelledUpTo(ns0, ns, cs, w, index)
    ensures w[index] < |ns| && Wired(ns, cs)
    ensures ns[w[index]].next == (if index + 1 < |w| then w[index + 1] else 0)
    ensures index + 1 < |w| ==> w[index + 1] != 0
    ensures LabelOne(ns, cs, w[index]).next == ns[w[index]].next && LabelOne(ns, cs, w[index]).prev == ns[w[index]].prev
    ensures LabelledUpTo(ns0, ns[w[index] := LabelOne(ns, cs, w[index])], cs, w, index + 1)
  {
    assert Visit(ns0, 0, w, index);
    if index + 1 < |w| {
      assert Visit(ns0, 0, w, index + 1);
    }
    TourPrefix(w, index);
    LabelOneRelabelled(ns0, ns, cs, w[index]);
    assert Skeleton(LabelOne(ns, cs, w[index])) == Skeleton(ns[w[index]]);
  }

  /** After the whole walk every record is labelled. */
  lemma LabelledAll(ns0: seq<Node>, ns: seq<Node>, cs: seq<Node>, w: seq<nat>)
    requires Tour(ns0, 0, w) && LabelledUpTo(ns0, ns, cs, w, |w|)
    ensures Wired(ns0, cs) && Relabelled(ns0, ns)
    ensures forall i :: 0 <= i < |ns| ==> ns[i] == LabelOne(ns0, cs, i)
  {
    assert w[..|w|] == w;
  }

  /** Step 1 of the labelling phase: `subject.forEach` from the head, with
      LabelOne as its callback. As the callback reads only fields it never
      writes, each record ends up labelled from the lists as phase 1 left
      them. */
  method LabelIntersections(S: VertexList, C: VertexList)
    requires Pair(S, C)
    modifies S
    ensures Pair(S, C) && S.order == old(S.order) && S.pos == old(S.pos)
    ensures Wired(old(S.nodes), C.nodes) && |S.nodes| == old(|S.nodes|)
    ensures forall i :: 0 <= i < |S.nodes| ==> S.nodes[i] == LabelOne(old(S.nodes), C.nodes, i)
  {
    ghost var ns0 := S.nodes;
    PairWired(S, C);
    S.WalkTour(0);
    ghost var w := S.Walk(0);
    LabelAlong(S, C, w);
    LabelledAll(ns0, S.nodes, C.nodes, w);
    PartneredRelabelled(ns0, S.nodes, true, |C.nodes|);
  }

  /** The loop of step 1, along the tour w of the subject. */
  method LabelAlong(S: VertexList, C: VertexList, ghost w: seq<nat>)
    requires S != C && S.Valid() && Tour(S.nodes, 0, w) && Wired(S.nodes, C.nodes)
    modifies S
    ensures S.Valid() && S.order == old(S.order) && S.pos == old(S.pos)
    ensures LabelledUpTo(old(S.nodes), S.nodes, C.nodes, w, |w|)
  {
    ghost var ns0 := S.nodes;
    var index := 0;
    var curr: int := 0;
    assert w[..0] == [];
    while curr != NULL && (curr != 0 || index == 0)
      invariant S.Valid() && S.order == old(S.order) && S.pos == old(S.pos)
      invariant 0 <= index <= |w| && (index < |w| ==> curr == w[index]) && (index == |w| ==> curr == 0)
      invariant LabelledUpTo(ns0, S.nodes, C.nodes, w, index)
      decreases |w| - index
    {
      LabelAdvance(ns0, S.nodes, C.nodes, w, index);
      var node := LabelOne(S.nodes, C.nodes, curr);
      S.Set(curr, node);
      curr := node.next;
      index := index + 1;
    }
  }

  // ---------------------------------------------------------------------
  // Delayed decision on chains of shared edges
  // ---------------------------------------------------------------------

  /** The callback of the chain pass, with `chainStartSide` as its running
      state (NoChain standing for undefined): a record on a chain records its
      tag as the start side if none is recorded; a LEFT_ON, RIGHT_ON or ON_ON
      record becomes BOUNCING; an ON_LEFT or ON_RIGHT record ends the chain,
      BOUNCING when its tag less ON_ON is the recorded side and CROSSING
      otherwise, and clears the recorded side. */
  function ResolveOne(n: Node, start: Chain): (r: (Node, Chain))
    ensures r.0 == n.(crossing := r.0.crossing)
    ensures n.chain == NoChain ==> r == (n, start)
    ensures n.chain in {LeftOn, RightOn, OnOn} ==>
      r.0.crossing == Bouncing && r.1 == if start == NoChain then n.chain else start
    ensures n.chain == OnLeft ==> r.1 == NoChain && r.0.crossing == if start == LeftOn then Bouncing else Crossing
    ensures n.chain == OnRight ==> r.1 == NoChain && r.0.crossing == if start == RightOn then Bouncing else Crossing
  {
    if n.chain == NoChain then (n, start)
    else
      var side := if start == NoChain then n.chain else start;
      if n.chain.Code() <= OnOn.Code() then (n.(crossing := Bouncing), side)
      else (n.(crossing := if n.chain.Code() - OnOn.Code() == side.Code() then Bouncing else Crossing), NoChain)
  }

  /** The nodes of w after its last chain end (an ON_LEFT or ON_RIGHT record). */
  ghost function OpenRun(ns: seq<Node>, w: seq<nat>): seq<nat>
    requires forall k :: 0 <= k < |w| ==> w[k] < |ns|
    ensures forall k :: 0 <= k < |OpenRun(ns, w)| ==> OpenRun(ns, w)[k] < |ns|
  {
    if w == [] then []
    else if ns[w[|w| - 1]].chain.Code() > OnOn.Code() then []
    else OpenRun(ns, w[..|w| - 1]) + [w[|w| - 1]]
  }

  /** The tag of the first record on a chain along v; NoChain if there is none. */
  ghost function FirstTag(ns: seq<Node>, v: seq<nat>): Chain
    requires forall k :: 0 <= k < |v| ==> v[k] < |ns|
  {
    if v == [] then NoChain
    else if ns[v[0]].chain != NoChain then ns[v[0]].chain
    else FirstTag(ns, v[1..])
  }

  lemma {:induction false} FirstTagSnoc(ns: seq<Node>, v: seq<nat>, i: nat)
    requires (forall k :: 0 <= k < |v| ==> v[k] < |ns|) && i < |ns|
    ensures FirstTag(ns, v + [i]) == if FirstTag(ns, v) != NoChain then FirstTag(ns, v) else ns[i].chain
  {
    if v != [] {
      assert (v + [i])[1..] == v[1..] + [i];
      FirstTagSnoc(ns, v[1..], i);
    }
  }

  /** The chain pass writes only crossing labels. */
  lemma {:induction false} ResolvedKeeps(ns: seq<Node>, w: seq<nat>)
    requires forall k :: 0 <= k < |w| ==> w[k] < |ns|
    ensures var r := Fold(ns, w, ResolveOne, NoChain).0;
      forall i :: 0 <= i < |ns| ==> r[i] == ns[i].(crossing := r[i].crossing)
  {
    if w != [] {
      ResolvedKeeps(ns, w[..|w| - 1]);
    }
  }

  /** The start side recorded after a stretch of the walk is the tag of the
      first chain record since the last chain end. */
  lemma {:induction false} ResolvedSide(ns: seq<Node>, w: seq<nat>)
    requires forall k :: 0 <= k < |w| ==> w[k] < |ns|
    ensures Fold(ns, w, ResolveOne, NoChain).1 == FirstTag(ns, OpenRun(ns, w))
  {
    if w != [] {
      var v, x := w[..|w| - 1], w[|w| - 1];
      ResolvedSide(ns, v);
      ResolvedKeeps(ns, v);
      FirstTagSnoc(ns, OpenRun(ns, v), x);
    }
  }

  /** The chain pass along a walk that visits each record once: a record on
      no chain is untouched; LEFT_ON, RIGHT_ON and ON_ON records become
      BOUNCING; an ON_LEFT or ON_RIGHT record becomes BOUNCING exactly when
      its tag less ON_ON is the tag of the first chain record since the last
      chain end (itself included), and CROSSING otherwise. */
  lemma ResolvedLabels(ns: seq<Node>, w: seq<nat>)
    requires forall k :: 0 <= k < |w| ==> w[k] < |ns|
    requires forall j, k :: 0 <= j < k < |w| ==> w[j] != w[k]
    ensures var r := Fold(ns, w, ResolveOne, NoChain).0;
      (forall i :: 0 <= i < |ns| && i !in w ==> r[i] == ns[i]) &&
      forall k :: 0 <= k < |w| ==> ResolvedAt(ns, w, r, k)
  {
    var r := Fold(ns, w, ResolveOne, NoChain).0;
    forall i | 0 <= i < |ns| && i !in w
      ensures r[i] == ns[i]
    {
      FoldFrame(ns, w, ResolveOne, NoChain, i);
    }
    forall k | 0 <= k < |w|
      ensures ResolvedAt(ns, w, r, k)
    {
      FoldAt(ns, w, ResolveOne, NoChain, k);
      ResolvedSide(ns, w[..k]);
      FirstTagSnoc(ns, OpenRun(ns, w[..k]), w[k]);
    }
  }

  /** The label the chain pass gives to the k-th node of w. */
  ghost predicate ResolvedAt(ns: seq<Node>, w: seq<nat>, r: seq<Node>, k: nat)
    requires (forall k :: 0 <= k < |w| ==> w[k] < |ns|) && |r| == |ns| && k < |w|
  {
    var n := ns[w[k]];
    (n.chain == NoChain ==> r[w[k]] == n) &&
    (1 <= n.chain.Code() <= 3 ==> r[w[k]] == n.(crossing := Bouncing)) &&
    (n.chain.Code() > 3 ==> r[w[k]] == n.(crossing :=
      if n.chain.Code() - 3 == FirstTag(ns, OpenRun(ns, w[..k]) + [w[k]]).Code() then Bouncing else Crossing))
  }

  /** The chain pass: `subject.forEach` from the head with ResolveOne as
      its callback. */
  method ResolveChains(S: VertexList)
    requires S.Valid()
    modifies S
    ensures S.Valid() && S.order == old(S.order) && S.pos == old(S.pos)
    ensures S.nodes == Fold(old(S.nodes), old(S.Walk(0)), ResolveOne, NoChain).0
  {
    assert KeepsLinks(ResolveOne);
    var _ := S.ForEach(0, ResolveOne, NoChain);
  }

  // ---------------------------------------------------------------------
  // Copying the crossing labels to the clip
  // ---------------------------------------------------------------------

  /** The copy callback at subject record n: an intersection hands its
      label to its partner in the clip. */
  function CopyOne(cs: seq<Node>, n: Node): (r: seq<Node>)
    requires RefInto(n.corresponding, true, |cs|) && (n.intersection ==> n.corresponding.Clip?)
    ensures |r| == |cs|
    ensures n.intersection ==> r[n.corresponding.i].crossing == n.crossing
    ensures forall j :: 0 <= j < |cs| ==> r[j] == cs[j].(crossing := r[j].crossing)
    ensures forall j :: 0 <= j < |cs| && !(n.intersection && j == n.corresponding.i) ==> r[j] == cs[j]
  {
    if n.intersection then cs[n.corresponding.i := cs[n.corresponding.i].(crossing := n.crossing)] else cs
  }

  /** Every subject record's partner, if any, lies in a clip of m records,
      and every subject intersection has one. */
  ghost predicate PartnersIn(ns: seq<Node>, m: nat)
  {
    forall k :: 0 <= k < |ns| ==>
      RefInto(ns[k].corresponding, true, m) && (ns[k].intersection ==> ns[k].corresponding.Clip?)
  }

  /** The clip records after the copy callback has run at the subject nodes of w in order. */
  function Copied(cs: seq<Node>, ns: seq<Node>, w: seq<nat>): (r: seq<Node>)
    requires PartnersIn(ns, |cs|) && forall k :: 0 <= k < |w| ==> w[k] < |ns|
    ensures |r| == |cs|
  {
    if w == [] then cs else CopyOne(Copied(cs, ns, w[..|w| - 1]), ns[w[|w| - 1]])
  }

  /** The last node of w that is an intersection partnered with clip record
      j, or NULL. */
  ghost function LastPartner(ns: seq<Node>, w: seq<nat>, j: nat): (r: int)
    requires forall k :: 0 <= k < |w| ==> w[k] < |ns|
    ensures r == NULL || (0 <= r < |ns| && r in w && ns[r].intersection && ns[r].corresponding == Clip(j))
  {
    if w == [] then NULL
    else if ns[w[|w| - 1]].intersection && ns[w[|w| - 1]].corresponding == Clip(j) then w[|w| - 1]
    else LastPartner(ns, w[..|w| - 1], j)
  }

  /** After the copy, a clip record carries the label of the last subject
      intersection (along the walk) partnered with it, and keeps its own
      when there is none; nothing else changes. */
  lemma {:induction false} CopiedLabels(cs: seq<Node>, ns: seq<Node>, w: seq<nat>)
    requires PartnersIn(ns, |cs|) && forall k :: 0 <= k < |w| ==> w[k] < |ns|
    ensures forall j :: 0 <= j < |cs| ==> Copied(cs, ns, w)[j] == cs[j].(crossing :=
      if LastPartner(ns, w, j) == NULL then cs[j].crossing else ns[LastPartner(ns, w, j)].crossing)
  {
    if w != [] {
      CopiedLabels(cs, ns, w[..|w| - 1]);
    }
  }

  /** Copying relabels the clip. */
  lemma {:induction false} CopiedRelabels(cs: seq<Node>, ns: seq<Node>, w: seq<nat>)
    requires PartnersIn(ns, |cs|) && forall k :: 0 <= k < |w| ==> w[k] < |ns|
    ensures Relabelled(cs, Copied(cs, ns, w))
  {
    if w != [] {
      CopiedRelabels(cs, ns, w[..|w| - 1]);
    }
  }

  /** One more step of the copy along a tour of the subject. */
  lemma CopyAdvance(ns: seq<Node>, w: seq<nat>, cs0: seq<Node>, cs: seq<Node>, index: nat)
    requires Tour(ns, 0, w) && index < |w| && PartnersIn(ns, |cs0|)
    requires cs == Copied(cs0, ns, w[..index])
    ensures ns[w[index]].next == (if index + 1 < |w| then w[index + 1] else 0)
    ensures index + 1 < |w| ==> w[index + 1] != 0
    ensures RefInto(ns[w[index]].corresponding, true, |cs|)
    ensures ns[w[index]].intersection ==> ns[w[index]].corresponding.Clip?
    ensures Copied(cs0, ns, w[..index + 1]) == CopyOne(cs, ns[w[index]])
  {
    assert Visit(ns, 0, w, index);
    if index + 1 < |w| {
      assert Visit(ns, 0, w, index + 1);
    }
    assert w[..index + 1][..index] == w[..index];
  }

  /** The copy pass: `subject.forEach` from the head, writing each
      intersection's label into its partner. */
  method CopyCrossings(S: VertexList, C: VertexList)
    requires Pair(S, C)
    modifies C
    ensures C.Valid() && C.order == old(C.order) && C.pos == old(C.pos)
    ensures PartnersIn(S.nodes, old(|C.nodes|)) && C.nodes == Copied(old(C.nodes), S.nodes, S.Walk(0))
    ensures Pair(S, C) && Relabelled(old(C.nodes), C.nodes)
    ensures forall j :: 0 <= j < |C.nodes| ==> C.nodes[j].chain == old(C.nodes[j].chain)
  {
    PartnersInPair(S, C);
    S.WalkTour(0);
    ghost var cs0 := C.nodes;
    CopyAlong(S, C, S.Walk(0));
    CopiedLabels(cs0, S.nodes, S.Walk(0));
    CopiedRelabels(cs0, S.nodes, S.Walk(0));
    PartneredRelabelled(cs0, C.nodes, false, |S.nodes|);
  }

  /** The loop of the copy pass, along the tour w of the subject. */
  method CopyAlong(S: VertexList, C: VertexList, ghost w: seq<nat>)
    requires S != C && C.Valid() && Tour(S.nodes, 0, w) && PartnersIn(S.nodes, |C.nodes|)
    modifies C
    ensures C.Valid() && C.order == old(C.order) && C.pos == old(C.pos)
    ensures C.nodes == Copied(old(C.nodes), S.nodes, w)
  {
    ghost var cs0 := C.nodes;
    var index := 0;
    var curr: int := 0;
    while curr != NULL && (curr != 0 || index == 0)
      invariant C.Valid() && C.order == old(C.order) && C.pos == old(C.pos)
      invariant 0 <= index <= |w| && (index < |w| ==> curr == w[index]) && (index == |w| ==> curr == 0)
      invariant C.nodes == Copied(cs0, S.nodes, w[..index])
      decreases |w| - index
    {
      CopyAdvance(S.nodes, w, cs0, C.nodes, index);
      var n := S.nodes[curr];
      if n.intersection {
        var j := n.corresponding.i;
        C.Set(j, C.nodes[j].(crossing := n.crossing));
      }
      curr := n.next;
      index := index + 1;
    }
    assert w[..index] == w;
  }

  lemma PartnersInPair(S: VertexList, C: VertexList)
    requires Pair(S, C)
    ensures PartnersIn(S.nodes, |C.nodes|)
  {
  }

  // ---------------------------------------------------------------------
  // Start vertices
  // ---------------------------------------------------------------------

  /** `curr => !curr.intersection` */
  function Plain(ns: seq<Node>): (nat, nat) -> bool
  {
    (c: nat, k: nat) => c < |ns| && !ns[c].intersection
  }

  /** `curr => curr.chain !== ON_ON` */
  function NotOnOn(ns: seq<Node>): (nat, nat) -> bool
  {
    (c: nat, k: nat) => c < |ns| && ns[c].chain != OnOn
  }

  /** The WITH_SELF test as written: no plain subject vertex was found and
      `every(curr => curr.chain === ON_ON)` returned a node, which, since
      `every` returns the first node that fails, means some record is NOT
      ON_ON. */
  function WithSelfAsWritten(plain: int, failing: int): bool
  {
    plain == NULL && failing != NULL
  }

  /** The WITH_SELF test as its comment means it: no plain subject vertex
      and every subject record ON_ON. */
  function WithSelf(plain: int, failing: int): bool
  {
    plain == NULL && failing == NULL
  }

  /** The point halfway between a and b, which lies on the line through
      them. */
  function Midpoint(a: Point, b: Point): (m: Point)
    ensures A(a, m, b) == 0.0
  {
    Point((a.x + b.x) / 2.0, (a.y + b.y) / 2.0)
  }

  /** Where the seed goes after the first record that is not ON_ON: one back
      from LEFT_ON or RIGHT_ON, one on from ON_LEFT or ON_RIGHT, and that
      record itself when it carries no tag (the comparisons with ON_ON of an
      undefined tag are both false). */
  function OffChain(ns: seq<Node>, i: nat): int
    requires i < |ns|
  {
    if ns[i].chain == LeftOn || ns[i].chain == RightOn then ns[i].prev
    else if ns[i].chain == OnLeft || ns[i].chain == OnRight then ns[i].next
    else i
  }

  /** The anchor of the virtual start vertex of a list without a plain
      vertex, from its records and its walk from the head; NULL when every
      record is ON_ON, where the source dereferences null. */
  ghost function SeedAnchor(ns: seq<Node>, w: seq<nat>): int
  {
    var i := FirstMatch(w, NotOnOn(ns));
    if 0 <= i < |ns| then OffChain(ns, i) else NULL
  }

  /** Seed synthesis for one list: find the first record that is not ON_ON,
      move off the chain, and insert a fresh record (a new point object,
      with identity vid) halfway along the edge after the anchor. found is
      false, and the list unchanged, when the search finds nothing. */
  method PlaceSeed(l: VertexList, vid: nat) returns (found: bool, e: nat)
    requires l.Valid()
    modifies l
    ensures found <==> SeedAnchor(old(l.nodes), old(l.Walk(0))) != NULL
    ensures !found ==> l.nodes == old(l.nodes) && l.order == old(l.order) && l.pos == old(l.pos)
    ensures found ==> var s := SeedAnchor(old(l.nodes), old(l.Walk(0)));
      l.Valid() && 0 <= s < e && e == old(|l.nodes|) && |l.nodes| == e + 1 &&
      0 <= old(l.nodes[s].next) < e &&
      l.nodes[s].next == e && l.nodes[e].next == old(l.nodes[s].next) &&
      Data(l.nodes[e]) == Data(Fresh(Midpoint(old(l.nodes[s].vertex), old(l.nodes[l.nodes[s].next].vertex)), vid)) &&
      l.order == SpliceOrder(old(l.order), old(l.pos[s]), e) && SameData(old(l.nodes), l.nodes)
  {
    var i := l.Find(0, NotOnOn(l.nodes));
    FirstMatchSpec(l.Walk(0), NotOnOn(l.nodes));
    if i == NULL {
      return false, 0;
    }
    l.WalkAt(0, 0);
    assert 0 <= i < |l.nodes|;
    var s := OffChain(l.nodes, i);
    l.Links(i);
    l.Links(s);
    var nx := l.nodes[s].next;
    var entry := Fresh(Midpoint(l.nodes[s].vertex, l.nodes[nx].vertex), vid);
    e := l.Insert(s, entry);
    found := true;
  }

  /** `curr => curr.chain === ON_ON` */
  function OnOnAt(ns: seq<Node>): (nat, nat) -> bool
  {
    (c: nat, k: nat) => c < |ns| && ns[c].chain == OnOn
  }

  /** Where the entry/exit pass of one list starts. */
  datatype Start =
    | AllShared     // every record an ON_ON intersection: the polygons coincide
    | NoStart       // no record to start from or to seed after
    | PlainAt(i: nat)    // a record that is no intersection
    | SeedAfter(i: nat)  // no such record: seed off the chain through record i

  /** The start of one list as `find(curr => !curr.intersection)` and, when
      that finds nothing, `find(curr => curr.chain !== ON_ON)` pick it along
      the walk w from the head. */
  function StartOf(ns: seq<Node>, w: seq<nat>): (r: Start)
    requires forall k :: 0 <= k < |w| ==> w[k] < |ns|
    ensures !r.AllShared?
    ensures r.NoStart? <==> forall k :: 0 <= k < |w| ==> ns[w[k]].intersection && ns[w[k]].chain == OnOn
    ensures r.PlainAt? ==> r.i in w && !ns[r.i].intersection
    ensures r.SeedAfter? ==> r.i in w && ns[r.i].chain != OnOn && forall k :: 0 <= k < |w| ==> ns[w[k]].intersection
  {
    FirstMatchSpec(w, Plain(ns));
    FirstMatchSpec(w, NotOnOn(ns));
    var plain := FirstMatch(w, Plain(ns));
    var off := FirstMatch(w, NotOnOn(ns));
    if plain != NULL then PlainAt(plain) else if off != NULL then SeedAfter(off) else NoStart
  }

  /** The subject's start with the WITH_SELF test as its comment means it:
      the polygons coincide exactly when every subject record is an ON_ON
      intersection, and otherwise a start is always found. */
  function SubjectStart(ns: seq<Node>, w: seq<nat>): (r: Start)
    requires forall k :: 0 <= k < |w| ==> w[k] < |ns|
    ensures r.AllShared? <==> forall k :: 0 <= k < |w| ==> ns[w[k]].intersection && ns[w[k]].chain == OnOn
    ensures !r.NoStart?
    ensures !r.AllShared? ==> r == StartOf(ns, w)
  {
    FirstMatchSpec(w, Plain(ns));
    FirstMatchSpec(w, NotOnOn(ns));
    if WithSelf(FirstMatch(w, Plain(ns)), FirstMatch(w, NotOnOn(ns))) then AllShared else StartOf(ns, w)
  }

  /** The subject's start with the WITH_SELF test as written: it fires when
      every record is an intersection but some record is NOT ON_ON, and a
      subject of ON_ON intersections only falls through to a search that
      finds nothing. */
  function SubjectStartAsWritten(ns: seq<Node>, w: seq<nat>): (r: Start)
    requires forall k :: 0 <= k < |w| ==> w[k] < |ns|
    ensures r.AllShared? <==>
      (forall k :: 0 <= k < |w| ==> ns[w[k]].intersection) && exists k :: 0 <= k < |w| && ns[w[k]].chain != OnOn
    ensures r.NoStart? <==> forall k :: 0 <= k < |w| ==> ns[w[k]].intersection && ns[w[k]].chain == OnOn
    ensures !r.AllShared? ==> r == StartOf(ns, w)
  {
    FirstMatchSpec(w, Plain(ns));
    FirstMatchSpec(w, NotOnOn(ns));
    if WithSelfAsWritten(FirstMatch(w, Plain(ns)), FirstMatch(w, NotOnOn(ns))) then AllShared else StartOf(ns, w)
  }

  /** The two tests agree exactly when the subject has a record that is no
      intersection; on a subject of intersections only, the test as written
      answers "identical" for polygons that are not, and fails for polygons
      that are. */
  lemma StartTestsDisagree(ns: seq<Node>, w: seq<nat>)
    requires forall k :: 0 <= k < |w| ==> w[k] < |ns|
    ensures SubjectStartAsWritten(ns, w) == SubjectStart(ns, w) <==> exists k :: 0 <= k < |w| && !ns[w[k]].intersection
    ensures (forall k :: 0 <= k < |w| ==> ns[w[k]].intersection) ==>
      (SubjectStartAsWritten(ns, w).AllShared? <==> SubjectStart(ns, w).SeedAfter?) &&
      (SubjectStartAsWritten(ns, w).NoStart? <==> SubjectStart(ns, w).AllShared?)
  {
    if forall k :: 0 <= k < |w| ==> ns[w[k]].intersection {
      if forall k :: 0 <= k < |w| ==> ns[w[k]].chain == OnOn {
        assert SubjectStart(ns, w).AllShared?;
      } else {
        var k :| 0 <= k < |w| && ns[w[k]].chain != OnOn;
        assert SubjectStartAsWritten(ns, w).AllShared?;
        assert SubjectStart(ns, w) == StartOf(ns, w);
      }
    } else {
      var k :| 0 <= k < |w| && !ns[w[k]].intersection;
      assert !SubjectStart(ns, w).AllShared?;
      assert !SubjectStartAsWritten(ns, w).AllShared?;
    }
  }

  /** An intersection record of two identical triangles, i-th around. */
  function SharedCorner(p: Point, i: nat, n: nat): Node
    requires 0 < n && i < n
  {
    Node(p, i, false, true, Some(0.0), Clip(i), Bouncing, Unlabelled, OnOn, false, (i + 1) % n, (i + n - 1) % n)
  }

  /** Subject and clip the same triangle: every subject record is an ON_ON
      intersection. The test as written lets this through to a search for a
      record off the chain, which finds none; the intended test recognises
      the polygons as identical. */
  lemma IdenticalTriangles()
    ensures var ns := [SharedCorner(Point(0.0, 0.0), 0, 3), SharedCorner(Point(4.0, 0.0), 1, 3), SharedCorner(Point(0.0, 4.0), 2, 3)];
      SubjectStartAsWritten(ns, [0, 1, 2]) == NoStart && SubjectStart(ns, [0, 1, 2]) == AllShared
  {
    var ns := [SharedCorner(Point(0.0, 0.0), 0, 3), SharedCorner(Point(4.0, 0.0), 1, 3), SharedCorner(Point(0.0, 4.0), 2, 3)];
    assert forall k :: 0 <= k < 3 ==> ns[[0, 1, 2][k]].intersection && ns[[0, 1, 2][k]].chain == OnOn;
  }

  /** The four corners of the diamond (2,0), (4,2), (2,4), (0,2) touch the
      edges of the square (0,0), (4,0), (4,4), (0,4) from inside: every
      subject record is an intersection on no chain. The test as written
      takes the diamond for the square; the intended test seeds a start. */
  lemma DiamondInSquare()
    ensures var ns := [Touch(Point(2.0, 0.0), 0), Touch(Point(4.0, 2.0), 1), Touch(Point(2.0, 4.0), 2), Touch(Point(0.0, 2.0), 3)];
      SubjectStartAsWritten(ns, [0, 1, 2, 3]) == AllShared && SubjectStart(ns, [0, 1, 2, 3]) == SeedAfter(0)
  {
    var ns := [Touch(Point(2.0, 0.0), 0), Touch(Point(4.0, 2.0), 1), Touch(Point(2.0, 4.0), 2), Touch(Point(0.0, 2.0), 3)];
    var w := [0, 1, 2, 3];
    assert forall k :: 0 <= k < 4 ==> ns[w[k]].intersection && ns[w[k]].chain == NoChain;
    assert FirstMatch(w, Plain(ns)) == NULL;
    assert FirstMatch(w, NotOnOn(ns)) == 0;
  }

  /** A diamond corner lying on an edge of the square: an intersection
      (T-shaped) on no chain of shared edges. */
  function Touch(p: Point, i: nat): Node
    requires i < 4
  {
    Node(p, i, false, true, Some(0.5), Clip(2 * i + 1), Crossing, Unlabelled, NoChain, false, (i + 1) % 4, (i + 3) % 4)
  }

  /** Records that agree on data, with fresh records that are neither
      intersections nor partnered, keep their partners in range when the
      other list grows. */
  lemma PartneredGrow(ns: seq<Node>, ns': seq<Node>, toClip: bool, m: nat, m': nat)
    requires Partnered(ns, toClip, m) && SameData(ns, ns') && m <= m'
    requires forall i :: |ns| <= i < |ns'| ==> ns'[i].corresponding == NoRef && !ns'[i].intersection
    ensures Partnered(ns', toClip, m')
  {
    forall i | 0 <= i < |ns'|
      ensures RefInto(ns'[i].corresponding, toClip, m') && (ns'[i].intersection ==> !ns'[i].corresponding.NoRef?)
    {
      if i < |ns| {
        assert Kept(ns, ns', i);
        assert Data(ns'[i]) == Data(ns[i]);
      }
    }
  }

  /** What the start search of both lists decides. */
  datatype Phase =
    | Identical                     // WITH_SELF
    | Unstartable                   // a seed search found nothing
    | Started(subject: nat, clip: nat)

  /** A list after at most one seed: the old records keep their data, and a
      record added is a fresh, unpartnered non-intersection. */
  ghost predicate Seeded(ns: seq<Node>, ns': seq<Node>)
  {
    SameData(ns, ns') && |ns'| <= |ns| + 1 &&
    forall i :: |ns| <= i < |ns'| ==> ns'[i].corresponding == NoRef && !ns'[i].intersection
  }

  /** Seeding keeps both lists partnered. */
  lemma PairSeeded(ns: seq<Node>, cs: seq<Node>, ns': seq<Node>, cs': seq<Node>)
    requires Partnered(ns, true, |cs|) && Partnered(cs, false, |ns|)
    requires Seeded(ns, ns') && Seeded(cs, cs')
    ensures Partnered(ns', true, |cs'|) && Partnered(cs', false, |ns'|)
  {
    PartneredGrow(ns, ns', true, |cs|, |cs'|);
    PartneredGrow(cs, cs', false, |ns|, |ns'|);
  }

  /** How many seeds a list with start st receives. */
  function Seeds(st: Start): nat
  {
    if st.SeedAfter? then 1 else 0
  }

  /** ns' is ns after the start search along the walk w, and s the start it
      settles on: the first plain record along w, with nothing changed, or
      else a fresh record with identity vid halfway along the edge after the
      seed anchor, linked in right after the anchor. */
  ghost predicate StartedAt(ns: seq<Node>, w: seq<nat>, ns': seq<Node>, s: nat, vid: nat)
    requires forall k :: 0 <= k < |w| ==> w[k] < |ns|
  {
    match StartOf(ns, w)
    case PlainAt(i) => s == i && ns' == ns
    case SeedAfter(i) =>
      var a := OffChain(ns, i);
      0 <= a < |ns| && 0 <= ns[a].next < |ns| && s == |ns| && |ns'| == |ns| + 1 &&
      ns'[a].next == s && ns'[s].next == ns[a].next &&
      Data(ns'[s]) == Data(Fresh(Midpoint(ns[a].vertex, ns[ns[a].next].vertex), vid))
    case _ => false
  }

  /** The start of one list given the result `plain` of its search for a
      record that is no intersection: that record, or else a seed placed
      off the chain. found is false when there is nowhere to seed. */
  method StartList(l: VertexList, plain: int, vid: nat) returns (found: bool, s: nat, vid': nat)
    requires l.Valid() && plain == FirstMatch(l.Walk(0), Plain(l.nodes))
    modifies l
    ensures l.Valid() && Seeded(old(l.nodes), l.nodes) && vid' >= vid
    ensures found <==> !StartOf(old(l.nodes), old(l.Walk(0))).NoStart?
    ensures found ==> s < |l.nodes| && !l.nodes[s].intersection
    ensures Tour(old(l.nodes), 0, old(l.Walk(0)))
    ensures found ==>
      StartedAt(old(l.nodes), old(l.Walk(0)), l.nodes, s, vid) && vid' == vid + Seeds(StartOf(old(l.nodes), old(l.Walk(0))))
  {
    l.WalkTour(0);
    FirstMatchSpec(l.Walk(0), Plain(l.nodes));
    if plain != NULL {
      return true, plain, vid;
    }
    found, s := SeedStart(l, vid);
    vid' := if found then vid + 1 else vid;
  }

  /** The start of a list without a plain record: a seed placed off the
      chain, or nothing when there is nowhere to put it. */
  method SeedStart(l: VertexList, vid: nat) returns (found: bool, s: nat)
    requires l.Valid() && FirstMatch(l.Walk(0), Plain(l.nodes)) == NULL
    modifies l
    ensures l.Valid() && Seeded(old(l.nodes), l.nodes)
    ensures Tour(old(l.nodes), 0, old(l.Walk(0)))
    ensures found <==> StartOf(old(l.nodes), old(l.Walk(0))).SeedAfter?
    ensures found ==> s < |l.nodes| && !l.nodes[s].intersection && StartedAt(old(l.nodes), old(l.Walk(0)), l.nodes, s, vid)
  {
    l.WalkTour(0);
    ghost var ns, w := l.nodes, l.Walk(0);
    ghost var st := StartOf(ns, w);
    assert st.SeedAfter? ==> SeedAnchor(ns, w) == OffChain(ns, st.i);
    found, s := PlaceSeed(l, vid);
  }

  /** The start search: both lists are searched for a plain record, the
      subject is tested for coinciding with the clip, and each list without a
      plain record gets a seed (subject first). */
  method ChooseStarts(S: VertexList, C: VertexList, vid: nat) returns (r: Phase, vid': nat)
    requires Pair(S, C)
    modifies S, C
    ensures Pair(S, C) && vid' >= vid
    ensures Seeded(old(S.nodes), S.nodes) && Seeded(old(C.nodes), C.nodes)
    ensures var sub := SubjectStart(old(S.nodes), old(S.Walk(0)));
      (r.Identical? <==> sub.AllShared?) &&
      (r.Unstartable? <==> !sub.AllShared? && StartOf(old(C.nodes), old(C.Walk(0))).NoStart?)
    ensures r.Started? ==>
      r.subject < |S.nodes| && r.clip < |C.nodes| && !S.nodes[r.subject].intersection && !C.nodes[r.clip].intersection
    ensures Tour(old(S.nodes), 0, old(S.Walk(0))) && Tour(old(C.nodes), 0, old(C.Walk(0)))
    ensures r.Started? ==>
      StartedAt(old(S.nodes), old(S.Walk(0)), S.nodes, r.subject, vid) &&
      StartedAt(old(C.nodes), old(C.Walk(0)), C.nodes, r.clip, vid + Seeds(StartOf(old(S.nodes), old(S.Walk(0))))) &&
      vid' == vid + Seeds(StartOf(old(S.nodes), old(S.Walk(0)))) + Seeds(StartOf(old(C.nodes), old(C.Walk(0))))
  {
    C.WalkTour(0);
    S.WalkTour(0);
    var same, plainS, plainC := SearchStarts(S, C);
    if same {
      return Identical, vid;
    }
    r, vid' := SeedBoth(S, C, plainS, plainC, vid);
  }

  /** The searches of the start search: a plain record in each list, and
      the WITH_SELF test on the subject. */
  method SearchStarts(S: VertexList, C: VertexList) returns (same: bool, plainS: int, plainC: int)
    requires Pair(S, C)
    ensures plainS == FirstMatch(S.Walk(0), Plain(S.nodes)) && plainC == FirstMatch(C.Walk(0), Plain(C.nodes))
    ensures same <==> SubjectStart(S.nodes, S.Walk(0)).AllShared?
    ensures !same ==> !StartOf(S.nodes, S.Walk(0)).NoStart?
  {
    S.WalkTour(0);
    ghost var sub := SubjectStart(S.nodes, S.Walk(0));
    plainS := S.Find(0, Plain(S.nodes));
    plainC := C.Find(0, Plain(C.nodes));
    var failing := S.Every(0, OnOnAt(S.nodes));
    FirstMatchSpec(S.Walk(0), Plain(S.nodes));
    FirstMatchSpec(S.Walk(0), NotOnOn(S.nodes));
    same := WithSelf(plainS, failing);
    if same {
      assert sub.AllShared?;
    } else {
      assert !sub.AllShared?;
    }
  }

  /** The seeding half of the start search, once the subject is known to
      have a start: the subject's start first, then the clip's. */
  method SeedBoth(S: VertexList, C: VertexList, plainS: int, plainC: int, vid: nat) returns (r: Phase, vid': nat)
    requires Pair(S, C)
    requires plainS == FirstMatch(S.Walk(0), Plain(S.nodes)) && plainC == FirstMatch(C.Walk(0), Plain(C.nodes))
    requires !StartOf(S.nodes, S.Walk(0)).NoStart?
    modifies S, C
    ensures Pair(S, C) && vid' >= vid && !r.Identical?
    ensures Seeded(old(S.nodes), S.nodes) && Seeded(old(C.nodes), C.nodes)
    ensures r.Unstartable? <==> StartOf(old(C.nodes), old(C.Walk(0))).NoStart?
    ensures r.Started? ==>
      r.subject < |S.nodes| && r.clip < |C.nodes| && !S.nodes[r.subject].intersection && !C.nodes[r.clip].intersection
    ensures Tour(old(S.nodes), 0, old(S.Walk(0))) && Tour(old(C.nodes), 0, old(C.Walk(0)))
    ensures r.Started? ==>
      StartedAt(old(S.nodes), old(S.Walk(0)), S.nodes, r.subject, vid) &&
      StartedAt(old(C.nodes), old(C.Walk(0)), C.nodes, r.clip, vid + Seeds(StartOf(old(S.nodes), old(S.Walk(0))))) &&
      vid' == vid + Seeds(StartOf(old(S.nodes), old(S.Walk(0)))) + Seeds(StartOf(old(C.nodes), old(C.Walk(0))))
  {
    ghost var ns, cs := S.nodes, C.nodes;
    var foundS, s, v1 := StartList(S, plainS, vid);
    var foundC, c, v2 := StartList(C, plainC, v1);
    PairSeeded(ns, cs, S.nodes, C.nodes);
    vid' := v2;
    r := if foundC then Started(s, c) else Unstartable;
  }

  // ---------------------------------------------------------------------
  // Entry and exit
  // ---------------------------------------------------------------------

  /** `status = !status`: ENTRY and EXIT exchanged. */
  function Toggle(status: Label): (r: Label)
    requires status != Unlabelled
    ensures r != Unlabelled && r != status
    ensures status == Exit ==> r == Entry
    ensures status == Entry ==> r == Exit
  {
    if status == Entry then Exit else Entry
  }

  /** The callback of the entry/exit pass: a CROSSING record takes the
      current status, which then flips; any other record is left alone. */
  function LabelEntry(n: Node, status: Label): (r: (Node, Label))
    ensures r.0 == n.(entry := r.0.entry)
    ensures n.crossing == Crossing && status != Unlabelled ==> r.0.entry == status && r.1 != status && r.1 != Unlabelled
    ensures n.crossing != Crossing || status == Unlabelled ==> r == (n, status)
  {
    if n.crossing == Crossing && status != Unlabelled then (n.(entry := status), Toggle(status)) else (n, status)
  }

  /** The number of CROSSING records among the nodes of v. */
  ghost function Crossings(ns: seq<Node>, v: seq<nat>): nat
    requires forall k :: 0 <= k < |v| ==> v[k] < |ns|
  {
    if v == [] then 0
    else Crossings(ns, v[..|v| - 1]) + (if ns[v[|v| - 1]].crossing == Crossing then 1 else 0)
  }

  /** status flipped n times. */
  function Flipped(status: Label, n: nat): (r: Label)
    requires status != Unlabelled
    ensures r != Unlabelled
  {
    if n % 2 == 0 then status else Toggle(status)
  }

  /** The status after a stretch of the walk is the start status flipped once
      per crossing passed. */
  lemma {:induction false} EntryStatus(ns: seq<Node>, w: seq<nat>, status: Label)
    requires (forall k :: 0 <= k < |w| ==> w[k] < |ns|) && status != Unlabelled
    ensures Fold(ns, w, LabelEntry, status).1 == Flipped(status, Crossings(ns, w))
  {
    if w != [] {
      var v := w[..|w| - 1];
      EntryStatus(ns, v, status);
      FoldFrameCrossing(ns, v, w[|w| - 1], status);
    }
  }

  /** The entry/exit pass writes only entry labels, so the crossing label
      it reads at a node is the original one. */
  lemma {:induction false} FoldFrameCrossing(ns: seq<Node>, w: seq<nat>, i: nat, status: Label)
    requires (forall k :: 0 <= k < |w| ==> w[k] < |ns|) && i < |ns|
    ensures Fold(ns, w, LabelEntry, status).0[i] == ns[i].(entry := Fold(ns, w, LabelEntry, status).0[i].entry)
  {
    if w != [] {
      FoldFrameCrossing(ns, w[..|w| - 1], i, status);
    }
  }

  /** The entry/exit pass along a walk that visits each record once, from
      status `status`: the crossing records, in the order of the walk, are
      labelled status, flipped status, status, ...; every other record keeps
      its label, and the final status is flipped once per crossing. */
  lemma EntriesAlternate(ns: seq<Node>, w: seq<nat>, status: Label)
    requires forall k :: 0 <= k < |w| ==> w[k] < |ns|
    requires forall j, k :: 0 <= j < k < |w| ==> w[j] != w[k]
    requires status != Unlabelled
    ensures var r := Fold(ns, w, LabelEntry, status);
      r.1 == Flipped(status, Crossings(ns, w)) &&
      (forall i :: 0 <= i < |ns| && i !in w ==> r.0[i] == ns[i]) &&
      forall k :: 0 <= k < |w| ==>
        r.0[w[k]] == if ns[w[k]].crossing == Crossing then ns[w[k]].(entry := Flipped(status, Crossings(ns, w[..k]))) else ns[w[k]]
  {
    EntryStatus(ns, w, status);
    forall i | 0 <= i < |ns| && i !in w
      ensures Fold(ns, w, LabelEntry, status).0[i] == ns[i]
    {
      FoldFrame(ns, w, LabelEntry, status, i);
    }
    forall k | 0 <= k < |w|
      ensures Fold(ns, w, LabelEntry, status).0[w[k]] ==
        if ns[w[k]].crossing == Crossing then ns[w[k]].(entry := Flipped(status, Crossings(ns, w[..k]))) else ns[w[k]]
    {
      FoldAt(ns, w, LabelEntry, status, k);
      EntryStatus(ns, w[..k], status);
    }
  }

  /** Two crossings of the walk with no crossing between them get opposite
      labels. */
  lemma NextCrossingOpposite(ns: seq<Node>, w: seq<nat>, status: Label, j: nat, k: nat)
    requires forall k :: 0 <= k < |w| ==> w[k] < |ns|
    requires forall j, k :: 0 <= j < k < |w| ==> w[j] != w[k]
    requires status != Unlabelled && j < k < |w|
    requires ns[w[j]].crossing == Crossing && ns[w[k]].crossing == Crossing
    requires forall m :: j < m < k ==> ns[w[m]].crossing != Crossing
    ensures var r := Fold(ns, w, LabelEntry, status).0;
      r[w[j]].entry != Unlabelled && r[w[k]].entry == Toggle(r[w[j]].entry)
  {
    FoldAt(ns, w, LabelEntry, status, j);
    FoldAt(ns, w, LabelEntry, status, k);
    EntryStatus(ns, w[..j], status);
    EntryStatus(ns, w[..k], status);
    CrossingsGap(ns, w, j, k);
  }

  /** Between two crossings with none between them the count of crossings
      passed grows by one. */
  lemma {:induction false} CrossingsGap(ns: seq<Node>, w: seq<nat>, j: nat, k: nat)
    requires forall k :: 0 <= k < |w| ==> w[k] < |ns|
    requires j < k <= |w| && ns[w[j]].crossing == Crossing
    requires forall m :: j < m < k ==> ns[w[m]].crossing != Crossing
    ensures Crossings(ns, w[..k]) == Crossings(ns, w[..j]) + 1
    decreases k
  {
    assert w[..k][..k - 1] == w[..k - 1];
    if k - 1 > j {
      CrossingsGap(ns, w, j, k - 1);
    } else {
      assert w[..j + 1][..j] == w[..j];
    }
  }

  /** The entry/exit pass over one list: the status starts as EXIT when the
      start vertex lies inside the other polygon and ENTRY otherwise, then
      `forEach` from the start with LabelEntry as its callback. */
  method LabelEntries(l: VertexList, start: nat, other: VertexList, otherStart: nat)
    requires l.Valid() && other.Valid() && l != other && start < |l.nodes| && otherStart < |other.nodes|
    modifies l
    ensures l.Valid() && l.order == old(l.order) && l.pos == old(l.pos)
    ensures EntriesOnly(old(l.nodes), l.nodes) && Relabelled(old(l.nodes), l.nodes)
    ensures Alternates(l.nodes, l.Walk(start), StartStatus(InsideOdd(l.nodes[start].vertex, other.Ring(otherStart))))
  {
    ghost var ns0 := l.nodes;
    l.WalkTour(start);
    var inside := Inside(l.nodes[start].vertex, other, otherStart);
    var status := StartStatus(inside);
    assert KeepsLinks(LabelEntry);
    var _ := l.ForEach(start, LabelEntry, status);
    EntriesLabelled(ns0, l.Walk(start), status);
  }


  /** Along the walk w, the crossings are labelled status, flipped status,
      status, ...: each with status flipped once per crossing before it. */
  ghost predicate Alternates(ns: seq<Node>, w: seq<nat>, status: Label)
  {
    status != Unlabelled && (forall k :: 0 <= k < |w| ==> w[k] < |ns|) &&
    forall k :: 0 <= k < |w| && ns[w[k]].crossing == Crossing ==>
      ns[w[k]].entry == Flipped(status, Crossings(ns, w[..k]))
  }

  /** Records that agree on their crossing labels count the same crossings. */
  lemma {:induction false} CrossingsSame(ns: seq<Node>, ns': seq<Node>, v: seq<nat>)
    requires forall k :: 0 <= k < |v| ==> v[k] < |ns| && v[k] < |ns'| && ns'[v[k]].crossing == ns[v[k]].crossing
    ensures Crossings(ns', v) == Crossings(ns, v)
  {
    if v != [] {
      CrossingsSame(ns, ns', v[..|v| - 1]);
    }
  }

  /** The entry/exit pass along a walk visiting each record once leaves the
      crossings alternating from its start status, and writes nothing but
      entry labels. */
  lemma EntriesLabelled(ns: seq<Node>, w: seq<nat>, status: Label)
    requires forall k :: 0 <= k < |w| ==> w[k] < |ns|
    requires forall j, k :: 0 <= j < k < |w| ==> w[j] != w[k]
    requires status != Unlabelled
    ensures var r := Fold(ns, w, LabelEntry, status).0;
      Alternates(r, w, status) && EntriesOnly(ns, r) && Relabelled(ns, r)
  {
    var r := Fold(ns, w, LabelEntry, status).0;
    EntriesAlternate(ns, w, status);
    forall i | 0 <= i < |ns|
      ensures r[i] == ns[i].(entry := r[i].entry) && (ns[i].crossing != Crossing ==> r[i].entry == ns[i].entry)
      ensures Skeleton(r[i]) == Skeleton(ns[i])
    {
      FoldFrameCrossing(ns, w, i, status);
      if i !in w {
        FoldFrame(ns, w, LabelEntry, status, i);
      } else {
        var k :| 0 <= k < |w| && w[k] == i;
      }
    }
    forall k | 0 <= k < |w|
      ensures Crossings(r, w[..k]) == Crossings(ns, w[..k])
    {
      CrossingsSame(ns, r, w[..k]);
    }
  }

  /** ns' differs from ns at most in the entry labels of crossings. */
  ghost predicate EntriesOnly(ns: seq<Node>, ns': seq<Node>)
  {
    |ns'| == |ns| &&
    forall i :: 0 <= i < |ns| ==> ns'[i] == ns[i].(entry := ns'[i].entry) && (ns[i].crossing != Crossing ==> ns'[i].entry == ns[i].entry)
  }


  /** Records that agree on their vertices give a list the same ring. */
  lemma RingKept(l: VertexList, ns: seq<Node>, start: nat)
    requires l.Valid() && start < |l.nodes| && |ns| == |l.nodes|
    requires forall i :: 0 <= i < |ns| ==> ns[i].vertex == l.nodes[i].vertex
    ensures Points(ns, l.order) == Points(l.nodes, l.order)
  {
  }

  /** Step-1 labelling followed by the chain pass writes no field of a
      record but its crossing label and chain tag, and the chain tags are
      those step 1 set. */
  lemma SubjectClassified(ns0: seq<Node>, cs: seq<Node>, ns1: seq<Node>, w: seq<nat>)
    requires Wired(ns0, cs) && |ns1| == |ns0| && forall i :: 0 <= i < |ns0| ==> ns1[i] == LabelOne(ns0, cs, i)
    requires forall k :: 0 <= k < |w| ==> w[k] < |ns1|
    ensures var r := Fold(ns1, w, ResolveOne, NoChain).0;
      Relabelled(ns0, r) && forall i :: 0 <= i < |r| ==> r[i].chain == LabelOne(ns0, cs, i).chain
  {
    ResolvedKeeps(ns1, w);
  }

  /** The subject records after steps 1 and 2 from records ns, clip records
      cs and the walk w from the head: every record labelled by LabelOne,
      then the chain pass along w. */
  ghost function Classified(ns: seq<Node>, cs: seq<Node>, w: seq<nat>): seq<Node>
    requires Wired(ns, cs) && forall k :: 0 <= k < |w| ==> w[k] < |ns|
  {
    Fold(seq(|ns|, i requires 0 <= i < |ns| => LabelOne(ns, cs, i)), w, ResolveOne, NoChain).0
  }

  /** Steps 1 and 2 of the labelling on the subject: its intersections are
      labelled from their neighbours and the chains of shared edges
      resolved. The chain tags are those of step 1; the records keep their
      data, links and partners. */
  method ClassifySubject(S: VertexList, C: VertexList)
    requires Pair(S, C)
    modifies S
    ensures Pair(S, C) && S.order == old(S.order) && S.pos == old(S.pos)
    ensures Relabelled(old(S.nodes), S.nodes) && Wired(old(S.nodes), C.nodes)
    ensures Tour(old(S.nodes), 0, old(S.Walk(0)))
    ensures S.nodes == Classified(old(S.nodes), C.nodes, old(S.Walk(0)))
    ensures forall i :: 0 <= i < |S.nodes| ==> S.nodes[i].chain == LabelOne(old(S.nodes), C.nodes, i).chain
  {
    ghost var ns0 := S.nodes;
    S.WalkTour(0);
    LabelIntersections(S, C);
    ghost var ns1, w := S.nodes, S.Walk(0);
    ghost var cs := C.nodes;
    assert ns1 == seq(|ns0|, i requires 0 <= i < |ns0| => LabelOne(ns0, cs, i));
    S.WalkTour(0);
    ResolveChains(S);
    SubjectClassified(ns0, C.nodes, ns1, w);
    PartneredRelabelled(ns0, S.nodes, true, |C.nodes|);
  }

  /** The entry/exit status a list starts from: EXIT when its start vertex
      lies inside the other polygon (by the even-odd rule), ENTRY otherwise. */
  function StartStatus(inside: bool): (r: Label)
    ensures r != Unlabelled && (r == Exit <==> inside)
  {
    if inside then Exit else Entry
  }

  /** Step 4 of the labelling, the entry/exit pass of both lists from their
      start vertices, subject first: the crossings of each list alternate
      along its walk from its start, beginning with EXIT when the start
      lies inside the other polygon. Only entry labels are written. */
  method LabelBoth(S: VertexList, C: VertexList, s: nat, c: nat)
    requires S != C && S.Valid() && C.Valid() && s < |S.nodes| && c < |C.nodes|
    modifies S, C
    ensures S.Valid() && C.Valid() && S.order == old(S.order) && S.pos == old(S.pos) && C.order == old(C.order) && C.pos == old(C.pos)
    ensures EntriesOnly(old(S.nodes), S.nodes) && EntriesOnly(old(C.nodes), C.nodes)
    ensures Relabelled(old(S.nodes), S.nodes) && Relabelled(old(C.nodes), C.nodes)
    ensures Alternates(S.nodes, S.Walk(s), StartStatus(InsideOdd(S.nodes[s].vertex, C.Ring(c))))
    ensures Alternates(C.nodes, C.Walk(c), StartStatus(InsideOdd(C.nodes[c].vertex, S.Ring(s))))
  {
    ghost var cs0, ringC := C.nodes, C.Ring(c);
    LabelEntries(S, s, C, c);
    LabelEntries(C, c, S, s);
    RingKept(C, cs0, c);
    assert C.Ring(c) == ringC;
  }



  /** "Every subject record is an ON_ON intersection", read along a walk
      that visits every record, is read record by record. */
  lemma AllSharedRecords(ns: seq<Node>, w: seq<nat>)
    requires Tour(ns, 0, w)
    ensures SubjectStart(ns, w).AllShared? <==> forall i :: 0 <= i < |ns| ==> ns[i].intersection && ns[i].chain == OnOn
  {
    if SubjectStart(ns, w).AllShared? {
      forall i | 0 <= i < |ns|
        ensures ns[i].intersection && ns[i].chain == OnOn
      {
        assert i in w;
        var k :| 0 <= k < |w| && w[k] == i;
      }
    }
  }

  /** Relabelled records that carry the step-1 chain tags are all ON_ON
      intersections exactly when step 1 tagged every record ON_ON and every
      record was an intersection. */
  lemma AllSharedTags(ns0: seq<Node>, cs0: seq<Node>, ns: seq<Node>)
    requires Wired(ns0, cs0) && Relabelled(ns0, ns)
    requires forall i :: 0 <= i < |ns| ==> ns[i].chain == LabelOne(ns0, cs0, i).chain
    ensures (forall i :: 0 <= i < |ns| ==> ns[i].intersection && ns[i].chain == OnOn) <==>
      forall i :: 0 <= i < |ns0| ==> ns0[i].intersection && LabelOne(ns0, cs0, i).chain == OnOn
  {
    forall i | 0 <= i < |ns|
      ensures ns[i].intersection == ns0[i].intersection
    {
      assert Skeleton(ns[i]) == Skeleton(ns0[i]);
    }
  }

  /** Steps 1 to 3 of the labelling: the subject classified and its labels
      copied to the clip. Whether every subject record has become an ON_ON
      intersection is decided by the step-1 tags of the records as phase 1
      left them. */
  method CrossingLabels(S: VertexList, C: VertexList)
    requires Pair(S, C)
    modifies S, C
    ensures Pair(S, C) && S.order == old(S.order) && S.pos == old(S.pos) && C.order == old(C.order) && C.pos == old(C.pos)
    ensures Wired(old(S.nodes), old(C.nodes)) && Tour(old(S.nodes), 0, old(S.Walk(0))) && Tour(old(C.nodes), 0, old(C.Walk(0)))
    ensures S.nodes == Classified(old(S.nodes), old(C.nodes), old(S.Walk(0))) && PartnersIn(S.nodes, old(|C.nodes|))
    ensures C.nodes == Copied(old(C.nodes), S.nodes, old(S.Walk(0)))
    ensures SubjectStart(S.nodes, S.Walk(0)).AllShared? <==>
      forall i :: 0 <= i < old(|S.nodes|) ==> old(S.nodes[i]).intersection && LabelOne(old(S.nodes), old(C.nodes), i).chain == OnOn
  {
    ghost var ns0, cs0 := S.nodes, C.nodes;
    PairWired(S, C);
    C.WalkTour(0);
    ClassifySubject(S, C);
    CopyCrossings(S, C);
    S.WalkTour(0);
    AllSharedRecords(S.nodes, S.Walk(0));
    AllSharedTags(ns0, cs0, S.nodes);
  }

  /** Step 4 of the labelling with its start search: the starts chosen,
      seeding where needed, and, once both lists have one, the entry/exit
      pass. ns2 and cs2 are the lists once seeded. */
  method StartAndLabel(S: VertexList, C: VertexList, vid: nat)
    returns (r: Phase, vid': nat, ghost ns2: seq<Node>, ghost cs2: seq<Node>)
    requires Pair(S, C)
    modifies S, C
    ensures Pair(S, C) && vid' >= vid
    ensures Tour(old(S.nodes), 0, old(S.Walk(0))) && Tour(old(C.nodes), 0, old(C.Walk(0)))
    ensures r.Identical? <==> SubjectStart(old(S.nodes), old(S.Walk(0))).AllShared?
    ensures !r.Started? ==> Seeded(old(S.nodes), S.nodes) && Seeded(old(C.nodes), C.nodes)
    ensures r.Started? ==>
      StartedAt(old(S.nodes), old(S.Walk(0)), ns2, r.subject, vid) &&
      StartedAt(old(C.nodes), old(C.Walk(0)), cs2, r.clip, vid + Seeds(StartOf(old(S.nodes), old(S.Walk(0))))) &&
      vid' == vid + Seeds(StartOf(old(S.nodes), old(S.Walk(0)))) + Seeds(StartOf(old(C.nodes), old(C.Walk(0)))) &&
      EntriesOnly(ns2, S.nodes) && EntriesOnly(cs2, C.nodes)
    ensures r.Started? ==>
      r.subject < |S.nodes| && r.clip < |C.nodes| && !S.nodes[r.subject].intersection && !C.nodes[r.clip].intersection &&
      Alternates(S.nodes, S.Walk(r.subject), StartStatus(InsideOdd(S.nodes[r.subject].vertex, C.Ring(r.clip)))) &&
      Alternates(C.nodes, C.Walk(r.clip), StartStatus(InsideOdd(C.nodes[r.clip].vertex, S.Ring(r.subject))))
  {
    r, vid' := ChooseStarts(S, C, vid);
    ns2, cs2 := S.nodes, C.nodes;
    if r.Started? {
      LabelBoth(S, C, r.subject, r.clip);
      PartneredRelabelled(ns2, S.nodes, true, |cs2|);
      PartneredRelabelled(cs2, C.nodes, false, |ns2|);
      assert Skeleton(S.nodes[r.subject]) == Skeleton(ns2[r.subject]);
      assert Skeleton(C.nodes[r.clip]) == Skeleton(cs2[r.clip]);
    }
  }

  /** Phase 2: the labelling. Identical is returned (WITH_SELF) exactly when
      every subject record is an intersection tagged ON_ON. Otherwise both
      lists get a start vertex that is no intersection, and their crossings
      are labelled entry and exit alternately from there. The ghost results
      are the stages in between: ns1 and cs1 the lists after steps 1 to 3
      (the subject classified, its labels copied to the clip), ns2 and cs2
      the lists once seeded. */
  method LabelPhase(S: VertexList, C: VertexList, vid: nat)
    returns (r: Phase, vid': nat, ghost ns1: seq<Node>, ghost cs1: seq<Node>, ghost ns2: seq<Node>, ghost cs2: seq<Node>)
    requires Pair(S, C)
    modifies S, C
    ensures Pair(S, C) && vid' >= vid && Wired(old(S.nodes), old(C.nodes))
    ensures Tour(old(S.nodes), 0, old(S.Walk(0))) && Tour(old(C.nodes), 0, old(C.Walk(0)))
    ensures ns1 == Classified(old(S.nodes), old(C.nodes), old(S.Walk(0))) && PartnersIn(ns1, old(|C.nodes|))
    ensures cs1 == Copied(old(C.nodes), ns1, old(S.Walk(0)))
    ensures !r.Started? ==> Seeded(ns1, S.nodes) && Seeded(cs1, C.nodes)
    ensures r.Started? ==>
      StartedAt(ns1, old(S.Walk(0)), ns2, r.subject, vid) &&
      StartedAt(cs1, old(C.Walk(0)), cs2, r.clip, vid + Seeds(StartOf(ns1, old(S.Walk(0))))) &&
      vid' == vid + Seeds(StartOf(ns1, old(S.Walk(0)))) + Seeds(StartOf(cs1, old(C.Walk(0)))) &&
      EntriesOnly(ns2, S.nodes) && EntriesOnly(cs2, C.nodes)
    ensures r.Identical? <==>
      forall i :: 0 <= i < old(|S.nodes|) ==> old(S.nodes[i]).intersection && LabelOne(old(S.nodes), old(C.nodes), i).chain == OnOn
    ensures r.Started? ==>
      r.subject < |S.nodes| && r.clip < |C.nodes| && !S.nodes[r.subject].intersection && !C.nodes[r.clip].intersection &&
      Alternates(S.nodes, S.Walk(r.subject), StartStatus(InsideOdd(S.nodes[r.subject].vertex, C.Ring(r.clip)))) &&
      Alternates(C.nodes, C.Walk(r.clip), StartStatus(InsideOdd(C.nodes[r.clip].vertex, S.Ring(r.subject))))
  {
    ghost var ws, wc := S.Walk(0), C.Walk(0);
    CrossingLabels(S, C);
    ns1, cs1 := S.nodes, C.nodes;
    assert S.Walk(0) == ws && C.Walk(0) == wc;
    ghost var v1 := vid + Seeds(StartOf(ns1, ws));
    assert v1 == vid + Seeds(StartOf(S.nodes, S.Walk(0)));
    r, vid', ns2, cs2 := StartAndLabel(S, C, vid);
    if r.Started? {
      assert StartedAt(ns1, ws, ns2, r.subject, vid);
      assert StartedAt(cs1, wc, cs2, r.clip, v1);
    }
  }
}
