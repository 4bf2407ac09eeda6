/** Phase 3 of the engine: tracing the result polygons along the two
    labelled lists, leaving one list for the other at every intersection
    the walk stops at; and the containment test the engine falls back on
    when the subject has no crossing intersection. */
module Tracing {
  import opened Util
  import opened VertexLists
  import opened Labelling
  import opened Winding
  import Policies
  import IntersectionPhase

  /** r names a record of one of the two lists. */
  predicate On(ns: seq<Node>, cs: seq<Node>, r: Ref)
  {
    match r
    case NoRef => false
    case Subject(i) => i < |ns|
    case Clip(i) => i < |cs|
  }

  /** The links of record r stay inside its own list, and its partner, if
      set, is a record of the other list. */
  ghost predicate Fits(ns: seq<Node>, cs: seq<Node>, r: Ref)
    requires On(ns, cs, r)
  {
    var n := At(ns, cs, r);
    0 <= n.next < Lap(ns, cs, r) && 0 <= n.prev < Lap(ns, cs, r) &&
    (n.corresponding.NoRef? || (n.corresponding.Subject? != r.Subject? && On(ns, cs, n.corresponding)))
  }

  /** Every record of both arenas fits. */
  ghost predicate Threaded(ns: seq<Node>, cs: seq<Node>)
  {
    forall r {:trigger Fits(ns, cs, r)} :: On(ns, cs, r) ==> Fits(ns, cs, r)
  }

  /** The two lists of phase 3 are threaded. */
  lemma PairThreaded(S: VertexList, C: VertexList)
    requires Pair(S, C)
    ensures Threaded(S.nodes, C.nodes)
  {
    PairWired(S, C);
    forall r | On(S.nodes, C.nodes, r)
      ensures Fits(S.nodes, C.nodes, r)
    {
      if r.Clip? {
        assert IntersectionPhase.RefInto(C.nodes[r.i].corresponding, false, |S.nodes|);
      }
    }
  }

  /** The record r names; a placeholder record when r names none, which
      the walk never reaches. */
  function At(ns: seq<Node>, cs: seq<Node>, r: Ref): Node
  {
    if !On(ns, cs, r) then Fresh(Point(0.0, 0.0), 0)
    else if r.Subject? then ns[r.i] else cs[r.i]
  }

  /** The number of records of the list r belongs to. */
  function Lap(ns: seq<Node>, cs: seq<Node>, r: Ref): nat
  {
    if r.Subject? then |ns| else |cs|
  }

  /** `curr[dir]`: the neighbour of r in its own list. */
  function Move(ns: seq<Node>, cs: seq<Node>, r: Ref, d: Policies.Dir): (r': Ref)
    requires Threaded(ns, cs) && On(ns, cs, r)
    ensures On(ns, cs, r') && r'.Subject? == r.Subject?
  {
    var n := At(ns, cs, r);
    assert Fits(ns, cs, r);
    var j := if d == Policies.Next then n.next else n.prev;
    if r.Subject? then Subject(j) else Clip(j)
  }

  /** The record k moves away from r in direction d. */
  function Steps(ns: seq<Node>, cs: seq<Node>, r: Ref, d: Policies.Dir, k: nat): (r': Ref)
    requires Threaded(ns, cs) && On(ns, cs, r)
    ensures On(ns, cs, r')
    decreases k
  {
    if k == 0 then r else Steps(ns, cs, Move(ns, cs, r, d), d, k - 1)
  }

  /** `!entry`: ENTRY is true, EXIT false and an unset label undefined, so
      only ENTRY negates to EXIT, and the others to ENTRY. */
  function Negated(l: Label): (r: Label)
    ensures r != Unlabelled
    ensures l == Entry ==> r == Exit
    ensures l != Entry ==> r == Entry
  {
    if l == Entry then Exit else Entry
  }

  /** The last element of a non-empty sequence. */
  function Last(p: seq<Ref>): Ref
    requires p != []
  {
    p[|p| - 1]
  }

  /** What one inner walk yields: the records it pushed, the last being the
      first with the wanted label; or no such record within a lap, after
      which the walk only repeats itself. */
  datatype Leg = Reached(path: seq<Ref>) | Lapped

  /** The inner do-while from r: move one record in direction d, push it,
      and stop at a record labelled opp; `left` moves remain in the lap. */
  function LegFrom(ns: seq<Node>, cs: seq<Node>, r: Ref, d: Policies.Dir, opp: Label, left: nat): (l: Leg)
    requires Threaded(ns, cs) && On(ns, cs, r)
    ensures l.Reached? ==> 1 <= |l.path| <= left
    ensures l.Reached? ==> On(ns, cs, Last(l.path)) && At(ns, cs, Last(l.path)).entry == opp
    decreases left
  {
    if left == 0 then Lapped
    else
      var r' := Move(ns, cs, r, d);
      if At(ns, cs, r').entry == opp then Reached([r'])
      else
        match LegFrom(ns, cs, r', d, opp, left - 1)
        case Lapped => Lapped
        case Reached(p) => Reached([r'] + p)
  }

  /** None of the `left` records after r, in direction d, is labelled opp. */
  ghost predicate NoStop(ns: seq<Node>, cs: seq<Node>, r: Ref, d: Policies.Dir, opp: Label, left: nat)
    requires Threaded(ns, cs) && On(ns, cs, r)
  {
    forall k :: 1 <= k <= left ==> At(ns, cs, Steps(ns, cs, r, d, k)).entry != opp
  }

  /** Moving k + 1 times from r is moving k times from the record after r. */
  lemma StepsAfter(ns: seq<Node>, cs: seq<Node>, r: Ref, d: Policies.Dir, k: nat)
    requires Threaded(ns, cs) && On(ns, cs, r)
    ensures Steps(ns, cs, r, d, k + 1) == Steps(ns, cs, Move(ns, cs, r, d), d, k)
  {
  }

  /** A leg laps exactly when none of the next `left` records after r is
      labelled opp. */
  lemma {:induction false} LegLaps(ns: seq<Node>, cs: seq<Node>, r: Ref, d: Policies.Dir, opp: Label, left: nat)
    requires Threaded(ns, cs) && On(ns, cs, r)
    ensures LegFrom(ns, cs, r, d, opp, left).Lapped? <==> NoStop(ns, cs, r, d, opp, left)
    decreases left
  {
    if left > 0 {
      var r' := Move(ns, cs, r, d);
      LegLaps(ns, cs, r', d, opp, left - 1);
      StepsAfter(ns, cs, r, d, 0);
      if At(ns, cs, r').entry != opp {
        if NoStop(ns, cs, r', d, opp, left - 1) {
          forall k | 1 <= k <= left
            ensures At(ns, cs, Steps(ns, cs, r, d, k)).entry != opp
          {
            StepsAfter(ns, cs, r, d, k - 1);
          }
        } else {
          var m :| 1 <= m <= left - 1 && At(ns, cs, Steps(ns, cs, r', d, m)).entry == opp;
          StepsAfter(ns, cs, r, d, m);
        }
      }
    }
  }

  /** The records of a leg are those one, two, ... moves after r. */
  lemma {:induction false} LegPath(ns: seq<Node>, cs: seq<Node>, r: Ref, d: Policies.Dir, opp: Label, left: nat)
    requires Threaded(ns, cs) && On(ns, cs, r)
    ensures var l := LegFrom(ns, cs, r, d, opp, left);
      l.Reached? ==> forall k :: 0 <= k < |l.path| ==> l.path[k] == Steps(ns, cs, r, d, k + 1)
    decreases left
  {
    var l := LegFrom(ns, cs, r, d, opp, left);
    if l.Reached? {
      var r' := Move(ns, cs, r, d);
      StepsAfter(ns, cs, r, d, 0);
      if At(ns, cs, r').entry != opp {
        var sub := LegFrom(ns, cs, r', d, opp, left - 1);
        LegPath(ns, cs, r', d, opp, left - 1);
        forall k | 0 <= k < |l.path|
          ensures l.path[k] == Steps(ns, cs, r, d, k + 1)
        {
          if k > 0 {
            assert l.path[k] == sub.path[k - 1];
            StepsAfter(ns, cs, r, d, k);
          }
        }
      }
    }
  }

  /** No record of a leg before its last is labelled opp. */
  lemma {:induction false} LegClear(ns: seq<Node>, cs: seq<Node>, r: Ref, d: Policies.Dir, opp: Label, left: nat)
    requires Threaded(ns, cs) && On(ns, cs, r)
    ensures var l := LegFrom(ns, cs, r, d, opp, left);
      l.Reached? ==> forall k :: 1 <= k < |l.path| ==> At(ns, cs, Steps(ns, cs, r, d, k)).entry != opp
    decreases left
  {
    var l := LegFrom(ns, cs, r, d, opp, left);
    if l.Reached? {
      var r' := Move(ns, cs, r, d);
      StepsAfter(ns, cs, r, d, 0);
      if At(ns, cs, r').entry != opp {
        LegClear(ns, cs, r', d, opp, left - 1);
        forall k | 1 <= k < |l.path|
          ensures At(ns, cs, Steps(ns, cs, r, d, k)).entry != opp
        {
          if k > 1 {
            StepsAfter(ns, cs, r, d, k - 1);
          }
        }
      }
    }
  }

  /** A leg after the records p. */
  function Join(p: seq<Ref>, l: Leg): Leg
  {
    match l
    case Lapped => Lapped
    case Reached(q) => Reached(p + q)
  }

  /** One move of a leg: it stops at the next record when that one is
      labelled opp, and otherwise goes on from there. */
  lemma LegStep(ns: seq<Node>, cs: seq<Node>, r: Ref, d: Policies.Dir, opp: Label, left: nat, fewer: nat)
    requires Threaded(ns, cs) && On(ns, cs, r) && left == fewer + 1
    ensures var r' := Move(ns, cs, r, d);
      LegFrom(ns, cs, r, d, opp, left) ==
        if At(ns, cs, r').entry == opp then Reached([r']) else Join([r'], LegFrom(ns, cs, r', d, opp, fewer))
  {
    assert fewer == left - 1;
  }

  lemma JoinJoin(p: seq<Ref>, q: seq<Ref>, l: Leg)
    ensures Join(p, Join(q, l)) == Join(p + q, l)
  {
    if l.Reached? {
      assert p + (q + l.path) == (p + q) + l.path;
    }
  }

  /** The points of the records p. */
  function Vertices(ns: seq<Node>, cs: seq<Node>, p: seq<Ref>): (v: seq<Point>)
    ensures |v| == |p|
  {
    if p == [] then [] else [At(ns, cs, p[0]).vertex] + Vertices(ns, cs, p[1..])
  }

  /** The k-th point is the point of the k-th record. */
  lemma {:induction false} VerticesAt(ns: seq<Node>, cs: seq<Node>, p: seq<Ref>, k: nat)
    requires k < |p|
    ensures Vertices(ns, cs, p)[k] == At(ns, cs, p[k]).vertex
    decreases k
  {
    if k > 0 {
      VerticesAt(ns, cs, p[1..], k - 1);
    }
  }

  lemma {:induction false} VerticesAppend(ns: seq<Node>, cs: seq<Node>, p: seq<Ref>, q: seq<Ref>)
    ensures Vertices(ns, cs, p + q) == Vertices(ns, cs, p) + Vertices(ns, cs, q)
    decreases |p|
  {
    if p == [] {
      assert p + q == q;
    } else {
      VerticesAppend(ns, cs, p[1..], q);
      assert (p + q)[0] == p[0] && (p + q)[1..] == p[1..] + q;
    }
  }

  /** How a traced component ends: closed, having pushed the records `path`
      and stopped at the records `stops`, each marked processed together
      with its partner in `partners`; or a TypeError (a stop without a
      partner); or a walk that never closes. */
  datatype Run = Closed(path: seq<Ref>, stops: seq<Ref>, partners: seq<Ref>) | TypeError | Diverges

  /** A run after the records p were pushed and the stops s with partners
      t were marked. */
  function Then(p: seq<Ref>, s: seq<Ref>, t: seq<Ref>, run: Run): Run
  {
    match run
    case Closed(q, u, v) => Closed(p + q, s + u, t + v)
    case _ => run
  }

  lemma ThenThen(p: seq<Ref>, s: seq<Ref>, t: seq<Ref>, q: seq<Ref>, u: seq<Ref>, v: seq<Ref>, run: Run)
    ensures Then(p, s, t, Then(q, u, v, run)) == Then(p + q, s + u, t + v, run)
  {
    if run.Closed? {
      assert p + (q + run.path) == (p + q) + run.path;
      assert s + (u + run.stops) == (s + u) + run.stops;
      assert t + (v + run.partners) == (t + v) + run.partners;
    }
  }

  /** The outer do-while from the cursor r, walking in direction d towards a
      record labelled opp: each leg ends at a stop, the stop and its partner
      are marked processed, the walk moves to the partner, the direction is
      switched by the policy, and the component closes once the partner
      holds the start's point object `vid`. `fuel` bounds the switches.
      A closed circuit stops only at labelled records of its path and marks
      each stop's partner; its last stop is the last record pushed, and that
      stop's partner holds `vid`. */
  function Circuit(ns: seq<Node>, cs: seq<Node>, op: Policies.Op, vid: nat, r: Ref, d: Policies.Dir, opp: Label, fuel: nat): (run: Run)
    requires Threaded(ns, cs) && On(ns, cs, r) && opp != Unlabelled
    ensures run.Closed? ==>
      1 <= |run.path| && 1 <= |run.stops| <= fuel &&
      Paired(ns, cs, run.path, run.stops, run.partners) &&
      Last(run.stops) == Last(run.path) && At(ns, cs, Last(run.partners)).vid == vid
    decreases fuel
  {
    if fuel == 0 then Diverges
    else
      match LegFrom(ns, cs, r, d, opp, Lap(ns, cs, r))
      case Lapped => Diverges
      case Reached(p) =>
        var s := Last(p);
        assert Fits(ns, cs, s) && s in p;
        var partner := At(ns, cs, s).corresponding;
        if partner.NoRef? then TypeError
        else if At(ns, cs, partner).vid == vid then
          assert [s][1..] == [] && [partner][1..] == [];
          Closed(p, [s], [partner])
        else
          var rest := Circuit(ns, cs, op, vid, partner, Policies.Switched(op, d), Negated(At(ns, cs, partner).entry), fuel - 1);
          if rest.Closed? then
            PairedCons(ns, cs, p, rest.path, s, partner, rest.stops, rest.partners);
            Closed(p + rest.path, [s] + rest.stops, [partner] + rest.partners)
          else rest
  }

  /** Circuit under a name without fuel layers, so that the loop below
      can carry it from one round to the next as a plain term. */
  ghost function Onwards(ns: seq<Node>, cs: seq<Node>, op: Policies.Op, vid: nat, r: Ref, d: Policies.Dir, opp: Label, fuel: nat): Run
    requires Threaded(ns, cs) && On(ns, cs, r) && opp != Unlabelled
  {
    Circuit(ns, cs, op, vid, r, d, opp, fuel)
  }

  /** One round of the circuit: the leg from r, then the switch at its
      stop. */
  lemma CircuitStep(ns: seq<Node>, cs: seq<Node>, op: Policies.Op, vid: nat, r: Ref, d: Policies.Dir, opp: Label, fuel: nat)
    requires Threaded(ns, cs) && On(ns, cs, r) && opp != Unlabelled && fuel > 0
    ensures var l := LegFrom(ns, cs, r, d, opp, Lap(ns, cs, r));
      var run := Onwards(ns, cs, op, vid, r, d, opp, fuel);
      (l.Lapped? ==> run == Diverges) &&
      (l.Reached? ==>
        var s := Last(l.path);
        var partner := At(ns, cs, s).corresponding;
        (partner.NoRef? ==> run == TypeError) &&
        (!partner.NoRef? ==> On(ns, cs, partner)) &&
        (!partner.NoRef? && At(ns, cs, partner).vid == vid ==> run == Closed(l.path, [s], [partner])) &&
        (!partner.NoRef? && At(ns, cs, partner).vid != vid ==>
          run == Then(l.path, [s], [partner],
            Onwards(ns, cs, op, vid, partner, Policies.Switched(op, d), Negated(At(ns, cs, partner).entry), fuel - 1))))
  {
    var l := LegFrom(ns, cs, r, d, opp, Lap(ns, cs, r));
    if l.Reached? {
      assert Fits(ns, cs, Last(l.path));
    }
  }

  /** One unit of fuel less, named: Circuit depends on its fuel only as a
      number. */
  lemma Refuelled(ns: seq<Node>, cs: seq<Node>, op: Policies.Op, vid: nat, r: Ref, d: Policies.Dir, opp: Label, fuel: nat, left: nat)
    requires Threaded(ns, cs) && On(ns, cs, r) && opp != Unlabelled && fuel > 0 && left == fuel - 1
    ensures Onwards(ns, cs, op, vid, r, d, opp, fuel - 1) == Onwards(ns, cs, op, vid, r, d, opp, left)
  {
  }

  /** A component starts by marking the start and its partner. */
  lemma ComponentStart(ns: seq<Node>, cs: seq<Node>, op: Policies.Op, i: nat, fuel: nat)
    requires Threaded(ns, cs) && i < |ns|
    ensures var n := ns[i];
      (n.corresponding.NoRef? ==> Component(ns, cs, op, i, fuel) == TypeError) &&
      (!n.corresponding.NoRef? ==>
        Negated(n.entry) != Unlabelled &&
        Component(ns, cs, op, i, fuel) ==
          Then([], [Subject(i)], [n.corresponding],
            Circuit(ns, cs, op, n.vid, Subject(i), Policies.InitialDirection(op, n.entry), Negated(n.entry), fuel)))
  {
    var n := ns[i];
    if !n.corresponding.NoRef? {
      var c := Circuit(ns, cs, op, n.vid, Subject(i), Policies.InitialDirection(op, n.entry), Negated(n.entry), fuel);
      if c.Closed? {
        assert [] + c.path == c.path;
      }
    }
  }

  /** Every stop is a labelled record of the path, and its partner is the
      record it refers to. */
  ghost predicate Paired(ns: seq<Node>, cs: seq<Node>, path: seq<Ref>, stops: seq<Ref>, partners: seq<Ref>)
    decreases |stops|
  {
    |stops| == |partners| &&
    (stops != [] ==>
      On(ns, cs, stops[0]) && stops[0] in path && At(ns, cs, stops[0]).entry != Unlabelled &&
      partners[0] == At(ns, cs, stops[0]).corresponding &&
      Paired(ns, cs, path, stops[1..], partners[1..]))
  }

  /** The k-th stop is a labelled record of the path whose partner is the
      k-th partner. */
  lemma {:induction false} PairedAt(ns: seq<Node>, cs: seq<Node>, path: seq<Ref>, stops: seq<Ref>, partners: seq<Ref>, k: nat)
    requires Paired(ns, cs, path, stops, partners) && k < |stops|
    ensures On(ns, cs, stops[k]) && stops[k] in path && At(ns, cs, stops[k]).entry != Unlabelled
    ensures partners[k] == At(ns, cs, stops[k]).corresponding
    decreases k
  {
    if k > 0 {
      PairedAt(ns, cs, path, stops[1..], partners[1..], k - 1);
    }
  }

  /** Pairing survives a longer path. */
  lemma {:induction false} PairedWider(ns: seq<Node>, cs: seq<Node>, p: seq<Ref>, q: seq<Ref>, u: seq<Ref>, v: seq<Ref>)
    requires Paired(ns, cs, q, u, v)
    ensures Paired(ns, cs, p + q, u, v)
    decreases |u|
  {
    if u != [] {
      PairedWider(ns, cs, p, q, u[1..], v[1..]);
    }
  }

  lemma PairedCons(ns: seq<Node>, cs: seq<Node>, p: seq<Ref>, q: seq<Ref>, s: Ref, partner: Ref, u: seq<Ref>, v: seq<Ref>)
    requires Paired(ns, cs, q, u, v) && s in p && On(ns, cs, s)
    requires partner == At(ns, cs, s).corresponding && At(ns, cs, s).entry != Unlabelled
    requires q != [] && u != []
    ensures Paired(ns, cs, p + q, [s] + u, [partner] + v)
    ensures Last(p + q) == Last(q) && Last([s] + u) == Last(u) && Last([partner] + v) == Last(v)
  {
    PairedWider(ns, cs, p, q, u, v);
    assert ([s] + u)[1..] == u && ([partner] + v)[1..] == v;
  }

  /** One component traced from subject record i: the start is pushed and
      marked with its partner (a TypeError without one), and the circuit
      walks in the policy's initial direction towards the opposite label.
      A closed component marks the start with its partner and then stops
      only at labelled records of its path, marking their partners; its last
      pushed record is the last stop, whose partner holds the start's point
      object. */
  function Component(ns: seq<Node>, cs: seq<Node>, op: Policies.Op, i: nat, fuel: nat): (run: Run)
    requires Threaded(ns, cs) && i < |ns|
    ensures run.Closed? ==>
      1 <= |run.path| && 2 <= |run.stops| == |run.partners| &&
      run.stops[0] == Subject(i) && run.partners[0] == ns[i].corresponding &&
      Paired(ns, cs, run.path, run.stops[1..], run.partners[1..]) &&
      Last(run.stops) == Last(run.path) && At(ns, cs, Last(run.partners)).vid == ns[i].vid
  {
    var n := ns[i];
    if n.corresponding.NoRef? then TypeError
    else
      var c := Circuit(ns, cs, op, n.vid, Subject(i), Policies.InitialDirection(op, n.entry), Negated(n.entry), fuel);
      if c.Closed? then
        var run := Closed(c.path, [Subject(i)] + c.stops, [n.corresponding] + c.partners);
        assert run.stops[1..] == c.stops && run.partners[1..] == c.partners;
        run
      else c
  }

  /** The points of the component traced from subject record i, when it
      closes: the start's point and then every pushed point. */
  function Piece(ns: seq<Node>, cs: seq<Node>, op: Policies.Op, i: nat, fuel: nat): (r: Option<seq<Point>>)
    requires Threaded(ns, cs) && i < |ns|
    ensures r.Some? <==> Component(ns, cs, op, i, fuel).Closed?
    ensures r.Some? ==> |r.value| >= 2 && r.value[0] == ns[i].vertex
  {
    var run := Component(ns, cs, op, i, fuel);
    if run.Closed? then Some([ns[i].vertex] + Vertices(ns, cs, run.path)) else None
  }

  /** The records of ns' are those of ns, but for their processed flags. */
  ghost predicate ProcessedOnly(ns: seq<Node>, ns': seq<Node>)
  {
    |ns'| == |ns| && forall i :: 0 <= i < |ns| ==> ns'[i] == ns[i].(processed := ns'[i].processed)
  }

  /** The reference to record i of the subject (clip false) or clip list. */
  function Tag(clip: bool, i: nat): Ref
  {
    if clip then Clip(i) else Subject(i)
  }

  /** ns' is ns with exactly the records named in marks set processed. */
  ghost predicate MarkedBy(ns: seq<Node>, ns': seq<Node>, clip: bool, marks: seq<Ref>)
  {
    |ns'| == |ns| &&
    forall i :: 0 <= i < |ns| ==> ns'[i] == ns[i].(processed := ns[i].processed || Tag(clip, i) in marks)
  }

  lemma MarkedTrans(a: seq<Node>, b: seq<Node>, c: seq<Node>, clip: bool, m: seq<Ref>, n: seq<Ref>)
    requires MarkedBy(a, b, clip, m) && MarkedBy(b, c, clip, n)
    ensures MarkedBy(a, c, clip, m + n)
  {
  }

  lemma MarkedSame(a: seq<Node>, b: seq<Node>, clip: bool, m: seq<Ref>, n: seq<Ref>)
    requires MarkedBy(a, b, clip, m) && forall x :: x in m <==> x in n
    ensures MarkedBy(a, b, clip, n)
  {
  }

  lemma MarkedOnly(a: seq<Node>, b: seq<Node>, c: seq<Node>, clip: bool, m: seq<Ref>)
    requires ProcessedOnly(a, b) && MarkedBy(b, c, clip, m)
    ensures ProcessedOnly(a, c)
  {
  }

  /** `curr.processed = true` on the record r names. */
  method Mark(S: VertexList, C: VertexList, r: Ref)
    requires S != C && S.Valid() && C.Valid() && On(S.nodes, C.nodes, r)
    modifies S, C
    ensures S.Valid() && C.Valid()
    ensures S.order == old(S.order) && S.pos == old(S.pos) && C.order == old(C.order) && C.pos == old(C.pos)
    ensures MarkedBy(old(S.nodes), S.nodes, false, [r]) && MarkedBy(old(C.nodes), C.nodes, true, [r])
  {
    if r.Subject? {
      S.Set(r.i, S.nodes[r.i].(processed := true));
    } else {
      C.Set(r.i, C.nodes[r.i].(processed := true));
    }
  }

  /** Reads the record r names; the lists have changed since ns0 and cs0
      only in processed flags. */
  method Look(S: VertexList, C: VertexList, ghost ns0: seq<Node>, ghost cs0: seq<Node>, r: Ref) returns (n: Node)
    requires On(ns0, cs0, r) && ProcessedOnly(ns0, S.nodes) && ProcessedOnly(cs0, C.nodes)
    ensures n == At(ns0, cs0, r).(processed := n.processed)
  {
    n := if r.Subject? then S.nodes[r.i] else C.nodes[r.i];
  }

  /** `curr = curr[dir]`, returning the label and point of the record
      reached. */
  method Advance(S: VertexList, C: VertexList, ghost ns0: seq<Node>, ghost cs0: seq<Node>, curr: Ref, d: Policies.Dir)
    returns (next: Ref, entry: Label, vertex: Point)
    requires Threaded(ns0, cs0) && On(ns0, cs0, curr) && ProcessedOnly(ns0, S.nodes) && ProcessedOnly(cs0, C.nodes)
    ensures next == Move(ns0, cs0, curr, d)
    ensures entry == At(ns0, cs0, next).entry && vertex == At(ns0, cs0, next).vertex
  {
    assert Fits(ns0, cs0, curr);
    var node := Look(S, C, ns0, cs0, curr);
    var j := if d == Policies.Next then node.next else node.prev;
    next := if curr.Subject? then Subject(j) else Clip(j);
    var reached := Look(S, C, ns0, cs0, next);
    entry, vertex := reached.entry, reached.vertex;
  }

  /** The inner do-while loop from the cursor r: it pushes the point of
      every record it moves to and stops at the first one labelled opp. The
      lists have changed since ns0 and cs0 only in processed flags, which
      the walk does not read. */
  method WalkLeg(S: VertexList, C: VertexList, ghost ns0: seq<Node>, ghost cs0: seq<Node>, r: Ref, d: Policies.Dir, opp: Label)
    returns (l: Leg, points: seq<Point>)
    requires Threaded(ns0, cs0) && On(ns0, cs0, r) && ProcessedOnly(ns0, S.nodes) && ProcessedOnly(cs0, C.nodes)
    ensures l == LegFrom(ns0, cs0, r, d, opp, Lap(ns0, cs0, r))
    ensures l.Reached? ==> points == Vertices(ns0, cs0, l.path)
  {
    var curr := r;
    var path: seq<Ref> := [];
    points := [];
    var left: nat := if r.Subject? then |S.nodes| else |C.nodes|;
    while left > 0
      invariant On(ns0, cs0, curr)
      invariant points == Vertices(ns0, cs0, path)
      invariant LegFrom(ns0, cs0, r, d, opp, Lap(ns0, cs0, r)) == Join(path, LegFrom(ns0, cs0, curr, d, opp, left))
      decreases left
    {
      ghost var was, p0 := curr, path;
      var entry, vertex;
      curr, entry, vertex := Advance(S, C, ns0, cs0, curr, d);
      var fewer := left - 1;
      LegStep(ns0, cs0, was, d, opp, left, fewer);
      JoinJoin(p0, [curr], LegFrom(ns0, cs0, curr, d, opp, fewer));
      VerticesAppend(ns0, cs0, p0, [curr]);
      path := path + [curr];
      points := points + [vertex];
      if entry == opp {
        assert LegFrom(ns0, cs0, was, d, opp, left) == Reached([curr]);
        assert Join(p0, Reached([curr])) == Reached(path);
        assert Reached(path) == LegFrom(ns0, cs0, r, d, opp, Lap(ns0, cs0, r));
        return Reached(path), points;
      }
      assert LegFrom(ns0, cs0, was, d, opp, left) == Join([curr], LegFrom(ns0, cs0, curr, d, opp, fewer));
      left := fewer;
    }
    assert LegFrom(ns0, cs0, curr, d, opp, left) == Lapped;
    l := Lapped;
  }

  /** `curr.processed = true; curr.corresponding.processed = true` at the
      stop s: it marks s and, when s has one, its partner, which it returns
      (NoRef stands for the TypeError on a missing partner). */
  method Switch(S: VertexList, C: VertexList, ghost ns0: seq<Node>, ghost cs0: seq<Node>, s: Ref)
    returns (partner: Ref)
    requires S != C && S.Valid() && C.Valid()
    requires Threaded(ns0, cs0) && On(ns0, cs0, s) && ProcessedOnly(ns0, S.nodes) && ProcessedOnly(cs0, C.nodes)
    modifies S, C
    ensures S.Valid() && C.Valid() && ProcessedOnly(ns0, S.nodes) && ProcessedOnly(cs0, C.nodes)
    ensures S.order == old(S.order) && S.pos == old(S.pos) && C.order == old(C.order) && C.pos == old(C.pos)
    ensures partner == At(ns0, cs0, s).corresponding
    ensures !partner.NoRef? ==>
      On(ns0, cs0, partner) &&
      MarkedBy(old(S.nodes), S.nodes, false, [s, partner]) && MarkedBy(old(C.nodes), C.nodes, true, [s, partner])
  {
    ghost var S0, C0 := S.nodes, C.nodes;
    assert Fits(ns0, cs0, s);
    partner := (if s.Subject? then S.nodes[s.i] else C.nodes[s.i]).corresponding;
    Mark(S, C, s);
    MarkedOnly(ns0, S0, S.nodes, false, [s]);
    MarkedOnly(cs0, C0, C.nodes, true, [s]);
    if !partner.NoRef? {
      ghost var S1, C1 := S.nodes, C.nodes;
      Mark(S, C, partner);
      MarkedTrans(S0, S1, S.nodes, false, [s], [partner]);
      MarkedTrans(C0, C1, C.nodes, true, [s], [partner]);
      MarkedOnly(ns0, S1, S.nodes, false, [partner]);
      MarkedOnly(cs0, C1, C.nodes, true, [partner]);
    }
  }

  /** After one more stop s and partner t, the marks of the stops and the
      partners so far are extended by [s, t]. */
  lemma MarkedMore(a: seq<Node>, b: seq<Node>, c: seq<Node>, clip: bool, stops: seq<Ref>, partners: seq<Ref>, s: Ref, t: Ref)
    requires MarkedBy(a, b, clip, stops + partners) && MarkedBy(b, c, clip, [s, t])
    ensures MarkedBy(a, c, clip, (stops + [s]) + (partners + [t]))
  {
    MarkedTrans(a, b, c, clip, stops + partners, [s, t]);
    MarkedSame(a, c, clip, (stops + partners) + [s, t], (stops + [s]) + (partners + [t]));
  }

  lemma Associative(a: seq<Point>, b: seq<Point>, c: seq<Point>)
    ensures (a + b) + c == a + (b + c)
  {
  }

  /** How one round of the outer loop ends: the leg lapped, the stop had no
      partner, the partner holds the start's point object, or the walk goes
      on from the partner, labelled `entry`. */
  datatype Turn = Looped | Stuck | Home | Onward(entry: Label)

  /** One round of the outer loop from the cursor curr: the inner walk, then
      the switch at its stop. */
  method Round(S: VertexList, C: VertexList, op: Policies.Op, ghost ns0: seq<Node>, ghost cs0: seq<Node>,
               vid: nat, curr: Ref, d: Policies.Dir, opp: Label, f: nat)
    returns (t: Turn, p: seq<Ref>, points: seq<Point>, s: Ref, partner: Ref)
    requires S != C && S.Valid() && C.Valid() && f > 0
    requires Threaded(ns0, cs0) && On(ns0, cs0, curr) && opp != Unlabelled
    requires ProcessedOnly(ns0, S.nodes) && ProcessedOnly(cs0, C.nodes)
    modifies S, C
    ensures S.Valid() && C.Valid() && ProcessedOnly(ns0, S.nodes) && ProcessedOnly(cs0, C.nodes)
    ensures S.order == old(S.order) && S.pos == old(S.pos) && C.order == old(C.order) && C.pos == old(C.pos)
    ensures t.Looped? ==> Onwards(ns0, cs0, op, vid, curr, d, opp, f) == Diverges
    ensures t.Stuck? ==> Onwards(ns0, cs0, op, vid, curr, d, opp, f) == TypeError
    ensures (t.Home? || t.Onward?) ==>
      points == Vertices(ns0, cs0, p) && On(ns0, cs0, partner) &&
      MarkedBy(old(S.nodes), S.nodes, false, [s, partner]) && MarkedBy(old(C.nodes), C.nodes, true, [s, partner])
    ensures t.Home? ==> Onwards(ns0, cs0, op, vid, curr, d, opp, f) == Closed(p, [s], [partner])
    ensures t.Onward? ==>
      t.entry == At(ns0, cs0, partner).entry &&
      Onwards(ns0, cs0, op, vid, curr, d, opp, f) ==
        Then(p, [s], [partner], Onwards(ns0, cs0, op, vid, partner, Policies.Switched(op, d), Negated(t.entry), f - 1))
  {
    CircuitStep(ns0, cs0, op, vid, curr, d, opp, f);
    var leg;
    leg, points := WalkLeg(S, C, ns0, cs0, curr, d, opp);
    if leg.Lapped? {
      return Looped, [], points, NoRef, NoRef;
    }
    p := leg.path;
    s := Last(p);
    partner := Switch(S, C, ns0, cs0, s);
    if partner.NoRef? {
      return Stuck, p, points, s, partner;
    }
    var landed := Look(S, C, ns0, cs0, partner);
    t := if landed.vid == vid then Home else Onward(landed.entry);
  }

  /** One outer tracing iteration from the unprocessed crossing subject
      record i: it pushes the start's point, marks the start and its
      partner, and alternates inner walks and switches to the partner until
      the partner holds the start's point object. */
  method TraceComponent(S: VertexList, C: VertexList, op: Policies.Op, i: nat, fuel: nat,
                        ghost ns0: seq<Node>, ghost cs0: seq<Node>)
    returns (run: Run, component: seq<Point>)
    requires S != C && S.Valid() && C.Valid()
    requires Threaded(ns0, cs0) && i < |ns0| && ProcessedOnly(ns0, S.nodes) && ProcessedOnly(cs0, C.nodes)
    modifies S, C
    ensures S.Valid() && C.Valid() && ProcessedOnly(ns0, S.nodes) && ProcessedOnly(cs0, C.nodes)
    ensures S.order == old(S.order) && S.pos == old(S.pos) && C.order == old(C.order) && C.pos == old(C.pos)
    ensures run == Component(ns0, cs0, op, i, fuel)
    ensures run.Closed? ==> component == [ns0[i].vertex] + Vertices(ns0, cs0, run.path)
    ensures run.Closed? ==>
      MarkedBy(old(S.nodes), S.nodes, false, run.stops + run.partners) &&
      MarkedBy(old(C.nodes), C.nodes, true, run.stops + run.partners)
  {
    ghost var S0, C0 := S.nodes, C.nodes;
    var start := Look(S, C, ns0, cs0, Subject(i));
    ComponentStart(ns0, cs0, op, i, fuel);
    component := [start.vertex];
    var first := Switch(S, C, ns0, cs0, Subject(i));
    if first.NoRef? {
      return TypeError, component;
    }
    var curr := Subject(i);
    var d := Policies.InitialDirection(op, start.entry);
    var opp := Negated(start.entry);
    var path: seq<Ref> := [];
    var stops, partners := [Subject(i)], [first];
    var f := fuel;
    while f > 0
      invariant S != C && S.Valid() && C.Valid()
      invariant S.order == old(S.order) && S.pos == old(S.pos) && C.order == old(C.order) && C.pos == old(C.pos)
      invariant On(ns0, cs0, curr) && opp != Unlabelled
      invariant MarkedBy(S0, S.nodes, false, stops + partners) && MarkedBy(C0, C.nodes, true, stops + partners)
      invariant ProcessedOnly(ns0, S.nodes) && ProcessedOnly(cs0, C.nodes)
      invariant component == [ns0[i].vertex] + Vertices(ns0, cs0, path)
      invariant Component(ns0, cs0, op, i, fuel) == Then(path, stops, partners, Onwards(ns0, cs0, op, start.vid, curr, d, opp, f))
      decreases f
    {
      ghost var p0, st0, pt0, S1, C1 := path, stops, partners, S.nodes, C.nodes;
      ghost var before := Onwards(ns0, cs0, op, start.vid, curr, d, opp, f);
      var t, p, points, s, partner := Round(S, C, op, ns0, cs0, start.vid, curr, d, opp, f);
      if t.Looped? {
        return Diverges, component;
      } else if t.Stuck? {
        return TypeError, component;
      }
      VerticesAppend(ns0, cs0, path, p);
      path := path + p;
      Associative([ns0[i].vertex], Vertices(ns0, cs0, p0), points);
      component := component + points;
      MarkedMore(S0, S1, S.nodes, false, stops, partners, s, partner);
      MarkedMore(C0, C1, C.nodes, true, stops, partners, s, partner);
      stops, partners := stops + [s], partners + [partner];
      if t.Home? {
        assert Then(p0, st0, pt0, before) == Closed(path, stops, partners);
        return Closed(path, stops, partners), component;
      }
      assert t.Onward?;
      var left := f - 1;
      Refuelled(ns0, cs0, op, start.vid, partner, Policies.Switched(op, d), Negated(t.entry), f, left);
      ghost var rest := Onwards(ns0, cs0, op, start.vid, partner, Policies.Switched(op, d), Negated(t.entry), left);
      ThenThen(p0, st0, pt0, p, [s], [partner], rest);
      assert Component(ns0, cs0, op, i, fuel) == Then(path, stops, partners, rest);
      curr, d, opp := partner, Policies.Switched(op, d), Negated(t.entry);
      f := left;
    }
    run := Diverges;
  }

  /** `curr.intersection && curr.crossing && !curr.processed`: an
      unprocessed crossing intersection. */
  predicate IsOpen(n: Node)
  {
    n.intersection && n.crossing == Crossing && !n.processed
  }

  /** The search of `firstUnprocessedCrossingIntersection` over records ns. */
  function OpenIn(ns: seq<Node>): (nat, nat) -> bool
  {
    (i: nat, k: nat) => i < |ns| && IsOpen(ns[i])
  }

  /** The records ns with those named in marks set processed. */
  function MarkAll(ns: seq<Node>, clip: bool, marks: seq<Ref>): (r: seq<Node>)
    ensures |r| == |ns|
  {
    seq(|ns|, i requires 0 <= i < |ns| => ns[i].(processed := ns[i].processed || Tag(clip, i) in marks))
  }

  lemma MarkedAll(ns: seq<Node>, ns': seq<Node>, clip: bool, marks: seq<Ref>)
    requires MarkedBy(ns, ns', clip, marks)
    ensures ns' == MarkAll(ns, clip, marks)
  {
  }

  /** The number of open records. */
  function OpenCount(ns: seq<Node>): nat
  {
    if ns == [] then 0 else OpenCount(ns[..|ns| - 1]) + (if IsOpen(ns[|ns| - 1]) then 1 else 0)
  }

  /** Marking never opens a record. */
  ghost predicate Closing(ns: seq<Node>, ns': seq<Node>)
  {
    |ns'| == |ns| && forall j :: 0 <= j < |ns| ==> IsOpen(ns'[j]) ==> IsOpen(ns[j])
  }

  lemma {:induction false} OpenCountMono(ns: seq<Node>, ns': seq<Node>)
    requires Closing(ns, ns')
    ensures OpenCount(ns') <= OpenCount(ns)
    decreases |ns|
  {
    if ns != [] {
      var n := |ns| - 1;
      OpenCountMono(ns[..n], ns'[..n]);
    }
  }

  /** Closing record i, which was open, lowers the count. */
  lemma {:induction false} OpenCountFalls(ns: seq<Node>, ns': seq<Node>, i: nat)
    requires Closing(ns, ns') && i < |ns| && IsOpen(ns[i]) && !IsOpen(ns'[i])
    ensures OpenCount(ns') < OpenCount(ns)
    decreases |ns|
  {
    var n := |ns| - 1;
    if i == n {
      OpenCountMono(ns[..n], ns'[..n]);
    } else {
      OpenCountFalls(ns[..n], ns'[..n], i);
    }
  }

  /** Marking a set of records closes the subject record i it names. */
  lemma MarkCloses(ns: seq<Node>, marks: seq<Ref>, i: nat)
    requires i < |ns| && IsOpen(ns[i]) && Subject(i) in marks
    ensures Closing(ns, MarkAll(ns, false, marks)) && !IsOpen(MarkAll(ns, false, marks)[i])
  {
  }

  /** How the tracing phase ends: the subject had no crossing to start
      from, or the components it traced, or a TypeError, or a walk without
      end. */
  datatype Trace = NoCrossing | Traced(polys: seq<seq<Point>>) | Raised | Endless

  /** The components traced before t. */
  function Prepend(polys: seq<seq<Point>>, t: Trace): Trace
  {
    match t
    case Traced(rest) => Traced(polys + rest)
    case _ => t
  }

  /** Every record w names is a subject record. */
  ghost predicate Within(w: seq<nat>, n: nat)
  {
    forall k :: 0 <= k < |w| ==> w[k] < n
  }

  /** The outer loop of phase 3 from the records ns and cs: trace the
      component of the first open subject record along w, mark its stops
      and partners, and go on until no open record is left. Every
      component walks the records ns0 and cs0, which differ from ns and cs
      only in their processed flags. */
  ghost function Remaining(ns0: seq<Node>, cs0: seq<Node>, op: Policies.Op, fuel: nat, w: seq<nat>,
                           ns: seq<Node>, cs: seq<Node>): (t: Trace)
    requires Threaded(ns0, cs0) && |ns| == |ns0| && Within(w, |ns0|)
    ensures t.Traced? ==> |t.polys| <= OpenCount(ns)
    ensures t != NoCrossing
    decreases OpenCount(ns)
  {
    var k := FirstMatchIndex(w, OpenIn(ns), 0);
    if k == |w| then Traced([])
    else
      var i := w[k];
      match Component(ns0, cs0, op, i, fuel)
      case TypeError => Raised
      case Diverges => Endless
      case Closed(path, stops, partners) =>
        var marks := stops + partners;
        MarkCloses(ns, marks, i);
        OpenCountFalls(ns, MarkAll(ns, false, marks), i);
        Prepend([[ns0[i].vertex] + Vertices(ns0, cs0, path)],
          Remaining(ns0, cs0, op, fuel, w, MarkAll(ns, false, marks), MarkAll(cs, true, marks)))
  }

  /** A polygon traced from the open subject record i of the lists ns and cs. */
  ghost predicate TracedFrom(ns: seq<Node>, cs: seq<Node>, op: Policies.Op, fuel: nat, poly: seq<Point>)
    requires Threaded(ns, cs)
  {
    exists i :: 0 <= i < |ns| && IsOpen(ns[i]) && Piece(ns, cs, op, i, fuel) == Some(poly)
  }

  lemma ClosingTrans(a: seq<Node>, b: seq<Node>, c: seq<Node>)
    requires Closing(a, b) && Closing(b, c)
    ensures Closing(a, c)
  {
  }

  /** Every polygon the outer loop traces is the piece of a subject record
      that was open before the loop began. */
  lemma {:induction false} RemainingPieces(ns0: seq<Node>, cs0: seq<Node>, op: Policies.Op, fuel: nat, w: seq<nat>,
                                           ns: seq<Node>, cs: seq<Node>)
    requires Threaded(ns0, cs0) && |ns| == |ns0| && Within(w, |ns0|) && Closing(ns0, ns)
    ensures var t := Remaining(ns0, cs0, op, fuel, w, ns, cs);
      t.Traced? ==> forall k :: 0 <= k < |t.polys| ==> TracedFrom(ns0, cs0, op, fuel, t.polys[k])
    decreases OpenCount(ns)
  {
    var i := FirstMatch(w, OpenIn(ns));
    if i != NULL {
      RemainingStep(ns0, cs0, op, fuel, w, ns, cs, i);
      var run := Component(ns0, cs0, op, i, fuel);
      if run.Closed? {
        var marks := run.stops + run.partners;
        var ns', cs' := MarkAll(ns, false, marks), MarkAll(cs, true, marks);
        MarkCloses(ns, marks, i);
        ClosingTrans(ns0, ns, ns');
        RemainingPieces(ns0, cs0, op, fuel, w, ns', cs');
        var piece := [ns0[i].vertex] + Vertices(ns0, cs0, run.path);
        assert Piece(ns0, cs0, op, i, fuel) == Some(piece);
        PrependPiece(ns0, cs0, op, fuel, piece, Remaining(ns0, cs0, op, fuel, w, ns', cs'));
      }
    }
  }

  lemma PrependPiece(ns: seq<Node>, cs: seq<Node>, op: Policies.Op, fuel: nat, piece: seq<Point>, rest: Trace)
    requires Threaded(ns, cs) && TracedFrom(ns, cs, op, fuel, piece)
    requires rest.Traced? ==> forall k :: 0 <= k < |rest.polys| ==> TracedFrom(ns, cs, op, fuel, rest.polys[k])
    ensures var t := Prepend([piece], rest);
      t.Traced? ==> forall k :: 0 <= k < |t.polys| ==> TracedFrom(ns, cs, op, fuel, t.polys[k])
  {
    var t := Prepend([piece], rest);
    if t.Traced? {
      forall k | 0 <= k < |t.polys|
        ensures TracedFrom(ns, cs, op, fuel, t.polys[k])
      {
        if k > 0 {
          assert t.polys[k] == rest.polys[k - 1];
        }
      }
    }
  }

  lemma TracedFromLong(ns: seq<Node>, cs: seq<Node>, op: Policies.Op, fuel: nat, poly: seq<Point>)
    requires Threaded(ns, cs) && TracedFrom(ns, cs, op, fuel, poly)
    ensures |poly| >= 2
  {
    var i :| 0 <= i < |ns| && IsOpen(ns[i]) && Piece(ns, cs, op, i, fuel) == Some(poly);
  }

  /** Phase 3 traces polygons of at least two points each, every one the
      piece of an open subject record of the lists it starts from. */
  lemma TracedPolygons(ns: seq<Node>, cs: seq<Node>, op: Policies.Op, w: seq<nat>)
    requires Threaded(ns, cs) && Within(w, |ns|)
    ensures var t := TraceSpec(ns, cs, op, w);
      t.Traced? ==> forall k :: 0 <= k < |t.polys| ==>
        TracedFrom(ns, cs, op, Budget(ns, cs), t.polys[k]) && |t.polys[k]| >= 2
  {
    var fuel := Budget(ns, cs);
    var t := TraceSpec(ns, cs, op, w);
    TraceSpecStart(ns, cs, op, w, fuel);
    RemainingPieces(ns, cs, op, fuel, w, ns, cs);
    PrependNil(Remaining(ns, cs, op, fuel, w, ns, cs));
    if t.Traced? {
      forall k | 0 <= k < |t.polys|
        ensures |t.polys[k]| >= 2
      {
        TracedFromLong(ns, cs, op, fuel, t.polys[k]);
      }
    }
  }

  /** The first open record along w is open. */
  lemma FirstOpen(w: seq<nat>, ns: seq<Node>)
    requires FirstMatchIndex(w, OpenIn(ns), 0) < |w|
    ensures var i := w[FirstMatchIndex(w, OpenIn(ns), 0)]; i < |ns| && IsOpen(ns[i])
  {
    var k := FirstMatchIndex(w, OpenIn(ns), 0);
    assert OpenIn(ns)(w[k], k);
  }

  /** One iteration of the outer loop, from the open record i. */
  lemma RemainingStep(ns0: seq<Node>, cs0: seq<Node>, op: Policies.Op, fuel: nat, w: seq<nat>,
                      ns: seq<Node>, cs: seq<Node>, i: int)
    requires Threaded(ns0, cs0) && |ns| == |ns0| && Within(w, |ns0|)
    requires i == FirstMatch(w, OpenIn(ns)) && i != NULL
    ensures 0 <= i < |ns0| && IsOpen(ns[i])
    ensures var run := Component(ns0, cs0, op, i, fuel);
      var t := Remaining(ns0, cs0, op, fuel, w, ns, cs);
      (run.TypeError? ==> t == Raised) &&
      (run.Diverges? ==> t == Endless) &&
      (run.Closed? ==>
        var marks := run.stops + run.partners;
        OpenCount(MarkAll(ns, false, marks)) < OpenCount(ns) &&
        t == Prepend([[ns0[i].vertex] + Vertices(ns0, cs0, run.path)],
               Remaining(ns0, cs0, op, fuel, w, MarkAll(ns, false, marks), MarkAll(cs, true, marks))))
  {
    FirstOpen(w, ns);
    var run := Component(ns0, cs0, op, i, fuel);
    if run.Closed? {
      var marks := run.stops + run.partners;
      MarkCloses(ns, marks, i);
      OpenCountFalls(ns, MarkAll(ns, false, marks), i);
    }
  }

  lemma PrependPrepend(a: seq<seq<Point>>, b: seq<seq<Point>>, t: Trace)
    ensures Prepend(a, Prepend(b, t)) == Prepend(a + b, t)
  {
    if t.Traced? {
      assert a + (b + t.polys) == (a + b) + t.polys;
    }
  }

  /** The walk from the head names every record of a valid list. */
  lemma HeadWalk(l: VertexList)
    requires l.Valid()
    ensures |l.Walk(0)| == |l.nodes| && Within(l.Walk(0), |l.nodes|)
  {
    forall k | 0 <= k < |l.nodes|
      ensures l.Walk(0)[k] < |l.nodes|
    {
      l.WalkAt(0, k);
    }
  }

  /** Phase 3 over the records ns and cs: no crossing to start from, or
      the outer loop from the first open subject record along w; every
      component gets more rounds than there are states a round can start
      from. */
  ghost function TraceSpec(ns: seq<Node>, cs: seq<Node>, op: Policies.Op, w: seq<nat>): (t: Trace)
    requires Threaded(ns, cs) && Within(w, |ns|)
    ensures t == NoCrossing <==> forall k :: 0 <= k < |w| ==> !IsOpen(ns[w[k]])
    ensures t.Traced? ==> 1 <= |t.polys| <= OpenCount(ns)
  {
    var k := FirstMatchIndex(w, OpenIn(ns), 0);
    if k == |w| then NoCrossing
    else
      assert OpenIn(ns)(w[k], k);
      Remaining(ns, cs, op, Budget(ns, cs), w, ns, cs)
  }

  /** Rounds one component may take: twice the records of both lists, and one more. */
  function Budget(ns: seq<Node>, cs: seq<Node>): nat
  {
    2 * (|ns| + |cs|) + 1
  }

  /** Where phase 3 starts: nowhere without an open record, and otherwise
      with the budgeted outer loop over the unmarked lists. */
  lemma TraceSpecStart(ns: seq<Node>, cs: seq<Node>, op: Policies.Op, w: seq<nat>, fuel: nat)
    requires Threaded(ns, cs) && Within(w, |ns|) && fuel == Budget(ns, cs)
    ensures FirstMatch(w, OpenIn(ns)) == NULL ==> TraceSpec(ns, cs, op, w) == NoCrossing
    ensures FirstMatch(w, OpenIn(ns)) != NULL ==>
      TraceSpec(ns, cs, op, w) == Prepend([], Remaining(ns, cs, op, fuel, w, ns, cs))
  {
    var t := Remaining(ns, cs, op, fuel, w, ns, cs);
    if t.Traced? {
      assert [] + t.polys == t.polys;
    }
  }

  lemma PrependNil(t: Trace)
    ensures Prepend([], t) == t
  {
    if t.Traced? {
      assert [] + t.polys == t.polys;
    }
  }

  /** The outer loop stops once no open record is left, with nothing more. */
  lemma RemainingDone(ns0: seq<Node>, cs0: seq<Node>, op: Policies.Op, fuel: nat, w: seq<nat>,
                      ns: seq<Node>, cs: seq<Node>, polys: seq<seq<Point>>)
    requires Threaded(ns0, cs0) && |ns| == |ns0| && Within(w, |ns0|)
    requires FirstMatch(w, OpenIn(ns)) == NULL
    ensures Prepend(polys, Remaining(ns0, cs0, op, fuel, w, ns, cs)) == Traced(polys)
  {
    assert polys + [] == polys;
  }

  /** One pass of the outer loop: trace the component from curr, the first
      open subject record along w. */
  method NextComponent(S: VertexList, C: VertexList, op: Policies.Op, curr: int, fuel: nat,
                       ghost ns0: seq<Node>, ghost cs0: seq<Node>, ghost w: seq<nat>)
    returns (run: Run, component: seq<Point>, next: int)
    requires S != C && S.Valid() && C.Valid()
    requires Threaded(ns0, cs0) && Within(w, |ns0|) && ProcessedOnly(ns0, S.nodes) && ProcessedOnly(cs0, C.nodes)
    requires S.Walk(0) == w && curr == FirstMatch(w, OpenIn(S.nodes)) && curr != NULL
    modifies S, C
    ensures S.Valid() && C.Valid() && ProcessedOnly(ns0, S.nodes) && ProcessedOnly(cs0, C.nodes)
    ensures S.Walk(0) == w && next == FirstMatch(w, OpenIn(S.nodes))
    ensures var t := Remaining(ns0, cs0, op, fuel, w, old(S.nodes), old(C.nodes));
      (run.TypeError? ==> t == Raised) &&
      (run.Diverges? ==> t == Endless) &&
      (run.Closed? ==>
        OpenCount(S.nodes) < OpenCount(old(S.nodes)) &&
        t == Prepend([component], Remaining(ns0, cs0, op, fuel, w, S.nodes, C.nodes)))
  {
    ghost var ns, cs := S.nodes, C.nodes;
    RemainingStep(ns0, cs0, op, fuel, w, ns, cs, curr);
    run, component := TraceComponent(S, C, op, curr, fuel, ns0, cs0);
    if run.Closed? {
      MarkedAll(ns, S.nodes, false, run.stops + run.partners);
      MarkedAll(cs, C.nodes, true, run.stops + run.partners);
    }
    next := S.Find(0, OpenIn(S.nodes));
  }

  /** The outer loop of phase 3, from curr, the first open subject record
      along w, until no open record is left. */
  method Outer(S: VertexList, C: VertexList, op: Policies.Op, curr: int, fuel: nat,
               ghost ns0: seq<Node>, ghost cs0: seq<Node>, ghost w: seq<nat>)
    returns (t: Trace)
    requires S != C && S.Valid() && C.Valid()
    requires Threaded(ns0, cs0) && Within(w, |ns0|) && ProcessedOnly(ns0, S.nodes) && ProcessedOnly(cs0, C.nodes)
    requires S.Walk(0) == w && curr == FirstMatch(w, OpenIn(S.nodes))
    modifies S, C
    ensures S.Valid() && C.Valid()
    ensures t == Remaining(ns0, cs0, op, fuel, w, old(S.nodes), old(C.nodes))
  {
    var polys: seq<seq<Point>> := [];
    var next := curr;
    PrependNil(Remaining(ns0, cs0, op, fuel, w, S.nodes, C.nodes));
    while next != NULL
      invariant S != C && S.Valid() && C.Valid()
      invariant ProcessedOnly(ns0, S.nodes) && ProcessedOnly(cs0, C.nodes)
      invariant S.Walk(0) == w && next == FirstMatch(w, OpenIn(S.nodes))
      invariant Remaining(ns0, cs0, op, fuel, w, old(S.nodes), old(C.nodes)) ==
                Prepend(polys, Remaining(ns0, cs0, op, fuel, w, S.nodes, C.nodes))
      decreases OpenCount(S.nodes)
    {
      var run, component, after := NextComponent(S, C, op, next, fuel, ns0, cs0, w);
      if run.TypeError? {
        return Raised;
      } else if run.Diverges? {
        return Endless;
      }
      PrependPrepend(polys, [component], Remaining(ns0, cs0, op, fuel, w, S.nodes, C.nodes));
      polys := polys + [component];
      next := after;
    }
    RemainingDone(ns0, cs0, op, fuel, w, S.nodes, C.nodes, polys);
    t := Traced(polys);
  }

  /** Phase 3: while the subject has an unprocessed crossing intersection,
      trace the component from the first one along the subject list. */
  method TracePhase(S: VertexList, C: VertexList, op: Policies.Op) returns (t: Trace)
    requires Pair(S, C)
    modifies S, C
    ensures S.Valid() && C.Valid()
    ensures Threaded(old(S.nodes), old(C.nodes)) && Within(old(S.Walk(0)), old(|S.nodes|))
    ensures t == TraceSpec(old(S.nodes), old(C.nodes), op, old(S.Walk(0)))
    ensures t == NoCrossing ==> unchanged(S, C)
  {
    ghost var ns0, cs0 := S.nodes, C.nodes;
    ghost var w := S.Walk(0);
    PairThreaded(S, C);
    HeadWalk(S);
    var fuel := Budget(S.nodes, C.nodes);
    var curr := S.Find(0, OpenIn(S.nodes));
    TraceSpecStart(ns0, cs0, op, w, fuel);
    if curr == NULL {
      return NoCrossing;
    }
    t := Outer(S, C, op, curr, fuel, ns0, cs0, w);
    PrependNil(t);
  }
}
