/** The entry points `intersect`, `union` and `difference`: each hands its
    policy to the engine; a difference whose clip lies inside the subject
    is split in two and the difference taken of each piece. */
module Operations {
  import opened Util
  import opened Engine
  import Policies
  import HoleSplit

  /** An outcome that needs nothing further: polygons or a failure. */
  predicate Final(o: Outcome)
  {
    o != Answer(Policies.SplitSubject)
  }

  /** `difference(subject1, clip).concat(difference(subject2, clip))`: the
      first piece's failure wins, then the second's; otherwise the two lists
      of polygons one after the other. A piece that needs a hole split of its
      own stays unresolved. */
  function Joined(left: Outcome, right: Outcome): (r: Outcome)
    ensures !left.Answer? ==> r == left
    ensures left.Answer? && left.answer.Polygons? && !right.Answer? ==> r == right
    ensures r.Answer? && r.answer.Polygons? ==>
      left.Answer? && left.answer.Polygons? && right.Answer? && right.answer.Polygons? &&
      r.answer.polys == left.answer.polys + right.answer.polys
  {
    if !left.Answer? || left.answer.SplitSubject? then left
    else if !right.Answer? || right.answer.SplitSubject? then right
    else Answer(Policies.Polygons(left.answer.polys + right.answer.polys))
  }

  /** `intersect(subject, clip)`. The ghost output is the engine's run. */
  method Intersect(subject: Option<seq<Point>>, clip: Option<seq<Point>>) returns (r: Outcome, ghost run: Run)
    ensures run.r == r && Answers(Operand(subject), Operand(clip), Policies.Intersect, run)
    ensures Final(r)
    ensures Early(Operand(subject), Operand(clip), Policies.Intersect).Some? ==>
      r == Early(Operand(subject), Operand(clip), Policies.Intersect).value
  {
    ghost var phase, ns, cs, w, sRing, cRing;
    r, phase, ns, cs, w, sRing, cRing := GreinerHormann(subject, clip, Policies.Intersect);
    run := Run(r, phase, ns, cs, w, sRing, cRing);
  }

  /** `union(subject, clip)`. The ghost output is the engine's run. */
  method Union(subject: Option<seq<Point>>, clip: Option<seq<Point>>) returns (r: Outcome, ghost run: Run)
    ensures run.r == r && Answers(Operand(subject), Operand(clip), Policies.Union, run)
    ensures Final(r)
    ensures Early(Operand(subject), Operand(clip), Policies.Union).Some? ==>
      r == Early(Operand(subject), Operand(clip), Policies.Union).value
  {
    ghost var phase, ns, cs, w, sRing, cRing;
    r, phase, ns, cs, w, sRing, cRing := GreinerHormann(subject, clip, Policies.Union);
    run := Run(r, phase, ns, cs, w, sRing, cRing);
  }

  /** `difference(subject, clip)`, following one level of the hole split:
      when the engine asks for it, the subject is cut into the two pieces
      `Halves` describes and the engine's difference of each piece with the
      clip is joined. The ghost outputs are the engine's first run, the
      pieces, and the runs for each piece. */
  method Difference(subject: Option<seq<Point>>, clip: Option<seq<Point>>)
    returns (r: Outcome, ghost first: Run, ghost pieces: Option<(seq<Point>, seq<Point>)>,
             ghost left: Run, ghost right: Run)
    ensures Answers(Operand(subject), Operand(clip), Policies.Difference, first)
    ensures Early(Operand(subject), Operand(clip), Policies.Difference).Some? ==>
      r == Early(Operand(subject), Operand(clip), Policies.Difference).value
    ensures Final(first.r) ==> r == first.r && pieces.None?
    ensures !Final(first.r) ==>
      |Operand(clip)| >= 3 && pieces == HoleSplit.Halves(Operand(subject), Operand(clip))
    ensures pieces.None? ==> r == first.r
    ensures pieces.Some? ==>
      Answers(pieces.value.0, Operand(clip), Policies.Difference, left) &&
      Answers(pieces.value.1, Operand(clip), Policies.Difference, right) &&
      r == Joined(left.r, right.r) &&
      |pieces.value.0| + |pieces.value.1| == |Operand(subject)| + 4 &&
      |pieces.value.0| >= 3 && |pieces.value.1| >= 3
  {
    ghost var phase, ns, cs, w, sRing, cRing;
    r, phase, ns, cs, w, sRing, cRing := GreinerHormann(subject, clip, Policies.Difference);
    first := Run(r, phase, ns, cs, w, sRing, cRing);
    pieces, left, right := None, first, first;
    if Final(r) {
      return;
    }
    var s, c := Operand(subject), Operand(clip);
    var split := HoleSplit.Split(s, c);
    if split.None? {
      return;
    }
    pieces := split;
    ghost var y := HoleSplit.SplitY(c);
    ghost var s1 := HoleSplit.NearestUp(s, y, HoleSplit.ClipX(c, y), |s|).value;
    ghost var s2 := HoleSplit.FirstS2(s, y, HoleSplit.ClipX(c, y), s1).value;
    if s1.edge < s2.edge {
      HoleSplit.PiecesPartition(s, s1, s2);
    } else {
      HoleSplit.PiecesPartition(s, s2, s1);
    }
    var a, b;
    a, phase, ns, cs, w, sRing, cRing := GreinerHormann(Some(split.value.0), clip, Policies.Difference);
    left := Run(a, phase, ns, cs, w, sRing, cRing);
    b, phase, ns, cs, w, sRing, cRing := GreinerHormann(Some(split.value.1), clip, Policies.Difference);
    right := Run(b, phase, ns, cs, w, sRing, cRing);
    r := Joined(a, b);
  }
}
