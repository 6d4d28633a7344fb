/** Indexing both factors of a matrix with a tuple of positions, slices and an ellipsis. */
module LoraTuples {
  import opened Text
  import opened Tensors
  import opened Lora

  // One entry of the tuple.
  datatype Entry = At(position: int) | Cut(slice: Slice)

  const WHOLE := Cut(Slice(None, None, 1))

  // What an entry takes of one axis: a position, and the axis disappears, or a list of positions.
  datatype Pick = One(at: nat) | Many(sel: seq<nat>)

  // Several axes at once.
  function Kept(picks: seq<Pick>): seq<nat> {
    if picks == [] then []
    else (if picks[0].One? then [] else [|picks[0].sel|]) + Kept(picks[1..])
  }

  // The index before picking, given the one after.
  function Source(picks: seq<Pick>, idx: seq<nat>): (r: seq<nat>)
    requires |idx| == |Kept(picks)|
    ensures |r| == |picks|
  {
    if picks == [] then []
    else if picks[0].One? then [picks[0].at] + Source(picks[1..], idx)
    else [if idx[0] < |picks[0].sel| then picks[0].sel[idx[0]] else 0] + Source(picks[1..], idx[1..])
  }

  function Picked(t: Tensor, picks: seq<Pick>): Tensor
    requires |picks| == |t.shape|
  {
    Tensor(Kept(picks), idx => if |idx| == |Kept(picks)| then t.elem(Source(picks, idx)) else 0.0)
  }

  function Whole(extent: nat): Pick {
    Many(Range(0, extent))
  }

  // A position that the axis does not have and a slice with step 0 are errors.
  function Resolved(e: Entry, extent: nat): Option<Pick> {
    match e
    case At(i) => if Axis(i, extent).None? then None else Some(One(Axis(i, extent).value))
    case Cut(s) => if s.step == 0 then None else Some(Many(SliceOf(s, extent)))
  }

  function ResolvedAll(es: seq<Entry>, shape: seq<nat>): (r: Option<seq<Pick>>)
    requires |es| == |shape|
    ensures r.Some? ==> |r.value| == |es|
  {
    if es == [] then Some([])
    else
      var p, more := Resolved(es[0], shape[0]), ResolvedAll(es[1..], shape[1..]);
      if p.None? || more.None? then None else Some([p.value] + more.value)
  }

  // The leading axes of a: a position is taken modulo the extent, and a slice takes the whole axis.
  function LeadA(es: seq<Entry>, shape: seq<nat>): (r: Option<seq<Pick>>)
    requires |es| == |shape|
    ensures r.Some? ==> |r.value| == |es|
  {
    if es == [] then Some([])
    else
      var more := LeadA(es[1..], shape[1..]);
      if more.None? || (es[0].At? && shape[0] == 0) then None
      else
        var p := if es[0].At? then One(es[0].position % shape[0]) else Whole(shape[0]);
        Some([p] + more.value)
  }

  // Missing entries are whole slices.
  function Padded(es: seq<Entry>, n: nat): (r: seq<Entry>)
    ensures |r| == if |es| < n then n else |es|
  {
    if |es| < n then es + seq(n - |es|, _ => WHOLE) else es
  }

  // l[e0, e1, ...]: the leading entries and the last one go to a, all but the last one go to b.
  function TupleLora(l: Lora, es: seq<Entry>): Option<Lora>
    requires Wf(l)
  {
    var n := |l.b.shape|;
    if es == [] || |es| > n then None
    else
      var all := Padded(es, n);
      var lead, cols := LeadA(all[..n - 2], l.a.shape[..n - 2]), Resolved(all[n - 1], l.a.shape[n - 1]);
      var front := ResolvedAll(all[..n - 1], l.b.shape[..n - 1]);
      if lead.None? || cols.None? || front.None? then None
      else
        Some(Lora(Picked(l.a, lead.value + [Whole(Rank(l)), cols.value]),
                  Picked(l.b, front.value + [Whole(Rank(l))])))
  }

  // The same tuple on a dense tensor.
  function TupleDense(t: Tensor, es: seq<Entry>): Option<Tensor> {
    if es == [] || |es| > |t.shape| then None
    else
      var picks := ResolvedAll(Padded(es, |t.shape|), t.shape);
      if picks.None? then None else Some(Picked(t, picks.value))
  }

  // Every leading slice meets a shared axis of a or takes the whole axis.
  predicate LeadAlike(es: seq<Entry>, sa: seq<nat>, sb: seq<nat>)
    requires |es| == |sa| == |sb|
  {
    forall j :: 0 <= j < |es| && es[j].Cut? && es[j].slice.step > 0 ==>
                  sa[j] == 1 || |SliceOf(es[j].slice, sb[j])| == sb[j]
  }

  // ---------- picking ----------

  lemma {:induction false} KeptConcat(p: seq<Pick>, q: seq<Pick>)
    ensures Kept(p + q) == Kept(p) + Kept(q)
  {
    if p == [] {
      assert p + q == q;
    } else {
      assert (p + q)[1..] == p[1..] + q;
      KeptConcat(p[1..], q);
    }
  }

  function Here(p: Pick, i: nat): nat {
    if p.One? then p.at else if i < |p.sel| then p.sel[i] else 0
  }

  lemma SourceStep(p: seq<Pick>, x: seq<nat>)
    requires p != [] && |x| == |Kept(p)|
    ensures p[0].One? ==> |Kept(p[1..])| == |x| && Source(p, x) == [p[0].at] + Source(p[1..], x)
    ensures p[0].Many? ==>
      x != [] && |Kept(p[1..])| == |x[1..]| && Source(p, x) == [Here(p[0], x[0])] + Source(p[1..], x[1..])
  {
  }

  lemma KeptOne(x: seq<nat>)
    ensures Kept([Many(x)]) == [|x|]
  {
    assert [Many(x)][1..] == [];
  }

  lemma SourceOne(sel: seq<nat>, i: nat)
    requires i < |sel| && |Kept([Many(sel)])| == 1
    ensures Source([Many(sel)], [i]) == [sel[i]]
  {
    assert [Many(sel)][1..] == [] && [i][1..] == [];
  }

  // One more pick at the end.
  lemma {:induction false} SourceLast(p: seq<Pick>, sel: seq<nat>, x: seq<nat>, i: nat)
    requires |x| == |Kept(p)| && i < |sel|
    ensures |x + [i]| == |Kept(p + [Many(sel)])|
    ensures Source(p + [Many(sel)], x + [i]) == Source(p, x) + [sel[i]]
  {
    var m := Many(sel);
    KeptConcat(p, [m]);
    KeptOne(sel);
    if p == [] {
      assert p + [m] == [m] && x + [i] == [i];
      SourceOne(sel, i);
    } else {
      hide Source, Kept, Here;
      SourceStep(p, x);
      SourceStep(p + [m], x + [i]);
      assert (p + [m])[0] == p[0] && (p + [m])[1..] == p[1..] + [m];
      if p[0].One? {
        SourceLast(p[1..], sel, x, i);
      } else {
        SourceLast(p[1..], sel, x[1..], i);
        assert (x + [i])[0] == x[0] && (x + [i])[1..] == x[1..] + [i];
      }
    }
  }

  lemma {:induction false} PositionsSpan(from: nat, to: nat, step: nat)
    requires step > 0 && from <= to
    ensures |Positions(from, to, step)| <= to - from
    ensures |Positions(from, to, step)| == to - from ==> Positions(from, to, step) == Range(from, to - from)
    decreases if from < to then to - from else 0
  {
    if from < to {
      if from + step <= to {
        PositionsSpan(from + step, to, step);
      } else {
        assert Positions(from + step, to, step) == [];
      }
      assert Range(from, to - from) == [from] + Range(from + 1, to - from - 1);
    }
  }

  // A slice with as many positions as the axis is the whole axis.
  lemma {:induction false} FullSlice(s: Slice, n: nat)
    requires s.step > 0
    ensures |SliceOf(s, n)| <= n
    ensures |SliceOf(s, n)| == n ==> SliceOf(s, n) == Range(0, n)
  {
    var from := if s.start.None? then 0 else Clamp(s.start.value, n);
    var to := if s.stop.None? then n else Clamp(s.stop.value, n);
    if from <= to {
      PositionsSpan(from, to, s.step);
    }
  }

  // ---------- the leading axes ----------

  lemma {:induction false} LeadShapes(es: seq<Entry>, sa: seq<nat>, sb: seq<nat>)
    requires |es| == |sa| == |sb| && BroadcastsTo(sa, sb)
    requires LeadA(es, sa).Some? && ResolvedAll(es, sb).Some?
    ensures var ka, kb := Kept(LeadA(es, sa).value), Kept(ResolvedAll(es, sb).value);
      |ka| == |kb| && (BroadcastsTo(ka, kb) <==> LeadAlike(es, sa, sb))
  {
    if es != [] {
      var pa, pb := LeadA(es, sa).value, ResolvedAll(es, sb).value;
      var qa, qb := LeadA(es[1..], sa[1..]).value, ResolvedAll(es[1..], sb[1..]).value;
      assert pa[1..] == qa && pb[1..] == qb;
      LeadShapes(es[1..], sa[1..], sb[1..]);
      LeadAlikeStep(es, sa, sb);
      if es[0].Cut? {
        var sel := SliceOf(es[0].slice, sb[0]);
        assert Kept(pa) == [sa[0]] + Kept(qa) && Kept(pb) == [|sel|] + Kept(qb);
        hide SliceOf, LeadAlike, Kept, BroadcastsTo;
        BroadcastsStep(Kept(pa), Kept(pb));
        assert sa[0] == 1 || sa[0] == sb[0] by { BroadcastsStep(sa, sb); }
      } else {
        assert Kept(pa) == Kept(qa) && Kept(pb) == Kept(qb);
      }
    }
  }

  lemma LeadAlikeStep(es: seq<Entry>, sa: seq<nat>, sb: seq<nat>)
    requires |es| == |sa| == |sb| > 0
    ensures LeadAlike(es, sa, sb) <==>
      && (es[0].Cut? && es[0].slice.step > 0 ==> sa[0] == 1 || |SliceOf(es[0].slice, sb[0])| == sb[0])
      && LeadAlike(es[1..], sa[1..], sb[1..])
  {
    hide SliceOf;
    var fs, ta, tb := es[1..], sa[1..], sb[1..];
    if LeadAlike(fs, ta, tb) {
      assert forall j :: 1 <= j < |es| ==> es[j] == fs[j - 1] && sa[j] == ta[j - 1] && sb[j] == tb[j - 1];
    }
  }

  lemma BroadcastsStep(small: seq<nat>, shape: seq<nat>)
    requires |small| == |shape| > 0
    ensures BroadcastsTo(small, shape) <==>
      (small[0] == 1 || small[0] == shape[0]) && BroadcastsTo(small[1..], shape[1..])
  {
    if BroadcastsTo(small[1..], shape[1..]) {
      assert forall i :: 1 <= i < |shape| ==> small[i] == small[1..][i - 1] && shape[i] == shape[1..][i - 1];
    }
  }

  lemma {:induction false} LeadSources(es: seq<Entry>, sa: seq<nat>, sb: seq<nat>, idx: seq<nat>)
    requires |es| == |sa| == |sb| && BroadcastsTo(sa, sb) && LeadAlike(es, sa, sb)
    requires LeadA(es, sa).Some? && ResolvedAll(es, sb).Some?
    requires InRange(idx, Kept(ResolvedAll(es, sb).value)) && |Kept(LeadA(es, sa).value)| == |idx|
    ensures var pa, pb := LeadA(es, sa).value, ResolvedAll(es, sb).value;
      Source(pa, Broadcast(idx, Kept(pa))) == Broadcast(Source(pb, idx), sa)
  {
    if es != [] {
      var pa, pb := LeadA(es, sa).value, ResolvedAll(es, sb).value;
      var here := if es[0].At? then 0 else idx[0];
      var rest := if es[0].At? then idx else idx[1..];
      LeadStep(es, sa, sb, idx);
      LeadAlikeStep(es, sa, sb);
      BroadcastsStep(sa, sb);
      LeadHere(es[0], sa[0], sb[0], here);
      hide LeadA, Resolved, ResolvedAll, SliceOf, LeadAlike, BroadcastsTo, Source, Kept, Broadcast, Here, InRange;
      LeadSources(es[1..], sa[1..], sb[1..], rest);
      SourceStep(pb, idx);
      BroadcastHead(Source(pb, idx), sa);
      SourceStep(pa, Broadcast(idx, Kept(pa)));
      if es[0].Cut? {
        BroadcastHead(idx, Kept(pa));
      }
    }
  }

  // What the first entry takes, and what is left for the others.
  lemma LeadStep(es: seq<Entry>, sa: seq<nat>, sb: seq<nat>, idx: seq<nat>)
    requires |es| == |sa| == |sb| > 0
    requires LeadA(es, sa).Some? && ResolvedAll(es, sb).Some?
    requires InRange(idx, Kept(ResolvedAll(es, sb).value)) && |Kept(LeadA(es, sa).value)| == |idx|
    ensures LeadA([es[0]], [sa[0]]).Some? && Resolved(es[0], sb[0]).Some?
    ensures LeadA(es[1..], sa[1..]).Some? && ResolvedAll(es[1..], sb[1..]).Some?
    ensures var pa, pb := LeadA(es, sa).value, ResolvedAll(es, sb).value;
      var qa, qb := LeadA(es[1..], sa[1..]).value, ResolvedAll(es[1..], sb[1..]).value;
      && pa[0] == LeadA([es[0]], [sa[0]]).value[0] && pb[0] == Resolved(es[0], sb[0]).value
      && pa[1..] == qa && pb[1..] == qb
      && (pa[0].One? <==> es[0].At?) && (pb[0].One? <==> es[0].At?)
      && (es[0].At? ==> Kept(pa) == Kept(qa) && InRange(idx, Kept(qb)))
      && (es[0].Cut? ==>
            && Kept(pa) == [sa[0]] + Kept(qa) && Kept(pb) == [|SliceOf(es[0].slice, sb[0])|] + Kept(qb)
            && idx != [] && idx[0] < |SliceOf(es[0].slice, sb[0])| && InRange(idx[1..], Kept(qb)))
  {
    hide SliceOf, Axis;
    var pa, pb := LeadA(es, sa).value, ResolvedAll(es, sb).value;
    var qa, qb := LeadA(es[1..], sa[1..]).value, ResolvedAll(es[1..], sb[1..]).value;
    assert pa[1..] == qa && pb[1..] == qb;
  }

  lemma BroadcastHead(idx: seq<nat>, shape: seq<nat>)
    requires |idx| == |shape| > 0
    ensures Broadcast(idx, shape) == [if shape[0] == 1 then 0 else idx[0]] + Broadcast(idx[1..], shape[1..])
  {
  }

  // One leading axis.
  lemma LeadHere(e: Entry, ea: nat, eb: nat, i: nat)
    requires LeadA([e], [ea]).Some? && Resolved(e, eb).Some? && (ea == 1 || ea == eb)
    requires e.Cut? ==> (ea == 1 || |SliceOf(e.slice, eb)| == eb) && i < |SliceOf(e.slice, eb)|
    ensures var pa, pb := LeadA([e], [ea]).value[0], Resolved(e, eb).value;
      Here(pa, if e.At? || ea == 1 then 0 else i) == (if ea == 1 then 0 else Here(pb, i))
  {
    if e.Cut? {
      FullSlice(e.slice, eb);
    }
  }

  // ---------- the tuple ----------

  // Slices in the two last places; the leading places are free.
  predicate CutsMatrix(es: seq<Entry>, n: nat) {
    |es| <= n && n >= 2 && Padded(es, n)[n - 2].Cut? && Padded(es, n)[n - 1].Cut?
  }

  predicate TupleAlike(l: Lora, es: seq<Entry>)
    requires Wf(l) && |es| <= |l.b.shape|
  {
    var n := |l.b.shape|;
    LeadAlike(Padded(es, n)[..n - 2], l.a.shape[..n - 2], l.b.shape[..n - 2])
  }

  lemma {:induction false} ResolvedLast(es: seq<Entry>, e: Entry, shape: seq<nat>, extent: nat)
    requires |es| == |shape|
    ensures var whole := ResolvedAll(es + [e], shape + [extent]);
      var front, last := ResolvedAll(es, shape), Resolved(e, extent);
      && (whole.Some? <==> front.Some? && last.Some?)
      && (whole.Some? ==> whole.value == front.value + [last.value])
  {
    hide Resolved;
    if es == [] {
      assert es + [e] == [e] && shape + [extent] == [extent];
      assert ([e])[1..] == [] && ([extent])[1..] == [];
    } else {
      assert (es + [e])[1..] == es[1..] + [e] && (shape + [extent])[1..] == shape[1..] + [extent];
      ResolvedLast(es[1..], e, shape[1..], extent);
    }
  }

  // The picks on all four sides.
  lemma TuplePicks(l: Lora, es: seq<Entry>) returns (pa: seq<Pick>, pb: seq<Pick>, row: Pick, col: Pick)
    requires Wf(l) && TupleLora(l, es).Some?
    ensures var n, all := |l.b.shape|, Padded(es, |l.b.shape|);
      && LeadA(all[..n - 2], l.a.shape[..n - 2]) == Some(pa)
      && ResolvedAll(all[..n - 2], l.b.shape[..n - 2]) == Some(pb)
      && Resolved(all[n - 2], l.b.shape[n - 2]) == Some(row) && Resolved(all[n - 1], l.a.shape[n - 1]) == Some(col)
      && TupleLora(l, es).value ==
         Lora(Picked(l.a, pa + [Whole(Rank(l)), col]), Picked(l.b, pb + [row, Whole(Rank(l))]))
  {
    hide SliceOf, Axis, Kept, Source, BroadcastsTo, Dot, RowOf, ColumnOf, Times, Resolved;
    var n := |l.b.shape|;
    var all := Padded(es, n);
    pa := LeadA(all[..n - 2], l.a.shape[..n - 2]).value;
    assert all[..n - 1] == all[..n - 2] + [all[n - 2]] && l.b.shape[..n - 1] == l.b.shape[..n - 2] + [l.b.shape[n - 2]];
    ResolvedLast(all[..n - 2], all[n - 2], l.b.shape[..n - 2], l.b.shape[n - 2]);
    pb := ResolvedAll(all[..n - 2], l.b.shape[..n - 2]).value;
    row, col := Resolved(all[n - 2], l.b.shape[n - 2]).value, Resolved(all[n - 1], l.a.shape[n - 1]).value;
    hide ResolvedAll, LeadA, Padded, Picked;
    assert pb + [row] + [Whole(Rank(l))] == pb + [row, Whole(Rank(l))];
  }

  lemma DensePicks(l: Lora, es: seq<Entry>, pb: seq<Pick>, row: Pick, col: Pick)
    requires Wf(l) && es != [] && |es| <= |l.b.shape|
    requires var n, all := |l.b.shape|, Padded(es, |l.b.shape|);
      && ResolvedAll(all[..n - 2], l.b.shape[..n - 2]) == Some(pb)
      && Resolved(all[n - 2], l.b.shape[n - 2]) == Some(row) && Resolved(all[n - 1], l.a.shape[n - 1]) == Some(col)
    ensures TupleDense(Product(l), es) == Some(Picked(Product(l), pb + [row, col]))
  {
    hide Resolved, Padded, ResolvedAll, Picked, Product;
    ProductShape(l);
    var n, all, shape := |l.b.shape|, Padded(es, |l.b.shape|), Shape(l);
    var x, y := l.b.shape[n - 2], l.a.shape[n - 1];
    assert all[..n - 1] == all[..n - 2] + [all[n - 2]] && shape[..n - 1] == l.b.shape[..n - 2] + [x];
    ResolvedLast(all[..n - 2], all[n - 2], l.b.shape[..n - 2], x);
    assert all == all[..n - 1] + [all[n - 1]] && shape == shape[..n - 1] + [y];
    ResolvedLast(all[..n - 1], all[n - 1], shape[..n - 1], y);
    assert pb + [row] + [col] == pb + [row, col];
  }

  lemma TupleParts(l: Lora, es: seq<Entry>) returns (pa: seq<Pick>, pb: seq<Pick>, rows: seq<nat>, cols: seq<nat>)
    requires Wf(l) && TupleLora(l, es).Some? && CutsMatrix(es, |l.b.shape|)
    ensures var n := |l.b.shape|;
      && LeadA(Padded(es, n)[..n - 2], l.a.shape[..n - 2]) == Some(pa)
      && ResolvedAll(Padded(es, n)[..n - 2], l.b.shape[..n - 2]) == Some(pb)
      && TupleLora(l, es).value == Lora(Picked(l.a, pa + [Whole(Rank(l)), Many(cols)]),
                                        Picked(l.b, pb + [Many(rows), Whole(Rank(l))]))
      && TupleDense(Product(l), es) == Some(Picked(Product(l), pb + [Many(rows), Many(cols)]))
  {
    assert es != [];
    hide SliceOf, Axis, LeadA, ResolvedAll, Padded, Picked, Product, TupleLora, TupleDense, Wf;
    var row, col;
    pa, pb, row, col := TuplePicks(l, es);
    DensePicks(l, es, pb, row, col);
    rows, cols := row.sel, col.sel;
  }

  lemma KeptTwo(p: seq<Pick>, x: seq<nat>, y: seq<nat>)
    ensures Kept(p + [Many(x), Many(y)]) == Kept(p) + [|x|, |y|]
  {
    KeptConcat(p, [Many(x)]);
    KeptConcat(p + [Many(x)], [Many(y)]);
    KeptOne(x);
    KeptOne(y);
    hide Kept;
    assert p + [Many(x)] + [Many(y)] == p + [Many(x), Many(y)];
  }

  lemma SourceTwo(p: seq<Pick>, x: seq<nat>, y: seq<nat>, idx: seq<nat>, i: nat, j: nat)
    requires |idx| == |Kept(p)| && i < |x| && j < |y|
    ensures |idx + [i, j]| == |Kept(p + [Many(x), Many(y)])|
    ensures Source(p + [Many(x), Many(y)], idx + [i, j]) == Source(p, idx) + [x[i], y[j]]
  {
    SourceLast(p, x, idx, i);
    SourceLast(p + [Many(x)], y, idx + [i], j);
    hide Source, Kept;
    assert p + [Many(x)] + [Many(y)] == p + [Many(x), Many(y)] && idx + [i] + [j] == idx + [i, j];
  }

  lemma {:induction false} TupleWf(l: Lora, es: seq<Entry>)
    requires Wf(l) && TupleLora(l, es).Some? && CutsMatrix(es, |l.b.shape|)
    ensures Wf(TupleLora(l, es).value) <==> TupleAlike(l, es)
  {
    var n, r := |l.b.shape|, TupleLora(l, es).value;
    var pa, pb, rows, cols := TupleParts(l, es);
    LeadShapes(Padded(es, n)[..n - 2], l.a.shape[..n - 2], l.b.shape[..n - 2]);
    KeptTwo(pa, Range(0, Rank(l)), cols);
    KeptTwo(pb, rows, Range(0, Rank(l)));
    var m := |Kept(pb)|;
    assert r.a.shape == Kept(pa) + [Rank(l), |cols|] && r.b.shape == Kept(pb) + [|rows|, Rank(l)];
    hide TupleLora, LeadA, ResolvedAll, Kept, LeadAlike, BroadcastsTo;
    assert r.a.shape[..m] == Kept(pa) && r.b.shape[..m] == Kept(pb);
  }

  lemma {:induction false} TupleReads(l: Lora, r: Lora, pa: seq<Pick>, pb: seq<Pick>, rows: seq<nat>, cols: seq<nat>,
                                      idx: seq<nat>, k: nat)
    requires Wf(l) && Wf(r) && |pa| == |pb| == |l.b.shape| - 2 && |Kept(pa)| == |Kept(pb)| && k < Rank(l)
    requires r == Lora(Picked(l.a, pa + [Whole(Rank(l)), Many(cols)]), Picked(l.b, pb + [Many(rows), Whole(Rank(l))]))
    requires InRange(idx, Kept(pb) + [|rows|, |cols|])
    requires var lead := idx[..|Kept(pb)|];
      Source(pa, Broadcast(lead, Kept(pa))) == Broadcast(Source(pb, lead), l.a.shape[..|l.b.shape| - 2])
    ensures |idx| == |r.b.shape| && |idx| == |Kept(pb + [Many(rows), Many(cols)])|
    ensures var src := Source(pb + [Many(rows), Many(cols)], idx);
      |src| == |l.b.shape| && RowOf(r, idx)(k) == RowOf(l, src)(k) && ColumnOf(r, idx)(k) == ColumnOf(l, src)(k)
  {
    var n, m := |l.b.shape|, |idx|;
    var lead, i, j := idx[..m - 2], idx[m - 2], idx[m - 1];
    assert idx == lead + [i, j];
    KeptTwo(pa, Range(0, Rank(l)), cols);
    KeptTwo(pb, rows, Range(0, Rank(l)));
    KeptTwo(pb, rows, cols);
    SourceTwo(pb, rows, cols, lead, i, j);
    var src := Source(pb + [Many(rows), Many(cols)], idx);
    ElementReads(r, idx, k);
    ElementReads(l, src, k);
    hide Wf, Dot, Times, Kept, Source, Broadcast, RowOf, ColumnOf;
    assert r.b.elem(BIndex(idx, k)) == l.b.elem(BIndex(src, k)) by {
      SourceTwo(pb, rows, Range(0, Rank(l)), lead, i, k);
      assert BIndex(idx, k) == lead + [i, k] && BIndex(src, k) == Source(pb, lead) + [rows[i], k];
    }
    assert r.a.elem(AIndex(r, idx, k)) == l.a.elem(AIndex(l, src, k)) by {
      SourceTwo(pa, Range(0, Rank(l)), cols, Broadcast(lead, Kept(pa)), k, j);
      assert r.a.shape[..m - 2] == Kept(pa);
      assert AIndex(r, idx, k) == Broadcast(lead, Kept(pa)) + [k, j];
      assert src[..n - 2] == Source(pb, lead);
      assert AIndex(l, src, k) == Broadcast(Source(pb, lead), l.a.shape[..n - 2]) + [k, cols[j]];
    }
  }

  lemma {:induction false} TupleCommutes(l: Lora, es: seq<Entry>)
    requires Wf(l) && TupleLora(l, es).Some? && CutsMatrix(es, |l.b.shape|)
    requires TupleAlike(l, es) && Wf(TupleLora(l, es).value)
    ensures TupleDense(Product(l), es).Some? && Same(Product(TupleLora(l, es).value), TupleDense(Product(l), es).value)
  {
    var n, r := |l.b.shape|, TupleLora(l, es).value;
    var pa, pb, rows, cols := TupleParts(l, es);
    var lead, sa, sb := Padded(es, n)[..n - 2], l.a.shape[..n - 2], l.b.shape[..n - 2];
    hide TupleLora, TupleDense, LeadA, ResolvedAll, Padded, SliceOf;
    LeadShapes(lead, sa, sb);
    var dense := Picked(Product(l), pb + [Many(rows), Many(cols)]);
    TupleShape(l, r, pa, pb, rows, cols);
    hide Wf, Kept, Source, LeadAlike, RowOf, ColumnOf, Dot, Rank, Shape;
    forall idx | InRange(idx, Shape(r))
      ensures Product(r).elem(idx) == dense.elem(idx)
    {
      LeadSources(lead, sa, sb, idx[..|Kept(pb)|]);
      TupleElement(l, r, pa, pb, rows, cols, idx);
    }
  }

  lemma TupleShape(l: Lora, r: Lora, pa: seq<Pick>, pb: seq<Pick>, rows: seq<nat>, cols: seq<nat>)
    requires Wf(l) && Wf(r) && |pa| == |pb| == |l.b.shape| - 2
    requires r == Lora(Picked(l.a, pa + [Whole(Rank(l)), Many(cols)]), Picked(l.b, pb + [Many(rows), Whole(Rank(l))]))
    ensures Rank(r) == Rank(l) && Shape(r) == Kept(pb) + [|rows|, |cols|]
    ensures Shape(r) == Kept(pb + [Many(rows), Many(cols)])
  {
    KeptTwo(pa, Range(0, Rank(l)), cols);
    KeptTwo(pb, rows, Range(0, Rank(l)));
    KeptTwo(pb, rows, cols);
    hide Kept;
  }

  lemma {:induction false} TupleElement(l: Lora, r: Lora, pa: seq<Pick>, pb: seq<Pick>, rows: seq<nat>, cols: seq<nat>,
                                        idx: seq<nat>)
    requires Wf(l) && Wf(r) && |pa| == |pb| == |l.b.shape| - 2 && |Kept(pa)| == |Kept(pb)|
    requires r == Lora(Picked(l.a, pa + [Whole(Rank(l)), Many(cols)]), Picked(l.b, pb + [Many(rows), Whole(Rank(l))]))
    requires InRange(idx, Kept(pb) + [|rows|, |cols|])
    requires var lead := idx[..|Kept(pb)|];
      Source(pa, Broadcast(lead, Kept(pa))) == Broadcast(Source(pb, lead), l.a.shape[..|l.b.shape| - 2])
    ensures Product(r).elem(idx) == Picked(Product(l), pb + [Many(rows), Many(cols)]).elem(idx)
  {
    TupleShape(l, r, pa, pb, rows, cols);
    hide Wf, Kept, Source, Broadcast, RowOf, ColumnOf, Dot;
    TupleReads(l, r, pa, pb, rows, cols, idx, 0);
    var src := Source(pb + [Many(rows), Many(cols)], idx);
    forall k: nat | k < Rank(l)
      ensures RowOf(r, idx)(k) == RowOf(l, src)(k) && ColumnOf(r, idx)(k) == ColumnOf(l, src)(k)
    {
      TupleReads(l, r, pa, pb, rows, cols, idx, k);
    }
    ElementSame(r, idx, l, src);
  }

  lemma {:induction false} SourceInRange(es: seq<Entry>, shape: seq<nat>, idx: seq<nat>)
    requires |es| == |shape| && ResolvedAll(es, shape).Some? && InRange(idx, Kept(ResolvedAll(es, shape).value))
    ensures InRange(Source(ResolvedAll(es, shape).value, idx), shape)
  {
    if es != [] {
      var picks, rest := ResolvedAll(es, shape).value, ResolvedAll(es[1..], shape[1..]).value;
      assert picks[1..] == rest;
      SourceStep(picks, idx);
      var more := if es[0].At? then idx else idx[1..];
      assert InRange(more, Kept(rest));
      assert Here(picks[0], if es[0].At? then 0 else idx[0]) < shape[0];
      hide Source, Kept, Here, ResolvedAll;
      SourceInRange(es[1..], shape[1..], more);
      InRangeCons(Source(picks, idx)[0], Source(rest, more), shape);
    }
  }

  lemma InRangeCons(i: nat, idx: seq<nat>, shape: seq<nat>)
    requires shape != [] && i < shape[0] && InRange(idx, shape[1..])
    ensures InRange([i] + idx, shape)
  {
    assert forall k :: 1 <= k < |shape| ==> shape[k] == shape[1..][k - 1];
  }

  // Equal tensors stay equal.
  lemma TupleSame(t: Tensor, u: Tensor, es: seq<Entry>)
    requires Same(t, u) && TupleDense(t, es).Some?
    ensures TupleDense(u, es).Some? && Same(TupleDense(t, es).value, TupleDense(u, es).value)
  {
    hide ResolvedAll, Padded, Source;
    var all := Padded(es, |t.shape|);
    var picks := ResolvedAll(all, t.shape).value;
    forall idx | InRange(idx, Kept(picks))
      ensures Picked(t, picks).elem(idx) == Picked(u, picks).elem(idx)
    {
      SourceInRange(all, t.shape, idx);
    }
  }

  /** A tuple with slices in the last two places leaves factors that can be multiplied exactly when every leading slice
      takes a whole axis or meets a shared axis of a: the source never slices the leading axes of a. Then the tuple
      commutes with the product. */
  lemma {:induction false} TupleIff(l: Lora, es: seq<Entry>)
    requires Wf(l) && TupleLora(l, es).Some? && CutsMatrix(es, |l.b.shape|)
    ensures Wf(TupleLora(l, es).value) <==> TupleAlike(l, es)
    ensures TupleAlike(l, es) ==>
      TupleDense(Product(l), es).Some? && Same(Product(TupleLora(l, es).value), TupleDense(Product(l), es).value)
  {
    hide TupleLora, TupleDense, LeadAlike, Wf, Same, Product;
    TupleWf(l, es);
    if TupleAlike(l, es) {
      TupleCommutes(l, es);
    }
  }

  // Slices are no errors.
  lemma {:induction false} SlicesResolve(es: seq<Entry>, shape: seq<nat>)
    requires |es| == |shape| && forall i :: 0 <= i < |es| ==> es[i].Cut? && es[i].slice.step > 0
    ensures ResolvedAll(es, shape).Some? && LeadA(es, shape).Some?
  {
    hide SliceOf;
    if es != [] {
      SlicesResolve(es[1..], shape[1..]);
    }
  }

  // l[0:1] with a tuple of one entry, where a has a first axis of its own: b keeps one matrix, a keeps both.
  lemma LeadSliceFails(l: Lora)
    requires Wf(l) && |l.b.shape| == 3 && l.a.shape[0] == l.b.shape[0] == 2
    ensures var es := [Cut(Slice(Some(0), Some(1), 1))];
      CutsMatrix(es, 3) && TupleLora(l, es).Some? && !Wf(TupleLora(l, es).value)
  {
    var first := Slice(Some(0), Some(1), 1);
    var es := [Cut(first)];
    var all := Padded(es, 3);
    SlicesResolve(all[..1], l.a.shape[..1]);
    SlicesResolve(all[..2], l.b.shape[..2]);
    assert SliceOf(first, 2) == [0] by {
      assert Positions(0, 1, 1) == [0] + Positions(1, 1, 1);
    }
    assert all[..1][0] == Cut(first) && l.a.shape[..1][0] == 2 && l.b.shape[..1][0] == 2;
    hide SliceOf, LeadA, ResolvedAll, Wf, Picked;
    TupleIff(l, es);
  }

  // A position in one of the last two places leaves factors with different numbers of axes.
  lemma {:induction false} OnePositionFails(l: Lora, es: seq<Entry>)
    requires Wf(l) && TupleLora(l, es).Some?
    requires var all, n := Padded(es, |l.b.shape|), |l.b.shape|; all[n - 2].At? != all[n - 1].At?
    ensures !Wf(TupleLora(l, es).value)
  {
    var n := |l.b.shape|;
    hide SliceOf, Axis, LeadA, ResolvedAll, LeadAlike, BroadcastsTo, TupleLora, Padded, Kept;
    var pa, pb, row, col := TuplePicks(l, es);
    LeadShapes(Padded(es, n)[..n - 2], l.a.shape[..n - 2], l.b.shape[..n - 2]);
    KeptTail(pa, Whole(Rank(l)), col);
    KeptTail(pb, row, Whole(Rank(l)));
  }

  lemma KeptTail(p: seq<Pick>, x: Pick, y: Pick)
    ensures |Kept(p + [x, y])| == |Kept(p)| + (if x.One? then 0 else 1) + (if y.One? then 0 else 1)
  {
    KeptConcat(p, [x, y]);
    assert [x, y][1..] == [y] && [y][1..] == [];
    assert |Kept([y])| == if y.One? then 0 else 1;
  }

  // Just behind the last slice of a list of entries; 0 if there is none.
  function LastCut(es: seq<Entry>): (k: nat)
    ensures k <= |es| && (k > 0 ==> es[k - 1].Cut?)
  {
    if es == [] then 0 else if es[|es| - 1].Cut? then |es| else LastCut(es[..|es| - 1])
  }

  lemma {:induction false} LeadLast(es: seq<Entry>, e: Entry, shape: seq<nat>, extent: nat)
    requires |es| == |shape|
    ensures var whole, front := LeadA(es + [e], shape + [extent]), LeadA(es, shape);
      && (whole.Some? <==> front.Some? && !(e.At? && extent == 0))
      && (whole.Some? ==> whole.value == front.value + [if e.At? then One(e.position % extent) else Whole(extent)])
  {
    if es == [] {
      assert es + [e] == [e] && shape + [extent] == [extent];
      assert ([e])[1..] == [] && ([extent])[1..] == [];
    } else {
      assert (es + [e])[1..] == es[1..] + [e] && (shape + [extent])[1..] == shape[1..] + [extent];
      LeadLast(es[1..], e, shape[1..], extent);
    }
  }

  // The axes that are kept end with the one of the last slice.
  lemma {:induction false} LeadEnd(es: seq<Entry>, sa: seq<nat>, sb: seq<nat>)
    requires |es| == |sa| == |sb| && LeadA(es, sa).Some? && ResolvedAll(es, sb).Some?
    ensures var k, ka, kb := LastCut(es), Kept(LeadA(es, sa).value), Kept(ResolvedAll(es, sb).value);
      if k == 0 then ka == kb == []
      else
        && LeadA(es[..k - 1], sa[..k - 1]).Some? && ResolvedAll(es[..k - 1], sb[..k - 1]).Some?
        && es[k - 1].slice.step > 0
        && ka == Kept(LeadA(es[..k - 1], sa[..k - 1]).value) + [sa[k - 1]]
        && kb == Kept(ResolvedAll(es[..k - 1], sb[..k - 1]).value) + [|SliceOf(es[k - 1].slice, sb[k - 1])|]
    decreases |es|
  {
    if es != [] {
      var n := |es| - 1;
      var fs, ta, tb, e := es[..n], sa[..n], sb[..n], es[n];
      assert es == fs + [e] && sa == ta + [sa[n]] && sb == tb + [sb[n]];
      hide SliceOf, Axis;
      LeadLast(fs, e, ta, sa[n]);
      ResolvedLast(fs, e, tb, sb[n]);
      var pa, pb := LeadA(fs, ta).value, ResolvedAll(fs, tb).value;
      var last := Resolved(e, sb[n]).value;
      hide LeadA, ResolvedAll;
      KeptLast(pa, if e.At? then One(e.position % sa[n]) else Whole(sa[n]));
      KeptLast(pb, last);
      if e.At? {
        LeadEnd(fs, ta, tb);
        var k := LastCut(fs);
        assert LastCut(es) == k;
        if k > 0 {
          assert fs[..k - 1] == es[..k - 1] && ta[..k - 1] == sa[..k - 1] && tb[..k - 1] == sb[..k - 1];
        }
      }
    }
  }

  lemma KeptLast(p: seq<Pick>, x: Pick)
    ensures Kept(p + [x]) == Kept(p) + (if x.One? then [] else [|x.sel|])
  {
    KeptConcat(p, [x]);
    assert [x][1..] == [];
    assert Kept(p) + [] == Kept(p);
  }

  // The last leading axis that is sliced has as many positions as the rank, and it is taken for the rank; the slices in
  // front of it fit as they do elsewhere.
  predicate AxisForRank(l: Lora, lead: seq<Entry>)
    requires Wf(l) && |lead| == |l.b.shape| - 2
  {
    var k := LastCut(lead);
    && k > 0 && l.a.shape[k - 1] == Rank(l)
    && LeadAlike(lead[..k - 1], l.a.shape[..k - 1], l.b.shape[..k - 1])
  }

  lemma KeptPosition(p: seq<Pick>, x: Pick, y: Pick)
    requires x.One? != y.One?
    ensures Kept(p + [x, y]) == Kept(p) + [|(if x.One? then y else x).sel|]
  {
    KeptLast(p, x);
    KeptLast(p + [x], y);
    assert p + [x] + [y] == p + [x, y];
    hide Kept;
  }

  lemma KeptNeither(p: seq<Pick>, x: Pick, y: Pick)
    requires x.One? && y.One?
    ensures Kept(p + [x, y]) == Kept(p)
  {
    KeptLast(p, x);
    KeptLast(p + [x], y);
    assert p + [x] + [y] == p + [x, y];
    hide Kept;
  }

  // The shapes when both last entries are positions.
  lemma PositionParts(l: Lora, es: seq<Entry>) returns (pa: seq<Pick>, pb: seq<Pick>)
    requires Wf(l) && TupleLora(l, es).Some?
    requires var all, n := Padded(es, |l.b.shape|), |l.b.shape|; all[n - 2].At? && all[n - 1].At?
    ensures var n := |l.b.shape|;
      && LeadA(Padded(es, n)[..n - 2], l.a.shape[..n - 2]) == Some(pa)
      && ResolvedAll(Padded(es, n)[..n - 2], l.b.shape[..n - 2]) == Some(pb)
      && TupleLora(l, es).value.a.shape == Kept(pa) + [Rank(l)]
      && TupleLora(l, es).value.b.shape == Kept(pb) + [Rank(l)]
      && TupleDense(Product(l), es).Some? && TupleDense(Product(l), es).value.shape == Kept(pb)
  {
    assert es != [] && |es| <= |l.b.shape|;
    hide SliceOf, Axis, LeadA, ResolvedAll, Padded, Product, TupleLora, TupleDense, Wf, Kept, Rank;
    var row, col;
    pa, pb, row, col := TuplePicks(l, es);
    DensePicks(l, es, pb, row, col);
    KeptPosition(pa, Whole(Rank(l)), col);
    KeptPosition(pb, row, Whole(Rank(l)));
    KeptNeither(pb, row, col);
  }

  // The last axis that is kept in front of the rank has to have its extent.
  lemma WfOfPair(r: Lora, ka: seq<nat>, x: nat, kb: seq<nat>, y: nat, rank: nat)
    requires r.a.shape == ka + [x] + [rank] && r.b.shape == kb + [y] + [rank] && |ka| == |kb| && rank > 0
    ensures Wf(r) <==> x == rank && BroadcastsTo(ka, kb)
  {
    assert r.a.shape[..|ka|] == ka && r.b.shape[..|kb|] == kb;
    hide BroadcastsTo;
  }

  lemma FrontFits(l: Lora, j: nat)
    requires Wf(l) && j <= |l.b.shape| - 2
    ensures BroadcastsTo(l.a.shape[..j], l.b.shape[..j]) && Rank(l) > 0
  {
    var n := |l.b.shape|;
    assert BroadcastsTo(l.a.shape[..n - 2], l.b.shape[..n - 2]);
  }

  lemma RankAlone(r: Lora, rank: nat)
    requires r.a.shape == [] + [rank] && r.b.shape == [] + [rank]
    ensures !Wf(r)
  {
  }

  lemma {:induction false} PairWf(l: Lora, lead: seq<Entry>, pa: seq<Pick>, pb: seq<Pick>, r: Lora)
    requires Wf(l) && |lead| == |l.b.shape| - 2
    requires LeadA(lead, l.a.shape[..|lead|]) == Some(pa) && ResolvedAll(lead, l.b.shape[..|lead|]) == Some(pb)
    requires r.a.shape == Kept(pa) + [Rank(l)] && r.b.shape == Kept(pb) + [Rank(l)]
    ensures Wf(r) <==> AxisForRank(l, lead)
  {
    var sa, sb, k := l.a.shape[..|lead|], l.b.shape[..|lead|], LastCut(lead);
    hide *;
    FrontFits(l, k);
    LeadEnd(lead, sa, sb);
    AxisIs(l, lead, k);
    if k > 0 {
      var fs, ta, tb := lead[..k - 1], sa[..k - 1], sb[..k - 1];
      FrontFits(l, k - 1);
      LeadShapes(fs, ta, tb);
      WfOfPair(r, Kept(LeadA(fs, ta).value), sa[k - 1], Kept(ResolvedAll(fs, tb).value),
               |SliceOf(lead[k - 1].slice, sb[k - 1])|, Rank(l));
    } else {
      RankAlone(r, Rank(l));
    }
  }

  lemma AxisIs(l: Lora, lead: seq<Entry>, k: nat)
    requires Wf(l) && |lead| == |l.b.shape| - 2 && k == LastCut(lead)
    ensures k <= |lead| && |l.a.shape| == |l.b.shape|
    ensures var sa, sb := l.a.shape[..|lead|], l.b.shape[..|lead|];
      && (k == 0 ==> !AxisForRank(l, lead))
      && (k > 0 ==>
            && sa[..k - 1] == l.a.shape[..k - 1] && sb[..k - 1] == l.b.shape[..k - 1]
            && (AxisForRank(l, lead) <==>
                  sa[k - 1] == Rank(l) && LeadAlike(lead[..k - 1], sa[..k - 1], sb[..k - 1])))
  {
    hide LeadAlike, LastCut, BroadcastsTo;
  }

  /** Positions in both of the last places are accepted if and only if the last leading axis that is sliced happens to
      have the extent of the rank. What is accepted always has one axis too many. */
  lemma {:induction false} BothPositionsIff(l: Lora, es: seq<Entry>)
    requires Wf(l) && TupleLora(l, es).Some?
    requires var all, n := Padded(es, |l.b.shape|), |l.b.shape|; all[n - 2].At? && all[n - 1].At?
    ensures Wf(TupleLora(l, es).value) <==> AxisForRank(l, Padded(es, |l.b.shape|)[..|l.b.shape| - 2])
    ensures TupleDense(Product(l), es).Some?
    ensures |TupleLora(l, es).value.b.shape| == |TupleDense(Product(l), es).value.shape| + 1
  {
    var lead := Padded(es, |l.b.shape|)[..|l.b.shape| - 2];
    hide TupleLora, TupleDense, LeadA, ResolvedAll, Kept, Padded, Product, AxisForRank;
    var pa, pb := PositionParts(l, es);
    PairWf(l, lead, pa, pb, TupleLora(l, es).value);
  }

  // With three axes l[:, i, j] is a matrix then, where the product gives a vector.
  lemma BothPositionsAccepted(l: Lora, i: int, j: int)
    requires Wf(l) && |l.b.shape| == 3 && l.a.shape[0] == Rank(l)
    requires Axis(i, l.b.shape[1]).Some? && Axis(j, l.a.shape[2]).Some?
    ensures var es := [WHOLE, At(i), At(j)];
      && TupleLora(l, es).Some? && Wf(TupleLora(l, es).value) && |Shape(TupleLora(l, es).value)| == 2
      && TupleDense(Product(l), es).Some? && |TupleDense(Product(l), es).value.shape| == 1
  {
    hide SliceOf, Axis, LeadA, ResolvedAll, Kept, Source;
    var es, sa, sb := [WHOLE, At(i), At(j)], l.a.shape, l.b.shape;
    var row, col := Resolved(At(i), sb[1]).value, Resolved(At(j), sa[2]).value;
    assert es[..1] == [WHOLE] && es[..2] == [WHOLE] + [At(i)] && es == es[..2] + [At(j)];
    assert sa[..1] == [sa[0]] && sb[..2] == [sb[0]] + [sb[1]] && Shape(l) == sb[..2] + [sa[2]];
    var lead, first := Whole(sa[0]), Many(SliceOf(Slice(None, None, 1), sb[0]));
    WholeAxis(sa[0]);
    WholeAxis(sb[0]);
    ResolvedLast([WHOLE], At(i), [sb[0]], sb[1]);
    ResolvedLast(es[..2], At(j), sb[..2], sa[2]);
    KeptThree(lead, Whole(Rank(l)), col);
    KeptThree(first, row, Whole(Rank(l)));
    KeptThree(first, row, col);
  }

  lemma WholeAxis(extent: nat)
    ensures LeadA([WHOLE], [extent]) == Some([Whole(extent)])
    ensures ResolvedAll([WHOLE], [extent]) == Some([Many(SliceOf(Slice(None, None, 1), extent))])
  {
    hide SliceOf;
    assert [WHOLE][1..] == [] && [extent][1..] == [];
    var a, b := Whole(extent), Many(SliceOf(Slice(None, None, 1), extent));
    assert [a] + [] == [a] && [b] + [] == [b];
  }

  lemma KeptThree(x: Pick, y: Pick, z: Pick)
    ensures Kept([x] + [y, z]) == Kept([x]) + Kept([y]) + Kept([z])
    ensures [x] + [y] + [z] == [x] + [y, z]
    ensures forall p: Pick :: Kept([p]) == if p.One? then [] else [|p.sel|]
  {
    KeptConcat([x], [y, z]);
    KeptConcat([y], [z]);
    assert [y] + [z] == [y, z];
    forall p: Pick ensures Kept([p]) == if p.One? then [] else [|p.sel|] {
      assert [p][1..] == [];
    }
  }

  // ---------- the ellipsis ----------

  datatype Item = Dots | Plain(entry: Entry)

  function Wholes(n: nat): (r: seq<Entry>)
    ensures |r| == n && forall i :: 0 <= i < n ==> r[i] == WHOLE
  {
    seq(n, _ => WHOLE)
  }

  // A trailing ellipsis is dropped. Any other one becomes as many whole slices as there are other items.
  function Expanded(items: seq<Item>): Option<seq<Entry>> {
    if items == [] then None
    else if items[|items| - 1].Dots? then Expanded(items[..|items| - 1])
    else Some(Spread(items, |items| - 1))
  }

  function Spread(items: seq<Item>, m: nat): seq<Entry> {
    if items == [] then []
    else (if items[0].Dots? then Wholes(m) else [items[0].entry]) + Spread(items[1..], m)
  }

  function Plains(es: seq<Entry>): (r: seq<Item>)
    ensures |r| == |es| && forall i :: 0 <= i < |r| ==> r[i] == Plain(es[i])
  {
    seq(|es|, i requires 0 <= i < |es| => Plain(es[i]))
  }

  lemma {:induction false} SpreadPlains(es: seq<Entry>, more: seq<Item>, m: nat)
    ensures Spread(Plains(es) + more, m) == es + Spread(more, m)
  {
    if es == [] {
      assert Plains(es) + more == more;
    } else {
      assert (Plains(es) + more)[1..] == Plains(es[1..]) + more;
      SpreadPlains(es[1..], more, m);
    }
  }

  lemma {:induction false} ExpandedDots(before: seq<Entry>, after: seq<Entry>)
    ensures var m, r := |before| + |after|, Expanded(Plains(before) + [Dots] + Plains(after));
      if after != [] then r == Some(before + Wholes(m) + after)
      else if before != [] then r == Some(before)
      else r == None
  {
    var m, items := |before| + |after|, Plains(before) + [Dots] + Plains(after);
    if after != [] {
      assert items == Plains(before) + ([Dots] + Plains(after));
      SpreadPlains(before, [Dots] + Plains(after), m);
      assert ([Dots] + Plains(after))[1..] == Plains(after) + [];
      SpreadPlains(after, [], m);
      assert before + (Wholes(m) + (after + [])) == before + Wholes(m) + after;
    } else {
      assert items[..|items| - 1] == Plains(before) + [];
      if before != [] {
        SpreadPlains(before, [], |before| - 1);
        assert before + [] == before;
      }
    }
  }

  // What the tuple stands for: the ellipsis takes the axes that the other entries leave.
  function Meant(before: seq<Entry>, after: seq<Entry>, n: nat): seq<Entry>
    requires |before| + |after| <= n
  {
    before + Wholes(n - |before| - |after|) + after
  }

  predicate AllWhole(es: seq<Entry>) {
    forall i :: 0 <= i < |es| ==> es[i] == WHOLE
  }

  lemma {:induction false} Shifted(after: seq<Entry>, d: nat, i: nat)
    requires d > 0 && after + Wholes(d) == Wholes(d) + after && i < |after|
    ensures after[i] == WHOLE
  {
    assert after[i] == (after + Wholes(d))[i] == (Wholes(d) + after)[i];
    if i >= d {
      Shifted(after, d, i - d);
      assert after[i] == after[i - d];
    }
  }

  /** An ellipsis stands for the missing axes exactly when it is the last item but not the only one, when the other
      items name half of the axes, or when they name fewer and only whole slices follow it. */
  lemma {:induction false} EllipsisIff(before: seq<Entry>, after: seq<Entry>, n: nat)
    requires |before| + |after| <= n
    ensures var m, r := |before| + |after|, Expanded(Plains(before) + [Dots] + Plains(after));
      r.Some? && Padded(r.value, n) == Meant(before, after, n) <==>
        if after == [] then before != [] else n == 2 * m || (n > 2 * m && AllWhole(after))
  {
    ExpandedDots(before, after);
    var m := |before| + |after|;
    hide Expanded, AllWhole;
    if after == [] {
      assert before + Wholes(n - m) + [] == Padded(before, n);
    } else if n > 2 * m {
      var d := n - 2 * m;
      assert Padded(before + Wholes(m) + after, n) == before + Wholes(m) + after + Wholes(d);
      assert Meant(before, after, n) == before + Wholes(m) + Wholes(d) + after;
      SwapWhole(before + Wholes(m), after, d);
    } else if n == 2 * m {
      assert Padded(before + Wholes(m) + after, n) == Meant(before, after, n);
    }
  }

  lemma {:induction false} SwapWhole(head: seq<Entry>, after: seq<Entry>, d: nat)
    requires d > 0
    ensures head + after + Wholes(d) == head + Wholes(d) + after <==> AllWhole(after)
  {
    var got, meant := head + after + Wholes(d), head + Wholes(d) + after;
    if got == meant {
      assert got[|head|..] == after + Wholes(d) && meant[|head|..] == Wholes(d) + after;
      forall i | 0 <= i < |after| ensures after[i] == WHOLE {
        Shifted(after, d, i);
      }
    }
  }

  // l[..., s] with three axes: the slice is taken of the second axis, not of the last one.
  lemma EllipsisMisplaced(s: Slice)
    requires Cut(s) != WHOLE
    ensures var r := Expanded([Dots, Plain(Cut(s))]);
      r.Some? && Padded(r.value, 3) == [WHOLE, Cut(s), WHOLE] && Meant([], [Cut(s)], 3) == [WHOLE, WHOLE, Cut(s)]
  {
    ExpandedDots([], [Cut(s)]);
    assert Plains([]) + [Dots] + Plains([Cut(s)]) == [Dots, Plain(Cut(s))];
    assert [] + Wholes(1) + [Cut(s)] == [WHOLE, Cut(s)];
    assert Padded([WHOLE, Cut(s)], 3) == [WHOLE, Cut(s), WHOLE];
    assert [] + Wholes(2) + [Cut(s)] == [WHOLE, WHOLE, Cut(s)];
  }
}
