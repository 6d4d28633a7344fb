/** What the operations on tensors and factors do, element by element: which positions are meant, and where they go. */
module LoraMeaning {
  import opened Text
  import opened Tensors
  import opened Lora
  import opened LoraShapes
  import opened LoraTuples

  // ---------- slices ----------

  function Steps(k: nat, step: nat): nat {
    if k == 0 then 0 else Steps(k - 1, step) + step
  }

  lemma {:induction false} StepsMultiply(k: nat, step: nat)
    ensures Steps(k, step) == k * step
  {
    if k > 0 {
      StepsMultiply(k - 1, step);
      assert k * step == (k - 1) * step + step;
    }
  }

  lemma {:induction false} StepsGrow(i: nat, j: nat, step: nat)
    requires i < j && step > 0
    ensures Steps(i, step) < Steps(j, step)
  {
    if i + 1 < j {
      StepsGrow(i, j - 1, step);
    }
  }

  lemma {:induction false} StepsBack(k: nat, step: nat)
    requires k > 0
    ensures Steps(k, step) == step + Steps(k - 1, step)
  {
    if k > 1 {
      StepsBack(k - 1, step);
    }
  }

  /** The listed positions are whole steps apart, and no further one fits. */
  lemma {:induction false} PositionsAre(from: nat, to: nat, step: nat, k: nat)
    requires step > 0
    ensures var r := Positions(from, to, step);
      && (k < |r| ==> r[k] == from + Steps(k, step))
      && from + Steps(|r|, step) >= to
    decreases if from < to then to - from else 0
  {
    if from < to {
      PositionsAre(from + step, to, step, if k > 0 then k - 1 else 0);
      StepsBack(|Positions(from, to, step)|, step);
      if k > 0 {
        StepsBack(k, step);
      }
    }
  }

  // Where a slice of an axis of extent n begins; a negative bound counts from the end.
  function SliceStart(s: Slice, n: nat): nat {
    match s.start
    case None => 0
    case Some(b) => if b >= 0 then b else if n + b < 0 then 0 else n + b
  }

  predicate InSlice(s: Slice, n: nat, i: nat) {
    && i < n && SliceStart(s, n) <= i
    && match s.stop
       case None => true
       case Some(b) => if b >= 0 then i < b else i < n + b
  }

  ghost predicate IsMultiple(d: int, step: nat) {
    exists k: nat :: d == Steps(k, step)
  }

  predicate IsIncreasing(r: seq<nat>) {
    forall j, k :: 0 <= j < k < |r| ==> r[j] < r[k]
  }

  lemma {:induction false} PositionsIncrease(from: nat, to: nat, step: nat)
    requires step > 0
    ensures IsIncreasing(Positions(from, to, step))
  {
    var r := Positions(from, to, step);
    hide Positions, Steps;
    forall j, k | 0 <= j < k < |r| ensures r[j] < r[k] {
      PositionsAre(from, to, step, j);
      PositionsAre(from, to, step, k);
      StepsGrow(j, k, step);
    }
  }

  lemma {:induction false} PositionsTake(from: nat, to: nat, step: nat, i: nat)
    requires step > 0 && from <= i < to && IsMultiple(i - from, step)
    ensures i in Positions(from, to, step)
  {
    var r := Positions(from, to, step);
    hide Positions, Steps;
    var k: nat :| i - from == Steps(k, step);
    PositionsAre(from, to, step, k);
    if k > |r| {
      StepsGrow(|r|, k, step);
    }
    assert r[k] == i;
  }

  lemma {:induction false} PositionsTaken(from: nat, to: nat, step: nat, i: nat)
    requires step > 0 && i in Positions(from, to, step)
    ensures from <= i < to && IsMultiple(i - from, step)
  {
    var r := Positions(from, to, step);
    var k :| 0 <= k < |r| && r[k] == i;
    PositionsAre(from, to, step, k);
  }

  lemma Bounds(s: Slice, n: nat, from: nat, to: nat, i: nat)
    requires from == if s.start.None? then 0 else Clamp(s.start.value, n)
    requires to == if s.stop.None? then n else Clamp(s.stop.value, n)
    ensures InSlice(s, n, i) <==> from <= i < to
    ensures InSlice(s, n, i) ==> SliceStart(s, n) == from
  {
  }

  /** A slice takes exactly the positions between its bounds that are a multiple of the step behind its start, in
      increasing order. */
  lemma {:induction false} SliceTakes(s: Slice, n: nat, i: nat)
    requires s.step > 0
    ensures i in SliceOf(s, n) <==> InSlice(s, n, i) && IsMultiple(i - SliceStart(s, n), s.step)
    ensures IsIncreasing(SliceOf(s, n))
  {
    var from := if s.start.None? then 0 else Clamp(s.start.value, n);
    var to := if s.stop.None? then n else Clamp(s.stop.value, n);
    Bounds(s, n, from, to, i);
    var r := Positions(from, to, s.step);
    assert SliceOf(s, n) == r;
    hide Positions, SliceOf, InSlice, SliceStart, Clamp, IsMultiple, IsIncreasing;
    PositionsIncrease(from, to, s.step);
    if i in r {
      PositionsTaken(from, to, s.step, i);
    } else if InSlice(s, n, i) && IsMultiple(i - SliceStart(s, n), s.step) {
      PositionsTake(from, to, s.step, i);
    }
  }

  lemma {:induction false} TwoSteps(k: nat)
    ensures Steps(k, 2) == 2 * k
  {
    if k > 0 {
      TwoSteps(k - 1);
    }
  }

  /** Every second position, beginning with the first and with the second one: together they are the axis. */
  lemma {:induction false} HalvesTile(n: nat)
    ensures var even, odd := SliceOf(Slice(None, None, 2), n), SliceOf(Slice(Some(1), None, 2), n);
      && |even| + |odd| == n && |odd| <= |even| <= |odd| + 1
      && (forall k :: 0 <= k < |even| ==> even[k] == 2 * k)
      && (forall k :: 0 <= k < |odd| ==> odd[k] == 2 * k + 1)
  {
    var even, odd := SliceOf(Slice(None, None, 2), n), SliceOf(Slice(Some(1), None, 2), n);
    forall k | 0 <= k < |even| ensures even[k] == 2 * k {
      PositionsAre(0, n, 2, k);
      TwoSteps(k);
    }
    var from := Clamp(1, n);
    forall k | 0 <= k < |odd| ensures odd[k] == 2 * k + 1 {
      PositionsAre(from, n, 2, k);
      TwoSteps(k);
    }
    TwoSteps(|even|);
    TwoSteps(|odd|);
    PositionsAre(0, n, 2, 0);
    PositionsAre(from, n, 2, 0);
    if |even| > 0 {
      assert even[|even| - 1] < n;
    }
    if |odd| > 0 {
      assert odd[|odd| - 1] < n;
    }
  }

  lemma TakenAt(s: Slice, n: nat, k: nat)
    requires s.step > 0 && k < |SliceOf(s, n)|
    ensures SliceOf(s, n)[k] == SliceStart(s, n) + Steps(k, s.step) < n
  {
    var from := if s.start.None? then 0 else Clamp(s.start.value, n);
    var to := if s.stop.None? then n else Clamp(s.stop.value, n);
    PositionsAre(from, to, s.step, k);
    Bounds(s, n, from, to, SliceOf(s, n)[k]);
    hide Positions, Steps, Clamp, SliceStart;
  }

  /** Row i of a sliced product is the row of the product that lies i steps behind the start. */
  lemma {:induction false} SliceRows(l: Lora, s: Slice, idx: seq<nat>)
    requires Wf(l) && s.step > 0 && SlicesAlike(l, s) && Wf(SliceFirst(l, s))
    requires InRange(idx, Shape(SliceFirst(l, s)))
    ensures var i := SliceStart(s, Shape(l)[0]) + Steps(idx[0], s.step);
      i < Shape(l)[0] && Product(SliceFirst(l, s)).elem(idx) == Product(l).elem(idx[0 := i])
  {
    hide SlicesAlike, SliceFirst, SliceOf, SliceStart, Steps, Wf, RowOf, ColumnOf, Dot;
    SliceFirstIff(l, s);
    ProductShape(l);
    ProductShape(SliceFirst(l, s));
    var n := Shape(l)[0];
    hide Product, Shape;
    TakenAt(s, n, idx[0]);
  }

  // ---------- chunks and axes ----------

  /** Fixed-size chunks are full, except for the last one, which is not empty. */
  lemma {:induction false} EveryChunk(extent: nat, size: nat, start: nat, i: nat)
    requires start <= extent && extent > 0 && Chunks(extent, Every(size), start).Some?
    requires i < |Chunks(extent, Every(size), start).value|
    ensures var cs := Chunks(extent, Every(size), start).value;
      if i + 1 < |cs| then |cs[i]| == size else 0 < |cs[i]| <= size
    decreases extent - start
  {
    var cs := Chunks(extent, Every(size), start).value;
    var next := start + |cs[0]|;
    if i > 0 {
      EveryChunk(extent, size, next, i - 1);
    }
  }

  /** Chunks of given sizes have these sizes. */
  lemma {:induction false} SizedChunk(extent: nat, sizes: seq<nat>, start: nat, i: nat)
    requires Chunks(extent, Sizes(sizes), start).Some?
    ensures var cs := Chunks(extent, Sizes(sizes), start).value; |cs| == |sizes| && (i < |cs| ==> |cs[i]| == sizes[i])
    decreases |sizes|
  {
    if sizes != [] {
      SizedChunk(extent, sizes[1..], start + sizes[0], if i > 0 then i - 1 else 0);
    }
  }

  /** An axis given as a number is that one, counted from the end if the number is negative. */
  lemma AxisMeant(dim: int, n: nat)
    ensures Axis(dim, n).Some? <==> 0 <= dim + n && dim < n
    ensures Axis(dim, n).Some? ==> Axis(dim, n).value - dim == if dim < 0 then n else 0
  {
  }

  // ---------- the product ----------

  lemma {:induction false} DotNothing(f: nat -> real, g: nat -> real, n: nat)
    requires forall k: nat :: k < n ==> g(k) == 0.0
    ensures Dot(f, g, n) == 0.0
  {
    if n > 0 {
      DotNothing(f, g, n - 1);
      assert Times(f(n - 1), 0.0) == 0.0;
    }
  }

  // A sum in which one factor is 1 at j and 0 elsewhere is the other factor at j.
  lemma {:induction false} DotUnit(f: nat -> real, g: nat -> real, j: nat, n: nat)
    requires j < n && forall k: nat :: k < n ==> g(k) == if k == j then 1.0 else 0.0
    ensures Dot(f, g, n) == f(j)
  {
    if j == n - 1 {
      DotNothing(f, g, n - 1);
      assert Times(f(j), 1.0) == f(j);
    } else {
      DotUnit(f, g, j, n - 1);
      assert Times(f(n - 1), 0.0) == 0.0;
    }
  }

  // Sums of factors are summed.
  lemma {:induction false} DotAdd(f: nat -> real, g: nat -> real, h: nat -> real, n: nat)
    ensures Dot(f, (k: nat) => g(k) + h(k), n) == Dot(f, g, n) + Dot(f, h, n)
  {
    if n > 0 {
      DotAdd(f, g, h, n - 1);
      assert Times(f(n - 1), g(n - 1) + h(n - 1)) == Times(f(n - 1), g(n - 1)) + Times(f(n - 1), h(n - 1));
    }
  }

  // The matrix with 1 on the diagonal.
  predicate IsIdentity(t: Tensor) {
    && |t.shape| == 2 && t.shape[0] == t.shape[1]
    && forall i: nat, j: nat :: i < t.shape[0] && j < t.shape[0] ==> t.elem([i, j]) == if i == j then 1.0 else 0.0
  }

  /** Multiplying with the identity, on either side, gives the other factor. */
  lemma {:induction false} IdentityProduct(l: Lora)
    requires Wf(l) && |l.b.shape| == 2
    ensures IsIdentity(l.b) ==> Same(Product(l), l.a)
    ensures IsIdentity(l.a) ==> Same(Product(l), l.b)
  {
    hide Dot, RowOf, ColumnOf;
    if IsIdentity(l.b) {
      forall idx | InRange(idx, l.a.shape) ensures Product(l).elem(idx) == l.a.elem(idx) {
        LeftIdentity(l, idx);
      }
    }
    if IsIdentity(l.a) {
      forall idx | InRange(idx, l.b.shape) ensures Product(l).elem(idx) == l.b.elem(idx) {
        RightIdentity(l, idx);
      }
    }
  }

  lemma LeftIdentity(l: Lora, idx: seq<nat>)
    requires Wf(l) && |l.b.shape| == 2 && IsIdentity(l.b) && InRange(idx, l.a.shape)
    ensures Product(l).elem(idx) == l.a.elem(idx)
  {
    hide Dot, RowOf, ColumnOf;
    IdentityReads(l, idx);
    DotSwap(RowOf(l, idx), ColumnOf(l, idx), Rank(l));
    DotUnit(ColumnOf(l, idx), RowOf(l, idx), idx[0], Rank(l));
  }

  lemma RightIdentity(l: Lora, idx: seq<nat>)
    requires Wf(l) && |l.b.shape| == 2 && IsIdentity(l.a) && InRange(idx, l.b.shape)
    ensures Product(l).elem(idx) == l.b.elem(idx)
  {
    hide Dot, RowOf, ColumnOf;
    IdentityReads(l, idx);
    DotUnit(RowOf(l, idx), ColumnOf(l, idx), idx[1], Rank(l));
  }

  lemma IdentityReads(l: Lora, idx: seq<nat>)
    requires Wf(l) && |l.b.shape| == 2 && |idx| == 2
    ensures forall k: nat :: RowOf(l, idx)(k) == l.b.elem([idx[0], k]) && ColumnOf(l, idx)(k) == l.a.elem([k, idx[1]])
    ensures idx == [idx[0], idx[1]]
  {
    hide Dot;
    forall k: nat ensures RowOf(l, idx)(k) == l.b.elem([idx[0], k]) && ColumnOf(l, idx)(k) == l.a.elem([k, idx[1]]) {
      ElementReads(l, idx, k);
      assert BIndex(idx, k) == [idx[0], k] && AIndex(l, idx, k) == [k, idx[1]];
    }
  }

  // ---------- reshaping, scaling and joining ----------

  /** Row-major order: the first coordinate counts whole blocks of everything behind it. */
  lemma {:induction false} FlatFirst(i: nat, idx: seq<nat>, d: nat, shape: seq<nat>)
    requires |idx| == |shape|
    ensures Flat([i] + idx, [d] + shape) == i * Size(shape) + Flat(idx, shape)
  {
    if shape == [] {
      assert [i] + idx == [i] && [d] + shape == [d];
      assert [i][..0] == [] && [d][..0] == [];
    } else {
      var n := |shape| - 1;
      assert ([i] + idx)[..n + 1] == [i] + idx[..n] && ([d] + shape)[..n + 1] == [d] + shape[..n];
      FlatFirst(i, idx[..n], d, shape[..n]);
      var s, f, e := Size(shape[..n]), Flat(idx[..n], shape[..n]), shape[n];
      assert (i * s + f) * e == i * (s * e) + f * e;
    }
  }

  /** A reshape keeps the extents that are given, and as many elements. */
  lemma {:induction false} ReplacedIs(shape: seq<int>, d: nat)
    requires Replaced(shape, d).Some?
    ensures var r := Replaced(shape, d).value;
      |r| == |shape| && forall i :: 0 <= i < |r| ==> r[i] == if shape[i] == -1 then d else shape[i]
  {
    if shape != [] {
      ReplacedIs(shape[1..], d);
    }
  }

  /** Scaling lines up the last axes: a scale without axes of extent 1 multiplies the elements with the same last
      coordinates. */
  lemma ScaledElement(t: Tensor, m: Tensor, lead: seq<nat>, tail: seq<nat>)
    requires Scales(m.shape, t.shape) && |tail| == |m.shape| && |lead| + |tail| == |t.shape|
    requires 1 !in m.shape && 1 !in t.shape
    ensures Scale(t, m).elem(lead + tail) == t.elem(lead + tail) * m.elem(tail)
  {
    var idx := lead + tail;
    assert Broadcast(idx, t.shape) == idx;
    assert idx[|idx| - |m.shape|..] == tail;
    assert Broadcast(tail, m.shape) == tail;
  }

  /** Pieces are joined one behind the other. */
  lemma {:induction false} LocateAt(extents: seq<nat>, k: nat, j: nat)
    requires k < |extents| && j < extents[k]
    ensures Total(extents[..k]) + j < Total(extents)
    ensures Locate(extents, Total(extents[..k]) + j) == (k, j)
  {
    if k > 0 {
      assert extents[..k][0] == extents[0] && extents[..k][1..] == extents[1..][..k - 1];
      LocateAt(extents[1..], k - 1, j);
    }
  }

  // ---------- tuples and stacks ----------

  // How many of the picks keep their axis.
  function KeptBefore(picks: seq<Pick>): nat {
    if picks == [] then 0 else (if picks[0].Many? then 1 else 0) + KeptBefore(picks[1..])
  }

  lemma RestInRange(idx: seq<nat>, d: nat, shape: seq<nat>)
    requires InRange(idx, [d] + shape)
    ensures idx != [] && idx[0] < d && InRange(idx[1..], shape)
  {
    forall i | 0 <= i < |shape| ensures idx[1..][i] < shape[i] {
      assert ([d] + shape)[i + 1] == shape[i] && idx[1..][i] == idx[i + 1];
    }
  }

  // The first pick takes its coordinate and leaves the others to the rest.
  lemma SourceFirst(picks: seq<Pick>, idx: seq<nat>) returns (more: seq<nat>)
    requires picks != [] && InRange(idx, Kept(picks))
    ensures more == (if picks[0].One? then idx else idx[1..]) && InRange(more, Kept(picks[1..]))
    ensures picks[0].Many? ==> idx != [] && idx[0] < |picks[0].sel|
    ensures Source(picks, idx) ==
            [if picks[0].One? then picks[0].at else picks[0].sel[idx[0]]] + Source(picks[1..], more)
  {
    if picks[0].One? {
      assert Kept(picks) == Kept(picks[1..]);
      more := idx;
    } else {
      assert Kept(picks) == [|picks[0].sel|] + Kept(picks[1..]);
      RestInRange(idx, |picks[0].sel|, Kept(picks[1..]));
      more := idx[1..];
    }
    hide Kept, InRange;
  }

  lemma KeptFirst(picks: seq<Pick>, j: nat)
    requires 0 < j <= |picks|
    ensures KeptBefore(picks[..j]) == (if picks[0].Many? then 1 else 0) + KeptBefore(picks[1..][..j - 1])
    ensures KeptBefore(picks[..0]) == 0
  {
    assert picks[..j][1..] == picks[1..][..j - 1];
  }

  predicate IsSource(picks: seq<Pick>, idx: seq<nat>, j: nat, x: nat)
    requires j < |picks|
  {
    match picks[j]
    case One(at) => x == at
    case Many(sel) => var k := KeptBefore(picks[..j]); k < |idx| && idx[k] < |sel| && x == sel[idx[k]]
  }

  /** A position fixes its own coordinate, and a slice lists the coordinates of its axis for the next coordinate of the
      result. */
  lemma {:induction false} SourceAt(picks: seq<Pick>, idx: seq<nat>, j: nat)
    requires InRange(idx, Kept(picks)) && j < |picks|
    ensures IsSource(picks, idx, j, Source(picks, idx)[j])
    decreases |picks|
  {
    hide InRange, Kept, Source, KeptBefore;
    var more := SourceFirst(picks, idx);
    if j > 0 {
      KeptFirst(picks, j);
      SourceAt(picks[1..], more, j - 1);
    } else {
      KeptFirst(picks, |picks|);
    }
  }

  /** What was stacked is found by its number. */
  lemma StackedAt(ts: seq<Tensor>, i: nat)
    requires i < |ts| && forall j :: 0 <= j < |ts| ==> ts[j].shape == ts[0].shape
    ensures Same(Index(Stack(ts), i), ts[i])
  {
    forall idx | InRange(idx, ts[i].shape) ensures Index(Stack(ts), i).elem(idx) == ts[i].elem(idx) {
      assert ([i] + idx)[1..] == idx;
    }
  }
}
