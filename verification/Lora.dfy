/** A low-rank matrix kept as two factors: every operation works on the factors alone and has to give the same
    tensor as the operation on their product. */
module Lora {
  import opened Text
  import opened Tensors

  // The factors: a has shape (lead, rank, row size), b has shape (lead, column size, rank).
  datatype Lora = Lora(a: Tensor, b: Tensor)

  // As many axes on both sides, a positive rank in common, and leading axes of a that broadcast over those of b.
  predicate Wf(l: Lora) {
    var n := |l.b.shape|;
    && n >= 2 && |l.a.shape| == n
    && l.a.shape[n - 2] == l.b.shape[n - 1] > 0
    && BroadcastsTo(l.a.shape[..n - 2], l.b.shape[..n - 2])
  }

  function Rank(l: Lora): nat
    requires Wf(l)
  {
    l.b.shape[|l.b.shape| - 1]
  }

  function Shape(l: Lora): (r: seq<nat>)
    requires Wf(l)
    ensures |r| == |l.b.shape|
  {
    l.b.shape[..|l.b.shape| - 1] + [l.a.shape[|l.a.shape| - 1]]
  }

  // The sum of f(k) * g(k) for k below n.
  function Dot(f: nat -> real, g: nat -> real, n: nat): real {
    if n == 0 then 0.0 else Dot(f, g, n - 1) + Times(f(n - 1), g(n - 1))
  }

  lemma {:induction false} DotSame(f: nat -> real, g: nat -> real, f': nat -> real, g': nat -> real, n: nat)
    requires forall k: nat :: k < n ==> f(k) == f'(k) && g(k) == g'(k)
    ensures Dot(f, g, n) == Dot(f', g', n)
  {
    hide Times;
    if n > 0 {
      DotSame(f, g, f', g', n - 1);
    }
  }

  lemma {:induction false} DotScale(f: nat -> real, g: nat -> real, c: real, n: nat)
    ensures Dot((k: nat) => Times(f(k), c), g, n) == Times(Dot(f, g, n), c)
  {
    if n > 0 {
      DotScale(f, g, c, n - 1);
      var x, y := f(n - 1), g(n - 1);
      assert (x * c) * y == (x * y) * c;
      assert (Dot(f, g, n - 1) + x * y) * c == Dot(f, g, n - 1) * c + (x * y) * c;
    }
  }

  lemma {:induction false} DotSwap(f: nat -> real, g: nat -> real, n: nat)
    ensures Dot(f, g, n) == Dot(g, f, n)
  {
    if n > 0 {
      DotSwap(f, g, n - 1);
    }
  }

  // The row of b and the column of a that make up one element of the product.
  function RowOf(l: Lora, idx: seq<nat>): nat -> real
    requires Wf(l) && |idx| == |l.b.shape|
  {
    (k: nat) => l.b.elem(idx[..|idx| - 1] + [k])
  }

  function ColumnOf(l: Lora, idx: seq<nat>): nat -> real
    requires Wf(l) && |idx| == |l.b.shape|
  {
    var n := |idx|;
    (k: nat) => l.a.elem(Broadcast(idx[..n - 2], l.a.shape[..n - 2]) + [k, idx[n - 1]])
  }

  // The materialised product of the factors.
  function Product(l: Lora): Tensor
    requires Wf(l)
  {
    Tensor(Shape(l), idx => if |idx| == |l.b.shape| then Dot(RowOf(l, idx), ColumnOf(l, idx), Rank(l)) else 0.0)
  }

  lemma ProductShape(l: Lora)
    requires Wf(l)
    ensures Product(l).shape == Shape(l)
  {
  }

  // Elements agree when the rows and columns they come from do.
  lemma ElementSame(r: Lora, idx: seq<nat>, l: Lora, src: seq<nat>)
    requires Wf(r) && Wf(l) && |idx| == |r.b.shape| && |src| == |l.b.shape| && Rank(r) == Rank(l)
    requires forall k: nat :: k < Rank(l) ==>
               RowOf(r, idx)(k) == RowOf(l, src)(k) && ColumnOf(r, idx)(k) == ColumnOf(l, src)(k)
    ensures Product(r).elem(idx) == Product(l).elem(src)
  {
    hide Wf, RowOf, ColumnOf, Rank;
    DotSame(RowOf(r, idx), ColumnOf(r, idx), RowOf(l, src), ColumnOf(l, src), Rank(l));
  }

  // The indices at which an element of the product reads the two factors.
  function BIndex(idx: seq<nat>, k: nat): seq<nat>
    requires |idx| >= 2
  {
    idx[..|idx| - 1] + [k]
  }

  function AIndex(l: Lora, idx: seq<nat>, k: nat): seq<nat>
    requires Wf(l) && |idx| == |l.b.shape|
  {
    var n := |idx|;
    Broadcast(idx[..n - 2], l.a.shape[..n - 2]) + [k, idx[n - 1]]
  }

  lemma ElementReads(l: Lora, idx: seq<nat>, k: nat)
    requires Wf(l) && |idx| == |l.b.shape|
    ensures RowOf(l, idx)(k) == l.b.elem(BIndex(idx, k))
    ensures ColumnOf(l, idx)(k) == l.a.elem(AIndex(l, idx, k))
  {
  }

  // ---------- selection along one axis ----------

  function SelectAxis(l: Lora, axis: nat, sel: seq<nat>): Lora
    requires Wf(l) && axis < |l.b.shape|
  {
    var n := |l.b.shape|;
    if axis == n - 1 then Lora(Select(l.a, axis, sel), l.b)
    else if axis == n - 2 || l.a.shape[axis] == 1 then Lora(l.a, Select(l.b, axis, sel))
    else Lora(Select(l.a, axis, sel), Select(l.b, axis, sel))
  }

  lemma {:induction false} SelectWf(l: Lora, axis: nat, sel: seq<nat>)
    requires Wf(l) && axis < |l.b.shape|
    ensures var r := SelectAxis(l, axis, sel);
      Wf(r) && Rank(r) == Rank(l) && Shape(r) == Shape(l)[axis := |sel|]
  {
    var n := |l.b.shape|;
    var r := SelectAxis(l, axis, sel);
    if axis < n - 2 {
      assert r.b.shape[..n - 2] == l.b.shape[..n - 2][axis := |sel|];
      if l.a.shape[axis] != 1 {
        assert r.a.shape[..n - 2] == l.a.shape[..n - 2][axis := |sel|];
      }
    } else {
      assert r.b.shape[..n - 2] == l.b.shape[..n - 2] && r.a.shape[..n - 2] == l.a.shape[..n - 2];
    }
  }

  // An element of the selection reads b where the selected element does.
  lemma {:induction false} SelectRow(l: Lora, axis: nat, sel: seq<nat>, idx: seq<nat>, k: nat)
    requires Wf(l) && axis < |l.b.shape| && InRange(idx, Shape(l)[axis := |sel|])
    ensures SelectAxis(l, axis, sel).b.elem(BIndex(idx, k)) == l.b.elem(BIndex(idx[axis := sel[idx[axis]]], k))
  {
    var n := |idx|;
    var src := idx[axis := sel[idx[axis]]];
    if axis < n - 1 {
      assert BIndex(idx, k)[axis := sel[idx[axis]]] == BIndex(src, k);
      assert BIndex(idx, k)[axis] == idx[axis];
    } else {
      assert BIndex(idx, k) == BIndex(src, k);
    }
  }

  lemma {:induction false} SelectColumn(l: Lora, axis: nat, sel: seq<nat>, idx: seq<nat>, k: nat)
    requires Wf(l) && axis < |l.b.shape| && InRange(idx, Shape(l)[axis := |sel|]) && Wf(SelectAxis(l, axis, sel))
    ensures SelectAxis(l, axis, sel).a.elem(AIndex(SelectAxis(l, axis, sel), idx, k))
            == l.a.elem(AIndex(l, idx[axis := sel[idx[axis]]], k))
  {
    var n := |idx|;
    var r := SelectAxis(l, axis, sel);
    var src := idx[axis := sel[idx[axis]]];
    var from, to := AIndex(r, idx, k), AIndex(l, src, k);
    if axis == n - 1 || (axis < n - 2 && l.a.shape[axis] != 1) {
      assert from[axis] == idx[axis];
      assert from[axis := sel[idx[axis]]] == to;
    } else {
      assert from == to;
    }
  }

  lemma {:induction false} SelectCommutes(l: Lora, axis: nat, sel: seq<nat>)
    requires Wf(l) && axis < |l.b.shape|
    ensures Wf(SelectAxis(l, axis, sel)) && Same(Product(SelectAxis(l, axis, sel)), Select(Product(l), axis, sel))
  {
    hide SelectAxis, Wf, RowOf, ColumnOf, BIndex, AIndex, Dot, Rank;
    SelectWf(l, axis, sel);
    var r := SelectAxis(l, axis, sel);
    forall idx | InRange(idx, Shape(r))
      ensures Product(r).elem(idx) == Select(Product(l), axis, sel).elem(idx)
    {
      var src := idx[axis := sel[idx[axis]]];
      forall k: nat | k < Rank(l)
        ensures RowOf(r, idx)(k) == RowOf(l, src)(k) && ColumnOf(r, idx)(k) == ColumnOf(l, src)(k)
      {
        ElementReads(r, idx, k);
        ElementReads(l, src, k);
        SelectRow(l, axis, sel, idx, k);
        SelectColumn(l, axis, sel, idx, k);
      }
      ElementSame(r, idx, l, src);
    }
  }

  // ---------- splitting and slicing ----------

  datatype SplitSize = Every(size: nat) | Sizes(sizes: seq<nat>)

  function Range(start: nat, len: nat): (r: seq<nat>)
    ensures |r| == len && forall k :: 0 <= k < len ==> r[k] == start + k
  {
    seq(len, (k: nat) => start + k)
  }

  // The positions of every chunk of an axis: fixed-size chunks with a shorter last one, or chunks of given sizes. An
  // empty axis is one empty chunk of any fixed size.
  function Chunks(extent: nat, split: SplitSize, start: nat): Option<seq<seq<nat>>>
    decreases if split.Sizes? then |split.sizes| else if start < extent then extent - start else 0
  {
    match split
    case Every(size) =>
      if extent == 0 then Some([[]])
      else if size == 0 then None
      else if start >= extent then Some([])
      else
        var len := if extent - start < size then extent - start else size;
        var more := Chunks(extent, split, start + len);
        if more.None? then None else Some([Range(start, len)] + more.value)
    case Sizes(sizes) =>
      if sizes == [] then (if start == extent then Some([]) else None)
      else
        var more := Chunks(extent, Sizes(sizes[1..]), start + sizes[0]);
        if more.None? then None else Some([Range(start, sizes[0])] + more.value)
  }

  // Negative axes count from the end.
  function Axis(dim: int, n: nat): Option<nat> {
    var d := if dim < 0 then dim + n else dim;
    if 0 <= d < n then Some(d) else None
  }

  function SelectAll(l: Lora, axis: nat, chunks: seq<seq<nat>>): (r: seq<Lora>)
    requires Wf(l) && axis < |l.b.shape|
    ensures |r| == |chunks| && forall i :: 0 <= i < |r| ==> r[i] == SelectAxis(l, axis, chunks[i])
  {
    if chunks == [] then [] else [SelectAxis(l, axis, chunks[0])] + SelectAll(l, axis, chunks[1..])
  }

  // The chunks are taken from one factor, or from both for a leading axis that a has as well.
  function Split(l: Lora, split: SplitSize, dim: int): Option<seq<Lora>>
    requires Wf(l)
  {
    var axis := Axis(dim, |l.b.shape|);
    if axis.None? then None
    else
      var chunks := Chunks(Shape(l)[axis.value], split, 0);
      if chunks.None? then None else Some(SelectAll(l, axis.value, chunks.value))
  }

  /** The i-th piece of a split is the split of the product at the i-th chunk, on every axis. */
  lemma SplitCommutes(l: Lora, split: SplitSize, dim: int, i: nat)
    requires Wf(l) && Split(l, split, dim).Some? && i < |Split(l, split, dim).value|
    ensures var axis := Axis(dim, |l.b.shape|).value;
      var piece := Split(l, split, dim).value[i];
      Wf(piece) && Same(Product(piece), Select(Product(l), axis, Chunks(Shape(l)[axis], split, 0).value[i]))
  {
    hide Wf, Chunks;
    var axis := Axis(dim, |l.b.shape|).value;
    SelectCommutes(l, axis, Chunks(Shape(l)[axis], split, 0).value[i]);
  }

  // The chunks tile the axis: together they list every position once, in order.
  function Joined(chunks: seq<seq<nat>>): seq<nat> {
    if chunks == [] then [] else chunks[0] + Joined(chunks[1..])
  }

  lemma {:induction false} ChunksTile(extent: nat, split: SplitSize, start: nat)
    requires start <= extent || split.Sizes?
    requires Chunks(extent, split, start).Some?
    ensures start <= extent && Joined(Chunks(extent, split, start).value) == Range(start, extent - start)
    decreases if split.Sizes? then |split.sizes| else if start < extent then extent - start else 0
  {
    var cs := Chunks(extent, split, start).value;
    if split.Every? && extent == 0 {
      assert Joined(cs) == Range(start, 0);
    } else if cs != [] {
      var rest := if split.Every? then split else Sizes(split.sizes[1..]);
      var next := start + |cs[0]|;
      ChunksTile(extent, rest, next);
      assert cs == [cs[0]] + Chunks(extent, rest, next).value;
      assert Range(start, next - start) + Range(next, extent - next) == Range(start, extent - start);
    }
  }

  // A slice without or with a positive step, with bounds clamped the way Python does.
  datatype Slice = Slice(start: Option<int>, stop: Option<int>, step: nat)

  function Clamp(bound: int, n: nat): nat {
    var b := if bound < 0 then bound + n else bound;
    if b < 0 then 0 else if b > n then n else b
  }

  function Positions(from: nat, to: nat, step: nat): (r: seq<nat>)
    requires step > 0
    ensures forall i :: 0 <= i < |r| ==> from <= r[i] < to
    ensures |r| > 0 <==> from < to
    decreases if from < to then to - from else 0
  {
    if from >= to then [] else [from] + Positions(from + step, to, step)
  }

  function SliceOf(s: Slice, n: nat): (r: seq<nat>)
    requires s.step > 0
    ensures IsSelection(r, n)
  {
    Positions(if s.start.None? then 0 else Clamp(s.start.value, n),
              if s.stop.None? then n else Clamp(s.stop.value, n), s.step)
  }

  lemma SelectSame(t: Tensor, u: Tensor, axis: nat, sel: seq<nat>)
    requires Same(t, u) && axis < |t.shape| && IsSelection(sel, t.shape[axis])
    ensures Same(Select(t, axis, sel), Select(u, axis, sel))
  {
    forall idx | InRange(idx, Select(t, axis, sel).shape)
      ensures Select(t, axis, sel).elem(idx) == Select(u, axis, sel).elem(idx)
    {
      assert InRange(idx[axis := sel[idx[axis]]], t.shape);
    }
  }

  // l[slice]: with more than two axes both factors are sliced along their own first axis, with two axes only b is.
  function SliceFirst(l: Lora, s: Slice): Lora
    requires Wf(l) && s.step > 0
  {
    var b := Select(l.b, 0, SliceOf(s, l.b.shape[0]));
    if |l.b.shape| > 2 then Lora(Select(l.a, 0, SliceOf(s, l.a.shape[0])), b) else Lora(l.a, b)
  }

  // The slice selects as many positions of a as it should: a has the whole axis, or its only position is taken.
  predicate SlicesAlike(l: Lora, s: Slice)
    requires Wf(l) && s.step > 0
  {
    |l.b.shape| > 2 ==> l.a.shape[0] == l.b.shape[0] || |SliceOf(s, 1)| == 1 || |SliceOf(s, l.b.shape[0])| == 0
  }

  /** Slicing the first axis leaves factors that can be multiplied exactly when there are two axes or the slice treats
      the first axes of both factors alike; then it commutes with the product. A shared a of extent 1 is emptied by
      any slice that does not contain position 0. */
  lemma {:induction false} SliceFirstIff(l: Lora, s: Slice)
    requires Wf(l) && s.step > 0
    ensures Wf(SliceFirst(l, s)) <==> SlicesAlike(l, s)
    ensures SlicesAlike(l, s) ==>
      Same(Product(SliceFirst(l, s)), Select(Product(l), 0, SliceOf(s, Shape(l)[0])))
  {
    if |l.b.shape| == 2 {
      SelectCommutes(l, 0, SliceOf(s, l.b.shape[0]));
    } else {
      SliceFirstWf(l, s);
      if SlicesAlike(l, s) {
        SliceFirstCommutes(l, s);
      }
    }
  }

  lemma {:induction false} SliceFirstWf(l: Lora, s: Slice)
    requires Wf(l) && |l.b.shape| > 2 && s.step > 0
    ensures Wf(SliceFirst(l, s)) <==> SlicesAlike(l, s)
  {
    hide SliceOf;
    var n := |l.b.shape|;
    var r := SliceFirst(l, s);
    var sa, sb := SliceOf(s, l.a.shape[0]), SliceOf(s, l.b.shape[0]);
    SliceOne(s);
    assert r.a.shape[..n - 2] == l.a.shape[..n - 2][0 := |sa|] && r.b.shape[..n - 2] == l.b.shape[..n - 2][0 := |sb|];
    assert l.a.shape[0] == l.a.shape[..n - 2][0] && l.b.shape[0] == l.b.shape[..n - 2][0];
    assert r.a.shape[..n - 2][0] == |sa| && r.b.shape[..n - 2][0] == |sb|;
  }

  lemma {:induction false} SliceFirstCommutes(l: Lora, s: Slice)
    requires Wf(l) && |l.b.shape| > 2 && s.step > 0 && SlicesAlike(l, s) && Wf(SliceFirst(l, s))
    ensures Same(Product(SliceFirst(l, s)), Select(Product(l), 0, SliceOf(s, Shape(l)[0])))
  {
    hide SliceOf, Wf, Rank, RowOf, ColumnOf, Dot;
    var n := |l.b.shape|;
    var r := SliceFirst(l, s);
    var sb := SliceOf(s, l.b.shape[0]);
    SliceOne(s);
    SelectCommutes(l, 0, sb);
    FirstExtents(l);
    var viaAxis := SelectAxis(l, 0, sb);
    if |sb| == 0 {
      assert Shape(r) == Shape(l)[0 := 0];
    } else if l.a.shape[0] == 1 {
      SharedSelect(l, r, viaAxis);
    } else {
      assert r == viaAxis;
    }
  }

  // l[1:] of two matrices that share a: b keeps its second matrix, a keeps nothing.
  lemma SharedSliceFails(l: Lora)
    requires Wf(l) && |l.b.shape| > 2 && l.a.shape[0] == 1 && l.b.shape[0] == 2
    ensures !Wf(SliceFirst(l, Slice(Some(1), None, 1)))
  {
    var s := Slice(Some(1), None, 1);
    assert Positions(1, 2, 1) == [1] + Positions(2, 2, 1);
    assert SliceOf(s, 1) == [] && SliceOf(s, 2) == [1];
    SliceFirstWf(l, s);
  }

  lemma FirstExtents(l: Lora)
    requires Wf(l) && |l.b.shape| > 2
    ensures |l.a.shape| == |l.b.shape| && (l.a.shape[0] == 1 || l.a.shape[0] == l.b.shape[0])
    ensures Shape(l)[0] == l.b.shape[0]
  {
    var n := |l.b.shape|;
    assert l.a.shape[0] == l.a.shape[..n - 2][0] && l.b.shape[0] == l.b.shape[..n - 2][0];
  }

  lemma SliceOne(s: Slice)
    requires s.step > 0
    ensures |SliceOf(s, 1)| <= 1
    ensures |SliceOf(s, 1)| == 1 ==> SliceOf(s, 1) == [0]
  {
  }

  // Selecting the only position of a shared factor changes nothing.
  lemma {:induction false} SharedSelect(l: Lora, r: Lora, q: Lora)
    requires Wf(l) && Wf(r) && Wf(q) && |l.b.shape| > 2 && l.a.shape[0] == 1
    requires r == Lora(Select(l.a, 0, [0]), q.b) && q.a == l.a
    ensures Same(Product(r), Product(q))
  {
    assert r.a.shape == q.a.shape;
    hide RowOf, ColumnOf, Dot;
    forall idx | InRange(idx, Shape(r))
      ensures Product(r).elem(idx) == Product(q).elem(idx)
    {
      forall k: nat | k < Rank(q)
        ensures RowOf(r, idx)(k) == RowOf(q, idx)(k) && ColumnOf(r, idx)(k) == ColumnOf(q, idx)(k)
      {
        SharedSelectReads(l, r, q, idx, k);
      }
      ElementSame(r, idx, q, idx);
    }
  }

  lemma SharedSelectReads(l: Lora, r: Lora, q: Lora, idx: seq<nat>, k: nat)
    requires Wf(l) && Wf(r) && Wf(q) && |l.b.shape| > 2 && l.a.shape[0] == 1 && |idx| == |q.b.shape|
    requires r == Lora(Select(l.a, 0, [0]), q.b) && q.a == l.a && r.a.shape == q.a.shape
    ensures RowOf(r, idx)(k) == RowOf(q, idx)(k) && ColumnOf(r, idx)(k) == ColumnOf(q, idx)(k)
  {
    hide Dot;
    ElementReads(r, idx, k);
    ElementReads(q, idx, k);
    assert AIndex(r, idx, k) == AIndex(q, idx, k);
    assert AIndex(q, idx, k)[0] == 0;
    assert AIndex(q, idx, k)[0 := 0] == AIndex(q, idx, k);
  }

  // l[i] with more than two axes; negative positions count from the end, in either factor by its own extent. A position
  // that one of the factors does not have raises an error.
  function IndexFirst(l: Lora, i: int): Option<Lora>
    requires Wf(l)
  {
    if |l.b.shape| <= 2 then None
    else
      var atA, atB := Axis(i, l.a.shape[0]), Axis(i, l.b.shape[0]);
      if atA.None? || atB.None? then None else Some(Lora(Index(l.a, atA.value), Index(l.b, atB.value)))
  }

  lemma {:induction false} IndexReads(l: Lora, i: int, idx: seq<nat>, k: nat)
    requires Wf(l) && IndexFirst(l, i).Some? && |idx| == |l.b.shape| - 1
    ensures var r, src := IndexFirst(l, i).value, [Axis(i, l.b.shape[0]).value] + idx;
      && Wf(r) && Rank(r) == Rank(l) && Shape(r) == Shape(l)[1..]
      && RowOf(r, idx)(k) == RowOf(l, src)(k) && ColumnOf(r, idx)(k) == ColumnOf(l, src)(k)
  {
    hide Dot;
    var n := |l.b.shape|;
    var atA, atB := Axis(i, l.a.shape[0]).value, Axis(i, l.b.shape[0]).value;
    var r, src := IndexFirst(l, i).value, [atB] + idx;
    assert r.a.shape[..n - 3] == l.a.shape[..n - 2][1..] && r.b.shape[..n - 3] == l.b.shape[..n - 2][1..];
    assert l.a.shape[0] == l.a.shape[..n - 2][0];
    ElementReads(r, idx, k);
    ElementReads(l, src, k);
    assert [atB] + BIndex(idx, k) == BIndex(src, k);
    assert [atA] + AIndex(r, idx, k) == AIndex(l, src, k);
  }

  /** Taking one position of the first axis of both factors takes it from the product. */
  lemma {:induction false} IndexCommutes(l: Lora, i: int)
    requires Wf(l) && IndexFirst(l, i).Some?
    ensures Wf(IndexFirst(l, i).value) && Axis(i, Shape(l)[0]).Some?
    ensures Same(Product(IndexFirst(l, i).value), Index(Product(l), Axis(i, Shape(l)[0]).value))
  {
    FirstExtents(l);
    var at := Axis(i, l.b.shape[0]).value;
    hide Dot, Wf, RowOf, ColumnOf, Rank, Axis;
    var r := IndexFirst(l, i).value;
    IndexReads(l, i, seq(|l.b.shape| - 1, _ => 0), 0);
    forall idx | InRange(idx, Shape(r))
      ensures Product(r).elem(idx) == Index(Product(l), at).elem(idx)
    {
      var src := [at] + idx;
      forall k: nat | k < Rank(l)
        ensures RowOf(r, idx)(k) == RowOf(l, src)(k) && ColumnOf(r, idx)(k) == ColumnOf(l, src)(k)
      {
        IndexReads(l, i, idx, k);
      }
      ElementSame(r, idx, l, src);
    }
  }
}
