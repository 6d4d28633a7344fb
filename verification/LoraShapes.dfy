/** Permuting, reshaping and scaling factored matrices. */
module LoraShapes {
  import opened Text
  import opened Tensors
  import opened Lora

  // ---------- permute and transpose ----------

  function Axes(dims: seq<int>, n: nat): Option<seq<nat>> {
    if dims == [] then Some([])
    else
      var d, more := Axis(dims[0], n), Axes(dims[1..], n);
      if d.None? || more.None? then None else Some([d.value] + more.value)
  }

  predicate AllOnes(shape: seq<nat>) {
    forall i :: 0 <= i < |shape| ==> shape[i] == 1
  }

  // Axes may be permuted when the last one stays and a has no leading axes of its own, or when a matrix is transposed.
  function PermuteLora(l: Lora, dims: seq<int>): Option<Lora>
    requires Wf(l)
  {
    var n := |l.b.shape|;
    var d := Axes(dims, n);
    if d.None? || !IsPermutation(d.value, n) then None
    else if d.value[n - 1] == n - 1 then
      if AllOnes(l.a.shape[..n - 2]) then Some(Lora(l.a, Permute(l.b, d.value))) else None
    else if n == 2 then Some(Lora(Permute(l.b, d.value), Permute(l.a, d.value)))
    else None
  }

  lemma {:induction false} LastStays(idx: seq<nat>, dims: seq<nat>, k: nat)
    requires |idx| == |dims| > 0 && IsPermutation(dims, |dims|) && dims[|dims| - 1] == |dims| - 1
    ensures Unpermuted(idx[..|idx| - 1] + [k], dims) == Unpermuted(idx, dims)[..|dims| - 1] + [k]
    ensures Unpermuted(idx, dims)[|dims| - 1] == idx[|dims| - 1]
  {
    var n := |dims|;
    assert Position(dims, n - 1) == n - 1;
    assert forall j :: 0 <= j < n - 1 ==> Position(dims, j) < n - 1;
  }

  lemma {:induction false} OnesBroadcast(idx: seq<nat>, other: seq<nat>, shape: seq<nat>)
    requires |idx| == |other| == |shape| && AllOnes(shape)
    ensures Broadcast(idx, shape) == Broadcast(other, shape)
  {
  }

  predicate Leads(l: Lora, d: seq<nat>)
    requires Wf(l)
  {
    IsPermutation(d, |l.b.shape|) && d[|d| - 1] == |d| - 1 && AllOnes(l.a.shape[..|d| - 2])
  }

  lemma PermuteLeadWf(l: Lora, d: seq<nat>)
    requires Wf(l) && Leads(l, d)
    ensures var r := Lora(l.a, Permute(l.b, d)); Wf(r) && Rank(r) == Rank(l) && Shape(r) == Permute(Product(l), d).shape
  {
    var n := |d|;
    assert forall i :: 0 <= i < n - 2 ==> l.a.shape[i] == l.a.shape[..n - 2][i];
    assert forall i :: 0 <= i < n - 1 ==> d[i] < n - 1;
    hide Dot;
  }

  lemma PermuteLeadReads(l: Lora, d: seq<nat>, idx: seq<nat>, k: nat)
    requires Wf(l) && Leads(l, d) && Wf(Lora(l.a, Permute(l.b, d))) && |idx| == |d|
    ensures var r, src := Lora(l.a, Permute(l.b, d)), Unpermuted(idx, d);
            RowOf(r, idx)(k) == RowOf(l, src)(k) && ColumnOf(r, idx)(k) == ColumnOf(l, src)(k)
  {
    hide Dot;
    var n, src := |d|, Unpermuted(idx, d);
    ElementReads(Lora(l.a, Permute(l.b, d)), idx, k);
    ElementReads(l, src, k);
    LastStays(idx, d, k);
    OnesBroadcast(idx[..n - 2], src[..n - 2], l.a.shape[..n - 2]);
  }

  lemma {:induction false} PermuteLeadCommutes(l: Lora, d: seq<nat>)
    requires Wf(l) && Leads(l, d)
    ensures var r := Lora(l.a, Permute(l.b, d)); Wf(r) && Same(Product(r), Permute(Product(l), d))
  {
    PermuteLeadWf(l, d);
    hide Wf, Dot, Leads, RowOf, ColumnOf, Unpermuted, Broadcast;
    var r := Lora(l.a, Permute(l.b, d));
    forall idx | InRange(idx, Shape(r))
      ensures Product(r).elem(idx) == Permute(Product(l), d).elem(idx)
    {
      var src := Unpermuted(idx, d);
      forall k: nat | k < Rank(l)
        ensures RowOf(r, idx)(k) == RowOf(l, src)(k) && ColumnOf(r, idx)(k) == ColumnOf(l, src)(k)
      {
        PermuteLeadReads(l, d, idx, k);
      }
      ElementSame(r, idx, l, src);
    }
  }

  // What the two factors of a matrix hold after swapping and transposing them.
  lemma {:induction false} TransposeReads(l: Lora, d: seq<nat>, idx: seq<nat>, k: nat)
    requires Wf(l) && |l.b.shape| == 2 && IsPermutation(d, 2) && d[1] != 1 && |idx| == 2
    ensures var r, src := Lora(Permute(l.b, d), Permute(l.a, d)), [idx[1], idx[0]];
      && Wf(r) && Rank(r) == Rank(l) && Unpermuted(idx, d) == src
      && RowOf(r, idx)(k) == ColumnOf(l, src)(k) && ColumnOf(r, idx)(k) == RowOf(l, src)(k)
  {
    hide Dot, Times;
    var r, src := Lora(Permute(l.b, d), Permute(l.a, d)), [idx[1], idx[0]];
    assert d == [1, 0];
    assert Position(d, 0) == 1 && Position(d, 1) == 0;
    assert Unpermuted(idx, d) == src;
    assert Unpermuted([idx[0], k], d) == [k, idx[0]] && Unpermuted([k, idx[1]], d) == [idx[1], k];
    assert BIndex(idx, k) == [idx[0], k] && AIndex(r, idx, k) == [k, idx[1]];
    assert BIndex(src, k) == [idx[1], k] && AIndex(l, src, k) == [k, idx[0]];
    ElementReads(r, idx, k);
    ElementReads(l, src, k);
  }

  lemma {:induction false} TransposeElement(l: Lora, d: seq<nat>, idx: seq<nat>)
    requires Wf(l) && |l.b.shape| == 2 && IsPermutation(d, 2) && d[1] != 1 && |idx| == 2
    requires Wf(Lora(Permute(l.b, d), Permute(l.a, d)))
    ensures Product(Lora(Permute(l.b, d), Permute(l.a, d))).elem(idx) == Product(l).elem(Unpermuted(idx, d))
  {
    hide Dot, Times, RowOf, ColumnOf, Unpermuted;
    var r, src := Lora(Permute(l.b, d), Permute(l.a, d)), [idx[1], idx[0]];
    TransposeReads(l, d, idx, 0);
    forall k: nat | k < Rank(l)
      ensures RowOf(r, idx)(k) == ColumnOf(l, src)(k) && ColumnOf(r, idx)(k) == RowOf(l, src)(k)
    {
      TransposeReads(l, d, idx, k);
    }
    DotSame(RowOf(r, idx), ColumnOf(r, idx), ColumnOf(l, src), RowOf(l, src), Rank(l));
    DotSwap(RowOf(l, src), ColumnOf(l, src), Rank(l));
  }

  lemma {:induction false} TransposeCommutes(l: Lora, d: seq<nat>)
    requires Wf(l) && |l.b.shape| == 2 && IsPermutation(d, 2) && d[1] != 1
    ensures var r := Lora(Permute(l.b, d), Permute(l.a, d)); Wf(r) && Same(Product(r), Permute(Product(l), d))
  {
    hide Dot, RowOf, ColumnOf, Unpermuted, Position;
    var r := Lora(Permute(l.b, d), Permute(l.a, d));
    assert d[0] == 1 && d[1] == 0;
    assert Wf(r) && Shape(r) == Permute(Product(l), d).shape;
    hide Dot, Times, RowOf, ColumnOf, Product, Unpermuted, Wf;
    ProductShape(r);
    ProductShape(l);
    forall idx | InRange(idx, Shape(r))
      ensures Product(r).elem(idx) == Permute(Product(l), d).elem(idx)
    {
      TransposeElement(l, d, idx);
    }
  }

  /** A supported permutation of axes, in particular transposing a matrix, commutes with the product. */
  lemma PermuteCommutes(l: Lora, dims: seq<int>)
    requires Wf(l) && PermuteLora(l, dims).Some?
    ensures var r := PermuteLora(l, dims).value;
      Wf(r) && Same(Product(r), Permute(Product(l), Axes(dims, |l.b.shape|).value))
  {
    var d := Axes(dims, |l.b.shape|).value;
    if d[|d| - 1] == |d| - 1 {
      PermuteLeadCommutes(l, d);
    } else {
      TransposeCommutes(l, d);
    }
  }

  // Two axes swapped: the identity permutation with two entries exchanged.
  function SwappedDims(n: nat, axis0: nat, axis1: nat): seq<int>
    requires axis0 < n && axis1 < n
  {
    seq(n, i => if i == axis0 then axis1 else if i == axis1 then axis0 else i)
  }

  function TransposeLora(l: Lora, dim0: int, dim1: int): Option<Lora>
    requires Wf(l)
  {
    var n := |l.b.shape|;
    var a0, a1 := Axis(dim0, n), Axis(dim1, n);
    if a0.None? || a1.None? then None else PermuteLora(l, SwappedDims(n, a0.value, a1.value))
  }

  lemma {:induction false} SwappedAxes(dims: seq<int>, n: nat)
    requires forall i :: 0 <= i < |dims| ==> 0 <= dims[i] < n
    ensures Axes(dims, n).Some? && |Axes(dims, n).value| == |dims|
    ensures forall i :: 0 <= i < |dims| ==> Axes(dims, n).value[i] == dims[i]
  {
    if dims != [] {
      SwappedAxes(dims[1..], n);
    }
  }

  /** Transposing two axes swaps two coordinates of every element of the product. */
  lemma {:induction false} TransposeSwaps(l: Lora, dim0: int, dim1: int, src: seq<nat>)
    requires Wf(l) && TransposeLora(l, dim0, dim1).Some? && InRange(src, Shape(l))
    ensures var r := TransposeLora(l, dim0, dim1).value;
      var a0, a1 := Axis(dim0, |src|).value, Axis(dim1, |src|).value;
      Wf(r) && Product(r).elem(src[a0 := src[a1]][a1 := src[a0]]) == Product(l).elem(src)
  {
    hide Dot, Times, RowOf, ColumnOf, Product, IsPermutation, Unpermuted;
    var n := |src|;
    var a0, a1 := Axis(dim0, n).value, Axis(dim1, n).value;
    var dims := SwappedDims(n, a0, a1);
    SwappedAxes(dims, n);
    PermuteCommutes(l, dims);
    ProductShape(l);
    ProductShape(TransposeLora(l, dim0, dim1).value);
    var d := Axes(dims, n).value;
    var idx := seq(|d|, i requires 0 <= i < |d| => src[d[i]]);
    assert idx == src[a0 := src[a1]][a1 := src[a0]];
    PermutedElement(Product(l), d, src);
    assert InRange(idx, Permute(Product(l), d).shape);
  }

  // ---------- reshape ----------

  // The product of the extents that are given.
  function Known(shape: seq<int>): int {
    if shape == [] then 1
    else Known(shape[..|shape| - 1]) * (if shape[|shape| - 1] == -1 then 1 else shape[|shape| - 1])
  }

  function Replaced(shape: seq<int>, d: nat): Option<seq<nat>> {
    if shape == [] then Some([])
    else
      var more := Replaced(shape[1..], d);
      if more.None? || shape[0] < -1 then None else Some([if shape[0] == -1 then d else shape[0]] + more.value)
  }

  // Fills in an extent given as -1.
  function Expand(shape: seq<int>, size: nat): Option<seq<nat>> {
    if -1 !in shape then Replaced(shape, 0)
    else if Known(shape) <= 0 || Rem(size, Known(shape)) != 0 then None
    else Replaced(shape, Quot(size, Known(shape)))
  }

  function Ones(n: nat): (r: seq<nat>)
    ensures |r| == n && AllOnes(r)
  {
    seq(n, i => 1)
  }

  // The row size has to stay; a must not have leading axes of its own, or its reshape fails.
  function ReshapeLora(l: Lora, shape: seq<int>): Option<Lora>
    requires Wf(l)
  {
    var from := Shape(l);
    if |shape| < 2 then None
    else
      var target := Expand(shape, Size(from));
      if target.None? || |target.value| != |shape| then None
      else
        var s := target.value;
        var m, w := |s|, from[|from| - 1];
        var shapeA := Ones(m - 2) + [Rank(l), w];
        var shapeB := s[..m - 1] + [Rank(l)];
        if s[m - 1] != w || Size(shapeA) != Size(l.a.shape) || Size(shapeB) != Size(l.b.shape) then None
        else Some(Lora(Reshape(l.a, shapeA), Reshape(l.b, shapeB)))
  }

  lemma {:induction false} SizeLast(s: seq<nat>, d: nat)
    ensures Size(s + [d]) == Size(s) * d
  {
    assert (s + [d])[..|s|] == s;
  }

  lemma {:induction false} SizeOnes(s: seq<nat>)
    requires AllOnes(s)
    ensures Size(s) == 1
  {
    if s != [] {
      SizeOnes(s[..|s| - 1]);
    }
  }

  lemma {:induction false} SizeOne(s: seq<nat>)
    requires Size(s) == 1
    ensures AllOnes(s)
  {
    if s != [] {
      var n := |s| - 1;
      var a, b := Size(s[..n]), s[n];
      assert a * b == 1;
      OneFactors(a, b);
      SizeOne(s[..n]);
      assert forall i :: 0 <= i < n ==> s[i] == s[..n][i];
    }
  }

  lemma OneFactors(a: nat, b: nat)
    requires a * b == 1
    ensures a == 1 && b == 1
  {
    if a >= 2 {
      MulMonotone(2, a, b);
    }
  }

  lemma {:induction false} Cancel(a: nat, b: nat, d: nat)
    requires a * d == b * d && d > 0
    ensures a == b
  {
    assert (a + 1) * d == a * d + d && (b + 1) * d == b * d + d;
    if a < b {
      MulMonotone(a + 1, b, d);
    } else if b < a {
      MulMonotone(b + 1, a, d);
    }
  }

  lemma {:induction false} ZeroPosition(shape: seq<nat>)
    requires AllOnes(shape)
    ensures Flat(seq(|shape|, i => 0), shape) == 0
    ensures Unflat(0, shape) == seq(|shape|, i => 0)
  {
    if shape != [] {
      var n := |shape| - 1;
      ZeroPosition(shape[..n]);
      assert seq(|shape|, i => 0)[..n] == seq(n, i => 0);
      assert shape[n] == 1;
      assert Quot(0, 1) == 0 && Rem(0, 1) == 0;
    }
  }

  // Position k * w + c is element (k, c) of a matrix, whatever axes of extent 1 come before.
  lemma {:induction false} OnesFlat(ones: seq<nat>, r: nat, w: nat, k: nat, c: nat)
    requires AllOnes(ones) && k < r && c < w
    ensures k * w + c >= 0
    ensures var z := seq(|ones|, i => 0);
      && Flat(z + [k, c], ones + [r, w]) == k * w + c
      && Unflat(k * w + c, ones + [r, w]) == z + [k, c]
  {
    hide Flat, Unflat, Quot, Rem;
    var z := seq(|ones|, i => 0);
    ZeroPosition(ones);
    FlatLast(z, k, ones, r);
    FlatLast(z + [k], c, ones + [r], w);
    assert z + [k] + [c] == z + [k, c] && ones + [r] + [w] == ones + [r, w];
  }

  // An element of a, read through its reshape.
  lemma {:induction false} ReshapedA(l: Lora, m: nat, k: nat, c: nat)
    requires Wf(l) && m >= 2 && AllOnes(l.a.shape[..|l.b.shape| - 2])
    requires k < Rank(l) && c < l.a.shape[|l.b.shape| - 1]
    ensures var w := l.a.shape[|l.b.shape| - 1];
      Reshape(l.a, Ones(m - 2) + [Rank(l), w]).elem(seq(m - 2, i => 0) + [k, c])
      == l.a.elem(seq(|l.b.shape| - 2, i => 0) + [k, c])
  {
    hide Flat, Unflat;
    var n := |l.b.shape|;
    var w, r := l.a.shape[n - 1], Rank(l);
    var lead := l.a.shape[..n - 2];
    OnesFlat(Ones(m - 2), r, w, k, c);
    OnesFlat(lead, r, w, k, c);
    assert lead + [r, w] == l.a.shape;
    ReshapeAt(l.a, Ones(m - 2) + [r, w], seq(m - 2, i => 0) + [k, c]);
  }

  // An element of b, read through its reshape.
  lemma {:induction false} ReshapedB(b: Tensor, s: seq<nat>, idx: seq<nat>, k: nat)
    requires b.shape != [] && |idx| == |s| && k < b.shape[|b.shape| - 1]
    ensures var n := |b.shape| - 1;
      Reshape(b, s + [b.shape[n]]).elem(idx + [k]) == b.elem(Unflat(Flat(idx, s), b.shape[..n]) + [k])
  {
    var n := |b.shape| - 1;
    FlatLast(idx, k, s, b.shape[n]);
    UnflatLast(Flat(idx, s), k, b.shape[..n], b.shape[n]);
    assert b.shape[..n] + [b.shape[n]] == b.shape;
  }

  lemma {:induction false} ReshapeSizes(l: Lora, shape: seq<int>)
    requires Wf(l) && ReshapeLora(l, shape).Some?
    ensures var s := Expand(shape, Size(Shape(l))).value;
      && Wf(ReshapeLora(l, shape).value) && Shape(ReshapeLora(l, shape).value) == s
      && Rank(ReshapeLora(l, shape).value) == Rank(l)
      && Size(s) == Size(Shape(l))
      && (s[|s| - 1] > 0 ==> AllOnes(l.a.shape[..|l.b.shape| - 2]))
  {
    hide Size, Expand, Flat, Unflat;
    var n := |l.b.shape|;
    var s := Expand(shape, Size(Shape(l))).value;
    var m, w, r := |s|, s[|s| - 1], Rank(l);
    var res := ReshapeLora(l, shape).value;
    assert res.a.shape[..m - 2] == Ones(m - 2) && res.b.shape[..m - 1] == s[..m - 1];
    assert s == s[..m - 1] + [w] && l.b.shape == l.b.shape[..n - 1] + [r] && Shape(l) == l.b.shape[..n - 1] + [w];
    SizeLast(s[..m - 1], w);
    SizeLast(s[..m - 1], r);
    SizeLast(l.b.shape[..n - 1], r);
    SizeLast(l.b.shape[..n - 1], w);
    Cancel(Size(s[..m - 1]), Size(l.b.shape[..n - 1]), r);
    if w > 0 {
      var lead := l.a.shape[..n - 2];
      assert Ones(m - 2) + [r, w] == Ones(m - 2) + [r] + [w] && l.a.shape == lead + [r] + [w];
      SizeLast(Ones(m - 2) + [r], w);
      SizeLast(Ones(m - 2), r);
      SizeLast(lead + [r], w);
      SizeLast(lead, r);
      SizeOnes(Ones(m - 2));
      Cancel(Size(lead) * r, r, w);
      Cancel(Size(lead), 1, r);
      SizeOne(lead);
    }
  }

  /** Reshaping with the row size kept commutes with the product, in row-major order. */
  lemma {:induction false} ReshapeCommutes(l: Lora, shape: seq<int>)
    requires Wf(l) && ReshapeLora(l, shape).Some?
    ensures var s := Expand(shape, Size(Shape(l))).value;
      var r := ReshapeLora(l, shape).value;
      Wf(r) && Size(s) == Size(Shape(l)) && Same(Product(r), Reshape(Product(l), s))
  {
    hide Wf, Dot, Flat, Unflat, Size, Expand, Reshape, RowOf, ColumnOf;
    ReshapeSizes(l, shape);
    var s := Expand(shape, Size(Shape(l))).value;
    var r := ReshapeLora(l, shape).value;
    assert Reshape(Product(l), s).shape == s by { ReshapeAt(Product(l), s, []); }
    forall idx | InRange(idx, s)
      ensures Product(r).elem(idx) == Reshape(Product(l), s).elem(idx)
    {
      ReshapeElement(l, shape, s, r, idx);
    }
  }

  lemma ReshapeAt(t: Tensor, s: seq<nat>, idx: seq<nat>)
    ensures Reshape(t, s).shape == s
    ensures |idx| == |s| ==> Reshape(t, s).elem(idx) == t.elem(Unflat(Flat(idx, s), t.shape))
  {
  }

  // The element of the product that a reshaped element comes from.
  lemma {:induction false} ReshapeSource(from: seq<nat>, w: nat, s: seq<nat>, idx: seq<nat>)
    requires s != [] && s[|s| - 1] == w && InRange(idx, s)
    ensures var m := |s|;
      Unflat(Flat(idx, s), from + [w]) == Unflat(Flat(idx[..m - 1], s[..m - 1]), from) + [idx[m - 1]]
  {
    hide Flat, Unflat;
    var m := |s|;
    assert s == s[..m - 1] + [w] && idx == idx[..m - 1] + [idx[m - 1]];
    FlatLast(idx[..m - 1], idx[m - 1], s[..m - 1], w);
    UnflatLast(Flat(idx[..m - 1], s[..m - 1]), idx[m - 1], from, w);
  }

  lemma {:induction false} ReshapeElement(l: Lora, shape: seq<int>, s: seq<nat>, r: Lora, idx: seq<nat>)
    requires Wf(l) && ReshapeLora(l, shape) == Some(r) && Expand(shape, Size(Shape(l))) == Some(s)
    requires Wf(r) && Shape(r) == s && Rank(r) == Rank(l) && InRange(idx, s)
    requires AllOnes(l.a.shape[..|l.b.shape| - 2])
    ensures Product(r).elem(idx) == Reshape(Product(l), s).elem(idx)
  {
    hide Dot, Times, Size, Expand, RowOf, ColumnOf, Flat, Unflat, Reshape;
    var n, m := |l.b.shape|, |s|;
    var lead := Unflat(Flat(idx[..m - 1], s[..m - 1]), l.b.shape[..n - 1]);
    var src := lead + [idx[m - 1]];
    ReshapeSource(l.b.shape[..n - 1], s[m - 1], s, idx);
    ReshapeAt(Product(l), s, idx);
    forall k: nat | k < Rank(l)
      ensures RowOf(r, idx)(k) == RowOf(l, src)(k) && ColumnOf(r, idx)(k) == ColumnOf(l, src)(k)
    {
      ReshapeReads(l, shape, s, r, idx, k);
    }
    ElementSame(r, idx, l, src);
  }

  lemma {:induction false} ReshapeReads(l: Lora, shape: seq<int>, s: seq<nat>, r: Lora, idx: seq<nat>, k: nat)
    requires Wf(l) && ReshapeLora(l, shape) == Some(r) && Expand(shape, Size(Shape(l))) == Some(s)
    requires Wf(r) && Shape(r) == s && Rank(r) == Rank(l) && InRange(idx, s) && k < Rank(l)
    requires AllOnes(l.a.shape[..|l.b.shape| - 2])
    ensures var n, m := |l.b.shape|, |s|;
      var src := Unflat(Flat(idx[..m - 1], s[..m - 1]), l.b.shape[..n - 1]) + [idx[m - 1]];
      RowOf(r, idx)(k) == RowOf(l, src)(k) && ColumnOf(r, idx)(k) == ColumnOf(l, src)(k)
  {
    hide Dot, Times, Size, Expand, RowOf, ColumnOf, Flat, Unflat, Reshape;
    var n, m := |l.b.shape|, |s|;
    var src := Unflat(Flat(idx[..m - 1], s[..m - 1]), l.b.shape[..n - 1]) + [idx[m - 1]];
    ElementReads(r, idx, k);
    ElementReads(l, src, k);
    ReshapedB(l.b, s[..m - 1], idx[..m - 1], k);
    ReshapedA(l, m, k, idx[m - 1]);
    ReshapeAt(l.a, Ones(m - 2) + [Rank(l), s[m - 1]], []);
    assert AIndex(r, idx, k) == seq(m - 2, i => 0) + [k, idx[m - 1]];
    assert AIndex(l, src, k) == seq(n - 2, i => 0) + [k, idx[m - 1]];
  }

  // ---------- scaling ----------

  // Multiplication by a tensor that has one factor for each row, or by a number, which is a tensor without axes.
  // A tensor with more axes than b leaves factors with different numbers of axes.
  function ScaleLora(l: Lora, m: Tensor): Option<Lora>
    requires Wf(l)
  {
    var last := |m.shape| - 1;
    if !Scales(m.shape, l.b.shape) || (m.shape != [] && m.shape[last] != 1) then None
    else Some(Lora(l.a, Scale(l.b, m)))
  }

  lemma {:induction false} ScaleWf(l: Lora, m: Tensor)
    requires Wf(l) && ScaleLora(l, m).Some?
    ensures var r := ScaleLora(l, m).value;
      && Wf(r) && Rank(r) == Rank(l) && Scales(m.shape, Shape(l)) && Shape(r) == ScaledShape(m.shape, Shape(l))
  {
    var n, r := |l.b.shape|, ScaleLora(l, m).value;
    forall i | 0 <= i < n - 2
      ensures r.a.shape[i] == 1 || r.a.shape[i] == r.b.shape[i]
    {
      assert l.a.shape[i] == l.a.shape[..n - 2][i] && l.b.shape[i] == l.b.shape[..n - 2][i];
    }
    assert Shape(r) == ScaledShape(m.shape, Shape(l));
  }

  lemma {:induction false} ScaleReads(l: Lora, m: Tensor, idx: seq<nat>, k: nat)
    requires Wf(l) && ScaleLora(l, m).Some? && Wf(ScaleLora(l, m).value) && k < Rank(l)
    requires InRange(idx, Shape(ScaleLora(l, m).value))
    ensures var r, src := ScaleLora(l, m).value, Broadcast(idx, Shape(l));
      && RowOf(r, idx)(k) == Times(RowOf(l, src)(k), m.elem(Aligned(idx, m.shape)))
      && ColumnOf(r, idx)(k) == ColumnOf(l, src)(k)
  {
    hide Dot, Times;
    var n, r, src := |idx|, ScaleLora(l, m).value, Broadcast(idx, Shape(l));
    ElementReads(r, idx, k);
    ElementReads(l, src, k);
    assert Aligned(BIndex(idx, k), m.shape) == Aligned(idx, m.shape);
    assert Broadcast(BIndex(idx, k), l.b.shape) == BIndex(src, k);
    forall i | 0 <= i < n - 2
      ensures l.a.shape[i] == 1 || src[i] == idx[i]
    {
      assert l.a.shape[i] == l.a.shape[..n - 2][i] && l.b.shape[i] == l.b.shape[..n - 2][i];
    }
    assert AIndex(r, idx, k) == AIndex(l, src, k);
  }

  lemma {:induction false} ScaleElement(l: Lora, m: Tensor, idx: seq<nat>)
    requires Wf(l) && ScaleLora(l, m).Some? && Wf(ScaleLora(l, m).value) && Rank(ScaleLora(l, m).value) == Rank(l)
    requires InRange(idx, Shape(ScaleLora(l, m).value))
    ensures Product(ScaleLora(l, m).value).elem(idx)
            == Times(Product(l).elem(Broadcast(idx, Shape(l))), m.elem(Aligned(idx, m.shape)))
  {
    hide Dot, Times, RowOf, ColumnOf, Broadcast, Aligned;
    var r, src := ScaleLora(l, m).value, Broadcast(idx, Shape(l));
    var c := m.elem(Aligned(idx, m.shape));
    var f, g := RowOf(l, src), ColumnOf(l, src);
    var scaled := (k: nat) => Times(f(k), c);
    forall k: nat | k < Rank(l)
      ensures RowOf(r, idx)(k) == scaled(k) && ColumnOf(r, idx)(k) == g(k)
    {
      ScaleReads(l, m, idx, k);
    }
    DotSame(RowOf(r, idx), ColumnOf(r, idx), scaled, g, Rank(l));
    DotScale(f, g, c, Rank(l));
  }

  /** Scaling the rows of b scales the rows of the product. */
  lemma {:induction false} ScaleCommutes(l: Lora, m: Tensor)
    requires Wf(l) && ScaleLora(l, m).Some?
    ensures var r := ScaleLora(l, m).value;
      Wf(r) && Scales(m.shape, Shape(l)) && Same(Product(r), Scale(Product(l), m))
  {
    var r := ScaleLora(l, m).value;
    ScaleWf(l, m);
    hide Dot, Times, RowOf, ColumnOf, Product, Broadcast, Aligned, ScaleLora, Wf, ScaledShape;
    ProductShape(r);
    ProductShape(l);
    forall idx | InRange(idx, Shape(r))
      ensures Product(r).elem(idx) == Scale(Product(l), m).elem(idx)
    {
      ScaleElement(l, m, idx);
    }
  }
}
