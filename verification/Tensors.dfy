/** Dense tensors over an exact ring, with the tensor operations that the adapter converter relies on. */
module Tensors {
  datatype Tensor = Tensor(shape: seq<nat>, elem: seq<nat> -> real)

  predicate InRange(idx: seq<nat>, shape: seq<nat>) {
    |idx| == |shape| && forall i :: 0 <= i < |shape| ==> idx[i] < shape[i]
  }

  // Equal shapes and equal elements.
  ghost predicate Same(t: Tensor, u: Tensor) {
    t.shape == u.shape && forall idx :: InRange(idx, t.shape) ==> t.elem(idx) == u.elem(idx)
  }

  lemma SameTrans(t: Tensor, u: Tensor, v: Tensor)
    requires Same(t, u) && Same(u, v)
    ensures Same(t, v)
  {
  }

  // ---------- row-major order ----------

  function Size(shape: seq<nat>): nat {
    if shape == [] then 1 else Size(shape[..|shape| - 1]) * shape[|shape| - 1]
  }

  // The position of an element in row-major order.
  function Flat(idx: seq<nat>, shape: seq<nat>): nat
    requires |idx| == |shape|
  {
    if shape == [] then 0
    else Flat(idx[..|idx| - 1], shape[..|shape| - 1]) * shape[|shape| - 1] + idx[|idx| - 1]
  }

  // The element at a position. Empty axes get index 0; they have no positions.
  function Unflat(p: nat, shape: seq<nat>): (r: seq<nat>)
    ensures |r| == |shape|
    decreases |shape|
  {
    if shape == [] then []
    else
      var d := shape[|shape| - 1];
      if d == 0 then seq(|shape|, i => 0)
      else Unflat(Quot(p, d), shape[..|shape| - 1]) + [Rem(p, d)]
  }

  // Quotient and remainder, by repeated subtraction.
  function Quot(p: nat, d: nat): (q: nat)
    requires d > 0
    decreases p
  {
    if p < d then 0 else 1 + Quot(p - d, d)
  }

  function Rem(p: nat, d: nat): (r: nat)
    requires d > 0
    ensures r < d
  {
    if p < d then p else Rem(p - d, d)
  }

  lemma {:induction false} QuotRem(p: nat, d: nat)
    requires d > 0
    ensures p == Quot(p, d) * d + Rem(p, d)
  {
    if p >= d {
      QuotRem(p - d, d);
      var q := Quot(p - d, d);
      assert (1 + q) * d == q * d + d;
    }
  }

  lemma {:induction false} DivMod(q: nat, k: nat, d: nat)
    requires k < d
    ensures q * d + k >= 0 && Quot(q * d + k, d) == q && Rem(q * d + k, d) == k
  {
    if q > 0 {
      DivMod(q - 1, k, d);
      assert q * d == (q - 1) * d + d;
      assert (q - 1) * d >= 0;
    }
  }

  // The last axis splits off on both sides.
  lemma {:induction false} FlatLast(idx: seq<nat>, k: nat, shape: seq<nat>, d: nat)
    requires |idx| == |shape| && k < d
    ensures Flat(idx + [k], shape + [d]) == Flat(idx, shape) * d + k
    ensures Unflat(Flat(idx, shape) * d + k, shape + [d]) == Unflat(Flat(idx, shape), shape) + [k]
  {
    assert (idx + [k])[..|idx|] == idx && (shape + [d])[..|shape|] == shape;
    DivMod(Flat(idx, shape), k, d);
  }

  lemma {:induction false} UnflatLast(p: nat, k: nat, shape: seq<nat>, d: nat)
    requires k < d
    ensures Unflat(p * d + k, shape + [d]) == Unflat(p, shape) + [k]
  {
    assert (shape + [d])[..|shape|] == shape;
    DivMod(p, k, d);
  }

  lemma {:induction false} FlatBound(idx: seq<nat>, shape: seq<nat>)
    requires InRange(idx, shape)
    ensures Flat(idx, shape) < Size(shape)
  {
    if shape != [] {
      var n := |shape| - 1;
      FlatBound(idx[..n], shape[..n]);
      var a, s, d := Flat(idx[..n], shape[..n]), Size(shape[..n]), shape[n];
      assert a * d + idx[n] < (a + 1) * d <= s * d;
    }
  }

  lemma MulMonotone(s: nat, q: nat, d: nat)
    requires s <= q
    ensures s * d <= q * d
  {
    assert q * d == s * d + (q - s) * d;
    assert (q - s) * d >= 0;
  }

  lemma {:induction false} UnflatInRange(p: nat, shape: seq<nat>)
    requires p < Size(shape)
    ensures InRange(Unflat(p, shape), shape)
  {
    if shape != [] {
      var n := |shape| - 1;
      var d, s := shape[n], Size(shape[..n]);
      assert d > 0;
      QuotRem(p, d);
      if s <= Quot(p, d) {
        MulMonotone(s, Quot(p, d), d);
      }
      UnflatInRange(Quot(p, d), shape[..n]);
    }
  }

  // Reading positions off and counting them again gives the index back.
  lemma {:induction false} UnflatFlat(idx: seq<nat>, shape: seq<nat>)
    requires InRange(idx, shape)
    ensures Unflat(Flat(idx, shape), shape) == idx
  {
    if shape != [] {
      var n := |shape| - 1;
      UnflatFlat(idx[..n], shape[..n]);
      DivMod(Flat(idx[..n], shape[..n]), idx[n], shape[n]);
      assert idx[..n] + [idx[n]] == idx;
    }
  }

  // ---------- operations ----------

  function Reshape(t: Tensor, shape: seq<nat>): Tensor {
    Tensor(shape, idx => if |idx| == |shape| then t.elem(Unflat(Flat(idx, shape), t.shape)) else 0.0)
  }

  // Where dims lists axis j.
  function Position(dims: seq<nat>, j: nat): (r: nat)
    requires j in dims
    ensures r < |dims| && dims[r] == j
  {
    if dims[0] == j then 0 else 1 + Position(dims[1..], j)
  }

  predicate IsPermutation(dims: seq<nat>, n: nat) {
    && |dims| == n
    && (forall i :: 0 <= i < n ==> dims[i] < n)
    && (forall i, j :: 0 <= i < j < n ==> dims[i] != dims[j])
    && (forall j :: 0 <= j < n ==> j in dims)
  }

  // The index before permuting, given the one after.
  function Unpermuted(idx: seq<nat>, dims: seq<nat>): (r: seq<nat>)
    requires |idx| == |dims| && IsPermutation(dims, |dims|)
    ensures |r| == |dims|
  {
    seq(|dims|, j requires 0 <= j < |dims| => idx[Position(dims, j)])
  }

  function Permute(t: Tensor, dims: seq<nat>): Tensor
    requires IsPermutation(dims, |t.shape|)
  {
    Tensor(seq(|dims|, i requires 0 <= i < |dims| => t.shape[dims[i]]),
           idx => if |idx| == |dims| then t.elem(Unpermuted(idx, dims)) else 0.0)
  }

  lemma {:induction false} UnpermutedInRange(t: Tensor, dims: seq<nat>, idx: seq<nat>)
    requires IsPermutation(dims, |t.shape|) && InRange(idx, Permute(t, dims).shape)
    ensures InRange(Unpermuted(idx, dims), t.shape)
  {
  }

  // The element at src moves to the index that lists the coordinates of src in the order of dims.
  lemma {:induction false} PermutedElement(t: Tensor, dims: seq<nat>, src: seq<nat>)
    requires IsPermutation(dims, |t.shape|) && |src| == |t.shape|
    ensures Permute(t, dims).elem(seq(|dims|, i requires 0 <= i < |dims| => src[dims[i]])) == t.elem(src)
  {
    var idx := seq(|dims|, i requires 0 <= i < |dims| => src[dims[i]]);
    assert Unpermuted(idx, dims) == src;
  }

  // The listed positions along one axis: a slice, a chunk or any other selection.
  function Select(t: Tensor, axis: nat, sel: seq<nat>): Tensor
    requires axis < |t.shape|
  {
    Tensor(t.shape[axis := |sel|],
           idx => if axis < |idx| && idx[axis] < |sel| then t.elem(idx[axis := sel[idx[axis]]]) else 0.0)
  }

  predicate IsSelection(sel: seq<nat>, extent: nat) {
    forall i :: 0 <= i < |sel| ==> sel[i] < extent
  }

  // One position of the first axis, which disappears.
  function Index(t: Tensor, i: nat): Tensor
    requires t.shape != []
  {
    Tensor(t.shape[1..], idx => t.elem([i] + idx))
  }

  // An index into a tensor whose axes may have extent 1.
  function Broadcast(idx: seq<nat>, shape: seq<nat>): (r: seq<nat>)
    requires |idx| == |shape|
    ensures |r| == |idx|
  {
    seq(|idx|, i requires 0 <= i < |idx| => if shape[i] == 1 then 0 else idx[i])
  }

  predicate BroadcastsTo(small: seq<nat>, shape: seq<nat>) {
    |small| == |shape| && forall i :: 0 <= i < |shape| ==> small[i] == 1 || small[i] == shape[i]
  }

  function Times(x: real, y: real): real {
    x * y
  }

  // Multiplication element by element lines up the last axes and repeats axes of extent 1 on either side.
  predicate Scales(m: seq<nat>, shape: seq<nat>) {
    && |m| <= |shape|
    && forall i :: 0 <= i < |m| ==>
         var d := shape[|shape| - |m| + i];
         m[i] == 1 || d == 1 || m[i] == d
  }

  function ScaledShape(m: seq<nat>, shape: seq<nat>): (r: seq<nat>)
    requires Scales(m, shape)
    ensures |r| == |shape|
  {
    var d := |shape| - |m|;
    seq(|shape|, i requires 0 <= i < |shape| => if i < d || shape[i] != 1 then shape[i] else m[i - d])
  }

  // The index into the last axes.
  function Aligned(idx: seq<nat>, m: seq<nat>): (r: seq<nat>)
    requires |m| <= |idx|
    ensures |r| == |m|
  {
    Broadcast(idx[|idx| - |m|..], m)
  }

  function Scale(t: Tensor, m: Tensor): Tensor
    requires Scales(m.shape, t.shape)
  {
    Tensor(ScaledShape(m.shape, t.shape),
           idx => if |idx| == |t.shape| then Times(t.elem(Broadcast(idx, t.shape)), m.elem(Aligned(idx, m.shape)))
                  else 0.0)
  }

  function Stack(ts: seq<Tensor>): Tensor
    requires ts != []
  {
    Tensor([|ts| as nat] + ts[0].shape, idx => if idx != [] && idx[0] < |ts| then ts[idx[0]].elem(idx[1..]) else 0.0)
  }

  function Extents(ts: seq<Tensor>): (r: seq<nat>)
    requires forall i :: 0 <= i < |ts| ==> ts[i].shape != []
    ensures |r| == |ts|
  {
    seq(|ts|, i requires 0 <= i < |ts| => ts[i].shape[0])
  }

  function Total(extents: seq<nat>): nat {
    if extents == [] then 0 else extents[0] + Total(extents[1..])
  }

  // Extents that are nowhere larger and have the same total are the same.
  lemma {:induction false} TotalEqual(a: seq<nat>, b: seq<nat>)
    requires |a| == |b| && forall i :: 0 <= i < |a| ==> a[i] <= b[i]
    ensures Total(a) <= Total(b) && (Total(a) == Total(b) ==> a == b)
  {
    if a != [] {
      TotalEqual(a[1..], b[1..]);
      assert a == [a[0]] + a[1..] && b == [b[0]] + b[1..];
    }
  }

  // Which piece position i of a concatenation falls into, and where there.
  function Locate(extents: seq<nat>, i: nat): (r: (nat, nat))
    requires i < Total(extents)
    ensures r.0 < |extents| && r.1 < extents[r.0]
  {
    if i < extents[0] then (0, i)
    else
      var r := Locate(extents[1..], i - extents[0]);
      (r.0 + 1, r.1)
  }

  function Concat(ts: seq<Tensor>): Tensor
    requires ts != [] && forall i :: 0 <= i < |ts| ==> ts[i].shape != []
  {
    var extents := Extents(ts);
    Tensor([Total(extents)] + ts[0].shape[1..],
           (idx: seq<nat>) => if idx != [] && idx[0] < Total(extents) then
                    var at := Locate(extents, idx[0]);
                    ts[at.0].elem(idx[0 := at.1])
                  else 0.0)
  }
}
