/** Stacking and joining factored matrices, and whole expressions over them. */
module LoraExpressions {
  import opened Text
  import opened Tensors
  import opened Lora
  import opened LoraShapes
  import opened LoraTuples

  // ---------- stack and concatenation ----------

  function FactorsA(ls: seq<Lora>): (r: seq<Tensor>)
    ensures |r| == |ls| && forall i :: 0 <= i < |r| ==> r[i] == ls[i].a
  {
    seq(|ls|, i requires 0 <= i < |ls| => ls[i].a)
  }

  function FactorsB(ls: seq<Lora>): (r: seq<Tensor>)
    ensures |r| == |ls| && forall i :: 0 <= i < |r| ==> r[i] == ls[i].b
  {
    seq(|ls|, i requires 0 <= i < |ls| => ls[i].b)
  }

  function Products(ls: seq<Lora>): (r: seq<Tensor>)
    requires AllWf(ls)
    ensures |r| == |ls| && forall i :: 0 <= i < |r| ==> r[i] == Product(ls[i])
  {
    seq(|ls|, i requires 0 <= i < |ls| => Product(ls[i]))
  }

  predicate AllWf(ls: seq<Lora>) {
    forall i :: 0 <= i < |ls| ==> Wf(ls[i])
  }

  predicate SameShapes(ts: seq<Tensor>) {
    forall i :: 0 <= i < |ts| ==> ts[i].shape == ts[0].shape
  }

  function StackLora(ls: seq<Lora>): Option<Lora> {
    if ls == [] || !SameShapes(FactorsA(ls)) || !SameShapes(FactorsB(ls)) then None
    else Some(Lora(Stack(FactorsA(ls)), Stack(FactorsB(ls))))
  }

  lemma {:induction false} StackReads(ls: seq<Lora>, r: Lora, idx: seq<nat>, k: nat)
    requires AllWf(ls) && StackLora(ls) == Some(r) && Wf(r) && |idx| == |r.b.shape| && idx[0] < |ls|
    ensures var l, src := ls[idx[0]], idx[1..];
      && |src| == |l.b.shape| && Rank(r) == Rank(l)
      && RowOf(r, idx)(k) == RowOf(l, src)(k) && ColumnOf(r, idx)(k) == ColumnOf(l, src)(k)
  {
    hide Dot, Times;
    var l, src := ls[idx[0]], idx[1..];
    assert FactorsA(ls)[idx[0]].shape == FactorsA(ls)[0].shape && FactorsB(ls)[idx[0]].shape == FactorsB(ls)[0].shape;
    ElementReads(r, idx, k);
    ElementReads(l, src, k);
    assert BIndex(idx, k)[1..] == BIndex(src, k) && BIndex(idx, k)[0] == idx[0];
    var n := |src|;
    assert r.a.shape[..n - 1] == [|ls|] + l.a.shape[..n - 2];
    if |ls| == 1 {
      assert idx[0] == 0;
    }
    assert AIndex(r, idx, k)[0] == idx[0];
    assert AIndex(r, idx, k)[1..] == AIndex(l, src, k);
  }

  lemma StackShapes(ls: seq<Lora>)
    requires AllWf(ls) && StackLora(ls).Some?
    ensures Wf(StackLora(ls).value) && Shape(StackLora(ls).value) == [|ls|] + Shape(ls[0])
    ensures forall i :: 0 <= i < |ls| ==> Shape(ls[i]) == Shape(ls[0])
  {
    var l, r := ls[0], StackLora(ls).value;
    var n := |l.b.shape|;
    assert r.a.shape[..n - 1] == [|ls|] + l.a.shape[..n - 2] && r.b.shape[..n - 1] == [|ls|] + l.b.shape[..n - 2];
    forall i | 0 <= i < |ls|
      ensures Shape(ls[i]) == Shape(ls[0])
    {
      assert FactorsA(ls)[i].shape == FactorsA(ls)[0].shape && FactorsB(ls)[i].shape == FactorsB(ls)[0].shape;
    }
  }

  /** Stacking the factors stacks the products. */
  lemma {:induction false} StackCommutes(ls: seq<Lora>)
    requires AllWf(ls) && StackLora(ls).Some?
    ensures Wf(StackLora(ls).value) && SameShapes(Products(ls))
    ensures Same(Product(StackLora(ls).value), Stack(Products(ls)))
  {
    var r := StackLora(ls).value;
    StackShapes(ls);
    hide Dot, Times, RowOf, ColumnOf, StackLora, Wf, Rank;
    forall idx | InRange(idx, Shape(r))
      ensures Product(r).elem(idx) == Stack(Products(ls)).elem(idx)
    {
      var l, src := ls[idx[0]], idx[1..];
      StackReads(ls, r, idx, 0);
      forall k: nat | k < Rank(l)
        ensures RowOf(r, idx)(k) == RowOf(l, src)(k) && ColumnOf(r, idx)(k) == ColumnOf(l, src)(k)
      {
        StackReads(ls, r, idx, k);
      }
      ElementSame(r, idx, l, src);
    }
  }

  // Tensors that can be joined along their first axis.
  predicate Joinable(ts: seq<Tensor>) {
    && ts != []
    && forall i :: 0 <= i < |ts| ==> ts[i].shape != [] && ts[0].shape != [] && ts[i].shape[1..] == ts[0].shape[1..]
  }

  // Matrices are joined when they share a; with leading axes both factors are joined.
  ghost function ConcatLora(ls: seq<Lora>): Option<Lora>
    requires AllWf(ls)
  {
    if ls == [] || !Joinable(FactorsB(ls)) then None
    else if |ls[0].b.shape| > 2 then
      if Joinable(FactorsA(ls)) then Some(Lora(Concat(FactorsA(ls)), Concat(FactorsB(ls)))) else None
    else if SharedA(ls) then Some(Lora(ls[0].a, Concat(FactorsB(ls))))
    else None
  }

  ghost predicate SharedA(ls: seq<Lora>) {
    forall i :: 0 <= i < |ls| ==> Same(ls[0].a, ls[i].a)
  }

  // With leading axes, every a has the whole first axis.
  predicate OwnLead(ls: seq<Lora>)
    requires AllWf(ls)
  {
    forall i :: 0 <= i < |ls| ==> (|ls[i].b.shape| > 2 ==> ls[i].a.shape[0] == ls[i].b.shape[0])
  }

  // Two pieces that differ in the first axis only.
  predicate Alike(l: Lora, m: Lora)
    requires Wf(l) && Wf(m)
  {
    && |l.b.shape| == |m.b.shape|
    && l.b.shape[1..] == m.b.shape[1..]
    && (if |l.b.shape| > 2 then l.a.shape[1..] == m.a.shape[1..] else l.a.shape == m.a.shape)
  }

  lemma PiecesAlike(ls: seq<Lora>, i: nat)
    requires AllWf(ls) && ConcatLora(ls).Some? && i < |ls|
    ensures Alike(ls[i], ls[0])
  {
    assert FactorsB(ls)[i].shape[1..] == FactorsB(ls)[0].shape[1..];
    if |ls[0].b.shape| > 2 {
      assert FactorsA(ls)[i].shape[1..] == FactorsA(ls)[0].shape[1..];
    } else {
      assert Same(ls[0].a, ls[i].a);
    }
  }

  lemma {:induction false} AlikeShapes(l: Lora, m: Lora)
    requires Wf(l) && Wf(m) && Alike(l, m)
    ensures Shape(l)[1..] == Shape(m)[1..] && Shape(l)[0] == l.b.shape[0]
    ensures Rank(l) == Rank(m)
  {
    var n := |l.b.shape|;
    assert l.b.shape[n - 1] == l.b.shape[1..][n - 2] && m.b.shape[n - 1] == m.b.shape[1..][n - 2];
    if n > 2 {
      assert l.a.shape[n - 1] == l.a.shape[1..][n - 2] && m.a.shape[n - 1] == m.a.shape[1..][n - 2];
    }
    assert Shape(l)[1..] == l.b.shape[1..][..n - 2] + [l.a.shape[n - 1]];
    assert Shape(m)[1..] == m.b.shape[1..][..n - 2] + [m.a.shape[n - 1]];
  }

  lemma {:induction false} ConcatWf(ls: seq<Lora>)
    requires AllWf(ls) && ConcatLora(ls).Some? && OwnLead(ls)
    ensures var r := ConcatLora(ls).value;
      && Wf(r) && Rank(r) == Rank(ls[0]) && |r.b.shape| == |ls[0].b.shape|
      && Shape(r) == [Total(Extents(FactorsB(ls)))] + Shape(ls[0])[1..]
    ensures |ls[0].b.shape| > 2 ==> Extents(FactorsA(ls)) == Extents(FactorsB(ls))
  {
    hide Total;
    var l, r := ls[0], ConcatLora(ls).value;
    var n := |l.b.shape|;
    var total := Total(Extents(FactorsB(ls)));
    assert r.b.shape == [total] + l.b.shape[1..];
    if n > 2 {
      forall i | 0 <= i < |ls|
        ensures ls[i].a.shape[0] == ls[i].b.shape[0]
      {
        PiecesAlike(ls, i);
      }
      assert Extents(FactorsA(ls)) == Extents(FactorsB(ls));
      LeadBroadcasts(l, r, total, total);
    }
    assert Shape(r) == [total] + Shape(l)[1..];
  }

  lemma LeadBroadcasts(l: Lora, r: Lora, ta: nat, tb: nat)
    requires Wf(l) && |l.b.shape| > 2
    requires r.a.shape == [ta] + l.a.shape[1..] && r.b.shape == [tb] + l.b.shape[1..]
    ensures Wf(r) <==> ta == 1 || ta == tb
  {
    var n := |l.b.shape|;
    var a, b := r.a.shape[..n - 2], r.b.shape[..n - 2];
    assert a[0] == ta && b[0] == tb;
    forall i | 0 < i < n - 2
      ensures a[i] == 1 || a[i] == b[i]
    {
      assert a[i] == l.a.shape[..n - 2][i] && b[i] == l.b.shape[..n - 2][i];
    }
    assert r.a.shape[n - 2] == l.a.shape[n - 2] && r.b.shape[n - 1] == l.b.shape[n - 1];
  }

  lemma {:induction false} ConcatReads(ls: seq<Lora>, r: Lora, idx: seq<nat>, k: nat)
    requires AllWf(ls) && ConcatLora(ls) == Some(r) && OwnLead(ls) && Wf(r) && InRange(idx, Shape(r))
    requires k < Rank(r) && idx[0] < Total(Extents(FactorsB(ls)))
    ensures var at := Locate(Extents(FactorsB(ls)), idx[0]);
      var l, src := ls[at.0], idx[0 := at.1];
      && |src| == |l.b.shape| && Rank(r) == Rank(l)
      && RowOf(r, idx)(k) == RowOf(l, src)(k) && ColumnOf(r, idx)(k) == ColumnOf(l, src)(k)
  {
    hide Dot, Times, Total, Locate;
    var extents := Extents(FactorsB(ls));
    var at := Locate(extents, idx[0]);
    var l, src := ls[at.0], idx[0 := at.1];
    ConcatWf(ls);
    PiecesAlike(ls, at.0);
    AlikeShapes(l, ls[0]);
    ElementReads(r, idx, k);
    ElementReads(l, src, k);
    assert BIndex(idx, k)[0 := at.1] == BIndex(src, k) && BIndex(idx, k)[0] == idx[0];
    if |idx| > 2 {
      LeadRead(ls, r, idx, k);
    } else {
      SharedRead(ls[0], l, r, idx, src, k);
    }
  }

  // Matrices that share a are read alike in their columns.
  lemma SharedRead(m: Lora, l: Lora, r: Lora, idx: seq<nat>, src: seq<nat>, k: nat)
    requires Wf(m) && Wf(l) && Wf(r) && |r.b.shape| == |l.b.shape| == 2 && Same(m.a, l.a) && r.a == m.a
    requires InRange(idx, Shape(r)) && |src| == 2 && src[1] == idx[1] && k < Rank(r)
    ensures r.a.elem(AIndex(r, idx, k)) == l.a.elem(AIndex(l, src, k))
  {
    hide Dot, Times;
    assert AIndex(r, idx, k) == [k, idx[1]] && AIndex(l, src, k) == [k, idx[1]];
    assert InRange([k, idx[1]], m.a.shape);
  }

  lemma {:induction false} LeadRead(ls: seq<Lora>, r: Lora, idx: seq<nat>, k: nat)
    requires AllWf(ls) && ConcatLora(ls) == Some(r) && OwnLead(ls) && Wf(r) && InRange(idx, Shape(r)) && |idx| > 2
    requires idx[0] < Total(Extents(FactorsB(ls))) && Extents(FactorsA(ls)) == Extents(FactorsB(ls))
    requires Alike(ls[Locate(Extents(FactorsB(ls)), idx[0]).0], ls[0])
    ensures var at := Locate(Extents(FactorsB(ls)), idx[0]);
      |idx| == |ls[at.0].b.shape| && r.a.elem(AIndex(r, idx, k)) == ls[at.0].a.elem(AIndex(ls[at.0], idx[0 := at.1], k))
  {
    hide Dot, Times, Locate, Total, Stack, RowOf, ColumnOf;
    var extents := Extents(FactorsB(ls));
    var at := Locate(extents, idx[0]);
    var l, src, n := ls[at.0], idx[0 := at.1], |idx|;
    var from, to := AIndex(r, idx, k), AIndex(l, src, k);
    assert l.a.shape[0] == extents[at.0];
    assert forall i :: 1 <= i < n ==>
             r.a.shape[i] == ls[0].a.shape[1..][i - 1] && l.a.shape[i] == l.a.shape[1..][i - 1];
    assert from[1..] == to[1..];
    if r.a.shape[0] == 1 {
      assert idx[0] == 0;
    }
    assert from[0] == idx[0] && to[0] == at.1;
    assert from[0 := at.1] == to;
  }

  lemma PieceShape(ls: seq<Lora>, i: nat)
    requires AllWf(ls) && ConcatLora(ls).Some? && i < |ls|
    ensures var s := Product(ls[i]).shape;
      s != [] && s[1..] == Shape(ls[0])[1..] && s[0] == ls[i].b.shape[0]
  {
    hide ConcatLora, Product, Shape;
    PiecesAlike(ls, i);
    AlikeShapes(ls[i], ls[0]);
    ProductShape(ls[i]);
  }

  lemma ProductsJoinable(ls: seq<Lora>)
    requires AllWf(ls) && ConcatLora(ls).Some? && Joinable(FactorsB(ls))
    ensures Joinable(Products(ls)) && Extents(Products(ls)) == Extents(FactorsB(ls))
    ensures Products(ls)[0].shape[1..] == Shape(ls[0])[1..]
  {
    hide Wf, ConcatLora, Product, Shape;
    forall i | 0 <= i < |ls|
      ensures var s := Products(ls)[i].shape;
        s != [] && s[1..] == Shape(ls[0])[1..] && s[0] == FactorsB(ls)[i].shape[0]
    {
      PieceShape(ls, i);
    }
  }

  lemma {:induction false} ConcatShapes(ls: seq<Lora>)
    requires AllWf(ls) && ConcatLora(ls).Some? && OwnLead(ls)
    ensures Wf(ConcatLora(ls).value) && Joinable(Products(ls))
    ensures Joinable(FactorsB(ls)) && Extents(Products(ls)) == Extents(FactorsB(ls))
    ensures Shape(ConcatLora(ls).value) == Concat(Products(ls)).shape
  {
    ConcatWf(ls);
    hide Product, Shape, Total, Extents;
    ProductsJoinable(ls);
  }

  lemma ConcatAt(ts: seq<Tensor>, idx: seq<nat>)
    requires Joinable(ts) && idx != [] && idx[0] < Total(Extents(ts))
    ensures var at := Locate(Extents(ts), idx[0]); Concat(ts).elem(idx) == ts[at.0].elem(idx[0 := at.1])
  {
    hide Locate, Total;
  }

  // A single piece, or pieces that do not share the first axis of a.
  predicate JoinsAlike(ls: seq<Lora>)
    requires AllWf(ls)
  {
    |ls| == 1 || OwnLead(ls)
  }

  /** Joining the factors joins the products: for matrices that share a, for a single piece, and with leading axes
      that are not shared. */
  lemma {:induction false} ConcatCommutes(ls: seq<Lora>)
    requires AllWf(ls) && ConcatLora(ls).Some? && JoinsAlike(ls)
    ensures Wf(ConcatLora(ls).value) && Joinable(Products(ls))
    ensures Same(Product(ConcatLora(ls).value), Concat(Products(ls)))
  {
    hide Wf, Same, Product, Joinable, ConcatLora;
    if OwnLead(ls) {
      ConcatOwn(ls);
    } else {
      ConcatOne(ls);
    }
  }

  // One tensor joined is that tensor.
  lemma JoinOne(t: Tensor)
    requires t.shape != []
    ensures Same(Concat([t]), t)
  {
    var c := Concat([t]);
    assert Extents([t]) == [t.shape[0]] && Total([t.shape[0]]) == t.shape[0];
    assert c.shape == [t.shape[0]] + t.shape[1..] == t.shape;
    forall idx | InRange(idx, t.shape)
      ensures c.elem(idx) == t.elem(idx)
    {
      assert Locate([t.shape[0]], idx[0]) == (0, idx[0]);
      assert idx[0 := idx[0]] == idx;
    }
  }

  // Equal factors have equal products.
  lemma {:induction false} ProductSame(l: Lora, r: Lora)
    requires Wf(l) && Same(r.a, l.a) && Same(r.b, l.b)
    ensures Wf(r) && Same(Product(r), Product(l))
  {
    hide Dot, Times, RowOf, ColumnOf;
    forall idx | InRange(idx, Shape(r))
      ensures Product(r).elem(idx) == Product(l).elem(idx)
    {
      forall k: nat | k < Rank(l)
        ensures RowOf(r, idx)(k) == RowOf(l, idx)(k) && ColumnOf(r, idx)(k) == ColumnOf(l, idx)(k)
      {
        ElementReads(r, idx, k);
        ElementReads(l, idx, k);
        assert InRange(BIndex(idx, k), l.b.shape);
        AIndexInRange(l, idx, k);
        assert AIndex(r, idx, k) == AIndex(l, idx, k);
      }
      ElementSame(r, idx, l, idx);
    }
  }

  lemma AIndexInRange(l: Lora, idx: seq<nat>, k: nat)
    requires Wf(l) && InRange(idx, Shape(l)) && k < Rank(l)
    ensures InRange(AIndex(l, idx, k), l.a.shape)
  {
    var n := |idx|;
    var at := AIndex(l, idx, k);
    forall i | 0 <= i < n
      ensures at[i] < l.a.shape[i]
    {
      if i < n - 2 {
        assert l.a.shape[i] == l.a.shape[..n - 2][i] && l.b.shape[i] == l.b.shape[..n - 2][i];
      }
    }
  }

  lemma {:induction false} ConcatOne(ls: seq<Lora>)
    requires AllWf(ls) && ConcatLora(ls).Some? && |ls| == 1
    ensures Wf(ConcatLora(ls).value) && Joinable(Products(ls))
    ensures Same(Product(ConcatLora(ls).value), Concat(Products(ls)))
  {
    hide Dot, Times, RowOf, ColumnOf, Concat, Product, Shape;
    var l, r := ls[0], ConcatLora(ls).value;
    assert FactorsA(ls) == [l.a] && FactorsB(ls) == [l.b];
    JoinOne(l.a);
    JoinOne(l.b);
    ProductSame(l, r);
    ProductShape(l);
    assert Products(ls) == [Product(l)];
    JoinOne(Product(l));
    SameBack(Concat([Product(l)]), Product(l));
    SameTrans(Product(r), Product(l), Concat([Product(l)]));
  }

  lemma SameBack(t: Tensor, u: Tensor)
    requires Same(t, u)
    ensures Same(u, t)
  {
  }

  lemma {:induction false} ConcatOwn(ls: seq<Lora>)
    requires AllWf(ls) && ConcatLora(ls).Some? && OwnLead(ls)
    ensures Wf(ConcatLora(ls).value) && Joinable(Products(ls))
    ensures Same(Product(ConcatLora(ls).value), Concat(Products(ls)))
  {
    var r := ConcatLora(ls).value;
    ConcatShapes(ls);
    ProductShape(r);
    assert Concat(Products(ls)).shape[0] == Total(Extents(FactorsB(ls)));
    hide Dot, Times, RowOf, ColumnOf, ConcatLora, Wf, Rank, Locate, Total, Concat, Product, OwnLead, Joinable, Extents;
    forall idx | InRange(idx, Shape(r))
      ensures Product(r).elem(idx) == Concat(Products(ls)).elem(idx)
    {
      ConcatElement(ls, r, idx);
      ConcatAt(Products(ls), idx);
    }
  }

  lemma {:induction false} ConcatElement(ls: seq<Lora>, r: Lora, idx: seq<nat>)
    requires AllWf(ls) && ConcatLora(ls) == Some(r) && OwnLead(ls) && Wf(r) && InRange(idx, Shape(r))
    requires idx != [] && idx[0] < Total(Extents(FactorsB(ls)))
    ensures var at := Locate(Extents(FactorsB(ls)), idx[0]);
      Product(r).elem(idx) == Product(ls[at.0]).elem(idx[0 := at.1])
  {
    hide Dot, Times, RowOf, ColumnOf, ConcatLora, Locate, Total, Product;
    var at := Locate(Extents(FactorsB(ls)), idx[0]);
    var l, src := ls[at.0], idx[0 := at.1];
    ConcatReads(ls, r, idx, 0);
    forall k: nat | k < Rank(l)
      ensures RowOf(r, idx)(k) == RowOf(l, src)(k) && ColumnOf(r, idx)(k) == ColumnOf(l, src)(k)
    {
      ConcatReads(ls, r, idx, k);
    }
    ElementSame(r, idx, l, src);
  }

  /** Joining pieces with leading axes gives factors that multiply exactly when the first axes of a together have one
      position, or as many as those of b: the joined a has one entry per piece, the joined b one per position. Without
      empty pieces that means a single piece, or no piece that shares the first axis of a. */
  lemma {:induction false} ConcatLeadIff(ls: seq<Lora>)
    requires AllWf(ls) && ConcatLora(ls).Some? && |ls[0].b.shape| > 2
    ensures var ta, tb := Total(Extents(FactorsA(ls))), Total(Extents(FactorsB(ls)));
      Wf(ConcatLora(ls).value) <==> ta == 1 || ta == tb
    ensures NoneEmpty(ls) ==> (Wf(ConcatLora(ls).value) <==> JoinsAlike(ls))
  {
    var ea, eb := Extents(FactorsA(ls)), Extents(FactorsB(ls));
    LeadBroadcasts(ls[0], ConcatLora(ls).value, Total(ea), Total(eb));
    if NoneEmpty(ls) {
      forall i | 0 <= i < |ls|
        ensures |ls[i].b.shape| > 2 && 0 < ea[i] <= eb[i] && ea[i] == ls[i].a.shape[0] && eb[i] == ls[i].b.shape[0]
      {
        PiecesAlike(ls, i);
        FirstExtents(ls[i]);
      }
      TotalEqual(ea, eb);
      if |ls| == 1 {
        ConcatOne(ls);
      } else {
        assert Total(ea) >= ea[0] + ea[1] by { assert ea[1..][0] == ea[1]; }
        assert OwnLead(ls) ==> ea == eb;
      }
    }
  }

  predicate NoneEmpty(ls: seq<Lora>)
    requires AllWf(ls)
  {
    forall i :: 0 <= i < |ls| ==> ls[i].b.shape[0] > 0
  }

  lemma OneTerm(f: nat -> real, g: nat -> real)
    ensures Dot(f, g, 1) == Times(f(0), g(0))
  {
    assert Dot(f, g, 0) == 0.0;
  }

  lemma FirstElement(r: Lora)
    requires Wf(r) && |r.b.shape| == 3 && Rank(r) == 1
    ensures Product(r).elem([0, 0, 0]) == Times(r.b.elem([0, 0, 0]), r.a.elem([0, 0, 0]))
  {
    hide Times;
    var idx: seq<nat> := [0, 0, 0];
    OneTerm(RowOf(r, idx), ColumnOf(r, idx));
    ElementReads(r, idx, 0);
    assert BIndex(idx, 0) == idx && AIndex(r, idx, 0) == idx;
  }

  lemma TwoExtents(x: nat, y: nat)
    ensures Total([x, y]) == x + y
    ensures 0 < x ==> Locate([x, y], 0) == (0, 0)
    ensures 0 == x < y ==> Locate([x, y], 0) == (1, 0)
  {
    assert [x, y][1..] == [y] && [y][1..] == [];
    assert Total([y]) == y;
  }

  // Joining two tensors, the first of which may be empty: where element 0 comes from.
  lemma JoinTwo(t: Tensor, u: Tensor)
    requires |t.shape| == |u.shape| == 3 && t.shape[1..] == u.shape[1..] && u.shape[0] > 0
    ensures Joinable([t, u]) && Concat([t, u]).shape == [t.shape[0] + u.shape[0]] + t.shape[1..]
    ensures Concat([t, u]).elem([0, 0, 0]) == (if t.shape[0] > 0 then t else u).elem([0, 0, 0])
    ensures Extents([t, u]) == [t.shape[0], u.shape[0]]
  {
    TwoExtents(t.shape[0], u.shape[0]);
    assert Extents([t, u]) == [t.shape[0], u.shape[0]];
    hide Total, Locate;
    var idx: seq<nat> := [0, 0, 0];
    assert idx[0 := 0] == idx;
  }

  lemma JoinsFactors(l: Lora, m: Lora)
    requires Wf(l) && Wf(m) && |l.b.shape| == 3 && Joinable([l.a, m.a]) && Joinable([l.b, m.b])
    ensures FactorsA([l, m]) == [l.a, m.a] && FactorsB([l, m]) == [l.b, m.b]
    ensures AllWf([l, m]) && Products([l, m]) == [Product(l), Product(m)]
    ensures ConcatLora([l, m]) == Some(Lora(Concat([l.a, m.a]), Concat([l.b, m.b])))
  {
    hide Wf, Product, Joinable, Concat;
    assert FactorsA([l, m]) == [l.a, m.a] && FactorsB([l, m]) == [l.b, m.b];
  }

  // Two groups of matrices, each sharing its a: no matrix, and two matrices.
  predicate NoneAndTwo(l: Lora, m: Lora) {
    && Wf(l) && Wf(m) && |l.b.shape| == 3 && l.a.shape == m.a.shape && l.a.shape[0] == 1
    && l.b.shape[0] == 0 && m.b.shape == [2] + l.b.shape[1..]
  }

  // Together there are two a for two matrices, so the factors fit, but the first matrix meets the a that none had.
  lemma EmptyJoin(l: Lora, m: Lora)
    requires NoneAndTwo(l, m)
    ensures AllWf([l, m]) && Joinable(Products([l, m])) && ConcatLora([l, m]).Some?
    ensures var r := ConcatLora([l, m]).value;
      && Wf(r) && Shape(r) == Shape(m) && Rank(r) == Rank(m)
      && r.a.elem([0, 0, 0]) == l.a.elem([0, 0, 0]) && r.b.elem([0, 0, 0]) == m.b.elem([0, 0, 0])
      && Concat(Products([l, m])).elem([0, 0, 0]) == Product(m).elem([0, 0, 0])
  {
    assert m.b.shape[1..] == l.b.shape[1..];
    var p, q := Product(l), Product(m);
    ProductShape(l);
    ProductShape(m);
    assert p.shape[1..] == [l.b.shape[1], l.a.shape[2]] && q.shape[1..] == [l.b.shape[1], l.a.shape[2]];
    JoinTwo(l.a, m.a);
    JoinTwo(l.b, m.b);
    JoinTwo(p, q);
    hide Product, Concat, Joinable, Total, Locate, Extents;
    JoinsFactors(l, m);
    TwoExtents(1, 1);
    TwoExtents(0, 2);
    hide ConcatLora, FactorsA, FactorsB, Products, Wf;
    ConcatLeadIff([l, m]);
  }

  /** The product of the joined factors is then not the joined product, unless the two a happen to give the same. */
  lemma EmptyJoinMisaligned(l: Lora, m: Lora)
    requires NoneAndTwo(l, m) && Rank(m) == 1 && Shape(m) == [2, 1, 1]
    requires var idx: seq<nat> := [0, 0, 0];
      Times(m.b.elem(idx), l.a.elem(idx)) != Times(m.b.elem(idx), m.a.elem(idx))
    ensures AllWf([l, m]) && Joinable(Products([l, m])) && ConcatLora([l, m]).Some?
    ensures Wf(ConcatLora([l, m]).value) && !JoinsAlike([l, m])
    ensures !Same(Product(ConcatLora([l, m]).value), Concat(Products([l, m])))
  {
    assert [l, m][0] == l && [l, m][1] == m && m.b.shape[0] == 2;
    assert m.a.shape[0] == 1;
    hide ConcatLora, Concat, Products, Product, Joinable, Rank, Times, Wf;
    EmptyJoin(l, m);
    FirstElement(ConcatLora([l, m]).value);
    FirstElement(m);
    assert InRange([0, 0, 0], Shape(ConcatLora([l, m]).value));
  }

  // One element in each matrix, which is 0 with the first a and 1 with the second.
  lemma EmptyJoinExample()
    ensures var l := Lora(Tensor([1, 1, 1], _ => 0.0), Tensor([0, 1, 1], _ => 1.0));
      var m := Lora(Tensor([1, 1, 1], _ => 1.0), Tensor([2, 1, 1], _ => 1.0));
      && AllWf([l, m]) && Joinable(Products([l, m])) && ConcatLora([l, m]).Some? && Wf(ConcatLora([l, m]).value)
      && !Same(Product(ConcatLora([l, m]).value), Concat(Products([l, m])))
  {
    var l := Lora(Tensor([1, 1, 1], _ => 0.0), Tensor([0, 1, 1], _ => 1.0));
    var m := Lora(Tensor([1, 1, 1], _ => 1.0), Tensor([2, 1, 1], _ => 1.0));
    assert l.a.shape[..1] == m.a.shape[..1] == [1] && l.b.shape[..1] == [0] && m.b.shape[..1] == [2];
    assert m.b.shape == [2] + l.b.shape[1..];
    assert Wf(l) && Wf(m) && Rank(m) == 1 && Shape(m) == [2, 1, 1];
    var idx: seq<nat> := [0, 0, 0];
    assert Times(m.b.elem(idx), l.a.elem(idx)) == 0.0 && Times(m.b.elem(idx), m.a.elem(idx)) == 1.0;
    assert NoneAndTwo(l, m);
    hide *;
    EmptyJoinMisaligned(l, m);
  }

  // Joining two pairs of matrices, each pair sharing its a: the joined a has two entries for four matrices.
  lemma SharedJoinFails(l: Lora)
    requires Wf(l) && |l.b.shape| > 2 && l.a.shape[0] == 1 && l.b.shape[0] == 2
    ensures ConcatLora([l, l]).Some? && !Wf(ConcatLora([l, l]).value)
  {
    var ls := [l, l];
    assert FactorsA(ls)[0] == FactorsA(ls)[1] == l.a && FactorsB(ls)[0] == FactorsB(ls)[1] == l.b;
    assert Joinable(FactorsA(ls)) && Joinable(FactorsB(ls));
    ConcatLeadIff(ls);
    assert ls[0].a.shape[0] != ls[0].b.shape[0];
  }

  // ---------- expressions ----------

  datatype Op =
    | DoReshape(shape: seq<int>)
    | DoPermute(dims: seq<int>)
    | DoSplit(split: SplitSize, dim: int, piece: nat)
    | DoTuple(entries: seq<Entry>)
    | DoSliceFirst(slice: Slice)
    | DoIndexFirst(i: int)
    | DoScale(m: Tensor)

  // An operation on the factors. Slices that leave factors that cannot be multiplied are not supported.
  function Apply(op: Op, l: Lora): Option<Lora>
    requires Wf(l)
  {
    match op
    case DoReshape(shape) => ReshapeLora(l, shape)
    case DoPermute(dims) => PermuteLora(l, dims)
    case DoSplit(split, dim, piece) =>
      var r := Split(l, split, dim);
      if r.Some? && piece < |r.value| then Some(r.value[piece]) else None
    case DoTuple(es) => if CutsMatrix(es, |l.b.shape|) && TupleAlike(l, es) then TupleLora(l, es) else None
    case DoSliceFirst(s) => if s.step > 0 && SlicesAlike(l, s) then Some(SliceFirst(l, s)) else None
    case DoIndexFirst(i) => IndexFirst(l, i)
    case DoScale(m) => ScaleLora(l, m)
  }

  // The same operation on a dense tensor.
  function Dense(op: Op, t: Tensor): Option<Tensor> {
    var n := |t.shape|;
    match op
    case DoReshape(shape) =>
      var s := Expand(shape, Size(t.shape));
      if s.Some? && Size(s.value) == Size(t.shape) then Some(Reshape(t, s.value)) else None
    case DoPermute(dims) =>
      var d := Axes(dims, n);
      if d.Some? && IsPermutation(d.value, n) then Some(Permute(t, d.value)) else None
    case DoSplit(split, dim, piece) =>
      var axis := Axis(dim, n);
      if axis.None? then None
      else
        var chunks := Chunks(t.shape[axis.value], split, 0);
        if chunks.Some? && piece < |chunks.value| then Some(Select(t, axis.value, chunks.value[piece])) else None
    case DoTuple(es) => TupleDense(t, es)
    case DoSliceFirst(s) => if n > 0 && s.step > 0 then Some(Select(t, 0, SliceOf(s, t.shape[0]))) else None
    case DoIndexFirst(i) =>
      if n > 0 && Axis(i, t.shape[0]).Some? then Some(Index(t, Axis(i, t.shape[0]).value)) else None
    case DoScale(m) => if Scales(m.shape, t.shape) then Some(Scale(t, m)) else None
  }

  ghost predicate Agree(l: Option<Lora>, t: Option<Tensor>) {
    l.Some? ==> Wf(l.value) && t.Some? && Same(Product(l.value), t.value)
  }

  /** Every supported operation on the factors gives the factors of the operation on their product. */
  lemma {:induction false} ApplyCommutes(op: Op, l: Lora)
    requires Wf(l) && Apply(op, l).Some?
    ensures Agree(Apply(op, l), Dense(op, Product(l)))
  {
    hide Wf, Product, ReshapeLora, PermuteLora, ScaleLora, Expand, Size, IsPermutation, Same, Chunks, Dot;
    hide SlicesAlike, SelectAxis, TupleLora, TupleDense, TupleAlike, CutsMatrix;
    ProductShape(l);
    match op
    case DoReshape(shape) => ReshapeCommutes(l, shape);
      ShapeKnown(l, shape);
    case DoPermute(dims) => PermuteCommutes(l, dims);
      PermutationKnown(l, dims);
    case DoSplit(split, dim, piece) => SplitCommutes(l, split, dim, piece);
    case DoTuple(es) => TupleIff(l, es);
    case DoSliceFirst(s) => SliceFirstIff(l, s);
    case DoIndexFirst(i) => IndexCommutes(l, i);
      FirstExtents(l);
    case DoScale(m) => ScaleCommutes(l, m);
  }

  lemma ShapeKnown(l: Lora, shape: seq<int>)
    requires Wf(l) && ReshapeLora(l, shape).Some?
    ensures Expand(shape, Size(Shape(l))).Some?
  {
  }

  lemma PermutationKnown(l: Lora, dims: seq<int>)
    requires Wf(l) && PermuteLora(l, dims).Some?
    ensures Axes(dims, |l.b.shape|).Some? && IsPermutation(Axes(dims, |l.b.shape|).value, |l.b.shape|)
  {
  }

  // Equal tensors stay equal under every operation.
  lemma {:induction false} DenseSame(op: Op, t: Tensor, u: Tensor)
    requires Same(t, u) && Dense(op, t).Some?
    ensures Dense(op, u).Some? && Same(Dense(op, t).value, Dense(op, u).value)
  {
    hide Expand, Size, Flat, Unflat, SliceOf, Chunks, Axes;
    match op
    case DoReshape(shape) => ReshapeSame(t, u, Expand(shape, Size(t.shape)).value);
    case DoPermute(dims) => PermuteSame(t, u, Axes(dims, |t.shape|).value);
    case DoSplit(split, dim, piece) =>
      var axis := Axis(dim, |t.shape|).value;
      ChunksInRange(t.shape[axis], split, 0, piece);
      SelectSame(t, u, axis, Chunks(t.shape[axis], split, 0).value[piece]);
    case DoTuple(es) => TupleSame(t, u, es);
    case DoSliceFirst(s) => SelectSame(t, u, 0, SliceOf(s, t.shape[0]));
    case DoIndexFirst(i) => IndexSame(t, u, Axis(i, t.shape[0]).value);
    case DoScale(m) => ScaleSame(t, u, m);
  }

  lemma ScaleSame(t: Tensor, u: Tensor, m: Tensor)
    requires Same(t, u) && Scales(m.shape, t.shape)
    ensures Same(Scale(t, m), Scale(u, m))
  {
    hide Times;
    forall idx | InRange(idx, Scale(t, m).shape)
      ensures Scale(t, m).elem(idx) == Scale(u, m).elem(idx)
    {
      assert InRange(Broadcast(idx, t.shape), t.shape);
    }
  }

  lemma IndexSame(t: Tensor, u: Tensor, i: nat)
    requires Same(t, u) && t.shape != [] && i < t.shape[0]
    ensures Same(Index(t, i), Index(u, i))
  {
    forall idx | InRange(idx, t.shape[1..])
      ensures Index(t, i).elem(idx) == Index(u, i).elem(idx)
    {
      assert InRange([i] + idx, t.shape);
    }
  }

  lemma ReshapeSame(t: Tensor, u: Tensor, s: seq<nat>)
    requires Same(t, u) && Size(s) == Size(t.shape)
    ensures Same(Reshape(t, s), Reshape(u, s))
  {
    hide Flat, Unflat, Size;
    forall idx | InRange(idx, s)
      ensures Reshape(t, s).elem(idx) == Reshape(u, s).elem(idx)
    {
      FlatBound(idx, s);
      UnflatInRange(Flat(idx, s), t.shape);
    }
  }

  lemma PermuteSame(t: Tensor, u: Tensor, dims: seq<nat>)
    requires Same(t, u) && IsPermutation(dims, |t.shape|)
    ensures Same(Permute(t, dims), Permute(u, dims))
  {
    hide Unpermuted;
    forall idx | InRange(idx, Permute(t, dims).shape)
      ensures Permute(t, dims).elem(idx) == Permute(u, dims).elem(idx)
    {
      UnpermutedInRange(t, dims, idx);
    }
  }

  lemma {:induction false} ChunksInRange(extent: nat, split: SplitSize, start: nat, piece: nat)
    requires Chunks(extent, split, start).Some? && piece < |Chunks(extent, split, start).value|
    ensures IsSelection(Chunks(extent, split, start).value[piece], extent)
    decreases piece
  {
    var cs := Chunks(extent, split, start).value;
    if split.Sizes? {
      ChunksTile(extent, Sizes(split.sizes[1..]), start + split.sizes[0]);
    }
    if piece > 0 && (split.Sizes? || extent > 0) {
      var rest := if split.Every? then split else Sizes(split.sizes[1..]);
      ChunksInRange(extent, rest, start + |cs[0]|, piece - 1);
    }
  }

  datatype Expr = Leaf(l: Lora) | Unary(op: Op, e: Expr) | Stacked(es: seq<Expr>) | Joined(es: seq<Expr>)

  // Evaluating on factors. There is no result where an operation is not supported.
  ghost function Eval(e: Expr): (r: Option<Lora>)
    ensures r.Some? ==> Wf(r.value)
    decreases e
  {
    match e
    case Leaf(l) => if Wf(l) then Some(l) else None
    case Unary(op, f) =>
      var l := Eval(f);
      if l.None? then None else OnlyWf(Apply(op, l.value))
    case Stacked(es) =>
      var ls := EvalAll(es);
      if ls.None? then None else OnlyWf(StackLora(ls.value))
    case Joined(es) =>
      var ls := EvalAll(es);
      if ls.None? || !JoinsAlike(ls.value) then None else OnlyWf(ConcatLora(ls.value))
  }

  function OnlyWf(l: Option<Lora>): (r: Option<Lora>)
    ensures r.Some? ==> Wf(r.value)
  {
    if l.Some? && Wf(l.value) then l else None
  }

  ghost function EvalAll(es: seq<Expr>): (r: Option<seq<Lora>>)
    ensures r.Some? ==> |r.value| == |es| && AllWf(r.value)
    decreases es
  {
    if es == [] then Some([])
    else
      var l, more := Eval(es[0]), EvalAll(es[1..]);
      if l.None? || more.None? then None else Some([l.value] + more.value)
  }

  // Evaluating on the materialised products.
  ghost function EvalDense(e: Expr): Option<Tensor>
    decreases e
  {
    match e
    case Leaf(l) => if Wf(l) then Some(Product(l)) else None
    case Unary(op, f) =>
      var t := EvalDense(f);
      if t.None? then None else Dense(op, t.value)
    case Stacked(es) =>
      var ts := EvalAllDense(es);
      if ts.Some? && ts.value != [] && SameShapes(ts.value) then Some(Stack(ts.value)) else None
    case Joined(es) =>
      var ts := EvalAllDense(es);
      if ts.Some? && Joinable(ts.value) then Some(Concat(ts.value)) else None
  }

  ghost function EvalAllDense(es: seq<Expr>): (r: Option<seq<Tensor>>)
    ensures r.Some? ==> |r.value| == |es|
    decreases es
  {
    if es == [] then Some([])
    else
      var t, more := EvalDense(es[0]), EvalAllDense(es[1..]);
      if t.None? || more.None? then None else Some([t.value] + more.value)
  }

  ghost predicate AllSame(ts: seq<Tensor>, us: seq<Tensor>) {
    |ts| == |us| && forall i :: 0 <= i < |ts| ==> Same(ts[i], us[i])
  }

  /** Whatever is built from factored matrices with the supported operations, the factors multiply to the tensor that
      the same operations build from the products. */
  lemma {:induction false} EvalCommutes(e: Expr)
    ensures Agree(Eval(e), EvalDense(e))
    decreases e
  {
    hide Apply, Dense, StackLora, ConcatLora, Stack, Concat, Wf, Product, JoinsAlike, SameShapes, Same;
    if Eval(e).Some? {
      match e
      case Leaf(l) => SameSelf(Product(l));
      case Unary(op, f) =>
        EvalCommutes(f);
        var l, t := Eval(f).value, EvalDense(f).value;
        ApplyCommutes(op, l);
        DenseSame(op, Product(l), t);
        SameTrans(Product(Eval(e).value), Dense(op, Product(l)).value, Dense(op, t).value);
      case Stacked(es) =>
        EvalAllCommutes(es);
        var ls, ts := EvalAll(es).value, EvalAllDense(es).value;
        StackCommutes(ls);
        NotEmpty(ls);
        StackSame(Products(ls), ts);
        SameTrans(Product(Eval(e).value), Stack(Products(ls)), Stack(ts));
      case Joined(es) =>
        EvalAllCommutes(es);
        var ls, ts := EvalAll(es).value, EvalAllDense(es).value;
        ConcatCommutes(ls);
        ConcatSame(Products(ls), ts);
        SameTrans(Product(Eval(e).value), Concat(Products(ls)), Concat(ts));
    }
  }

  lemma SameSelf(t: Tensor)
    ensures Same(t, t)
  {
  }

  lemma NotEmpty(ls: seq<Lora>)
    requires StackLora(ls).Some?
    ensures ls != []
  {
  }

  lemma {:induction false} EvalAllCommutes(es: seq<Expr>)
    requires EvalAll(es).Some?
    ensures EvalAllDense(es).Some? && AllSame(Products(EvalAll(es).value), EvalAllDense(es).value)
    decreases es
  {
    hide Wf, Product, Same, Eval, EvalDense;
    if es != [] {
      EvalCommutes(es[0]);
      EvalAllCommutes(es[1..]);
      var ls, ts := EvalAll(es).value, EvalAllDense(es).value;
      assert AllWf(ls[1..]) by { assert forall i :: 0 <= i < |ls| - 1 ==> ls[1..][i] == ls[i + 1]; }
      assert ls[1..] == EvalAll(es[1..]).value && ts[1..] == EvalAllDense(es[1..]).value;
      forall i | 0 <= i < |ls|
        ensures Same(Products(ls)[i], ts[i])
      {
        if i > 0 {
          assert Products(ls)[i] == Products(ls[1..])[i - 1] && ts[i] == ts[1..][i - 1];
        }
      }
    }
  }

  lemma StackSame(ts: seq<Tensor>, us: seq<Tensor>)
    requires AllSame(ts, us) && ts != [] && SameShapes(ts)
    ensures SameShapes(us) && Same(Stack(ts), Stack(us))
  {
    forall i | 0 <= i < |ts|
      ensures us[i].shape == us[0].shape
    {
      assert Same(ts[i], us[i]) && Same(ts[0], us[0]);
    }
    forall idx | InRange(idx, Stack(ts).shape)
      ensures Stack(ts).elem(idx) == Stack(us).elem(idx)
    {
      assert Same(ts[idx[0]], us[idx[0]]);
      assert ts[idx[0]].shape == ts[0].shape;
      assert InRange(idx[1..], ts[0].shape);
    }
    assert Same(ts[0], us[0]);
  }

  lemma ConcatSame(ts: seq<Tensor>, us: seq<Tensor>)
    requires AllSame(ts, us) && Joinable(ts)
    ensures Joinable(us) && Same(Concat(ts), Concat(us))
  {
    hide Locate, Total;
    forall i | 0 <= i < |ts|
      ensures us[i].shape == ts[i].shape
    {
      assert Same(ts[i], us[i]);
    }
    assert Extents(ts) == Extents(us);
    forall idx | InRange(idx, Concat(ts).shape)
      ensures Concat(ts).elem(idx) == Concat(us).elem(idx)
    {
      var at := Locate(Extents(ts), idx[0]);
      assert Same(ts[at.0], us[at.0]);
      assert ts[at.0].shape[1..] == ts[0].shape[1..];
      assert idx[0 := at.1][1..] == idx[1..];
      InRangeFrom(idx[0 := at.1], ts[at.0].shape);
    }
  }

  lemma InRangeFrom(idx: seq<nat>, shape: seq<nat>)
    requires idx != [] && shape != [] && idx[0] < shape[0] && InRange(idx[1..], shape[1..])
    ensures InRange(idx, shape)
  {
    assert forall i :: 1 <= i < |shape| ==> idx[i] == idx[1..][i - 1] && shape[i] == shape[1..][i - 1];
  }
}
