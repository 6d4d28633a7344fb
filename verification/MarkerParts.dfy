/** How far a marker-aligned difference compares: where both texts keep an own part, these differ at both ends. */
module MarkerParts {
  import opened Markers
  import opened MarkerDiff
  import opened MarkerDiffFacts
  import opened MarkerBorders

  // The segment m begins at position x.
  predicate Starts(segs: seq<Segment>, x: int, m: Segment) {
    segs != [] && ((x == 0 && segs[0] == m) || Starts(segs[1..], x - |segs[0].value|, m))
  }

  lemma {:induction false} StartsWithin(segs: seq<Segment>, x: int, m: Segment)
    ensures Starts(segs, x, m) ==> 0 <= x && x + |m.value| <= |Join(segs)|
  {
    if segs != [] {
      StartsWithin(segs[1..], x - |segs[0].value|, m);
    }
  }

  lemma {:induction false} StartsConcat(a: seq<Segment>, b: seq<Segment>, x: int, m: Segment)
    ensures Starts(a + b, x, m) <==> Starts(a, x, m) || Starts(b, x - |Join(a)|, m)
  {
    if a == [] {
      assert a + b == b;
    } else {
      assert (a + b)[1..] == a[1..] + b;
      StartsConcat(a[1..], b, x - |a[0].value|, m);
    }
  }

  lemma StartsInside(a: seq<Segment>, b: seq<Segment>, c: seq<Segment>, x: int, m: Segment)
    requires -|m.value| < x < |Join(b)|
    ensures Starts(a + (b + c), |Join(a)| + x, m) <==> Starts(b, x, m)
  {
    hide *;
    StartsConcat(a, b + c, |Join(a)| + x, m);
    StartsConcat(b, c, x, m);
    StartsWithin(a, |Join(a)| + x, m);
    StartsWithin(c, x - |Join(b)|, m);
  }

  // Only what lies between two borders matters for a segment that begins or ends between them.
  lemma StartsBetween(segs: seq<Segment>, k: nat, n: nat, p: nat, s: nat, m: Segment)
    requires k <= n <= |segs| && p < |Join(segs[k..n])| && s < |Join(segs[k..n])| && m.value != ""
    ensures Starts(segs, |Join(segs[..k])| + p, m) <==> Starts(segs[k..n], p, m)
    ensures Starts(segs, |Join(segs)| - (s + |Join(segs[n..])|) - |m.value|, m)
            <==> Starts(segs[k..n], |Join(segs[k..n])| - s - |m.value|, m)
  {
    var a, b, c := segs[..k], segs[k..n], segs[n..];
    assert segs == a + (b + c);
    JoinThree(segs, k, n);
    hide *;
    var y := |Join(b)| - s - |m.value|;
    StartsInside(a, b, c, p, m);
    StartsInside(a, b, c, y, m);
    assert |Join(segs)| - (s + |Join(c)|) - |m.value| == |Join(a)| + y;
  }

  // What follows the segment m at position x.
  lemma {:induction false} Behind(A: seq<Segment>, x: int, m: Segment) returns (t: seq<Segment>)
    requires Starts(A, x, m) && WellCut(A)
    ensures WellCut(t) && EndsWith(Join(A), Join(t)) && |Join(A)| == x + |m.value| + |Join(t)|
    ensures |t| < |A| && A[|A| - 1] == if t == [] then m else t[|t| - 1]
  {
    var rest := A[1..];
    assert EndsWith(Join(A), Join(rest));
    hide WellCutAt;
    if x == 0 && A[0] == m {
      t := rest;
    } else {
      t := Behind(rest, x - |A[0].value|, m);
      EndsWithMore(A[0].value, Join(rest), Join(t));
    }
  }

  lemma EndsWithMore(h: string, r: string, t: string)
    ensures EndsWith(r, t) ==> EndsWith(h + r, t)
  {
  }

  // ---------- characters ----------

  lemma FirstInText(A: seq<Segment>)
    requires A != [] && A[0].kind.MARKER? && A[0].value != ""
    ensures !InText(A, 0)
  {
    CutsWithin(A[1..], 0 - |A[0].value|);
  }

  lemma LastInText(A: seq<Segment>)
    requires A != [] && A[|A| - 1].kind.MARKER? && A[|A| - 1].value != ""
    ensures !InText(A, |Join(A)| - 1)
  {
    var h, t := A[..|A| - 1], A[|A| - 1];
    var x := |Join(A)| - 1;
    assert A == h + [t];
    JoinConcat(h, [t]);
    JoinSingle([t]);
    CutsConcat(h, [t], x);
    CutsWithin(h, x);
    assert !InText([t], x - |Join(h)|) by {
      assert [t][1..] == [];
    }
  }

  // What is left of either side once the shared ends are taken off.
  predicate OwnParts(A: seq<Segment>, B: seq<Segment>, s: nat, p: nat) {
    && A != [] && B != [] && Shares(A, B, s, p) && p + s < |Join(A)| && p + s < |Join(B)|
    && AllNonEmpty(A) && AllNonEmpty(B)
  }

  lemma FrontsDiffer(l: string, r: string, s: nat, p: nat)
    requires s <= |l| && s <= |r| && p == FrontShare(l, r, s, true) && p + s < |l| && p + s < |r|
    ensures l[p] != r[p]
  {
    hide CommonPrefix;
    assert l[..|l| - s][p] != r[..|r| - s][p];
  }

  lemma BacksDiffer(l: string, r: string)
    ensures var s := BackShare(l, r, true); s < |l| && s < |r| ==> l[|l| - 1 - s] != r[|r| - 1 - s]
  {
    hide CommonSuffix;
  }

  lemma NoShare(l: string, r: string, s: nat)
    ensures BackShare(l, r, false) == 0
    ensures s <= |l| && s <= |r| ==> FrontShare(l, r, s, false) == 0
  {
  }

  lemma OwnPartsOf(A: seq<Segment>, B: seq<Segment>, s: nat, p: nat)
    requires OwnParts(A, B, s, p)
    ensures A != [] && B != [] && p + s < |Join(A)| && p + s < |Join(B)|
    ensures A[0].value != "" && B[0].value != "" && A[|A| - 1].value != "" && B[|B| - 1].value != ""
    ensures s == BackShare(Join(A), Join(B), A[|A| - 1].kind.TEXT? && B[|B| - 1].kind.TEXT?)
    ensures p == FrontShare(Join(A), Join(B), s, B[0].kind.TEXT? && A[0].kind.TEXT?)
  {
    hide Join, BackShare, FrontShare;
  }

  lemma FrontCharsDiffer(A: seq<Segment>, B: seq<Segment>, s: nat, p: nat)
    requires OwnParts(A, B, s, p)
    ensures InText(A, p) && InText(B, p) ==> p < |Join(A)| && p < |Join(B)| && Join(A)[p] != Join(B)[p]
  {
    hide *;
    OwnPartsOf(A, B, s, p);
    NoShare(Join(A), Join(B), s);
    if A[0].kind.MARKER? {
      FirstInText(A);
    } else if B[0].kind.MARKER? {
      FirstInText(B);
    } else {
      FrontsDiffer(Join(A), Join(B), s, p);
    }
  }

  lemma BackCharsDiffer(A: seq<Segment>, B: seq<Segment>, s: nat, p: nat)
    requires OwnParts(A, B, s, p)
    ensures var x, y := |Join(A)| - 1 - s, |Join(B)| - 1 - s;
      x >= 0 && y >= 0 && (InText(A, x) && InText(B, y) ==> Join(A)[x] != Join(B)[y])
  {
    hide *;
    OwnPartsOf(A, B, s, p);
    NoShare(Join(A), Join(B), s);
    if A[|A| - 1].kind.MARKER? {
      LastInText(A);
    } else if B[|B| - 1].kind.MARKER? {
      LastInText(B);
    } else {
      BacksDiffer(Join(A), Join(B));
    }
  }

  // ---------- markers ----------

  // A marker can only begin at the first place of what is left over if that is a marker, or else behind the text there.
  lemma FirstMarker(A: seq<Segment>, p: nat, m: Segment)
    requires A != [] && AllNonEmpty(A) && m.kind.MARKER? && Starts(A, p, m)
    ensures A[0].kind.TEXT? ==> |A[0].value| <= p
    ensures p == 0 ==> A[0] == m
  {
    StartsWithin(A[1..], p - |A[0].value|, m);
  }

  lemma SharedWhole(A: seq<Segment>, B: seq<Segment>, s: nat, p: nat)
    requires OwnParts(A, B, s, p) && A[0].kind.TEXT? && B[0].kind.TEXT? && |A[0].value| == p == |B[0].value|
    ensures A[0] == B[0] && |A| > 1
  {
    var l, r := Join(A), Join(B);
    JoinSingle(A);
    assert l[..|l| - s][..p] == A[0].value && r[..|r| - s][..p] == B[0].value;
  }

  lemma FrontMarkersDiffer(A: seq<Segment>, B: seq<Segment>, s: nat, p: nat, m: Segment)
    requires OwnParts(A, B, s, p) && WellCut(A) && WellCut(B) && Unmatched(A, B) && m.kind.MARKER?
    ensures !(Starts(A, p, m) && Starts(B, p, m))
  {
    hide Starts, WellCut, AllNonEmpty, BackShare, FrontShare, Join;
    if Starts(A, p, m) && Starts(B, p, m) {
      OwnPartsOf(A, B, s, p);
      NoShare(Join(A), Join(B), s);
      FirstMarker(A, p, m);
      FirstMarker(B, p, m);
      if B[0].kind.TEXT? && A[0].kind.TEXT? {
        FrontIs(A, B, s, p);
        FrontShared(A, B, s, p);
        SharedWhole(A, B, s, p);
      }
    }
  }

  lemma FrontIs(A: seq<Segment>, B: seq<Segment>, s: nat, p: nat)
    requires s <= |Join(A)| && s <= |Join(B)| && p == FrontShare(Join(A), Join(B), s, true)
    ensures p == CommonPrefix(Join(A)[..|Join(A)| - s], Join(B)[..|Join(B)| - s])
  {
    hide Join, CommonPrefix;
  }

  // What follows the marker that ends where the shared end begins.
  lemma LastMarker(A: seq<Segment>, s: nat, m: Segment) returns (t: seq<Segment>)
    requires A != [] && WellCut(A) && m.kind.MARKER? && Starts(A, |Join(A)| - s - |m.value|, m) && s <= |Join(A)|
    ensures WellCut(t) && Join(t) == Join(A)[|Join(A)| - s..]
    ensures s == 0 ==> A[|A| - 1] == m
    ensures A[|A| - 1].kind.TEXT? ==> |A| > 1 && t != [] && A[|A| - 1] == t[|t| - 1]
  {
    t := Behind(A, |Join(A)| - s - |m.value|, m);
    assert t != [] ==> WellCutAt(t) && t[0].value != "";
  }

  lemma SameSegments(t: seq<Segment>, u: seq<Segment>)
    requires WellCut(t) && WellCut(u) && Join(t) == Join(u)
    ensures t == u
  {
    hide *;
    OnlySegmentation(t);
    OnlySegmentation(u);
  }

  lemma BackIsShared(l: string, r: string, s: nat)
    requires s == BackShare(l, r, true)
    ensures l[|l| - s..] == r[|r| - s..]
  {
    hide CommonSuffix;
  }

  lemma BackMarkersDiffer(A: seq<Segment>, B: seq<Segment>, s: nat, p: nat, m: Segment)
    requires OwnParts(A, B, s, p) && WellCut(A) && WellCut(B) && Unmatched(A, B) && m.kind.MARKER?
    ensures !(Starts(A, |Join(A)| - s - |m.value|, m) && Starts(B, |Join(B)| - s - |m.value|, m))
  {
    hide Starts, WellCut, AllNonEmpty, BackShare, FrontShare, Join;
    OwnPartsOf(A, B, s, p);
    NoShare(Join(A), Join(B), s);
    if Starts(A, |Join(A)| - s - |m.value|, m) && Starts(B, |Join(B)| - s - |m.value|, m) {
      var t := LastMarker(A, s, m);
      var u := LastMarker(B, s, m);
      if A[|A| - 1].kind.TEXT? && B[|B| - 1].kind.TEXT? {
        BackIsShared(Join(A), Join(B), s);
        SameSegments(t, u);
      }
    }
  }

  // ---------- the theorems ----------

  predicate BothOwn(left: string, right: string) {
    var d := Diff(left, right);
    Rebuilds(d, left, right) && d.left != "" && d.right != ""
  }

  lemma OwnNotDone(L: seq<Segment>, R: seq<Segment>, c: Walk)
    requires Fits(L, R, c)
    ensures Finish(L, R, c).left != "" ==> !c.lDone
    ensures Finish(L, R, c).right != "" ==> !c.rDone
  {
    FinishWhole(L, R, c);
    if c.lDone {
      NoneLeft(L, c.ls);
    }
    if c.rDone {
      NoneLeft(R, c.rs);
    }
    hide Finish;
  }

  lemma OwnNotEmpty(left: string, right: string)
    requires BothOwn(left, right)
    ensures left != "" && right != ""
    ensures var L, R := Segments(left), Segments(right);
      L != [] && R != [] && Diff(left, right) == Finish(L, R, Close(L, R, Aligned(left, right)))
  {
    hide Aligned, Close, Finish, Rebuilds;
    NoSegments(left);
    NoSegments(right);
    hide Segments;
  }

  // Own parts on both sides: nothing was taken after the loop.
  predicate IsOwnWalk(L: seq<Segment>, R: seq<Segment>, w: Walk) {
    && Fits(L, R, w) && !w.lDone && !w.rDone && BothOnBorders(L, R, w)
    && Unmatched(L[w.ls..w.le + 1], R[w.rs..w.re + 1])
  }

  lemma OwnWalk(left: string, right: string)
    requires BothOwn(left, right) && left != "" && right != ""
    ensures var L, R, w := Segments(left), Segments(right), Aligned(left, right);
      IsOwnWalk(L, R, w) && Diff(left, right) == Finish(L, R, w)
  {
    hide *;
    var L, R, w := Segments(left), Segments(right), Aligned(left, right);
    NothingLost(left, right, w);
    OwnNotEmpty(left, right);
    OwnRests(left, right);
    OwnNotDone(L, R, Close(L, R, w));
    CloseUnmatched(L, R, w);
    OwnWalkIs(L, R, w);
  }

  lemma OwnWalkParts(L: seq<Segment>, R: seq<Segment>, w: Walk)
    requires IsOwnWalk(L, R, w)
    ensures Fits(L, R, w) && !w.lDone && !w.rDone && BothOnBorders(L, R, w)
    ensures w.ls <= w.le < |L| && w.rs <= w.re < |R| && Unmatched(L[w.ls..w.le + 1], R[w.rs..w.re + 1])
  {
    hide BothOnBorders, Unmatched;
  }

  lemma OwnWalkIs(L: seq<Segment>, R: seq<Segment>, w: Walk)
    requires Fits(L, R, w) && !w.lDone && !w.rDone && BothOnBorders(L, R, w)
    requires Unmatched(L[w.ls..w.le + 1], R[w.rs..w.re + 1])
    ensures IsOwnWalk(L, R, w)
  {
    hide BothOnBorders, Unmatched;
  }

  // What the difference of two such texts is made of: the segments A and B left over, and how far they are shared.
  lemma OwnPartsAre(left: string, right: string) returns (k: nat, m: nat, i: nat, j: nat, s: nat, p: nat)
    requires BothOwn(left, right)
    ensures var d, L, R := Diff(left, right), Segments(left), Segments(right);
      && k <= m <= |L| && i <= j <= |R| && WellCut(L[k..m]) && WellCut(R[i..j]) && Unmatched(L[k..m], R[i..j])
      && OwnParts(L[k..m], R[i..j], s, p)
      && |d.prefix| == |Join(L[..k])| + p == |Join(R[..i])| + p
      && |d.suffix| == s + |Join(L[m..])| == s + |Join(R[j..])|
      && d.left == Join(L[k..m])[p..|Join(L[k..m])| - s] && d.right == Join(R[i..j])[p..|Join(R[i..j])| - s]
  {
    var L, R := Segments(left), Segments(right);
    hide *;
    OwnNotEmpty(left, right);
    OwnWalk(left, right);
    var w := Aligned(left, right);
    OwnWalkParts(L, R, w);
    BothAsTheyAre(L, R, w);
    k, m, i, j := w.ls, w.le + 1, w.rs, w.re + 1;
    LeftBothIs(L, R, w, k, m, i, j);
    OverIs(L, w.ls, w.le, w.lDone, w.prefix, w.suffix, k, m);
    OverIs(R, w.rs, w.re, w.rDone, w.prefix, w.suffix, i, j);
    s, p := SharedSuffix(L, R, w), SharedPrefix(L, R, w);
    FinishShares(L, R, w, k, m, i, j);
    Parts(left, k, m);
    Parts(right, i, j);
    FinishParts(L, R, w);
    OwnRests(left, right);
    AreOwn(L[k..m], R[i..j], s, p);
  }

  lemma FinishParts(L: seq<Segment>, R: seq<Segment>, c: Walk)
    requires Fits(L, R, c)
    ensures var d, s, p := Finish(L, R, c), SharedSuffix(L, R, c), SharedPrefix(L, R, c);
      var l, r := Rest(L, c.ls, c.le, c.lDone), Rest(R, c.rs, c.re, c.rDone);
      p + s <= |l| && p + s <= |r| && d.left == l[p..|l| - s] && d.right == r[p..|r| - s]
  {
    hide Rest, Finish, SharedSuffix, SharedPrefix;
    FinishIs(L, R, c);
  }

  lemma OwnRests(left: string, right: string)
    requires BothOwn(left, right)
    ensures Diff(left, right).left != "" && Diff(left, right).right != ""
  {
    hide Diff;
  }

  lemma AreOwn(A: seq<Segment>, B: seq<Segment>, s: nat, p: nat)
    requires A != [] && B != [] && Shares(A, B, s, p) && p + s < |Join(A)| && p + s < |Join(B)|
    requires AllNonEmpty(A) && AllNonEmpty(B)
    ensures OwnParts(A, B, s, p)
  {
    hide Shares, Join, AllNonEmpty;
  }

  /** Where both texts keep something of their own, the first characters that belong to it differ if both are text, and
      so do the last ones. */
  lemma OwnPartsDiffer(left: string, right: string)
    requires BothOwn(left, right)
    ensures var d, L, R := Diff(left, right), Segments(left), Segments(right);
      && d.left != "" && d.right != ""
      && (InText(L, |d.prefix|) && InText(R, |d.prefix|) ==> d.left[0] != d.right[0])
      && (InText(L, |left| - 1 - |d.suffix|) && InText(R, |right| - 1 - |d.suffix|)
          ==> d.left[|d.left| - 1] != d.right[|d.right| - 1])
  {
    hide *;
    OwnRests(left, right);
    var k, m, i, j, s, p := OwnPartsAre(left, right);
    var A, B := Segments(left)[k..m], Segments(right)[i..j];
    FrontCharsDiffer(A, B, s, p);
    BackCharsDiffer(A, B, s, p);
    OwnLengths(A, B, s, p);
    InTextIn(left, k, m, p, s, Diff(left, right));
    InTextIn(right, i, j, p, s, Diff(left, right));
    SliceEnds(Join(A), p, s);
    SliceEnds(Join(B), p, s);
  }

  lemma InTextIn(text: string, k: nat, m: nat, p: nat, s: nat, d: DiffSplit)
    requires k <= m <= |Segments(text)|
    requires p + s < |Join(Segments(text)[k..m])|
    requires |d.prefix| == |Join(Segments(text)[..k])| + p && |d.suffix| == s + |Join(Segments(text)[m..])|
    ensures var segs, A := Segments(text), Segments(text)[k..m];
      && (InText(segs, |d.prefix|) <==> InText(A, p))
      && (InText(segs, |text| - 1 - |d.suffix|) <==> InText(A, |Join(A)| - 1 - s))
  {
    hide *;
    SegmentsJoin(text);
    InTextBetween(Segments(text), k, m, s, p);
  }

  lemma SliceEnds(x: string, p: nat, s: nat)
    requires p + s < |x|
    ensures var y := x[p..|x| - s]; y != "" && y[0] == x[p] && y[|y| - 1] == x[|x| - 1 - s]
  {
  }

  lemma InTextBetween(segs: seq<Segment>, k: nat, m: nat, s: nat, p: nat)
    requires k <= m <= |segs| && p + s < |Join(segs[k..m])|
    ensures InText(segs, |Join(segs[..k])| + p) <==> InText(segs[k..m], p)
    ensures InText(segs, |Join(segs)| - 1 - (s + |Join(segs[m..])|)) <==> InText(segs[k..m], |Join(segs[k..m])| - 1 - s)
  {
    JoinThree(segs, k, m);
    hide *;
    CutsBetween(segs, k, m, p);
    CutsBetween(segs, k, m, |Join(segs[k..m])| - 1 - s);
    assert |Join(segs)| - 1 - (s + |Join(segs[m..])|) == |Join(segs[..k])| + (|Join(segs[k..m])| - 1 - s);
  }

  /** And no marker begins both own parts, or ends both. */
  lemma OwnMarkersDiffer(left: string, right: string, v: string)
    requires BothOwn(left, right) && IsMarker(v)
    ensures var d, L, R, m := Diff(left, right), Segments(left), Segments(right), Segment(MARKER, v);
      && !(Starts(L, |d.prefix|, m) && Starts(R, |d.prefix|, m))
      && !(Starts(L, |left| - |d.suffix| - |v|, m) && Starts(R, |right| - |d.suffix| - |v|, m))
  {
    NotEmpty(v);
    hide *;
    var k, m, i, j, s, p := OwnPartsAre(left, right);
    var A, B, g := Segments(left)[k..m], Segments(right)[i..j], Segment(MARKER, v);
    OwnLengths(A, B, s, p);
    FrontMarkersDiffer(A, B, s, p, g);
    BackMarkersDiffer(A, B, s, p, g);
    StartsIn(left, k, m, p, s, Diff(left, right), g);
    StartsIn(right, i, j, p, s, Diff(left, right), g);
  }

  lemma NotEmpty(v: string)
    ensures IsMarker(v) ==> v != ""
  {
  }

  lemma StartsIn(text: string, k: nat, m: nat, p: nat, s: nat, d: DiffSplit, g: Segment)
    requires k <= m <= |Segments(text)| && g.value != ""
    requires p + s < |Join(Segments(text)[k..m])|
    requires |d.prefix| == |Join(Segments(text)[..k])| + p && |d.suffix| == s + |Join(Segments(text)[m..])|
    ensures var segs, A := Segments(text), Segments(text)[k..m];
      && (Starts(segs, |d.prefix|, g) <==> Starts(A, p, g))
      && (Starts(segs, |text| - |d.suffix| - |g.value|, g) <==> Starts(A, |Join(A)| - s - |g.value|, g))
  {
    hide *;
    SegmentsJoin(text);
    StartsBetween(Segments(text), k, m, p, s, g);
  }

  lemma OwnLengths(A: seq<Segment>, B: seq<Segment>, s: nat, p: nat)
    requires OwnParts(A, B, s, p)
    ensures p + s < |Join(A)| && p + s < |Join(B)|
  {
  }

  /** Two different markers share nothing, whatever characters they have in common. */
  lemma MarkersShareNothing(x: string, y: string)
    requires IsMarker(x) && IsMarker(y) && x != y
    ensures Diff(x, y) == DiffSplit("", "", x, y)
  {
    var L, R := [Segment(MARKER, x)], [Segment(MARKER, y)];
    MarkerFirst(x, "");
    MarkerFirst(y, "");
    assert x + "" == x && y + "" == y && Segments("") == [];
    assert Segments(x) == L && Segments(y) == R;
    var w := Start(L, R);
    hide Segments, CommonPrefix, CommonSuffix, IsMarker;
    assert Aligned(x, y) == w && Close(L, R, w) == w;
    assert L[0..1] == L && R[0..1] == R;
    JoinSingle(L);
    JoinSingle(R);
    assert LeftRest(L, R, w) == x && RightRest(L, R, w) == y;
    assert Finish(L, R, w) == DiffSplit("", "", x, y);
  }

  // ---------- where a marker is cut ----------

  lemma BackCutSegments(left: string, right: string)
    requires left == "<m>" + "bc" && right == "x>bc"
    ensures Segments(left) == [Segment(MARKER, "<m>"), Segment(TEXT, "bc")] && Segments(right) == [Segment(TEXT, right)]
  {
    assert IsMarker("<m>") && IsPlain("bc") && IsPlain(right);
    hide *;
    MarkerFirst("<m>", "bc");
    LastText("bc");
    LastText(right);
  }

  lemma BackCutRests(left: string, right: string, L: seq<Segment>, R: seq<Segment>)
    requires left == "<m>" + "bc" && right == "x>bc"
    requires L == [Segment(MARKER, "<m>"), Segment(TEXT, "bc")] && R == [Segment(TEXT, right)]
    ensures LeftRest(L, R, Start(L, R)) == left && RightRest(L, R, Start(L, R)) == right
  {
    assert L[0..2] == L && R[0..1] == R && L[1..] == [L[1]];
    JoinSingle([L[1]]);
    JoinSingle(R);
  }

  lemma BackCutText(left: string, right: string)
    requires left == "<m>" + "bc" && right == "x>bc"
    ensures SplitText(left, right, false, true, "", "") == DiffSplit("", ">bc", "<m", "x")
  {
    hide CommonPrefix, CommonSuffix;
    assert left[2..] == right[1..];
    SuffixIsUnique(left, right, 3);
    assert left[..2] == "<m" && right[..1] == "x";
  }

  lemma BackCutWalk(L: seq<Segment>, R: seq<Segment>)
    requires L == [Segment(MARKER, "<m>"), Segment(TEXT, "bc")] && R == [Segment(TEXT, "x>bc")]
    ensures var w := Start(L, R);
      && Align(L, R, w) == w && Close(L, R, w) == w && Cuts(L, 2)
      && Finish(L, R, w) == SplitText(LeftRest(L, R, w), RightRest(L, R, w), false, true, "", "")
  {
    assert L[1] != R[0];
    hide SplitText, Rest;
  }

  lemma DiffFrom(left: string, right: string, L: seq<Segment>, R: seq<Segment>)
    requires left != "" && right != "" && L == Segments(left) && R == Segments(right) && L != [] && R != []
    ensures Diff(left, right) == Repair(Finish(L, R, Close(L, R, Align(L, R, Start(L, R)))), left, right)
  {
    hide Segments, Finish, Close, Align, Repair;
  }

  // What goes wrong: both texts are rebuilt, but a position inside a marker is cut.
  lemma CutsFirst(d: DiffSplit, left: string, right: string)
    requires Cuts(Segments(left), |left| - |d.suffix|) || Cuts(Segments(right), |d.prefix|)
    ensures !Respects(d, left, right)
  {
    hide Cuts, Segments;
  }

  /** Text behind a stray bracket on one side is compared with a marker of the other side, and cuts it. */
  lemma BackCutExample() returns (left: string, right: string)
    ensures left == "<m>" + "bc" && right == "x>bc"
    ensures Diff(left, right) == DiffSplit("", ">bc", "<m", "x")
    ensures Rebuilds(Diff(left, right), left, right) && !Respects(Diff(left, right), left, right)
  {
    left, right := "<m>" + "bc", "x>bc";
    var d := DiffSplit("", ">bc", "<m", "x");
    assert Rebuilds(d, left, right) && Repair(d, left, right) == d && |left| - |d.suffix| == 2;
    hide *;
    BackCutSegments(left, right);
    var L, R := Segments(left), Segments(right);
    BackCutWalk(L, R);
    BackCutRests(left, right, L, R);
    BackCutText(left, right);
    DiffFrom(left, right, L, R);
    CutsFirst(d, left, right);
  }

  lemma FrontCutSegments(left: string, right: string)
    requires left == "<a" && right == "<a>" + left
    ensures Segments(left) == [Segment(TEXT, left)] && Segments(right) == [Segment(MARKER, "<a>"), Segment(TEXT, left)]
  {
    assert IsUnclosed(left) && IsMarker("<a>");
    hide *;
    LastText(left);
    MarkerFirst("<a>", left);
  }

  lemma FrontCutWalk(L: seq<Segment>, R: seq<Segment>)
    requires L == [Segment(TEXT, "<a")] && R == [Segment(MARKER, "<a>"), Segment(TEXT, "<a")]
    ensures var w := Start(L, R); var c := w.(suffix := "<a", re := 0, lDone := true);
      && Align(L, R, w) == w && Close(L, R, w) == c && Fits(L, R, c) && Cuts(R, 2)
      && LeftRest(L, R, c) == "" && RightRest(L, R, c) == "<a>"
  {
    assert L[0] == R[1];
    assert R[0..1] == [R[0]] && "<a" + "" == "<a";
    JoinSingle([R[0]]);
    NoneLeft(L, 0);
  }

  lemma FrontCutRepair(d: DiffSplit, left: string, right: string)
    requires left == "<a" && right == "<a>" + left && d.left == "" && d.right == "<a>"
    ensures Repair(d, left, right) == DiffSplit(left, "", "", "><a") && Rebuilds(Repair(d, left, right), left, right)
  {
    assert right == left + "><a" && right[2..] == "><a";
  }

  /** The correction for a left text that the right one continues cuts a marker that the right one closes. */
  lemma FrontCutExample() returns (left: string, right: string)
    ensures left == "<a" && right == "<a>" + "<a"
    ensures Diff(left, right) == DiffSplit("<a", "", "", "><a")
    ensures Rebuilds(Diff(left, right), left, right) && !Respects(Diff(left, right), left, right)
  {
    hide *;
    left, right := "<a", "<a>" + "<a";
    FrontCutSegments(left, right);
    var L, R := Segments(left), Segments(right);
    FrontCutWalk(L, R);
    var d := Finish(L, R, Close(L, R, Align(L, R, Start(L, R))));
    FinishWhole(L, R, Close(L, R, Align(L, R, Start(L, R))));
    FrontCutRepair(d, left, right);
    DiffFrom(left, right, L, R);
    CutsFirst(Repair(d, left, right), left, right);
  }

  // The two kinds of markers, each with its own closing bracket.
  lemma MarkersLook(c: char)
    requires c != '>' && c != ']'
    ensures IsMarker("<" + [c] + ">") && IsMarker("[" + [c] + "]")
    ensures !IsMarker("<" + [c] + "]") && !IsMarker("[" + [c] + ">")
  {
  }
}
