/** When a marker-aligned difference rebuilds both texts. */
module MarkerDiffFacts {
  import opened Markers
  import opened MarkerDiff

  // What was taken and what is left make up the whole text, on either side.
  predicate LeftWhole(L: seq<Segment>, R: seq<Segment>, w: Walk)
    requires Fits(L, R, w)
  {
    Join(L) == w.prefix + LeftRest(L, R, w) + w.suffix
  }

  predicate RightWhole(L: seq<Segment>, R: seq<Segment>, w: Walk)
    requires Fits(L, R, w)
  {
    Join(R) == w.prefix + RightRest(L, R, w) + w.suffix
  }

  predicate Whole(L: seq<Segment>, R: seq<Segment>, w: Walk)
    requires Fits(L, R, w)
  {
    LeftWhole(L, R, w) && RightWhole(L, R, w)
  }

  lemma JoinFirst(segs: seq<Segment>, s: nat, e: nat)
    requires s < e <= |segs|
    ensures Join(segs[s..e]) == segs[s].value + Join(segs[s + 1..e])
  {
    assert segs[s..e][1..] == segs[s + 1..e];
  }

  lemma JoinLast(segs: seq<Segment>, s: nat, e: nat)
    requires s <= e < |segs|
    ensures Join(segs[s..e + 1]) == Join(segs[s..e]) + segs[e].value
  {
    assert segs[s..e + 1] == segs[s..e] + [segs[e]];
    JoinConcat(segs[s..e], [segs[e]]);
    assert Join([segs[e]]) == segs[e].value;
  }

  lemma MoveToPrefix(p: string, v: string, x: string, s: string)
    ensures (p + v) + x + s == p + (v + x) + s
  {
  }

  lemma MoveToSuffix(p: string, x: string, v: string, s: string)
    ensures p + x + (v + s) == p + (x + v) + s
  {
  }

  lemma PrefixKeepsWhole(L: seq<Segment>, R: seq<Segment>, w: Walk)
    requires Fits(L, R, w) && Whole(L, R, w) && w.ls != w.le && w.rs != w.re && !w.lDone && !w.rDone
    ensures Whole(L, R, TakePrefix(L, R, w))
  {
    hide Join;
    if L[w.ls] == R[w.rs] {
      assert LeftWhole(L, R, TakePrefix(L, R, w)) by {
        JoinFirst(L, w.ls, w.le + 1);
        MoveToPrefix(w.prefix, L[w.ls].value, Join(L[w.ls + 1..w.le + 1]), w.suffix);
      }
      assert RightWhole(L, R, TakePrefix(L, R, w)) by {
        JoinFirst(R, w.rs, w.re + 1);
        MoveToPrefix(w.prefix, R[w.rs].value, Join(R[w.rs + 1..w.re + 1]), w.suffix);
      }
    }
  }

  lemma SuffixKeepsWhole(L: seq<Segment>, R: seq<Segment>, w: Walk)
    requires Fits(L, R, w) && Whole(L, R, w) && !w.lDone && !w.rDone
    ensures Whole(L, R, TakeSuffix(L, R, w))
  {
    hide Join;
    if L[w.le] == R[w.re] {
      assert LeftWhole(L, R, TakeSuffix(L, R, w)) by {
        JoinLast(L, w.ls, w.le);
        MoveToSuffix(w.prefix, Join(L[w.ls..w.le]), L[w.le].value, w.suffix);
      }
      assert RightWhole(L, R, TakeSuffix(L, R, w)) by {
        JoinLast(R, w.rs, w.re);
        MoveToSuffix(w.prefix, Join(R[w.rs..w.re]), R[w.re].value, w.suffix);
      }
    }
  }

  // Why a flag is set: the segment that one side had left went to the suffix, and the other side moved on.
  predicate Reason(L: seq<Segment>, R: seq<Segment>, w: Walk)
    requires Fits(L, R, w)
  {
    && (w.lDone && !w.rDone ==> w.re + 1 < |R| && L[w.le] == R[w.re + 1])
    && (w.rDone && !w.lDone ==> w.le + 1 < |L| && R[w.re] == L[w.le + 1])
  }

  /** The loop keeps both texts whole. */
  lemma {:induction false} AlignKeepsWhole(L: seq<Segment>, R: seq<Segment>, w: Walk)
    requires Fits(L, R, w) && Whole(L, R, w) && Reason(L, R, w)
    requires w.ls != w.le && w.rs != w.re ==> !w.lDone && !w.rDone
    ensures Whole(L, R, Align(L, R, w)) && Reason(L, R, Align(L, R, w))
    decreases w.le - w.ls + w.re - w.rs
  {
    if Advances(L, R, w) {
      PrefixKeepsWhole(L, R, w);
      SuffixKeepsWhole(L, R, TakePrefix(L, R, w));
      AlignKeepsWhole(L, R, Step(L, R, w));
    }
  }

  lemma StartIsWhole(L: seq<Segment>, R: seq<Segment>)
    requires L != [] && R != []
    ensures Whole(L, R, Start(L, R)) && Reason(L, R, Start(L, R))
  {
    assert L[0..|L|] == L && R[0..|R|] == R;
  }

  // A segment is spent twice: the last segment of one side, already taken by the loop, is matched again behind it.
  predicate Respends(L: seq<Segment>, R: seq<Segment>, w: Walk)
    requires Fits(L, R, w)
  {
    w.lDone != w.rDone && Fires(L, R, w)
  }

  lemma CloseKeepsWhole(L: seq<Segment>, R: seq<Segment>, w: Walk)
    requires Fits(L, R, w) && Whole(L, R, w) && !(w.lDone && w.rDone) && !Respends(L, R, w)
    ensures Whole(L, R, Close(L, R, w))
  {
    if LeftTakesSuffix(L, R, w) || RightTakesSuffix(L, R, w) {
      hide Whole, Close;
      CloseBack(L, R, w);
    } else if LeftTakesPrefix(L, R, w) || RightTakesPrefix(L, R, w) || BothTakeMarker(L, R, w) {
      hide Whole, Close;
      CloseFront(L, R, w);
    }
  }

  lemma CloseBack(L: seq<Segment>, R: seq<Segment>, w: Walk)
    requires Fits(L, R, w) && Whole(L, R, w) && !w.lDone && !w.rDone
    requires LeftTakesSuffix(L, R, w) || RightTakesSuffix(L, R, w)
    ensures Whole(L, R, Close(L, R, w))
  {
    hide Join;
    JoinLast(R, w.rs, w.re);
    JoinLast(L, w.ls, w.le);
    MoveToSuffix(w.prefix, Join(L[w.ls..w.le]), L[w.le].value, w.suffix);
    MoveToSuffix(w.prefix, Join(R[w.rs..w.re]), R[w.re].value, w.suffix);
  }

  lemma CloseFront(L: seq<Segment>, R: seq<Segment>, w: Walk)
    requires Fits(L, R, w) && Whole(L, R, w) && !w.lDone && !w.rDone
    requires LeftTakesPrefix(L, R, w) || RightTakesPrefix(L, R, w) || BothTakeMarker(L, R, w)
    ensures Whole(L, R, Close(L, R, w))
  {
    hide Join;
    JoinFirst(R, w.rs, w.re + 1);
    JoinFirst(L, w.ls, w.le + 1);
    assert L[w.le + 1..w.le + 1] == L[w.le..w.le] && R[w.re + 1..w.re + 1] == R[w.re..w.re];
    MoveToPrefix(w.prefix, L[w.ls].value, Join(L[w.ls + 1..w.le + 1]), w.suffix);
    MoveToPrefix(w.prefix, R[w.rs].value, Join(R[w.rs + 1..w.re + 1]), w.suffix);
  }

  // ---------- text and repair ----------

  lemma SplitTextWhole(l: string, r: string, canPrefix: bool, canSuffix: bool, prefix: string, suffix: string)
    ensures var d := SplitText(l, r, canPrefix, canSuffix, prefix, suffix);
            && d.prefix + d.left + d.suffix == prefix + l + suffix
            && d.prefix + d.right + d.suffix == prefix + r + suffix
  {
    var s := if canSuffix then CommonSuffix(l, r) else 0;
    var p := if canPrefix then CommonPrefix(l[..|l| - s], r[..|r| - s]) else 0;
    CommonEnds(l, r, s, p, canPrefix, canSuffix);
    var d := SplitText(l, r, canPrefix, canSuffix, prefix, suffix);
    assert d == DiffSplit(prefix + l[..p], l[|l| - s..] + suffix, l[p..|l| - s], r[p..|r| - s]) by {
      hide CommonPrefix, CommonSuffix;
    }
    hide *;
    ThreeParts(l, s, p);
    ThreeParts(r, s, p);
    Pieces(l, l[..p], d.left, l[|l| - s..], prefix, suffix);
    Pieces(r, l[..p], d.right, l[|l| - s..], prefix, suffix);
  }

  lemma CommonEnds(l: string, r: string, s: nat, p: nat, canPrefix: bool, canSuffix: bool)
    requires s == if canSuffix then CommonSuffix(l, r) else 0
    requires p == if canPrefix then CommonPrefix(l[..|l| - s], r[..|r| - s]) else 0
    ensures p + s <= |l| && p + s <= |r| && l[..p] == r[..p] && l[|l| - s..] == r[|r| - s..]
  {
    hide CommonPrefix, CommonSuffix;
    assert l[..p] == l[..|l| - s][..p] && r[..p] == r[..|r| - s][..p];
  }

  lemma SplitTextEmpty(l: string, r: string, canPrefix: bool, canSuffix: bool, prefix: string, suffix: string)
    ensures var d := SplitText(l, r, canPrefix, canSuffix, prefix, suffix);
            && (l == "" ==> d.left == "" && d.right == r)
            && (r == "" ==> d.right == "" && d.left == l)
  {
    hide CommonPrefix, CommonSuffix;
  }

  lemma ThreeParts(x: string, s: nat, p: nat)
    requires p + s <= |x|
    ensures x == x[..p] + x[p..|x| - s] + x[|x| - s..]
  {
  }

  lemma Pieces(x: string, h: string, m: string, t: string, prefix: string, suffix: string)
    requires x == h + m + t
    ensures (prefix + h) + m + (t + suffix) == prefix + x + suffix
  {
  }

  // What the last two corrections come to.
  lemma RepairIff(d: DiffSplit, left: string, right: string)
    ensures Rebuilds(Repair(d, left, right), left, right) <==>
            if d.left == "" && d.right == "" then left == right
            else (d.left == "" && left <= right) || Rebuilds(d, left, right)
  {
    if d.left == "" && d.right != "" && left <= right {
      assert left + right[|left|..] == right;
    }
  }

  // ---------- the theorem ----------

  // A text is lost in the difference: the loop ended with one side used up, the match behind it spends the same
  // segment again, and the correction for a left side that the right side continues does not apply.
  predicate Loses(left: string, right: string) {
    && left != "" && right != ""
    && var L, R := Segments(left), Segments(right);
       var w := Aligned(left, right);
       Respends(L, R, w) && !(w.lDone && w.rs != w.re && left <= right)
  }

  lemma FinishWhole(L: seq<Segment>, R: seq<Segment>, c: Walk)
    requires Fits(L, R, c)
    ensures var d := Finish(L, R, c);
            && d.prefix + d.left + d.suffix == c.prefix + LeftRest(L, R, c) + c.suffix
            && d.prefix + d.right + d.suffix == c.prefix + RightRest(L, R, c) + c.suffix
            && (LeftRest(L, R, c) == "" ==> d.left == "" && d.right == RightRest(L, R, c))
            && (RightRest(L, R, c) == "" ==> d.right == "" && d.left == LeftRest(L, R, c))
  {
    hide Rest, Join, SplitText;
    var canPrefix := R[c.rs].kind.TEXT? && L[c.ls].kind.TEXT?;
    var canSuffix := L[c.le].kind.TEXT? && R[c.re].kind.TEXT?;
    SplitTextWhole(LeftRest(L, R, c), RightRest(L, R, c), canPrefix, canSuffix, c.prefix, c.suffix);
    SplitTextEmpty(LeftRest(L, R, c), RightRest(L, R, c), canPrefix, canSuffix, c.prefix, c.suffix);
  }

  lemma KeptWhole(left: string, right: string, L: seq<Segment>, R: seq<Segment>, w: Walk)
    requires Join(L) == left && Join(R) == right
    requires Fits(L, R, w) && Whole(L, R, w) && !(w.lDone && w.rDone) && !Respends(L, R, w)
    ensures Rebuilds(Repair(Finish(L, R, Close(L, R, w)), left, right), left, right)
  {
    CloseKeepsWhole(L, R, w);
    var c := Close(L, R, w);
    hide Close, Respends, Rest, Join, Repair, Finish;
    FinishWhole(L, R, c);
    RepairIff(Finish(L, R, c), left, right);
  }

  lemma BothEmpty(d: DiffSplit, x: string)
    requires d.left == "" && d.right == ""
    ensures Repair(d, x, x) == DiffSplit(x, "", "", "")
  {
  }

  lemma BothDone(left: string, right: string, L: seq<Segment>, R: seq<Segment>, w: Walk)
    requires Join(L) == left && Join(R) == right
    requires Fits(L, R, w) && Whole(L, R, w) && w.lDone && w.rDone
    ensures Rebuilds(Repair(Finish(L, R, Close(L, R, w)), left, right), left, right)
    ensures Repair(Finish(L, R, Close(L, R, w)), left, right) == DiffSplit(left, "", "", "")
  {
    hide Join, Finish, Repair, Rest;
    NoneLeft(L, w.ls);
    NoneLeft(R, w.rs);
    assert left == w.prefix + "" + w.suffix == right;
    var c := Close(L, R, w);
    assert c.lDone && c.rDone && c.ls == c.le && c.rs == c.re;
    NoneLeft(L, c.ls);
    NoneLeft(R, c.rs);
    FinishWhole(L, R, c);
    BothEmpty(Finish(L, R, c), left);
  }

  lemma NoneLeft(segs: seq<Segment>, s: nat)
    requires s < |segs|
    ensures Rest(segs, s, s, true) == ""
  {
    assert segs[s..s] == [];
  }

  predicate AllNonEmpty(segs: seq<Segment>) {
    forall i :: 0 <= i < |segs| ==> segs[i].value != ""
  }

  lemma SomeLeft(segs: seq<Segment>, s: nat, e: nat)
    requires s <= e < |segs| && AllNonEmpty(segs)
    ensures Rest(segs, s, e, false) != ""
  {
    JoinFirst(segs, s, e + 1);
  }

  // The left side was used up, and its segment is taken once more: the right text is kept if the correction for texts
  // that extend each other applies.
  lemma RespentLeft(left: string, right: string, L: seq<Segment>, R: seq<Segment>, w: Walk)
    requires Join(L) == left && Join(R) == right && AllNonEmpty(L) && AllNonEmpty(R)
    requires Fits(L, R, w) && Whole(L, R, w) && Respends(L, R, w) && w.lDone
    ensures Rebuilds(Repair(Finish(L, R, Close(L, R, w)), left, right), left, right) <==> w.rs != w.re && left <= right
  {
    var c := Close(L, R, w);
    var d := Finish(L, R, c);
    assert |c.prefix| + |c.suffix| > |left| by { NoneLeft(L, w.ls); }
    assert LeftRest(L, R, c) == "" by { NoneLeft(L, c.ls); }
    if w.rs != w.re {
      assert RightRest(L, R, c) != "" by { SomeLeft(R, c.rs, c.re); }
    } else {
      assert |left| < |right| by { NoneLeft(L, w.ls); SomeLeft(R, w.rs, w.re); }
      assert RightRest(L, R, c) == "" by { NoneLeft(R, c.rs); }
    }
    hide Close, Finish, Repair, Rest, Join, AllNonEmpty;
    FinishWhole(L, R, c);
    RepairIff(d, left, right);
  }

  // The right side was used up, and its segment is taken once more: no correction applies.
  lemma RespentRight(left: string, right: string, L: seq<Segment>, R: seq<Segment>, w: Walk)
    requires Join(L) == left && Join(R) == right && AllNonEmpty(L) && AllNonEmpty(R)
    requires Fits(L, R, w) && Whole(L, R, w) && Respends(L, R, w) && !w.lDone
    ensures !Rebuilds(Repair(Finish(L, R, Close(L, R, w)), left, right), left, right)
  {
    var c := Close(L, R, w);
    var d := Finish(L, R, c);
    assert |c.prefix| + |c.suffix| > |right| by { NoneLeft(R, w.rs); }
    assert RightRest(L, R, c) == "" by { NoneLeft(R, c.rs); }
    if w.ls != w.le {
      assert LeftRest(L, R, c) != "" by { SomeLeft(L, c.ls, c.le); }
    } else {
      assert |right| < |left| by { NoneLeft(R, w.rs); SomeLeft(L, w.ls, w.le); }
      assert LeftRest(L, R, c) == "" by { NoneLeft(L, c.ls); }
    }
    hide Close, Finish, Repair, Rest, Join, AllNonEmpty;
    FinishWhole(L, R, c);
    RepairIff(d, left, right);
  }

  lemma {:induction false} SegmentsNonEmpty(t: string)
    ensures AllNonEmpty(Segments(t))
    decreases |t|
  {
    var segs := Segments(t);
    if t != "" {
      if IsOpener(t[0]) {
        var e := NextCloser(t, 1);
        if e < |t| {
          SegmentsNonEmpty(t[e + 1..]);
          assert segs[1..] == Segments(t[e + 1..]);
        }
      } else {
        var o := NextOpener(t, 0);
        SegmentsNonEmpty(t[o..]);
        assert segs[1..] == Segments(t[o..]);
      }
      forall i | 0 < i < |segs| ensures segs[i].value != "" {
        assert segs[1..][i - 1] == segs[i];
      }
    }
  }

  /** Both texts can be rebuilt from their difference, except exactly when a segment is spent twice for good. */
  lemma DiffRebuildsIff(left: string, right: string)
    ensures Rebuilds(Diff(left, right), left, right) <==> !Loses(left, right)
  {
    if left != "" && right != "" {
      var L, R := Segments(left), Segments(right);
      SegmentsJoin(left);
      SegmentsJoin(right);
      SegmentsNonEmpty(left);
      SegmentsNonEmpty(right);
      StartIsWhole(L, R);
      AlignKeepsWhole(L, R, Start(L, R));
      var w := Aligned(left, right);
      hide Segments, Align, Close, Finish, Repair, Respends, Whole;
      if Respends(L, R, w) {
        if w.lDone {
          RespentLeft(left, right, L, R, w);
        } else {
          RespentRight(left, right, L, R, w);
        }
      } else if w.lDone && w.rDone {
        BothDone(left, right, L, R, w);
      } else {
        KeptWhole(left, right, L, R, w);
      }
    }
  }

  predicate NoRepeats(segs: seq<Segment>) {
    forall i, j :: 0 <= i < j < |segs| ==> segs[i] != segs[j]
  }

  lemma NoRespend(L: seq<Segment>, R: seq<Segment>, w: Walk)
    requires Fits(L, R, w) && Reason(L, R, w) && NoRepeats(L) && NoRepeats(R)
    ensures !Respends(L, R, w)
  {
    if w.lDone && !w.rDone {
      assert R[w.re + 1] != R[w.re] && R[w.re + 1] != R[w.rs];
    } else if w.rDone && !w.lDone {
      assert L[w.le + 1] != L[w.le] && L[w.le + 1] != L[w.ls];
    }
  }

  /** With no segment repeated on either side, nothing is lost. */
  lemma DistinctSegmentsRebuild(left: string, right: string)
    requires NoRepeats(Segments(left)) && NoRepeats(Segments(right))
    ensures Rebuilds(Diff(left, right), left, right)
  {
    DiffRebuildsIff(left, right);
    if left != "" && right != "" {
      var L, R := Segments(left), Segments(right);
      StartIsWhole(L, R);
      hide Segments, Diff, Rebuilds, Whole, Reason, Respends, NoRepeats, Align;
      AlignKeepsWhole(L, R, Start(L, R));
      NoRespend(L, R, Aligned(left, right));
    }
  }

  // ---------- equal texts, and texts without markers ----------

  lemma {:induction false} AlignSame(L: seq<Segment>, w: Walk)
    requires Fits(L, L, w) && w.ls == w.rs && w.le == w.re && w.lDone == w.rDone
    ensures var r := Align(L, L, w); r.ls == r.rs == r.le == r.re && r.lDone == r.rDone
    decreases w.le - w.ls
  {
    if Advances(L, L, w) {
      AlignSame(L, Step(L, L, w));
    }
  }

  /** The difference of a text with itself is the text and nothing else. */
  lemma SameDiff(x: string)
    ensures Diff(x, x) == DiffSplit(x, "", "", "")
  {
    if x != "" {
      var L := Segments(x);
      SegmentsJoin(x);
      StartIsWhole(L, L);
      AlignKeepsWhole(L, L, Start(L, L));
      AlignSame(L, Start(L, L));
      var w := Aligned(x, x);
      hide Segments, Align, Repair, Finish, Whole, SplitText;
      if w.lDone {
        BothDone(x, x, L, L, w);
      } else {
        SameClose(L, w);
        assert Finish(L, L, Close(L, L, w)).left == "" && Finish(L, L, Close(L, L, w)).right == "";
        BothEmpty(Finish(L, L, Close(L, L, w)), x);
      }
    }
  }

  lemma SameClose(L: seq<Segment>, w: Walk)
    requires Fits(L, L, w) && w.ls == w.rs == w.le == w.re && !w.lDone && !w.rDone
    ensures var d := Finish(L, L, Close(L, L, w)); d.left == "" && d.right == ""
  {
    var c := Close(L, L, w);
    if L[w.ls].kind.MARKER? {
      NoneLeft(L, w.ls);
      FinishWhole(L, L, c);
    } else {
      var l := LeftRest(L, L, w);
      SuffixIsUnique(l, l, |l|);
    }
  }

  predicate EndsDiffer(a: string, b: string) {
    a == "" || b == "" || (a[0] != b[0] && a[|a| - 1] != b[|b| - 1])
  }

  /** Without markers, what is left differs at both ends: the shared ends were taken as far as they go. */
  lemma PlainTextDiff(left: string, right: string)
    requires IsPlain(left) && IsPlain(right)
    ensures EndsDiffer(Diff(left, right).left, Diff(left, right).right)
  {
    LastText(left);
    LastText(right);
    SegmentsJoin(left);
    SegmentsJoin(right);
    var L, R := [Segment(TEXT, left)], [Segment(TEXT, right)];
    assert Segments(left) == L && Segments(right) == R;
    hide Segments;
    var w := Start(L, R);
    assert Aligned(left, right) == w && Close(L, R, w) == w;
    assert L[0..1] == L && R[0..1] == R;
    assert LeftRest(L, R, w) == left && RightRest(L, R, w) == right;
    SplitTextEnds(left, right);
  }

  lemma SplitTextEnds(l: string, r: string)
    ensures var d := SplitText(l, r, true, true, "", ""); EndsDiffer(d.left, d.right)
  {
    var s := CommonSuffix(l, r);
    var l', r' := l[..|l| - s], r[..|r| - s];
    var p := CommonPrefix(l', r');
    hide CommonPrefix, CommonSuffix;
    var d := SplitText(l, r, true, true, "", "");
    assert d.left == l'[p..] && d.right == r'[p..] by { Middle(l, s, p); Middle(r, s, p); }
    hide SplitText;
    if d.left != "" && d.right != "" {
      MiddleEnds(l, s, p);
      MiddleEnds(r, s, p);
    }
  }

  lemma Middle(x: string, s: nat, p: nat)
    requires p + s <= |x|
    ensures x[..|x| - s][p..] == x[p..|x| - s]
  {
  }

  lemma MiddleEnds(x: string, s: nat, p: nat)
    requires p + s < |x|
    ensures var m := x[..|x| - s][p..]; m[0] == x[..|x| - s][p] && m[|m| - 1] == x[|x| - 1 - s]
  {
  }

  // ---------- the shortest failure ----------

  // A doubled marker at the end of the right side is lost: the shortest failures, such as <a><b> against <a><b><b>.
  lemma DoubledMarkerLost(x: string, y: string)
    requires IsMarker(x) && IsMarker(y) && x != y
    ensures Loses(x + y, x + y + y)
    ensures Diff(x + y, x + y + y) == DiffSplit(x + y, "", "", "")
  {
    var a, b := Segment(MARKER, x), Segment(MARKER, y);
    var l, r := x + y, x + y + y;
    CutMarkers(x, y);
    AlignDoubled(a, b);
    var L, R := [a, b], [a, b, b];
    var w := Walk(1, 1, 1, 1, x, y, true, false);
    assert Aligned(l, r) == w;
    hide Segments, SplitText, Join, Align, IsMarker;
    DiffRebuildsIff(l, r);
    NoneLeft(L, 1);
    NoneLeft(R, 1);
    FinishWhole(L, R, Close(L, R, w));
  }

  lemma AlignDoubled(a: Segment, b: Segment)
    requires a != b
    ensures Align([a, b], [a, b, b], Start([a, b], [a, b, b])) == Walk(1, 1, 1, 1, a.value, b.value, true, false)
  {
    var L, R := [a, b], [a, b, b];
    assert Step(L, R, Start(L, R)) == Walk(1, 1, 1, 1, a.value, b.value, true, false);
  }

  lemma CutMarkers(a: string, b: string)
    requires IsMarker(a) && IsMarker(b)
    ensures Segments(a + b) == [Segment(MARKER, a), Segment(MARKER, b)]
    ensures Segments(a + b + b) == [Segment(MARKER, a), Segment(MARKER, b), Segment(MARKER, b)]
  {
    NoSegments("");
    hide *;
    MarkerFirst(b, "");
    assert b + "" == b;
    MarkerFirst(b, b);
    MarkerFirst(a, b);
    MarkerFirst(a, b + b);
    assert a + (b + b) == a + b + b;
  }

  lemma LostExample() returns (left: string, right: string)
    ensures left == "<a>" + "<b>" && right == "<a>" + "<b>" + "<b>"
    ensures Loses(left, right) && !Rebuilds(Diff(left, right), left, right)
  {
    var a, b := "<a>", "<b>";
    assert IsMarker(a) && IsMarker(b) && a[1] != b[1];
    left, right := a + b, a + b + b;
    hide IsMarker, Loses, Diff, Rebuilds;
    DoubledMarkerLost(a, b);
    DiffRebuildsIff(left, right);
  }
}
