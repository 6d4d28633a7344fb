/** Where a marker-aligned difference cuts the two texts, and how far it compares them. */
module MarkerBorders {
  import opened Markers
  import opened MarkerDiff
  import opened MarkerDiffFacts

  // ---------- positions in a segmented text ----------

  // A marker begins before position x and ends behind it.
  predicate Cuts(segs: seq<Segment>, x: int) {
    segs != [] &&
    ((segs[0].kind.MARKER? && 0 < x < |segs[0].value|) || Cuts(segs[1..], x - |segs[0].value|))
  }

  // The character at x belongs to text.
  predicate InText(segs: seq<Segment>, x: int) {
    segs != [] &&
    ((segs[0].kind.TEXT? && 0 <= x < |segs[0].value|) || InText(segs[1..], x - |segs[0].value|))
  }

  lemma {:induction false} CutsWithin(segs: seq<Segment>, x: int)
    ensures Cuts(segs, x) ==> 0 < x < |Join(segs)|
    ensures InText(segs, x) ==> 0 <= x < |Join(segs)|
  {
    if segs != [] {
      CutsWithin(segs[1..], x - |segs[0].value|);
    }
  }

  lemma {:induction false} CutsConcat(a: seq<Segment>, b: seq<Segment>, x: int)
    ensures Cuts(a + b, x) <==> Cuts(a, x) || Cuts(b, x - |Join(a)|)
    ensures InText(a + b, x) <==> InText(a, x) || InText(b, x - |Join(a)|)
  {
    if a == [] {
      assert a + b == b;
    } else {
      assert (a + b)[1..] == a[1..] + b;
      CutsConcat(a[1..], b, x - |a[0].value|);
    }
  }

  // Only what lies between two borders matters for a position between them.
  lemma CutsBetween(segs: seq<Segment>, k: nat, m: nat, p: nat)
    requires k <= m <= |segs| && p <= |Join(segs[k..m])|
    ensures Cuts(segs, |Join(segs[..k])| + p) <==> Cuts(segs[k..m], p)
    ensures p < |Join(segs[k..m])| ==> (InText(segs, |Join(segs[..k])| + p) <==> InText(segs[k..m], p))
  {
    var a, b, c := segs[..k], segs[k..m], segs[m..];
    var x := |Join(a)| + p;
    assert segs == a + (b + c);
    CutsConcat(a, b + c, x);
    CutsConcat(b, c, p);
    CutsWithin(a, x);
    CutsWithin(c, p - |Join(b)|);
    hide Cuts, InText, Join;
  }

  // ---------- the borders of a walk ----------

  // The segments k to m of one side are left over.
  predicate Left(segs: seq<Segment>, s: nat, e: nat, done: bool, prefix: string, suffix: string, k: nat, m: nat)
    requires s <= e < |segs|
  {
    && k <= m <= |segs|
    && (if done then k == m else k == s && m == e + 1)
    && prefix == Join(segs[..k]) && suffix == Join(segs[m..]) && Rest(segs, s, e, done) == Join(segs[k..m])
  }

  // While the segments are aligned: a side is only used up by the suffix.
  predicate OnBorders(segs: seq<Segment>, s: nat, e: nat, done: bool, prefix: string, suffix: string)
    requires s <= e < |segs|
  {
    prefix == Join(segs[..s]) && suffix == Join(segs[if done then e else e + 1..])
  }

  predicate BothOnBorders(L: seq<Segment>, R: seq<Segment>, w: Walk)
    requires Fits(L, R, w)
  {
    OnBorders(L, w.ls, w.le, w.lDone, w.prefix, w.suffix) && OnBorders(R, w.rs, w.re, w.rDone, w.prefix, w.suffix)
  }

  lemma OneMore(segs: seq<Segment>, i: nat)
    requires i < |segs|
    ensures Join(segs[..i + 1]) == Join(segs[..i]) + segs[i].value
    ensures Join(segs[i..]) == segs[i].value + Join(segs[i + 1..])
  {
    assert segs[..i] == segs[0..i] && segs[..i + 1] == segs[0..i + 1];
    JoinLast(segs, 0, i);
    assert segs[i..][1..] == segs[i + 1..];
  }

  // One side gives its first or its last segment.
  lemma GiveFirst(segs: seq<Segment>, s: nat, e: nat, prefix: string, suffix: string)
    requires s < e < |segs| && OnBorders(segs, s, e, false, prefix, suffix)
    ensures OnBorders(segs, s + 1, e, false, prefix + segs[s].value, suffix)
  {
    OneMore(segs, s);
    hide Join;
  }

  lemma GiveLast(segs: seq<Segment>, s: nat, e: nat, prefix: string, suffix: string)
    requires s <= e < |segs| && OnBorders(segs, s, e, false, prefix, suffix)
    ensures if s < e then OnBorders(segs, s, e - 1, false, prefix, segs[e].value + suffix)
            else OnBorders(segs, s, e, true, prefix, segs[e].value + suffix)
  {
    OneMore(segs, e);
    hide Join;
  }

  lemma PrefixOnBorders(L: seq<Segment>, R: seq<Segment>, w: Walk)
    requires Fits(L, R, w) && Advances(L, R, w) && BothOnBorders(L, R, w) && !w.lDone && !w.rDone
    ensures var r := TakePrefix(L, R, w); Fits(L, R, r) && BothOnBorders(L, R, r)
  {
    hide OnBorders;
    if L[w.ls] == R[w.rs] {
      GiveFirst(L, w.ls, w.le, w.prefix, w.suffix);
      GiveFirst(R, w.rs, w.re, w.prefix, w.suffix);
    }
  }

  lemma SuffixOnBorders(L: seq<Segment>, R: seq<Segment>, w: Walk)
    requires Fits(L, R, w) && BothOnBorders(L, R, w) && !w.lDone && !w.rDone
    ensures var r := TakeSuffix(L, R, w); Fits(L, R, r) && BothOnBorders(L, R, r)
  {
    hide OnBorders;
    if L[w.le] == R[w.re] {
      GiveLast(L, w.ls, w.le, w.prefix, w.suffix);
      GiveLast(R, w.rs, w.re, w.prefix, w.suffix);
    }
  }

  lemma StepOnBorders(L: seq<Segment>, R: seq<Segment>, w: Walk)
    requires Fits(L, R, w) && Advances(L, R, w) && BothOnBorders(L, R, w) && !w.lDone && !w.rDone
    ensures BothOnBorders(L, R, Step(L, R, w))
  {
    hide BothOnBorders, TakeSuffix;
    PrefixOnBorders(L, R, w);
    SuffixOnBorders(L, R, TakePrefix(L, R, w));
  }

  lemma {:induction false} AlignOnBorders(L: seq<Segment>, R: seq<Segment>, w: Walk)
    requires Fits(L, R, w) && BothOnBorders(L, R, w)
    requires w.ls != w.le && w.rs != w.re ==> !w.lDone && !w.rDone
    ensures BothOnBorders(L, R, Align(L, R, w))
    decreases w.le - w.ls + w.re - w.rs
  {
    if Advances(L, R, w) {
      StepOnBorders(L, R, w);
      hide OnBorders;
      AlignOnBorders(L, R, Step(L, R, w));
    }
  }

  lemma StartOnBorders(L: seq<Segment>, R: seq<Segment>)
    requires L != [] && R != []
    ensures BothOnBorders(L, R, Start(L, R))
  {
  }

  // What is left over on one side, when it has given nothing, its only segment to the front, or one at an end.
  lemma LeftAsItWas(segs: seq<Segment>, s: nat, e: nat, done: bool, prefix: string, suffix: string)
    requires s <= e < |segs| && (done ==> s == e) && OnBorders(segs, s, e, done, prefix, suffix)
    ensures Left(segs, s, e, done, prefix, suffix, s, if done then e else e + 1)
  {
    hide Join;
  }

  lemma LeftNothing(segs: seq<Segment>, e: nat, prefix: string, suffix: string)
    requires e < |segs| && OnBorders(segs, e, e, false, prefix, suffix)
    ensures Left(segs, e, e, true, prefix + segs[e].value, suffix, e + 1, e + 1)
  {
    OneMore(segs, e);
    NothingBetween(segs, e + 1);
    NothingBetween(segs, e);
    hide Join;
  }

  // What is left over on both sides lies between borders.
  predicate LeftBoth(L: seq<Segment>, R: seq<Segment>, c: Walk, k: nat, m: nat, i: nat, j: nat)
    requires Fits(L, R, c)
  {
    Left(L, c.ls, c.le, c.lDone, c.prefix, c.suffix, k, m) && Left(R, c.rs, c.re, c.rDone, c.prefix, c.suffix, i, j)
  }

  lemma MarkerOnBorders(L: seq<Segment>, R: seq<Segment>, w: Walk)
    requires Fits(L, R, w) && BothOnBorders(L, R, w) && !w.lDone && !w.rDone && BothTakeMarker(L, R, w)
    ensures LeftBoth(L, R, Close(L, R, w), w.le + 1, w.le + 1, w.re + 1, w.re + 1)
  {
    hide OnBorders, Left;
    LeftNothing(L, w.le, w.prefix, w.suffix);
    LeftNothing(R, w.re, w.prefix, w.suffix);
  }

  lemma LeftOnBorders(L: seq<Segment>, R: seq<Segment>, w: Walk)
    requires Fits(L, R, w) && BothOnBorders(L, R, w) && !w.lDone && !w.rDone && LeftTakesPrefix(L, R, w)
    ensures LeftBoth(L, R, Close(L, R, w), w.le + 1, w.le + 1, w.rs + 1, w.re + 1)
  {
    hide OnBorders, Left;
    LeftNothing(L, w.le, w.prefix, w.suffix);
    GiveFirst(R, w.rs, w.re, w.prefix, w.suffix);
    LeftAsItWas(R, w.rs + 1, w.re, false, w.prefix + R[w.rs].value, w.suffix);
  }

  lemma RightOnBorders(L: seq<Segment>, R: seq<Segment>, w: Walk)
    requires Fits(L, R, w) && BothOnBorders(L, R, w) && !w.lDone && !w.rDone && RightTakesPrefix(L, R, w)
    ensures LeftBoth(L, R, Close(L, R, w), w.ls + 1, w.le + 1, w.re + 1, w.re + 1)
  {
    hide OnBorders, Left;
    LeftNothing(R, w.re, w.prefix, w.suffix);
    GiveFirst(L, w.ls, w.le, w.prefix, w.suffix);
    LeftAsItWas(L, w.ls + 1, w.le, false, w.prefix + L[w.ls].value, w.suffix);
  }

  // The other cases, at most with a match at the back.
  predicate NoFront(L: seq<Segment>, R: seq<Segment>, w: Walk)
    requires Fits(L, R, w)
  {
    !LeftTakesPrefix(L, R, w) && !RightTakesPrefix(L, R, w) && !BothTakeMarker(L, R, w)
  }

  lemma BackOnBorders(L: seq<Segment>, R: seq<Segment>, w: Walk)
    requires Fits(L, R, w) && BothOnBorders(L, R, w) && NoFront(L, R, w)
    requires w.lDone || w.rDone ==> !Fires(L, R, w)
    ensures BothOnBorders(L, R, Close(L, R, w))
  {
    hide OnBorders;
    if LeftTakesSuffix(L, R, w) || RightTakesSuffix(L, R, w) {
      GiveLast(L, w.ls, w.le, w.prefix, w.suffix);
      GiveLast(R, w.rs, w.re, w.prefix, w.suffix);
    }
  }

  lemma CloseOnBorders(L: seq<Segment>, R: seq<Segment>, w: Walk) returns (k: nat, m: nat, i: nat, j: nat)
    requires Fits(L, R, w) && BothOnBorders(L, R, w) && !(w.lDone && w.rDone) && !Respends(L, R, w)
    ensures LeftBoth(L, R, Close(L, R, w), k, m, i, j)
  {
    CloseCases(L, R, w);
    hide *;
    var c := Close(L, R, w);
    if NoFront(L, R, w) {
      BackOnBorders(L, R, w);
      k, m := c.ls, if c.lDone then c.le else c.le + 1;
      i, j := c.rs, if c.rDone then c.re else c.re + 1;
      BothAsTheyAre(L, R, c);
    } else if BothTakeMarker(L, R, w) {
      MarkerOnBorders(L, R, w);
      k, m, i, j := w.le + 1, w.le + 1, w.re + 1, w.re + 1;
    } else if LeftTakesPrefix(L, R, w) {
      LeftOnBorders(L, R, w);
      k, m, i, j := w.le + 1, w.le + 1, w.rs + 1, w.re + 1;
    } else {
      RightOnBorders(L, R, w);
      k, m, i, j := w.ls + 1, w.le + 1, w.re + 1, w.re + 1;
    }
  }

  lemma CloseCases(L: seq<Segment>, R: seq<Segment>, w: Walk)
    requires Fits(L, R, w) && !(w.lDone && w.rDone) && !Respends(L, R, w)
    ensures var c := Close(L, R, w); c.ls <= c.le && c.rs <= c.re && w.ls <= w.le && w.rs <= w.re
    ensures NoFront(L, R, w) || BothTakeMarker(L, R, w) || LeftTakesPrefix(L, R, w) || RightTakesPrefix(L, R, w)
    ensures if NoFront(L, R, w) then w.lDone || w.rDone ==> !Fires(L, R, w) else !w.lDone && !w.rDone
  {
    hide Close;
  }

  lemma BothAsTheyAre(L: seq<Segment>, R: seq<Segment>, c: Walk)
    requires Fits(L, R, c) && BothOnBorders(L, R, c)
    ensures LeftBoth(L, R, c, c.ls, if c.lDone then c.le else c.le + 1, c.rs, if c.rDone then c.re else c.re + 1)
  {
    hide OnBorders, Left;
    LeftAsItWas(L, c.ls, c.le, c.lDone, c.prefix, c.suffix);
    LeftAsItWas(R, c.rs, c.re, c.rDone, c.prefix, c.suffix);
  }

  lemma NothingBetween(segs: seq<Segment>, k: nat)
    requires k <= |segs|
    ensures Join(segs[k..k]) == ""
  {
    assert segs[k..k] == [];
  }

  // ---------- comparing what is left over ----------

  lemma {:induction false} WellCutSlice(segs: seq<Segment>, k: nat, m: nat)
    requires WellCut(segs) && k <= m <= |segs|
    ensures WellCut(segs[k..m])
    decreases |segs|
  {
    if k > 0 {
      assert segs[1..][k - 1..m - 1] == segs[k..m];
      WellCutSlice(segs[1..], k - 1, m - 1);
    } else if m > 0 {
      assert segs[0..m][1..] == segs[1..][0..m - 1];
      WellCutSlice(segs[1..], 0, m - 1);
      assert m > 1 ==> segs[0..m][1] == segs[1];
    }
  }

  // Text of which more follows is plain, and an opening bracket comes behind it.
  lemma TextThenOpener(segs: seq<Segment>)
    requires WellCut(segs) && |segs| > 1 && segs[0].kind.TEXT?
    ensures IsPlain(segs[0].value) && |segs[0].value| < |Join(segs)| && IsOpener(Join(segs)[|segs[0].value|])
  {
    assert WellCut(segs[1..]) && WellCutAt(segs[1..]);
    var w := segs[1..][0];
    assert segs[1] == w && !IsPlain(w.value) && IsOpener(w.value[0]);
    assert Join(segs) == segs[0].value + (w.value + Join(segs[1..][1..]));
  }

  lemma JoinSingle(segs: seq<Segment>)
    ensures |segs| == 1 ==> Join(segs) == segs[0].value
  {
    if |segs| == 1 {
      assert segs[1..] == [];
    }
  }

  lemma FirstOfJoin(segs: seq<Segment>, i: nat)
    requires segs != [] && i < |segs[0].value|
    ensures i < |Join(segs)| && Join(segs)[i] == segs[0].value[i]
  {
  }

  // What two texts share at the front does not reach beyond a first text that is not the whole.
  lemma SharedFront(A: seq<Segment>, B: seq<Segment>, p: nat)
    requires WellCut(A) && WellCut(B) && A != [] && B != [] && A[0].kind.TEXT? && B[0].kind.TEXT? && A[0] != B[0]
    requires p <= |Join(A)| && p <= |Join(B)| && Join(A)[..p] == Join(B)[..p]
    ensures p <= |A[0].value|
  {
    var l, r, v, u := Join(A), Join(B), A[0].value, B[0].value;
    JoinSingle(A);
    if p > |v| {
      assert |A| > 1;
      TextThenOpener(A);
      assert forall i :: 0 <= i < p ==> l[i] == l[..p][i] && r[i] == r[..p][i];
      assert IsOpener(r[|v|]);
      forall i | 0 <= i < |u| ensures r[i] == u[i] {
        FirstOfJoin(B, i);
      }
      forall i | 0 <= i < |v| ensures l[i] == v[i] {
        FirstOfJoin(A, i);
      }
      assert v != "" && !IsOpener(v[0]);
      FrontsAgree(v, u, B, r);
    }
  }

  // The plain text v is the beginning of r, and an opening bracket comes behind it there: then it is the first text.
  lemma FrontsAgree(v: string, u: string, B: seq<Segment>, r: string)
    requires WellCut(B) && B != [] && B[0] == Segment(TEXT, u) && r == Join(B)
    requires IsPlain(v) && |v| < |r| && r[..|v|] == v && IsOpener(r[|v|])
    ensures u == v
  {
    assert forall i :: 0 <= i < |v| ==> r[i] == v[i];
    forall i | 0 <= i < |u| ensures i < |r| && r[i] == u[i] {
      FirstOfJoin(B, i);
    }
    assert u != "" && !IsOpener(u[0]);
    assert IsPlain(u);
    JoinSingle(B);
    if |B| > 1 {
      TextThenOpener(B);
    }
    assert |u| == |v|;
  }

  predicate EndsWith(t: string, u: string) {
    |u| <= |t| && t[|t| - |u|..] == u
  }

  lemma BackChar(l: string, r: string, n: nat, i: nat)
    requires i < n <= |l|
    ensures EndsWith(r, l[|l| - n..]) ==> n <= |r| && l[|l| - n + i] == r[|r| - n + i]
  {
    if EndsWith(r, l[|l| - n..]) {
      assert l[|l| - n..][i] == r[|r| - n..][i];
    }
  }

  lemma TailOfTail(x: string, s: nat, n: nat)
    requires n <= s <= |x|
    ensures x[|x| - s..][s - n..] == x[|x| - n..]
  {
  }

  lemma EndsWithTail(r: string, t: string)
    ensures |t| <= |r| && r[|r| - |t|..] == t ==> EndsWith(r, t)
  {
  }

  lemma SharedBack(l: string, r: string, n: nat)
    requires n <= |l|
    ensures EndsWith(r, l[|l| - n..]) <==> n <= CommonSuffix(l, r)
  {
    var s := CommonSuffix(l, r);
    hide CommonSuffix;
    if n <= s {
      TailOfTail(l, s, n);
      TailOfTail(r, s, n);
      EndsWithTail(r, l[|l| - n..]);
    } else {
      hide EndsWith;
      BackChar(l, r, n, n - 1 - s);
    }
  }

  // A marker of one side is compared with text of the other: its end matches, but not all of it.
  predicate HalfMatched(m: Segment, rest: string, other: string) {
    && m.kind.MARKER? && m.value != ""
    && EndsWith(other, m.value[|m.value| - 1..] + rest) && !EndsWith(other, m.value + rest)
  }

  lemma BackParts(full: string, v: string, rest: string)
    requires v != "" && EndsWith(full, v + rest)
    ensures full[|full| - (|v| + |rest|)..] == v + rest && full[|full| - (1 + |rest|)..] == v[|v| - 1..] + rest
  {
    TailOfTail(full, |v| + |rest|, 1 + |rest|);
    assert (v + rest)[|v| - 1..] == v[|v| - 1..] + rest;
  }

  lemma HalfMatchedIff(full: string, m: Segment, rest: string, other: string, s: nat)
    requires EndsWith(full, m.value + rest) && SharedIs(full, other, s)
    ensures HalfMatched(m, rest, other) <==> m.kind.MARKER? && |rest| < s < |m.value| + |rest|
  {
    hide CommonSuffix;
    if m.value != "" {
      BackParts(full, m.value, rest);
      hide EndsWith;
      SharedBack(full, other, |m.value| + |rest|);
      SharedBack(full, other, 1 + |rest|);
    }
  }

  predicate CutsBehind(segs: seq<Segment>, other: string) {
    segs != [] && (HalfMatched(segs[0], Join(segs[1..]), other) || CutsBehind(segs[1..], other))
  }

  predicate SharedIs(full: string, other: string, s: nat) {
    s == CommonSuffix(full, other)
  }

  // Comparing from behind stops inside a marker exactly if some marker is matched in part.
  lemma {:induction false} CutsBehindIff(full: string, segs: seq<Segment>, other: string, s: nat)
    requires EndsWith(full, Join(segs)) && SharedIs(full, other, s)
    ensures Cuts(segs, |Join(segs)| - s) <==> CutsBehind(segs, other)
    decreases |segs|
  {
    hide *;
    if segs == [] {
      CutsNothing(|Join(segs)| - s, other);
    } else {
      var v, rest := segs[0].value, segs[1..];
      JoinOf(segs);
      EndsWithRest(full, v, Join(rest));
      CutsBehindIff(full, rest, other, s);
      HalfMatchedIff(full, segs[0], Join(rest), other, s);
      CutsOf(segs, |Join(segs)| - s);
      CutsBehindOf(segs, other);
      assert |Join(segs)| - s - |v| == |Join(rest)| - s;
    }
  }

  lemma CutsNothing(x: int, other: string)
    ensures !Cuts([], x) && !CutsBehind([], other)
  {
  }

  lemma JoinOf(segs: seq<Segment>)
    requires segs != []
    ensures Join(segs) == segs[0].value + Join(segs[1..])
  {
  }

  lemma CutsOf(segs: seq<Segment>, x: int)
    requires segs != []
    ensures Cuts(segs, x) <==> (segs[0].kind.MARKER? && 0 < x < |segs[0].value|) || Cuts(segs[1..], x - |segs[0].value|)
  {
  }

  lemma CutsBehindOf(segs: seq<Segment>, other: string)
    requires segs != []
    ensures CutsBehind(segs, other) <==> HalfMatched(segs[0], Join(segs[1..]), other) || CutsBehind(segs[1..], other)
  {
    hide HalfMatched, Join;
  }

  lemma EndsWithRest(t: string, h: string, u: string)
    requires EndsWith(t, h + u)
    ensures EndsWith(t, u)
  {
    TailOfTail(t, |h| + |u|, |u|);
    assert (h + u)[|h|..] == u;
  }

  // ---------- a text that is the beginning of another one ----------

  // The left text ends in a marker that is not closed, and the right one goes on and closes it.
  predicate Reopened(left: string, right: string)
    requires left <= right
  {
    var L := Segments(left);
    L != [] && ClosedBy(L[|L| - 1], right[|left|..])
  }

  predicate ClosedBy(last: Segment, more: string) {
    last.kind.TEXT? && IsUnclosed(last.value) && exists k :: 0 <= k < |more| && IsCloser(last.value[0], more[k])
  }

  /** More of a text cuts one of its markers exactly if the text ends in a marker that is closed now. */
  lemma {:induction false} ReopenedIff(left: string, right: string)
    requires left <= right
    ensures Cuts(Segments(right), |left|) <==> Reopened(left, right)
    decreases |left|
  {
    if left == "" {
      CutsWithin(Segments(right), 0);
    } else {
      var n := if IsOpener(left[0]) then NextCloser(left, 1) + 1 else NextOpener(left, 0);
      if n <= |left| && (IsOpener(left[0]) || n < |left|) {
        FirstStays(left, right, n);
        hide *;
        ReopenedIff(left[n..], right[n..]);
        RestReopened(left, right, n);
      } else if IsOpener(left[0]) {
        OpenText(left, right);
      } else {
        PlainText(left, right);
      }
    }
  }

  // A first segment that has ended is the first segment of the longer text.
  lemma FirstStays(left: string, right: string, n: nat)
    requires left <= right && left != "" && n <= |left|
    requires n == if IsOpener(left[0]) then NextCloser(left, 1) + 1 else NextOpener(left, 0)
    requires IsOpener(left[0]) || n < |left|
    ensures 0 < n && left[n..] <= right[n..]
    ensures Segments(left) == [Segment(if IsOpener(left[0]) then MARKER else TEXT, left[..n])] + Segments(left[n..])
    ensures Segments(right) == [Segment(if IsOpener(left[0]) then MARKER else TEXT, left[..n])] + Segments(right[n..])
    ensures IsOpener(left[0]) || IsPlain(left[..n])
  {
    assert left[..n] == right[..n];
    PrefixRest(left, right, n);
    if IsOpener(left[0]) {
      MarkerAt(left, left, n);
      MarkerAt(left, right, n);
    } else {
      TextAt(left, left, n);
      TextAt(left, right, n);
    }
    hide Segments;
  }

  lemma PrefixRest(left: string, right: string, n: nat)
    requires left <= right && n <= |left|
    ensures left[n..] <= right[n..]
  {
  }

  lemma MarkerAt(left: string, right: string, n: nat)
    requires left <= right && left != "" && IsOpener(left[0]) && n == NextCloser(left, 1) + 1 <= |left|
    ensures Segments(right) == [Segment(MARKER, right[..n])] + Segments(right[n..])
  {
    hide Segments;
    MarkerUpTo(right, n - 1);
  }

  lemma TextAt(left: string, right: string, n: nat)
    requires left <= right && left != "" && !IsOpener(left[0]) && n == NextOpener(left, 0) < |left|
    ensures Segments(right) == [Segment(TEXT, right[..n])] + Segments(right[n..]) && n > 0 && IsPlain(left[..n])
  {
    hide Segments;
    TextUpTo(right, n);
  }

  lemma RestReopened(left: string, right: string, n: nat)
    requires left <= right && 0 < n <= |left| && left[n..] <= right[n..]
    requires Segments(left) != [] && Segments(left)[1..] == Segments(left[n..])
    requires Segments(right) != [] && Segments(right)[0] == Segments(left)[0]
    requires Segments(right)[1..] == Segments(right[n..])
    requires |Segments(left)[0].value| == n
    requires n == |left| ==> Segments(left)[0].kind.MARKER?
    requires Cuts(Segments(right[n..]), |left[n..]|) <==> Reopened(left[n..], right[n..])
    ensures Cuts(Segments(right), |left|) <==> Reopened(left, right)
  {
    hide *;
    NoSegments(left[n..]);
    var L, M, more := Segments(left), Segments(left[n..]), right[|left|..];
    assert right[n..][|left[n..]|..] == more;
    ReopenedAt(left, right, L, more);
    ReopenedAt(left[n..], right[n..], M, more);
    SameLast(L, M, more);
    CutsRest(Segments(right), |left|, n);
  }

  lemma ReopenedAt(left: string, right: string, L: seq<Segment>, more: string)
    requires left <= right && L == Segments(left) && more == right[|left|..]
    ensures Reopened(left, right) <==> L != [] && ClosedBy(L[|L| - 1], more)
  {
    hide Segments, ClosedBy;
  }

  lemma CutsRest(segs: seq<Segment>, x: nat, n: nat)
    requires segs != [] && |segs[0].value| == n <= x
    ensures Cuts(segs, x) <==> Cuts(segs[1..], x - n)
  {
  }

  lemma SameLast(L: seq<Segment>, M: seq<Segment>, more: string)
    requires L != [] && L[1..] == M && (M == [] ==> L[0].kind.MARKER?)
    ensures ClosedBy(L[|L| - 1], more) <==> M != [] && ClosedBy(M[|M| - 1], more)
  {
    if M != [] {
      assert L[|L| - 1] == L[1..][|L| - 2];
    }
  }

  lemma OpenText(left: string, right: string)
    requires left <= right && left != "" && IsOpener(left[0]) && NextCloser(left, 1) == |left|
    ensures Cuts(Segments(right), |left|) <==> Reopened(left, right)
  {
    assert IsUnclosed(left);
    LastText(left);
    var e := NextCloser(right, 1);
    assert e >= |left| by {
      assert forall k :: 0 < k < |left| ==> left[k] == right[k];
    }
    if e < |right| {
      assert right[|left|..][e - |left|] == right[e];
      MarkerUpTo(right, e);
    } else {
      LastText(right);
      CutsWithin([], |left| - |right|);
    }
  }

  lemma PlainText(left: string, right: string)
    requires left <= right && left != "" && !IsOpener(left[0]) && NextOpener(left, 0) == |left|
    ensures Cuts(Segments(right), |left|) <==> Reopened(left, right)
  {
    assert IsPlain(left) && !IsUnclosed(left);
    assert forall k :: 0 <= k < |left| ==> left[k] == right[k];
    assert NextOpener(right, 0) >= |left|;
    hide Segments, Cuts, IsUnclosed, IsPlain;
    LastText(left);
    FirstTextKept(right, |left|);
  }

  lemma FirstTextKept(t: string, n: nat)
    requires t != "" && !IsOpener(t[0]) && n <= NextOpener(t, 0)
    ensures !Cuts(Segments(t), n)
  {
    var o := NextOpener(t, 0);
    var rest := Segments(t[o..]);
    assert Segments(t) == [Segment(TEXT, t[..o])] + rest;
    hide Segments;
    CutsWithin(rest, n - o);
  }

  // ---------- where the difference cuts ----------

  predicate ComparesFront(L: seq<Segment>, R: seq<Segment>, c: Walk)
    requires Fits(L, R, c)
  {
    R[c.rs].kind.TEXT? && L[c.ls].kind.TEXT?
  }

  predicate ComparesBack(L: seq<Segment>, R: seq<Segment>, c: Walk)
    requires Fits(L, R, c)
  {
    L[c.le].kind.TEXT? && R[c.re].kind.TEXT?
  }

  // How far two texts are compared from behind, and then from the front.
  function BackShare(l: string, r: string, back: bool): (s: nat)
    ensures s <= |l| && s <= |r|
  {
    if back then CommonSuffix(l, r) else 0
  }

  function FrontShare(l: string, r: string, s: nat, front: bool): (p: nat)
    requires s <= |l| && s <= |r|
    ensures p + s <= |l| && p + s <= |r|
  {
    if front then CommonPrefix(l[..|l| - s], r[..|r| - s]) else 0
  }

  function SharedSuffix(L: seq<Segment>, R: seq<Segment>, c: Walk): (s: nat)
    requires Fits(L, R, c)
    ensures s <= |LeftRest(L, R, c)| && s <= |RightRest(L, R, c)|
  {
    BackShare(LeftRest(L, R, c), RightRest(L, R, c), ComparesBack(L, R, c))
  }

  function SharedPrefix(L: seq<Segment>, R: seq<Segment>, c: Walk): (p: nat)
    requires Fits(L, R, c)
    ensures p + SharedSuffix(L, R, c) <= |LeftRest(L, R, c)| && p + SharedSuffix(L, R, c) <= |RightRest(L, R, c)|
  {
    FrontShare(LeftRest(L, R, c), RightRest(L, R, c), SharedSuffix(L, R, c), ComparesFront(L, R, c))
  }

  lemma FinishIs(L: seq<Segment>, R: seq<Segment>, c: Walk)
    requires Fits(L, R, c)
    ensures var d, l, r := Finish(L, R, c), LeftRest(L, R, c), RightRest(L, R, c);
      var s, p := SharedSuffix(L, R, c), SharedPrefix(L, R, c);
      && |d.prefix| == |c.prefix| + p && |d.suffix| == s + |c.suffix|
      && d.left == l[p..|l| - s] && d.right == r[p..|r| - s]
  {
    hide Rest, CommonPrefix, CommonSuffix;
  }

  // Nothing is left over on one side, or both sides differ at both ends, or they are one text each.
  predicate Unmatched(A: seq<Segment>, B: seq<Segment>) {
    || A == [] || B == []
    || (A[0] != B[0] && A[|A| - 1] != B[|B| - 1])
    || (|A| == |B| == 1 && A[0].kind.TEXT? && A[0] == B[0])
  }

  lemma CloseUnmatched(L: seq<Segment>, R: seq<Segment>, w: Walk)
    requires Fits(L, R, w) && !Advances(L, R, w)
    ensures var c := Close(L, R, w);
      !c.lDone && !c.rDone ==> c == w && Unmatched(L[c.ls..c.le + 1], R[c.rs..c.re + 1])
  {
    var c := Close(L, R, w);
    if !c.lDone && !c.rDone {
      assert c == w;
      var A, B := L[c.ls..c.le + 1], R[c.rs..c.re + 1];
      assert A[0] == L[w.ls] && A[|A| - 1] == L[w.le] && B[0] == R[w.rs] && B[|B| - 1] == R[w.re];
    }
  }

  lemma FrontNotCut(A: seq<Segment>, p: nat)
    requires p == 0 || (A != [] && A[0].kind.TEXT? && p <= |A[0].value|)
    ensures !Cuts(A, p)
  {
    if A != [] {
      CutsWithin(A[1..], p - |A[0].value|);
    }
    CutsWithin(A, p);
  }

  // The shared front stays within the first text on both sides.
  lemma FrontShared(A: seq<Segment>, B: seq<Segment>, s: nat, p: nat)
    requires WellCut(A) && WellCut(B) && A != [] && B != [] && Unmatched(A, B)
    requires A[0].kind.TEXT? && B[0].kind.TEXT? && s <= |Join(A)| && s <= |Join(B)|
    requires p == CommonPrefix(Join(A)[..|Join(A)| - s], Join(B)[..|Join(B)| - s])
    ensures p <= |A[0].value| && p <= |B[0].value|
  {
    var l, r := Join(A), Join(B);
    hide CommonPrefix, Join;
    assert l[..p] == l[..|l| - s][..p] && r[..p] == r[..|r| - s][..p];
    JoinSingle(A);
    JoinSingle(B);
    if A[0] != B[0] {
      SharedFront(A, B, p);
      SharedFront(B, A, p);
    }
  }

  lemma SuffixSym(l: string, r: string)
    ensures CommonSuffix(l, r) == CommonSuffix(r, l)
  {
    var n := CommonSuffix(l, r);
    hide CommonSuffix;
    SuffixIsUnique(r, l, n);
  }

  // Both sides end in text, and the shared end of what is left over reaches into a marker in front of it.
  predicate SplitCuts(A: seq<Segment>, B: seq<Segment>) {
    && A != [] && B != [] && A[|A| - 1].kind.TEXT? && B[|B| - 1].kind.TEXT?
    && (CutsBehind(A, Join(B)) || CutsBehind(B, Join(A)))
  }

  // The two positions on each side, counted from where the rest begins.
  lemma BackNotCut(A: seq<Segment>, r: string, back: bool)
    ensures Cuts(A, |Join(A)| - BackShare(Join(A), r, back)) <==> back && CutsBehind(A, r)
  {
    CutsWithin(A, |Join(A)|);
    assert EndsWith(Join(A), Join(A)) && (back ==> SharedIs(Join(A), r, BackShare(Join(A), r, back)));
    assert !back ==> BackShare(Join(A), r, back) == 0;
    hide *;
    if back {
      CutsBehindIff(Join(A), A, r, BackShare(Join(A), r, back));
    }
  }

  lemma FrontsNotCut(A: seq<Segment>, B: seq<Segment>, s: nat, p: nat)
    requires WellCut(A) && WellCut(B) && A != [] && B != [] && Unmatched(A, B) && s <= |Join(A)| && s <= |Join(B)|
    requires p == FrontShare(Join(A), Join(B), s, B[0].kind.TEXT? && A[0].kind.TEXT?)
    ensures !Cuts(A, p) && !Cuts(B, p)
  {
    if B[0].kind.TEXT? && A[0].kind.TEXT? {
      FrontShared(A, B, s, p);
    }
    hide *;
    FrontNotCut(A, p);
    FrontNotCut(B, p);
  }

  lemma NonEmptySlice(segs: seq<Segment>, k: nat, m: nat)
    requires AllNonEmpty(segs) && k <= m <= |segs|
    ensures AllNonEmpty(segs[k..m])
  {
  }

  // How far what is left over is compared at either end.
  predicate Shares(A: seq<Segment>, B: seq<Segment>, s: nat, p: nat) {
    && s <= |Join(A)| && s <= |Join(B)|
    && (A == [] || B == [] ==> s == p == 0)
    && (A != [] && B != [] ==>
         && s == BackShare(Join(A), Join(B), A[|A| - 1].kind.TEXT? && B[|B| - 1].kind.TEXT?)
         && p == FrontShare(Join(A), Join(B), s, B[0].kind.TEXT? && A[0].kind.TEXT?))
  }

  lemma BackSym(l: string, r: string, back: bool)
    ensures BackShare(l, r, back) == BackShare(r, l, back)
  {
    SuffixSym(l, r);
  }

  lemma PartsCut(A: seq<Segment>, B: seq<Segment>, s: nat, p: nat)
    requires WellCut(A) && WellCut(B) && Unmatched(A, B) && Shares(A, B, s, p)
    ensures !Cuts(A, p) && !Cuts(B, p)
    ensures Cuts(A, |Join(A)| - s) || Cuts(B, |Join(B)| - s) <==> SplitCuts(A, B)
  {
    hide Join, CommonPrefix, CommonSuffix, Cuts, WellCut, CutsBehind, AllNonEmpty;
    if A == [] || B == [] {
      CutsWithin(A, 0);
      CutsWithin(B, 0);
      CutsWithin(A, |Join(A)|);
      CutsWithin(B, |Join(B)|);
    } else {
      FrontsNotCut(A, B, s, p);
      var back := A[|A| - 1].kind.TEXT? && B[|B| - 1].kind.TEXT?;
      hide Unmatched, FrontShare;
      BackSym(Join(A), Join(B), back);
      hide BackShare;
      BackNotCut(A, Join(B), back);
      BackNotCut(B, Join(A), back);
    }
  }

  // No marker is cut open on either side.
  predicate Respects(d: DiffSplit, left: string, right: string) {
    && !Cuts(Segments(left), |d.prefix|) && !Cuts(Segments(left), |left| - |d.suffix|)
    && !Cuts(Segments(right), |d.prefix|) && !Cuts(Segments(right), |right| - |d.suffix|)
  }

  // The same positions, counted in the whole text.
  lemma SideCuts(segs: seq<Segment>, k: nat, m: nat, p: nat, q: nat)
    requires k <= m <= |segs| && p + q <= |Join(segs[k..m])|
    ensures Cuts(segs, |Join(segs[..k])| + p) <==> Cuts(segs[k..m], p)
    ensures Cuts(segs, |Join(segs)| - (q + |Join(segs[m..])|)) <==> Cuts(segs[k..m], |Join(segs[k..m])| - q)
  {
    var n := |Join(segs[k..m])|;
    JoinThree(segs, k, m);
    CutsBetween(segs, k, m, p);
    CutsBetween(segs, k, m, n - q);
    hide *;
    assert |Join(segs)| - (q + |Join(segs[m..])|) == |Join(segs[..k])| + (n - q);
  }

  lemma JoinThree(segs: seq<Segment>, k: nat, m: nat)
    requires k <= m <= |segs|
    ensures |Join(segs)| == |Join(segs[..k])| + |Join(segs[k..m])| + |Join(segs[m..])|
  {
    assert segs == segs[..k] + (segs[k..m] + segs[m..]);
    JoinConcat(segs[..k], segs[k..m] + segs[m..]);
    JoinConcat(segs[k..m], segs[m..]);
  }

  // The segments of which the rest is made.
  function Over(segs: seq<Segment>, s: nat, e: nat, done: bool): seq<Segment>
    requires s <= e < |segs|
  {
    segs[s..if done then e else e + 1]
  }

  lemma OverIs(segs: seq<Segment>, s: nat, e: nat, done: bool, prefix: string, suffix: string, k: nat, m: nat)
    requires s <= e < |segs| && (done ==> s == e) && Left(segs, s, e, done, prefix, suffix, k, m)
    ensures Over(segs, s, e, done) == segs[k..m] && Join(Over(segs, s, e, done)) == Rest(segs, s, e, done)
    ensures prefix == Join(segs[..k]) && suffix == Join(segs[m..]) && k <= m
    ensures done ==> segs[k..m] == []
    ensures done || (segs[k..m] != [] && segs[k..m][0] == segs[s] && segs[k..m][m - k - 1] == segs[e])
  {
    hide Join;
  }

  lemma SharedAre(L: seq<Segment>, R: seq<Segment>, c: Walk)
    requires Fits(L, R, c)
    ensures var l, r, s, p := LeftRest(L, R, c), RightRest(L, R, c), SharedSuffix(L, R, c), SharedPrefix(L, R, c);
      && s <= |l| && s <= |r| && p + s <= |l| && p + s <= |r|
      && s == BackShare(l, r, ComparesBack(L, R, c)) && p == FrontShare(l, r, s, ComparesFront(L, R, c))
  {
    hide Rest, BackShare, FrontShare, ComparesFront, ComparesBack;
  }

  lemma SharesIs(L: seq<Segment>, R: seq<Segment>, c: Walk, A: seq<Segment>, B: seq<Segment>)
    requires Fits(L, R, c) && Join(A) == LeftRest(L, R, c) && Join(B) == RightRest(L, R, c)
    requires if c.lDone then A == [] else A != [] && A[0] == L[c.ls] && A[|A| - 1] == L[c.le]
    requires if c.rDone then B == [] else B != [] && B[0] == R[c.rs] && B[|B| - 1] == R[c.re]
    ensures Shares(A, B, SharedSuffix(L, R, c), SharedPrefix(L, R, c))
  {
    hide *;
    JoinNothing(A);
    JoinNothing(B);
    ComparesIs(L, R, c, A, B);
    SharedAre(L, R, c);
    AreShared(A, B, ComparesBack(L, R, c), ComparesFront(L, R, c));
  }

  lemma JoinNothing(segs: seq<Segment>)
    ensures segs == [] ==> Join(segs) == ""
  {
  }

  lemma ComparesIs(L: seq<Segment>, R: seq<Segment>, c: Walk, A: seq<Segment>, B: seq<Segment>)
    requires Fits(L, R, c)
    requires if c.lDone then A == [] else A != [] && A[0] == L[c.ls] && A[|A| - 1] == L[c.le]
    requires if c.rDone then B == [] else B != [] && B[0] == R[c.rs] && B[|B| - 1] == R[c.re]
    ensures A != [] && B != [] ==>
      && (ComparesBack(L, R, c) <==> A[|A| - 1].kind.TEXT? && B[|B| - 1].kind.TEXT?)
      && (ComparesFront(L, R, c) <==> B[0].kind.TEXT? && A[0].kind.TEXT?)
  {
  }

  lemma AreShared(A: seq<Segment>, B: seq<Segment>, back: bool, front: bool)
    requires A == [] || B == [] ==> Join(A) == "" || Join(B) == ""
    requires A != [] && B != [] ==>
      && (back <==> A[|A| - 1].kind.TEXT? && B[|B| - 1].kind.TEXT?)
      && (front <==> B[0].kind.TEXT? && A[0].kind.TEXT?)
    ensures var s := BackShare(Join(A), Join(B), back); Shares(A, B, s, FrontShare(Join(A), Join(B), s, front))
  {
    hide Join, BackShare, FrontShare;
  }

  // Where the finished difference cuts one side, counted in what is left over on it.
  lemma FinishCuts(text: string, segs: seq<Segment>, k: nat, m: nat, p: nat, s: nat, d: DiffSplit)
    requires segs == Segments(text) && k <= m <= |segs| && p + s <= |Join(segs[k..m])|
    requires |d.prefix| == |Join(segs[..k])| + p && |d.suffix| == s + |Join(segs[m..])|
    ensures Cuts(Segments(text), |d.prefix|) <==> Cuts(segs[k..m], p)
    ensures Cuts(Segments(text), |text| - |d.suffix|) <==> Cuts(segs[k..m], |Join(segs[k..m])| - s)
  {
    hide *;
    SegmentsJoin(text);
    SideCuts(segs, k, m, p, s);
  }

  lemma FinishRespects(left: string, right: string, L: seq<Segment>, R: seq<Segment>, c: Walk,
                       k: nat, m: nat, i: nat, j: nat)
    requires L == Segments(left) && R == Segments(right) && Fits(L, R, c) && LeftBoth(L, R, c, k, m, i, j)
    requires k <= m <= |L| && i <= j <= |R|
    requires AllNonEmpty(L[k..m]) && AllNonEmpty(R[i..j]) && WellCut(L[k..m]) && WellCut(R[i..j])
    requires Unmatched(L[k..m], R[i..j])
    ensures Respects(Finish(L, R, c), left, right) <==> !SplitCuts(L[k..m], R[i..j])
  {
    hide *;
    var d, s, p := Finish(L, R, c), SharedSuffix(L, R, c), SharedPrefix(L, R, c);
    FinishShares(L, R, c, k, m, i, j);
    FinishCuts(left, L, k, m, p, s, d);
    FinishCuts(right, R, i, j, p, s, d);
    PartsCut(L[k..m], R[i..j], s, p);
    RespectsAt(d, left, right);
  }

  lemma FinishShares(L: seq<Segment>, R: seq<Segment>, c: Walk, k: nat, m: nat, i: nat, j: nat)
    requires Fits(L, R, c) && LeftBoth(L, R, c, k, m, i, j) && k <= m <= |L| && i <= j <= |R|
    ensures var d, s, p := Finish(L, R, c), SharedSuffix(L, R, c), SharedPrefix(L, R, c);
      && Shares(L[k..m], R[i..j], s, p) && p + s <= |Join(L[k..m])| && p + s <= |Join(R[i..j])|
      && |d.prefix| == |Join(L[..k])| + p && |d.suffix| == s + |Join(L[m..])|
      && |d.prefix| == |Join(R[..i])| + p && |d.suffix| == s + |Join(R[j..])|
  {
    hide Rest, Join, Finish, SharedSuffix, SharedPrefix, Over, Shares, Left;
    FinishIs(L, R, c);
    OverIs(L, c.ls, c.le, c.lDone, c.prefix, c.suffix, k, m);
    OverIs(R, c.rs, c.re, c.rDone, c.prefix, c.suffix, i, j);
    SharesIs(L, R, c, L[k..m], R[i..j]);
  }

  lemma RespectsAt(d: DiffSplit, left: string, right: string)
    ensures Respects(d, left, right) <==>
            && !Cuts(Segments(left), |d.prefix|) && !Cuts(Segments(left), |left| - |d.suffix|)
            && !Cuts(Segments(right), |d.prefix|) && !Cuts(Segments(right), |right| - |d.suffix|)
  {
    hide Cuts, Segments;
  }

  // ---------- the theorem ----------

  /** A marker is cut open: a left text that ends in an unclosed marker is continued and the marker is closed there,
      or the text at the back of what is left over reaches into a marker. */
  predicate CutsMarker(left: string, right: string) {
    && left != "" && right != ""
    && var L, R := Segments(left), Segments(right);
       var c := Close(L, R, Aligned(left, right));
       var d := Finish(L, R, c);
       if d.left == "" && d.right == "" then false
       else if d.left == "" && left <= right then Reopened(left, right)
       else SplitCuts(LeftOver(L, R, c), RightOver(L, R, c))
  }

  function LeftOver(L: seq<Segment>, R: seq<Segment>, c: Walk): seq<Segment>
    requires Fits(L, R, c)
  {
    Over(L, c.ls, c.le, c.lDone)
  }

  function RightOver(L: seq<Segment>, R: seq<Segment>, c: Walk): seq<Segment>
    requires Fits(L, R, c)
  {
    Over(R, c.rs, c.re, c.rDone)
  }

  lemma EmptyRespects(x: string, y: string)
    ensures Respects(DiffSplit(x, "", "", ""), x, x)
    ensures x == "" || y == "" ==> Respects(DiffSplit("", "", x, y), x, y)
  {
    var d, e := DiffSplit(x, "", "", ""), DiffSplit("", "", x, y);
    SegmentsJoin(x);
    SegmentsJoin(y);
    CutsWithin(Segments(x), 0);
    CutsWithin(Segments(x), |x|);
    CutsWithin(Segments(y), 0);
    CutsWithin(Segments(y), |y|);
    RespectsAt(d, x, x);
    RespectsAt(e, x, y);
  }

  lemma RepairRespects(d: DiffSplit, left: string, right: string)
    requires d.left == "" && d.right != "" && left <= right
    ensures Respects(Repair(d, left, right), left, right) <==> !Reopened(left, right)
  {
    hide Reopened, Segments, Cuts;
    var e := Repair(d, left, right);
    SegmentsJoin(left);
    SegmentsJoin(right);
    CutsWithin(Segments(left), |left|);
    CutsWithin(Segments(right), |right|);
    ReopenedIff(left, right);
    RespectsAt(e, left, right);
  }

  lemma CloseRespects(left: string, right: string, L: seq<Segment>, R: seq<Segment>, w: Walk)
    requires L == Segments(left) && R == Segments(right) && Fits(L, R, w) && !Advances(L, R, w)
    requires BothOnBorders(L, R, w) && !(w.lDone && w.rDone) && !Respends(L, R, w)
    ensures var c := Close(L, R, w);
      Respects(Finish(L, R, c), left, right)
      <==> !SplitCuts(LeftOver(L, R, c), RightOver(L, R, c))
  {
    hide *;
    var c := Close(L, R, w);
    var k, m, i, j := CloseOnBorders(L, R, w);
    LeftBothIs(L, R, c, k, m, i, j);
    OverIs(L, c.ls, c.le, c.lDone, c.prefix, c.suffix, k, m);
    OverIs(R, c.rs, c.re, c.rDone, c.prefix, c.suffix, i, j);
    Parts(left, k, m);
    Parts(right, i, j);
    CloseUnmatched(L, R, w);
    OverUnmatched(L, R, c);
    FinishRespects(left, right, L, R, c, k, m, i, j);
  }

  lemma LeftBothIs(L: seq<Segment>, R: seq<Segment>, c: Walk, k: nat, m: nat, i: nat, j: nat)
    requires Fits(L, R, c) && LeftBoth(L, R, c, k, m, i, j)
    ensures c.ls <= c.le < |L| && (c.lDone ==> c.ls == c.le) && k <= m <= |L|
    ensures c.rs <= c.re < |R| && (c.rDone ==> c.rs == c.re) && i <= j <= |R|
    ensures Left(L, c.ls, c.le, c.lDone, c.prefix, c.suffix, k, m)
    ensures Left(R, c.rs, c.re, c.rDone, c.prefix, c.suffix, i, j)
  {
    hide Rest, Join;
  }

  lemma Parts(text: string, k: nat, m: nat)
    requires k <= m <= |Segments(text)|
    ensures AllNonEmpty(Segments(text)[k..m]) && WellCut(Segments(text)[k..m])
  {
    hide *;
    SegmentsNonEmpty(text);
    SegmentsWellCut(text);
    NonEmptySlice(Segments(text), k, m);
    WellCutSlice(Segments(text), k, m);
  }

  lemma OverUnmatched(L: seq<Segment>, R: seq<Segment>, c: Walk)
    requires Fits(L, R, c)
    requires !c.lDone && !c.rDone ==> Unmatched(L[c.ls..c.le + 1], R[c.rs..c.re + 1])
    ensures LeftOver(L, R, c) == Over(L, c.ls, c.le, c.lDone) && RightOver(L, R, c) == Over(R, c.rs, c.re, c.rDone)
    ensures Unmatched(LeftOver(L, R, c), RightOver(L, R, c))
  {
  }

  // Before the last correction applies.
  lemma NothingLost(left: string, right: string, w: Walk)
    requires left != "" && right != "" && w == Aligned(left, right)
    ensures var L, R := Segments(left), Segments(right);
      && L != [] && R != [] && Join(L) == left && Join(R) == right && AllNonEmpty(L) && AllNonEmpty(R)
      && Fits(L, R, w) && !Advances(L, R, w) && BothOnBorders(L, R, w) && Whole(L, R, w)
  {
    hide *;
    var L, R := Segments(left), Segments(right);
    NoSegments(left);
    NoSegments(right);
    SegmentsJoin(left);
    SegmentsJoin(right);
    SegmentsNonEmpty(left);
    SegmentsNonEmpty(right);
    AlignedIs(left, right);
    AlignOnBorders(L, R, Start(L, R));
    AlignKeepsWhole(L, R, Start(L, R));
  }

  lemma AlignedIs(left: string, right: string)
    requires left != "" && right != "" && Segments(left) != [] && Segments(right) != []
    ensures var L, R := Segments(left), Segments(right);
      && Aligned(left, right) == Align(L, R, Start(L, R)) && Fits(L, R, Start(L, R))
      && Fits(L, R, Aligned(left, right)) && !Advances(L, R, Aligned(left, right))
      && Whole(L, R, Start(L, R)) && Reason(L, R, Start(L, R)) && BothOnBorders(L, R, Start(L, R))
      && !Start(L, R).lDone && !Start(L, R).rDone
  {
    var L, R := Segments(left), Segments(right);
    hide Segments, Align, Whole, BothOnBorders, Reason;
    StartIsWhole(L, R);
    StartOnBorders(L, R);
  }

  // What the theorem comes to once the difference has been finished to d, with segments A and B left over.
  predicate KeptIff(d: DiffSplit, left: string, right: string, A: seq<Segment>, B: seq<Segment>) {
    Respects(Repair(d, left, right), left, right) <==>
    if d.left == "" && d.right == "" then true
    else if d.left == "" && left <= right then !Reopened(left, right)
    else !SplitCuts(A, B)
  }

  lemma RepairKeeps(d: DiffSplit, left: string, right: string, A: seq<Segment>, B: seq<Segment>)
    requires Rebuilds(Repair(d, left, right), left, right)
    requires (d.left == "" && (d.right == "" || left <= right)) || (Respects(d, left, right) <==> !SplitCuts(A, B))
    ensures KeptIff(d, left, right, A, B)
  {
    hide Respects, SplitCuts, Reopened;
    if d.left == "" && d.right == "" {
      assert Repair(d, left, right) == DiffSplit(left, "", "", "");
      EmptyRespects(left, left);
    } else if d.left == "" && left <= right {
      RepairRespects(d, left, right);
    }
  }

  lemma CloseKept(left: string, right: string, L: seq<Segment>, R: seq<Segment>, w: Walk)
    requires L == Segments(left) && R == Segments(right) && Fits(L, R, w) && !Advances(L, R, w)
    requires BothOnBorders(L, R, w) && !(w.lDone && w.rDone) && !Respends(L, R, w)
    requires Rebuilds(Repair(Finish(L, R, Close(L, R, w)), left, right), left, right)
    ensures var c := Close(L, R, w); KeptIff(Finish(L, R, c), left, right, LeftOver(L, R, c), RightOver(L, R, c))
  {
    hide *;
    CloseRespects(left, right, L, R, w);
    var c := Close(L, R, w);
    RepairKeeps(Finish(L, R, c), left, right, LeftOver(L, R, c), RightOver(L, R, c));
  }

  // The left side was used up twice: the correction applies.
  lemma RespentKept(left: string, right: string, L: seq<Segment>, R: seq<Segment>, w: Walk)
    requires AllNonEmpty(L) && AllNonEmpty(R) && Fits(L, R, w)
    requires w.lDone && (w.rDone || (Respends(L, R, w) && w.rs != w.re && left <= right))
    requires Rebuilds(Repair(Finish(L, R, Close(L, R, w)), left, right), left, right)
    ensures var c := Close(L, R, w); KeptIff(Finish(L, R, c), left, right, LeftOver(L, R, c), RightOver(L, R, c))
  {
    var c := Close(L, R, w);
    assert LeftRest(L, R, c) == "" by { NoneLeft(L, c.ls); }
    if w.rDone {
      assert RightRest(L, R, c) == "" by { NoneLeft(R, c.rs); }
    }
    hide *;
    var d := Finish(L, R, c);
    FinishWhole(L, R, c);
    RepairKeeps(d, left, right, LeftOver(L, R, c), RightOver(L, R, c));
  }

  /** For texts that are rebuilt, no marker of either side is cut open, except exactly in the two cases above. */
  lemma RespectsIff(left: string, right: string)
    requires Rebuilds(Diff(left, right), left, right)
    ensures Respects(Diff(left, right), left, right) <==> !CutsMarker(left, right)
  {
    DiffRebuildsIff(left, right);
    if left == "" || right == "" {
      EmptyRespects(left, right);
    } else {
      var L, R, w := Segments(left), Segments(right), Aligned(left, right);
      var c := Close(L, R, w);
      NothingLost(left, right, w);
      assert Diff(left, right) == Repair(Finish(L, R, c), left, right);
      assert KeptIff(Finish(L, R, c), left, right, LeftOver(L, R, c), RightOver(L, R, c)) ==>
        (Respects(Diff(left, right), left, right) <==> !CutsMarker(left, right)) by {
        hide Respects, Reopened, SplitCuts, Finish, Segments, Close, Aligned, Diff, LeftOver, RightOver;
      }
      assert !Respends(L, R, w) || (w.lDone && w.rs != w.re && left <= right);
      hide *;
      if w.lDone && (w.rDone || (Respends(L, R, w) && w.rs != w.re && left <= right)) {
        RespentKept(left, right, L, R, w);
      } else {
        CloseKept(left, right, L, R, w);
      }
    }
  }

  // ---------- texts without stray brackets ----------

  predicate IsBracket(c: char) {
    IsOpener(c) || c == '>' || c == ']'
  }

  predicate NoBracket(v: string) {
    forall k :: 0 <= k < |v| ==> !IsBracket(v[k])
  }

  // Every bracket belongs to a marker.
  predicate NoStray(segs: seq<Segment>) {
    segs == [] || ((segs[0].kind.TEXT? ==> NoBracket(segs[0].value)) && NoStray(segs[1..]))
  }

  // The text u ends t, and a bracket stands in front of it.
  predicate BehindBracket(t: string, u: string) {
    EndsWith(t, u) && |u| < |t| && IsBracket(t[|t| - 1 - |u|])
  }

  lemma BehindMore(h: string, t: string, u: string)
    ensures BehindBracket(t, u) ==> BehindBracket(h + t, u)
    ensures t == u && h != "" && IsBracket(h[|h| - 1]) ==> BehindBracket(h + t, u)
  {
    hide IsBracket;
  }

  lemma {:induction false} BackIs(A: seq<Segment>)
    requires WellCut(A) && NoStray(A) && A != [] && A[|A| - 1].kind.TEXT?
    ensures if |A| == 1 then Join(A) == A[0].value else BehindBracket(Join(A), A[|A| - 1].value)
    ensures NoBracket(A[|A| - 1].value)
  {
    JoinSingle(A);
    if |A| > 1 {
      var v, rest := A[0].value, A[1..];
      BackIs(rest);
      if |A| == 2 {
        BeforeText(A);
      }
      JoinSingle(rest);
      hide IsBracket, NoStray, WellCut, BehindBracket;
      BehindMore(v, Join(rest), rest[|rest| - 1].value);
    }
  }

  lemma BeforeText(A: seq<Segment>)
    requires WellCut(A) && |A| == 2 && A[1].kind.TEXT? && NoBracket(A[1].value)
    ensures A[0].value != "" && IsBracket(A[0].value[|A[0].value| - 1])
  {
    assert WellCutAt(A[1..]) && A[1..][0] == A[1];
  }

  lemma {:induction false} NotBehind(A: seq<Segment>, B: seq<Segment>)
    requires WellCut(A) && WellCut(B) && NoStray(A) && NoStray(B) && A != [] && B != []
    requires A[|A| - 1].kind.TEXT? && B[|B| - 1].kind.TEXT? && A[|A| - 1] != B[|B| - 1]
    ensures !CutsBehind(A, Join(B))
    decreases |A|
  {
    if |A| == 1 {
      assert A[1..] == [];
    } else {
      NotBehind(A[1..], B);
      if A[0].kind.MARKER? {
        NotMatched(A, B);
      }
    }
  }

  lemma NotMatched(A: seq<Segment>, B: seq<Segment>)
    requires WellCut(A) && WellCut(B) && NoStray(A) && NoStray(B) && |A| > 1 && B != [] && A[0].kind.MARKER?
    requires A[|A| - 1].kind.TEXT? && B[|B| - 1].kind.TEXT? && A[|A| - 1] != B[|B| - 1]
    ensures !HalfMatched(A[0], Join(A[1..]), Join(B))
  {
    hide *;
    var rest := A[1..];
    WellCutRest(A);
    assert rest[|rest| - 1] == A[|A| - 1];
    BackIs(rest);
    BackIs(B);
    TextsDiffer(A[|A| - 1], B[|B| - 1]);
    EndOfMarker(A[0].value, Join(rest), A[|A| - 1].value);
    JoinSingle(rest);
    JoinSingle(B);
    LastDiffers(Join(B), A[|A| - 1].value, B[|B| - 1].value, A[0].value[|A[0].value| - 1..] + Join(rest));
    NotHalf(A[0], Join(rest), Join(B));
  }

  lemma WellCutRest(A: seq<Segment>)
    requires WellCut(A) && NoStray(A) && A != []
    ensures WellCut(A[1..]) && NoStray(A[1..]) && (A[0].kind.MARKER? ==> IsMarker(A[0].value) && |A[0].value| > 1)
  {
  }

  lemma TextsDiffer(a: Segment, b: Segment)
    requires a.kind.TEXT? && b.kind.TEXT? && a != b
    ensures a.value != b.value
  {
  }

  // The closing bracket of a marker stands in front of what follows.
  lemma EndOfMarker(v: string, rest: string, u: string)
    requires IsMarker(v) && |v| > 1 && (rest == u || BehindBracket(rest, u))
    ensures BehindBracket(v[|v| - 1..] + rest, u)
  {
    assert v[|v| - 1..] == [v[|v| - 1]] && IsBracket(v[|v| - 1]);
    hide BehindBracket;
    BehindMore(v[|v| - 1..], rest, u);
  }

  lemma NotHalf(m: Segment, rest: string, other: string)
    requires m.value != "" && !EndsWith(other, m.value[|m.value| - 1..] + rest)
    ensures !HalfMatched(m, rest, other)
  {
    hide EndsWith;
  }

  // A bracket stands in front of the last text on both sides, so what is shared cannot reach beyond the shorter one.
  lemma LastDiffers(r: string, u: string, w: string, t: string)
    requires BehindBracket(t, u) && (r == w || BehindBracket(r, w)) && NoBracket(u) && NoBracket(w) && u != w
    ensures !EndsWith(r, t)
  {
    hide IsBracket;
    SameBack(r, t, |u|);
    if |w| < |u| {
      SameBack(r, t, |w|);
      SameBack(t, u, |w|);
    } else if |w| == |u| {
      BackText(r, w, t);
      BackText(t, u, t);
    } else {
      SameBack(r, w, |u|);
    }
  }

  // Counted from behind, the same characters.
  lemma SameBack(r: string, t: string, n: nat)
    ensures EndsWith(r, t) && n < |t| ==> r[|r| - 1 - n] == t[|t| - 1 - n]
  {
    if EndsWith(r, t) && n < |t| {
      assert r[|r| - |t|..][|t| - 1 - n] == t[|t| - 1 - n];
    }
  }

  lemma BackText(r: string, w: string, t: string)
    requires (r == w || EndsWith(r, w)) && |w| <= |t|
    ensures EndsWith(r, t) ==> t[|t| - |w|..] == w
  {
    if EndsWith(r, t) {
      TailOfTail(r, |t|, |w|);
    }
  }

  lemma NoStraySplit(A: seq<Segment>, B: seq<Segment>)
    requires WellCut(A) && WellCut(B) && NoStray(A) && NoStray(B) && Unmatched(A, B)
    ensures !SplitCuts(A, B)
  {
    hide WellCut, NoStray, Join, CutsBehind;
    if A != [] && B != [] && A[|A| - 1].kind.TEXT? && B[|B| - 1].kind.TEXT? && A[|A| - 1] != B[|B| - 1] {
      NotBehind(A, B);
      NotBehind(B, A);
    } else if |A| == |B| == 1 && A[0].kind.TEXT? && A[0] == B[0] {
      OneText(A, B);
    }
  }

  lemma OneText(A: seq<Segment>, B: seq<Segment>)
    requires |A| == |B| == 1 && A[0].kind.TEXT? && A[0] == B[0]
    ensures !CutsBehind(A, Join(B)) && !CutsBehind(B, Join(A))
  {
    assert A[1..] == [] && B[1..] == [];
  }

  lemma {:induction false} NoStrayAt(segs: seq<Segment>, i: nat)
    requires NoStray(segs) && i < |segs| && segs[i].kind.TEXT?
    ensures NoBracket(segs[i].value)
  {
    if i > 0 {
      NoStrayAt(segs[1..], i - 1);
    }
  }

  lemma NoStrayReopened(left: string, right: string)
    requires left <= right && NoStray(Segments(left))
    ensures !Reopened(left, right)
  {
    hide Segments, NoStray;
    var L := Segments(left);
    if L != [] && L[|L| - 1].kind.TEXT? {
      NoStrayAt(L, |L| - 1);
    }
  }

  lemma {:induction false} NoStraySlice(segs: seq<Segment>, k: nat, m: nat)
    requires NoStray(segs) && k <= m <= |segs|
    ensures NoStray(segs[k..m])
    decreases |segs|
  {
    hide NoBracket;
    if k > 0 {
      assert segs[1..][k - 1..m - 1] == segs[k..m];
      NoStraySlice(segs[1..], k - 1, m - 1);
    } else if m > 0 {
      assert segs[0..m][1..] == segs[1..][0..m - 1];
      NoStraySlice(segs[1..], 0, m - 1);
    }
  }

  lemma NoStrayOver(segs: seq<Segment>, s: nat, e: nat, done: bool)
    requires s <= e < |segs| && NoStray(segs) && WellCut(segs)
    ensures NoStray(Over(segs, s, e, done)) && WellCut(Over(segs, s, e, done))
  {
    hide WellCut, NoStray;
    WellCutSlice(segs, s, if done then e else e + 1);
    NoStraySlice(segs, s, if done then e else e + 1);
  }

  lemma OverDone(L: seq<Segment>, R: seq<Segment>, c: Walk)
    requires Fits(L, R, c)
    ensures c.ls <= c.le < |L| && c.rs <= c.re < |R|
    ensures c.lDone || c.rDone ==> Unmatched(LeftOver(L, R, c), RightOver(L, R, c))
    ensures LeftOver(L, R, c) == Over(L, c.ls, c.le, c.lDone) && RightOver(L, R, c) == Over(R, c.rs, c.re, c.rDone)
  {
  }

  lemma NoStrayLeft(L: seq<Segment>, R: seq<Segment>, w: Walk)
    requires NoStray(L) && NoStray(R) && WellCut(L) && WellCut(R) && Fits(L, R, w) && !Advances(L, R, w)
    ensures var c := Close(L, R, w); !SplitCuts(LeftOver(L, R, c), RightOver(L, R, c))
  {
    hide *;
    var c := Close(L, R, w);
    CloseUnmatched(L, R, w);
    OverDone(L, R, c);
    if !c.lDone && !c.rDone {
      OverUnmatched(L, R, c);
    }
    NoStrayOver(L, c.ls, c.le, c.lDone);
    NoStrayOver(R, c.rs, c.re, c.rDone);
    NoStraySplit(LeftOver(L, R, c), RightOver(L, R, c));
  }

  /** Texts in which every bracket belongs to a marker are cut at the borders of their markers only. */
  lemma NoStrayRespected(left: string, right: string)
    requires Rebuilds(Diff(left, right), left, right)
    requires NoStray(Segments(left)) && NoStray(Segments(right))
    ensures Respects(Diff(left, right), left, right)
  {
    RespectsIff(left, right);
    if left != "" && right != "" {
      var L, R, w := Segments(left), Segments(right), Aligned(left, right);
      NothingLost(left, right, w);
      SegmentsWellCut(left);
      SegmentsWellCut(right);
      assert !CutsMarker(left, right) by {
        hide Segments, Aligned, Close, Finish, SplitCuts, NoStray, Reopened, LeftOver, RightOver, WellCut, Rebuilds;
        NoStrayLeft(L, R, w);
        if left <= right {
          NoStrayReopened(left, right);
        }
      }
    }
  }
}
