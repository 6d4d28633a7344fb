/** The difference of two texts, aligned to their markers. */
module MarkerDiff {
  import opened Markers

  datatype DiffSplit = DiffSplit(prefix: string, suffix: string, left: string, right: string)

  // What a difference is for: both texts can be rebuilt from it.
  predicate Rebuilds(d: DiffSplit, left: string, right: string) {
    d.prefix + d.left + d.suffix == left && d.prefix + d.right + d.suffix == right
  }

  // ---------- common ends of two texts ----------

  function CommonPrefix(a: string, b: string): (n: nat)
    ensures n <= |a| && n <= |b| && a[..n] == b[..n]
    ensures n == |a| || n == |b| || a[n] != b[n]
  {
    if a == "" || b == "" || a[0] != b[0] then 0
    else
      var n := CommonPrefix(a[1..], b[1..]);
      assert a[..n + 1] == [a[0]] + a[1..][..n] && b[..n + 1] == [b[0]] + b[1..][..n];
      n + 1
  }

  function CommonSuffix(a: string, b: string): (n: nat)
    ensures n <= |a| && n <= |b| && a[|a| - n..] == b[|b| - n..]
    ensures n == |a| || n == |b| || a[|a| - 1 - n] != b[|b| - 1 - n]
  {
    SuffixFrom(a, b, 0)
  }

  // The last k characters are known to agree.
  function SuffixFrom(a: string, b: string, k: nat): (n: nat)
    requires k <= |a| && k <= |b| && a[|a| - k..] == b[|b| - k..]
    ensures n <= |a| && n <= |b| && a[|a| - n..] == b[|b| - n..]
    ensures n == |a| || n == |b| || a[|a| - 1 - n] != b[|b| - 1 - n]
    decreases |a| - k
  {
    if k == |a| || k == |b| || a[|a| - 1 - k] != b[|b| - 1 - k] then k
    else
      OneMoreBack(a, |a| - 1 - k);
      OneMoreBack(b, |b| - 1 - k);
      SuffixFrom(a, b, k + 1)
  }

  lemma OneMoreBack(a: string, i: nat)
    requires i < |a|
    ensures a[i..] == [a[i]] + a[i + 1..]
  {
  }

  // Both lengths are determined by what the functions promise.
  lemma PrefixIsUnique(a: string, b: string, n: nat)
    requires n <= |a| && n <= |b| && a[..n] == b[..n]
    requires n == |a| || n == |b| || a[n] != b[n]
    ensures n == CommonPrefix(a, b)
  {
    var m := CommonPrefix(a, b);
    assert forall k :: 0 <= k < n ==> a[k] == b[k] by {
      assert forall k :: 0 <= k < n ==> a[..n][k] == b[..n][k];
    }
    assert forall k :: 0 <= k < m ==> a[k] == b[k] by {
      assert forall k :: 0 <= k < m ==> a[..m][k] == b[..m][k];
    }
  }

  lemma SameSuffix(a: string, b: string, n: nat)
    requires n <= |a| && n <= |b| && a[|a| - n..] == b[|b| - n..]
    ensures forall i, j {:trigger a[i], b[j]} :: |a| - n <= i < |a| && j - |b| == i - |a| ==> a[i] == b[j]
  {
    forall i, j | |a| - n <= i < |a| && j - |b| == i - |a| ensures a[i] == b[j] {
      assert a[|a| - n..][i - (|a| - n)] == b[|b| - n..][j - (|b| - n)];
    }
  }

  lemma SuffixIsUnique(a: string, b: string, n: nat)
    requires n <= |a| && n <= |b| && a[|a| - n..] == b[|b| - n..]
    requires n == |a| || n == |b| || a[|a| - 1 - n] != b[|b| - 1 - n]
    ensures n == CommonSuffix(a, b)
  {
    SameSuffix(a, b, n);
    SameSuffix(a, b, CommonSuffix(a, b));
  }

  method CommonPrefixLen(left: string, right: string) returns (n: nat)
    ensures n == CommonPrefix(left, right)
  {
    n := 0;
    var min := if |left| < |right| then |left| else |right|;
    while n < min && left[n] == right[n]
      invariant n <= min && left[..n] == right[..n]
    {
      n := n + 1;
    }
    PrefixIsUnique(left, right, n);
  }

  method CommonSuffixLen(left: string, right: string) returns (n: nat)
    ensures n == CommonSuffix(left, right)
  {
    n := 0;
    var min := if |left| < |right| then |left| else |right|;
    while n < min && left[|left| - 1 - n] == right[|right| - 1 - n]
      invariant n <= min && left[|left| - n..] == right[|right| - n..]
    {
      assert left[|left| - n - 1..] == [left[|left| - 1 - n]] + left[|left| - n..];
      assert right[|right| - n - 1..] == [right[|right| - 1 - n]] + right[|right| - n..];
      n := n + 1;
    }
    SuffixIsUnique(left, right, n);
  }

  // ---------- aligning the segments ----------

  // The first and last segment not used up on either side, what has been taken to the common ends, and whether the
  // only segment left has been taken as well.
  datatype Walk = Walk(ls: nat, le: nat, rs: nat, re: nat, prefix: string, suffix: string, lDone: bool, rDone: bool)

  predicate Fits(L: seq<Segment>, R: seq<Segment>, w: Walk) {
    && w.ls <= w.le < |L| && w.rs <= w.re < |R|
    && (w.lDone ==> w.ls == w.le) && (w.rDone ==> w.rs == w.re)
  }

  predicate Advances(L: seq<Segment>, R: seq<Segment>, w: Walk)
    requires Fits(L, R, w)
  {
    w.ls != w.le && w.rs != w.re && (L[w.ls] == R[w.rs] || L[w.le] == R[w.re])
  }

  function TakePrefix(L: seq<Segment>, R: seq<Segment>, w: Walk): Walk
    requires Fits(L, R, w)
  {
    if L[w.ls] == R[w.rs] then w.(prefix := w.prefix + L[w.ls].value, ls := w.ls + 1, rs := w.rs + 1) else w
  }

  function TakeSuffix(L: seq<Segment>, R: seq<Segment>, w: Walk): Walk
    requires Fits(L, R, w)
  {
    if L[w.le] == R[w.re] then
      w.(suffix := L[w.le].value + w.suffix,
         le := if w.ls != w.le then w.le - 1 else w.le,
         re := if w.rs != w.re then w.re - 1 else w.re,
         lDone := w.lDone || w.ls == w.le,
         rDone := w.rDone || w.rs == w.re)
    else w
  }

  function Step(L: seq<Segment>, R: seq<Segment>, w: Walk): (r: Walk)
    requires Fits(L, R, w) && Advances(L, R, w)
    ensures Fits(L, R, r) && r.le - r.ls + r.re - r.rs < w.le - w.ls + w.re - w.rs
  {
    TakeSuffix(L, R, TakePrefix(L, R, w))
  }

  function Align(L: seq<Segment>, R: seq<Segment>, w: Walk): (r: Walk)
    requires Fits(L, R, w)
    ensures Fits(L, R, r) && !Advances(L, R, r)
    decreases w.le - w.ls + w.re - w.rs
  {
    if Advances(L, R, w) then Align(L, R, Step(L, R, w)) else w
  }

  function Start(L: seq<Segment>, R: seq<Segment>): Walk
    requires L != [] && R != []
  {
    Walk(0, |L| - 1, 0, |R| - 1, "", "", false, false)
  }

  // One side has a single segment left: it may still match an end of the other side.
  predicate LeftTakesSuffix(L: seq<Segment>, R: seq<Segment>, w: Walk)
    requires Fits(L, R, w)
  {
    w.ls == w.le && w.rs != w.re && L[w.ls] == R[w.re]
  }

  predicate LeftTakesPrefix(L: seq<Segment>, R: seq<Segment>, w: Walk)
    requires Fits(L, R, w)
  {
    w.ls == w.le && w.rs != w.re && L[w.ls] != R[w.re] && L[w.ls] == R[w.rs]
  }

  predicate RightTakesSuffix(L: seq<Segment>, R: seq<Segment>, w: Walk)
    requires Fits(L, R, w)
  {
    w.rs == w.re && w.ls != w.le && L[w.le] == R[w.rs]
  }

  predicate RightTakesPrefix(L: seq<Segment>, R: seq<Segment>, w: Walk)
    requires Fits(L, R, w)
  {
    w.rs == w.re && w.ls != w.le && L[w.le] != R[w.rs] && L[w.ls] == R[w.rs]
  }

  predicate BothTakeMarker(L: seq<Segment>, R: seq<Segment>, w: Walk)
    requires Fits(L, R, w)
  {
    w.ls == w.le && w.rs == w.re && L[w.ls] == R[w.rs] && L[w.ls].kind.MARKER?
  }

  predicate Fires(L: seq<Segment>, R: seq<Segment>, w: Walk)
    requires Fits(L, R, w)
  {
    || LeftTakesSuffix(L, R, w) || LeftTakesPrefix(L, R, w)
    || RightTakesSuffix(L, R, w) || RightTakesPrefix(L, R, w)
    || BothTakeMarker(L, R, w)
  }

  function Close(L: seq<Segment>, R: seq<Segment>, w: Walk): (r: Walk)
    requires Fits(L, R, w)
    ensures Fits(L, R, r)
  {
    if LeftTakesSuffix(L, R, w) then
      w.(suffix := R[w.re].value + w.suffix, re := w.re - 1, lDone := true)
    else if LeftTakesPrefix(L, R, w) then
      w.(prefix := w.prefix + R[w.rs].value, rs := w.rs + 1, lDone := true)
    else if RightTakesSuffix(L, R, w) then
      w.(suffix := L[w.le].value + w.suffix, le := w.le - 1, rDone := true)
    else if RightTakesPrefix(L, R, w) then
      w.(prefix := w.prefix + L[w.ls].value, ls := w.ls + 1, rDone := true)
    else if BothTakeMarker(L, R, w) then
      w.(prefix := w.prefix + R[w.rs].value, lDone := true, rDone := true)
    else w
  }

  // The segments from s to e, or up to e when the last one has been taken.
  function Rest(segs: seq<Segment>, s: nat, e: nat, done: bool): string
    requires s <= e < |segs|
  {
    Join(segs[s..if done then e else e + 1])
  }

  function LeftRest(L: seq<Segment>, R: seq<Segment>, w: Walk): string
    requires Fits(L, R, w)
  {
    Rest(L, w.ls, w.le, w.lDone)
  }

  function RightRest(L: seq<Segment>, R: seq<Segment>, w: Walk): string
    requires Fits(L, R, w)
  {
    Rest(R, w.rs, w.re, w.rDone)
  }

  // ---------- the difference ----------

  // Text at the ends of what is left over is compared character by character; the suffix goes first.
  function SplitText(l: string, r: string, canPrefix: bool, canSuffix: bool, prefix: string, suffix: string)
    : DiffSplit
  {
    var s := if canSuffix then CommonSuffix(l, r) else 0;
    var p := if canPrefix then CommonPrefix(l[..|l| - s], r[..|r| - s]) else 0;
    DiffSplit(prefix + l[..p], l[|l| - s..] + suffix, l[p..|l| - s], r[p..|r| - s])
  }

  function Repair(d: DiffSplit, left: string, right: string): DiffSplit {
    if d.left == "" && d.right == "" then DiffSplit(left, "", "", "")
    else if d.left == "" && left <= right then DiffSplit(left, "", "", right[|left|..])
    else d
  }

  function Finish(L: seq<Segment>, R: seq<Segment>, w: Walk): DiffSplit
    requires Fits(L, R, w)
  {
    SplitText(LeftRest(L, R, w), RightRest(L, R, w),
              R[w.rs].kind.TEXT? && L[w.ls].kind.TEXT?, L[w.le].kind.TEXT? && R[w.re].kind.TEXT?, w.prefix, w.suffix)
  }

  function Aligned(left: string, right: string): Walk
    requires left != "" && right != ""
  {
    Align(Segments(left), Segments(right), Start(Segments(left), Segments(right)))
  }

  function Diff(left: string, right: string): DiffSplit {
    if left == "" then DiffSplit("", "", "", right)
    else if right == "" then DiffSplit("", "", left, "")
    else
      var L, R := Segments(left), Segments(right);
      Repair(Finish(L, R, Close(L, R, Aligned(left, right))), left, right)
  }

  method CalculateDiffSplit(left: string, right: string) returns (d: DiffSplit)
    ensures d == Diff(left, right)
  {
    var L := Segmentize(left);
    var R := Segmentize(right);
    NoSegments(left);
    NoSegments(right);
    if L == [] {
      return DiffSplit("", "", "", right);
    }
    if R == [] {
      return DiffSplit("", "", left, "");
    }
    hide Segments, Align, Close, Finish;
    var ls, le, rs, re, prefix, suffix, lDone, rDone := AlignEnds(L, R);
    ls, le, rs, re, prefix, suffix, lDone, rDone := CloseEnds(L, R, ls, le, rs, re, prefix, suffix, lDone, rDone);
    d := FinishSplit(L, R, ls, le, rs, re, prefix, suffix, lDone, rDone);
    if d.left == "" && d.right == "" {
      d := d.(prefix := left, suffix := "");
    }
    if d.left == "" && d.right != "" && |left| <= |right| && right[..|left|] == left {
      d := d.(prefix := left, suffix := "", right := right[|left|..]);
    }
  }

  lemma NoSegments(t: string)
    ensures Segments(t) == [] <==> t == ""
  {
  }

  method AlignEnds(L: seq<Segment>, R: seq<Segment>)
    returns (ls: nat, le: nat, rs: nat, re: nat, prefix: string, suffix: string, lDone: bool, rDone: bool)
    requires L != [] && R != []
    ensures Walk(ls, le, rs, re, prefix, suffix, lDone, rDone) == Align(L, R, Start(L, R))
  {
    prefix, suffix := "", "";
    ls, le, rs, re := 0, |L| - 1, 0, |R| - 1;
    lDone, rDone := false, false;
    while ls != le && rs != re
      invariant Fits(L, R, Walk(ls, le, rs, re, prefix, suffix, lDone, rDone))
      invariant Align(L, R, Walk(ls, le, rs, re, prefix, suffix, lDone, rDone)) == Align(L, R, Start(L, R))
      decreases le - ls + re - rs
    {
      ghost var w := Walk(ls, le, rs, re, prefix, suffix, lDone, rDone);
      var advanced := false;
      if L[ls] == R[rs] {
        prefix := prefix + L[ls].value;
        ls, rs := ls + 1, rs + 1;
        advanced := true;
      }
      if L[le] == R[re] {
        suffix := L[le].value + suffix;
        if ls != le {
          le := le - 1;
        } else {
          lDone := true;
        }
        if rs != re {
          re := re - 1;
        } else {
          rDone := true;
        }
        advanced := true;
      }
      if !advanced {
        break;
      }
      assert Walk(ls, le, rs, re, prefix, suffix, lDone, rDone) == Step(L, R, w);
    }
  }

  // After the loop: a single segment left on one side may still match an end of the other.
  method CloseEnds(L: seq<Segment>, R: seq<Segment>, ls0: nat, le0: nat, rs0: nat, re0: nat,
                   prefix0: string, suffix0: string, lDone0: bool, rDone0: bool)
    returns (ls: nat, le: nat, rs: nat, re: nat, prefix: string, suffix: string, lDone: bool, rDone: bool)
    requires Fits(L, R, Walk(ls0, le0, rs0, re0, prefix0, suffix0, lDone0, rDone0))
    ensures Walk(ls, le, rs, re, prefix, suffix, lDone, rDone) ==
            Close(L, R, Walk(ls0, le0, rs0, re0, prefix0, suffix0, lDone0, rDone0))
  {
    ls, le, rs, re, prefix, suffix, lDone, rDone := ls0, le0, rs0, re0, prefix0, suffix0, lDone0, rDone0;
    if ls == le && rs != re {
      if L[ls] == R[re] {
        suffix := R[re].value + suffix;
        re := re - 1;
        lDone := true;
      } else if L[ls] == R[rs] {
        prefix := prefix + R[rs].value;
        rs := rs + 1;
        lDone := true;
      }
    } else if rs == re && ls != le {
      if L[le] == R[rs] {
        suffix := L[le].value + suffix;
        le := le - 1;
        rDone := true;
      } else if L[ls] == R[rs] {
        prefix := prefix + L[ls].value;
        ls := ls + 1;
        rDone := true;
      }
    } else if ls == le && rs == re && L[ls] == R[rs] && L[ls].kind.MARKER? {
      prefix := prefix + R[rs].value;
      lDone, rDone := true, true;
    }
  }

  // Joining what is left over and comparing it as text.
  method FinishSplit(L: seq<Segment>, R: seq<Segment>, ls: nat, le: nat, rs: nat, re: nat,
                     prefix: string, suffix: string, lDone: bool, rDone: bool) returns (d: DiffSplit)
    requires Fits(L, R, Walk(ls, le, rs, re, prefix, suffix, lDone, rDone))
    ensures d == Finish(L, R, Walk(ls, le, rs, re, prefix, suffix, lDone, rDone))
  {
    hide SplitText, Join;
    var canSuffix := L[le].kind.TEXT? && R[re].kind.TEXT?;
    var canPrefix := R[rs].kind.TEXT? && L[ls].kind.TEXT?;
    var l := Accumulate(L, ls, if lDone then le else le + 1);
    var r := Accumulate(R, rs, if rDone then re else re + 1);
    d := CompareText(l, r, canPrefix, canSuffix, prefix, suffix);
  }

  method CompareText(l: string, r: string, canPrefix: bool, canSuffix: bool, prefix: string, suffix: string)
    returns (d: DiffSplit)
    ensures d == SplitText(l, r, canPrefix, canSuffix, prefix, suffix)
  {
    hide CommonPrefix, CommonSuffix;
    var s := 0;
    if canSuffix {
      s := CommonSuffixLen(l, r);
    }
    // The suffix is left out, so that nothing is counted twice.
    var p := 0;
    if canPrefix {
      p := CommonPrefixLen(l[..|l| - s], r[..|r| - s]);
    }
    d := DiffSplit(prefix + l[..p], l[|l| - s..] + suffix, l[p..|l| - s], r[p..|r| - s]);
  }

  method Accumulate(segs: seq<Segment>, from: nat, to: nat) returns (s: string)
    requires from <= to <= |segs|
    ensures s == Join(segs[from..to])
  {
    s := "";
    var i := from;
    while i < to
      invariant from <= i <= to && s == Join(segs[from..i])
    {
      assert segs[from..i + 1] == segs[from..i] + [segs[i]];
      JoinConcat(segs[from..i], [segs[i]]);
      assert Join([segs[i]]) == segs[i].value;
      s := s + segs[i].value;
      i := i + 1;
    }
  }
}
