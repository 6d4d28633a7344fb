/** The longest common substring of two strings, by dynamic programming. */
module Lcs {

  ghost predicate Occurs(s: string, t: string) {
    exists p :: OccursAt(s, t, p)
  }

  ghost predicate OccursAt(s: string, t: string, p: int) {
    0 <= p <= |t| - |s| && t[p..p + |s|] == s
  }

  // The stretch of a at p is nowhere in b.
  ghost predicate Misses(a: string, b: string, p: nat, len: nat)
    requires p + len <= |a|
  {
    !Occurs(a[p..p + len], b)
  }

  // The length of the longest common suffix of a[..i] and b[..j]: what one cell of the table holds.
  ghost function SuffixLen(a: string, b: string, i: nat, j: nat): nat
    requires i <= |a| && j <= |b|
  {
    if i == 0 || j == 0 || a[i - 1] != b[j - 1] then 0 else SuffixLen(a, b, i - 1, j - 1) + 1
  }

  /** A cell really is that maximum: the common suffixes are those up to its length. */
  lemma {:induction false} SuffixLenIsLongest(a: string, b: string, i: nat, j: nat, k: nat)
    requires i <= |a| && j <= |b|
    ensures k <= SuffixLen(a, b, i, j) <==> k <= i && k <= j && a[i - k..i] == b[j - k..j]
  {
    if k == 0 {
      assert a[i..i] == b[j..j];
    } else if i > 0 && j > 0 {
      SuffixLenIsLongest(a, b, i - 1, j - 1, k - 1);
      if k <= i && k <= j {
        assert a[i - k..i] == a[i - 1 - (k - 1)..i - 1] + [a[i - 1]];
        assert b[j - k..j] == b[j - 1 - (k - 1)..j - 1] + [b[j - 1]];
        assert a[i - k..i][k - 1] == a[i - 1] && b[j - k..j][k - 1] == b[j - 1];
        assert a[i - k..i][..k - 1] == a[i - 1 - (k - 1)..i - 1] && b[j - k..j][..k - 1] == b[j - 1 - (k - 1)..j - 1];
      }
    }
  }

  // No cell of the rows below `row`, and none of row `row` left of `col`, exceeds the bound.
  ghost predicate Bounded(a: string, b: string, row: nat, col: nat, bound: int)
    requires row <= |a| + 1 && col <= |b| + 1
  {
    forall i: nat, j: nat :: i <= |a| && j <= |b| && (i < row || (i == row && j < col)) ==>
      SuffixLen(a, b, i, j) <= bound
  }

  // The best match so far, and no cell of an earlier row is as good.
  ghost predicate Best(a: string, b: string, len: nat, endA: nat, endB: nat) {
    && endA <= |a| && endB <= |b|
    && SuffixLen(a, b, endA, endB) == len
    && (len == 0 ==> endA == 0)
    && Bounded(a, b, endA, 0, len - 1)
  }

  ghost predicate TableHolds(dp: array2<nat>, a: string, b: string, row: nat, col: nat)
    requires dp.Length0 == |a| + 1 && dp.Length1 == |b| + 1
    requires 1 <= row <= |a| + 1 && 1 <= col <= |b| + 1
    reads dp
  {
    && (forall i: nat, j: nat :: i <= |a| && j <= |b| && (i < row || (i == row && j < col)) ==>
          dp[i, j] == SuffixLen(a, b, i, j))
    && (forall i: nat, j: nat :: i <= |a| && j <= |b| && !(i < row || (i == row && j < col)) ==> dp[i, j] == 0)
  }

  /** The longest common substring; of several, the one that begins first in a. */
  method LongestCommonSubstring(a: string, b: string) returns (r: string)
    ensures Occurs(r, b)
    ensures forall s :: Occurs(s, a) && Occurs(s, b) ==> |s| <= |r|
    ensures exists p :: OccursAt(r, a, p) && forall q :: 0 <= q < p ==> Misses(a, b, q, |r|)
  {
    if a == "" || b == "" {
      assert OccursAt("", a, 0) && OccursAt("", b, 0);
      return "";
    }
    hide SuffixLen, Occurs, Misses;
    var dp := new nat[|a| + 1, |b| + 1]((i, j) => 0);
    var bestLen, bestEnd := 0, 0;
    ghost var bestJ := 0;
    Edges(a, b);
    var i := 1;
    while i <= |a|
      invariant 1 <= i <= |a| + 1
      invariant TableHolds(dp, a, b, i, 1)
      invariant Best(a, b, bestLen, bestEnd, bestJ) && bestEnd < i && Bounded(a, b, i, 1, bestLen)
    {
      var j := 1;
      while j <= |b|
        invariant 1 <= j <= |b| + 1
        invariant TableHolds(dp, a, b, i, j)
        invariant Best(a, b, bestLen, bestEnd, bestJ) && bestEnd <= i && Bounded(a, b, i, j, bestLen)
      {
        Cell(a, b, i, j);
        if a[i - 1] == b[j - 1] {
          dp[i, j] := dp[i - 1, j - 1] + 1;
          if dp[i, j] > bestLen {
            bestLen, bestEnd, bestJ := dp[i, j], i, j;
          }
        }
        j := j + 1;
      }
      i := i + 1;
    }
    LongestFound(a, b, bestLen, bestEnd, bestJ);
    r := a[bestEnd - bestLen..bestEnd];
  }

  lemma Cell(a: string, b: string, i: nat, j: nat)
    requires 1 <= i <= |a| && 1 <= j <= |b|
    ensures SuffixLen(a, b, i, j) == if a[i - 1] == b[j - 1] then SuffixLen(a, b, i - 1, j - 1) + 1 else 0
  {
  }

  lemma Edges(a: string, b: string)
    ensures forall i: nat :: i <= |a| ==> SuffixLen(a, b, i, 0) == 0
    ensures forall j: nat :: j <= |b| ==> SuffixLen(a, b, 0, j) == 0
  {
  }

  lemma LongestFound(a: string, b: string, len: nat, endA: nat, endB: nat)
    requires Best(a, b, len, endA, endB) && Bounded(a, b, |a| + 1, 0, len)
    ensures len <= endA
    ensures Occurs(a[endA - len..endA], b)
    ensures forall s :: Occurs(s, a) && Occurs(s, b) ==> |s| <= len
    ensures OccursAt(a[endA - len..endA], a, endA - len)
    ensures forall q :: 0 <= q < endA - len ==> Misses(a, b, q, len)
  {
    hide SuffixLen;
    SuffixLenIsLongest(a, b, endA, endB, len);
    assert OccursAt(a[endA - len..endA], b, endB - len);
    assert OccursAt(a[endA - len..endA], a, endA - len);
    forall s, p, q | OccursAt(s, a, p) && OccursAt(s, b, q) ensures |s| <= len {
      SharedIsCell(a, b, s, p, q);
    }
    forall q | 0 <= q < endA - len ensures Misses(a, b, q, len) {
      var s := a[q..q + len];
      if Occurs(s, b) {
        var p :| OccursAt(s, b, p);
        assert OccursAt(s, a, q);
        SharedIsCell(a, b, s, q, p);
      }
    }
  }

  // An occurrence in both strings shows in the cell where it ends.
  lemma SharedIsCell(a: string, b: string, s: string, p: nat, q: nat)
    requires OccursAt(s, a, p) && OccursAt(s, b, q)
    ensures |s| <= SuffixLen(a, b, p + |s|, q + |s|)
  {
    SuffixLenIsLongest(a, b, p + |s|, q + |s|, |s|);
    assert p + |s| - |s| == p && q + |s| - |s| == q;
  }
}
