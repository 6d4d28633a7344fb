/** Splitting a token list into message spans at role delimiters. */
module Spans {
  import opened Text

  datatype Role = UNKNOWN | SYSTEM | ASSISTANT | USER | TOOL

  datatype Delimiter = Delimiter(role: Role, tokens: seq<int>)

  datatype Span = Span(role: Role, pos: nat, len: nat)

  // A region that is jumped over without matching.
  datatype Skip = Skip(start: nat, len: nat)

  // The regions as an ordered map lists them.
  predicate Ordered(skips: seq<Skip>) {
    forall i, j :: 0 <= i < j < |skips| ==> skips[i].start < skips[j].start
  }

  predicate Disjoint(skips: seq<Skip>) {
    forall j :: 0 < j < |skips| ==> Follows(skips, j)
  }

  predicate Follows(skips: seq<Skip>, j: nat)
    requires 0 < j < |skips|
  {
    skips[j - 1].start + skips[j - 1].len <= skips[j].start
  }

  // The regions that are used: all up to the first one that begins inside its predecessor, from position n on.
  function Used(skips: seq<Skip>, n: nat): (k: nat)
    requires n <= |skips|
    ensures n <= k <= |skips|
    ensures forall j :: n <= j < k && 0 < j ==> Follows(skips, j)
    ensures k < |skips| ==> 0 < k && !Follows(skips, k)
    decreases |skips| - n
  {
    if n == |skips| || (n > 0 && !Follows(skips, n)) then n else Used(skips, n + 1)
  }

  predicate InRegion(skips: seq<Skip>, j: nat, p: int)
    requires j < |skips|
  {
    skips[j].start <= p < skips[j].start + skips[j].len
  }

  // The position is looked at: it lies in none of the used regions.
  predicate Examined(skips: seq<Skip>, p: int) {
    forall j :: 0 <= j < Used(skips, 0) ==> !InRegion(skips, j, p)
  }

  predicate MatchesAt(d: Delimiter, tokens: seq<int>, p: nat) {
    p + |d.tokens| <= |tokens| && tokens[p..p + |d.tokens|] == d.tokens
  }

  // The role of the first delimiter that matches.
  function RoleAt(delimiters: seq<Delimiter>, tokens: seq<int>, p: nat): Option<Role> {
    if delimiters == [] then None
    else if MatchesAt(delimiters[0], tokens, p) then Some(delimiters[0].role)
    else RoleAt(delimiters[1..], tokens, p)
  }

  // A span begins here.
  predicate Begins(delimiters: seq<Delimiter>, tokens: seq<int>, skips: seq<Skip>, p: nat) {
    p < |tokens| && Examined(skips, p) && RoleAt(delimiters, tokens, p).Some?
  }

  // Non-empty spans without gap or overlap, up to the end of the tokens.
  predicate Tile(spans: seq<Span>, end: nat) {
    && (forall k :: 0 <= k < |spans| ==> spans[k].len > 0)
    && (forall k :: 0 <= k < |spans| - 1 ==> spans[k].pos + spans[k].len == spans[k + 1].pos)
    && (spans != [] ==> spans[|spans| - 1].pos + spans[|spans| - 1].len == end)
  }

  predicate StartsAt(spans: seq<Span>, p: nat) {
    exists k :: 0 <= k < |spans| && spans[k].pos == p
  }

  // A delimiter matches here, in none of the regions.
  predicate MatchOutside(delimiters: seq<Delimiter>, tokens: seq<int>, skips: seq<Skip>, p: nat) {
    p < |tokens| && Outside(skips, p) && RoleAt(delimiters, tokens, p).Some?
  }

  method FindRole(delimiters: seq<Delimiter>, tokens: seq<int>, p: nat) returns (r: Option<Role>)
    ensures r == RoleAt(delimiters, tokens, p)
  {
    var i := 0;
    while i < |delimiters|
      invariant i <= |delimiters|
      invariant RoleAt(delimiters, tokens, p) == RoleAt(delimiters[i..], tokens, p)
    {
      var d := delimiters[i];
      if p + |d.tokens| <= |tokens| {
        if tokens[p..p + |d.tokens|] == d.tokens {
          return Some(d.role);
        }
      }
      i := i + 1;
    }
    return None;
  }

  // What the scan has found so far.
  predicate Found(matches: seq<(Role, nat)>, delimiters: seq<Delimiter>, tokens: seq<int>, skips: seq<Skip>, end: nat) {
    && (forall k :: 0 <= k < |matches| ==>
          matches[k].1 < end && Begins(delimiters, tokens, skips, matches[k].1) &&
          RoleAt(delimiters, tokens, matches[k].1) == Some(matches[k].0))
    && (forall k :: 0 <= k < |matches| - 1 ==> matches[k].1 < matches[k + 1].1)
    && (forall p: nat :: p < end && Begins(delimiters, tokens, skips, p) ==>
          exists k :: 0 <= k < |matches| && matches[k].1 == p)
  }

  lemma Nothing(matches: seq<(Role, nat)>, delimiters: seq<Delimiter>, tokens: seq<int>, skips: seq<Skip>,
                i: nat, end: nat)
    requires i <= end && Found(matches, delimiters, tokens, skips, i)
    requires forall p: nat :: i <= p < end ==> !Begins(delimiters, tokens, skips, p)
    ensures Found(matches, delimiters, tokens, skips, end)
  {
  }

  lemma OneMore(matches: seq<(Role, nat)>, delimiters: seq<Delimiter>, tokens: seq<int>, skips: seq<Skip>,
                i: nat, role: Role)
    requires Found(matches, delimiters, tokens, skips, i)
    requires Begins(delimiters, tokens, skips, i) && RoleAt(delimiters, tokens, i) == Some(role)
    ensures Found(matches + [(role, i)], delimiters, tokens, skips, i + 1)
  {
    var all := matches + [(role, i)];
    hide Begins, RoleAt;
    assert all[|matches|].1 == i;
    forall p: nat | p < i && Begins(delimiters, tokens, skips, p) ensures exists k :: 0 <= k < |all| && all[k].1 == p {
      var k :| 0 <= k < |matches| && matches[k].1 == p;
      assert all[k].1 == p;
    }
  }

  // Between the used regions that ended and the one to come, a position is examined.
  lemma HereExamined(skips: seq<Skip>, s: nat, i: nat)
    requires Ordered(skips) && s <= Used(skips, 0)
    requires s > 0 ==> skips[s - 1].start + skips[s - 1].len <= i
    requires s < Used(skips, 0) ==> i < skips[s].start
    ensures Examined(skips, i)
  {
    forall j | 0 <= j < Used(skips, 0) ensures !InRegion(skips, j, i) {
      if j + 1 < s {
        assert Follows(skips, j + 1);
        assert j + 1 < s - 1 ==> skips[j + 1].start < skips[s - 1].start;
      } else if j > s {
        assert skips[s].start < skips[j].start;
      }
    }
  }

  lemma Jumped(delimiters: seq<Delimiter>, tokens: seq<int>, skips: seq<Skip>, s: nat)
    requires s < Used(skips, 0)
    ensures forall p: nat :: skips[s].start <= p < skips[s].start + skips[s].len ==>
              !Begins(delimiters, tokens, skips, p)
  {
    forall p: nat | skips[s].start <= p < skips[s].start + skips[s].len ensures !Examined(skips, p) {
      assert InRegion(skips, s, p);
    }
  }

  method FindMatches(delimiters: seq<Delimiter>, tokens: seq<int>, skips: seq<Skip>) returns (matches: seq<(Role, nat)>)
    requires Ordered(skips)
    ensures Found(matches, delimiters, tokens, skips, |tokens|)
  {
    hide Found, RoleAt, Examined;
    matches := [];
    var s := 0;
    var i := 0;
    FoundNone(delimiters, tokens, skips);
    while i < |tokens|
      invariant s <= Used(skips, 0)
      invariant s > 0 ==> skips[s - 1].start + skips[s - 1].len <= i
      invariant s < Used(skips, 0) ==> i <= skips[s].start
      invariant s == Used(skips, 0) < |skips| ==> skips[s].start < i
      invariant Found(matches, delimiters, tokens, skips, i)
      decreases |tokens| - i, |skips| - s
    {
      if s < |skips| && i == skips[s].start {
        assert s + 1 < Used(skips, 0) ==> Follows(skips, s + 1);
        Jumped(delimiters, tokens, skips, s);
        Nothing(matches, delimiters, tokens, skips, i, i + skips[s].len);
        i := i + skips[s].len;
        s := s + 1;
        continue;
      }
      HereExamined(skips, s, i);
      var role := FindRole(delimiters, tokens, i);
      if role.Some? {
        OneMore(matches, delimiters, tokens, skips, i, role.value);
        matches := matches + [(role.value, i)];
      } else {
        Nothing(matches, delimiters, tokens, skips, i, i + 1);
      }
      i := i + 1;
    }
    AtEnd(matches, delimiters, tokens, skips, i);
  }

  lemma FoundNone(delimiters: seq<Delimiter>, tokens: seq<int>, skips: seq<Skip>)
    ensures Found([], delimiters, tokens, skips, 0)
  {
  }

  lemma AtEnd(matches: seq<(Role, nat)>, delimiters: seq<Delimiter>, tokens: seq<int>, skips: seq<Skip>, i: nat)
    requires |tokens| <= i && Found(matches, delimiters, tokens, skips, i)
    ensures Found(matches, delimiters, tokens, skips, |tokens|)
  {
  }

  /** The spans tile the tokens from the first match to the end; they begin exactly at the matches outside the used
      regions, each with the role of the first delimiter that matches there. Unless the skipping ends too early, these
      are the matches outside all regions. */
  method Split(delimiters: seq<Delimiter>, tokens: seq<int>, skips: seq<Skip>) returns (spans: seq<Span>)
    requires Ordered(skips)
    ensures Tile(spans, |tokens|)
    ensures forall k :: 0 <= k < |spans| ==>
              Begins(delimiters, tokens, skips, spans[k].pos) &&
              RoleAt(delimiters, tokens, spans[k].pos) == Some(spans[k].role)
    ensures forall p: nat :: Begins(delimiters, tokens, skips, p) ==> StartsAt(spans, p)
    ensures Honoured(skips, |tokens|) ==>
              forall p: nat :: StartsAt(spans, p) <==> MatchOutside(delimiters, tokens, skips, p)
  {
    var found := FindMatches(delimiters, tokens, skips);
    FoundInside(found, delimiters, tokens, skips);
    hide Begins, RoleAt;
    spans := BuildSpans(found, |tokens|);
    forall p: nat | Begins(delimiters, tokens, skips, p) ensures StartsAt(spans, p) {
      BeginsInside(delimiters, tokens, skips, p);
      var k :| 0 <= k < |found| && found[k].1 == p;
      assert spans[k].pos == p;
    }
    StartsOutside(spans, delimiters, tokens, skips);
  }

  lemma StartsOutside(spans: seq<Span>, delimiters: seq<Delimiter>, tokens: seq<int>, skips: seq<Skip>)
    requires Ordered(skips)
    requires forall k :: 0 <= k < |spans| ==> Begins(delimiters, tokens, skips, spans[k].pos)
    requires forall p: nat :: Begins(delimiters, tokens, skips, p) ==> StartsAt(spans, p)
    ensures Honoured(skips, |tokens|) ==>
              forall p: nat :: StartsAt(spans, p) <==> MatchOutside(delimiters, tokens, skips, p)
  {
    if Honoured(skips, |tokens|) {
      HonouredIff(skips, |tokens|);
      hide Examined, Outside, Honoured, RoleAt;
    }
  }

  lemma FoundInside(found: seq<(Role, nat)>, delimiters: seq<Delimiter>, tokens: seq<int>, skips: seq<Skip>)
    requires Found(found, delimiters, tokens, skips, |tokens|)
    ensures Rising(found, |tokens|)
  {
  }

  predicate Rising(found: seq<(Role, nat)>, end: nat) {
    && (forall k :: 0 <= k < |found| - 1 ==> found[k].1 < found[k + 1].1)
    && (found != [] ==> found[|found| - 1].1 < end)
  }

  method BuildSpans(found: seq<(Role, nat)>, end: nat) returns (spans: seq<Span>)
    requires Rising(found, end)
    ensures Tile(spans, end)
    ensures |spans| == |found|
    ensures forall k :: 0 <= k < |found| ==> spans[k].role == found[k].0 && spans[k].pos == found[k].1
  {
    var matches := found + [(UNKNOWN, end)];
    spans := [];
    var i := 0;
    while i + 1 < |matches|
      invariant i == |spans| <= |found|
      invariant forall k :: 0 <= k < i ==>
                  spans[k].role == found[k].0 && spans[k].pos == found[k].1 &&
                  spans[k].len > 0 && spans[k].pos + spans[k].len == matches[k + 1].1
    {
      var curr, next := matches[i], matches[i + 1];
      assert curr == found[i] && curr.1 < next.1;
      spans := spans + [Span(curr.0, curr.1, next.1 - curr.1)];
      i := i + 1;
    }
    Tiled(spans, found, end);
  }

  // Spans that each end where the next match or the input ends tile it.
  lemma Tiled(spans: seq<Span>, found: seq<(Role, nat)>, end: nat)
    requires Rising(found, end) && |spans| == |found|
    requires forall k :: 0 <= k < |spans| ==>
               spans[k].pos == found[k].1 && spans[k].len > 0 &&
               spans[k].pos + spans[k].len == (found + [(UNKNOWN, end)])[k + 1].1
    ensures Tile(spans, end)
  {
    forall k | 0 <= k < |spans| - 1 ensures spans[k].pos + spans[k].len == spans[k + 1].pos {
      assert (found + [(UNKNOWN, end)])[k + 1] == found[k + 1];
    }
  }

  lemma BeginsInside(delimiters: seq<Delimiter>, tokens: seq<int>, skips: seq<Skip>, p: nat)
    ensures Begins(delimiters, tokens, skips, p) ==> p < |tokens|
  {
  }

  // ---------- when every region is jumped over ----------

  // The position lies in none of the regions.
  predicate Outside(skips: seq<Skip>, p: int) {
    forall j :: 0 <= j < |skips| ==> !InRegion(skips, j, p)
  }

  // Within the first n positions, the region has nothing at or behind `end`.
  predicate EndsBefore(s: Skip, end: nat, n: nat) {
    s.len == 0 || n <= s.start || n <= end || s.start + s.len <= end
  }

  // Skipping ends at the first region that begins inside its predecessor. Nothing is lost by that when no region from
  // there on reaches behind that predecessor.
  predicate Honoured(skips: seq<Skip>, n: nat) {
    var k := Used(skips, 0);
    k < |skips| ==>
      var end := skips[k - 1].start + skips[k - 1].len;
      forall j :: k <= j < |skips| ==> EndsBefore(skips[j], end, n)
  }

  /** Of the first n positions exactly those outside all regions are looked at, if and only if no region from the one
      that ends the skipping on reaches behind the region which that one begins in. */
  lemma HonouredIff(skips: seq<Skip>, n: nat)
    requires Ordered(skips)
    ensures (forall p: nat :: p < n ==> (Examined(skips, p) <==> Outside(skips, p))) <==> Honoured(skips, n)
  {
    if Honoured(skips, n) {
      forall p: nat | p < n && Examined(skips, p) ensures Outside(skips, p) {
        ExaminedOutside(skips, n, p);
      }
    } else {
      var k := Used(skips, 0);
      var j :| k <= j < |skips| && !EndsBefore(skips[j], skips[k - 1].start + skips[k - 1].len, n);
      var p := LeftOver(skips, n, j);
    }
  }

  lemma ExaminedOutside(skips: seq<Skip>, n: nat, p: nat)
    requires Ordered(skips) && Honoured(skips, n) && p < n && Examined(skips, p)
    ensures Outside(skips, p)
  {
    var k := Used(skips, 0);
    forall j | 0 <= j < |skips| ensures !InRegion(skips, j, p) {
      if k <= j {
        assert EndsBefore(skips[j], skips[k - 1].start + skips[k - 1].len, n) && skips[k - 1].start < skips[j].start;
        assert !InRegion(skips, k - 1, p);
      }
    }
  }

  // A position of a region that is not covered, behind the region that the skipping ended in.
  lemma LeftOver(skips: seq<Skip>, n: nat, j: nat) returns (p: nat)
    requires Ordered(skips) && Used(skips, 0) <= j < |skips|
    requires var last := skips[Used(skips, 0) - 1]; !EndsBefore(skips[j], last.start + last.len, n)
    ensures p < n && Examined(skips, p) && InRegion(skips, j, p)
  {
    var k := Used(skips, 0);
    var end := skips[k - 1].start + skips[k - 1].len;
    p := if skips[j].start < end then end else skips[j].start;
    forall i | 0 <= i < k ensures !InRegion(skips, i, p) {
      if i < k - 1 {
        assert Follows(skips, i + 1) && (i + 1 < k - 1 ==> skips[i + 1].start < skips[k - 1].start);
      }
    }
  }

  // Disjoint regions are all jumped over.
  lemma DisjointExamined(skips: seq<Skip>, p: nat)
    requires Ordered(skips) && Disjoint(skips)
    ensures Examined(skips, p) <==> Outside(skips, p)
  {
    HonouredIff(skips, p + 1);
  }

  // A region that begins and ends inside its predecessor does no harm, although the two are not disjoint.
  lemma InsideIsHonoured(n: nat)
    ensures Honoured([Skip(0, 10), Skip(5, 3)], n) && !Disjoint([Skip(0, 10), Skip(5, 3)])
  {
    var skips := [Skip(0, 10), Skip(5, 3)];
    assert !Follows(skips, 1);
    assert Used(skips, 0) == 1;
  }

  // With another region behind it, it does: skipping has ended, and that region is looked at.
  lemma OverlapEndsSkipping(p: nat)
    requires 20 <= p < 25
    ensures !Honoured([Skip(0, 10), Skip(5, 3), Skip(20, 5)], p + 1)
    ensures var skips := [Skip(0, 10), Skip(5, 3), Skip(20, 5)]; Examined(skips, p) && !Outside(skips, p)
  {
    var skips := [Skip(0, 10), Skip(5, 3), Skip(20, 5)];
    assert !Follows(skips, 1);
    assert Used(skips, 0) == 1;
    assert InRegion(skips, 2, p);
    assert !EndsBefore(skips[2], 10, p + 1);
  }

  // Every span of xs begins where one of ys does, and has the role the delimiters give it.
  predicate Within(xs: seq<Span>, ys: seq<Span>, delimiters: seq<Delimiter>, tokens: seq<int>) {
    forall k :: 0 <= k < |xs| ==>
      StartsAt(ys, xs[k].pos) && RoleAt(delimiters, tokens, xs[k].pos) == Some(xs[k].role)
  }

  /** The contract of Split leaves no choice: the spans are determined by where they begin. */
  lemma {:induction false} SpansUnique(xs: seq<Span>, ys: seq<Span>, delimiters: seq<Delimiter>, tokens: seq<int>,
                                       end: nat)
    requires Tile(xs, end) && Tile(ys, end)
    requires Within(xs, ys, delimiters, tokens) && Within(ys, xs, delimiters, tokens)
    ensures xs == ys
  {
    hide *;
    BothEmpty(xs, ys, delimiters, tokens);
    BothEmpty(ys, xs, delimiters, tokens);
    if xs != [] {
      var x, y := xs[|xs| - 1], ys[|ys| - 1];
      LastSame(xs, ys, delimiters, tokens, end);
      DropLast(xs, ys, delimiters, tokens, end);
      DropLast(ys, xs, delimiters, tokens, end);
      SpansUnique(xs[..|xs| - 1], ys[..|ys| - 1], delimiters, tokens, x.pos);
      assert xs == xs[..|xs| - 1] + [x];
      assert ys == ys[..|ys| - 1] + [y];
    }
  }

  lemma BothEmpty(xs: seq<Span>, ys: seq<Span>, delimiters: seq<Delimiter>, tokens: seq<int>)
    requires Within(xs, ys, delimiters, tokens)
    ensures xs != [] ==> ys != []
  {
    assert xs != [] ==> StartsAt(ys, xs[0].pos);
  }

  lemma LastSame(xs: seq<Span>, ys: seq<Span>, delimiters: seq<Delimiter>, tokens: seq<int>, end: nat)
    requires Tile(xs, end) && Tile(ys, end) && xs != [] && ys != []
    requires Within(xs, ys, delimiters, tokens) && Within(ys, xs, delimiters, tokens)
    ensures xs[|xs| - 1] == ys[|ys| - 1]
  {
    LastIsLast(xs, ys, end);
    LastIsLast(ys, xs, end);
  }

  lemma {:induction false} Increasing(xs: seq<Span>, end: nat, i: nat)
    requires Tile(xs, end) && i < |xs|
    ensures xs[i].pos <= xs[|xs| - 1].pos && (i < |xs| - 1 ==> xs[i].pos < xs[|xs| - 1].pos)
    decreases |xs| - i
  {
    if i < |xs| - 1 {
      Increasing(xs, end, i + 1);
    }
  }

  lemma LastIsLast(xs: seq<Span>, ys: seq<Span>, end: nat)
    requires Tile(xs, end) && xs != [] && ys != [] && StartsAt(xs, ys[|ys| - 1].pos)
    ensures ys[|ys| - 1].pos <= xs[|xs| - 1].pos
  {
    var j :| 0 <= j < |xs| && xs[j].pos == ys[|ys| - 1].pos;
    Increasing(xs, end, j);
  }

  lemma DropLast(xs: seq<Span>, ys: seq<Span>, delimiters: seq<Delimiter>, tokens: seq<int>, end: nat)
    requires Tile(xs, end) && xs != [] && ys != []
    requires xs[|xs| - 1].pos == ys[|ys| - 1].pos
    requires Within(xs, ys, delimiters, tokens)
    ensures Tile(xs[..|xs| - 1], xs[|xs| - 1].pos)
    ensures Within(xs[..|xs| - 1], ys[..|ys| - 1], delimiters, tokens)
  {
    hide RoleAt;
    var m, n := |xs| - 1, |ys| - 1;
    forall k | 0 <= k < m ensures StartsAt(ys[..n], xs[k].pos) {
      var j :| 0 <= j < |ys| && ys[j].pos == xs[k].pos;
      Increasing(xs, end, k);
      assert j != n;
      assert ys[..n][j].pos == xs[k].pos;
    }
  }
}
