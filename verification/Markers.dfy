/** Cutting a text into markers (<...> or [...]) and the text between them. */
module Markers {

  datatype Kind = TEXT | MARKER

  datatype Segment = Segment(kind: Kind, value: string)

  predicate IsOpener(c: char) {
    c == '<' || c == '['
  }

  predicate IsCloser(opener: char, c: char) {
    (opener == '<' && c == '>') || (opener == '[' && c == ']')
  }

  // The first opener from i on, or the end of the text.
  function NextOpener(t: string, i: nat): (r: nat)
    requires i <= |t|
    ensures i <= r <= |t| && (r < |t| ==> IsOpener(t[r])) && forall k :: i <= k < r ==> !IsOpener(t[k])
    decreases |t| - i
  {
    if i == |t| || IsOpener(t[i]) then i else NextOpener(t, i + 1)
  }

  // The first closer for the opener at t[0], from i on, or the end of the text.
  function NextCloser(t: string, i: nat): (r: nat)
    requires t != "" && i <= |t|
    ensures i <= r <= |t| && (r < |t| ==> IsCloser(t[0], t[r])) && forall k :: i <= k < r ==> !IsCloser(t[0], t[k])
    decreases |t| - i
  {
    if i == |t| || IsCloser(t[0], t[i]) then i else NextCloser(t, i + 1)
  }

  function Segments(t: string): seq<Segment>
    decreases |t|
  {
    if t == "" then []
    else if IsOpener(t[0]) then
      var e := NextCloser(t, 1);
      if e == |t| then [Segment(TEXT, t)] else [Segment(MARKER, t[..e + 1])] + Segments(t[e + 1..])
    else
      var o := NextOpener(t, 0);
      [Segment(TEXT, t[..o])] + Segments(t[o..])
  }

  function Join(segs: seq<Segment>): string {
    if segs == [] then "" else segs[0].value + Join(segs[1..])
  }

  lemma {:induction false} JoinConcat(a: seq<Segment>, b: seq<Segment>)
    ensures Join(a + b) == Join(a) + Join(b)
  {
    if a == [] {
      assert a + b == b;
    } else {
      assert (a + b)[1..] == a[1..] + b;
      JoinConcat(a[1..], b);
    }
  }

  /** Segmentation loses nothing. */
  lemma {:induction false} SegmentsJoin(t: string)
    ensures Join(Segments(t)) == t
    decreases |t|
  {
    if t != "" {
      if IsOpener(t[0]) {
        var e := NextCloser(t, 1);
        if e < |t| {
          SegmentsJoin(t[e + 1..]);
        }
      } else {
        SegmentsJoin(t[NextOpener(t, 0)..]);
      }
    }
  }

  // ---------- what segments look like ----------

  predicate IsMarker(v: string) {
    && |v| > 1 && IsOpener(v[0]) && IsCloser(v[0], v[|v| - 1])
    && forall k :: 0 < k < |v| - 1 ==> !IsCloser(v[0], v[k])
  }

  predicate IsPlain(v: string) {
    v != "" && forall k :: 0 <= k < |v| ==> !IsOpener(v[k])
  }

  predicate IsUnclosed(v: string) {
    v != "" && IsOpener(v[0]) && forall k :: 0 < k < |v| ==> !IsCloser(v[0], v[k])
  }

  // Markers and plain text, no two plain texts in a row; a marker that is never closed is text up to the end.
  predicate WellCut(segs: seq<Segment>) {
    segs == [] || (WellCutAt(segs) && WellCut(segs[1..]))
  }

  predicate WellCutAt(segs: seq<Segment>)
    requires segs != []
  {
    match segs[0].kind
    case MARKER => IsMarker(segs[0].value)
    case TEXT =>
      if IsPlain(segs[0].value) then |segs| > 1 ==> !IsPlain(segs[1].value)
      else |segs| == 1 && IsUnclosed(segs[0].value)
  }

  lemma {:induction false} SegmentsWellCut(t: string)
    ensures WellCut(Segments(t))
    decreases |t|
  {
    if t != "" {
      var segs := Segments(t);
      if IsOpener(t[0]) {
        var e := NextCloser(t, 1);
        if e < |t| {
          SegmentsWellCut(t[e + 1..]);
          assert segs[1..] == Segments(t[e + 1..]);
          assert IsMarker(t[..e + 1]);
        } else {
          assert segs[1..] == [];
        }
      } else {
        var o := NextOpener(t, 0);
        SegmentsWellCut(t[o..]);
        assert segs[1..] == Segments(t[o..]);
        assert IsPlain(t[..o]);
        FirstIsNotPlain(t[o..]);
      }
    }
  }

  lemma FirstIsNotPlain(t: string)
    ensures t != "" && IsOpener(t[0]) ==> Segments(t) != [] && !IsPlain(Segments(t)[0].value)
  {
    if t != "" && IsOpener(t[0]) {
      assert Segments(t)[0].value[0] == t[0];
    }
  }

  /** And it is the only such way to cut the text. */
  lemma {:induction false} OnlySegmentation(segs: seq<Segment>)
    requires WellCut(segs)
    ensures segs == Segments(Join(segs))
  {
    if segs != [] {
      OnlySegmentation(segs[1..]);
      var v := segs[0].value;
      if segs[0].kind.MARKER? {
        MarkerFirst(v, Join(segs[1..]));
      } else if IsPlain(v) {
        PlainFirst(segs);
      } else {
        assert segs == [segs[0]] && Join(segs) == v;
        LastText(v);
      }
    }
  }

  lemma MarkerFirst(v: string, rest: string)
    requires IsMarker(v)
    ensures Segments(v + rest) == [Segment(MARKER, v)] + Segments(rest)
  {
    var t := v + rest;
    var e := NextCloser(t, 1);
    assert forall k :: 0 <= k < |v| ==> t[k] == v[k];
    assert e == |v| - 1;
    assert t[..e + 1] == v && t[e + 1..] == rest;
  }

  lemma PlainFirst(segs: seq<Segment>)
    requires segs != [] && WellCut(segs) && segs[0].kind.TEXT? && IsPlain(segs[0].value)
    ensures Segments(Join(segs)) == [segs[0]] + Segments(Join(segs[1..]))
  {
    var v := segs[0].value;
    var rest := Join(segs[1..]);
    var t := v + rest;
    var o := NextOpener(t, 0);
    if segs[1..] != [] {
      var w := segs[1..][0].value;
      assert WellCutAt(segs[1..]);
      assert IsOpener(w[0]);
      assert t[|v|] == w[0];
    }
    assert forall k :: 0 <= k < |v| ==> t[k] == v[k];
    assert o == |v|;
    assert t[..o] == v && t[o..] == rest;
  }

  // ---------- the loop ----------

  method Segmentize(text: string) returns (segs: seq<Segment>)
    ensures segs == Segments(text)
  {
    hide Segments, NextCloser, NextOpener;
    segs := [];
    assert text[0..] == text;
    var inMarker := false;
    var opener := '\0';
    var border := 0;
    var cur := 0;
    while cur < |text|
      invariant border <= cur <= |text|
      invariant segs + Segments(text[border..]) == Segments(text)
      invariant inMarker ==> border < cur && IsOpener(text[border]) && text[border] == opener
      invariant inMarker ==> forall k :: border < k < cur ==> !IsCloser(opener, text[k])
      invariant !inMarker ==> forall k :: border <= k < cur ==> !IsOpener(text[k])
    {
      ghost var t := text[border..];
      if !inMarker && IsOpener(text[cur]) {
        if border < cur {
          TextUpTo(t, cur - border);
          assert t[..cur - border] == text[border..cur] && t[cur - border..] == text[cur..];
          assert segs + ([Segment(TEXT, text[border..cur])] + Segments(text[cur..])) == Segments(text);
          segs := segs + [Segment(TEXT, text[border..cur])];
        }
        border := cur;
        inMarker := true;
        opener := text[cur];
      } else if inMarker && IsCloser(opener, text[cur]) {
        MarkerUpTo(t, cur - border);
        assert t[..cur - border + 1] == text[border..cur + 1] && t[cur - border + 1..] == text[cur + 1..];
        assert segs + ([Segment(MARKER, text[border..cur + 1])] + Segments(text[cur + 1..])) == Segments(text);
        segs := segs + [Segment(MARKER, text[border..cur + 1])];
        border := cur + 1;
        inMarker := false;
        opener := '\0';
      }
      cur := cur + 1;
    }
    NoText();
    if border < |text| {
      LastText(text[border..]);
      segs := segs + [Segment(TEXT, text[border..])];
    }
  }

  lemma NoText()
    ensures Segments("") == []
  {
  }

  lemma TextUpTo(t: string, n: nat)
    requires 0 < n < |t| && IsOpener(t[n]) && forall k :: 0 <= k < n ==> !IsOpener(t[k])
    ensures Segments(t) == [Segment(TEXT, t[..n])] + Segments(t[n..])
  {
    assert NextOpener(t, 0) == n;
  }

  lemma MarkerUpTo(t: string, n: nat)
    requires 0 < n < |t| && IsOpener(t[0]) && IsCloser(t[0], t[n])
    requires forall k :: 0 < k < n ==> !IsCloser(t[0], t[k])
    ensures Segments(t) == [Segment(MARKER, t[..n + 1])] + Segments(t[n + 1..])
  {
    assert NextCloser(t, 1) == n;
  }

  lemma LastText(t: string)
    requires IsPlain(t) || IsUnclosed(t)
    ensures Segments(t) == [Segment(TEXT, t)]
  {
    if IsPlain(t) {
      assert NextOpener(t, 0) == |t|;
      assert t[..|t|] == t && t[|t|..] == "";
    } else {
      assert NextCloser(t, 1) == |t|;
    }
  }
}
