/** What the client sees of a Gemma 4 tool call while it arrives. */
module GemmaShown {
  import opened Text
  import opened ToolMapper
  import opened GemmaParser
  import opened GemmaTrees
  import opened GemmaStreaming
  import opened GemmaWritten
  import opened GemmaSoFar
  import opened GemmaSpelled
  import opened GemmaCalls
  import Gemma
  import Json

  // ---------- what is shown of one call ----------

  lemma BodyReads(c: Gemma.Node)
    requires OpenBody(c)
    ensures Json.Read(Json.JsonText, Gemma.Render(c) + BodyClosers(c)) == Some(BodySoFar(c))
  {
    hide *;
    BodyCloses(c);
    ClosedValue(c, BodyClosers(c), BodySoFar(c), ClosedBody(c));
    var n := Around(Gemma.ValueRule, [ClosedBody(c)]);
    CutRefl(n);
    Gemma.RenderedValue(n, n);
  }

  lemma WholeReads(c: Gemma.Node)
    requires IsBody(c)
    ensures Gemma.IsValue(Around(Gemma.ValueRule, [c]))
    ensures Json.Read(Json.JsonText, Gemma.Render(c)) == Some(Gemma.ValueOf(Around(Gemma.ValueRule, [c])))
  {
    hide *;
    BodyIsValue(c);
    var n := Around(Gemma.ValueRule, [c]);
    AroundRenders(c);
    CutRefl(n);
    Gemma.RenderedValue(n, n);
  }

  lemma AroundRenders(c: Gemma.Node)
    ensures Gemma.Render(Around(Gemma.ValueRule, [c])) == Gemma.Render(c)
  {
    assert Around(Gemma.ValueRule, [c]).children[0] == c;
  }

  // The ends that the arguments still lack.
  function Missing(r: Parse): string {
    if r.More? && |r.nodes| == 1 && OpenBody(r.nodes[0]) then BodyClosers(r.nodes[0]) else ""
  }

  // With the missing ends, the shown arguments are JSON for v, and v stands for all that has been read of args.
  predicate ShowsAll(shown: string, v: Json.Value, args: string, r: Parse) {
    && v.Object? && Json.Read(Json.JsonText, shown + Missing(r)) == Some(v) && IsClosing(Missing(r))
    && Spells(r, args, Written(v))
  }

  /** Whatever has been read of the arguments of a call is shown: with the missing quotes, brackets and braces behind
      it, what is shown is JSON, and written out it is the text read so far, white space aside. */
  lemma ArgumentsShown(args: string) returns (v: Json.Value)
    requires args != "" && !ParseList(InDict, args).Fail?
    ensures ShowsAll(Gemma.Render(ParseList(InDict, args).nodes[0]), v, args, ParseList(InDict, args))
  {
    hide *;
    var r := ParseList(InDict, args);
    var c := r.nodes[0];
    ListSays(InDict, args);
    SaysIs(r, args);
    ListParts(InDict, args);
    MissingIs(r);
    if r.Done? {
      WholeReads(c);
      v := Gemma.ValueOf(Around(Gemma.ValueRule, [c]));
      assert Gemma.Render(c) + "" == Gemma.Render(c);
      NothingClosing();
    } else {
      v := BodySoFar(c);
      BodyReads(c);
      BodyClosing(c);
    }
    DictIsObject(c);
    AllShown(Gemma.Render(c), v, args, r);
  }

  lemma MissingIs(r: Parse)
    requires !r.Fail? && |r.nodes| == 1
    ensures r.Done? ==> Missing(r) == ""
    ensures r.More? && OpenBody(r.nodes[0]) ==> Missing(r) == BodyClosers(r.nodes[0])
  {
    hide OpenBody, BodyClosers;
  }

  lemma SaysIs(r: Parse, s: string)
    requires Says(r, s) && !r.Fail?
    ensures |r.nodes| == 1
    ensures var c := r.nodes[0];
      if r.Done? then IsBody(c) && Spells(r, s, Written(Gemma.ValueOf(Around(Gemma.ValueRule, [c]))))
      else OpenBody(c) && Spells(r, s, Written(BodySoFar(c)))
  {
    hide IsBody, OpenBody, Spells, Written, BodySoFar;
  }

  lemma DictIsObject(c: Gemma.Node)
    requires c.rule == Gemma.DictRule
    ensures IsBody(c) ==> Gemma.ValueOf(Around(Gemma.ValueRule, [c])).Object?
    ensures OpenBody(c) ==> BodySoFar(c).Object?
  {
    assert Around(Gemma.ValueRule, [c]).children[0] == c;
  }

  lemma AllShown(shown: string, v: Json.Value, args: string, r: Parse)
    requires v.Object? && Json.Read(Json.JsonText, shown + Missing(r)) == Some(v) && IsClosing(Missing(r))
    requires Spells(r, args, Written(v))
    ensures ShowsAll(shown, v, args, r)
  {
    hide Missing, IsClosing, Spells, Written;
  }

  /** So it is for every call from its opening brace on. */
  lemma CallShown(m: Message, name: string, s: string) returns (v: Json.Value)
    requires Opens(name, s) && !ParseCall(name, s).Fail?
    ensures var call := Shown(name, s);
      && VisitedAll(m, ParseCall(name, s).nodes) == m.(calls := m.calls + [call]) && call.name == name
      && ShowsAll(call.arguments, v, s[|name|..], ParseList(InDict, s[|name|..]))
  {
    hide *;
    CallShows(m, name, s);
    OpensArgs(name, s);
    v := ArgumentsShown(s[|name|..]);
  }

  lemma OpensArgs(name: string, s: string)
    requires Opens(name, s) && !ParseCall(name, s).Fail?
    ensures |name| < |s| && s[|name|..] != "" && !ParseList(InDict, s[|name|..]).Fail?
    ensures Shown(name, s) == ToolCall(name, Gemma.Render(ParseList(InDict, s[|name|..]).nodes[0]), "")
  {
    OpensIs(name, s);
    BodyIs(name, s);
    CallIs(name, s);
    hide ParseList, ParseCall, ParseOpen, Gemma.Render;
    assert !ParseArgs(s[|name|..]).Fail?;
  }

  lemma MarkedNodes(names: seq<string>, s: string)
    requires BEFORE_CALL <= s && !ParseMarked(names, s).Fail?
    ensures var rest := s[|BEFORE_CALL|..];
      !ParseChoice(names, rest).Fail? && ParseMarked(names, s).nodes == ParseChoice(names, rest).nodes
  {
    var rest := s[|BEFORE_CALL|..];
    hide ChoiceEnd, ParseChoice;
    var r := ChoiceEnd(names, rest);
    assert !r.Fail? && ParseMarked(names, s).nodes == [] + r.nodes == r.nodes;
    EndNodes(names, rest);
  }

  lemma BegunBehind(names: seq<string>, s: string)
    requires Begun(names, s)
    ensures BEFORE_CALL <= s && exists i :: 0 <= i < |names| && Opens(names[i], s[|BEFORE_CALL|..])
  {
    var i :| 0 <= i < |names| && Opens(BEFORE_CALL + names[i], s);
    hide Opens;
    OpensBehind(names[i], s);
  }

  /** And for the call that a reply has begun, whichever tool it is for. */
  lemma BegunCallShown(m: Message, names: seq<string>, s: string)
    returns (name: string, call: ToolCall, v: Json.Value)
    requires NoBraces(names) && Begun(names, s) && !ParseMarked(names, s).Fail?
    ensures name in names && BEFORE_CALL + name <= s
    ensures VisitedAll(m, ParseMarked(names, s).nodes) == m.(calls := m.calls + [call]) && call.name == name
    ensures var args := s[|BEFORE_CALL + name|..]; ShowsAll(call.arguments, v, args, ParseList(InDict, args))
  {
    BegunBehind(names, s);
    var rest := s[|BEFORE_CALL|..];
    hide *;
    MarkedNodes(names, s);
    var k := ChosenIs(names, rest);
    name := names[k];
    v := CallShown(m, name, rest);
    call := Shown(name, rest);
    OpensIs(name, rest);
    BehindBoth(BEFORE_CALL, name, s);
  }

  lemma BehindBoth(a: string, b: string, s: string)
    requires a <= s && b <= s[|a|..]
    ensures a + b <= s && s[|a + b|..] == s[|a|..][|b|..]
  {
    assert s == a + s[|a|..];
  }

  // ---------- strings and names ----------

  /** Of a string argument that is not closed, a quote and the escape of all that has been read of it is shown. */
  lemma OpenStringShows(x: string)
    requires forall k :: 0 <= k < |x| ==> !EndsAt([QUOTE], x, k)
    ensures ParseValue(QUOTE + x).More? && Gemma.Render(ParseValue(QUOTE + x).nodes[0]) == "\"" + Json.Escape(x)
  {
    hide Json.Escape, EndsAt;
    var s := QUOTE + x;
    assert s[|QUOTE|..] == x && QUOTE <= s;
    UntilIs([QUOTE], x);
    StringRestIs(x);
    var r := StringRest(x);
    assert r.More? && r.nodes[0] == Gemma.Node(Gemma.StringContent, Gemma.Untagged, x, true, []);
    hide StringRest, Until;
    StringInValue(s, r);
    StringCut(s, x);
  }

  lemma StringInValue(s: string, r: Parse)
    requires QUOTE <= s && r == StringRest(s[|QUOTE|..]) && r.More? && |r.nodes| == 1
    ensures ParseValue(s) == More([Gemma.Node(Gemma.ValueRule, Gemma.Untagged, s, true,
                                              [Gemma.Node(Gemma.StringRule, Gemma.Untagged, s, true, r.nodes)])])
  {
    hide StringRest;
    assert [] + r.nodes == r.nodes;
    ChoiceInValue(s);
    ChoiceIs(s);
    assert Choice(s) == ParseString(s);
    hide ParseValue, Choice;
  }

  lemma StringCut(s: string, x: string)
    requires s != ""
    ensures var content := Gemma.Node(Gemma.StringContent, Gemma.Untagged, x, true, []);
      var c := Gemma.Node(Gemma.StringRule, Gemma.Untagged, s, true, [content]);
      Gemma.Render(Gemma.Node(Gemma.ValueRule, Gemma.Untagged, s, true, [c])) == "\"" + Json.Escape(x)
  {
    var content := Gemma.Node(Gemma.StringContent, Gemma.Untagged, x, true, []);
    var c := Gemma.Node(Gemma.StringRule, Gemma.Untagged, s, true, [content]);
    Gemma.EscapeEmpty();
    assert Gemma.Render(c) == "\"" + Gemma.Render(content) + "";
    hide Json.Escape;
  }

  /** And of a name that is not ended, a quote and the escape of the name so far. */
  lemma OpenNameShows(x: string)
    requires x != "" && KeyLen(x) == |x|
    ensures ParsePair(x).More? && Gemma.Render(ParsePair(x).nodes[0]) == "\"" + Json.Escape(x)
  {
    KeyIs(x);
    PairCases(x);
    hide ParseKey, ParsePair, ParseValue, Skip, KeyLen, Json.Escape;
    var key := ParseKey(x).nodes[0];
    KeyOpen(x);
    CutKeyShows(key);
    assert x[..|x|] == x;
    PairText(ParsePair(x).nodes[0], key, key);
  }
}
