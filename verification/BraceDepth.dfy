/** The brace counter that decides how many closing braces a finished tool call still needs. */
module BraceDepth {
  import opened Text
  import opened Json

  // The counter, whether a string is open, and whether the next character is escaped.
  datatype Scan = Scan(depth: int, inString: bool, escaped: bool)

  const START := Scan(0, false, false)

  function Step(st: Scan, c: char): Scan {
    if st.escaped then st.(escaped := false)
    else if c == '\\' && st.inString then st.(escaped := true)
    else if c == '"' then st.(inString := !st.inString)
    else if st.inString then st
    else if c == '{' then st.(depth := st.depth + 1)
    else if c == '}' then st.(depth := st.depth - 1)
    else st
  }

  function Run(st: Scan, s: string): Scan
    decreases s
  {
    if s == "" then st else Run(Step(st, s[0]), s[1..])
  }

  function Depth(s: string): int {
    Run(START, s).depth
  }

  // A text that leaves the counter as it found it: braces balanced, every string closed.
  predicate Balanced(s: string) {
    Run(START, s) == START
  }

  method JsonBraceDepth(s: string) returns (depth: int)
    ensures depth == Depth(s)
  {
    depth := 0;
    var inString, escaped := false, false;
    for i := 0 to |s|
      invariant Run(Scan(depth, inString, escaped), s[i..]) == Run(START, s)
    {
      var c := s[i];
      assert s[i..][1..] == s[i + 1..];
      if escaped {
        escaped := false;
      } else if c == '\\' && inString {
        escaped := true;
      } else if c == '"' {
        inString := !inString;
      } else if !inString {
        if c == '{' {
          depth := depth + 1;
        } else if c == '}' {
          depth := depth - 1;
        }
      }
    }
  }

  lemma {:induction false} RunConcat(st: Scan, a: string, b: string)
    ensures Run(st, a + b) == Run(Run(st, a), b)
    decreases a
  {
    if a == "" {
      assert a + b == b;
    } else {
      assert (a + b)[1..] == a[1..] + b;
      RunConcat(Step(st, a[0]), a[1..], b);
    }
  }

  // Only characters inside strings are ever escaped.
  lemma {:induction false} EscapedInString(st: Scan, s: string)
    requires st.escaped ==> st.inString
    ensures Run(st, s).escaped ==> Run(st, s).inString
    decreases s
  {
    if s != "" {
      EscapedInString(Step(st, s[0]), s[1..]);
    }
  }

  // The counter only adds up, so a balanced text is neutral at any depth.
  lemma {:induction false} RunShift(st: Scan, d: int, s: string)
    ensures Run(st.(depth := st.depth + d), s) == Run(st, s).(depth := Run(st, s).depth + d)
    decreases s
  {
    if s != "" {
      RunShift(Step(st, s[0]), d, s[1..]);
    }
  }

  // Opening minus closing braces among the tokens.
  function TokenDepth(ts: seq<Token>): int {
    if ts == [] then 0
    else (if ts[0] == Punct('{') then 1 else if ts[0] == Punct('}') then -1 else 0) + TokenDepth(ts[1..])
  }

  // Inside a string the counter ignores everything up to the closing quote.
  lemma {:induction false} RunString(d: int, s: string)
    requires ReadString(JsonText, '"', s).Some?
    ensures Run(Scan(d, true, false), s) == Run(Scan(d, false, false), ReadString(JsonText, '"', s).value.1)
    decreases |s|
  {
    var st := Scan(d, true, false);
    if s[0] == '"' {
    } else if s[0] == '\\' && s[1] == 'u' {
      RunString(d, s[6..]);
      RunHex(d, s[2..6]);
      assert s[2..] == s[2..6] + s[6..];
      RunConcat(st, s[2..6], s[6..]);
      assert s[1..][1..] == s[2..];
    } else if s[0] == '\\' {
      RunString(d, s[2..]);
      assert s[1..][1..] == s[2..];
    } else {
      RunString(d, s[1..]);
    }
  }

  lemma {:induction false} RunHex(d: int, s: string)
    requires |s| == 4 && HexChar(s).Some?
    ensures Run(Scan(d, true, false), s) == Scan(d, true, false)
  {
    var st := Scan(d, true, false);
    RunNeutral(st, s);
  }

  // Characters that change nothing.
  lemma {:induction false} RunNeutral(st: Scan, s: string)
    requires forall i :: 0 <= i < |s| ==> Step(st, s[i]) == st
    ensures Run(st, s) == st
  {
    if s != "" {
      assert Step(st, s[0]) == st;
      assert forall i :: 0 <= i < |s[1..]| ==> s[1..][i] == s[i + 1];
      RunNeutral(st, s[1..]);
    }
  }

  lemma {:induction false} RunWord(d: int, s: string, k: nat)
    requires k <= |s| && forall i :: 0 <= i < k ==> IsRunChar(s[i])
    ensures Run(Scan(d, false, false), s) == Run(Scan(d, false, false), s[k..])
  {
    RunNeutral(Scan(d, false, false), s[..k]);
    assert s == s[..k] + s[k..];
    RunConcat(Scan(d, false, false), s[..k], s[k..]);
  }

  // On JSON text the character counter counts exactly the brace tokens.
  lemma {:induction false} RunTokens(d: int, s: string)
    requires Lex(JsonText, s).Some?
    ensures Run(Scan(d, false, false), s) == Scan(d + TokenDepth(Lex(JsonText, s).value), false, false)
    decreases |s|
  {
    var st := Scan(d, false, false);
    if s == "" {
    } else if IsJsonSpace(s[0]) {
      RunTokens(d, s[1..]);
    } else if IsPunct(s[0]) {
      RunTokens(Step(st, s[0]).depth, s[1..]);
    } else if s[0] == '"' {
      RunString(d, s[1..]);
      RunTokens(d, ReadString(JsonText, '"', s[1..]).value.1);
    } else {
      var k := RunLen(s);
      RunWord(d, s, k);
      RunTokens(d, s[k..]);
    }
  }

  // A parsed value consumes as many closing as opening braces.
  lemma {:induction false} ValueDepth(ts: seq<Token>)
    requires ParseValue(ts).Some?
    ensures TokenDepth(ts) == TokenDepth(ParseValue(ts).value.1)
    decreases |ts|, 0
  {
    match ts[0]
    case Scalar(_) =>
    case Punct('{') =>
      if |ts| > 1 && ts[1] == Punct('}') {
        assert ts[1..][1..] == ts[2..];
      } else {
        MembersDepth(ts[1..]);
      }
    case Punct('[') =>
      if |ts| > 1 && ts[1] == Punct(']') {
        assert ts[1..][1..] == ts[2..];
      } else {
        ElemsDepth(ts[1..]);
      }
    case _ =>
  }

  lemma {:induction false} MembersDepth(ts: seq<Token>)
    requires ParseMembers(ts).Some?
    ensures TokenDepth(ts) == TokenDepth(ParseMembers(ts).value.1) - 1
    decreases |ts|, 1
  {
    assert ts[1..][1..] == ts[2..];
    ValueDepth(ts[2..]);
    var rest := ParseValue(ts[2..]).value.1;
    if rest[0] == Punct(',') {
      MembersDepth(rest[1..]);
    }
  }

  lemma {:induction false} ElemsDepth(ts: seq<Token>)
    requires ParseElems(ts).Some?
    ensures TokenDepth(ts) == TokenDepth(ParseElems(ts).value.1)
    decreases |ts|, 1
  {
    ValueDepth(ts);
    var rest := ParseValue(ts).value.1;
    if rest[0] == Punct(',') {
      ElemsDepth(rest[1..]);
    }
  }

  // The text of any JSON value is balanced.
  lemma {:induction false} ValueBalanced(s: string)
    requires Read(JsonText, s).Some?
    ensures Balanced(s)
  {
    RunTokens(0, s);
    ValueDepth(Lex(JsonText, s).value);
  }
}
