/** One row of comma-separated values with quoted fields. */
module Csv {

  // What the rest of a row yields when a field has been read this far, inside quotes or not.
  function Rest(s: string, field: string, quoted: bool): seq<string>
    decreases |s|
  {
    if s == "" then [field]
    else if s[0] == '"' then
      if !quoted then
        if field != "" then Rest(s[1..], field + "\"", quoted) else Rest(s[1..], field, true)
      else if |s| > 1 && s[1] == '"' then Rest(s[2..], field + "\"", quoted)
      else Rest(s[1..], field, false)
    else if s[0] == ',' && !quoted then [field] + Rest(s[1..], "", quoted)
    else Rest(s[1..], field + [s[0]], quoted)
  }

  function Row(s: string): seq<string> {
    Rest(s, "", false)
  }

  method ParseCsvRow(input: string) returns (fields: seq<string>)
    ensures fields == Row(input)
  {
    fields := [];
    var field := "";
    var inQuotes := false;
    var i := 0;
    assert input[0..] == input;
    while i < |input|
      invariant i <= |input|
      invariant fields + Rest(input[i..], field, inQuotes) == Row(input)
    {
      ghost var rest := input[i..];
      assert rest[1..] == input[i + 1..];
      var ch := input[i];
      if ch == '"' {
        if !inQuotes {
          // a quote in the middle of a field without quotes is part of it
          if field != "" {
            field := field + "\"";
          } else {
            inQuotes := true;
          }
        } else {
          if i + 1 < |input| && input[i + 1] == '"' {
            assert rest[2..] == input[i + 2..];
            field := field + "\"";
            i := i + 1;
          } else {
            inQuotes := false;
          }
        }
      } else if ch == ',' {
        if inQuotes {
          field := field + ",";
        } else {
          assert fields + ([field] + Rest(rest[1..], "", false)) == (fields + [field]) + Rest(rest[1..], "", false);
          fields := fields + [field];
          field := "";
        }
      } else {
        field := field + [ch];
      }
      i := i + 1;
    }
    assert input[i..] == "";
    fields := fields + [field];
  }

  // ---------- writing rows ----------

  function Doubled(f: string): string {
    if f == "" then "" else (if f[0] == '"' then "\"\"" else [f[0]]) + Doubled(f[1..])
  }

  // A field in quotes, with what stands behind the closing quote; without quotes; or in quotes that are never closed.
  datatype Cell = Quoted(body: string, tail: string) | Bare(text: string) | Open(rest: string)

  // Text outside quotes must not hold a comma, and must not begin with a quote.
  predicate CanBeBare(f: string) {
    ',' !in f && (f == "" || f[0] != '"')
  }

  predicate CanWrite(c: Cell) {
    (c.Bare? ==> CanBeBare(c.text)) && (c.Quoted? ==> CanBeBare(c.tail))
  }

  function Write(c: Cell): string {
    match c
    case Quoted(f, t) => "\"" + (Doubled(f) + ("\"" + t))
    case Bare(f) => f
    case Open(f) => "\"" + Doubled(f)
  }

  function Value(c: Cell): string {
    match c
    case Quoted(f, t) => f + t
    case Bare(f) => f
    case Open(f) => f
  }

  // Quotes that are not closed reach to the end of the row.
  predicate IsRow(cells: seq<Cell>) {
    && cells != [] && (forall i :: 0 <= i < |cells| ==> CanWrite(cells[i]))
    && forall i :: 0 <= i < |cells| - 1 ==> !cells[i].Open?
  }

  function WriteRow(cells: seq<Cell>): string
    requires cells != []
  {
    if |cells| == 1 then Write(cells[0]) else Write(cells[0]) + ("," + WriteRow(cells[1..]))
  }

  function Values(cells: seq<Cell>): seq<string> {
    if cells == [] then [] else [Value(cells[0])] + Values(cells[1..])
  }

  predicate EndsField(rest: string) {
    rest == "" || rest[0] == ','
  }

  // Inside quotes everything is taken up to the quote that closes them.
  lemma {:induction false} QuotedBody(f: string, field: string, rest: string)
    requires rest == "" || rest[0] != '"'
    ensures Rest(Doubled(f) + ("\"" + rest), field, true) == Rest(rest, field + f, false)
    decreases |f|
  {
    var s := Doubled(f) + ("\"" + rest);
    if f == "" {
      assert s == "\"" + rest && s[1..] == rest;
      assert field + f == field;
    } else {
      QuotedBody(f[1..], field + [f[0]], rest);
      assert field + [f[0]] + f[1..] == field + f;
      var n := if f[0] == '"' then 2 else 1;
      assert s[n..] == Doubled(f[1..]) + ("\"" + rest);
      assert f[0] == '"' ==> field + "\"" == field + [f[0]];
    }
  }

  // And if there is none, up to the end of the row.
  lemma {:induction false} OpenBody(f: string, field: string)
    ensures Rest(Doubled(f), field, true) == [field + f]
    decreases |f|
  {
    if f == "" {
      assert field + f == field;
    } else {
      var s := Doubled(f);
      OpenBody(f[1..], field + [f[0]]);
      assert field + [f[0]] + f[1..] == field + f;
      var n := if f[0] == '"' then 2 else 1;
      assert s[n..] == Doubled(f[1..]);
      assert f[0] == '"' ==> field + "\"" == field + [f[0]];
    }
  }

  lemma {:induction false} BareBody(f: string, field: string, rest: string)
    requires ',' !in f && (field != "" || f == "" || f[0] != '"')
    ensures Rest(f + rest, field, false) == Rest(rest, field + f, false)
    decreases |f|
  {
    if f == "" {
      assert f + rest == rest && field + f == field;
    } else {
      assert (f + rest)[1..] == f[1..] + rest;
      BareBody(f[1..], field + [f[0]], rest);
      assert field + [f[0]] + f[1..] == field + f;
      assert f[0] == '"' ==> field + "\"" == field + [f[0]];
    }
  }

  lemma QuoteOpens(s: string)
    ensures Rest("\"" + s, "", false) == Rest(s, "", true)
  {
    assert ("\"" + s)[1..] == s;
  }

  lemma QuotedFirst(f: string, t: string, rest: string)
    requires CanBeBare(t) && EndsField(rest)
    ensures Rest("\"" + (Doubled(f) + ("\"" + t)) + rest, "", false) == Rest(rest, f + t, false)
  {
    var body := Doubled(f) + ("\"" + (t + rest));
    assert "\"" + (Doubled(f) + ("\"" + t)) + rest == "\"" + body && "" + f == f;
    assert t + rest == "" || (t + rest)[0] != '"';
    hide *;
    QuoteOpens(body);
    QuotedBody(f, "", t + rest);
    BareBody(t, f, rest);
  }

  lemma OpenFirst(f: string)
    ensures Rest("\"" + Doubled(f), "", false) == [f]
  {
    assert "" + f == f;
    hide *;
    QuoteOpens(Doubled(f));
    OpenBody(f, "");
  }

  lemma NothingBehind(field: string)
    ensures Rest("", field, false) == [field]
  {
  }

  lemma CellFirst(c: Cell, rest: string)
    requires CanWrite(c) && EndsField(rest) && (c.Open? ==> rest == "")
    ensures Rest(Write(c) + rest, "", false) == Rest(rest, Value(c), false)
  {
    hide Rest, Doubled;
    match c
    case Quoted(f, t) => QuotedFirst(f, t, rest);
    case Bare(f) =>
      assert "" + f == f;
      BareBody(f, "", rest);
    case Open(f) =>
      assert Write(c) + rest == "\"" + Doubled(f);
      OpenFirst(f);
      NothingBehind(f);
  }

  /** Whatever fields a row is written from, each with quotes, closed or not, or without them: parsing gives these
      fields, and what stands behind a closing quote belongs to its field. */
  lemma {:induction false} ParseWritten(cells: seq<Cell>)
    requires IsRow(cells)
    ensures Row(WriteRow(cells)) == Values(cells)
  {
    var c := cells[0];
    if |cells| == 1 {
      CellFirst(c, "");
      assert Write(c) + "" == Write(c);
      assert cells[1..] == [];
    } else {
      var rest := "," + WriteRow(cells[1..]);
      CellFirst(c, rest);
      ParseWritten(cells[1..]);
      assert rest[1..] == WriteRow(cells[1..]);
    }
  }

  // ---------- every text is such a row ----------

  // What stands in front of the first comma, or all of it.
  lemma {:induction false} UpToComma(s: string) returns (f: string, rest: string)
    ensures s == f + rest && ',' !in f && EndsField(rest)
  {
    if s == "" || s[0] == ',' {
      f, rest := "", s;
    } else {
      f, rest := UpToComma(s[1..]);
      f := [s[0]] + f;
    }
  }

  // What stands in quotes, and whether they are closed.
  lemma {:induction false} UpToQuote(s: string) returns (f: string, closed: bool, rest: string)
    ensures if closed then s == Doubled(f) + ("\"" + rest) && (rest == "" || rest[0] != '"')
            else s == Doubled(f) && rest == ""
    decreases |s|
  {
    if s == "" {
      f, closed, rest := "", false, "";
    } else if s[0] == '"' && (|s| == 1 || s[1] != '"') {
      f, closed, rest := "", true, s[1..];
    } else {
      var n := if s[0] == '"' then 2 else 1;
      f, closed, rest := UpToQuote(s[n..]);
      DoubledFirst(s[0], f);
      assert s == s[..n] + s[n..];
      f := [s[0]] + f;
    }
  }

  lemma DoubledFirst(c: char, f: string)
    ensures Doubled([c] + f) == (if c == '"' then "\"\"" else [c]) + Doubled(f)
  {
    assert ([c] + f)[1..] == f;
  }

  lemma FirstCell(s: string) returns (c: Cell, rest: string)
    ensures CanWrite(c) && s == Write(c) + rest && EndsField(rest) && (c.Open? ==> rest == "")
  {
    if s != "" && s[0] == '"' {
      var f, closed, more := UpToQuote(s[1..]);
      if closed {
        var t;
        t, rest := UpToComma(more);
        c := Quoted(f, t);
      } else {
        c, rest := Open(f), "";
      }
    } else {
      var f;
      f, rest := UpToComma(s);
      c := Bare(f);
    }
  }

  lemma RowBehind(c: Cell, more: seq<Cell>)
    requires IsRow(more) && CanWrite(c) && !c.Open?
    ensures IsRow([c] + more) && WriteRow([c] + more) == Write(c) + ("," + WriteRow(more))
  {
    var cells := [c] + more;
    assert cells[1..] == more;
    hide CanWrite, Write;
    forall i | 0 <= i < |cells| ensures CanWrite(cells[i]) && (i < |cells| - 1 ==> !cells[i].Open?) {
      assert i > 0 ==> cells[i] == more[i - 1];
    }
  }

  /** Every text can be read as such a row, so that its fields are those of the row. */
  lemma {:induction false} AnyRow(s: string) returns (cells: seq<Cell>)
    ensures IsRow(cells) && s == WriteRow(cells) && Row(s) == Values(cells)
    decreases |s|
  {
    var c, rest := FirstCell(s);
    hide CanWrite, Write, Row, Values;
    if rest == "" {
      cells := [c];
    } else {
      assert rest == "," + rest[1..] && !c.Open?;
      hide IsRow, WriteRow;
      var more := AnyRow(rest[1..]);
      cells := [c] + more;
      RowBehind(c, more);
    }
    ParseWritten(cells);
  }

  // ---------- when quotes are needed ----------

  function TotalLength(fields: seq<string>): nat {
    if fields == [] then 0 else |fields[0]| + TotalLength(fields[1..])
  }

  lemma {:induction false} NothingAdded(s: string, field: string, quoted: bool)
    ensures Rest(s, field, quoted) != [] && TotalLength(Rest(s, field, quoted)) <= |field| + |s|
    decreases |s|
  {
    if s != "" {
      if s[0] == '"' {
        if !quoted {
          NothingAdded(s[1..], if field != "" then field + "\"" else field, field == "");
        } else if |s| > 1 && s[1] == '"' {
          NothingAdded(s[2..], field + "\"", quoted);
        } else {
          NothingAdded(s[1..], field, false);
        }
      } else if s[0] == ',' && !quoted {
        NothingAdded(s[1..], "", quoted);
        assert Rest(s, field, quoted)[1..] == Rest(s[1..], "", quoted);
      } else {
        NothingAdded(s[1..], field + [s[0]], quoted);
      }
    }
  }

  lemma {:induction false} CommaSplits(f: string, field: string)
    requires ',' in f && (field != "" || f[0] != '"')
    ensures |Rest(f, field, false)| > 1
    decreases |f|
  {
    if f[0] == ',' {
      NothingAdded(f[1..], "", false);
    } else {
      CommaSplits(f[1..], field + [f[0]]);
      assert f[0] == '"' ==> field + "\"" == field + [f[0]];
    }
  }

  /** A field can stand without quotes exactly when it has no comma and does not begin with a quote. */
  lemma BareIff(f: string)
    ensures Row(f) == [f] <==> CanBeBare(f)
  {
    if CanBeBare(f) {
      BareBody(f, "", "");
      assert f + "" == f && "" + f == f;
    } else if f != "" && f[0] == '"' {
      NothingAdded(f[1..], "", true);
      assert TotalLength([f]) == |f|;
    } else {
      CommaSplits(f, "");
    }
  }
}
