/** Browsing earlier lines while a new one is being edited. */
module LineHistory {
  import opened Text

  // Not browsing, or looking at entry `index`; the index of the last entry plus one is the line being edited.
  datatype View = NotViewing | Viewing(index: nat, backup: string)

  datatype State = State(entries: seq<string>, view: View)

  predicate Wf(s: State) {
    s.view.Viewing? ==> s.view.index <= |s.entries|
  }

  // The arrow-up key: what is shown then, given the line shown now.
  function Up(s: State, line: string): (r: (State, string))
    requires Wf(s)
    ensures Wf(r.0)
  {
    if s.entries == [] then
      (if s.view.NotViewing? then s.(view := Viewing(0, line)) else s, line)
    else
      var v := if s.view.NotViewing? then Viewing(|s.entries|, line) else s.view;
      var i := if v.index > 0 then v.index - 1 else 0;
      (s.(view := Viewing(i, v.backup)), s.entries[i])
  }

  // The arrow-down key.
  function Down(s: State, line: string): (r: (State, string))
    requires Wf(s)
    ensures Wf(r.0)
  {
    if s.entries == [] || s.view.NotViewing? then (s, line)
    else
      var i := s.view.index + 1;
      if i >= |s.entries| then (s.(view := NotViewing), s.view.backup)
      else (s.(view := Viewing(i, s.view.backup)), s.entries[i])
  }

  function Ups(s: State, line: string, n: nat): (r: (State, string))
    requires Wf(s)
    ensures Wf(r.0)
    decreases n
  {
    if n == 0 then (s, line) else var r := Up(s, line); Ups(r.0, r.1, n - 1)
  }

  function Downs(s: State, line: string, n: nat): (r: (State, string))
    requires Wf(s)
    decreases n
  {
    if n == 0 then (s, line)
    else
      var r := Down(s, line);
      Downs(r.0, r.1, n - 1)
  }

  // A line equal to the last entry is not stored again.
  function Added(entries: seq<string>, line: string): seq<string> {
    if entries != [] && entries[|entries| - 1] == line then entries else entries + [line]
  }

  // An empty line changes nothing, not even the browsing.
  function Stored(s: State, line: string): State {
    if line == "" then s else State(Added(s.entries, line), NotViewing)
  }

  class History {
    var entries: seq<string>
    var viewing: bool
    var viewingIdx: nat
    var backupLine: string

    constructor ()
      ensures Abs() == State([], NotViewing)
    {
      entries, viewing, viewingIdx, backupLine := [], false, 0, "";
    }

    ghost function Abs(): State
      reads this
    {
      State(entries, if viewing then Viewing(viewingIdx, backupLine) else NotViewing)
    }

    method Add(line: string)
      modifies this
      ensures Abs() == Stored(old(Abs()), line)
    {
      if line == "" {
        return;
      }
      if entries == [] || entries[|entries| - 1] != line {
        entries := entries + [line];
      }
      EndViewing();
    }

    method BeginViewing(line: string)
      modifies this
      ensures Abs() == State(old(entries), Viewing(|old(entries)|, line)) && entries == old(entries)
    {
      backupLine := line;
      viewing, viewingIdx := true, |entries|;
    }

    method EndViewing()
      modifies this
      ensures Abs() == State(old(entries), NotViewing) && entries == old(entries)
    {
      viewing := false;
      backupLine := "";
    }

    // The previous entry, if there is one to show; the first entry is shown again at the top.
    method Prev() returns (line: Option<string>)
      requires Wf(Abs())
      modifies this
      ensures entries == old(entries) && Wf(Abs())
      ensures entries == [] || !old(viewing) ==> line.None? && Abs() == old(Abs())
      ensures entries != [] && old(viewing) ==> (Abs(), line) == (Up(old(Abs()), "").0, Some(Up(old(Abs()), "").1))
    {
      if entries == [] || !viewing {
        return None;
      }
      if viewingIdx > 0 {
        viewingIdx := viewingIdx - 1;
      }
      return Some(entries[viewingIdx]);
    }

    method Next() returns (line: Option<string>)
      requires Wf(Abs())
      modifies this
      ensures entries == old(entries) && Wf(Abs())
      ensures entries == [] || !old(viewing) ==> line.None? && Abs() == old(Abs())
      ensures entries != [] && old(viewing) ==> (Abs(), line) == (Down(old(Abs()), "").0, Some(Down(old(Abs()), "").1))
    {
      if entries == [] || !viewing {
        return None;
      }
      viewingIdx := viewingIdx + 1;
      if viewingIdx >= |entries| {
        line := Some(backupLine);
        EndViewing();
      } else {
        line := Some(entries[viewingIdx]);
      }
    }

    method ArrowUp(line: string) returns (shown: string)
      requires Wf(Abs())
      modifies this
      ensures (Abs(), shown) == Up(old(Abs()), line) && Wf(Abs())
    {
      if !viewing {
        BeginViewing(line);
      }
      var r := Prev();
      shown := if r.Some? then r.value else line;
    }

    method ArrowDown(line: string) returns (shown: string)
      requires Wf(Abs())
      modifies this
      ensures (Abs(), shown) == Down(old(Abs()), line) && Wf(Abs())
    {
      shown := line;
      if viewing {
        var r := Next();
        shown := if r.Some? then r.value else line;
      }
    }
  }

  // After n > 0 key presses the n-th entry from the end is shown, or the first one.
  lemma {:induction false} UpsShow(s: State, line: string, k: nat, n: nat)
    requires s.entries != [] && k <= |s.entries| && s.view == Viewing(k, line)
    ensures n > 0 ==> var i := if n <= k then k - n else 0;
      forall shown :: Ups(s, shown, n) == (s.(view := Viewing(i, line)), s.entries[i])
    decreases n
  {
    if n > 1 {
      var i := if k > 0 then k - 1 else 0;
      UpsShow(s.(view := Viewing(i, line)), line, i, n - 1);
    }
  }

  lemma {:induction false} DownsLeave(s: State, line: string, shown: string)
    requires s.entries != [] && Wf(s) && s.view.Viewing? && s.view.backup == line && s.view.index < |s.entries|
    ensures Downs(s, shown, |s.entries| - s.view.index) == (s.(view := NotViewing), line)
    decreases |s.entries| - s.view.index
  {
    if s.view.index + 1 < |s.entries| {
      var i := s.view.index + 1;
      DownsLeave(s.(view := Viewing(i, line)), line, s.entries[i]);
    } else {
      var r := Down(s, shown);
      assert Downs(r.0, r.1, 0) == r;
    }
  }

  // Where browsing is, and the line that it comes back to.
  function Place(s: State): nat {
    if s.view.Viewing? then s.view.index else |s.entries|
  }

  function Backup(s: State, line: string): string {
    if s.view.Viewing? then s.view.backup else line
  }

  /** Browsing up any number of lines and down to the end shows the line that was saved when browsing began. That is the
      line being edited exactly if browsing was off, or if the saved line happens to be the same. */
  lemma {:induction false} UpDownRestores(s: State, line: string, n: nat)
    requires s.entries != [] && Wf(s) && n > 0
    ensures var up := Ups(s, line, n);
      var i := if n <= Place(s) then Place(s) - n else 0;
      && Wf(up.0) && up.1 == s.entries[i]
      && Downs(up.0, up.1, |s.entries| - i) == (s.(view := NotViewing), Backup(s, line))
      && (Downs(up.0, up.1, |s.entries| - i).1 == line <==> s.view.NotViewing? || s.view.backup == line)
  {
    var v := s.(view := Viewing(Place(s), Backup(s, line)));
    assert Up(s, line) == Up(v, line);
    UpsShow(v, Backup(s, line), Place(s), n);
    assert Ups(s, line, n) == Ups(v, line, n);
    var up := Ups(s, line, n);
    DownsLeave(up.0, Backup(s, line), up.1);
  }

  // An empty line does not end browsing, so that the next line is not saved: it is gone when browsing comes back.
  lemma LostLine()
    ensures var browsing := Up(Stored(State([], NotViewing), "x"), "").0;
      var up := Up(Stored(browsing, ""), "abc");
      up.1 == "x" && Down(up.0, up.1).1 == ""
  {
    assert Added([], "x") == ["x"];
  }

  // ---------- what is stored ----------

  function StoredAll(s: State, lines: seq<string>): State
    decreases |lines|
  {
    if lines == [] then s else StoredAll(Stored(s, lines[0]), lines[1..])
  }

  function NotEmpty(lines: seq<string>): seq<string> {
    if lines == [] then [] else (if lines[0] == "" then [] else [lines[0]]) + NotEmpty(lines[1..])
  }

  // Of equal lines in a row only one.
  function OneOfEach(lines: seq<string>): seq<string> {
    if |lines| < 2 then lines
    else if lines[0] == lines[1] then OneOfEach(lines[1..]) else [lines[0]] + OneOfEach(lines[1..])
  }

  lemma {:induction false} OneMore(lines: seq<string>, line: string)
    ensures OneOfEach(lines + [line]) == Added(OneOfEach(lines), line)
    ensures lines != [] ==>
      OneOfEach(lines) != [] && OneOfEach(lines)[|OneOfEach(lines)| - 1] == lines[|lines| - 1]
    decreases |lines|
  {
    if lines != [] {
      assert (lines + [line])[1..] == lines[1..] + [line];
      OneMore(lines[1..], line);
    }
  }

  lemma {:induction false} StoredBehind(s: State, before: seq<string>, lines: seq<string>)
    requires s.entries == OneOfEach(before)
    ensures StoredAll(s, lines).entries == OneOfEach(before + NotEmpty(lines))
    decreases |lines|
  {
    hide OneOfEach;
    if lines == [] {
      assert before + [] == before;
    } else {
      var line, more := lines[0], lines[1..];
      var next := if line == "" then before else before + [line];
      OneMore(before, line);
      StoredBehind(Stored(s, line), next, more);
      assert before + NotEmpty(lines) == next + NotEmpty(more) by {
        assert before + ([line] + NotEmpty(more)) == before + [line] + NotEmpty(more);
        assert before + ([] + NotEmpty(more)) == before + NotEmpty(more);
      }
    }
  }

  /** The history holds the lines that are not empty, in order, each run of equal ones once. */
  lemma StoredRuns(lines: seq<string>)
    ensures StoredAll(State([], NotViewing), lines).entries == OneOfEach(NotEmpty(lines))
  {
    StoredBehind(State([], NotViewing), [], lines);
    assert [] + NotEmpty(lines) == NotEmpty(lines);
  }

  /** The line stored last is shown first, and the one being edited comes back behind it. */
  lemma LastIsShown(s: State, line: string, edited: string)
    requires Wf(s) && line != ""
    ensures var up := Up(Stored(s, line), edited); up.1 == line && Down(up.0, up.1).1 == edited
  {
    var t := Stored(s, line);
    assert t.entries != [] && t.entries[|t.entries| - 1] == line;
  }
}
