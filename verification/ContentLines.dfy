/** The line-rewriting passes over a forwarded mail: dropping the header block
    after a "forwarded message" marker, and unfolding two-cell table rows. What
    counts as a marker or a header line is a regular expression of the program;
    here it is any predicate. */
module ContentLines {
  import opened Text

  datatype Patterns = Patterns(marker: string -> bool, header: string -> bool) {
    // a line the forward block swallows
    predicate Skippable(line: string) {
      Blank(line) || header(line)
    }
  }

  // ---- forward headers -------------------------------------------------------

  // inBlock: every line since the last kept marker was skippable
  function Scan(p: Patterns, lines: seq<string>, inBlock: bool): seq<string> {
    if lines == [] then []
    else if inBlock && p.Skippable(lines[0]) then Scan(p, lines[1..], true)
    else [lines[0]] + Scan(p, lines[1..], p.marker(lines[0]))
  }

  function StripHeaders(p: Patterns, lines: seq<string>): seq<string> {
    Scan(p, lines, false)
  }

  // nothing skippable directly follows a marker
  predicate HeaderFree(p: Patterns, lines: seq<string>) {
    forall i :: 0 < i < |lines| && p.marker(lines[i - 1]) ==> !p.Skippable(lines[i])
  }

  // line i goes exactly when it is blank or a header and continues a block opened by a marker above it
  predicate Dropped(p: Patterns, lines: seq<string>, i: nat)
    requires i < |lines|
  {
    i > 0 && (Blank(lines[i]) || p.header(lines[i])) && (p.marker(lines[i - 1]) || Dropped(p, lines, i - 1))
  }

  function Survivors(p: Patterns, lines: seq<string>, i: nat): seq<string>
    requires i <= |lines|
    decreases |lines| - i
  {
    if i == |lines| then []
    else (if Dropped(p, lines, i) then [] else [lines[i]]) + Survivors(p, lines, i + 1)
  }

  lemma {:induction false} ScanSurvivors(p: Patterns, lines: seq<string>, i: nat, inBlock: bool)
    requires i <= |lines|
    requires inBlock == (i > 0 && (p.marker(lines[i - 1]) || Dropped(p, lines, i - 1)))
    ensures Scan(p, lines[i..], inBlock) == Survivors(p, lines, i)
    decreases |lines| - i
  {
    if i == |lines| {
    } else {
      assert lines[i..][0] == lines[i] && lines[i..][1..] == lines[i + 1..];
      if Dropped(p, lines, i) {
        ScanSurvivors(p, lines, i + 1, true);
      } else {
        ScanSurvivors(p, lines, i + 1, p.marker(lines[i]));
      }
    }
  }

  /** The pass keeps the lines in order and drops exactly the blocks' lines. */
  lemma StripSelects(p: Patterns, lines: seq<string>)
    ensures StripHeaders(p, lines) == Survivors(p, lines, 0)
  {
    assert lines[0..] == lines;
    ScanSurvivors(p, lines, 0, false);
  }

  lemma {:induction false} ScanHeaderFree(p: Patterns, lines: seq<string>, inBlock: bool)
    ensures HeaderFree(p, Scan(p, lines, inBlock))
    ensures inBlock && Scan(p, lines, inBlock) != [] ==> !p.Skippable(Scan(p, lines, inBlock)[0])
  {
    if lines == [] {
    } else {
      if inBlock && p.Skippable(lines[0]) {
        ScanHeaderFree(p, lines[1..], true);
      } else {
        ScanHeaderFree(p, lines[1..], p.marker(lines[0]));
      }
    }
  }

  lemma {:induction false} ScanFixed(p: Patterns, lines: seq<string>, inBlock: bool)
    requires HeaderFree(p, lines)
    requires inBlock && lines != [] ==> !p.Skippable(lines[0])
    ensures Scan(p, lines, inBlock) == lines
  {
    if lines == [] {
    } else {
      assert forall i :: 0 < i < |lines[1..]| ==> lines[1..][i] == lines[i + 1] && lines[1..][i - 1] == lines[i];
      ScanFixed(p, lines[1..], p.marker(lines[0]));
    }
  }

  /** The pass is idempotent: its fixed points are exactly the header-free line lists. */
  lemma StripNormalForm(p: Patterns, lines: seq<string>)
    ensures HeaderFree(p, StripHeaders(p, lines))
    ensures StripHeaders(p, StripHeaders(p, lines)) == StripHeaders(p, lines)
    ensures StripHeaders(p, lines) == lines <==> HeaderFree(p, lines)
  {
    ScanHeaderFree(p, lines, false);
    ScanFixed(p, StripHeaders(p, lines), false);
    if HeaderFree(p, lines) {
      ScanFixed(p, lines, false);
    }
  }

  // content_preparer._strip_forward_headers on the split lines
  method StripForwardHeaders(p: Patterns, lines: seq<string>) returns (out: seq<string>)
    ensures out == StripHeaders(p, lines)
  {
    out := [];
    var i := 0;
    while i < |lines|
      invariant 0 <= i <= |lines|
      invariant StripHeaders(p, lines) == out + Scan(p, lines[i..], false)
    {
      out := out + [lines[i]];
      assert lines[i..][0] == lines[i] && lines[i..][1..] == lines[i + 1..];
      if p.marker(lines[i]) {
        i := i + 1;
        while i < |lines| && p.Skippable(lines[i])
          invariant 0 <= i <= |lines|
          invariant StripHeaders(p, lines) == out + Scan(p, lines[i..], true)
        {
          assert lines[i..][0] == lines[i] && lines[i..][1..] == lines[i + 1..];
          i := i + 1;
        }
        assert i < |lines| ==> lines[i..][0] == lines[i];
        continue;
      }
      i := i + 1;
    }
  }

  // ---- pipe tables -------------------------------------------------------------

  // ^[\s|:\-]+$
  predicate Separator(line: string) {
    line != "" && forall i :: 0 <= i < |line| ==> IsSpace(line[i]) || line[i] in "|:-"
  }

  function NonBlank(cells: seq<string>): (r: seq<string>)
    ensures forall k :: 0 <= k < |r| ==> !Blank(r[k]) && Strip(r[k]) == r[k]
    ensures (forall k :: 0 <= k < |cells| ==> '|' !in cells[k]) ==> forall k :: 0 <= k < |r| ==> '|' !in r[k]
  {
    if cells == [] then []
    else
      StripBlank(cells[0]);
      StripStable(cells[0]);
      StripBlank(Strip(cells[0]));
      (if Strip(cells[0]) != "" then [Strip(cells[0])] else []) + NonBlank(cells[1..])
  }

  function Cells(line: string): (r: seq<string>)
    ensures forall k :: 0 <= k < |r| ==> !Blank(r[k]) && Strip(r[k]) == r[k] && '|' !in r[k]
  {
    NonBlank(Split(line, '|'))
  }

  function Unfold(line: string): seq<string> {
    if '|' !in line then [line]
    else if Separator(line) then []
    else if |Cells(line)| == 2 then Cells(line)
    else [line]
  }

  function UnfoldTables(lines: seq<string>): seq<string> {
    if lines == [] then [] else Unfold(lines[0]) + UnfoldTables(lines[1..])
  }

  // no separator row and no two-cell row is left
  predicate TableFree(lines: seq<string>) {
    forall i :: 0 <= i < |lines| ==> '|' in lines[i] ==> !Separator(lines[i]) && |Cells(lines[i])| != 2
  }

  // every cell text of the mail, top to bottom and left to right
  function Tokens(lines: seq<string>): seq<string> {
    if lines == [] then []
    else (if '|' in lines[0] && Separator(lines[0]) then [] else Cells(lines[0])) + Tokens(lines[1..])
  }

  lemma TrimLeftStable(s: string)
    requires s == "" || !IsSpace(s[0])
    ensures TrimLeft(s) == s
  {
  }

  lemma TrimRightStable(s: string)
    requires s == "" || !IsSpace(s[|s| - 1])
    ensures TrimRight(s) == s
  {
  }

  lemma StripStable(s: string)
    ensures Strip(Strip(s)) == Strip(s)
  {
    TrimLeftStable(Strip(s));
    TrimRightStable(Strip(s));
  }

  lemma {:induction false} TableFreeFixed(lines: seq<string>)
    ensures UnfoldTables(lines) == lines <== TableFree(lines)
  {
    if lines == [] || !TableFree(lines) {
    } else {
      assert forall i :: 0 <= i < |lines[1..]| ==> lines[1..][i] == lines[i + 1];
      TableFreeFixed(lines[1..]);
      assert '|' in lines[0] ==> !Separator(lines[0]) && |Cells(lines[0])| != 2;
    }
  }

  lemma {:induction false} UnfoldIsTableFree(lines: seq<string>)
    ensures TableFree(UnfoldTables(lines))
  {
    if lines == [] {
    } else {
      UnfoldIsTableFree(lines[1..]);
      assert TableFree(Unfold(lines[0]));
      TableFreeConcat(Unfold(lines[0]), UnfoldTables(lines[1..]));
    }
  }

  lemma TableFreeConcat(a: seq<string>, b: seq<string>)
    requires TableFree(a) && TableFree(b)
    ensures TableFree(a + b)
  {
  }

  lemma UnfoldNormalForm(lines: seq<string>)
    ensures TableFree(UnfoldTables(lines))
    ensures UnfoldTables(UnfoldTables(lines)) == UnfoldTables(lines)
  {
    UnfoldIsTableFree(lines);
    TableFreeFixed(UnfoldTables(lines));
  }

  lemma {:induction false} TokensConcat(a: seq<string>, b: seq<string>)
    ensures Tokens(a + b) == Tokens(a) + Tokens(b)
  {
    if a == [] {
      assert a + b == b;
    } else {
      assert (a + b)[0] == a[0] && (a + b)[1..] == a[1..] + b;
      TokensConcat(a[1..], b);
    }
  }

  // a bare cell text is its own only token
  lemma CellToken(c: string)
    requires '|' !in c && !Blank(c) && Strip(c) == c
    ensures Tokens([c]) == [c]
  {
    assert IndexOf(c, '|') == |c|;
    assert Split(c, '|') == [c];
    StripBlank(c);
    assert NonBlank([c]) == [c] + NonBlank([c][1..]);
  }

  lemma PairTokens(c: seq<string>)
    requires |c| == 2 && forall k :: 0 <= k < 2 ==> '|' !in c[k] && !Blank(c[k]) && Strip(c[k]) == c[k]
    ensures Tokens(c) == c
  {
    CellToken(c[0]);
    CellToken(c[1]);
    assert c == [c[0]] + [c[1]];
    TokensConcat([c[0]], [c[1]]);
  }

  lemma LineTokens(line: string)
    ensures Tokens([line]) == if '|' in line && Separator(line) then [] else Cells(line)
  {
    assert Tokens([line][1..]) == [];
  }

  lemma UnfoldKeepsTokens(line: string)
    ensures Tokens(Unfold(line)) == Tokens([line])
  {
    LineTokens(line);
    if '|' in line && !Separator(line) && |Cells(line)| == 2 {
      PairTokens(Cells(line));
    }
  }

  /** Unfolding loses, adds and reorders no cell. */
  lemma {:induction false} UnfoldKeepsOrder(lines: seq<string>)
    ensures Tokens(UnfoldTables(lines)) == Tokens(lines)
  {
    if lines == [] {
    } else {
      UnfoldKeepsTokens(lines[0]);
      UnfoldKeepsOrder(lines[1..]);
      TokensConcat(Unfold(lines[0]), UnfoldTables(lines[1..]));
      TokensConcat([lines[0]], lines[1..]);
      assert [lines[0]] + lines[1..] == lines;
    }
  }

  // ---- the order of the cells ----------------------------------------------------------------

  // `at` lists in order the parts from `from` on that are not blank, and `cells` strips them
  predicate InOrder(parts: seq<string>, from: nat, cells: seq<string>, at: seq<nat>) {
    && |at| == |cells| && (forall j, k :: 0 <= j < k < |at| ==> at[j] < at[k])
    && (forall k :: 0 <= k < |at| ==>
          from <= at[k] < |parts| && !Blank(parts[at[k]]) && cells[k] == Strip(parts[at[k]]))
    && (forall i :: from <= i < |parts| && !Blank(parts[i]) ==> i in at)
  }

  lemma {:induction false} NonBlankInOrder(parts: seq<string>, from: nat) returns (at: seq<nat>)
    requires from <= |parts|
    ensures InOrder(parts, from, NonBlank(parts[from..]), at)
    decreases |parts| - from
  {
    if from == |parts| {
      at := [];
    } else {
      var rest := NonBlankInOrder(parts, from + 1);
      NonBlankFirst(parts, from);
      if Blank(parts[from]) {
        SkippedInOrder(parts, from, NonBlank(parts[from + 1..]), rest);
        at := rest;
      } else {
        AddedInOrder(parts, from, NonBlank(parts[from + 1..]), rest);
        at := [from] + rest;
      }
    }
  }

  lemma NonBlankFirst(parts: seq<string>, from: nat)
    requires from < |parts|
    ensures NonBlank(parts[from..]) ==
            (if Blank(parts[from]) then [] else [Strip(parts[from])]) + NonBlank(parts[from + 1..])
  {
    StripBlank(parts[from]);
    assert parts[from..][0] == parts[from] && parts[from..][1..] == parts[from + 1..];
  }

  lemma SkippedInOrder(parts: seq<string>, from: nat, cells: seq<string>, rest: seq<nat>)
    requires from < |parts| && InOrder(parts, from + 1, cells, rest) && Blank(parts[from])
    ensures InOrder(parts, from, [] + cells, rest)
  {
    assert [] + cells == cells;
  }

  lemma AddedInOrder(parts: seq<string>, from: nat, cells: seq<string>, rest: seq<nat>)
    requires from < |parts| && InOrder(parts, from + 1, cells, rest) && !Blank(parts[from])
    ensures InOrder(parts, from, [Strip(parts[from])] + cells, [from] + rest)
  {
    var at, more := [from] + rest, [Strip(parts[from])] + cells;
    assert forall k :: 0 < k < |at| ==> at[k] == rest[k - 1];
    assert forall k :: 0 < k < |at| ==> more[k] == cells[k - 1];
    forall i | from <= i < |parts| && !Blank(parts[i]) ensures i in at {
      assert i == at[0] || i in rest;
    }
  }

  /** The cells of a row are its parts between the pipes, stripped, without the blank ones, in
      the order they stand. */
  lemma CellsInOrder(parts: seq<string>) returns (at: seq<nat>)
    requires |parts| > 0 && forall k :: 0 <= k < |parts| ==> '|' !in parts[k]
    ensures InOrder(parts, 0, Cells(Join(parts, '|')), at)
  {
    SplitJoin(parts, '|');
    assert parts[0..] == parts;
    at := NonBlankInOrder(parts, 0);
  }

  // a letter, a digit, anything a separator row does not have
  predicate Says(part: string) {
    exists i :: 0 <= i < |part| && !IsSpace(part[i]) && part[i] != ':' && part[i] != '-' && part[i] != '|'
  }

  lemma {:induction false} JoinHas(parts: seq<string>, k: nat)
    requires k < |parts| && Says(parts[k])
    ensures !Separator(Join(parts, '|'))
  {
    var line := Join(parts, '|');
    if |parts| == 1 {
    } else if k == 0 {
      var i :| 0 <= i < |parts[0]| && !IsSpace(parts[0][i]) && parts[0][i] !in ":-|";
      assert line[i] == parts[0][i];
    } else {
      JoinHas(parts[1..], k - 1);
      var rest := Join(parts[1..], '|');
      assert line == parts[0] + ['|'] + rest;
      if rest != "" {
        var i :| 0 <= i < |rest| && !IsSpace(rest[i]) && rest[i] !in "|:-";
        assert line[|parts[0]| + 1 + i] == rest[i];
      }
    }
  }

  lemma {:induction false} JoinPipes(parts: seq<string>)
    requires |parts| > 1
    ensures '|' in Join(parts, '|')
  {
    assert Join(parts, '|')[|parts[0]|] == '|';
  }

  /** A row with exactly two parts that are not blank, and anything to say, becomes two lines:
      the left part above the right one. */
  lemma RowUnfolds(parts: seq<string>, i: nat, j: nat)
    requires forall k :: 0 <= k < |parts| ==> '|' !in parts[k]
    requires i < j < |parts| && forall k :: 0 <= k < |parts| ==> (Blank(parts[k]) <==> k != i && k != j)
    requires Says(parts[i]) || Says(parts[j])
    ensures Unfold(Join(parts, '|')) == [Strip(parts[i]), Strip(parts[j])]
  {
    var at := CellsInOrder(parts);
    TwoCells(parts, Cells(Join(parts, '|')), at, i, j);
    JoinPipes(parts);
    JoinHas(parts, if Says(parts[i]) then i else j);
  }

  lemma TwoCells(parts: seq<string>, cells: seq<string>, at: seq<nat>, i: nat, j: nat)
    requires InOrder(parts, 0, cells, at)
    requires i < j < |parts| && forall k :: 0 <= k < |parts| ==> (Blank(parts[k]) <==> k != i && k != j)
    ensures cells == [Strip(parts[i]), Strip(parts[j])]
  {
    assert i in at && j in at;
    TwoPlaces(at, i, j);
  }

  lemma ThreePlaces(at: seq<nat>)
    requires |at| > 2 && forall x, y :: 0 <= x < y < |at| ==> at[x] < at[y]
    ensures at[0] < at[1] < at[2]
  {
  }

  lemma TwoPlaces(at: seq<nat>, i: nat, j: nat)
    requires forall x, y :: 0 <= x < y < |at| ==> at[x] < at[y]
    requires i < j && i in at && j in at && forall k :: 0 <= k < |at| ==> at[k] == i || at[k] == j
    ensures at == [i, j]
  {
    var x :| 0 <= x < |at| && at[x] == i;
    var y :| 0 <= y < |at| && at[y] == j;
    if |at| > 2 {
      ThreePlaces(at);
      assert false;
    }
  }

  /** Label and value: the case the unfolding is for. */
  lemma LabelAboveValue(name: string, value: string)
    requires '|' !in name && '|' !in value && !Blank(name) && !Blank(value) && (Says(name) || Says(value))
    ensures Unfold(name + "|" + value) == [Strip(name), Strip(value)]
  {
    var parts := [name, value];
    assert parts[1..] == [value];
    assert Join(parts, '|') == name + "|" + value;
    RowUnfolds(parts, 0, 1);
  }

  /** A line without a pipe, and any other row with something to say, stays as it is; a row
      with nothing to say goes. */
  lemma RowStays(parts: seq<string>, at: seq<nat>)
    requires |parts| > 0 && (forall k :: 0 <= k < |parts| ==> '|' !in parts[k])
    requires InOrder(parts, 0, Cells(Join(parts, '|')), at)
    ensures |parts| == 1 || ((exists k :: 0 <= k < |parts| && Says(parts[k])) && |at| != 2) ==>
              Unfold(Join(parts, '|')) == [Join(parts, '|')]
    ensures |parts| > 1 && (forall k :: 0 <= k < |parts| ==> !Says(parts[k])) ==> Unfold(Join(parts, '|')) == []
  {
    if |parts| == 1 {
      return;
    }
    JoinPipes(parts);
    SeparatorSays(Join(parts, '|'));
    if exists k :: 0 <= k < |parts| && Says(parts[k]) {
      var k :| 0 <= k < |parts| && Says(parts[k]);
      JoinHas(parts, k);
    } else {
      JoinSilent(parts);
    }
  }

  lemma SeparatorSays(line: string)
    ensures line != "" ==> (Separator(line) <==> !Says(line))
  {
  }

  lemma {:induction false} JoinSilent(parts: seq<string>)
    requires |parts| > 0 && forall k :: 0 <= k < |parts| ==> !Says(parts[k])
    ensures !Says(Join(parts, '|'))
  {
    if |parts| > 1 {
      JoinSilent(parts[1..]);
      var rest := Join(parts[1..], '|');
      assert Join(parts, '|') == parts[0] + ['|'] + rest;
    }
  }

  lemma {:induction false} ScanKeepsTableFree(p: Patterns, lines: seq<string>, inBlock: bool)
    requires TableFree(lines)
    ensures TableFree(Scan(p, lines, inBlock))
  {
    if lines == [] {
    } else {
      assert TableFree(lines[1..]) by {
        assert forall i :: 0 <= i < |lines[1..]| ==> lines[1..][i] == lines[i + 1];
      }
      if inBlock && p.Skippable(lines[0]) {
        ScanKeepsTableFree(p, lines[1..], true);
      } else {
        ScanKeepsTableFree(p, lines[1..], p.marker(lines[0]));
        assert TableFree([lines[0]]);
        TableFreeConcat([lines[0]], Scan(p, lines[1..], p.marker(lines[0])));
      }
    }
  }

  function Prepare(p: Patterns, lines: seq<string>): seq<string> {
    StripHeaders(p, UnfoldTables(lines))
  }

  /** Unfolding then stripping is idempotent as a whole. */
  lemma PrepareIdempotent(p: Patterns, lines: seq<string>)
    ensures Prepare(p, Prepare(p, lines)) == Prepare(p, lines)
  {
    UnfoldIsTableFree(lines);
    ScanKeepsTableFree(p, UnfoldTables(lines), false);
    TableFreeFixed(Prepare(p, lines));
    StripNormalForm(p, UnfoldTables(lines));
  }

  lemma UnfoldStep(lines: seq<string>, i: nat, out: seq<string>, unfolded: seq<string>)
    requires i < |lines| && unfolded == Unfold(lines[i])
    requires UnfoldTables(lines) == out + UnfoldTables(lines[i..])
    ensures UnfoldTables(lines) == out + unfolded + UnfoldTables(lines[i + 1..])
  {
    assert lines[i..][0] == lines[i] && lines[i..][1..] == lines[i + 1..];
  }

  // content_preparer._normalize_pipe_tables on the split lines
  method NormalizePipeTables(lines: seq<string>) returns (out: seq<string>)
    ensures out == UnfoldTables(lines)
  {
    out := [];
    for i := 0 to |lines|
      invariant UnfoldTables(lines) == out + UnfoldTables(lines[i..])
    {
      var line := lines[i];
      ghost var before, unfolded := out, Unfold(line);
      UnfoldStep(lines, i, out, unfolded);
      if '|' in line {
        if Separator(line) {
          assert out + unfolded == out;
          continue;
        }
        var cells := Cells(line);
        if |cells| == 2 {
          out := out + [cells[0], cells[1]];
          assert [cells[0], cells[1]] == unfolded;
          continue;
        }
      }
      out := out + [line];
      assert out == before + unfolded;
    }
  }
}
