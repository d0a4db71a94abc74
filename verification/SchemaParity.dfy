/**
 Comparing two schema files: statements are split by nesting depth, blocks are collected by
 name, and two schemas agree when every block has the same set of canonical statements.
 */
module SchemaParity {
  import opened Wrappers
  import opened SchemaText

  datatype Kind = Model | Enum | Type | View

  /** What makes a source unreadable. */
  datatype SchemaError =
    | Unbalanced | Unclosed(kind: Kind, name: string) | DuplicateBlock(kind: Kind, name: string)
    | NativeInSqlite(statement: string) | NativeMissing(statement: string) | NativeNotAllowed | NativeMisplaced

  // ---------- Statements ----------

  /** Statements finished so far, the one being read, and its nesting depth. */
  datatype Split = Split(statements: seq<string>, current: string, depth: int)

  function Cleaned(raw: string): string {
    Trim(StripLine(raw))
  }

  predicate Skipped(line: string) {
    |line| == 0 || (|line| >= 3 && line[0] == line[1] == line[2] == '/')
  }

  function Spaced(a: string, b: string): string {
    a + " " + b
  }

  function Join(pieces: seq<string>): string {
    if pieces == [] then "" else
    var before := Join(pieces[..|pieces| - 1]);
    if |pieces| == 1 then pieces[0] else Spaced(before, pieces[|pieces| - 1])
  }

  /** What has been read of a statement, with one more line. */
  function Lead(current: string, line: string): string {
    if current != "" then Spaced(current, line) else line
  }

  /** A cleaned line, and how it nests. */
  datatype Row = Row(text: string, delta: int)

  function RowOf(raw: string): Row {
    Row(Cleaned(raw), Nesting(Cleaned(raw)))
  }

  function Rows(lines: seq<string>): (rows: seq<Row>)
    ensures |rows| == |lines| && forall i :: 0 <= i < |lines| ==> rows[i] == RowOf(lines[i])
  {
    if lines == [] then [] else Rows(lines[..|lines| - 1]) + [RowOf(lines[|lines| - 1])]
  }

  function SplitRow(s: Split, row: Row): Split {
    if Skipped(row.text) then s else
    var current, depth := Lead(s.current, row.text), s.depth + row.delta;
    if depth == 0 then Split(s.statements + [current], "", 0) else Split(s.statements, current, depth)
  }

  function SplitAll(rows: seq<Row>): Split {
    if rows == [] then Split([], "", 0) else SplitRow(SplitAll(rows[..|rows| - 1]), rows[|rows| - 1])
  }

  function Statements(lines: seq<string>): Result<seq<string>, SchemaError> {
    var s := SplitAll(Rows(lines));
    if |s.current| > 0 || s.depth != 0 then Err(Unbalanced) else Ok(s.statements)
  }

  method AppendLine(s: Split, raw: string) returns (next: Split)
    ensures next == SplitRow(s, RowOf(raw))
  {
    var stripped := StripLineComment(raw);
    var line := Trim(stripped);
    if Skipped(line) {
      return s;
    }
    var current := Lead(s.current, line);
    var delta := NestingDelta(line);
    var depth := s.depth + delta;
    next := if depth == 0 then Split(s.statements + [current], "", 0) else Split(s.statements, current, depth);
  }

  method SplitStatements(lines: seq<string>) returns (r: Result<seq<string>, SchemaError>)
    ensures r == Statements(lines)
  {
    var s := SplitAll([]);
    ghost var rows := Rows(lines);
    for k := 0 to |lines|
      invariant s == SplitAll(rows[..k])
    {
      assert rows[..k + 1][..k] == rows[..k];
      s := AppendLine(s, lines[k]);
    }
    assert rows[..|lines|] == rows;
    if |s.current| > 0 || s.depth != 0 {
      return Err(Unbalanced);
    }
    return Ok(s.statements);
  }

  /** The rows that reach a statement at all. */
  function Kept(rows: seq<Row>): (kept: seq<Row>)
    ensures forall row <- kept :: row.text != ""
  {
    if rows == [] then [] else
    var before, row := Kept(rows[..|rows| - 1]), rows[|rows| - 1];
    if Skipped(row.text) then before else before + [row]
  }

  function Texts(rows: seq<Row>): (texts: seq<string>)
    ensures |texts| == |rows| && forall i :: 0 <= i < |rows| ==> texts[i] == rows[i].text
  {
    if rows == [] then [] else Texts(rows[..|rows| - 1]) + [rows[|rows| - 1].text]
  }

  function JoinRows(rows: seq<Row>): string {
    Join(Texts(rows))
  }

  function NestingOf(rows: seq<Row>): int {
    if rows == [] then 0 else NestingOf(rows[..|rows| - 1]) + rows[|rows| - 1].delta
  }

  /** The kept rows by statement: finished groups and the open one. */
  datatype Grouping = Grouping(closed: seq<seq<Row>>, open: seq<Row>)

  function GroupStep(g: Grouping, row: Row): Grouping {
    if Skipped(row.text) then g
    else if NestingOf(g.open + [row]) == 0 then Grouping(g.closed + [g.open + [row]], [])
    else Grouping(g.closed, g.open + [row])
  }

  function Groups(rows: seq<Row>): Grouping {
    if rows == [] then Grouping([], []) else GroupStep(Groups(rows[..|rows| - 1]), rows[|rows| - 1])
  }

  function Flat<T>(groups: seq<seq<T>>): seq<T> {
    if groups == [] then [] else Flat(groups[..|groups| - 1]) + groups[|groups| - 1]
  }

  /** Closes at depth zero, and at no line break before. */
  predicate ClosesOnce(group: seq<Row>) {
    NestingOf(group) == 0 && forall k :: 0 < k < |group| ==> NestingOf(group[..k]) != 0
  }

  predicate StaysOpen(group: seq<Row>) {
    forall k :: 0 < k <= |group| ==> NestingOf(group[..k]) != 0
  }

  lemma JoinNext(pieces: seq<string>, piece: string)
    ensures Join(pieces + [piece]) == if pieces == [] then piece else Spaced(Join(pieces), piece)
  {
    assert (pieces + [piece])[..|pieces|] == pieces;
  }

  lemma JoinRow(rows: seq<Row>, row: Row)
    ensures JoinRows(rows + [row]) == if rows == [] then row.text else Spaced(JoinRows(rows), row.text)
  {
    assert Texts(rows + [row]) == Texts(rows) + [row.text];
    JoinNext(Texts(rows), row.text);
  }

  lemma {:induction false} JoinNonempty(rows: seq<Row>)
    requires rows != [] && forall row <- rows :: row.text != ""
    ensures JoinRows(rows) != ""
  {
    var before, last := rows[..|rows| - 1], rows[|rows| - 1];
    assert rows == before + [last];
    JoinRow(before, last);
  }

  /** What the splitter has read is exactly its groups. */
  ghost predicate SplitsInto(s: Split, g: Grouping) {
    && |s.statements| == |g.closed| && (forall i :: 0 <= i < |g.closed| ==> s.statements[i] == JoinRows(g.closed[i]))
    && s.current == JoinRows(g.open) && s.depth == NestingOf(g.open)
    && (forall group <- g.closed :: ClosesOnce(group)) && StaysOpen(g.open)
    && (forall row <- g.open :: row.text != "")
  }

  lemma OpenExtends(open: seq<Row>, row: Row)
    requires StaysOpen(open)
    ensures NestingOf(open + [row]) == NestingOf(open) + row.delta
    ensures if NestingOf(open + [row]) == 0 then ClosesOnce(open + [row]) else StaysOpen(open + [row])
  {
    var longer := open + [row];
    assert longer[..|open|] == open && longer[..|longer|] == longer;
    forall k | 0 < k <= |open| ensures NestingOf(longer[..k]) != 0 {
      assert longer[..k] == open[..k];
    }
  }

  lemma StepSplits(s: Split, g: Grouping, row: Row)
    requires SplitsInto(s, g) && row.text != ""
    ensures var open := g.open + [row];
            && NestingOf(open) == s.depth + row.delta
            && JoinRows(open) == Lead(s.current, row.text)
            && (NestingOf(open) == 0 ==> ClosesOnce(open))
            && (NestingOf(open) != 0 ==> StaysOpen(open))
  {
    OpenExtends(g.open, row);
    JoinRow(g.open, row);
    if g.open != [] {
      JoinNonempty(g.open);
    }
  }

  lemma SplitFollowsGroup(s: Split, g: Grouping, row: Row)
    requires SplitsInto(s, g)
    ensures SplitsInto(SplitRow(s, row), GroupStep(g, row))
  {
    if !Skipped(row.text) {
      StepSplits(s, g, row);
    }
  }

  lemma GroupStepKeepsRows(g: Grouping, row: Row, kept: seq<Row>)
    requires Flat(g.closed) + g.open == kept
    ensures Flat(GroupStep(g, row).closed) + GroupStep(g, row).open ==
            if Skipped(row.text) then kept else kept + [row]
  {
    var open := g.open + [row];
    assert (g.closed + [open])[..|g.closed|] == g.closed;
    assert Flat(g.closed) + open == Flat(g.closed) + g.open + [row];
  }

  /** Statements are the kept rows joined: each closes at depth zero and at no earlier line break. */
  lemma {:induction false} StatementsAreGroups(rows: seq<Row>)
    ensures SplitsInto(SplitAll(rows), Groups(rows))
    ensures Flat(Groups(rows).closed) + Groups(rows).open == Kept(rows)
  {
    if rows != [] {
      var before, row := rows[..|rows| - 1], rows[|rows| - 1];
      StatementsAreGroups(before);
      SplitFollowsGroup(SplitAll(before), Groups(before), row);
      GroupStepKeepsRows(Groups(before), row, Kept(before));
    }
  }

  lemma SpacedAssociates(a: string, b: string, c: string)
    ensures Spaced(Spaced(a, b), c) == Spaced(a, Spaced(b, c))
  {
  }

  lemma {:induction false} JoinConcat(first: seq<string>, second: seq<string>)
    requires first != [] && second != []
    ensures Join(first + second) == Spaced(Join(first), Join(second))
    decreases |second|
  {
    var before, last := second[..|second| - 1], second[|second| - 1];
    assert second == before + [last];
    assert first + second == (first + before) + [last];
    JoinNext(first + before, last);
    JoinNext(before, last);
    if before == [] {
      assert first + before == first;
    } else {
      JoinConcat(first, before);
      SpacedAssociates(Join(first), Join(before), last);
    }
  }

  lemma {:induction false} JoinGroups(groups: seq<seq<string>>, statements: seq<string>)
    requires |statements| == |groups|
    requires forall i :: 0 <= i < |groups| ==> groups[i] != [] && statements[i] == Join(groups[i])
    ensures Join(statements) == Join(Flat(groups))
    decreases |groups|
  {
    if groups != [] {
      var n := |groups| - 1;
      JoinGroups(groups[..n], statements[..n]);
      assert statements == statements[..n] + [statements[n]];
      JoinNext(statements[..n], statements[n]);
      if n > 0 {
        FlatNonempty(groups[..n]);
        JoinConcat(Flat(groups[..n]), groups[n]);
      } else {
        assert Flat(groups) == groups[n];
      }
    }
  }

  function TextGroups(groups: seq<seq<Row>>): (texts: seq<seq<string>>)
    ensures |texts| == |groups| && forall i :: 0 <= i < |groups| ==> texts[i] == Texts(groups[i])
  {
    if groups == [] then [] else TextGroups(groups[..|groups| - 1]) + [Texts(groups[|groups| - 1])]
  }

  lemma {:induction false} TextsOfFlat(groups: seq<seq<Row>>)
    ensures Texts(Flat(groups)) == Flat(TextGroups(groups))
  {
    if groups != [] {
      var n := |groups| - 1;
      TextsOfFlat(groups[..n]);
      TextsConcat(Flat(groups[..n]), groups[n]);
      FlatLast(TextGroups(groups[..n]), Texts(groups[n]));
    }
  }

  lemma TextsConcat(a: seq<Row>, b: seq<Row>)
    ensures Texts(a + b) == Texts(a) + Texts(b)
  {
  }

  lemma FlatLast<T>(groups: seq<seq<T>>, last: seq<T>)
    ensures Flat(groups + [last]) == Flat(groups) + last
  {
    assert (groups + [last])[..|groups|] == groups;
  }

  lemma {:induction false} FlatNonempty<T>(groups: seq<seq<T>>)
    requires groups != [] && forall g <- groups :: g != []
    ensures Flat(groups) != []
  {
    assert groups[|groups| - 1] in groups;
  }

  lemma {:induction false} GroupsNonempty(rows: seq<Row>)
    ensures forall g <- Groups(rows).closed :: g != []
  {
    if rows != [] {
      GroupsNonempty(rows[..|rows| - 1]);
    }
  }

  /** Nothing is lost or moved: joining the statements gives back all nonblank stripped lines. */
  lemma StatementsJoinBack(lines: seq<string>)
    requires Statements(lines).Ok?
    ensures Join(Statements(lines).value) == JoinRows(Kept(Rows(lines)))
  {
    var rows := Rows(lines);
    StatementsAreGroups(rows);
    GroupsNonempty(rows);
    var g := Groups(rows);
    if g.open != [] {
      JoinNonempty(g.open);
    }
    forall i | 0 <= i < |g.closed| ensures g.closed[i] != [] {
      assert g.closed[i] in g.closed;
    }
    JoinGroups(TextGroups(g.closed), Statements(lines).value);
    TextsOfFlat(g.closed);
    assert Flat(g.closed) == Kept(rows);
  }
}
