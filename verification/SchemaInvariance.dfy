/**
 What the comparison of two schemas sees of whitespace. One run of whitespace in one line takes another's
 place; the change is followed through the statement and the block it is part of, up to the verdict.
 */
module SchemaInvariance {
  import opened Wrappers
  import opened SchemaText
  import opened SchemaParity
  import opened SchemaCompare
  import opened SchemaRuns
  import opened SchemaCanonical

  // ---------- One run in the lines of a block ----------

  /** A line, by what stands before and after one run of whitespace in it. */
  datatype Line = Line(before: string, after: string) {
    function With(run: string): string {
      before + run + after
    }
  }

  /** A statement with one more line, unless it is finished or the line is skipped. */
  function Grow(statement: string, line: string, finished: bool): string {
    if finished || Skipped(line) then statement else Spaced(statement, line)
  }

  /** The splitter before each row, and at the end. */
  function Trace(rows: seq<Row>): (trace: seq<Split>)
    ensures |trace| == |rows| + 1 && forall n :: 0 <= n <= |rows| ==> trace[n] == SplitAll(rows[..n])
  {
    if rows == [] then [SplitAll([])] else
    var before := Trace(rows[..|rows| - 1]);
    assert forall n :: 0 <= n < |rows| ==> rows[..|rows| - 1][..n] == rows[..n];
    assert rows[..|rows|] == rows;
    before + [SplitAll(rows)]
  }

  ghost predicate Steps(rows: seq<Row>, trace: seq<Split>) {
    |trace| == |rows| + 1 && forall n :: 0 <= n < |rows| ==> trace[n + 1] == SplitRow(trace[n], rows[n])
  }

  lemma TraceSteps(rows: seq<Row>)
    ensures Steps(rows, Trace(rows)) && Trace(rows)[|rows|] == SplitAll(rows)
  {
    assert rows[..|rows|] == rows;
    forall n | 0 <= n < |rows| ensures Trace(rows)[n + 1] == SplitRow(Trace(rows)[n], rows[n]) {
      assert rows[..n + 1][..n] == rows[..n];
    }
  }

  /**
   What of the statement that row `j` is part of stands after the run once `n` rows are read: `q`, and
   rows until the statement is finished.
   */
  function Tail(rows: seq<Row>, trace: seq<Split>, j: nat, q: string, n: nat): string
    requires j < n <= |rows| && |trace| == |rows| + 1
    decreases n
  {
    if n == j + 1 then q else
    Grow(Tail(rows, trace, j, q, n - 1), rows[n - 1].text, |trace[n - 1].statements| > |trace[j].statements|)
  }

  /** The run reaches no statement from this line. */
  predicate Unread(line: Line, run: string) {
    InLine(line.before, run, line.after).None? || Skipped(Cleaned(line.With(run)))
  }

  /** What stands before and after the run in its statement, unless the run reaches none. */
  function InBody(body: seq<string>, j: nat, line: Line, run: string): Option<(string, string)>
  {
    if j >= |body| || Unread(line, run) then None else
    var (p, q) := InLine(line.before, run, line.after).value;
    var rows := Rows(body);
    var trace := Trace(rows);
    Some((Lead(trace[j].current, p), Tail(rows, trace, j, q, |body|)))
  }

  /** Two splits that differ in one run of statement `m`, whether that is still being read or not. */
  ghost predicate Tracks(s: Split, t: Split, m: nat, from_: string, to: string) {
    && s.depth == t.depth && |s.statements| == |t.statements|
    && if |s.statements| > m then s.current == t.current && OneAt(s.statements, t.statements, m, from_, to)
       else |s.statements| == m && s.statements == t.statements && s.current == from_ && t.current == to
  }

  ghost predicate OneAt(s: seq<string>, t: seq<string>, m: nat, from_: string, to: string) {
    m < |s| && s[m] == from_ && t == s[m := to]
  }

  lemma SpacedAfter(x: string, run: string, y: string, line: string)
    ensures Spaced(x + run + y, line) == x + run + Spaced(y, line)
  {
  }

  lemma OneAtGrows(s: seq<string>, t: seq<string>, m: nat, from_: string, to: string, more: string)
    requires OneAt(s, t, m, from_, to)
    ensures OneAt(s + [more], t + [more], m, from_, to)
  {
  }

  lemma OneAtEnd(s: seq<string>, from_: string, to: string)
    ensures OneAt(s + [from_], s + [to], |s|, from_, to)
  {
  }

  /** One more line for both: it joins the statement with the run while that is open. */
  lemma TracksStep(s: Split, t: Split, m: nat, from_: string, to: string, row: Row)
    requires Tracks(s, t, m, from_, to) && from_ != "" && to != ""
    ensures Tracks(SplitRow(s, row), SplitRow(t, row), m,
                   Grow(from_, row.text, |s.statements| > m), Grow(to, row.text, |s.statements| > m))
    ensures Grow(from_, row.text, |s.statements| > m) != "" && Grow(to, row.text, |s.statements| > m) != ""
  {
    if |s.statements| > m {
      OneAtGrows(s.statements, t.statements, m, from_, to, Lead(s.current, row.text));
    } else {
      OneAtEnd(s.statements, Spaced(from_, row.text), Spaced(to, row.text));
    }
  }

  /** Two lines that nest alike start two statements. */
  lemma TracksFork(s: Split, a: Row, b: Row)
    requires !Skipped(a.text) && !Skipped(b.text) && a.delta == b.delta
    ensures Tracks(SplitRow(s, a), SplitRow(s, b), |s.statements|, Lead(s.current, a.text), Lead(s.current, b.text))
  {
    OneAtEnd(s.statements, Lead(s.current, a.text), Lead(s.current, b.text));
  }

  lemma UnreadAlike(line: Line, run: string, other: string, a: Row, b: Row)
    requires IsGap(run) && IsGap(other) && Unread(line, run)
    requires a == RowOf(line.With(run)) && b == RowOf(line.With(other))
    ensures a == b || (Skipped(a.text) && Skipped(b.text))
  {
    CleanedOver(line.before, run, other, line.after);
    CleanedAlike(line.before, run, other, line.after);
  }

  /** Two rows that differ in one run, and in nothing that splitting looks at. */
  ghost predicate RowsDiffer(a: Row, b: Row, p: string, q: string, run: string, other: string) {
    && a.text == p + run + q && b.text == p + other + q && p != ""
    && !Skipped(a.text) && !Skipped(b.text) && a.delta == b.delta
  }

  lemma ReadAlike(line: Line, run: string, other: string, p: string, q: string, a: Row, b: Row)
    requires IsGap(run) && IsGap(other) && !Unread(line, run) && InLine(line.before, run, line.after) == Some((p, q))
    requires a == RowOf(line.With(run)) && b == RowOf(line.With(other))
    ensures RowsDiffer(a, b, p, q, run, other)
  {
    CleanedOver(line.before, run, other, line.after);
    CleanedAlike(line.before, run, other, line.after);
  }

  lemma LeadReads(s: Split, p: string, run: string, q: string)
    ensures Lead(s.current, p + run + q) == Lead(s.current, p) + run + q
  {
    var start := s.current + " ";
    assert start + (p + run + q) == start + p + run + q;
  }

  /** The same lines, but for the run in line `j`. */
  ghost predicate Respaced(a: seq<string>, b: seq<string>, j: nat, line: Line, run: string, other: string) {
    IsGap(run) && IsGap(other) && j < |a| && a[j] == line.With(run) && b == a[j := line.With(other)]
  }

  /** The rows after row `j` are the same. */
  ghost predicate SameAfter(a: seq<Row>, b: seq<Row>, j: nat) {
    |a| == |b| && forall i :: j < i < |a| ==> a[i] == b[i]
  }

  lemma {:induction false} StepsAlike(a: seq<Row>, b: seq<Row>, s: seq<Split>, t: seq<Split>, j: nat, n: nat)
    requires Steps(a, s) && Steps(b, t) && SameAfter(a, b, j) && j < n <= |a| && s[j + 1] == t[j + 1]
    ensures s[n] == t[n]
    decreases n
  {
    if n > j + 1 {
      StepsAlike(a, b, s, t, j, n - 1);
      assert s[n - 1 + 1] == SplitRow(s[n - 1], a[n - 1]) && t[n - 1 + 1] == SplitRow(t[n - 1], b[n - 1]);
    }
  }

  lemma {:induction false} StepsTrack(a: seq<Row>, b: seq<Row>, s: seq<Split>, t: seq<Split>, j: nat, from_: string,
                                      to: string, n: nat)
    requires Steps(a, s) && Steps(b, t) && SameAfter(a, b, j) && j < n <= |a| && from_ != "" && to != ""
    requires Tracks(s[j + 1], t[j + 1], |s[j].statements|, from_, to)
    ensures Tail(a, s, j, from_, n) != "" && Tail(a, s, j, to, n) != ""
    ensures Tracks(s[n], t[n], |s[j].statements|, Tail(a, s, j, from_, n), Tail(a, s, j, to, n))
    decreases n
  {
    if n > j + 1 {
      StepsTrack(a, b, s, t, j, from_, to, n - 1);
      assert s[n - 1 + 1] == SplitRow(s[n - 1], a[n - 1]) && t[n - 1 + 1] == SplitRow(t[n - 1], b[n - 1]);
      TracksStep(s[n - 1], t[n - 1], |s[j].statements|, Tail(a, s, j, from_, n - 1), Tail(a, s, j, to, n - 1),
        a[n - 1]);
    }
  }

  /** Later lines join the statement behind the run. */
  lemma {:induction false} TailAfter(a: seq<Row>, s: seq<Split>, j: nat, x: string, run: string, q: string, n: nat)
    requires j < n <= |a| && |s| == |a| + 1
    ensures Tail(a, s, j, x + run + q, n) == x + run + Tail(a, s, j, q, n)
    decreases n
  {
    if n > j + 1 {
      TailAfter(a, s, j, x, run, q, n - 1);
      SpacedAfter(x, run, Tail(a, s, j, q, n - 1), a[n - 1].text);
    }
  }

  ghost predicate OneStatement(s: seq<string>, t: seq<string>, from_: string, to: string) {
    exists m: nat :: OneAt(s, t, m, from_, to)
  }

  /** A run that reaches no statement changes nothing; any other changes the one statement it is in. */
  ghost predicate StatementsOver(s: Result<seq<string>, SchemaError>, t: Result<seq<string>, SchemaError>,
                                 at: Option<(string, string)>, run: string, other: string) {
    match at
    case None => s == t
    case Some(around) =>
      if s.Err? then t == s
      else t.Ok? && OneStatement(s.value, t.value, around.0 + run + around.1, around.0 + other + around.1)
  }

  lemma BodyOver(a: seq<string>, b: seq<string>, j: nat, line: Line, run: string, other: string)
    requires Respaced(a, b, j, line, run, other)
    ensures StatementsOver(Statements(a), Statements(b), InBody(a, j, line, run), run, other)
  {
    if Unread(line, run) {
      UnreadBody(a, b, j, line, run, other);
    } else {
      BodyIsRead(a, b, j, line, run, other);
    }
  }

  lemma RowsAlike(a: seq<string>, b: seq<string>, j: nat)
    requires j < |a| == |b| && b == a[j := b[j]]
    ensures SameAfter(Rows(a), Rows(b), j) && Rows(a)[..j] == Rows(b)[..j]
  {
  }

  /** The splitter is the same before row `j`, and steps through the rows. */
  lemma TracesAlike(c: seq<Row>, d: seq<Row>, j: nat)
    requires j < |c| == |d| && c[..j] == d[..j]
    ensures Trace(c)[j] == Trace(d)[j] && Steps(c, Trace(c)) && Steps(d, Trace(d))
    ensures Trace(c)[|c|] == SplitAll(c) && Trace(d)[|d|] == SplitAll(d)
  {
    TraceSteps(c);
    TraceSteps(d);
  }

  lemma UnreadBody(a: seq<string>, b: seq<string>, j: nat, line: Line, run: string, other: string)
    requires Respaced(a, b, j, line, run, other) && Unread(line, run)
    ensures SplitAll(Rows(a)) == SplitAll(Rows(b))
  {
    var c, d := Rows(a), Rows(b);
    RowsAlike(a, b, j);
    TracesAlike(c, d, j);
    UnreadAlike(line, run, other, c[j], d[j]);
    UnreadRows(c, d, Trace(c), Trace(d), j);
  }

  lemma UnreadRows(c: seq<Row>, d: seq<Row>, s: seq<Split>, t: seq<Split>, j: nat)
    requires Steps(c, s) && Steps(d, t) && j < |c| && SameAfter(c, d, j) && s[j] == t[j]
    requires c[j] == d[j] || (Skipped(c[j].text) && Skipped(d[j].text))
    ensures s[|c|] == t[|c|]
  {
    assert s[j + 1] == SplitRow(s[j], c[j]) && t[j + 1] == SplitRow(t[j], d[j]);
    StepsAlike(c, d, s, t, j, |c|);
  }

  lemma BodyIsRead(a: seq<string>, b: seq<string>, j: nat, line: Line, run: string, other: string)
    requires Respaced(a, b, j, line, run, other) && !Unread(line, run)
    ensures StatementsOver(Statements(a), Statements(b), InBody(a, j, line, run), run, other)
  {
    var c, d := Rows(a), Rows(b);
    var (p, q) := InLine(line.before, run, line.after).value;
    RowsAlike(a, b, j);
    TracesAlike(c, d, j);
    ReadAlike(line, run, other, p, q, c[j], d[j]);
    ReadRows(c, d, Trace(c), Trace(d), j, p, q, run, other);
    var x, y := Lead(Trace(c)[j].current, p), Tail(c, Trace(c), j, q, |c|);
    TrackedStatements(SplitAll(c), SplitAll(d), |Trace(c)[j].statements|, x + run + y, x + other + y);
  }

  lemma ReadRows(c: seq<Row>, d: seq<Row>, s: seq<Split>, t: seq<Split>, j: nat, p: string, q: string, run: string,
                 other: string)
    requires Steps(c, s) && Steps(d, t) && j < |c| && SameAfter(c, d, j) && s[j] == t[j]
    requires RowsDiffer(c[j], d[j], p, q, run, other)
    ensures var x, y := Lead(s[j].current, p), Tail(c, s, j, q, |c|);
            x != "" && Tracks(s[|c|], t[|c|], |s[j].statements|, x + run + y, x + other + y)
  {
    var x := Lead(s[j].current, p);
    TracksFork(s[j], c[j], d[j]);
    LeadReads(s[j], p, run, q);
    LeadReads(s[j], p, other, q);
    StepsTrack(c, d, s, t, j, x + run + q, x + other + q, |c|);
    TailAfter(c, s, j, x, run, q, |c|);
    TailAfter(c, s, j, x, other, q, |c|);
  }

  lemma TrackedStatements(s: Split, t: Split, m: nat, from_: string, to: string)
    requires Tracks(s, t, m, from_, to) && from_ != "" && to != ""
    ensures |s.current| > 0 || s.depth != 0 <==> |t.current| > 0 || t.depth != 0
    ensures |s.current| == 0 ==> OneStatement(s.statements, t.statements, from_, to)
  {
    if |s.current| == 0 {
      assert OneAt(s.statements, t.statements, m, from_, to);
    }
  }

  // ---------- One run in a file ----------

  /** Where in its statement a change of a line stands, for a body and a line of it. */
  type Spot = (seq<string>, nat) -> Option<(string, string)>

  /** What stands before and after the change of line `k` in its statement, with the file read from line `i` on. */
  function PlaceFrom(lines: seq<string>, i: nat, k: nat, g: Syntax, place: Spot): Option<(string, string)>
    requires i <= |lines|
    decreases |lines| - i
  {
    if i == |lines| || k < i then None
    else if g.opens(lines[i]).None? then PlaceFrom(lines, i + 1, k, g, place) else
    var end := ClosingLine(lines, i + 1, g);
    if i < k < end then place(lines[i + 1..end], k - i - 1)
    else if end == |lines| then None else PlaceFrom(lines, end + 1, k, g, place)
  }

  ghost predicate OneBlock(a: seq<Block>, b: seq<Block>, from_: string, to: string) {
    exists i: nat :: BlockDiffers(a, b, i, from_, to)
  }

  ghost predicate BlockDiffers(a: seq<Block>, b: seq<Block>, i: nat, from_: string, to: string) {
    && |a| == |b| && i < |a| && b == a[i := b[i]] && a[i].header == b[i].header
    && OneStatement(a[i].statements, b[i].statements, from_, to)
  }

  /** A change that reaches no statement changes nothing; any other changes one statement of one block. */
  ghost predicate BlocksOver(a: Result<seq<Block>, SchemaError>, b: Result<seq<Block>, SchemaError>,
                             at: Option<(string, string)>, run: string, other: string) {
    match at
    case None => a == b
    case Some(around) =>
      if a.Err? then b == a
      else b.Ok? && OneBlock(a.value, b.value, around.0 + run + around.1, around.0 + other + around.1)
  }

  lemma AfterSame(block: Result<seq<Block>, SchemaError>, a: Result<seq<Block>, SchemaError>,
                  b: Result<seq<Block>, SchemaError>, at: Option<(string, string)>, run: string, other: string)
    requires BlocksOver(a, b, at, run, other)
    ensures BlocksOver(After(block, a), After(block, b), at, run, other)
  {
    if block.Ok? && a.Ok? && at.Some? {
      var from_, to := at.value.0 + run + at.value.1, at.value.0 + other + at.value.1;
      var i: nat :| BlockDiffers(a.value, b.value, i, from_, to);
      assert BlockDiffers(block.value + a.value, block.value + b.value, |block.value| + i, from_, to);
    }
  }

  lemma AfterChanged(header: Header, s: Result<seq<string>, SchemaError>, t: Result<seq<string>, SchemaError>,
                     rest: Result<seq<Block>, SchemaError>, at: Option<(string, string)>, run: string, other: string)
    requires StatementsOver(s, t, at, run, other)
    ensures BlocksOver(After(BlockOf(header, s), rest), After(BlockOf(header, t), rest), at, run, other)
  {
    if s.Ok? && rest.Ok? && at.Some? {
      var from_, to := at.value.0 + run + at.value.1, at.value.0 + other + at.value.1;
      assert BlockDiffers([Block(header, s.value)] + rest.value, [Block(header, t.value)] + rest.value, 0, from_, to);
    }
  }

  /** Line `k` is changed: it opens and closes blocks as before, and a body it is in changes in one statement. */
  ghost predicate Changed(a: seq<string>, b: seq<string>, k: nat, g: Syntax, place: Spot, run: string, other: string) {
    && k < |a| == |b| && b == a[k := b[k]]
    && g.opens(a[k]) == g.opens(b[k]) && g.closes(a[k]) == g.closes(b[k])
    && forall lo, hi :: 0 <= lo <= k < hi <= |a| ==>
         StatementsOver(g.splits(a[lo..hi]), g.splits(b[lo..hi]), place(a[lo..hi], k - lo), run, other)
  }

  lemma {:induction false} ClosingOver(a: seq<string>, b: seq<string>, i: nat, g: Syntax)
    requires i <= |a| == |b| && forall j :: i <= j < |a| ==> g.closes(a[j]) == g.closes(b[j])
    ensures ClosingLine(a, i, g) == ClosingLine(b, i, g)
    decreases |a| - i
  {
    if i < |a| && !g.closes(a[i]) {
      ClosingOver(a, b, i + 1, g);
    }
  }

  lemma {:induction false} FileOver(a: seq<string>, b: seq<string>, i: nat, k: nat, g: Syntax, place: Spot, run: string,
                                    other: string)
    requires Changed(a, b, k, g, place, run, other) && i <= |a|
    ensures BlocksOver(BlocksFrom(a, i, g), BlocksFrom(b, i, g), PlaceFrom(a, i, k, g, place), run, other)
    decreases |a| - i
  {
    if i < |a| {
      ClosingOver(a, b, i + 1, g);
      var end := ClosingLine(a, i + 1, g);
      if g.opens(a[i]).None? {
        FileOver(a, b, i + 1, k, g, place, run, other);
      } else if end < |a| {
        FileOver(a, b, end + 1, k, g, place, run, other);
        BlockOver(a, b, i, end, k, g, place, run, other);
      }
    }
  }

  /** A block, with the change in its body or elsewhere. */
  lemma BlockOver(a: seq<string>, b: seq<string>, i: nat, end: nat, k: nat, g: Syntax, place: Spot, run: string,
                  other: string)
    requires Changed(a, b, k, g, place, run, other) && i < end < |a| && g.opens(a[i]).Some?
    requires ClosingLine(a, i + 1, g) == ClosingLine(b, i + 1, g) == end
    requires BlocksOver(BlocksFrom(a, end + 1, g), BlocksFrom(b, end + 1, g), PlaceFrom(a, end + 1, k, g, place), run,
                        other)
    ensures BlocksOver(BlocksFrom(a, i, g), BlocksFrom(b, i, g), PlaceFrom(a, i, k, g, place), run, other)
  {
    var c, d := a[i + 1..end], b[i + 1..end];
    var header := g.opens(a[i]).value;
    if i < k < end {
      AfterChanged(header, g.splits(c), g.splits(d), BlocksFrom(a, end + 1, g), place(c, k - i - 1), run, other);
    } else {
      assert c == d;
      AfterSame(BlockOf(header, g.splits(c)), BlocksFrom(a, end + 1, g), BlocksFrom(b, end + 1, g),
        PlaceFrom(a, end + 1, k, g, place), run, other);
    }
  }
}
