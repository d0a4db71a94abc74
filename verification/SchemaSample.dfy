/**
 A file whose statement carries an open quote from one line to the next. The run of whitespace in its second
 line is outside quotes on that line alone, but not in the statement, and the comparison sees it.
 */
module SchemaSample {
  import opened Wrappers
  import opened SchemaText
  import opened SchemaParity
  import opened SchemaCompare
  import opened SchemaRuns
  import opened SchemaCanonical
  import opened SchemaInvariance
  import opened SchemaVerdict

  // ---------- Statements without native types ----------

  lemma {:induction false} NothingToTake(text: string, what: string, i: nat)
    requires what != "" && what[0] !in text && i <= |text|
    ensures Without(text, what, i) == text[i..]
    decreases |text| - i
  {
    if i < |text| {
      assert text[i] in text;
      NothingToTake(text, what, i + 1);
    }
  }

  lemma NoNatives(text: string)
    requires '@' !in text
    ensures Natives(text) == [] && Bare(text) == text
  {
    forall k: nat | k < |text| ensures NativeReach(text, k) == k {
      assert text[k] in text;
    }
    ReadNothing(text, 0, |text|, NativeReach);
    NothingToTake(text, AllowedNative(), 0);
    assert text[0..] == text;
  }

  /** A statement that starts with no word and has no native type is the same in both dialects. */
  lemma PlainIsCanonical(text: string, dialect: Dialect)
    requires '@' !in text && text != "" && !IsWord(text[0])
    ensures Canonical(text, dialect) == Ok(Normalized(text))
  {
    NoNatives(text);
    assert First(text, 0, NotWord) == 0;
  }

  /** Where quotes are closed at the end of earlier lines, a run outside quotes on its own line is free. */
  lemma ClosedQuotesAreFree(current: string, p: string, y: string)
    requires ScanOf(current).Open() && ScanOf(p).Open() && '@' !in current && '@' !in p
    ensures Loose(Lead(current, p), y)
  {
    var x := Lead(current, p);
    if current != "" {
      GapScans(current, " ");
      SameOnward("", current + " ", p);
      assert "" + p == p;
    }
    NoNatives(x);
  }

  // ---------- A file of one statement ----------

  lemma OneBlockFile(lines: seq<string>, g: Syntax, header: Header, statement: string)
    requires |lines| == 4 && g.opens(lines[0]) == Some(header) && g.closes(lines[3])
    requires !g.closes(lines[1]) && !g.closes(lines[2]) && g.splits(lines[1..3]) == Ok([statement])
    ensures BlocksFrom(lines, 0, g) == Ok([Block(header, [statement])])
  {
    assert ClosingLine(lines, 1, g) == 3 by {
      assert ClosingLine(lines, 2, g) == ClosingLine(lines, 3, g) == 3;
    }
    assert BlocksFrom(lines, 4, g) == Ok([]);
    assert [Block(header, [statement])] + [] == [Block(header, [statement])];
  }

  lemma OneBlockCatalog(header: Header, statement: string, one: Canonicalizer)
    requires one(statement).Ok?
    ensures CatalogOf([Block(header, [statement])], one) == Ok(map[header := [one(statement).value]])
  {
    var blocks, statements := [Block(header, [statement])], [statement];
    assert blocks[..0] == [] && statements[..0] == [];
    assert CanonicalAll(statements[..0], one) == Ok([]) && CatalogOf(blocks[..0], one) == Ok(map[]);
    assert [] + [one(statement).value] == [one(statement).value];
  }

  lemma TwoRows(a: Row, b: Row)
    requires !Skipped(a.text) && !Skipped(b.text) && a.delta == 1 && b.delta == -1
    ensures SplitAll([a, b]) == Split([Spaced(a.text, b.text)], "", 0)
  {
    assert [a, b][..1] == [a] && [a][..0] == [];
    assert SplitAll([]) == Split([], "", 0);
    assert SplitAll([a]) == Split([], a.text, 1);
  }

  lemma TwoLines(first: string, second: string)
    requires RowOf(first) == Row(first, 1) && RowOf(second) == Row(second, -1) && !Skipped(first) && !Skipped(second)
    ensures Statements([first, second]) == Ok([Spaced(first, second)])
  {
    assert Rows([first, second]) == [RowOf(first), RowOf(second)];
    TwoRows(RowOf(first), RowOf(second));
  }

  /** A trimmed line without a slash is clean. */
  lemma AlreadyClean(line: string)
    requires Trimmed(line) && '/' !in line
    ensures Cleaned(line) == line
  {
    forall i: nat | i < |line| ensures !CommentAt(line, i) {
      assert line[i] in line;
    }
    StrippedIsUnique(line, line, StripLine(line));
    TrimKeepsTrimmed(line);
  }

  // ---------- The sample ----------

  function FirstLine(): string {
    ['('] + ['"']
  }

  function SecondLine(): Line {
    Line(['a'], ['b'] + [')'])
  }

  function Sample(run: string): seq<string> {
    ["model A {", FirstLine(), SecondLine().With(run), "}"]
  }

  lemma FirstLineReads(line: string)
    requires line == FirstLine()
    ensures RowOf(line) == Row(line, 1) && ScanOf(line) == Scan(Some('"'), false) && !Skipped(line) && !Closes(line)
  {
    assert "" + ['('] == ['('];
    NestingNext("", '(');
    ScanNext("", '(');
    NestingNext(['('], '"');
    ScanNext(['('], '"');
    AlreadyClean(line);
    TrimKeepsTrimmed(line);
  }

  lemma SecondLineReads(line: string, run: string)
    requires IsGap(run) && line == SecondLine().With(run) && '/' !in run
    ensures RowOf(line) == Row(line, -1) && !Skipped(line) && !Closes(line)
  {
    var start := ['a'] + run;
    assert "" + ['a'] == ['a'];
    NestingNext("", 'a');
    ScanNext("", 'a');
    GapScans(['a'], run);
    NestingNext(start, 'b');
    ScanNext(start, 'b');
    NestingNext(start + ['b'], ')');
    assert line == start + ['b'] + [')'];
    assert line[0] == 'a' && line[|line| - 1] == ')';
    forall c <- line ensures c != '/' {
      assert c in start || c in ['b'] + [')'];
    }
    assert Trimmed(line);
    assert '/' !in line;
    AlreadyClean(line);
    TrimKeepsTrimmed(line);
  }

  lemma HeaderBody(text: string, body: string)
    requires text == "model A {" && body == "model A"
    ensures BodyOf(Trim(text)) == Some(body)
  {
    TrimKeepsTrimmed(text);
    assert text[..8] == body + " ";
    TrimEndOver(body, " ");
  }

  lemma HeaderReads()
    ensures HeaderOf("model A {") == Some(Header(Model, "A"))
  {
    var body := "model A";
    HeaderBody("model A {", body);
    assert body[5..] == " A";
    assert TrimStart(" A") == "A" by {
      assert " A"[1..] == "A";
    }
    assert Keyword(Model) == "model" && "model" <= body;
  }

  lemma ClosingReads()
    ensures Closes("}")
  {
    TrimKeepsTrimmed("}");
  }

  function Statement(run: string): string {
    Spaced(FirstLine(), SecondLine().With(run))
  }

  lemma StatementIsPlain(run: string)
    requires '@' !in run
    ensures '@' !in Statement(run) && !IsWord(Statement(run)[0])
  {
  }

  lemma SampleSplits(run: string, lines: seq<string>, g: Syntax)
    requires IsGap(run) && '/' !in run && lines == Sample(run) && g == Prisma()
    ensures g.opens(lines[0]) == Some(Header(Model, "A")) && g.closes(lines[3])
    ensures !g.closes(lines[1]) && !g.closes(lines[2]) && g.splits(lines[1..3]) == Ok([Statement(run)])
  {
    HeaderReads();
    ClosingReads();
    FirstLineReads(lines[1]);
    SecondLineReads(lines[2], run);
    TwoLines(lines[1], lines[2]);
    assert lines[1..3] == [lines[1], lines[2]];
  }

  lemma SampleReads(run: string, dialect: Dialect)
    requires IsGap(run) && '/' !in run && '@' !in run
    ensures Parse(Sample(run), dialect) == Ok(map[Header(Model, "A") := [Normalized(Statement(run))]])
  {
    SampleSplits(run, Sample(run), Prisma());
    OneBlockFile(Sample(run), Prisma(), Header(Model, "A"), Statement(run));
    StatementIsPlain(run);
    PlainIsCanonical(Statement(run), dialect);
    OneBlockCatalog(Header(Model, "A"), Statement(run), For(dialect));
  }

  /** Outside quotes on its own line, but not in the statement. */
  lemma StatementsDiffer(run: string, other: string)
    requires IsGap(run) && IsGap(other) && run != other
    ensures Normalized(Statement(run)) != Normalized(Statement(other))
  {
    var x, y := FirstLine() + " " + ['a'], ['b'] + [')'];
    FirstLineReads(FirstLine());
    GapScans(FirstLine(), " ");
    ScanNext(FirstLine() + " ", 'a');
    assert Statement(run) == x + run + y && Statement(other) == x + other + y;
    NormalizedOver(x, run, other, y);
  }

  /**
   The two files differ in one run of whitespace that is outside quotes on its line, and yet they say
   different things: the first line leaves a quote open.
   */
  lemma QuotedRunIsSeen()
    ensures Agree(Sample(" "), Sample(" ")) && !Agree(Sample("  "), Sample(" "))
    ensures ScanOf(SecondLine().before).Open()
  {
    SampleReads(" ", Sqlite);
    SampleReads(" ", Postgres);
    SampleReads("  ", Sqlite);
    StatementsDiffer("  ", " ");
    assert "" + ['a'] == ['a'];
    ScanNext("", 'a');
    OneEntryDiffers(Header(Model, "A"), Normalized(Statement("  ")), Normalized(Statement(" ")));
  }

  lemma OneEntryDiffers(header: Header, a: string, b: string)
    ensures SameCatalogs(map[header := [a]], map[header := [b]]) <==> a == b
  {
    var c, d := map[header := [a]], map[header := [b]];
    assert header in c && header in d && c.Keys == {header} == d.Keys;
    assert a in c[header] && b in d[header];
  }
}
