/**
 Order does not matter: blocks may stand in any order in a file, and statements in any order in a block,
 without a change of the verdict.
 */
module SchemaOrder {
  import opened Wrappers
  import opened SchemaText
  import opened SchemaParity
  import opened SchemaCompare
  import opened SchemaVerdict

  // ---------- Parts in any order ----------

  /** What is read from some parts, one after the other. */
  function Gathered<T>(parts: seq<seq<string>>, read: seq<string> -> seq<T>): seq<T> {
    if parts == [] then [] else Gathered(parts[..|parts| - 1], read) + read(parts[|parts| - 1])
  }

  lemma {:induction false} GatheredConcat<T>(a: seq<seq<string>>, b: seq<seq<string>>, read: seq<string> -> seq<T>)
    ensures Gathered(a + b, read) == Gathered(a, read) + Gathered(b, read)
    decreases |b|
  {
    if b == [] {
      assert a + b == a;
    } else {
      var n := |b| - 1;
      assert (a + b)[..|a + b| - 1] == a + b[..n];
      GatheredConcat(a, b[..n], read);
    }
  }

  lemma GatheredOne<T>(part: seq<string>, read: seq<string> -> seq<T>)
    ensures Gathered([part], read) == read(part)
  {
    assert [part][..0] == [];
  }

  lemma TakeOut<T>(before: seq<T>, last: T, left: seq<T>, right: seq<T>)
    requires multiset(before + [last]) == multiset(left + [last] + right)
    ensures multiset(before) == multiset(left + right)
  {
    assert multiset(before) + multiset{last} == multiset(left + right) + multiset{last} by {
      assert multiset(left + [last] + right) == multiset(left) + multiset{last} + multiset(right);
    }
    assert multiset(before) == multiset(before) + multiset{last} - multiset{last};
  }

  lemma GatheredAround<T>(left: seq<seq<string>>, last: seq<string>, right: seq<seq<string>>,
                          read: seq<string> -> seq<T>)
    ensures multiset(Gathered(left + [last] + right, read)) ==
            multiset(Gathered(left + right, read)) + multiset(read(last))
  {
    GatheredConcat(left, right, read);
    GatheredConcat(left + [last], right, read);
    GatheredConcat(left, [last], read);
    GatheredOne(last, read);
  }

  lemma Locate<T>(s: seq<T>, x: T) returns (left: seq<T>, right: seq<T>)
    requires x in s
    ensures s == left + [x] + right
  {
    var i :| 0 <= i < |s| && s[i] == x;
    left, right := s[..i], s[i + 1..];
  }

  /** The same parts in another order give the same things in another order. */
  lemma {:induction false} GatheredPermutes<T>(parts: seq<seq<string>>, shuffled: seq<seq<string>>,
                                               read: seq<string> -> seq<T>)
    requires multiset(parts) == multiset(shuffled)
    ensures multiset(Gathered(parts, read)) == multiset(Gathered(shuffled, read))
    decreases |parts|
  {
    if parts == [] {
      assert |multiset(shuffled)| == 0;
    } else {
      var before, last := parts[..|parts| - 1], parts[|parts| - 1];
      assert parts == before + [last];
      assert last in multiset(shuffled);
      var left, right := Locate(shuffled, last);
      TakeOut(before, last, left, right);
      GatheredPermutes(before, left + right, read);
      GatheredAround(left, last, right, read);
    }
  }

  // ---------- Blocks ----------

  lemma {:induction false} ClosingShift(a: seq<string>, b: seq<string>, j: nat, g: Syntax)
    requires j <= |b|
    ensures ClosingLine(a + b, |a| + j, g) == |a| + ClosingLine(b, j, g)
    decreases |b| - j
  {
    if j < |b| && !g.closes(b[j]) {
      ClosingShift(a, b, j + 1, g);
    }
  }

  lemma {:induction false} BlocksShift(a: seq<string>, b: seq<string>, j: nat, g: Syntax)
    requires j <= |b|
    ensures BlocksFrom(a + b, |a| + j, g) == BlocksFrom(b, j, g)
    decreases |b| - j
  {
    if j < |b| {
      if g.opens(b[j]).None? {
        BlocksShift(a, b, j + 1, g);
      } else {
        if ClosingLine(b, j + 1, g) < |b| {
          BlocksShift(a, b, ClosingLine(b, j + 1, g) + 1, g);
        }
        BlockShift(a, b, j, g);
      }
    }
  }

  lemma BlockShift(a: seq<string>, b: seq<string>, j: nat, g: Syntax)
    requires j < |b| && g.opens(b[j]).Some?
    requires var end := ClosingLine(b, j + 1, g);
             end < |b| ==> BlocksFrom(a + b, |a| + end + 1, g) == BlocksFrom(b, end + 1, g)
    ensures BlocksFrom(a + b, |a| + j, g) == BlocksFrom(b, j, g)
  {
    ClosingShift(a, b, j + 1, g);
    var end := ClosingLine(b, j + 1, g);
    assert (a + b)[|a| + j + 1..|a| + end] == b[j + 1..end];
  }

  lemma {:induction false} ClosingWithin(a: seq<string>, b: seq<string>, i: nat, g: Syntax)
    requires i <= |a| && ClosingLine(a, i, g) < |a|
    ensures ClosingLine(a + b, i, g) == ClosingLine(a, i, g)
    decreases |a| - i
  {
    if !g.closes(a[i]) {
      ClosingWithin(a, b, i + 1, g);
    }
  }

  /** A file that reads to its end leaves the reader outside any block. */
  lemma {:induction false} BlocksConcat(a: seq<string>, b: seq<string>, i: nat, g: Syntax)
    requires i <= |a| && BlocksFrom(a, i, g).Ok?
    ensures BlocksFrom(a + b, i, g) == After(BlocksFrom(a, i, g), BlocksFrom(b, 0, g))
    decreases |a| - i
  {
    if i == |a| {
      BlocksShift(a, b, 0, g);
      AfterNothing(BlocksFrom(b, 0, g));
    } else if g.opens(a[i]).None? {
      BlocksConcat(a, b, i + 1, g);
    } else {
      var end := ClosingLine(a, i + 1, g);
      ClosingWithin(a, b, i + 1, g);
      assert (a + b)[i + 1..end] == a[i + 1..end];
      BlocksConcat(a, b, end + 1, g);
      AfterThen(BlockOf(g.opens(a[i]).value, g.splits(a[i + 1..end])).value, BlocksFrom(a, end + 1, g).value,
        BlocksFrom(b, 0, g));
    }
  }

  /** The blocks of a part that reads to its end. */
  function PartReader(g: Syntax): seq<string> -> seq<Block> {
    part => if BlocksFrom(part, 0, g).Ok? then BlocksFrom(part, 0, g).value else []
  }

  lemma {:induction false} PartsRead(parts: seq<seq<string>>, g: Syntax)
    requires forall part <- parts :: BlocksFrom(part, 0, g).Ok?
    ensures BlocksFrom(Flat(parts), 0, g) == Ok(Gathered(parts, PartReader(g)))
  {
    if parts != [] {
      var n := |parts| - 1;
      assert parts[n] in parts;
      PartsRead(parts[..n], g);
      BlocksConcat(Flat(parts[..n]), parts[n], 0, g);
    }
  }

  /** A file is cut into parts that each read to their end; put together in another order, they say the same. */
  lemma BlocksMayMove(parts: seq<seq<string>>, shuffled: seq<seq<string>>, dialect: Dialect)
    requires multiset(parts) == multiset(shuffled)
    requires forall part <- parts :: BlocksFrom(part, 0, Prisma()).Ok?
    ensures Parse(Flat(parts), dialect).Ok? <==> Parse(Flat(shuffled), dialect).Ok?
    ensures Parse(Flat(parts), dialect).Ok? ==> Parse(Flat(shuffled), dialect) == Parse(Flat(parts), dialect)
  {
    var g := Prisma();
    SameMembers(parts, shuffled);
    PartsRead(parts, g);
    PartsRead(shuffled, g);
    GatheredPermutes(parts, shuffled, PartReader(g));
    EitherOrder(Gathered(parts, PartReader(g)), Gathered(shuffled, PartReader(g)), For(dialect));
  }

  lemma EitherOrder(blocks: seq<Block>, shuffled: seq<Block>, one: Canonicalizer)
    requires multiset(blocks) == multiset(shuffled)
    ensures CatalogOf(blocks, one).Ok? <==> CatalogOf(shuffled, one).Ok?
    ensures CatalogOf(blocks, one).Ok? ==> CatalogOf(shuffled, one) == CatalogOf(blocks, one)
  {
    if CatalogOf(blocks, one).Ok? {
      BlockOrderIrrelevant(blocks, shuffled, one);
    } else if CatalogOf(shuffled, one).Ok? {
      BlockOrderIrrelevant(shuffled, blocks, one);
    }
  }

  /** Moving blocks never changes the verdict, in either file. */
  lemma BlockOrderAgrees(parts: seq<seq<string>>, shuffled: seq<seq<string>>, twin: seq<string>)
    requires multiset(parts) == multiset(shuffled)
    requires forall part <- parts :: BlocksFrom(part, 0, Prisma()).Ok?
    ensures Agree(Flat(parts), twin) == Agree(Flat(shuffled), twin)
    ensures Agree(twin, Flat(parts)) == Agree(twin, Flat(shuffled))
  {
    BlocksMayMove(parts, shuffled, Sqlite);
    BlocksMayMove(parts, shuffled, Postgres);
  }

  // ---------- Statements ----------

  lemma {:induction false} SplitConcat(a: seq<Row>, b: seq<Row>)
    requires SplitAll(a).current == "" && SplitAll(a).depth == 0
    ensures SplitAll(a + b) == SplitAll(b).(statements := SplitAll(a).statements + SplitAll(b).statements)
    decreases |b|
  {
    if b == [] {
      assert a + b == a;
      assert SplitAll(a).statements + [] == SplitAll(a).statements;
    } else {
      var n := |b| - 1;
      assert (a + b)[..|a + b| - 1] == a + b[..n];
      SplitConcat(a, b[..n]);
      RowAfter(SplitAll(a).statements, SplitAll(b[..n]), b[n]);
    }
  }

  lemma RowAfter(before: seq<string>, s: Split, row: Row)
    ensures SplitRow(s.(statements := before + s.statements), row) ==
            SplitRow(s, row).(statements := before + SplitRow(s, row).statements)
  {
    assert before + s.statements + [Lead(s.current, row.text)] == before + (s.statements + [Lead(s.current, row.text)]);
  }

  lemma {:induction false} RowsConcat(a: seq<string>, b: seq<string>)
    ensures Rows(a + b) == Rows(a) + Rows(b)
    decreases |b|
  {
    if b == [] {
      assert a + b == a;
    } else {
      var n := |b| - 1;
      assert (a + b)[..|a + b| - 1] == a + b[..n];
      RowsConcat(a, b[..n]);
    }
  }

  function StatementReader(): seq<string> -> seq<string> {
    part => if Statements(part).Ok? then Statements(part).value else []
  }

  lemma StatementsConcat(a: seq<string>, b: seq<string>)
    requires Statements(a).Ok? && Statements(b).Ok?
    ensures Statements(a + b) == Ok(Statements(a).value + Statements(b).value)
  {
    RowsConcat(a, b);
    SplitConcat(Rows(a), Rows(b));
  }

  lemma {:induction false} StatementsRead(parts: seq<seq<string>>)
    requires forall part <- parts :: Statements(part).Ok?
    ensures Statements(Flat(parts)) == Ok(Gathered(parts, StatementReader()))
  {
    if parts != [] {
      var n := |parts| - 1;
      assert parts[n] in parts;
      StatementsRead(parts[..n]);
      StatementsConcat(Flat(parts[..n]), parts[n]);
    }
  }

  /** One block, and what follows it. */
  lemma {:induction false} BlockReads(open: string, body: seq<string>, close: string, rest: seq<string>, g: Syntax)
    requires g.opens(open).Some? && g.closes(close) && forall line <- body :: !g.closes(line)
    ensures BlocksFrom([open] + body + [close] + rest, 0, g) ==
            After(BlockOf(g.opens(open).value, g.splits(body)), BlocksFrom(rest, 0, g))
  {
    var start := [open] + body + [close];
    var lines := start + rest;
    assert lines[0] == open && lines[|body| + 1] == close && lines[1..|body| + 1] == body;
    ClosingIs(lines, 1, |body| + 1, g);
    BlocksShift(start, rest, 0, g);
  }

  lemma {:induction false} ClosingIs(lines: seq<string>, i: nat, end: nat, g: Syntax)
    requires i <= end < |lines| && g.closes(lines[end]) && forall j :: i <= j < end ==> !g.closes(lines[j])
    ensures ClosingLine(lines, i, g) == end
    decreases end - i
  {
    if i < end {
      ClosingIs(lines, i + 1, end, g);
    }
  }

  /** A file with one block's body put in. */
  function File(before: seq<string>, open: string, body: seq<string>, close: string, rest: seq<string>): seq<string> {
    before + ([open] + body + [close] + rest)
  }

  lemma FileReads(before: seq<string>, open: string, body: seq<string>, close: string, rest: seq<string>, g: Syntax)
    requires BlocksFrom(before, 0, g).Ok? && g.opens(open).Some? && g.closes(close)
    requires forall line <- body :: !g.closes(line)
    ensures BlocksFrom(File(before, open, body, close, rest), 0, g) ==
            After(BlocksFrom(before, 0, g), After(BlockOf(g.opens(open).value, g.splits(body)), BlocksFrom(rest, 0, g)))
  {
    BlocksConcat(before, [open] + body + [close] + rest, 0, g);
    BlockReads(open, body, close, rest, g);
  }

  /** Catalogs that the comparison cannot tell apart. */
  ghost predicate Alike(a: Result<Catalog, SchemaError>, b: Result<Catalog, SchemaError>) {
    (a.Ok? <==> b.Ok?) && (a.Ok? ==> SameCatalogs(a.value, b.value))
  }

  lemma StatementsMayMove(a: seq<Block>, b: seq<Block>, i: nat, one: Canonicalizer)
    requires Restated(a, b, i) && multiset(a[i].statements) == multiset(b[i].statements)
    ensures Alike(CatalogOf(a, one), CatalogOf(b, one))
  {
    if CatalogOf(a, one).Ok? {
      KnownMoves(a, b, i, one);
    } else if CatalogOf(b, one).Ok? {
      KnownMoves(b, a, i, one);
    }
  }

  lemma KnownMoves(a: seq<Block>, b: seq<Block>, i: nat, one: Canonicalizer)
    requires Restated(a, b, i) && multiset(a[i].statements) == multiset(b[i].statements) && CatalogOf(a, one).Ok?
    ensures CatalogOf(b, one).Ok? && SameCatalogs(CatalogOf(a, one).value, CatalogOf(b, one).value)
  {
    CatalogKnown(a, one);
    StatementOrderIrrelevant(a[i].statements, b[i].statements, one);
    CatalogChanged(a, b, i, one);
  }

  /** The statements of a block are cut into parts, each whole; put together in another order, they say the same. */
  lemma StatementOrderAlike(before: seq<string>, open: string, parts: seq<seq<string>>, shuffled: seq<seq<string>>,
                            close: string, rest: seq<string>, dialect: Dialect)
    requires BlocksFrom(before, 0, Prisma()).Ok? && HeaderOf(open).Some? && Closes(close)
    requires multiset(parts) == multiset(shuffled)
    requires forall part <- parts :: Statements(part).Ok? && forall line <- part :: !Closes(line)
    ensures Alike(Parse(File(before, open, Flat(parts), close, rest), dialect),
                  Parse(File(before, open, Flat(shuffled), close, rest), dialect))
  {
    var g, header := Prisma(), HeaderOf(open).value;
    SameMembers(parts, shuffled);
    FlatOpen(parts, g);
    FlatOpen(shuffled, g);
    StatementsRead(parts);
    StatementsRead(shuffled);
    GatheredPermutes(parts, shuffled, StatementReader());
    FileReads(before, open, Flat(parts), close, rest, g);
    FileReads(before, open, Flat(shuffled), close, rest, g);
    MovedWithin(BlocksFrom(before, 0, g).value, header, Gathered(parts, StatementReader()),
      Gathered(shuffled, StatementReader()), BlocksFrom(rest, 0, g), For(dialect));
  }

  lemma {:induction false} FlatOpen(parts: seq<seq<string>>, g: Syntax)
    requires forall part <- parts, line <- part :: !g.closes(line)
    ensures forall line <- Flat(parts) :: !g.closes(line)
  {
    if parts != [] {
      assert parts[|parts| - 1] in parts;
      FlatOpen(parts[..|parts| - 1], g);
    }
  }

  lemma MovedWithin(before: seq<Block>, header: Header, s: seq<string>, t: seq<string>,
                    rest: Result<seq<Block>, SchemaError>, one: Canonicalizer)
    requires multiset(s) == multiset(t)
    ensures Alike(CatalogFrom(After(Ok(before), After(BlockOf(header, Ok(s)), rest)), one),
                  CatalogFrom(After(Ok(before), After(BlockOf(header, Ok(t)), rest)), one))
  {
    if rest.Ok? {
      var a, b := before + ([Block(header, s)] + rest.value), before + ([Block(header, t)] + rest.value);
      assert b == a[|before| := Block(header, t)];
      StatementsMayMove(a, b, |before|, one);
    }
  }

  lemma AlikeAgree(a: Catalog, b: Catalog, c: Catalog)
    requires SameCatalogs(a, b)
    ensures SameCatalogs(a, c) == SameCatalogs(b, c) && SameCatalogs(c, a) == SameCatalogs(c, b)
  {
  }

  /** Moving statements never changes the verdict, in either file. */
  lemma StatementOrderAgrees(before: seq<string>, open: string, parts: seq<seq<string>>, shuffled: seq<seq<string>>,
                             close: string, rest: seq<string>, twin: seq<string>)
    requires BlocksFrom(before, 0, Prisma()).Ok? && HeaderOf(open).Some? && Closes(close)
    requires multiset(parts) == multiset(shuffled)
    requires forall part <- parts :: Statements(part).Ok? && forall line <- part :: !Closes(line)
    ensures var a, b := File(before, open, Flat(parts), close, rest), File(before, open, Flat(shuffled), close, rest);
            Agree(a, twin) == Agree(b, twin) && Agree(twin, a) == Agree(twin, b)
  {
    StatementOrderAlike(before, open, parts, shuffled, close, rest, Sqlite);
    StatementOrderAlike(before, open, parts, shuffled, close, rest, Postgres);
    var a, b := File(before, open, Flat(parts), close, rest), File(before, open, Flat(shuffled), close, rest);
    AgreeAlike(Parse(a, Sqlite), Parse(b, Sqlite), Parse(twin, Postgres));
    AgreeAlike(Parse(a, Postgres), Parse(b, Postgres), Parse(twin, Sqlite));
  }

  ghost predicate Accord(a: Result<Catalog, SchemaError>, b: Result<Catalog, SchemaError>) {
    a.Ok? && b.Ok? && SameCatalogs(a.value, b.value)
  }

  lemma AgreeAlike(a: Result<Catalog, SchemaError>, b: Result<Catalog, SchemaError>, c: Result<Catalog, SchemaError>)
    requires Alike(a, b)
    ensures Accord(a, c) == Accord(b, c) && Accord(c, a) == Accord(c, b)
  {
    if a.Ok? && c.Ok? {
      AlikeAgree(a.value, b.value, c.value);
    }
  }
}
