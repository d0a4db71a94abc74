/**
 What the verdict of the comparison depends on: which run of whitespace stands in a line matters exactly
 where it is quoted in its statement; the order of blocks and of statements never does.
 */
module SchemaVerdict {
  import opened Wrappers
  import opened SchemaText
  import opened SchemaParity
  import opened SchemaCompare
  import opened SchemaRuns
  import opened SchemaCanonical
  import opened SchemaInvariance

  // ---------- One changed statement in a catalog ----------

  lemma {:induction false} CanonicalOneByOne(statements: seq<string>, one: Canonicalizer)
    ensures CanonicalAll(statements, one).Ok? <==> forall i :: 0 <= i < |statements| ==> one(statements[i]).Ok?
    ensures CanonicalAll(statements, one).Ok? ==>
              var all := CanonicalAll(statements, one).value;
              |all| == |statements| && forall i :: 0 <= i < |statements| ==> one(statements[i]) == Ok(all[i])
  {
    if statements != [] {
      CanonicalOneByOne(statements[..|statements| - 1], one);
    }
  }

  lemma CanonicalChanged(s: seq<string>, t: seq<string>, m: nat, from_: string, to: string, one: Canonicalizer)
    requires OneAt(s, t, m, from_, to) && (one(from_).Ok? <==> one(to).Ok?)
    ensures CanonicalAll(s, one).Ok? <==> CanonicalAll(t, one).Ok?
    ensures CanonicalAll(s, one).Ok? ==> (CanonicalAll(s, one) == CanonicalAll(t, one) <==> one(from_) == one(to))
  {
    CanonicalOneByOne(s, one);
    CanonicalOneByOne(t, one);
    assert t[m] == to && forall i :: 0 <= i < |s| && i != m ==> t[i] == s[i];
    if CanonicalAll(s, one).Ok? && CanonicalAll(t, one).Ok? {
      var a, b := CanonicalAll(s, one).value, CanonicalAll(t, one).value;
      assert forall i :: 0 <= i < |s| && i != m ==> a[i] == b[i];
    }
  }

  ghost predicate DistinctHeaders(blocks: seq<Block>) {
    forall i, j :: 0 <= i < j < |blocks| ==> blocks[i].header != blocks[j].header
  }

  /** A catalog exists just when every statement is accepted and no name comes twice. */
  lemma CatalogKnown(blocks: seq<Block>, one: Canonicalizer)
    ensures CatalogOf(blocks, one).Ok? <==>
              DistinctHeaders(blocks) && forall i :: 0 <= i < |blocks| ==> CanonicalAll(blocks[i].statements, one).Ok?
    ensures CatalogOf(blocks, one).Ok? ==> Catalogs(blocks, one, CatalogOf(blocks, one).value)
  {
    CatalogOfCatalogs(blocks, one);
    if CatalogOf(blocks, one).Ok? {
      forall i | 0 <= i < |blocks| ensures CanonicalAll(blocks[i].statements, one).Ok? {
        assert blocks[i] in blocks;
      }
    } else if DistinctHeaders(blocks) && forall i :: 0 <= i < |blocks| ==> CanonicalAll(blocks[i].statements, one).Ok? {
      CatalogExists(blocks, one);
    }
  }

  /** The entry of a block. */
  lemma EntryOf(blocks: seq<Block>, i: nat, one: Canonicalizer, c: Catalog)
    requires i < |blocks| && Catalogs(blocks, one, c)
    ensures blocks[i].header in c && CanonicalAll(blocks[i].statements, one) == Ok(c[blocks[i].header])
  {
    assert blocks[i] in blocks;
  }

  /** The same blocks, but for the statements of block `i`. */
  ghost predicate Restated(a: seq<Block>, b: seq<Block>, i: nat) {
    |a| == |b| && i < |a| && b == a[i := b[i]] && a[i].header == b[i].header
  }

  lemma StillKnown(a: seq<Block>, b: seq<Block>, i: nat, one: Canonicalizer)
    requires Restated(a, b, i) && CatalogOf(a, one).Ok? && CanonicalAll(b[i].statements, one).Ok?
    ensures CatalogOf(b, one).Ok?
  {
    CatalogKnown(a, one);
    assert forall j :: 0 <= j < |a| ==> b[j].header == a[j].header;
    assert forall j :: 0 <= j < |a| && j != i ==> b[j] == a[j];
    CatalogKnown(b, one);
  }

  lemma CatalogChanged(a: seq<Block>, b: seq<Block>, i: nat, one: Canonicalizer)
    requires Restated(a, b, i) && CanonicalAll(b[i].statements, one).Ok? && CatalogOf(a, one).Ok?
    ensures CatalogOf(b, one).Ok? && CanonicalAll(a[i].statements, one).Ok?
    ensures var h, c, d := a[i].header, CatalogOf(a, one).value, CatalogOf(b, one).value;
            && (forall key <- c :: key in d && (key != h ==> c[key] == d[key])) && (forall key <- d :: key in c)
            && h in c && CanonicalAll(a[i].statements, one) == Ok(c[h])
            && CanonicalAll(b[i].statements, one) == Ok(d[h])
  {
    StillKnown(a, b, i, one);
    CatalogOfCatalogs(a, one);
    CatalogOfCatalogs(b, one);
    EntriesAlike(a, b, i, one, CatalogOf(a, one).value, CatalogOf(b, one).value);
    EntriesAlike(b, a, i, one, CatalogOf(b, one).value, CatalogOf(a, one).value);
    EntryOf(a, i, one, CatalogOf(a, one).value);
    EntryOf(b, i, one, CatalogOf(b, one).value);
  }

  lemma EntriesAlike(a: seq<Block>, b: seq<Block>, i: nat, one: Canonicalizer, c: Catalog, d: Catalog)
    requires |a| == |b| && i < |a| && Catalogs(a, one, c) && Catalogs(b, one, d)
    requires a[i].header == b[i].header && forall j :: 0 <= j < |a| && j != i ==> b[j] == a[j]
    ensures forall key <- c :: key in d && (key != a[i].header ==> c[key] == d[key])
  {
    forall key <- c ensures key in d && (key != a[i].header ==> c[key] == d[key]) {
      var block :| block in a && block.header == key;
      var j :| 0 <= j < |a| && a[j] == block;
      EntryOf(a, j, one, c);
      EntryOf(b, j, one, d);
    }
  }

  lemma CatalogOver(a: seq<Block>, b: seq<Block>, from_: string, to: string, one: Canonicalizer)
    requires OneBlock(a, b, from_, to) && (one(from_).Ok? <==> one(to).Ok?)
    ensures CatalogOf(a, one).Ok? <==> CatalogOf(b, one).Ok?
    ensures CatalogOf(a, one).Ok? ==>
              one(from_).Ok? && (CatalogOf(a, one) == CatalogOf(b, one) <==> one(from_) == one(to))
  {
    var i: nat :| BlockDiffers(a, b, i, from_, to);
    var m: nat :| OneAt(a[i].statements, b[i].statements, m, from_, to);
    CanonicalChanged(a[i].statements, b[i].statements, m, from_, to, one);
    if CatalogOf(a, one).Ok? {
      CatalogKnown(a, one);
      CanonicalOneByOne(a[i].statements, one);
      CatalogChanged(a, b, i, one);
      if one(from_) == one(to) {
        SameEntries(CatalogOf(a, one).value, CatalogOf(b, one).value);
      }
    } else if CatalogOf(b, one).Ok? {
      CatalogKnown(b, one);
      StillKnown(b, a, i, one);
    }
  }

  // ---------- Whitespace ----------

  function PlaceIn(line: Line, run: string): Spot {
    (body, j: nat) => InBody(body, j, line, run)
  }

  /** What stands before and after the run of line `k` in its statement, unless the run reaches none. */
  function RunAt(lines: seq<string>, k: nat, line: Line, run: string): Option<(string, string)> {
    PlaceFrom(lines, 0, k, Prisma(), PlaceIn(line, run))
  }

  lemma SliceChanges(a: seq<string>, b: seq<string>, k: nat, line: Line, run: string, other: string, lo: nat, hi: nat,
                     g: Syntax, place: Spot)
    requires Respaced(a, b, k, line, run, other) && lo <= k < hi <= |a| && g == Prisma() && place == PlaceIn(line, run)
    ensures StatementsOver(g.splits(a[lo..hi]), g.splits(b[lo..hi]), place(a[lo..hi], k - lo), run, other)
  {
    assert b[lo..hi] == a[lo..hi][k - lo := line.With(other)];
    BodyChanges(a[lo..hi], b[lo..hi], k - lo, line, run, other, g, place);
  }

  lemma BodyChanges(c: seq<string>, d: seq<string>, j: nat, line: Line, run: string, other: string, g: Syntax,
                    place: Spot)
    requires Respaced(c, d, j, line, run, other) && g.splits == Statements && place == PlaceIn(line, run)
    ensures StatementsOver(g.splits(c), g.splits(d), place(c, j), run, other)
  {
    BodyOver(c, d, j, line, run, other);
  }

  lemma LineKeepsRole(line: Line, run: string, other: string, g: Syntax)
    requires IsGap(run) && IsGap(other) && g == Prisma()
    ensures g.opens(line.With(run)) == g.opens(line.With(other))
    ensures g.closes(line.With(run)) == g.closes(line.With(other))
  {
    HeaderOver(line.before, run, other, line.after);
    ClosesOver(line.before, run, other, line.after);
  }

  lemma RunIsChange(a: seq<string>, b: seq<string>, k: nat, line: Line, run: string, other: string, g: Syntax,
                    place: Spot)
    requires Respaced(a, b, k, line, run, other) && g == Prisma() && place == PlaceIn(line, run)
    ensures Changed(a, b, k, g, place, run, other)
  {
    LineKeepsRole(line, run, other, g);
    forall lo, hi | 0 <= lo <= k < hi <= |a|
      ensures StatementsOver(g.splits(a[lo..hi]), g.splits(b[lo..hi]), place(a[lo..hi], k - lo), run, other)
    {
      SliceChanges(a, b, k, line, run, other, lo, hi, g, place);
    }
  }

  /**
   The run is in no statement at all, or it is one that may be any other: outside quotes in its statement,
   native types left out, or at its very end.
   */
  predicate Free(lines: seq<string>, k: nat, line: Line, run: string) {
    match RunAt(lines, k, line, run)
    case None => true
    case Some(around) => Loose(around.0, around.1)
  }

  /** Another run of whitespace never decides whether a file parses, and leaves what it says exactly when it is free. */
  lemma ParseOver(a: seq<string>, b: seq<string>, k: nat, line: Line, run: string, other: string, dialect: Dialect)
    requires Respaced(a, b, k, line, run, other)
    ensures Parse(a, dialect).Ok? <==> Parse(b, dialect).Ok?
    ensures Parse(a, dialect).Ok? ==>
              (Parse(a, dialect) == Parse(b, dialect) <==> run == other || Free(a, k, line, run))
  {
    RunIsChange(a, b, k, line, run, other, Prisma(), PlaceIn(line, run));
    FileOver(a, b, 0, k, Prisma(), PlaceIn(line, run), run, other);
    var at := RunAt(a, k, line, run);
    if at.Some? {
      CanonicalOver(at.value.0, run, other, at.value.1, dialect);
    }
    BlocksDecide(BlocksFrom(a, 0, Prisma()), BlocksFrom(b, 0, Prisma()), at, run, other, For(dialect),
      run == other || Free(a, k, line, run));
  }

  function CatalogFrom(blocks: Result<seq<Block>, SchemaError>, one: Canonicalizer): Result<Catalog, SchemaError> {
    if blocks.Err? then Err(blocks.error) else CatalogOf(blocks.value, one)
  }

  /** The two readings of the statement are accepted alike, and are the same just when `same`. */
  ghost predicate Decides(from_: string, to: string, one: Canonicalizer, same: bool) {
    (one(from_).Ok? <==> one(to).Ok?) && (one(from_).Ok? ==> (one(from_) == one(to) <==> same))
  }

  lemma BlocksDecide(a: Result<seq<Block>, SchemaError>, b: Result<seq<Block>, SchemaError>,
                     at: Option<(string, string)>,
                     run: string, other: string, one: Canonicalizer, same: bool)
    requires BlocksOver(a, b, at, run, other)
    requires if at.None? then same
             else Decides(at.value.0 + run + at.value.1, at.value.0 + other + at.value.1, one, same)
    ensures CatalogFrom(a, one).Ok? <==> CatalogFrom(b, one).Ok?
    ensures CatalogFrom(a, one).Ok? ==> (CatalogFrom(a, one) == CatalogFrom(b, one) <==> same)
  {
    if a.Ok? && at.Some? {
      CatalogOver(a.value, b.value, at.value.0 + run + at.value.1, at.value.0 + other + at.value.1, one);
    }
  }

  /** A free run never changes the verdict, in either file. */
  lemma FreeRunsAgree(a: seq<string>, b: seq<string>, k: nat, line: Line, run: string, other: string, twin: seq<string>)
    requires Respaced(a, b, k, line, run, other) && Free(a, k, line, run)
    ensures Agree(a, twin) == Agree(b, twin) && Agree(twin, a) == Agree(twin, b)
  {
    ParseOver(a, b, k, line, run, other, Sqlite);
    ParseOver(a, b, k, line, run, other, Postgres);
  }
}
