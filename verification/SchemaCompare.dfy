/** Blocks, canonical statements, and the comparison of two schemas. */
module SchemaCompare {
  import opened Wrappers
  import opened SchemaText
  import opened SchemaParity

  datatype Dialect = Sqlite | Postgres

  /** Blocks are known by kind and name. */
  datatype Header = Header(kind: Kind, name: string)

  datatype Block = Block(header: Header, statements: seq<string>)

  // ---------- Block headers ----------

  predicate IsLetter(c: char) {
    'a' <= c <= 'z' || 'A' <= c <= 'Z'
  }

  predicate IsWord(c: char) {
    IsLetter(c) || '0' <= c <= '9' || c == '_'
  }

  predicate IsName(text: string) {
    text != "" && IsLetter(text[0]) && forall c <- text :: IsWord(c)
  }

  /** What is in front of the opening brace. */
  function BodyOf(text: string): Option<string> {
    if text == "" || text[|text| - 1] != '{' then None else Some(TrimEnd(text[..|text| - 1]))
  }

  function HeaderIn(body: string): Option<Header> {
    OrElse(HeaderFor(body, Model),
           OrElse(HeaderFor(body, Enum), OrElse(HeaderFor(body, Type), HeaderFor(body, View))))
  }

  function OrElse(first: Option<Header>, second: Option<Header>): Option<Header> {
    if first.Some? then first else second
  }

  function Keyword(kind: Kind): string {
    match kind
    case Model => "model"
    case Enum => "enum"
    case Type => "type"
    case View => "view"
  }

  function HeaderFor(body: string, kind: Kind): Option<Header> {
    if HeaderWith(body, Keyword(kind)) then Some(Header(kind, TrimStart(body[|Keyword(kind)|..]))) else None
  }

  /** One of the four keywords, whitespace, a name, and an opening brace, with nothing else on the line. */
  function HeaderOf(line: string): Option<Header> {
    match BodyOf(Trim(line))
    case None => None
    case Some(body) => HeaderIn(body)
  }

  predicate HeaderWith(body: string, kind: string): (matched: bool)
    ensures matched ==> |kind| <= |body|
  {
    kind <= body && |kind| < |body| && IsSpace(body[|kind|]) && IsName(TrimStart(body[|kind|..]))
  }

  predicate Closes(line: string) {
    var text := Trim(line);
    |text| == 1 && text[0] == '}'
  }

  /** How a file is read: which lines open a block, which close one, and what statements a body holds. */
  datatype Syntax = Syntax(opens: string -> Option<Header>, closes: string -> bool,
                           splits: seq<string> -> Result<seq<string>, SchemaError>)

  function Prisma(): Syntax {
    Syntax(HeaderOf, Closes, Statements)
  }

  /** The first line from `i` on that closes a block. */
  function ClosingLine(lines: seq<string>, i: nat, g: Syntax): (end: nat)
    requires i <= |lines|
    ensures i <= end <= |lines| && (end < |lines| ==> g.closes(lines[end]))
    ensures forall j :: i <= j < end ==> !g.closes(lines[j])
    decreases |lines| - i
  {
    if i == |lines| || g.closes(lines[i]) then i else ClosingLine(lines, i + 1, g)
  }

  function BlockOf(header: Header, statements: Result<seq<string>, SchemaError>): Result<seq<Block>, SchemaError> {
    match statements case Err(e) => Err(e) case Ok(s) => Ok([Block(header, s)])
  }

  function After(blocks: Result<seq<Block>, SchemaError>, rest: Result<seq<Block>, SchemaError>):
    Result<seq<Block>, SchemaError>
  {
    if blocks.Err? then blocks else if rest.Err? then rest else Ok(blocks.value + rest.value)
  }

  /** The blocks of the lines from `i` on. */
  function BlocksFrom(lines: seq<string>, i: nat, g: Syntax): Result<seq<Block>, SchemaError>
    requires i <= |lines|
    decreases |lines| - i
  {
    if i == |lines| then Ok([]) else
    var header := g.opens(lines[i]);
    if header.None? then BlocksFrom(lines, i + 1, g) else
    var end := ClosingLine(lines, i + 1, g);
    if end == |lines| then Err(Unclosed(header.value.kind, header.value.name))
    else After(BlockOf(header.value, g.splits(lines[i + 1..end])), BlocksFrom(lines, end + 1, g))
  }

  /** The lines of a block's body. */
  method ReadBody(lines: seq<string>, first: nat, g: Syntax) returns (body: seq<string>, end: nat)
    requires first <= |lines|
    ensures end == ClosingLine(lines, first, g) && body == lines[first..end]
  {
    body, end := [], first;
    while end < |lines| && !g.closes(lines[end])
      invariant first <= end <= |lines| && ClosingLine(lines, first, g) == ClosingLine(lines, end, g)
      invariant body == lines[first..end]
    {
      body := body + [lines[end]];
      end := end + 1;
    }
  }

  method SplitBody(header: Header, body: seq<string>, g: Syntax) returns (r: Result<seq<Block>, SchemaError>)
    requires g.splits == Statements
    ensures r == BlockOf(header, g.splits(body))
  {
    var statements := SplitStatements(body);
    r := BlockOf(header, statements);
  }

  /** The block whose header is at `index`, and the line that closes it. */
  method ReadBlock(lines: seq<string>, index: nat, header: Header, g: Syntax)
    returns (read: Result<seq<Block>, SchemaError>, end: nat)
    requires index < |lines| && g.opens(lines[index]) == Some(header) && g.splits == Statements
    ensures read.Err? ==> BlocksFrom(lines, index, g) == Err(read.error)
    ensures read.Ok? ==> end < |lines| && BlocksFrom(lines, index, g) == After(read, BlocksFrom(lines, end + 1, g))
    ensures index < end <= |lines|
  {
    var body;
    body, end := ReadBody(lines, index + 1, g);
    BlockIs(lines, index, header, body, end, g);
    if end == |lines| {
      read := Err(Unclosed(header.kind, header.name));
    } else {
      read := SplitBody(header, body, g);
      ReadIs(lines, index, end, read, g);
    }
  }

  lemma BlockIs(lines: seq<string>, index: nat, header: Header, body: seq<string>, end: nat, g: Syntax)
    requires index < |lines| && g.opens(lines[index]) == Some(header)
    requires end == ClosingLine(lines, index + 1, g) && body == lines[index + 1..end]
    ensures if end == |lines| then BlocksFrom(lines, index, g) == Err(Unclosed(header.kind, header.name))
            else BlocksFrom(lines, index, g) == After(BlockOf(header, g.splits(body)), BlocksFrom(lines, end + 1, g))
  {
  }

  lemma ReadIs(lines: seq<string>, index: nat, end: nat, read: Result<seq<Block>, SchemaError>, g: Syntax)
    requires index < end < |lines| && BlocksFrom(lines, index, g) == After(read, BlocksFrom(lines, end + 1, g))
    ensures read.Err? ==> BlocksFrom(lines, index, g) == Err(read.error)
  {
  }

  method ExtractBlocks(lines: seq<string>) returns (r: Result<seq<Block>, SchemaError>)
    ensures r == BlocksFrom(lines, 0, Prisma())
  {
    var g := Prisma();
    r := ReadBlocks(lines, g);
  }

  method ReadBlocks(lines: seq<string>, g: Syntax) returns (r: Result<seq<Block>, SchemaError>)
    requires g.splits == Statements
    ensures r == BlocksFrom(lines, 0, g)
  {
    var blocks: seq<Block> := [];
    var index := 0;
    AfterNothing(BlocksFrom(lines, 0, g));
    while index < |lines|
      invariant index <= |lines| && BlocksFrom(lines, 0, g) == After(Ok(blocks), BlocksFrom(lines, index, g))
    {
      var header := g.opens(lines[index]);
      if header.None? {
        index := index + 1;
      } else {
        var read, end := ReadBlock(lines, index, header.value, g);
        if read.Err? {
          return Err(read.error);
        }
        AfterThen(blocks, read.value, BlocksFrom(lines, end + 1, g));
        blocks, index := blocks + read.value, end + 1;
      }
    }
    assert blocks + [] == blocks;
    return Ok(blocks);
  }

  lemma AfterNothing(rest: Result<seq<Block>, SchemaError>)
    ensures After(Ok([]), rest) == rest
  {
    if rest.Ok? {
      assert [] + rest.value == rest.value;
    }
  }

  lemma AfterThen(blocks: seq<Block>, more: seq<Block>, rest: Result<seq<Block>, SchemaError>)
    ensures After(Ok(blocks), After(Ok(more), rest)) == After(Ok(blocks + more), rest)
  {
    if rest.Ok? {
      assert blocks + (more + rest.value) == blocks + more + rest.value;
    }
  }

  // ---------- Canonical statements ----------

  /** The one native type a PostgreSQL schema may name. */
  function AllowedNative(): string {
    "@db.Timestamptz(3)"
  }

  /** The first place from `i` on where `stop` holds, or the end. */
  function First(text: string, i: nat, stop: char -> bool): (end: nat)
    requires i <= |text|
    ensures i <= end <= |text|
    decreases |text| - i
  {
    if i == |text| || stop(text[i]) then i else First(text, i + 1, stop)
  }

  predicate NotWord(c: char) {
    !IsWord(c)
  }

  predicate NotSpace(c: char) {
    !IsSpace(c)
  }

  predicate IsClose(c: char) {
    c == ')'
  }

  predicate StartsNative(text: string, i: nat) {
    i + 4 <= |text| && text[i] == '@' && text[i + 1] == 'd' && text[i + 2] == 'b' && text[i + 3] == '.'
  }

  /** Where a native type starting at `i` ends, if one starts there. */
  function NativeEnd(text: string, i: nat): (end: nat)
    requires i <= |text|
    ensures end == i || i < end <= |text|
  {
    if !StartsNative(text, i) then i else
    var word := First(text, i + 4, NotWord);
    if word == i + 4 then i
    else if word < |text| && text[word] == '(' && First(text, word + 1, IsClose) < |text| then
      First(text, word + 1, IsClose) + 1
    else word
  }

  /** The native type from `i` to `end`, if there is one. */
  function NativeAt(text: string, i: nat, end: nat): seq<string>
    requires i <= end <= |text|
  {
    if end == i then [] else [text[i..end]]
  }

  /** How far what starts at a place reaches; no further means that nothing starts there. */
  type Reader = (string, nat) -> nat

  ghost predicate Reads(ends: Reader, text: string) {
    forall i: nat :: i <= |text| ==> i <= ends(text, i) <= |text|
  }

  /** What is read from a text, from left to right. */
  function ReadFrom(text: string, i: nat, ends: Reader): seq<string>
    requires i <= |text| && Reads(ends, text)
    decreases |text| - i
  {
    if i == |text| then [] else
    var end := ends(text, i);
    NativeAt(text, i, end) + ReadFrom(text, if end == i then i + 1 else end, ends)
  }

  function NativeReach(text: string, i: nat): nat {
    if i <= |text| then NativeEnd(text, i) else i
  }

  /** The native types of a text. */
  function Natives(text: string): seq<string> {
    ReadFrom(text, 0, NativeReach)
  }

  /** The second word of a statement. */
  function FieldType(text: string): Option<string> {
    var word := First(text, 0, NotWord);
    var start := First(text, word, NotSpace);
    var end := First(text, start, IsSpace);
    if word == 0 || start == word || end == start then None else Some(text[start..end])
  }

  predicate IsDateTime(text: string) {
    FieldType(text) == Some("DateTime") || FieldType(text) == Some("DateTime?")
  }

  /** Every occurrence of `what` taken out, from left to right. */
  function Without(text: string, what: string, i: nat): string
    requires i <= |text| && what != ""
    decreases |text| - i
  {
    if i == |text| then ""
    else if what <= text[i..] then Without(text, what, i + |what|)
    else [text[i]] + Without(text, what, i + 1)
  }

  /** A statement without its native types. */
  function Bare(statement: string): string {
    Without(statement, AllowedNative(), 0)
  }

  function Canonical(statement: string, dialect: Dialect): Result<string, SchemaError> {
    var natives := Natives(statement);
    if dialect.Sqlite? && natives != [] then Err(NativeInSqlite(statement))
    else if dialect.Postgres? && IsDateTime(statement) && AllowedNative() !in natives then
      Err(NativeMissing(statement))
    else if exists n <- natives :: n != AllowedNative() then Err(NativeNotAllowed)
    else if natives != [] && !IsDateTime(statement) then Err(NativeMisplaced)
    else Ok(Normalized(Bare(statement)))
  }

  /** Dated statements of a PostgreSQL schema name the one native type, others and SQLite's name none. */
  predicate NativesFit(statement: string, dialect: Dialect) {
    var natives := Natives(statement);
    var dated := FieldType(statement) == Some("DateTime") || FieldType(statement) == Some("DateTime?");
    match dialect
    case Sqlite => natives == []
    case Postgres => (forall n <- natives :: n == AllowedNative()) && (dated <==> natives != [])
  }

  /** Exactly such statements have a canonical form, and each refusal says what does not fit. */
  lemma CanonicalExactly(statement: string, dialect: Dialect)
    ensures Canonical(statement, dialect).Ok? <==> NativesFit(statement, dialect)
    ensures Canonical(statement, dialect).Ok? ==> Canonical(statement, dialect).value == Normalized(Bare(statement))
    ensures var natives := Natives(statement);
            var dated := FieldType(statement) == Some("DateTime") || FieldType(statement) == Some("DateTime?");
            match Canonical(statement, dialect)
            case Ok(_) => true
            case Err(NativeInSqlite(s)) => s == statement && dialect.Sqlite? && natives != []
            case Err(NativeMissing(s)) => s == statement && dialect.Postgres? && dated && AllowedNative() !in natives
            case Err(NativeNotAllowed) => dialect.Postgres? && exists n <- natives :: n != AllowedNative()
            case Err(NativeMisplaced) => dialect.Postgres? && natives != [] && !dated
            case Err(_) => false
  {
    if Natives(statement) != [] {
      assert Natives(statement)[0] in Natives(statement);
    }
  }

  /** How one statement is made canonical, or refused. */
  type Canonicalizer = string -> Result<string, SchemaError>

  function For(dialect: Dialect): Canonicalizer {
    statement => Canonical(statement, dialect)
  }

  function CanonicalAll(statements: seq<string>, one: Canonicalizer): Result<seq<string>, SchemaError> {
    if statements == [] then Ok([]) else
    var before :- CanonicalAll(statements[..|statements| - 1], one);
    var last :- one(statements[|statements| - 1]);
    Ok(before + [last])
  }

  type Catalog = map<Header, seq<string>>

  /** Every block's canonical statements under its name; a name twice is an error. */
  function CatalogOf(blocks: seq<Block>, one: Canonicalizer): Result<Catalog, SchemaError> {
    if blocks == [] then Ok(map[]) else
    var before :- CatalogOf(blocks[..|blocks| - 1], one);
    var last := blocks[|blocks| - 1];
    if last.header in before then Err(DuplicateBlock(last.header.kind, last.header.name)) else
    var statements :- CanonicalAll(last.statements, one);
    Ok(before[last.header := statements])
  }

  /** The first error in a list of blocks is the error of the whole list. */
  lemma {:induction false} CatalogErrs(blocks: seq<Block>, k: nat, one: Canonicalizer)
    requires k <= |blocks|
    ensures CatalogOf(blocks[..k], one).Err? ==> CatalogOf(blocks, one) == CatalogOf(blocks[..k], one)
    decreases |blocks|
  {
    if k == |blocks| {
      assert blocks[..k] == blocks;
    } else {
      var before := blocks[..|blocks| - 1];
      CatalogErrs(before, k, one);
      assert before[..k] == blocks[..k];
    }
  }

  function Parse(lines: seq<string>, dialect: Dialect): Result<Catalog, SchemaError> {
    var blocks :- BlocksFrom(lines, 0, Prisma());
    CatalogOf(blocks, For(dialect))
  }

  method CanonicalBlocks(lines: seq<string>, dialect: Dialect) returns (r: Result<Catalog, SchemaError>)
    ensures r == Parse(lines, dialect)
  {
    var blocks := ExtractBlocks(lines);
    if blocks.Err? {
      return Err(blocks.error);
    }
    var one := For(dialect);
    var catalog: Catalog := map[];
    for k := 0 to |blocks.value|
      invariant CatalogOf(blocks.value[..k], one) == Ok(catalog)
    {
      var block := blocks.value[k];
      assert blocks.value[..k + 1][..k] == blocks.value[..k];
      CatalogErrs(blocks.value, k + 1, one);
      if block.header in catalog {
        return Err(DuplicateBlock(block.header.kind, block.header.name));
      }
      var statements := CanonicalAll(block.statements, one);
      if statements.Err? {
        return Err(statements.error);
      }
      catalog := catalog[block.header := statements.value];
    }
    assert blocks.value[..|blocks.value|] == blocks.value;
    return Ok(catalog);
  }

  // ---------- The comparison ----------

  /** The same statements, in whatever order and however often. */
  predicate SameStatements(a: seq<string>, b: seq<string>) {
    (forall s <- a :: s in b) && forall s <- b :: s in a
  }

  /** Both catalogs name the same blocks, and each block says the same. */
  predicate SameCatalogs(a: Catalog, b: Catalog) {
    a.Keys == b.Keys && forall key <- a :: key in b && SameStatements(a[key], b[key])
  }

  method Missing(from_: seq<string>, other: seq<string>) returns (only: seq<string>)
    ensures only == [] <==> forall s <- from_ :: s in other
  {
    only := [];
    for k := 0 to |from_|
      invariant only == [] <==> forall i :: 0 <= i < k ==> from_[i] in other
    {
      if from_[k] !in other {
        only := only + [from_[k]];
      }
    }
  }

  /** What a comparison reports. */
  datatype Difference =
    | WrongProvider(dialect: Dialect) | Unreadable(error: SchemaError) | OnlyIn(key: Header, dialect: Dialect)
    | Differs(key: Header, sqliteOnly: seq<string>, postgresOnly: seq<string>)

  /** How one block differs, if it does. */
  method CompareBlock(key: Header, a: Catalog, b: Catalog) returns (differences: seq<Difference>)
    requires key in a || key in b
    ensures differences == [] <==> key in a && key in b && SameStatements(a[key], b[key])
  {
    if key !in a {
      return [OnlyIn(key, Postgres)];
    }
    if key !in b {
      return [OnlyIn(key, Sqlite)];
    }
    var sqliteOnly := Missing(a[key], b[key]);
    var postgresOnly := Missing(b[key], a[key]);
    differences := if sqliteOnly == [] && postgresOnly == [] then [] else [Differs(key, sqliteOnly, postgresOnly)];
  }

  method CompareCatalogs(a: Catalog, b: Catalog) returns (differences: seq<Difference>)
    ensures differences == [] <==> SameCatalogs(a, b)
  {
    differences := [];
    var names := a.Keys + b.Keys;
    while names != {}
      invariant names <= a.Keys + b.Keys
      invariant differences == [] <==>
                forall key <- a.Keys + b.Keys - names :: key in a && key in b && SameStatements(a[key], b[key])
      decreases names
    {
      var key :| key in names;
      var more := CompareBlock(key, a, b);
      assert a.Keys + b.Keys - (names - {key}) == (a.Keys + b.Keys - names) + {key};
      differences, names := differences + more, names - {key};
    }
    assert a.Keys + b.Keys - {} == a.Keys + b.Keys;
  }

  /** Both sources parse, and say the same about the same blocks. */
  predicate Agree(sqlite: seq<string>, postgres: seq<string>) {
    && Parse(sqlite, Sqlite).Ok? && Parse(postgres, Postgres).Ok?
    && SameCatalogs(Parse(sqlite, Sqlite).value, Parse(postgres, Postgres).value)
  }

  /**
   Two schemas agree exactly when both providers are as declared, both sources parse, and
   their catalogs have the same blocks with the same sets of canonical statements.
   */
  method Compare(sqlite: seq<string>, postgres: seq<string>, sqliteProvider: Option<string>,
                 postgresProvider: Option<string>)
    returns (ok: bool, differences: seq<Difference>)
    ensures ok <==> differences == []
    ensures ok <==>
              && sqliteProvider == Some("sqlite") && postgresProvider == Some("postgresql")
              && Agree(sqlite, postgres)
    ensures ok ==>
              && BlocksFrom(sqlite, 0, Prisma()).Ok? && AllFit(BlocksFrom(sqlite, 0, Prisma()).value, Sqlite)
              && BlocksFrom(postgres, 0, Prisma()).Ok? && AllFit(BlocksFrom(postgres, 0, Prisma()).value, Postgres)
  {
    ParsesExactly(sqlite, Sqlite);
    ParsesExactly(postgres, Postgres);
    differences := [];
    if sqliteProvider != Some("sqlite") {
      differences := differences + [WrongProvider(Sqlite)];
    }
    if postgresProvider != Some("postgresql") {
      differences := differences + [WrongProvider(Postgres)];
    }
    var a := CanonicalBlocks(sqlite, Sqlite);
    var b := CanonicalBlocks(postgres, Postgres);
    if a.Err? {
      return false, differences + [Unreadable(a.error)];
    }
    if b.Err? {
      return false, differences + [Unreadable(b.error)];
    }
    var more := CompareCatalogs(a.value, b.value);
    differences := differences + more;
    ok := differences == [];
  }

  // ---------- Order does not matter ----------

  /** A catalog knows a block by its name and canonical statements, wherever it stood. */
  ghost predicate Catalogs(blocks: seq<Block>, one: Canonicalizer, c: Catalog) {
    && (forall block <- blocks :: block.header in c && CanonicalAll(block.statements, one) == Ok(c[block.header]))
    && (forall key <- c :: exists block <- blocks :: block.header == key)
    && (forall i, j :: 0 <= i < j < |blocks| ==> blocks[i].header != blocks[j].header)
  }

  lemma CatalogAdds(before: seq<Block>, last: Block, one: Canonicalizer, c: Catalog, statements: seq<string>)
    requires Catalogs(before, one, c) && last.header !in c && CanonicalAll(last.statements, one) == Ok(statements)
    ensures Catalogs(before + [last], one, c[last.header := statements])
  {
    var blocks := before + [last];
    forall i, j | 0 <= i < j < |blocks| ensures blocks[i].header != blocks[j].header {
      assert blocks[i] in before;
    }
    assert last in blocks;
    assert forall block <- before :: block in blocks;
  }

  lemma CatalogNext(before: seq<Block>, last: Block, one: Canonicalizer)
    requires CatalogOf(before + [last], one).Ok?
    ensures CatalogOf(before, one).Ok? && CanonicalAll(last.statements, one).Ok?
    ensures last.header !in CatalogOf(before, one).value
    ensures CatalogOf(before + [last], one).value ==
            CatalogOf(before, one).value[last.header := CanonicalAll(last.statements, one).value]
  {
    assert (before + [last])[..|before|] == before;
  }

  lemma {:induction false} CatalogOfCatalogs(blocks: seq<Block>, one: Canonicalizer)
    ensures CatalogOf(blocks, one).Ok? ==> Catalogs(blocks, one, CatalogOf(blocks, one).value)
  {
    if blocks != [] && CatalogOf(blocks, one).Ok? {
      var before, last := blocks[..|blocks| - 1], blocks[|blocks| - 1];
      assert blocks == before + [last];
      CatalogOfCatalogs(before, one);
      CatalogNext(before, last, one);
      CatalogAdds(before, last, one, CatalogOf(before, one).value, CanonicalAll(last.statements, one).value);
    }
  }

  lemma {:induction false} CatalogExists(blocks: seq<Block>, one: Canonicalizer)
    requires forall block <- blocks :: CanonicalAll(block.statements, one).Ok?
    requires forall i, j :: 0 <= i < j < |blocks| ==> blocks[i].header != blocks[j].header
    ensures CatalogOf(blocks, one).Ok?
  {
    if blocks != [] {
      var before, last := blocks[..|blocks| - 1], blocks[|blocks| - 1];
      CatalogExists(before, one);
      CatalogOfCatalogs(before, one);
    }
  }

  /** Reordering the blocks of a schema changes nothing about its catalog. */
  lemma BlockOrderIrrelevant(blocks: seq<Block>, shuffled: seq<Block>, one: Canonicalizer)
    requires multiset(blocks) == multiset(shuffled) && CatalogOf(blocks, one).Ok?
    ensures CatalogOf(shuffled, one) == CatalogOf(blocks, one)
  {
    var a := CatalogOf(blocks, one).value;
    CatalogOfCatalogs(blocks, one);
    SameMembers(blocks, shuffled);
    KeysStayDistinct(blocks, shuffled);
    forall block <- shuffled ensures CanonicalAll(block.statements, one).Ok? {
      assert block in blocks;
    }
    CatalogExists(shuffled, one);
    CatalogOfCatalogs(shuffled, one);
    var b := CatalogOf(shuffled, one).value;
    CatalogWithin(blocks, shuffled, one, a, b);
    CatalogWithin(shuffled, blocks, one, b, a);
    SameEntries(a, b);
  }

  lemma SameEntries(a: Catalog, b: Catalog)
    requires forall key <- a :: key in b && a[key] == b[key]
    requires forall key <- b :: key in a
    ensures a == b
  {
  }

  lemma CatalogWithin(blocks: seq<Block>, shuffled: seq<Block>, one: Canonicalizer, a: Catalog, b: Catalog)
    requires Catalogs(blocks, one, a) && Catalogs(shuffled, one, b)
    requires forall block <- blocks :: block in shuffled
    ensures forall key <- a :: key in b && a[key] == b[key]
  {
    forall key <- a ensures key in b && a[key] == b[key] {
      var block :| block in blocks && block.header == key;
      assert block in shuffled;
    }
  }

  lemma SameMembers<T>(a: seq<T>, b: seq<T>)
    requires multiset(a) == multiset(b)
    ensures forall x :: x in a <==> x in b
  {
    assert forall x :: x in a <==> x in multiset(a);
    assert forall x :: x in b <==> x in multiset(b);
  }

  lemma KeysStayDistinct(blocks: seq<Block>, shuffled: seq<Block>)
    requires multiset(blocks) == multiset(shuffled)
    requires forall i, j :: 0 <= i < j < |blocks| ==> blocks[i].header != blocks[j].header
    ensures forall i, j :: 0 <= i < j < |shuffled| ==> shuffled[i].header != shuffled[j].header
  {
    SameMembers(blocks, shuffled);
    forall i, j | 0 <= i < j < |shuffled| ensures shuffled[i].header != shuffled[j].header {
      assert shuffled[i] in blocks && shuffled[j] in blocks;
      var x :| 0 <= x < |blocks| && blocks[x] == shuffled[i];
      CountOnce(blocks, x);
      CountTwice(shuffled, i, j);
    }
  }

  lemma CountTwice(s: seq<Block>, i: nat, j: nat)
    requires i < j < |s|
    ensures s[i] == s[j] ==> multiset(s)[s[i]] >= 2
  {
    assert s == s[..i] + [s[i]] + s[i + 1..j] + [s[j]] + s[j + 1..];
  }

  lemma CountOnce(s: seq<Block>, x: nat)
    requires x < |s| && forall i, j :: 0 <= i < j < |s| ==> s[i].header != s[j].header
    ensures multiset(s)[s[x]] == 1
  {
    assert s == s[..x] + [s[x]] + s[x + 1..];
    assert s[x] !in s[..x];
    assert s[x] !in s[x + 1..];
  }

  /** Reordering the statements of a block leaves the same set of canonical statements. */
  lemma StatementOrderIrrelevant(statements: seq<string>, shuffled: seq<string>, one: Canonicalizer)
    requires multiset(statements) == multiset(shuffled) && CanonicalAll(statements, one).Ok?
    ensures CanonicalAll(shuffled, one).Ok?
    ensures SameStatements(CanonicalAll(statements, one).value, CanonicalAll(shuffled, one).value)
  {
    SameMembers(statements, shuffled);
    CanonicalMembers(statements, one);
    CanonicalMembers(shuffled, one);
  }

  /** The canonical forms of some statements are exactly the canonical form of each. */
  lemma {:induction false} CanonicalMembers(statements: seq<string>, one: Canonicalizer)
    ensures CanonicalAll(statements, one).Ok? <==> forall s <- statements :: one(s).Ok?
    ensures CanonicalAll(statements, one).Ok? ==>
              && (forall s <- statements :: one(s).value in CanonicalAll(statements, one).value)
              && (forall c <- CanonicalAll(statements, one).value :: exists s <- statements :: one(s) == Ok(c))
  {
    if statements != [] {
      var before, last := statements[..|statements| - 1], statements[|statements| - 1];
      CanonicalMembers(before, one);
      assert statements == before + [last];
    }
  }

  // ---------- What a comparison says of every statement ----------

  /** Every statement of every block fits, and no two blocks have the same kind and name. */
  ghost predicate AllFit(blocks: seq<Block>, dialect: Dialect) {
    && (forall block <- blocks, s <- block.statements :: NativesFit(s, dialect))
    && (forall i, j :: 0 <= i < j < |blocks| ==> blocks[i].header != blocks[j].header)
  }

  /** A file is accepted exactly if it can be read and everything in it fits; its catalog has each block's forms. */
  lemma ParsesExactly(lines: seq<string>, dialect: Dialect)
    ensures Parse(lines, dialect).Ok? <==>
              && BlocksFrom(lines, 0, Prisma()).Ok? && AllFit(BlocksFrom(lines, 0, Prisma()).value, dialect)
    ensures Parse(lines, dialect).Ok? ==>
              forall block <- BlocksFrom(lines, 0, Prisma()).value ::
                && block.header in Parse(lines, dialect).value
                && forall s <- block.statements :: Normalized(Bare(s)) in Parse(lines, dialect).value[block.header]
  {
    if BlocksFrom(lines, 0, Prisma()).Ok? {
      CatalogFits(BlocksFrom(lines, 0, Prisma()).value, dialect);
    }
  }

  lemma StatementsFit(statements: seq<string>, dialect: Dialect)
    ensures CanonicalAll(statements, For(dialect)).Ok? <==> forall s <- statements :: NativesFit(s, dialect)
    ensures CanonicalAll(statements, For(dialect)).Ok? ==>
              forall s <- statements :: Normalized(Bare(s)) in CanonicalAll(statements, For(dialect)).value
  {
    CanonicalMembers(statements, For(dialect));
    forall s <- statements
      ensures For(dialect)(s).Ok? <==> NativesFit(s, dialect)
      ensures For(dialect)(s).Ok? ==> For(dialect)(s).value == Normalized(Bare(s))
    {
      CanonicalExactly(s, dialect);
    }
  }

  lemma CatalogFits(blocks: seq<Block>, dialect: Dialect)
    ensures CatalogOf(blocks, For(dialect)).Ok? <==> AllFit(blocks, dialect)
    ensures CatalogOf(blocks, For(dialect)).Ok? ==>
              forall block <- blocks ::
                && block.header in CatalogOf(blocks, For(dialect)).value
                && forall s <- block.statements ::
                     Normalized(Bare(s)) in CatalogOf(blocks, For(dialect)).value[block.header]
  {
    forall block <- blocks
      ensures CanonicalAll(block.statements, For(dialect)).Ok? <==>
                forall s <- block.statements :: NativesFit(s, dialect)
      ensures CanonicalAll(block.statements, For(dialect)).Ok? ==>
                forall s <- block.statements ::
                  Normalized(Bare(s)) in CanonicalAll(block.statements, For(dialect)).value
    {
      StatementsFit(block.statements, dialect);
    }
    CatalogOfCatalogs(blocks, For(dialect));
    if AllFit(blocks, dialect) {
      CatalogExists(blocks, For(dialect));
    }
  }
}
