/**
 What the scanners of the schema comparison read, in terms of what is written: quoted text, nesting, block
 headers, closing lines, field types, native types, and a file as a list of blocks.
 */
module SchemaGrammar {
  import opened Wrappers
  import opened SchemaText
  import opened SchemaParity
  import opened SchemaCompare
  import opened SchemaRuns
  import SchemaCanonical
  import opened SchemaOrder

  // ---------- Quoted text ----------

  /** What may stand between two quotes `q`: escaped pairs, and characters that are neither. */
  predicate Quotable(inner: string, q: char) {
    if inner == "" then true
    else if inner[0] == '\\' then |inner| >= 2 && Quotable(inner[2..], q)
    else inner[0] != q && Quotable(inner[1..], q)
  }

  /** Inside a quote the scan stays inside until the quote is closed. */
  lemma {:induction false} StaysQuoted(before: string, inner: string, q: char)
    requires ScanOf(before) == Scan(Some(q), false) && IsQuote(q) && Quotable(inner, q)
    ensures ScanOf(before + inner) == Scan(Some(q), false)
    decreases |inner|
  {
    if inner == "" {
      assert before + inner == before;
    } else if inner[0] == '\\' {
      ScanNext(before, inner[0]);
      ScanNext(before + [inner[0]], inner[1]);
      assert before + inner == before + [inner[0]] + [inner[1]] + inner[2..];
      StaysQuoted(before + [inner[0]] + [inner[1]], inner[2..], q);
    } else {
      ScanNext(before, inner[0]);
      assert before + inner == before + [inner[0]] + inner[1..];
      StaysQuoted(before + [inner[0]], inner[1..], q);
    }
  }

  /** Quoted text leaves the scan outside quotes, wherever it stands. */
  lemma QuotedIsSkipped(before: string, inner: string, q: char)
    requires ScanOf(before).Open() && (q == '"' || q == '\'') && Quotable(inner, q)
    ensures ScanOf(before + [q] + inner) == Scan(Some(q), false)
    ensures ScanOf(before + [q] + inner + [q]) == ScanOf(before)
  {
    ScanNext(before, q);
    StaysQuoted(before + [q], inner, q);
    ScanNext(before + [q] + inner, q);
  }

  predicate Unquoted(text: string) {
    forall c <- text :: c != '"' && c != '\''
  }

  lemma UnquotedPrefix(text: string, n: nat)
    requires Unquoted(text) && n <= |text|
    ensures Unquoted(text[..n])
  {
    forall c <- text[..n] ensures c in text {
    }
  }

  /** So does text without quotes, backslashes included. */
  lemma {:induction false} UnquotedIsSkipped(before: string, text: string)
    requires ScanOf(before).Open() && Unquoted(text)
    ensures ScanOf(before + text) == ScanOf(before)
    decreases |text|
  {
    if text == "" {
      assert before + text == before;
    } else {
      var n := |text| - 1;
      UnquotedPrefix(text, n);
      UnquotedIsSkipped(before, text[..n]);
      assert text[n] in text && before + text == before + text[..n] + [text[n]];
      ScanNext(before + text[..n], text[n]);
    }
  }

  // ---------- Nesting ----------

  function Occurrences(text: string, c: char): nat {
    multiset(text)[c]
  }

  lemma OccurrencesNext(text: string, c: char, d: char)
    ensures Occurrences(text + [c], d) == Occurrences(text, d) + (if c == d then 1 else 0)
  {
  }

  function Balance(text: string): int {
    Occurrences(text, '(') + Occurrences(text, '[') - Occurrences(text, ')') - Occurrences(text, ']')
  }

  lemma BalanceNext(text: string, c: char)
    ensures Balance(text + [c]) == Balance(text) + Bracket(c)
  {
    OccurrencesNext(text, c, '(');
    OccurrencesNext(text, c, '[');
    OccurrencesNext(text, c, ')');
    OccurrencesNext(text, c, ']');
  }

  /** Outside quotes, nesting is what is opened less what is closed, by parentheses and brackets alike. */
  lemma {:induction false} NestingCounts(text: string)
    requires Unquoted(text)
    ensures Nesting(text) == Balance(text)
  {
    if text != "" {
      var n := |text| - 1;
      assert text == text[..n] + [text[n]];
      UnquotedPrefix(text, n);
      NestingCounts(text[..n]);
      UnquotedIsOpen(text[..n]);
      BalanceNext(text[..n], text[n]);
    }
  }

  lemma UnquotedIsOpen(text: string)
    requires Unquoted(text)
    ensures ScanOf(text).Open()
  {
    UnquotedIsSkipped("", text);
    assert "" + text == text;
  }

  /** What follows a text that leaves quotes closed nests on its own. */
  lemma {:induction false} NestingAdds(before: string, text: string)
    requires ScanOf(before).Open()
    ensures Nesting(before + text) == Nesting(before) + Nesting(text) && ScanOf(before + text) == ScanOf(text)
    decreases |text|
  {
    if text == "" {
      assert before + text == before;
    } else {
      var n := |text| - 1;
      NestingAdds(before, text[..n]);
      assert before + text == before + text[..n] + [text[n]] && text == text[..n] + [text[n]];
      NestingNext(before + text[..n], text[n]);
      ScanNext(before + text[..n], text[n]);
    }
  }

  /** Quoted brackets do not nest. */
  lemma {:induction false} QuotedNestsNothing(before: string, inner: string)
    requires forall k :: 0 <= k <= |inner| ==> !ScanOf(before + inner[..k]).Open()
    ensures Nesting(before + inner) == Nesting(before)
    decreases |inner|
  {
    if inner == "" {
      assert before + inner == before;
    } else {
      var n := |inner| - 1;
      forall k | 0 <= k <= n ensures !ScanOf(before + inner[..n][..k]).Open() {
        assert inner[..n][..k] == inner[..k];
      }
      QuotedNestsNothing(before, inner[..n]);
      assert before + inner == before + inner[..n] + [inner[n]] && inner[..n] == inner[..n][..n];
      NestingNext(before + inner[..n], inner[n]);
    }
  }

  // ---------- Lines that open and close blocks ----------

  lemma TrimAround(lead: string, text: string, tail: string)
    requires AllSpace(lead) && AllSpace(tail) && text != "" && Trimmed(text)
    ensures Trim(lead + text + tail) == text
  {
    TrimStartOver(lead, text + tail);
    assert lead + text + tail == lead + (text + tail);
    assert TrimStart(text + tail) == text + tail by {
      assert (text + tail)[0] == text[0];
    }
    TrimEndOver(text, tail);
  }

  lemma TrimCuts(line: string) returns (lead: string, tail: string)
    ensures AllSpace(lead) && AllSpace(tail) && line == lead + Trim(line) + tail
  {
    var rest := TrimStart(line);
    lead := StartCut(line);
    tail := EndCut(rest);
    assert line == lead + (Trim(line) + tail);
  }

  lemma {:induction false} StartCut(text: string) returns (lead: string)
    ensures AllSpace(lead) && text == lead + TrimStart(text)
  {
    if text == "" || !IsSpace(text[0]) {
      lead := "";
      assert text == "" + text;
    } else {
      var rest := StartCut(text[1..]);
      lead := [text[0]] + rest;
      assert text == [text[0]] + text[1..];
    }
  }

  lemma {:induction false} EndCut(text: string) returns (tail: string)
    ensures AllSpace(tail) && text == TrimEnd(text) + tail
  {
    if text == "" || !IsSpace(text[|text| - 1]) {
      tail := "";
      assert text == text + "";
    } else {
      var n := |text| - 1;
      var rest := EndCut(text[..n]);
      tail := rest + [text[n]];
      assert text == text[..n] + [text[n]];
    }
  }

  /** A block is closed by exactly the lines that hold a brace and whitespace around it. */
  lemma ClosesExactly(line: string)
    ensures Closes(line) <==>
              exists lead, tail :: AllSpace(lead) && AllSpace(tail) && line == lead + "}" + tail
  {
    if Closes(line) {
      var lead, tail := TrimCuts(line);
      assert Trim(line) == "}";
      assert line == lead + "}" + tail;
    }
    forall lead, tail | AllSpace(lead) && AllSpace(tail) && line == lead + "}" + tail ensures Closes(line) {
      TrimAround(lead, "}", tail);
    }
  }

  /** A letter, then letters, digits and underscores. */
  predicate IsIdentifier(name: string) {
    && name != "" && ('a' <= name[0] <= 'z' || 'A' <= name[0] <= 'Z')
    && forall c <- name :: 'a' <= c <= 'z' || 'A' <= c <= 'Z' || '0' <= c <= '9' || c == '_'
  }

  lemma NamesAreIdentifiers(name: string)
    ensures IsName(name) <==> IsIdentifier(name)
  {
    forall c <- name ensures IsWord(c) <==> 'a' <= c <= 'z' || 'A' <= c <= 'Z' || '0' <= c <= '9' || c == '_' {
    }
  }

  /** The words of the language that the comparison knows. */
  lemma SpelledOut()
    ensures Keyword(Model) == "model" && Keyword(Enum) == "enum" && Keyword(Type) == "type" && Keyword(View) == "view"
    ensures AllowedNative() == "@db.Timestamptz(3)"
  {
  }

  /** A line that opens a block: a keyword, whitespace, a name, a brace, and whitespace around them. */
  predicate Heads(line: string, h: Header, lead: string, gap: string, room: string, tail: string) {
    && AllSpace(lead) && IsGap(gap) && AllSpace(room) && AllSpace(tail) && IsIdentifier(h.name)
    && line == lead + (Keyword(h.kind) + gap + h.name + room + "{") + tail
  }

  lemma NoSpaceInWords(c: char)
    requires IsWord(c)
    ensures !IsSpace(c)
  {
  }

  lemma KeywordsDiffer(a: Kind, b: Kind)
    ensures Keyword(a) != "" && IsWord(Keyword(a)[0])
    ensures a != b ==> Keyword(a)[0] != Keyword(b)[0]
  {
  }

  lemma NameIsTrimmed(name: string)
    requires IsName(name)
    ensures name != "" && !IsSpace(name[0]) && !IsSpace(name[|name| - 1])
  {
    assert name[0] in name && name[|name| - 1] in name;
    NoSpaceInWords(name[0]);
    NoSpaceInWords(name[|name| - 1]);
  }

  /** The body of a header names its kind and no other. */
  lemma BodyNames(kind: Kind, gap: string, name: string)
    requires IsGap(gap) && IsName(name)
    ensures HeaderIn(Keyword(kind) + gap + name) == Some(Header(kind, name))
  {
    var body := Keyword(kind) + gap + name;
    KeywordsDiffer(kind, kind);
    forall other: Kind ensures HeaderFor(body, other) == if other == kind then Some(Header(kind, name)) else None {
      if other == kind {
        BodyFor(kind, gap, name);
      } else {
        KeywordsDiffer(other, kind);
        assert body[0] == Keyword(kind)[0];
      }
    }
  }

  lemma BodyFor(kind: Kind, gap: string, name: string)
    requires IsGap(gap) && IsName(name)
    ensures HeaderFor(Keyword(kind) + gap + name, kind) == Some(Header(kind, name))
  {
    var keyword, body := Keyword(kind), Keyword(kind) + gap + name;
    assert keyword <= body && body[|keyword|..] == gap + name && body[|keyword|] == gap[0];
    GapIsSpace(gap);
    TrimStartOver(gap, name);
    NameIsTrimmed(name);
  }

  lemma HeadedIsHeader(line: string, h: Header, lead: string, gap: string, room: string, tail: string)
    requires Heads(line, h, lead, gap, room, tail)
    ensures HeaderOf(line) == Some(h)
  {
    var front := Keyword(h.kind) + gap + h.name;
    var text := front + room + "{";
    NamesAreIdentifiers(h.name);
    KeywordsDiffer(h.kind, h.kind);
    NoSpaceInWords(Keyword(h.kind)[0]);
    assert text[0] == Keyword(h.kind)[0] && text[|text| - 1] == '{' && Trimmed(text);
    TrimAround(lead, text, tail);
    assert text[..|text| - 1] == front + room;
    TrimEndOver(front, room);
    NameIsTrimmed(h.name);
    assert front[|front| - 1] == h.name[|h.name| - 1] && TrimEnd(front) == front;
    BodyNames(h.kind, gap, h.name);
  }

  lemma HeaderIsHeaded(line: string)
    requires HeaderOf(line).Some?
    ensures exists lead, gap, room, tail :: Heads(line, HeaderOf(line).value, lead, gap, room, tail)
  {
    var lead, tail := TrimCuts(line);
    var body, room := BodyCuts(Trim(line));
    var gap := BodyIsHeaded(body, HeaderOf(line).value);
    NamesAreIdentifiers(HeaderOf(line).value.name);
    assert Heads(line, HeaderOf(line).value, lead, gap, room, tail);
  }

  lemma BodyCuts(text: string) returns (body: string, room: string)
    requires BodyOf(text).Some?
    ensures body == BodyOf(text).value && AllSpace(room) && text == body + room + "{"
  {
    body := TrimEnd(text[..|text| - 1]);
    room := EndCut(text[..|text| - 1]);
    assert text == text[..|text| - 1] + "{";
  }

  lemma BodyIsHeaded(body: string, h: Header) returns (gap: string)
    requires HeaderIn(body) == Some(h)
    ensures IsGap(gap) && IsName(h.name) && body == Keyword(h.kind) + gap + h.name
  {
    HeaderHasKind(body, h);
    gap := GapAfter(body, Keyword(h.kind), h.name);
  }

  lemma GapAfter(body: string, keyword: string, name: string) returns (gap: string)
    requires HeaderWith(body, keyword) && name == TrimStart(body[|keyword|..]) && IsName(name)
    ensures IsGap(gap) && body == keyword + gap + name
  {
    var rest := body[|keyword|..];
    gap := StartCut(rest);
    assert body == keyword + rest && rest == gap + name;
    HeaderHasGap(rest, name, gap);
  }

  lemma HeaderHasKind(body: string, h: Header)
    requires HeaderIn(body) == Some(h)
    ensures HeaderWith(body, Keyword(h.kind)) && h.name == TrimStart(body[|Keyword(h.kind)|..]) && IsName(h.name)
  {
  }

  lemma HeaderHasGap(rest: string, name: string, gap: string)
    requires rest != "" && IsSpace(rest[0]) && AllSpace(gap) && IsName(name) && rest == gap + name
    ensures IsGap(gap)
  {
    NameIsTrimmed(name);
    assert gap == "" ==> rest == name;
  }

  /** A block is opened by exactly the lines that are headed, and under that kind and name. */
  lemma OpensExactly(line: string, h: Header)
    ensures HeaderOf(line) == Some(h) <==> exists lead, gap, room, tail :: Heads(line, h, lead, gap, room, tail)
  {
    if HeaderOf(line) == Some(h) {
      HeaderIsHeaded(line);
    }
    forall lead, gap, room, tail | Heads(line, h, lead, gap, room, tail) ensures HeaderOf(line) == Some(h) {
      HeadedIsHeader(line, h, lead, gap, room, tail);
    }
  }

  // ---------- Field types ----------

  lemma {:induction false} FirstMeans(text: string, i: nat, stop: char -> bool)
    requires i <= |text|
    ensures var end := First(text, i, stop);
            (end < |text| ==> stop(text[end])) && forall j :: i <= j < end ==> !stop(text[j])
    decreases |text| - i
  {
    if i < |text| && !stop(text[i]) {
      FirstMeans(text, i + 1, stop);
    }
  }

  lemma FirstIs(text: string, i: nat, end: nat, stop: char -> bool)
    requires i <= end <= |text| && (end < |text| ==> stop(text[end])) && forall j :: i <= j < end ==> !stop(text[j])
    ensures First(text, i, stop) == end
  {
    FirstMeans(text, i, stop);
  }

  /** A statement that starts with a word, whitespace, and this type, up to whitespace or the end. */
  predicate Typed(statement: string, kind: string, word: string, gap: string, rest: string) {
    && word != "" && (forall c <- word :: IsWord(c)) && IsGap(gap)
    && kind != "" && (forall c <- kind :: !IsSpace(c)) && (rest == "" || IsSpace(rest[0]))
    && statement == word + gap + kind + rest
  }

  lemma TypedHasType(statement: string, kind: string, word: string, gap: string, rest: string)
    requires Typed(statement, kind, word, gap, rest)
    ensures FieldType(statement) == Some(kind)
  {
    var a, b, c := |word|, |word| + |gap|, |word| + |gap| + |kind|;
    GapIsSpace(gap);
    assert statement[a] == gap[0] && statement[b] == kind[0] && kind[0] in kind;
    forall j | 0 <= j < a ensures IsWord(statement[j]) {
      assert statement[j] == word[j] && word[j] in word;
    }
    forall j | a <= j < b ensures IsSpace(statement[j]) {
      assert statement[j] == gap[j - a] && gap[j - a] in gap;
    }
    forall j | b <= j < c ensures !IsSpace(statement[j]) {
      assert statement[j] == kind[j - b] && kind[j - b] in kind;
    }
    assert c < |statement| ==> statement[c] == rest[0];
    FirstIs(statement, 0, a, NotWord);
    FirstIs(statement, a, b, NotSpace);
    FirstIs(statement, b, c, IsSpace);
    assert statement[b..c] == kind;
  }

  /** Nothing between two places stops a scan that stops at the second. */
  lemma NoneIn(text: string, i: nat, end: nat, stop: char -> bool)
    requires i <= end <= |text| && forall j :: i <= j < end ==> !stop(text[j])
    ensures forall x <- text[i..end] :: !stop(x)
  {
  }

  lemma PiecesAreTyped(word: string, gap: string, kind: string, rest: string)
    requires word != "" && gap != "" && kind != "" && (rest == "" || IsSpace(rest[0]))
    requires (forall x <- word :: !NotWord(x)) && (forall x <- gap :: !NotSpace(x)) && forall x <- kind :: !IsSpace(x)
    ensures Typed(word + gap + kind + rest, kind, word, gap, rest)
  {
    forall x <- word ensures IsWord(x) {
      assert !NotWord(x);
    }
    forall x <- gap ensures IsSpace(x) {
      assert !NotSpace(x);
    }
  }

  lemma FourPieces(text: string, a: nat, b: nat, c: nat)
    requires a <= b <= c <= |text|
    ensures text[..a] + text[a..b] + text[b..c] + text[c..] == text
  {
  }

  lemma TypeIsTyped(statement: string) returns (word: string, gap: string, rest: string)
    requires FieldType(statement).Some?
    ensures Typed(statement, FieldType(statement).value, word, gap, rest)
  {
    var a := First(statement, 0, NotWord);
    var b := First(statement, a, NotSpace);
    var c := First(statement, b, IsSpace);
    word, gap, rest := statement[..a], statement[a..b], statement[c..];
    FirstPiece(statement, 0, NotWord);
    FirstPiece(statement, a, NotSpace);
    FirstPiece(statement, b, IsSpace);
    FourPieces(statement, a, b, c);
    PiecesAreTyped(word, gap, statement[b..c], rest);
  }

  lemma FirstPiece(text: string, i: nat, stop: char -> bool)
    requires i <= |text|
    ensures var end := First(text, i, stop);
            && (forall x <- text[i..end] :: !stop(x)) && (text[end..] == "" || stop(text[end..][0]))
  {
    FirstMeans(text, i, stop);
    NoneIn(text, i, First(text, i, stop), stop);
  }

  /** The type of a field is its second word, and a statement without one has none. */
  lemma TypesExactly(statement: string, kind: string)
    ensures FieldType(statement) == Some(kind) <==> exists word, gap, rest :: Typed(statement, kind, word, gap, rest)
  {
    if FieldType(statement) == Some(kind) {
      var word, gap, rest := TypeIsTyped(statement);
    }
    forall word, gap, rest | Typed(statement, kind, word, gap, rest) ensures FieldType(statement) == Some(kind) {
      TypedHasType(statement, kind, word, gap, rest);
    }
  }

  // ---------- Native types ----------

  /** The word after the prefix of a native type, as long as it goes. */
  predicate WordSpan(text: string, i: nat, word: nat) {
    && i < word <= |text| && (forall j :: i <= j < word ==> IsWord(text[j])) && (word < |text| ==> !IsWord(text[word]))
  }

  /** From an opening parenthesis to just behind the first closing one. */
  predicate ParenSpan(text: string, i: nat, end: nat) {
    && i + 2 <= end <= |text| && text[i] == '(' && text[end - 1] == ')'
    && forall j :: i < j < end - 1 ==> text[j] != ')'
  }

  /** A native type: the prefix, a word, and a parenthesis behind it if there is one that closes. */
  ghost predicate NativeSpan(text: string, i: nat, end: nat) {
    && i + 4 < end <= |text|
    && text[i] == '@' && text[i + 1] == 'd' && text[i + 2] == 'b' && text[i + 3] == '.'
    && exists word: nat ::
         WordSpan(text, i + 4, word) && (ParenSpan(text, word, end) || (end == word && NoParen(text, word)))
  }

  ghost predicate NoParen(text: string, word: nat) {
    forall end: nat :: !ParenSpan(text, word, end)
  }

  lemma WordEnds(text: string, i: nat, word: nat)
    requires i <= |text|
    ensures WordSpan(text, i, word) <==> word == First(text, i, NotWord) > i
  {
    FirstMeans(text, i, NotWord);
    if WordSpan(text, i, word) {
      forall j | i <= j < word ensures !NotWord(text[j]) {
        assert IsWord(text[j]);
      }
      FirstIs(text, i, word, NotWord);
    }
    if word == First(text, i, NotWord) > i {
      forall j | i <= j < word ensures IsWord(text[j]) {
        assert !NotWord(text[j]);
      }
    }
  }

  lemma ParenEnds(text: string, i: nat, end: nat)
    requires i < |text| && text[i] == '('
    ensures ParenSpan(text, i, end) <==> First(text, i + 1, IsClose) < |text| && end == First(text, i + 1, IsClose) + 1
  {
    FirstMeans(text, i + 1, IsClose);
    var first := First(text, i + 1, IsClose);
    if ParenSpan(text, i, end) {
      forall j | i + 1 <= j < end - 1 ensures !IsClose(text[j]) {
        assert text[j] != ')';
      }
      FirstIs(text, i + 1, end - 1, IsClose);
    }
    if first < |text| && end == first + 1 {
      forall j | i < j < end - 1 ensures text[j] != ')' {
        assert !IsClose(text[j]);
      }
    }
  }

  /** Native types end where they should, and nothing else is taken for one. */
  lemma NativesEnd(text: string, i: nat, end: nat)
    requires i <= |text|
    ensures NativeSpan(text, i, end) <==> end == NativeEnd(text, i) > i
  {
    if StartsNative(text, i) {
      var at := i + 4;
      var word := First(text, at, NotWord);
      forall w: nat ensures WordSpan(text, at, w) <==> w == word > at {
        WordEnds(text, at, w);
      }
      if word < |text| && text[word] == '(' {
        forall e: nat
          ensures ParenSpan(text, word, e) <==>
                    First(text, word + 1, IsClose) < |text| && e == First(text, word + 1, IsClose) + 1
        {
          ParenEnds(text, word, e);
        }
      }
      NativeAfterWord(text, i, at, word, end);
    }
  }

  lemma NativeAfterWord(text: string, i: nat, at: nat, word: nat, end: nat)
    requires StartsNative(text, i) && at == i + 4 && word == First(text, at, NotWord)
    requires forall w: nat :: WordSpan(text, at, w) <==> w == word > at
    requires word < |text| && text[word] == '(' ==>
               forall e: nat ::
                 ParenSpan(text, word, e) <==>
                   First(text, word + 1, IsClose) < |text| && e == First(text, word + 1, IsClose) + 1
    ensures NativeSpan(text, i, end) <==> end == NativeEnd(text, i) > i
  {
    if word > at {
      assert WordSpan(text, at, word);
      if word < |text| && text[word] == '(' && First(text, word + 1, IsClose) < |text| {
        assert ParenSpan(text, word, First(text, word + 1, IsClose) + 1);
      } else {
        assert NoParen(text, word);
      }
    }
  }

  /** What is read is a native type that starts no earlier. */
  lemma {:induction false} ReadsNatives(text: string, i: nat)
    requires i <= |text|
    ensures forall n <- ReadFrom(text, i, NativeReach) ::
              exists start: nat, end: nat :: i <= start && NativeSpan(text, start, end) && n == text[start..end]
    decreases |text| - i
  {
    if i < |text| {
      var end := NativeEnd(text, i);
      var next := if end == i then i + 1 else end;
      ReadsNatives(text, next);
      NativesEnd(text, i, end);
      forall n <- ReadFrom(text, i, NativeReach)
        ensures exists start: nat, e: nat :: i <= start && NativeSpan(text, start, e) && n == text[start..e]
      {
        if end > i && n == text[i..end] {
          assert NativeSpan(text, i, end);
        } else {
          assert n in ReadFrom(text, next, NativeReach);
        }
      }
    }
  }

  /** A native type that is read from `i` on and covers this place. */
  ghost predicate ReadOver(text: string, i: nat, start: nat, s: nat, e: nat)
    requires i <= |text|
  {
    s <= start < e && NativeSpan(text, s, e) && text[s..e] in ReadFrom(text, i, NativeReach)
  }

  lemma ReadEarlier(text: string, i: nat, next: nat, start: nat, s: nat, e: nat)
    requires i < |text| && next == (if NativeEnd(text, i) == i then i + 1 else NativeEnd(text, i))
    requires ReadOver(text, next, start, s, e)
    ensures ReadOver(text, i, start, s, e)
  {
  }

  /** A native type is read, unless it starts inside one that is. */
  lemma {:induction false} NativesAreRead(text: string, i: nat, start: nat, end: nat) returns (s: nat, e: nat)
    requires i <= start && NativeSpan(text, start, end)
    ensures ReadOver(text, i, start, s, e)
    decreases |text| - i
  {
    var first := NativeEnd(text, i);
    if first > i && start < first {
      s, e := i, first;
      NativesEnd(text, i, first);
      FirstIsRead(text, i);
    } else {
      NativesEnd(text, start, end);
      var next := if first == i then i + 1 else first;
      s, e := NativesAreRead(text, next, start, end);
      ReadEarlier(text, i, next, start, s, e);
    }
  }

  lemma FirstIsRead(text: string, i: nat)
    requires i < |text| && NativeEnd(text, i) > i
    ensures text[i..NativeEnd(text, i)] in ReadFrom(text, i, NativeReach)
  {
  }

  // ---------- Taking native types out ----------

  lemma WithoutFirst(text: string, what: string)
    requires text != "" && what != ""
    ensures Without(text, what, 0) ==
            if what <= text then Without(text[|what|..], what, 0) else [text[0]] + Without(text[1..], what, 0)
  {
    assert text[0..] == text;
    var next := if what <= text then |what| else 1;
    assert text == text[..next] + text[next..];
    SchemaCanonical.WithoutShift(text[..next], text[next..], what, 0);
  }

  /** Nowhere in front of this place does `what` occur. */
  ghost predicate FirstAt(text: string, what: string, place: nat) {
    place <= |text| && forall k :: 0 <= k < place ==> !(what <= text[k..])
  }

  lemma FirstAtNext(text: string, what: string, place: nat)
    requires 0 < place && FirstAt(text, what, place)
    ensures FirstAt(text[1..], what, place - 1) && !(what <= text)
  {
    assert text[0..] == text;
    forall k | 0 <= k < place - 1 ensures !(what <= text[1..][k..]) {
      assert text[1..][k..] == text[k + 1..];
    }
  }

  lemma OneMoreInFront(text: string, place: nat, rest: string)
    requires 0 < place <= |text|
    ensures [text[0]] + (text[1..][..place - 1] + rest) == text[..place] + rest
    ensures text[1..][place - 1..] == text[place..]
  {
    assert [text[0]] + text[1..][..place - 1] == text[..place];
  }

  /** The first occurrence goes, what is in front of it stays, and so on behind it. */
  lemma {:induction false} TakesOut(text: string, what: string, place: nat)
    requires what != "" && FirstAt(text, what, place) && what <= text[place..]
    ensures Without(text, what, 0) == text[..place] + Without(text[place..][|what|..], what, 0)
    decreases place
  {
    WithoutFirst(text, what);
    if place == 0 {
      assert text[0..] == text && text[..0] == "";
    } else {
      FirstAtNext(text, what, place);
      OneMoreInFront(text, place, Without(text[place..][|what|..], what, 0));
      TakesOut(text[1..], what, place - 1);
    }
  }

  /** Without an occurrence nothing goes. */
  lemma {:induction false} TakesNothing(text: string, what: string)
    requires what != "" && FirstAt(text, what, |text|)
    ensures Without(text, what, 0) == text
    decreases |text|
  {
    if text != "" {
      WithoutFirst(text, what);
      FirstAtNext(text, what, |text|);
      TakesNothing(text[1..], what);
    }
  }

  // ---------- Lines that count ----------

  /** The only lines that do not count are those with nothing on them but whitespace and comments. */
  lemma OnlyEmptyLinesSkipped(raw: string)
    ensures Skipped(Cleaned(raw)) <==> Cleaned(raw) == ""
  {
    var line := StripLine(raw);
    var lead, tail := TrimCuts(line);
    StripTwice(raw);
    assert line == raw[..|line|];
    if |Cleaned(raw)| >= 3 {
      SpacesAreUnquoted(lead);
      UnquotedIsSkipped("", lead);
      assert "" + lead == lead && raw[..|lead|] == line[..|lead|] == lead;
      assert raw[|lead|] == line[|lead|] == Trim(line)[0] && raw[|lead| + 1] == line[|lead| + 1] == Trim(line)[1];
      assert !CommentAt(raw, |lead|);
    }
  }

  lemma SpacesAreUnquoted(text: string)
    requires AllSpace(text)
    ensures Unquoted(text)
  {
    forall c <- text ensures c != '"' && c != '\'' {
      assert IsSpace(c);
    }
  }

  // ---------- A file, block by block ----------

  lemma {:induction false} NothingOpens(before: seq<string>, rest: seq<string>, i: nat, g: Syntax)
    requires i <= |before| && forall line <- before :: g.opens(line).None?
    ensures BlocksFrom(before + rest, i, g) == BlocksFrom(rest, 0, g)
    decreases |before| - i
  {
    if i == |before| {
      BlocksShift(before, rest, 0, g);
    } else {
      assert (before + rest)[i] == before[i] && before[i] in before;
      NothingOpens(before, rest, i + 1, g);
    }
  }

  lemma {:induction false} ClosingIs(body: seq<string>, close: string, rest: seq<string>, i: nat, g: Syntax)
    requires i <= |body| && g.closes(close) && forall line <- body :: !g.closes(line)
    ensures ClosingLine(body + [close] + rest, i, g) == |body|
    decreases |body| - i
  {
    if i < |body| {
      assert (body + [close] + rest)[i] == body[i] && body[i] in body;
      ClosingIs(body, close, rest, i + 1, g);
    }
  }

  /**
   Lines that open no block are passed over; a line that does starts one, which runs to the first
   line that closes it; and the rest of the file is read like a file.
   */
  lemma FileReads(before: seq<string>, head: string, body: seq<string>, close: string, rest: seq<string>, g: Syntax)
    requires (forall line <- before :: g.opens(line).None?) && g.opens(head).Some?
    requires g.closes(close) && forall line <- body :: !g.closes(line)
    ensures BlocksFrom(before + ([head] + (body + [close] + rest)), 0, g) ==
            After(BlockOf(g.opens(head).value, g.splits(body)), BlocksFrom(rest, 0, g))
  {
    NothingOpens(before, [head] + (body + [close] + rest), 0, g);
    BlockReads(head, body, close, rest, g);
  }

  lemma BlockReads(head: string, body: seq<string>, close: string, rest: seq<string>, g: Syntax)
    requires g.opens(head).Some? && g.closes(close) && forall line <- body :: !g.closes(line)
    ensures BlocksFrom([head] + (body + [close] + rest), 0, g) ==
            After(BlockOf(g.opens(head).value, g.splits(body)), BlocksFrom(rest, 0, g))
  {
    var inner := body + [close] + rest;
    var file, end := [head] + inner, 1 + |body|;
    ClosingIs(body, close, rest, 0, g);
    ClosingShift([head], inner, 0, g);
    assert file[0] == head && ClosingLine(file, 1, g) == end && file[1..end] == body;
    AfterBlock(head, body, close, rest, g);
  }

  lemma AfterBlock(head: string, body: seq<string>, close: string, rest: seq<string>, g: Syntax)
    ensures BlocksFrom([head] + (body + [close] + rest), |body| + 2, g) == BlocksFrom(rest, 0, g)
  {
    var front := [head] + (body + [close]);
    assert [head] + (body + [close] + rest) == front + rest && |front| == |body| + 2;
    BlocksShift(front, rest, 0, g);
  }

  /** A block that nothing closes makes the file unreadable. */
  lemma {:induction false} OpenEnds(before: seq<string>, head: string, body: seq<string>, g: Syntax)
    requires (forall line <- before :: g.opens(line).None?) && g.opens(head).Some?
    requires forall line <- body :: !g.closes(line)
    ensures BlocksFrom(before + ([head] + body), 0, g) ==
            Err(Unclosed(g.opens(head).value.kind, g.opens(head).value.name))
  {
    NothingOpens(before, [head] + body, 0, g);
    ClosingShift([head], body, 0, g);
    NeverCloses(body, 0, g);
  }

  lemma {:induction false} NeverCloses(body: seq<string>, i: nat, g: Syntax)
    requires i <= |body| && forall line <- body :: !g.closes(line)
    ensures ClosingLine(body, i, g) == |body|
    decreases |body| - i
  {
    if i < |body| {
      assert body[i] in body;
      NeverCloses(body, i + 1, g);
    }
  }
}
