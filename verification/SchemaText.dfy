/**
 The character scanners of the schema comparison. All of them track quotes and escapes the
 same way; what each adds is proved to respect quoted text.
 */
module SchemaText {
  import opened Wrappers

  // ---------- Quotes and escapes ----------

  /** Inside which quote the scan is, and whether the next character is escaped. */
  datatype Scan = Scan(quote: Option<char>, escaped: bool) {
    predicate Open() {
      quote.None? && !escaped
    }
  }

  function Start(): Scan {
    Scan(None, false)
  }

  predicate IsQuote(c: char) {
    c == '"' || c == '\''
  }

  function Advance(s: Scan, c: char): Scan {
    if s.escaped then Scan(s.quote, false)
    else if c == '\\' && s.quote.Some? then Scan(s.quote, true)
    else if IsQuote(c) then Scan(if s.quote == Some(c) then None else if s.quote.None? then Some(c) else s.quote, false)
    else s
  }

  /** The scan after a whole text. */
  function ScanOf(text: string): Scan {
    if text == "" then Start() else Advance(ScanOf(text[..|text| - 1]), text[|text| - 1])
  }

  lemma ScanNext(text: string, c: char)
    ensures ScanOf(text + [c]) == Advance(ScanOf(text), c)
  {
    assert (text + [c])[..|text|] == text;
  }

  /** Only quoted characters are ever escaped. */
  lemma {:induction false} EscapedIsQuoted(text: string)
    ensures ScanOf(text).escaped ==> ScanOf(text).quote.Some?
  {
    if text != "" {
      EscapedIsQuoted(text[..|text| - 1]);
    }
  }

  // ---------- Line comments ----------

  predicate CommentAt(line: string, i: nat) {
    i + 1 < |line| && ScanOf(line[..i]).Open() && line[i] == '/' && line[i + 1] == '/'
  }

  /** Where the first comment at or after `i` starts, or the end of the line. */
  function CommentFrom(line: string, i: nat): (start: nat)
    requires i <= |line|
    ensures i <= start <= |line| && (start < |line| ==> CommentAt(line, start))
    ensures forall j :: i <= j < start ==> !CommentAt(line, j)
    decreases |line| - i
  {
    if i == |line| then i else if CommentAt(line, i) then i else CommentFrom(line, i + 1)
  }

  /** The line up to its first unquoted comment. */
  function StripLine(line: string): string {
    line[..CommentFrom(line, 0)]
  }

  lemma ScanFurther(text: string, i: nat)
    requires i < |text|
    ensures ScanOf(text[..i + 1]) == Advance(ScanOf(text[..i]), text[i])
  {
    assert text[..i + 1] == text[..i] + [text[i]];
    ScanNext(text[..i], text[i]);
  }

  lemma StripsAt(line: string, i: nat)
    requires i <= |line| && (forall j :: 0 <= j < i ==> !CommentAt(line, j)) && (i == |line| || CommentAt(line, i))
    ensures StripLine(line) == line[..i]
  {
    var start := CommentFrom(line, 0);
    assert !(start < i) && !(i < start);
  }

  method StripLineComment(line: string) returns (r: string)
    ensures r == StripLine(line)
  {
    var s := Start();
    var i := 0;
    while i + 1 < |line|
      invariant 0 <= i <= |line| && s == ScanOf(line[..i])
      invariant forall j :: 0 <= j < i ==> !CommentAt(line, j)
    {
      if s.Open() && line[i] == '/' && line[i + 1] == '/' {
        StripsAt(line, i);
        return line[..i];
      }
      ScanFurther(line, i);
      s := Advance(s, line[i]);
      i := i + 1;
    }
    StripsAt(line, |line|);
    assert line[..|line|] == line;
    return line;
  }

  /** `r` stops at the first comment, and only there. */
  ghost predicate Stripped(line: string, r: string) {
    && r <= line && (forall i :: 0 <= i < |r| ==> !CommentAt(line, i))
    && (r == line || CommentAt(line, |r|))
  }

  lemma StrippedIsUnique(line: string, a: string, b: string)
    requires Stripped(line, a) && Stripped(line, b)
    ensures a == b
  {
    assert |a| == |b|;
    assert a == line[..|a|] && b == line[..|b|];
  }

  /** Stripping stops at the first comment, and stripping again changes nothing. */
  lemma StripTwice(line: string)
    ensures Stripped(line, StripLine(line)) && StripLine(StripLine(line)) == StripLine(line)
  {
    var r := StripLine(line);
    var again := StripLine(r);
    assert again == r[..|again|] && r == line[..|r|];
    assert r[..|again|] == line[..|again|];
    assert CommentAt(r, |again|) ==> CommentAt(line, |again|);
  }

  // ---------- Whitespace ----------

  predicate IsSpace(c: char) {
    || c == ' ' || c == '\t' || c == '\n' || c == '\r' || c == '\U{B}' || c == '\U{C}' || c == '\U{A0}'
    || c == '\U{1680}'
    || '\U{2000}' <= c <= '\U{200A}' || c == '\U{2028}' || c == '\U{2029}'
    || c == '\U{202F}' || c == '\U{205F}' || c == '\U{3000}' || c == '\U{FEFF}'
  }

  /** The white space and line terminators of ECMA-262, sections 12.2 and 12.3, one by one. */
  lemma SpacesAre(c: char)
    ensures IsSpace(c) <==>
            c in {'\t', '\U{B}', '\U{C}', ' ', '\U{A0}', '\U{FEFF}', '\n', '\r', '\U{2028}', '\U{2029}',
                  '\U{1680}', '\U{2000}', '\U{2001}', '\U{2002}', '\U{2003}', '\U{2004}', '\U{2005}', '\U{2006}',
                  '\U{2007}', '\U{2008}', '\U{2009}', '\U{200A}', '\U{202F}', '\U{205F}', '\U{3000}'}
  {
  }

  function TrimStart(text: string): (r: string)
    ensures |r| <= |text|
  {
    if text == "" || !IsSpace(text[0]) then text else TrimStart(text[1..])
  }

  function TrimEnd(text: string): (r: string)
    ensures |r| <= |text|
  {
    if text == "" || !IsSpace(text[|text| - 1]) then text else TrimEnd(text[..|text| - 1])
  }

  /** What is left is the end of the text, and starts with no space. */
  lemma {:induction false} TrimStartEnds(text: string)
    ensures var r := TrimStart(text); (r == "" || !IsSpace(r[0])) && r == text[|text| - |r|..]
  {
    if text != "" && IsSpace(text[0]) {
      TrimStartEnds(text[1..]);
    }
  }

  /** What is left is the start of the text, and ends with no space. */
  lemma {:induction false} TrimEndStarts(text: string)
    ensures var r := TrimEnd(text); (r == "" || !IsSpace(r[|r| - 1])) && r == text[..|r|]
  {
    if text != "" && IsSpace(text[|text| - 1]) {
      TrimEndStarts(text[..|text| - 1]);
    }
  }

  function Trim(text: string): string {
    TrimEnd(TrimStart(text))
  }

  predicate Trimmed(text: string) {
    text == "" || (!IsSpace(text[0]) && !IsSpace(text[|text| - 1]))
  }

  lemma TrimIsTrimmed(text: string)
    ensures Trimmed(Trim(text))
  {
    TrimStartEnds(text);
    TrimEndStarts(TrimStart(text));
  }

  lemma TrimKeepsTrimmed(text: string)
    requires Trimmed(text)
    ensures Trim(text) == text
  {
  }

  /** What has been written, the scan, and whether a space is due. */
  datatype Squeezed = Squeezed(out: string, scan: Scan, pending: bool)

  function WithGap(s: Squeezed): string {
    if s.pending && s.out != "" then s.out + " " else s.out
  }

  /** The loop body, branch by branch. */
  function SqueezeStep(s: Squeezed, c: char): Squeezed {
    var next := Advance(s.scan, c);
    if s.scan.escaped || (c == '\\' && s.scan.quote.Some?) then Squeezed(s.out + [c], next, s.pending)
    else if IsQuote(c) then Squeezed(WithGap(s) + [c], next, false)
    else if s.scan.quote.None? && IsSpace(c) then Squeezed(s.out, next, true)
    else Squeezed(WithGap(s) + [c], next, false)
  }

  function Squeeze(text: string): Squeezed {
    if text == "" then Squeezed("", Start(), false) else SqueezeStep(Squeeze(text[..|text| - 1]), text[|text| - 1])
  }

  function Normalized(text: string): string {
    Squeeze(Trim(text)).out
  }

  method NormalizeWhitespace(text: string) returns (r: string)
    ensures r == Normalized(text)
  {
    var trimmed := Trim(text);
    var s := Squeezed("", Start(), false);
    for i := 0 to |trimmed|
      invariant s == Squeeze(trimmed[..i])
    {
      assert trimmed[..i + 1][..i] == trimmed[..i];
      s := SqueezeStep(s, trimmed[i]);
    }
    assert trimmed[..|trimmed|] == trimmed;
    return s.out;
  }

  lemma SqueezeNext(text: string, c: char)
    ensures Squeeze(text + [c]) == SqueezeStep(Squeeze(text), c)
  {
    assert (text + [c])[..|text|] == text;
  }

  /** A gap is only ever due outside quotes, and the scan is the scan of the text. */
  lemma {:induction false} SqueezeScans(text: string)
    ensures Squeeze(text).scan == ScanOf(text)
    ensures Squeeze(text).pending ==> Squeeze(text).scan.Open()
  {
    if text != "" {
      SqueezeScans(text[..|text| - 1]);
      EscapedIsQuoted(text[..|text| - 1]);
    }
  }

  /** `s` is what squeezing its own output gives. */
  ghost predicate Stable(s: Squeezed) {
    && (s.pending ==> s.scan.Open())
    && Squeeze(s.out) == s.(pending := false)
  }

  lemma SpaceIsQuiet(scan: Scan, c: char)
    requires IsSpace(c) && scan.Open()
    ensures Advance(scan, c) == scan && !IsQuote(c) && c != '\\'
  {
  }

  /** A character written straight after what is stable is stable again. */
  lemma WriteStable(s: Squeezed, c: char)
    requires Stable(s) && SqueezeStep(s, c).out == s.out + [c]
    ensures Squeeze(s.out + [c]) == SqueezeStep(s, c).(pending := false)
  {
    SqueezeNext(s.out, c);
  }

  /** A character written after a gap is stable again. */
  lemma WriteGapStable(s: Squeezed, c: char)
    requires Stable(s) && s.pending && s.out != "" && SqueezeStep(s, c).out == s.out + " " + [c]
    ensures Squeeze(s.out + " " + [c]) == SqueezeStep(s, c)
  {
    SpaceIsQuiet(s.scan, ' ');
    SqueezeNext(s.out, ' ');
    assert s.out + " " == s.out + [' '];
    SqueezeNext(s.out + " ", c);
  }

  lemma StepStable(s: Squeezed, c: char)
    requires Stable(s)
    ensures Stable(SqueezeStep(s, c))
  {
    if s.scan.quote.None? && IsSpace(c) && s.scan.Open() {
      SpaceIsQuiet(s.scan, c);
    } else if s.pending && s.out != "" {
      WriteGapStable(s, c);
    } else {
      WriteStable(s, c);
    }
  }

  /** Squeezing what squeezing wrote writes the same again, and ends in the same scan. */
  lemma {:induction false} SqueezeTwice(text: string)
    ensures Stable(Squeeze(text)) && !(Squeeze(text).scan.escaped && Squeeze(text).scan.quote.None?)
  {
    if text != "" {
      SqueezeTwice(text[..|text| - 1]);
      StepStable(Squeeze(text[..|text| - 1]), text[|text| - 1]);
    }
  }

  /** Squeezed text starts and ends as the text does. */
  lemma {:induction false} SqueezeEnds(text: string)
    requires text != "" && !IsSpace(text[0])
    ensures Squeeze(text).out != "" && Squeeze(text).out[0] == text[0]
    ensures !IsSpace(text[|text| - 1]) ==> Squeeze(text).out[|Squeeze(text).out| - 1] == text[|text| - 1]
  {
    if |text| == 1 {
      assert text == "" + [text[0]];
      SqueezeNext("", text[0]);
    } else {
      SqueezeEnds(text[..|text| - 1]);
    }
  }

  /** Normalizing twice is normalizing once. */
  lemma NormalizeTwice(text: string)
    ensures Normalized(Normalized(text)) == Normalized(text)
  {
    var trimmed := Trim(text);
    TrimIsTrimmed(text);
    if trimmed != "" {
      SqueezeEnds(trimmed);
    }
    TrimKeepsTrimmed(Normalized(text));
    SqueezeTwice(trimmed);
  }

  /** Everything but unquoted whitespace, in order. */
  function Visible(text: string): string {
    if text == "" then "" else
    var before, c := text[..|text| - 1], text[|text| - 1];
    if ScanOf(before).quote.None? && IsSpace(c) then Visible(before) else Visible(before) + [c]
  }

  lemma VisibleNext(text: string, c: char)
    ensures Visible(text + [c]) == if ScanOf(text).quote.None? && IsSpace(c) then Visible(text) else Visible(text) + [c]
  {
    assert (text + [c])[..|text|] == text;
  }

  /** The output so far scans as the text so far does. */
  ghost predicate Mirrors(s: Squeezed, before: string) {
    Stable(s) && ScanOf(s.out) == s.scan == ScanOf(before)
  }

  lemma SqueezeMirrors(text: string)
    ensures Mirrors(Squeeze(text), text)
  {
    SqueezeTwice(text);
    SqueezeScans(text);
    SqueezeScans(Squeeze(text).out);
  }

  /** A step writes nothing, the character, or a space and the character. */
  lemma StepWrites(s: Squeezed, c: char)
    requires Stable(s) && !(s.scan.escaped && s.scan.quote.None?)
    ensures var out := SqueezeStep(s, c).out;
            || (out == s.out && s.scan.Open() && IsSpace(c))
            || (out == s.out + [c] && !(s.scan.Open() && IsSpace(c)))
            || (out == s.out + [' '] + [c] && s.scan.Open() && !IsSpace(c))
  {
    if s.scan.Open() && IsSpace(c) {
      SpaceIsQuiet(s.scan, c);
    }
    assert " " == [' '];
  }

  lemma StepKeepsVisible(s: Squeezed, before: string, c: char)
    requires Mirrors(s, before) && !(s.scan.escaped && s.scan.quote.None?)
    requires Visible(s.out) == Visible(before)
    ensures Visible(SqueezeStep(s, c).out) == Visible(before + [c])
  {
    StepWrites(s, c);
    VisibleNext(before, c);
    VisibleNext(s.out, c);
    VisibleNext(s.out, ' ');
    ScanNext(s.out, ' ');
    VisibleNext(s.out + [' '], c);
  }

  lemma NextKeepsVisible(before: string, c: char)
    requires Visible(Squeeze(before).out) == Visible(before)
    ensures Visible(Squeeze(before + [c]).out) == Visible(before + [c])
  {
    SqueezeMirrors(before);
    EscapedIsQuoted(before);
    SqueezeNext(before, c);
    StepKeepsVisible(Squeeze(before), before, c);
  }

  /** Quoted text survives character for character; only unquoted whitespace is touched. */
  lemma {:induction false} SqueezeKeepsVisible(text: string)
    ensures Visible(Squeeze(text).out) == Visible(text)
  {
    if text != "" {
      var before, c := text[..|text| - 1], text[|text| - 1];
      assert text == before + [c];
      SqueezeKeepsVisible(before);
      NextKeepsVisible(before, c);
    }
  }

  predicate AllSpace(text: string) {
    forall c <- text :: IsSpace(c)
  }

  /** Outside quotes, one run of whitespace is as good as another. */
  lemma {:induction false} RunLeavesGap(text: string, run: string)
    requires ScanOf(text).Open() && run != "" && AllSpace(run)
    ensures Squeeze(text + run) == Squeeze(text).(pending := true)
    decreases |run|
  {
    SqueezeScans(text);
    var n := |run| - 1;
    assert text + run == text + run[..n] + [run[n]];
    SqueezeNext(text + run[..n], run[n]);
    SpaceIsQuiet(ScanOf(text), run[n]);
    if n == 0 {
      assert text + run[..n] == text;
    } else {
      RunLeavesGap(text, run[..n]);
    }
  }

  lemma {:induction false} SameFromSame(a: string, b: string, rest: string)
    requires Squeeze(a) == Squeeze(b)
    ensures Squeeze(a + rest) == Squeeze(b + rest)
    decreases |rest|
  {
    if rest == "" {
      assert a + rest == a && b + rest == b;
    } else {
      var n := |rest| - 1;
      SameFromSame(a, b, rest[..n]);
      assert a + rest == a + rest[..n] + [rest[n]] && b + rest == b + rest[..n] + [rest[n]];
      SqueezeNext(a + rest[..n], rest[n]);
      SqueezeNext(b + rest[..n], rest[n]);
    }
  }

  /** Replacing one unquoted run of whitespace by another changes nothing that is written. */
  lemma RunsAreEqual(text: string, run: string, other: string, rest: string)
    requires ScanOf(text).Open() && run != "" && other != "" && AllSpace(run) && AllSpace(other)
    ensures Squeeze(text + run + rest) == Squeeze(text + other + rest)
  {
    RunLeavesGap(text, run);
    RunLeavesGap(text, other);
    SameFromSame(text + run, text + other, rest);
  }

  // ---------- Nesting ----------

  function Bracket(c: char): int {
    if c == '(' || c == '[' then 1 else if c == ')' || c == ']' then -1 else 0
  }

  function Nesting(text: string): int {
    if text == "" then 0 else
    var before, c := text[..|text| - 1], text[|text| - 1];
    Nesting(before) + (if ScanOf(before).Open() then Bracket(c) else 0)
  }

  lemma NestingNext(text: string, c: char)
    ensures Nesting(text + [c]) == Nesting(text) + (if ScanOf(text).Open() then Bracket(c) else 0)
  {
    assert (text + [c])[..|text|] == text;
  }

  method NestingDelta(text: string) returns (delta: int)
    ensures delta == Nesting(text)
  {
    delta := 0;
    var s := Start();
    for i := 0 to |text|
      invariant delta == Nesting(text[..i]) && s == ScanOf(text[..i])
    {
      assert text[..i + 1] == text[..i] + [text[i]];
      NestingNext(text[..i], text[i]);
      ScanNext(text[..i], text[i]);
      if s.Open() {
        delta := delta + Bracket(text[i]);
      }
      s := Advance(s, text[i]);
    }
    assert text[..|text|] == text;
  }

  lemma SpaceIsNoBracket(c: char)
    requires IsSpace(c)
    ensures Bracket(c) == 0
  {
  }

  lemma StepKeepsNesting(s: Squeezed, before: string, c: char)
    requires Mirrors(s, before) && !(s.scan.escaped && s.scan.quote.None?)
    requires Nesting(s.out) == Nesting(before)
    ensures Nesting(SqueezeStep(s, c).out) == Nesting(before + [c])
  {
    StepWrites(s, c);
    NestingNext(before, c);
    var out := SqueezeStep(s, c).out;
    if out == s.out + [' '] + [c] {
      SpaceIsNoBracket(' ');
      SpaceIsQuiet(s.scan, ' ');
      ScanNext(s.out, ' ');
      NestingNext(s.out, ' ');
      NestingNext(s.out + [' '], c);
    } else if out == s.out + [c] {
      NestingNext(s.out, c);
    } else {
      SpaceIsNoBracket(c);
    }
  }

  lemma NextKeepsNesting(before: string, c: char)
    requires Nesting(Squeeze(before).out) == Nesting(before)
    ensures Nesting(Squeeze(before + [c]).out) == Nesting(before + [c])
  {
    SqueezeMirrors(before);
    EscapedIsQuoted(before);
    SqueezeNext(before, c);
    StepKeepsNesting(Squeeze(before), before, c);
  }

  /** Whitespace does not change how a text nests. */
  lemma {:induction false} SqueezeKeepsNesting(text: string)
    ensures Nesting(Squeeze(text).out) == Nesting(text)
  {
    if text != "" {
      var before, c := text[..|text| - 1], text[|text| - 1];
      assert text == before + [c];
      SqueezeKeepsNesting(before);
      NextKeepsNesting(before, c);
    }
  }
}
