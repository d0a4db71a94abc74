/**
 What one run of whitespace can change. A line holds a run of whitespace between `x` and `y`; every
 scanner of the comparison is followed while another run takes its place.
 */
module SchemaRuns {
  import opened Wrappers
  import opened SchemaText
  import opened SchemaParity
  import opened SchemaCompare

  predicate IsGap(run: string) {
    run != "" && AllSpace(run)
  }

  // ---------- Trimming ----------

  lemma SpaceThen(text: string)
    requires text != "" && IsSpace(text[0])
    ensures AllSpace(text) <==> AllSpace(text[1..])
  {
    assert text == [text[0]] + text[1..];
  }

  lemma {:induction false} TrimStartOver(a: string, b: string)
    ensures TrimStart(a + b) == if AllSpace(a) then TrimStart(b) else TrimStart(a) + b
  {
    if a == "" {
      assert a + b == b;
    } else if IsSpace(a[0]) {
      assert (a + b)[1..] == a[1..] + b;
      TrimStartOver(a[1..], b);
      SpaceThen(a);
    } else {
      assert a[0] in a;
    }
  }

  lemma {:induction false} TrimEndOver(a: string, b: string)
    ensures TrimEnd(a + b) == if AllSpace(b) then TrimEnd(a) else a + TrimEnd(b)
    decreases |b|
  {
    if b == "" {
      assert a + b == a;
    } else {
      var n := |b| - 1;
      assert (a + b)[..|a + b| - 1] == a + b[..n];
      TrimEndOver(a, b[..n]);
      assert b == b[..n] + [b[n]];
    }
  }

  lemma {:induction false} TrimStartKeepsLetters(text: string)
    ensures AllSpace(text) <==> TrimStart(text) == ""
    ensures AllSpace(TrimStart(text)) <==> AllSpace(text)
  {
    if text != "" && IsSpace(text[0]) {
      assert text == [text[0]] + text[1..];
      TrimStartKeepsLetters(text[1..]);
    }
  }

  lemma {:induction false} TrimEndKeepsLetters(text: string)
    ensures AllSpace(text) <==> TrimEnd(text) == ""
  {
    if text != "" && IsSpace(text[|text| - 1]) {
      assert text == text[..|text| - 1] + [text[|text| - 1]];
      TrimEndKeepsLetters(text[..|text| - 1]);
    }
  }

  lemma GapIsSpace(run: string)
    requires IsGap(run)
    ensures IsSpace(run[0])
  {
    assert run[0] in run;
  }

  lemma TrimStartAcross(x: string, run: string, y: string)
    requires IsGap(run)
    ensures TrimStart(x + run + y) == if AllSpace(x) then TrimStart(y) else TrimStart(x) + run + y
  {
    Regroup(x, run, y);
    TrimStartOver(x, run + y);
    TrimStartOver(run, y);
    Regroup(TrimStart(x), run, y);
  }

  lemma Regroup(a: string, b: string, c: string)
    ensures a + b + c == a + (b + c)
  {
  }

  lemma TrimEndAcross(x: string, run: string, y: string)
    requires IsGap(run)
    ensures TrimEnd(x + run + y) == if AllSpace(y) then TrimEnd(x) else x + run + TrimEnd(y)
  {
    TrimEndOver(x + run, y);
    TrimEndOver(x, run);
  }

  /** Trimming drops a run at either end, and otherwise keeps it between what it trims. */
  lemma TrimOver(x: string, run: string, y: string)
    requires IsGap(run)
    ensures Trim(x + run + y) ==
            if AllSpace(x) then Trim(y) else if AllSpace(y) then Trim(x) else TrimStart(x) + run + TrimEnd(y)
  {
    TrimStartAcross(x, run, y);
    TrimEndAcross(TrimStart(x), run, y);
  }

  // ---------- Scanning ----------

  /** A run of whitespace only ends an escape. */
  lemma {:induction false} GapScans(x: string, run: string)
    requires IsGap(run)
    ensures ScanOf(x + run) == ScanOf(x).(escaped := false) && Nesting(x + run) == Nesting(x)
    decreases |run|
  {
    var n := |run| - 1;
    assert x + run == x + run[..n] + [run[n]];
    ScanNext(x + run[..n], run[n]);
    NestingNext(x + run[..n], run[n]);
    SpaceIsNoBracket(run[n]);
    if n == 0 {
      assert x + run[..n] == x;
    } else {
      GapScans(x, run[..n]);
    }
  }

  lemma {:induction false} SameOnward(p: string, q: string, rest: string)
    requires ScanOf(p) == ScanOf(q)
    ensures ScanOf(p + rest) == ScanOf(q + rest)
    ensures Nesting(p + rest) - Nesting(p) == Nesting(q + rest) - Nesting(q)
    decreases |rest|
  {
    if rest == "" {
      assert p + rest == p && q + rest == q;
    } else {
      var n := |rest| - 1;
      SameOnward(p, q, rest[..n]);
      assert p + rest == p + rest[..n] + [rest[n]] && q + rest == q + rest[..n] + [rest[n]];
      ScanNext(p + rest[..n], rest[n]);
      ScanNext(q + rest[..n], rest[n]);
      NestingNext(p + rest[..n], rest[n]);
      NestingNext(q + rest[..n], rest[n]);
    }
  }

  /** Whatever run stands there, the rest scans and nests the same. */
  lemma RunsScanAlike(x: string, run: string, other: string, y: string)
    requires IsGap(run) && IsGap(other)
    ensures ScanOf(x + run + y) == ScanOf(x + other + y) && Nesting(x + run + y) == Nesting(x + other + y)
  {
    GapScans(x, run);
    GapScans(x, other);
    SameOnward(x + run, x + other, y);
  }

  // ---------- Comments ----------

  /** No comment starts in a run, and none that starts before it reaches into it. */
  lemma CommentBefore(x: string, run: string, y: string, i: nat)
    requires IsGap(run) && i < |x| + |run|
    ensures CommentAt(x + run + y, i) <==> i + 1 < |x| && CommentAt(x, i)
  {
    var line := x + run + y;
    if i < |x| {
      assert line[..i] == x[..i];
      if i + 1 == |x| {
        assert line[i + 1] == run[0];
        GapIsSpace(run);
      }
    } else {
      assert line[i] == run[i - |x|];
      assert run[i - |x|] in run;
    }
  }

  lemma CommentAfter(x: string, run: string, other: string, y: string, i: nat)
    requires IsGap(run) && IsGap(other)
    ensures CommentAt(x + run + y, |x| + |run| + i) <==> CommentAt(x + other + y, |x| + |other| + i)
  {
    if i < |y| {
      assert (x + run + y)[..|x| + |run| + i] == x + run + y[..i];
      assert (x + other + y)[..|x| + |other| + i] == x + other + y[..i];
      RunsScanAlike(x, run, other, y[..i]);
    }
  }

  /** The comment starts before the run, or the run stays and what follows is cut where it was. */
  lemma StripOver(x: string, run: string, other: string, y: string) returns (kept: string)
    requires IsGap(run) && IsGap(other)
    ensures if |StripLine(x + run + y)| < |x| then StripLine(x + other + y) == StripLine(x + run + y)
            else StripLine(x + run + y) == x + run + kept && StripLine(x + other + y) == x + other + kept
  {
    var r := StripLine(x + run + y);
    if |r| < |x| {
      kept := "";
      forall i: nat | i <= |r| ensures CommentAt(x + run + y, i) <==> i + 1 < |x| && CommentAt(x, i) {
        CommentBefore(x, run, y, i);
      }
      assert r == x[..|r|];
      StripBefore(x, other, y, r);
    } else {
      kept := StripAfter(x, run, other, y);
    }
  }

  lemma StripBefore(x: string, other: string, y: string, r: string)
    requires IsGap(other) && r < x && CommentAt(x, |r|) && forall i :: 0 <= i < |r| ==> !CommentAt(x, i)
    ensures StripLine(x + other + y) == r
  {
    var line := x + other + y;
    forall i: nat | i <= |r| ensures CommentAt(line, i) <==> CommentAt(x, i) {
      CommentBefore(x, other, y, i);
    }
    assert Stripped(line, r);
    StrippedIsUnique(line, r, StripLine(line));
  }

  lemma StripAfter(x: string, run: string, other: string, y: string) returns (kept: string)
    requires IsGap(run) && IsGap(other) && |StripLine(x + run + y)| >= |x|
    ensures StripLine(x + run + y) == x + run + kept && StripLine(x + other + y) == x + other + kept
  {
    var line, next := x + run + y, x + other + y;
    var r := StripLine(line);
    if |r| < |x| + |run| {
      CommentBefore(x, run, y, |r|);
      assert false;
    }
    kept := r[|x| + |run|..];
    assert kept == y[..|kept|];
    assert r == x + run + kept;
    var s := x + other + kept;
    forall i: nat | i < |s| ensures !CommentAt(next, i) {
      if i < |x| + |other| {
        CommentBefore(x, other, y, i);
        if i < |x| {
          CommentBefore(x, run, y, i);
        }
      } else {
        CommentAfter(x, run, other, y, i - |x| - |other|);
      }
    }
    CommentAfter(x, run, other, y, |kept|);
    assert Stripped(next, s);
    StrippedIsUnique(next, s, StripLine(next));
  }

  // ---------- One line ----------

  /** What a cleaned line holds before and after the run, unless the run is dropped with a comment or an end. */
  function InLine(x: string, run: string, y: string): Option<(string, string)> {
    var r := StripLine(x + run + y);
    if |r| < |x| + |run| then None
    else if AllSpace(x) || AllSpace(r[|x| + |run|..]) then None
    else Some((TrimStart(x), TrimEnd(r[|x| + |run|..])))
  }

  /** `s` and `t` are the same, or differ in that one run. */
  ghost predicate OneRun(s: string, t: string, run: string, other: string, at: Option<(string, string)>) {
    match at
    case None => s == t
    case Some(around) => s == around.0 + run + around.1 && t == around.0 + other + around.1
  }

  lemma CleanedOver(x: string, run: string, other: string, y: string)
    requires IsGap(run) && IsGap(other)
    ensures InLine(x, other, y) == InLine(x, run, y)
    ensures OneRun(Cleaned(x + run + y), Cleaned(x + other + y), run, other, InLine(x, run, y))
    ensures InLine(x, run, y).Some? ==> InLine(x, run, y).value.0 != ""
  {
    var kept := StripOver(x, run, other, y);
    if |StripLine(x + run + y)| >= |x| {
      assert (x + run + kept)[|x| + |run|..] == kept && (x + other + kept)[|x| + |other|..] == kept;
      TrimOver(x, run, kept);
      TrimOver(x, other, kept);
      TrimStartKeepsLetters(x);
    }
  }

  /** The run does not decide whether a line is skipped, nor how it nests. */
  lemma CleanedAlike(x: string, run: string, other: string, y: string)
    requires IsGap(run) && IsGap(other)
    ensures Skipped(Cleaned(x + run + y)) == Skipped(Cleaned(x + other + y))
    ensures Nesting(Cleaned(x + run + y)) == Nesting(Cleaned(x + other + y))
  {
    CleanedOver(x, run, other, y);
    var at := InLine(x, run, y);
    if at.Some? {
      var (p, q) := at.value;
      RunsScanAlike(p, run, other, q);
      SkippedOver(p, run, q);
      SkippedOver(p, other, q);
    }
  }

  lemma SkippedOver(p: string, run: string, q: string)
    requires IsGap(run) && p != ""
    ensures Skipped(p + run + q) <==> |p| >= 3 && p[0] == p[1] == p[2] == '/'
  {
    if |p| < 3 {
      assert (p + run + q)[|p|] == run[0];
      GapIsSpace(run);
    }
  }

  // ---------- Headers and closing lines ----------

  lemma ClosesOver(x: string, run: string, other: string, y: string)
    requires IsGap(run) && IsGap(other)
    ensures Closes(x + run + y) == Closes(x + other + y)
  {
    TrimOver(x, run, y);
    TrimOver(x, other, y);
    TrimStartKeepsLetters(x);
    TrimEndKeepsLetters(y);
  }

  predicate Solid(text: string) {
    forall c <- text :: !IsSpace(c)
  }

  /** A keyword and a name are matched around a run just when the keyword is all there is in front of it. */
  lemma HeaderWithOver(x: string, run: string, y: string, kind: string)
    requires IsGap(run) && Solid(kind)
    ensures HeaderWith(x + run + y, kind) <==> kind <= x && AllSpace(x[|kind|..]) && IsName(TrimStart(y))
    ensures HeaderWith(x + run + y, kind) ==> TrimStart((x + run + y)[|kind|..]) == TrimStart(y)
  {
    if |kind| <= |x| {
      var text, rest := x + run + y, x[|kind|..];
      DropsInto(x, run, y, |kind|);
      NameOver(rest, run, y);
      if AllSpace(rest) {
        SpaceAfter(x, run, y, |kind|);
      }
    } else {
      PrefixHasNoGap(x, run, y, kind);
    }
  }

  lemma DropsInto(x: string, run: string, y: string, n: nat)
    requires n <= |x|
    ensures (x + run + y)[n..] == x[n..] + run + y && (x + run + y)[..n] == x[..n]
  {
  }

  lemma SpaceAfter(x: string, run: string, y: string, n: nat)
    requires IsGap(run) && n <= |x| && AllSpace(x[n..])
    ensures IsSpace((x + run + y)[n])
  {
    if n < |x| {
      assert x[n] in x[n..];
    } else {
      GapIsSpace(run);
    }
  }

  lemma PrefixHasNoGap(x: string, run: string, y: string, what: string)
    requires IsGap(run) && |what| > |x| && Solid(what)
    ensures !(what <= x + run + y)
  {
    assert (x + run + y)[|x|] == run[0];
    GapIsSpace(run);
    assert what[|x|] in what;
  }

  lemma NameOver(x: string, run: string, y: string)
    requires IsGap(run)
    ensures IsName(TrimStart(x + run + y)) <==> AllSpace(x) && IsName(TrimStart(y))
    ensures AllSpace(x) ==> TrimStart(x + run + y) == TrimStart(y)
  {
    TrimStartAcross(x, run, y);
    if !AllSpace(x) {
      NoNameWithGap(TrimStart(x), run, y);
    }
  }

  lemma NoNameWithGap(x: string, run: string, y: string)
    requires IsGap(run)
    ensures !IsName(x + run + y)
  {
    var text := x + run + y;
    assert text[|x|] == run[0];
    assert text[|x|] in text;
    GapIsSpace(run);
  }

  lemma HeaderInOver(x: string, run: string, other: string, y: string)
    requires IsGap(run) && IsGap(other)
    ensures HeaderIn(x + run + y) == HeaderIn(x + other + y)
  {
    KindOver(x, run, other, y, Model);
    KindOver(x, run, other, y, Enum);
    KindOver(x, run, other, y, Type);
    KindOver(x, run, other, y, View);
  }

  lemma KeywordsAreSolid(kind: Kind)
    ensures Solid(Keyword(kind))
  {
  }

  lemma KindOver(x: string, run: string, other: string, y: string, kind: Kind)
    requires IsGap(run) && IsGap(other)
    ensures HeaderFor(x + run + y, kind) == HeaderFor(x + other + y, kind)
  {
    var word := Keyword(kind);
    KeywordsAreSolid(kind);
    HeaderWithOver(x, run, y, word);
    HeaderWithOver(x, other, y, word);
  }

  lemma BraceOver(x: string, run: string, y: string)
    requires IsGap(run) && y != "" && !IsSpace(y[|y| - 1])
    ensures BodyOf(x + run + y) ==
            if y[|y| - 1] != '{' then None
            else if AllSpace(y[..|y| - 1]) then Some(TrimEnd(x)) else Some(x + run + TrimEnd(y[..|y| - 1]))
  {
    LastOver(x + run, y);
    TrimEndAcross(x, run, y[..|y| - 1]);
  }

  lemma LastOver(front: string, y: string)
    requires y != ""
    ensures (front + y)[|front + y| - 1] == y[|y| - 1] && (front + y)[..|front + y| - 1] == front + y[..|y| - 1]
  {
  }

  lemma HeaderOver(x: string, run: string, other: string, y: string)
    requires IsGap(run) && IsGap(other)
    ensures HeaderOf(x + run + y) == HeaderOf(x + other + y)
  {
    TrimOver(x, run, y);
    TrimOver(x, other, y);
    if !AllSpace(x) && !AllSpace(y) {
      var p, q := TrimStart(x), TrimEnd(y);
      TrimEndKeepsLetters(y);
      TrimEndStarts(y);
      BraceOver(p, run, q);
      BraceOver(p, other, q);
      HeaderInOver(p, run, other, TrimEnd(q[..|q| - 1]));
    }
  }
}
