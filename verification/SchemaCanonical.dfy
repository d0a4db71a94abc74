/**
 When one run of whitespace may take another's place in a statement: exactly when it stands outside
 quotes once the native types are taken out, or at the very end, where trimming drops it.
 */
module SchemaCanonical {
  import opened Wrappers
  import opened SchemaText
  import opened SchemaParity
  import opened SchemaCompare
  import opened SchemaRuns

  // ---------- What normalizing keeps ----------

  lemma VisibleSpace(x: string, c: char)
    requires IsSpace(c)
    ensures ScanOf(x + [c]).quote == ScanOf(x).quote
    ensures Visible(x + [c]) == if ScanOf(x).quote.None? then Visible(x) else Visible(x) + [c]
  {
    ScanNext(x, c);
    VisibleNext(x, c);
  }

  lemma {:induction false} VisibleGap(x: string, run: string)
    requires AllSpace(run)
    ensures ScanOf(x + run).quote == ScanOf(x).quote
    ensures Visible(x + run) == if ScanOf(x).quote.None? then Visible(x) else Visible(x) + run
    decreases |run|
  {
    if run == "" {
      assert x + run == x;
      assert Visible(x) + run == Visible(x);
    } else {
      var before, c := run[..|run| - 1], run[|run| - 1];
      assert c in run;
      assert run == before + [c];
      Regroup(x, before, [c]);
      VisibleGap(x, before);
      VisibleSpace(x + before, c);
      Regroup(Visible(x), before, [c]);
    }
  }

  lemma VisibleNextAlike(p: string, q: string, c: char)
    requires ScanOf(p) == ScanOf(q)
    ensures Visible(p + [c]) == Visible(q + [c]) <==> Visible(p) == Visible(q)
  {
    VisibleNext(p, c);
    VisibleNext(q, c);
    SameEnds(Visible(p), Visible(q), c);
  }

  lemma {:induction false} VisibleOnward(p: string, q: string, rest: string)
    requires ScanOf(p) == ScanOf(q)
    ensures Visible(p + rest) == Visible(q + rest) <==> Visible(p) == Visible(q)
    decreases |rest|
  {
    if rest == "" {
      assert p + rest == p && q + rest == q;
    } else {
      var before, c := rest[..|rest| - 1], rest[|rest| - 1];
      assert rest == before + [c];
      Regroup(p, before, [c]);
      Regroup(q, before, [c]);
      VisibleOnward(p, q, before);
      SameOnward(p, q, before);
      VisibleNextAlike(p + before, q + before, c);
    }
  }

  lemma SameEnds(a: string, b: string, c: char)
    ensures a + [c] == b + [c] <==> a == b
  {
    assert (a + [c])[..|a|] == a && (b + [c])[..|b|] == b;
  }

  lemma {:induction false} StartIsSpace(text: string)
    ensures AllSpace(text[..|text| - |TrimStart(text)|])
  {
    if text != "" && IsSpace(text[0]) {
      StartIsSpace(text[1..]);
      var n := |text| - |TrimStart(text)|;
      assert text[..n] == [text[0]] + text[1..][..n - 1];
    }
  }

  lemma {:induction false} EndIsSpace(text: string)
    ensures AllSpace(text[|TrimEnd(text)|..])
  {
    if text != "" && IsSpace(text[|text| - 1]) {
      var before := text[..|text| - 1];
      EndIsSpace(before);
      assert text[|TrimEnd(text)|..] == before[|TrimEnd(text)|..] + [text[|text| - 1]];
    }
  }

  lemma StartDrops(text: string) returns (lead: string)
    ensures AllSpace(lead) && text == lead + TrimStart(text)
  {
    lead := text[..|text| - |TrimStart(text)|];
    StartIsSpace(text);
    TrimStartEnds(text);
  }

  lemma EndDrops(text: string) returns (trail: string)
    ensures AllSpace(trail) && text == TrimEnd(text) + trail
  {
    trail := text[|TrimEnd(text)|..];
    EndIsSpace(text);
    TrimEndStarts(text);
  }

  /** Leading whitespace is never quoted. */
  lemma StartKeepsVisible(text: string)
    ensures Visible(TrimStart(text)) == Visible(text) && ScanOf(TrimStart(text)) == ScanOf(text)
  {
    var lead := StartDrops(text);
    if lead != "" {
      GapScans("", lead);
      VisibleGap("", lead);
      assert "" + lead == lead;
      SameOnward("", lead, TrimStart(text));
      VisibleOnward("", lead, TrimStart(text));
      assert "" + TrimStart(text) == TrimStart(text);
    } else {
      assert text == TrimStart(text);
    }
  }

  /** The text ends in whitespace that an open quote makes part of it. */
  predicate EndsQuoted(text: string) {
    text != "" && IsSpace(text[|text| - 1]) && ScanOf(text).quote.Some?
  }

  lemma EndKeepsVisible(text: string)
    ensures Visible(TrimEnd(text)) == Visible(text) <==> !EndsQuoted(text)
  {
    var core := TrimEnd(text);
    var trail := EndDrops(text);
    VisibleGap(core, trail);
    if trail != "" {
      assert text[|text| - 1] == trail[|trail| - 1];
      assert trail[|trail| - 1] in trail;
    } else {
      assert text == core;
    }
  }

  lemma TrimKeepsVisible(text: string)
    ensures Visible(Trim(text)) == Visible(text) <==> !EndsQuoted(text)
  {
    StartKeepsVisible(text);
    EndKeepsVisible(TrimStart(text));
    var lead := StartDrops(text);
    if TrimStart(text) == "" {
      assert text == lead;
    } else {
      assert text[|text| - 1] == TrimStart(text)[|TrimStart(text)| - 1];
    }
  }

  /**
   Normalizing touches unquoted whitespace only, except in one case: a text that ends in whitespace
   inside an open quote loses that whitespace to the trim.
   */
  lemma NormalizedKeepsQuoted(text: string)
    ensures Visible(Normalized(text)) == Visible(text) <==> !EndsQuoted(text)
  {
    TrimKeepsVisible(text);
    SqueezeKeepsVisible(Trim(text));
  }

  /** A quote followed by a space: the space is quoted, and it is lost. */
  lemma QuotedSpaceIsLost(quote: char)
    requires IsQuote(quote)
    ensures Visible([quote] + [' ']) == [quote] + [' '] && Visible(Normalized([quote] + [' '])) == [quote]
  {
    var text := [quote] + [' '];
    assert [quote] == "" + [quote];
    ScanNext("", quote);
    VisibleNext("", quote);
    VisibleNext([quote], ' ');
    assert text[..1] == [quote];
    TrimEndOver([quote], [' ']);
    SqueezeKeepsVisible([quote]);
  }

  // ---------- Runs in a normalized text ----------

  lemma NormalizedUnquoted(x: string, run: string, other: string, y: string)
    requires IsGap(run) && IsGap(other) && ScanOf(x).quote.None?
    ensures Normalized(x + run + y) == Normalized(x + other + y)
  {
    TrimOver(x, run, y);
    TrimOver(x, other, y);
    EscapedIsQuoted(x);
    StartKeepsVisible(x);
    RunsAreEqual(TrimStart(x), run, other, TrimEnd(y));
  }

  /** A quoted run is written as it is. */
  lemma QuotedRunIsKept(x: string, run: string, other: string, y: string)
    requires IsGap(run) && IsGap(other) && ScanOf(x).quote.Some? && run != other
    ensures Visible(x + run + y) != Visible(x + other + y)
  {
    VisibleGap(x, run);
    VisibleGap(x, other);
    GapScans(x, run);
    GapScans(x, other);
    SameStarts(Visible(x), run, other);
    VisibleOnward(x + run, x + other, y);
  }

  lemma SameStarts(a: string, b: string, c: string)
    ensures a + b == a + c <==> b == c
  {
    assert (a + b)[|a|..] == b && (a + c)[|a|..] == c;
  }

  lemma {:induction false} BlankIsUnquoted(x: string)
    requires AllSpace(x)
    ensures ScanOf(x).quote.None?
  {
    VisibleGap("", x);
    assert "" + x == x;
  }

  /** Exactly when another run of whitespace normalizes the same. */
  lemma NormalizedOver(x: string, run: string, other: string, y: string)
    requires IsGap(run) && IsGap(other)
    ensures Normalized(x + run + y) == Normalized(x + other + y)
            <==> run == other || ScanOf(x).quote.None? || AllSpace(y)
  {
    if ScanOf(x).quote.None? {
      NormalizedUnquoted(x, run, other, y);
    } else {
      if AllSpace(x) {
        BlankIsUnquoted(x);
      }
      TrimOver(x, run, y);
      TrimOver(x, other, y);
      if run != other && !AllSpace(y) {
        StartKeepsVisible(x);
        QuotedRunIsKept(TrimStart(x), run, other, TrimEnd(y));
        SqueezeKeepsVisible(TrimStart(x) + run + TrimEnd(y));
        SqueezeKeepsVisible(TrimStart(x) + other + TrimEnd(y));
      }
    }
  }

  // ---------- Runs and native types ----------

  /** Taking something solid out of a text never reaches across whitespace. */
  lemma {:induction false} WithoutOver(x: string, run: string, y: string, what: string, i: nat)
    requires IsGap(run) && Solid(what) && what != "" && i <= |x|
    ensures Without(x + run + y, what, i) == Without(x, what, i) + run + Without(y, what, 0)
    decreases |x| - i
  {
    var text := x + run + y;
    if i == |x| {
      WithoutGap(x, run, y, what, 0);
      assert run[0..] == run;
    } else {
      DropsInto(x, run, y, i);
      if |what| <= |x| - i {
        PrefixIsWithin(x[i..], run + y, what);
        Regroup(x[i..], run, y);
        if what <= x[i..] {
          WithoutOver(x, run, y, what, i + |what|);
        } else {
          WithoutOver(x, run, y, what, i + 1);
          Regroup([x[i]], Without(x, what, i + 1), run);
          Regroup([x[i]], Without(x, what, i + 1) + run, Without(y, what, 0));
        }
      } else {
        PrefixHasNoGap(x[i..], run, y, what);
        WithoutOver(x, run, y, what, i + 1);
        Regroup([x[i]], Without(x, what, i + 1), run);
        Regroup([x[i]], Without(x, what, i + 1) + run, Without(y, what, 0));
      }
    }
  }

  lemma PrefixIsWithin(a: string, b: string, what: string)
    requires |what| <= |a|
    ensures what <= a + b <==> what <= a
  {
  }

  lemma {:induction false} WithoutGap(x: string, run: string, y: string, what: string, j: nat)
    requires IsGap(run) && Solid(what) && what != "" && j <= |run|
    ensures Without(x + run + y, what, |x| + j) == run[j..] + Without(y, what, 0)
    decreases |run| - j
  {
    var text := x + run + y;
    if j == |run| {
      WithoutShift(x + run, y, what, 0);
      assert run[j..] + Without(y, what, 0) == Without(y, what, 0);
    } else {
      assert text[|x| + j] == run[j] && run[j] in run && what[0] in what;
      assert !(what <= text[|x| + j..]);
      WithoutGap(x, run, y, what, j + 1);
      assert run[j..] == [run[j]] + run[j + 1..];
      Regroup([run[j]], run[j + 1..], Without(y, what, 0));
    }
  }

  lemma {:induction false} WithoutShift(p: string, y: string, what: string, j: nat)
    requires what != "" && j <= |y|
    ensures Without(p + y, what, |p| + j) == Without(y, what, j)
    decreases |y| - j
  {
    if j < |y| {
      assert (p + y)[|p| + j..] == y[j..];
      if what <= y[j..] {
        WithoutShift(p, y, what, j + |what|);
      } else {
        WithoutShift(p, y, what, j + 1);
      }
    }
  }

  lemma {:induction false} FirstFits(text: string, i: nat, stop: char -> bool)
    requires i <= |text|
    ensures First(text, i, stop) < |text| ==> stop(text[First(text, i, stop)])
    decreases |text| - i
  {
    if i < |text| && !stop(text[i]) {
      FirstFits(text, i + 1, stop);
    }
  }

  lemma {:induction false} FirstOver(x: string, rest: string, i: nat, stop: char -> bool)
    requires i <= |x|
    ensures First(x + rest, i, stop) ==
            if First(x, i, stop) < |x| then First(x, i, stop) else |x| + First(rest, 0, stop)
    decreases |x| - i
  {
    if i == |x| {
      FirstShift(x, rest, 0, stop);
    } else if !stop(x[i]) {
      FirstOver(x, rest, i + 1, stop);
    }
  }

  lemma {:induction false} FirstShift(p: string, y: string, j: nat, stop: char -> bool)
    requires j <= |y|
    ensures First(p + y, |p| + j, stop) == |p| + First(y, j, stop)
    decreases |y| - j
  {
    if j < |y| && !stop(y[j]) {
      FirstShift(p, y, j + 1, stop);
    }
  }

  /** What stops at whitespace never passes the run. */
  lemma FirstStops(x: string, run: string, y: string, i: nat, stop: char -> bool)
    requires IsGap(run) && i <= |x| && forall c :: IsSpace(c) ==> stop(c)
    ensures First(x + run + y, i, stop) == First(x, i, stop)
  {
    GapIsSpace(run);
    Regroup(x, run, y);
    FirstOver(x, run + y, i, stop);
    assert (run + y)[0] == run[0];
  }

  /** What whitespace does not stop passes the run whole. */
  lemma FirstPasses(x: string, run: string, y: string, i: nat, stop: char -> bool)
    requires IsGap(run) && i <= |x| && forall c :: IsSpace(c) ==> !stop(c)
    ensures First(x + run + y, i, stop) ==
            if First(x, i, stop) < |x| then First(x, i, stop) else |x| + |run| + First(y, 0, stop)
  {
    Regroup(x, run, y);
    FirstOver(x, run + y, i, stop);
    FirstOver(run, y, 0, stop);
    NothingStops(run, 0, stop);
  }

  lemma {:induction false} NothingStops(run: string, i: nat, stop: char -> bool)
    requires AllSpace(run) && i <= |run| && forall c :: IsSpace(c) ==> !stop(c)
    ensures First(run, i, stop) == |run|
    decreases |run| - i
  {
    if i < |run| {
      assert run[i] in run;
      NothingStops(run, i + 1, stop);
    }
  }

  /** Where a native type that starts in `x` ends: in `x`, or in `y` when its arguments hold the run. */
  function NativeIn(x: string, y: string, i: nat): (end: (bool, nat))
    requires i <= |x|
    ensures if end.0 then end.1 <= |y| else i <= end.1 <= |x|
  {
    if !StartsNative(x, i) then (false, i) else
    var word := First(x, i + 4, NotWord);
    if word == i + 4 then (false, i)
    else if word < |x| && x[word] == '(' then ParenIn(x, y, word) else (false, word)
  }

  function ParenIn(x: string, y: string, word: nat): (end: (bool, nat))
    requires word < |x|
    ensures if end.0 then end.1 <= |y| else word <= end.1 <= |x|
  {
    if First(x, word + 1, IsClose) < |x| then (false, First(x, word + 1, IsClose) + 1)
    else if First(y, 0, IsClose) < |y| then (true, First(y, 0, IsClose) + 1)
    else (false, word)
  }

  function Past(x: string, run: string, end: (bool, nat)): nat {
    if end.0 then |x| + |run| + end.1 else end.1
  }

  lemma StartsOver(x: string, run: string, y: string, i: nat)
    requires IsGap(run) && i <= |x|
    ensures StartsNative(x + run + y, i) == StartsNative(x, i)
  {
    GapIsSpace(run);
    assert (x + run + y)[|x|] == run[0];
  }

  lemma NativeOver(x: string, run: string, y: string, i: nat)
    requires IsGap(run) && i <= |x|
    ensures NativeEnd(x + run + y, i) == Past(x, run, NativeIn(x, y, i))
  {
    StartsOver(x, run, y, i);
    if StartsNative(x, i) {
      FirstStops(x, run, y, i + 4, NotWord);
      ParenOver(x, run, y, First(x, i + 4, NotWord));
    }
  }

  lemma ParenOver(x: string, run: string, y: string, word: nat)
    requires IsGap(run) && word <= |x|
    ensures word < |x + run + y| && ((x + run + y)[word] == '(' <==> word < |x| && x[word] == '(')
    ensures word < |x| ==>
              var close := First(x + run + y, word + 1, IsClose);
              (if close < |x + run + y| then close + 1 else word) == Past(x, run, ParenIn(x, y, word))
  {
    GapIsSpace(run);
    assert (x + run + y)[|x|] == run[0];
    if word < |x| {
      FirstPasses(x, run, y, word + 1, IsClose);
    }
  }

  lemma NativeShift(p: string, y: string, j: nat)
    requires j <= |y|
    ensures NativeEnd(p + y, |p| + j) == |p| + NativeEnd(y, j)
  {
    if StartsNative(y, j) {
      FirstShift(p, y, j + 4, NotWord);
      var word := First(y, j + 4, NotWord);
      if word < |y| {
        FirstShift(p, y, word + 1, IsClose);
      }
    }
  }

  /** Reading behind a prefix is reading the text. */
  ghost predicate Shifts(ends: Reader, p: string, y: string) {
    forall j: nat :: j <= |y| ==> ends(p + y, |p| + j) == |p| + ends(y, j)
  }

  lemma {:induction false} ReadShift(p: string, y: string, j: nat, ends: Reader)
    requires j <= |y| && Reads(ends, y) && Reads(ends, p + y) && Shifts(ends, p, y)
    ensures ReadFrom(p + y, |p| + j, ends) == ReadFrom(y, j, ends)
    decreases |y| - j
  {
    if j < |y| {
      var end := ends(y, j);
      assert ends(p + y, |p| + j) == |p| + end;
      ReadShift(p, y, if end == j then j + 1 else end, ends);
      PieceShift(p, y, j, end);
    }
  }

  lemma PieceShift(p: string, y: string, j: nat, end: nat)
    requires j <= end <= |y|
    ensures NativeAt(p + y, |p| + j, |p| + end) == NativeAt(y, j, end)
  {
    SliceShift(p, y, j, end);
  }

  lemma SliceShift(p: string, y: string, j: nat, end: nat)
    requires j <= end <= |y|
    ensures (p + y)[|p| + j..|p| + end] == y[j..end]
  {
  }

  /** Nothing starts between `i` and `to`. */
  ghost predicate Nothing(ends: Reader, text: string, i: nat, to: nat) {
    forall k: nat :: i <= k < to ==> ends(text, k) == k
  }

  lemma {:induction false} ReadNothing(text: string, i: nat, to: nat, ends: Reader)
    requires i <= to <= |text| && Reads(ends, text) && Nothing(ends, text, i, to)
    ensures ReadFrom(text, i, ends) == ReadFrom(text, to, ends)
    decreases |text| - i
  {
    if i < to {
      ReadNothing(text, i + 1, to, ends);
    }
  }

  /** The same native types one by one, but for those that are not `allowed` in either. */
  predicate Twins(a: seq<string>, b: seq<string>, allowed: string) {
    |a| == |b| && forall k :: 0 <= k < |a| ==> a[k] == b[k] || (a[k] != allowed && b[k] != allowed)
  }

  lemma TwinsThen(a: seq<string>, b: seq<string>, m: seq<string>, n: seq<string>, allowed: string)
    requires Twins(a, b, allowed) && Twins(m, n, allowed)
    ensures Twins(a + m, b + n, allowed)
  {
  }

  lemma TwinsAgree(a: seq<string>, b: seq<string>, allowed: string)
    requires Twins(a, b, allowed)
    ensures a == [] <==> b == []
    ensures allowed in a <==> allowed in b
    ensures (exists n <- a :: n != allowed) <==> exists n <- b :: n != allowed
  {
    if n :| n in a && n != allowed {
      var k :| 0 <= k < |a| && a[k] == n;
      assert b[k] in b && b[k] != allowed;
    }
    if n :| n in b && n != allowed {
      var k :| 0 <= k < |b| && b[k] == n;
      assert a[k] in a && a[k] != allowed;
    }
  }

  /** A piece that holds a run is not solid. */
  lemma HoldsGap(x: string, run: string, y: string, i: nat, end: nat, what: string)
    requires IsGap(run) && Solid(what) && i <= |x| && |x| + |run| <= end <= |x + run + y|
    ensures (x + run + y)[i..end] != what
  {
    var piece := (x + run + y)[i..end];
    GapIsSpace(run);
    assert piece[|x| - i] == run[0];
    assert piece[|x| - i] in piece;
  }

  /** The native type that starts at `i`, run and all. */
  function Piece(x: string, run: string, y: string, i: nat, end: (bool, nat)): seq<string>
    requires i <= |x| && i <= Past(x, run, end) <= |x + run + y|
  {
    NativeAt(x + run + y, i, Past(x, run, end))
  }

  lemma PieceOver(x: string, run: string, other: string, y: string, i: nat, end: (bool, nat), allowed: string)
    requires IsGap(run) && IsGap(other) && Solid(allowed) && i < |x|
    requires if end.0 then end.1 <= |y| else i <= end.1 <= |x|
    ensures Twins(Piece(x, run, y, i, end), Piece(x, other, y, i, end), allowed)
  {
    if end.0 {
      HoldsGap(x, run, y, i, |x| + |run| + end.1, allowed);
      HoldsGap(x, other, y, i, |x| + |other| + end.1, allowed);
    } else {
      assert (x + run + y)[i..end.1] == x[i..end.1] == (x + other + y)[i..end.1];
    }
  }

  /** Where what starts in `x` ends, with a run between `x` and `y`. */
  type Spanning = nat -> (bool, nat)

  ghost predicate Spans(spans: Spanning, x: string, y: string) {
    forall i: nat :: i <= |x| ==> if spans(i).0 then spans(i).1 <= |y| else i <= spans(i).1 <= |x|
  }

  /** What starts in `x` ends where `spans` says, nothing starts in the run, and then `y` is read. */
  ghost predicate ReadsOver(ends: Reader, spans: Spanning, x: string, run: string, y: string) {
    && Reads(ends, x + run + y) && Reads(ends, y) && Spans(spans, x, y)
    && (forall i: nat :: i < |x| ==> ends(x + run + y, i) == Past(x, run, spans(i)))
    && Nothing(ends, x + run + y, |x|, |x| + |run|) && Shifts(ends, x + run, y)
  }

  lemma ReadPiece(x: string, run: string, y: string, i: nat, ends: Reader, spans: Spanning)
    requires ReadsOver(ends, spans, x, run, y) && i < |x|
    ensures ReadFrom(x + run + y, i, ends) == Piece(x, run, y, i, spans(i)) +
              if spans(i).0 then ReadFrom(y, spans(i).1, ends)
              else ReadFrom(x + run + y, if spans(i).1 == i then i + 1 else spans(i).1, ends)
  {
    assert ends(x + run + y, i) == Past(x, run, spans(i));
    if spans(i).0 {
      ReadShift(x + run, y, spans(i).1, ends);
    }
  }

  lemma ReadRest(x: string, run: string, y: string, ends: Reader, spans: Spanning)
    requires ReadsOver(ends, spans, x, run, y)
    ensures ReadFrom(x + run + y, |x|, ends) == ReadFrom(y, 0, ends)
  {
    ReadNothing(x + run + y, |x|, |x| + |run|, ends);
    ReadShift(x + run, y, 0, ends);
  }

  lemma {:induction false} ReadOver(x: string, run: string, other: string, y: string, i: nat, ends: Reader,
                                    spans: Spanning, allowed: string)
    requires IsGap(run) && IsGap(other) && i <= |x| && Solid(allowed)
    requires ReadsOver(ends, spans, x, run, y) && ReadsOver(ends, spans, x, other, y)
    ensures Twins(ReadFrom(x + run + y, i, ends), ReadFrom(x + other + y, i, ends), allowed)
    decreases |x| - i
  {
    if i == |x| {
      ReadRest(x, run, y, ends, spans);
      ReadRest(x, other, y, ends, spans);
    } else {
      ReadPiece(x, run, y, i, ends, spans);
      ReadPiece(x, other, y, i, ends, spans);
      PieceOver(x, run, other, y, i, spans(i), allowed);
      if spans(i).0 {
        TwinsThen(Piece(x, run, y, i, spans(i)), Piece(x, other, y, i, spans(i)),
          ReadFrom(y, spans(i).1, ends), ReadFrom(y, spans(i).1, ends), allowed);
      } else {
        var next := if spans(i).1 == i then i + 1 else spans(i).1;
        ReadOver(x, run, other, y, next, ends, spans, allowed);
        TwinsThen(Piece(x, run, y, i, spans(i)), Piece(x, other, y, i, spans(i)),
          ReadFrom(x + run + y, next, ends), ReadFrom(x + other + y, next, ends), allowed);
      }
    }
  }

  function SpanIn(x: string, y: string): Spanning {
    (i: nat) => if i <= |x| then NativeIn(x, y, i) else (false, 0)
  }

  lemma NativesReadOver(x: string, run: string, y: string)
    requires IsGap(run)
    ensures ReadsOver(NativeReach, SpanIn(x, y), x, run, y)
  {
    forall i: nat | i < |x| ensures NativeReach(x + run + y, i) == Past(x, run, SpanIn(x, y)(i)) {
      NativeOver(x, run, y, i);
    }
    forall k: nat | |x| <= k < |x| + |run| ensures NativeReach(x + run + y, k) == k {
      assert (x + run + y)[k] == run[k - |x|] && run[k - |x|] in run;
    }
    forall j: nat | j <= |y| ensures NativeReach(x + run + y, |x + run| + j) == |x + run| + NativeReach(y, j) {
      NativeShift(x + run, y, j);
    }
  }

  lemma NativesOver(x: string, run: string, other: string, y: string, allowed: string)
    requires IsGap(run) && IsGap(other) && Solid(allowed)
    ensures Twins(Natives(x + run + y), Natives(x + other + y), allowed)
  {
    NativesReadOver(x, run, y);
    NativesReadOver(x, other, y);
    ReadOver(x, run, other, y, 0, NativeReach, SpanIn(x, y), allowed);
  }

  /** The second word, which a run may stand in front of but never inside. */
  function FieldIn(x: string, y: string): Option<string> {
    var word := First(x, 0, NotWord);
    var start := First(x, word, NotSpace);
    if word == 0 then None
    else if start < |x| then if start == word then None else Some(x[start..First(x, start, IsSpace)])
    else FieldFrom(y)
  }

  function FieldFrom(y: string): Option<string> {
    var start := First(y, 0, NotSpace);
    var end := First(y, start, IsSpace);
    if end == start then None else Some(y[start..end])
  }

  lemma FieldOver(x: string, run: string, y: string)
    requires IsGap(run)
    ensures FieldType(x + run + y) == FieldIn(x, y)
  {
    var word := First(x, 0, NotWord);
    FirstStops(x, run, y, 0, NotWord);
    FirstPasses(x, run, y, word, NotSpace);
    if First(x, word, NotSpace) < |x| {
      FieldWithin(x, run, y, First(x, word, NotSpace));
    } else {
      FieldBeyond(x + run, y);
    }
  }

  lemma FieldWithin(x: string, run: string, y: string, start: nat)
    requires IsGap(run) && start < |x| && start == First(x, First(x, 0, NotWord), NotSpace)
    ensures First(x + run + y, start, IsSpace) == First(x, start, IsSpace) > start
    ensures (x + run + y)[start..First(x, start, IsSpace)] == x[start..First(x, start, IsSpace)]
  {
    FirstFits(x, First(x, 0, NotWord), NotSpace);
    FirstStops(x, run, y, start, IsSpace);
  }

  lemma FieldBeyond(p: string, y: string)
    ensures var start := |p| + First(y, 0, NotSpace);
            var end := First(p + y, start, IsSpace);
            FieldFrom(y) == if end == start then None else Some((p + y)[start..end])
  {
    var start := First(y, 0, NotSpace);
    FirstShift(p, y, start, IsSpace);
    SliceShift(p, y, start, First(y, start, IsSpace));
  }

  // ---------- Runs in a canonical statement ----------

  /** Without its native types, the statement has the run outside quotes, or at its end. */
  predicate Loose(x: string, y: string) {
    ScanOf(Bare(x)).quote.None? || AllSpace(Bare(y))
  }

  lemma NativeIsSolid()
    ensures Solid(AllowedNative()) && AllowedNative() != ""
  {
  }

  lemma BareOver(x: string, run: string, other: string, y: string)
    requires IsGap(run) && IsGap(other)
    ensures Normalized(Bare(x + run + y)) == Normalized(Bare(x + other + y)) <==> run == other || Loose(x, y)
  {
    NativeIsSolid();
    WithoutOver(x, run, y, AllowedNative(), 0);
    WithoutOver(x, other, y, AllowedNative(), 0);
    NormalizedOver(Bare(x), run, other, Bare(y));
  }

  lemma ChecksOver(x: string, run: string, other: string, y: string)
    requires IsGap(run) && IsGap(other)
    ensures IsDateTime(x + run + y) == IsDateTime(x + other + y)
    ensures Twins(Natives(x + run + y), Natives(x + other + y), AllowedNative())
  {
    FieldOver(x, run, y);
    FieldOver(x, other, y);
    NativeIsSolid();
    NativesOver(x, run, other, y, AllowedNative());
  }

  /** A run never decides whether a statement is accepted, and changes what it says exactly when it is not loose. */
  lemma CanonicalOver(x: string, run: string, other: string, y: string, dialect: Dialect)
    requires IsGap(run) && IsGap(other)
    ensures Canonical(x + run + y, dialect).Ok? <==> Canonical(x + other + y, dialect).Ok?
    ensures Canonical(x + run + y, dialect).Ok? ==>
              (Canonical(x + run + y, dialect) == Canonical(x + other + y, dialect) <==> run == other || Loose(x, y))
  {
    ChecksOver(x, run, other, y);
    TwinsAgree(Natives(x + run + y), Natives(x + other + y), AllowedNative());
    BareOver(x, run, other, y);
  }
}
