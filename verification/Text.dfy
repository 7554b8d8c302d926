/** Text primitives of the chunking engine: whitespace, `strip`, word counting and
    sentence splitting over sequences of characters. */
module Text {
  import opened Sequences

  /** Code-point ranges of the characters for which Python's `str.isspace` holds. */
  const SPACE_RANGES: seq<(int, int)> :=
    [(9, 13), (28, 32), (0x85, 0x85), (0xA0, 0xA0), (0x1680, 0x1680), (0x2000, 0x200A),
     (0x2028, 0x2029), (0x202F, 0x202F), (0x205F, 0x205F), (0x3000, 0x3000)]

  predicate InRanges(code: int, ranges: seq<(int, int)>) {
    ranges != [] && (ranges[0].0 <= code <= ranges[0].1 || InRanges(code, ranges[1..]))
  }

  predicate IsSpace(c: char) {
    InRanges(c as int, SPACE_RANGES)
  }

  lemma {:induction false} OutsideRanges(code: int, ranges: seq<(int, int)>)
    requires forall i :: 0 <= i < |ranges| ==> !(ranges[i].0 <= code <= ranges[i].1)
    ensures !InRanges(code, ranges)
  {
    if ranges != [] { OutsideRanges(code, ranges[1..]); }
  }

  /** Sentence-final punctuation is not whitespace; blank and newline are. */
  lemma {:induction false} SpaceFacts(c: char)
    ensures IsFinal(c) ==> !IsSpace(c)
    ensures IsSpace(' ') && IsSpace('\n')
  {
    if IsFinal(c) { OutsideRanges(c as int, SPACE_RANGES); }
  }

  /** Sentence-final punctuation: full stop, Arabic question mark, exclamation mark,
      Arabic semicolon. */
  predicate IsFinal(c: char) {
    c == '.' || c == '!' || c as int == 0x61F || c as int == 0x61B
  }

  /** The non-space characters of `s`, in order: what no stage may lose. */
  function Visible(s: string): string {
    if s == "" then "" else (if IsSpace(s[0]) then "" else [s[0]]) + Visible(s[1..])
  }

  lemma {:induction false} VisibleConcat(a: string, b: string)
    ensures Visible(a + b) == Visible(a) + Visible(b)
  {
    if a == "" {
      assert a + b == b;
    } else {
      assert (a + b)[1..] == a[1..] + b;
      VisibleConcat(a[1..], b);
    }
  }

  predicate Stripped(s: string) {
    s != "" ==> !IsSpace(s[0]) && !IsSpace(Last(s))
  }

  function StripLeft(s: string): string {
    if s != "" && IsSpace(s[0]) then StripLeft(s[1..]) else s
  }

  function StripRight(s: string): string {
    if s != "" && IsSpace(Last(s)) then StripRight(s[..|s| - 1]) else s
  }

  /** Python's `str.strip`. */
  function Strip(s: string): string {
    StripRight(StripLeft(s))
  }

  lemma {:induction false} StripLeftFacts(s: string)
    ensures StripLeft(s) != "" ==> !IsSpace(StripLeft(s)[0])
    ensures Visible(StripLeft(s)) == Visible(s)
    ensures |StripLeft(s)| <= |s| && StripLeft(s) == s[|s| - |StripLeft(s)|..]
  {
    if s != "" && IsSpace(s[0]) { StripLeftFacts(s[1..]); }
  }

  lemma {:induction false} StripRightFacts(s: string)
    ensures StripRight(s) != "" ==> !IsSpace(Last(StripRight(s)))
    ensures Visible(StripRight(s)) == Visible(s)
    ensures |StripRight(s)| <= |s| && StripRight(s) == s[..|StripRight(s)|]
  {
    if s != "" && IsSpace(Last(s)) {
      assert s == s[..|s| - 1] + [Last(s)];
      VisibleConcat(s[..|s| - 1], [Last(s)]);
      StripRightFacts(s[..|s| - 1]);
    }
  }

  /** Stripping selects the contiguous slice without outer whitespace; no visible
      character is lost. */
  lemma {:induction false} StripFacts(s: string) returns (a: nat)
    ensures Stripped(Strip(s))
    ensures Visible(Strip(s)) == Visible(s)
    ensures a + |Strip(s)| <= |s|
    ensures Strip(s) == s[a..a + |Strip(s)|]
  {
    StripLeftFacts(s);
    StripRightFacts(StripLeft(s));
    a := |s| - |StripLeft(s)|;
  }

  lemma {:induction false} StripKeepsStripped(s: string)
    requires Stripped(s)
    ensures Strip(s) == s
  {
  }

  /** A non-space last character survives stripping. */
  lemma {:induction false} StripKeepsLast(s: string)
    requires s != "" && !IsSpace(Last(s))
    ensures Strip(s) != "" && Last(Strip(s)) == Last(s)
  {
    StripLeftKeepsLast(s);
  }

  lemma {:induction false} StripLeftKeepsLast(s: string)
    requires s != "" && !IsSpace(Last(s))
    ensures StripLeft(s) != "" && Last(StripLeft(s)) == Last(s)
  {
    if IsSpace(s[0]) { StripLeftKeepsLast(s[1..]); }
  }

  // ---------------------------------------------------------------- words

  /** Number of maximal runs of non-space characters (`\S+`). */
  function CountTokens(s: string): nat {
    if s == "" then 0
    else CountTokens(s[..|s| - 1])
         + (if !IsSpace(Last(s)) && (|s| == 1 || IsSpace(s[|s| - 2])) then 1 else 0)
  }

  /** A whitespace character separates words: counts add up across it. */
  lemma {:induction false} TokensAcrossSpace(a: string, gap: char, b: string)
    requires IsSpace(gap)
    ensures CountTokens(a + [gap] + b) == CountTokens(a) + CountTokens(b)
  {
    var s := a + [gap] + b;
    if b == "" {
      assert s[..|s| - 1] == a;
    } else {
      var b' := b[..|b| - 1];
      assert s[..|s| - 1] == a + [gap] + b';
      TokensAcrossSpace(a, gap, b');
    }
  }

  /** A word counts one, nothing counts none. */
  lemma {:induction false} OneWord(s: string)
    requires forall i :: 0 <= i < |s| ==> !IsSpace(s[i])
    ensures CountTokens(s) == if s == "" then 0 else 1
  {
    if s != "" {
      OneWord(s[..|s| - 1]);
      if |s| == 1 { assert s[..0] == ""; }
    }
  }

  // ---------------------------------------------------------------- sentences

  /** First index at or after `i` holding final punctuation, or the length. */
  function FindFinal(t: string, i: nat): (r: nat)
    requires i <= |t|
    ensures i <= r <= |t|
    ensures r < |t| ==> IsFinal(t[r])
    ensures forall k :: i <= k < r ==> !IsFinal(t[k])
    decreases |t| - i
  {
    if i == |t| || IsFinal(t[i]) then i else FindFinal(t, i + 1)
  }

  /** End of the punctuation run that starts at `i`. */
  function RunEnd(t: string, i: nat): (r: nat)
    requires i <= |t|
    ensures i <= r <= |t|
    ensures r < |t| ==> !IsFinal(t[r])
    ensures forall k :: i <= k < r ==> IsFinal(t[k])
    decreases |t| - i
  {
    if i == |t| || !IsFinal(t[i]) then i else RunEnd(t, i + 1)
  }

  /** End of the first sentence: just past the first run of final punctuation. */
  function SegmentEnd(s: string): (e: nat)
    requires s != ""
    ensures 0 < e <= |s|
  {
    RunEnd(s, FindFinal(s, 0))
  }

  /** The text cut after every run of final punctuation. */
  function Segments(s: string): seq<string> {
    if s == "" then [] else [s[..SegmentEnd(s)]] + Segments(s[SegmentEnd(s)..])
  }

  function StripAll(segments: seq<string>): seq<string> {
    if segments == [] then []
    else (if Strip(segments[0]) == "" then [] else [Strip(segments[0])]) + StripAll(segments[1..])
  }

  /** The sentences of a text: its segments, stripped, the empty ones dropped. */
  function SplitSentences(text: string): seq<string> {
    StripAll(Segments(Strip(text)))
  }

  function NonEmpty(p: string): seq<string> {
    if p == "" then [] else [p]
  }

  /** `parts` already split off, `rest` still to be split. */
  ghost predicate Splitting(text: string, parts: seq<string>, rest: string) {
    parts + StripAll(Segments(rest)) == SplitSentences(text)
  }

  lemma {:induction false} StripAllCons(head: string, tail: seq<string>)
    ensures StripAll([head] + tail) == NonEmpty(Strip(head)) + StripAll(tail)
  {
    hide Strip;
    assert ([head] + tail)[1..] == tail;
  }

  lemma {:induction false} SegmentsCons(s: string)
    requires s != ""
    ensures Segments(s) == [s[..SegmentEnd(s)]] + Segments(s[SegmentEnd(s)..])
  {
    hide SegmentEnd;
  }

  lemma {:induction false} SplitStep(text: string, parts: seq<string>, rest: string, end: nat)
    requires Splitting(text, parts, rest)
    requires rest != "" && end == SegmentEnd(rest)
    ensures Splitting(text, parts + NonEmpty(Strip(rest[..end])), rest[end..])
  {
    hide Strip, SegmentEnd, StripAll, Segments, SplitSentences;
    SegmentsCons(rest);
    StripAllCons(rest[..end], Segments(rest[end..]));
    var piece, tail := NonEmpty(Strip(rest[..end])), StripAll(Segments(rest[end..]));
    assert parts + (piece + tail) == (parts + piece) + tail;
  }

  lemma {:induction false} BlankSplits(text: string)
    requires Strip(text) == ""
    ensures SplitSentences(text) == []
  {
  }

  lemma {:induction false} SplitEnd(text: string, parts: seq<string>, rest: string)
    requires Splitting(text, parts, rest)
    requires FindFinal(rest, 0) == |rest|
    ensures SplitSentences(text) == parts + NonEmpty(Strip(rest))
  {
    if rest != "" {
      SplitStep(text, parts, rest, |rest|);
      assert rest[..|rest|] == rest && rest[|rest|..] == "";
    }
  }

  method AppendNonEmpty(parts: seq<string>, piece: string) returns (r: seq<string>)
    ensures r == parts + NonEmpty(piece)
  {
    r := parts;
    if piece != "" { r := r + [piece]; }
  }

  /** The splitting loop: matches are the maximal runs of final punctuation, each one
      closing a sentence; what follows the last run is the tail. */
  method SplitSentencesLoop(text: string) returns (parts: seq<string>)
    ensures parts == SplitSentences(text)
  {
    hide StripAll, Segments, Strip;
    var t := Strip(text);
    parts := [];
    if t == "" {
      BlankSplits(text);
      return;
    }
    assert Splitting(text, parts, t);
    var start := 0;
    ghost var rest := t;
    var at := FindFinal(t, 0);
    while at < |t|
      invariant start <= at <= |t| && rest == t[start..]
      invariant at - start == FindFinal(rest, 0)
      invariant Splitting(text, parts, rest)
      decreases |rest|
    {
      var end := start + RunEnd(t[start..], at - start);
      SplitStep(text, parts, rest, end - start);
      assert rest[..end - start] == t[start..end] && rest[end - start..] == t[end..];
      var piece := Strip(t[start..end]);
      parts := AppendNonEmpty(parts, piece);
      start, rest := end, t[end..];
      at := start + FindFinal(t[start..], 0);
    }
    SplitEnd(text, parts, rest);
    var tail := Strip(t[start..]);
    parts := AppendNonEmpty(parts, tail);
  }

  predicate EndsFinal(p: string) {
    p != "" && IsFinal(Last(p))
  }

  /** Shape of one sentence: stripped, not empty, punctuation only as a closing run. */
  predicate SentenceShape(p: string) {
    && p != ""
    && Stripped(p)
    && forall i, j :: 0 <= i < j < |p| && IsFinal(p[i]) ==> IsFinal(p[j])
  }

  lemma {:induction false} FinalsAtEnd(s: string, a: nat, p: string)
    requires s != "" && a + |p| <= SegmentEnd(s) && p == s[a..a + |p|]
    ensures forall i, j :: 0 <= i < j < |p| && IsFinal(p[i]) ==> IsFinal(p[j])
  {
    hide IsFinal;
    var f := FindFinal(s, 0);
    forall i, j | 0 <= i < j < |p| && IsFinal(p[i])
      ensures IsFinal(p[j])
    {
      assert p[i] == s[a + i] && p[j] == s[a + j];
    }
  }

  lemma {:induction false} SegmentShape(s: string)
    requires s != ""
    ensures var p := Strip(s[..SegmentEnd(s)]);
            (p != "" ==> SentenceShape(p)) && (SegmentEnd(s) < |s| ==> EndsFinal(p))
  {
    hide Strip, Visible, IsFinal, IsSpace;
    var e := SegmentEnd(s);
    var a := StripFacts(s[..e]);
    FinalsAtEnd(s, a, Strip(s[..e]));
    if e < |s| {
      SpaceFacts(s[e - 1]);
      StripKeepsLast(s[..e]);
    }
  }

  /** Sentences in order, every one but possibly the last closed by punctuation. */
  predicate WellSplit(parts: seq<string>) {
    parts == [] || (SentenceShape(parts[0]) && (|parts| > 1 ==> EndsFinal(parts[0])) && WellSplit(parts[1..]))
  }

  lemma {:induction false} SegmentsWellSplit(s: string)
    ensures WellSplit(StripAll(Segments(s)))
  {
    if s != "" {
      SegmentShape(s);
      var rest := s[SegmentEnd(s)..];
      SegmentsWellSplit(rest);
      var p := Strip(s[..SegmentEnd(s)]);
      assert Segments(s)[1..] == Segments(rest);
      if p != "" {
        assert StripAll(Segments(s))[1..] == StripAll(Segments(rest));
      }
    }
  }

  lemma {:induction false} SegmentsPartition(s: string)
    ensures Flatten(Segments(s)) == s
  {
    if s != "" {
      SegmentsPartition(s[SegmentEnd(s)..]);
      assert Segments(s)[1..] == Segments(s[SegmentEnd(s)..]);
    }
  }

  lemma {:induction false} StripAllConserves(segments: seq<string>)
    ensures Visible(Flatten(StripAll(segments))) == Visible(Flatten(segments))
  {
    if segments != [] {
      var p, rest := Strip(segments[0]), StripAll(segments[1..]);
      var _ := StripFacts(segments[0]);
      StripAllConserves(segments[1..]);
      VisibleConcat(segments[0], Flatten(segments[1..]));
      if p != "" {
        assert StripAll(segments) == [p] + rest;
        assert ([p] + rest)[1..] == rest;
        VisibleConcat(p, Flatten(rest));
      } else {
        assert StripAll(segments) == rest;
      }
    }
  }

  lemma {:induction false} SegmentsTail(s: string)
    requires s != "" && !IsSpace(Last(s))
    ensures StripAll(Segments(s)) != [] && Last(StripAll(Segments(s))) != ""
    ensures Last(Last(StripAll(Segments(s)))) == Last(s)
  {
    hide Strip, SegmentEnd, IsSpace, StripAll, Segments;
    var e := SegmentEnd(s);
    SegmentsCons(s);
    StripAllCons(s[..e], Segments(s[e..]));
    if e < |s| {
      SegmentsTail(s[e..]);
    } else {
      assert s[..e] == s && s[e..] == "";
      StripKeepsLast(s);
      NoSegments();
    }
  }

  lemma {:induction false} NoSegments()
    ensures StripAll(Segments("")) == []
  {
  }

  /** Nothing is lost: the sentences hold every visible character of the text, in order;
      each is a stripped, non-empty sentence whose punctuation closes it, and every
      sentence but the last is closed. */
  lemma {:induction false} SplitSentencesConserves(text: string)
    ensures Visible(Flatten(SplitSentences(text))) == Visible(text)
    ensures WellSplit(SplitSentences(text))
  {
    var _ := StripFacts(text);
    SegmentsPartition(Strip(text));
    StripAllConserves(Segments(Strip(text)));
    SegmentsWellSplit(Strip(text));
  }

  /** A stripped, non-empty text keeps a non-empty last sentence that ends as the text
      ends: an unfinished text leaves an unfinished last sentence. */
  lemma {:induction false} SplitSentencesTail(text: string)
    requires text != "" && Stripped(text)
    ensures SplitSentences(text) != [] && Last(SplitSentences(text)) != ""
    ensures Last(Last(SplitSentences(text))) == Last(text)
  {
    StripKeepsStripped(text);
    SegmentsTail(text);
  }

  /** No run of final punctuation ends inside the piece. */
  predicate OneRun(p: string) {
    p != "" && forall i, j :: 0 <= i < j < |p| && IsFinal(p[i]) ==> IsFinal(p[j])
  }

  /** Pieces cut exactly after every run of final punctuation: none holds the end of one inside,
      and where one piece follows another, a run ends there. */
  predicate CutAfterRuns(pieces: seq<string>) {
    pieces == []
    || (OneRun(pieces[0])
        && (|pieces| > 1 ==> EndsFinal(pieces[0]) && pieces[1] != "" && !IsFinal(pieces[1][0]))
        && CutAfterRuns(pieces[1..]))
  }

  lemma {:induction false} FirstSegmentRun(s: string)
    requires s != ""
    ensures OneRun(s[..SegmentEnd(s)])
    ensures SegmentEnd(s) < |s| ==> EndsFinal(s[..SegmentEnd(s)]) && !IsFinal(s[SegmentEnd(s)])
    ensures SegmentEnd(s) < |s| || !IsSpace(Last(s)) ==> Strip(s[..SegmentEnd(s)]) != ""
  {
    hide IsFinal, IsSpace, Strip;
    var e := SegmentEnd(s);
    var p := s[..e];
    FinalsAtEnd(s, 0, p);
    if e < |s| {
      assert Last(p) == s[e - 1];
      SpaceFacts(s[e - 1]);
      StripKeepsLast(p);
    } else if !IsSpace(Last(s)) {
      assert p == s;
      StripKeepsLast(s);
    }
  }

  lemma {:induction false} CutCons(p: string, rest: seq<string>)
    requires OneRun(p) && CutAfterRuns(rest)
    requires rest != [] ==> EndsFinal(p) && rest[0] != "" && !IsFinal(rest[0][0])
    ensures CutAfterRuns([p] + rest)
  {
    hide IsFinal, OneRun, EndsFinal;
    assert ([p] + rest)[1..] == rest;
  }

  lemma {:induction false} StripEach(p: string, rest: seq<string>)
    requires Strip(p) != "" && |StripAll(rest)| == |rest|
    requires forall k :: 0 <= k < |rest| ==> StripAll(rest)[k] == Strip(rest[k])
    ensures |StripAll([p] + rest)| == |[p] + rest|
    ensures forall k :: 0 <= k < |[p] + rest| ==> StripAll([p] + rest)[k] == Strip(([p] + rest)[k])
  {
    hide Strip;
    StripAllCons(p, rest);
  }

  lemma {:induction false} SegmentsCut(s: string)
    requires s != "" ==> !IsSpace(Last(s))
    ensures CutAfterRuns(Segments(s))
    ensures |StripAll(Segments(s))| == |Segments(s)|
    ensures forall k :: 0 <= k < |Segments(s)| ==> StripAll(Segments(s))[k] == Strip(Segments(s)[k])
  {
    hide IsFinal, IsSpace, Strip, OneRun, EndsFinal, CutAfterRuns, StripAll, SegmentEnd;
    if s == "" {
      NoSegments();
      NoCuts();
    } else {
      var e := SegmentEnd(s);
      var rest := Segments(s[e..]);
      FirstSegmentRun(s);
      SegmentsCut(s[e..]);
      if e < |s| { assert rest[0] == s[e..][..SegmentEnd(s[e..])] && rest[0][0] == s[e]; }
      CutCons(s[..e], rest);
      StripEach(s[..e], rest);
      assert Segments(s) == [s[..e]] + rest;
    }
  }

  lemma {:induction false} NoCuts()
    ensures CutAfterRuns([])
  {
  }

  /** The sentences, exactly: the stripped text cut after every run of final punctuation and
      nowhere else, each piece stripped; none is blank. */
  lemma {:induction false} SentencesBetweenRuns(text: string) returns (pieces: seq<string>)
    ensures Flatten(pieces) == Strip(text) && CutAfterRuns(pieces)
    ensures |SplitSentences(text)| == |pieces|
    ensures forall k :: 0 <= k < |pieces| ==> SplitSentences(text)[k] == Strip(pieces[k])
  {
    hide StripAll, Segments, CutAfterRuns;
    var _ := StripFacts(text);
    pieces := Segments(Strip(text));
    SegmentsPartition(Strip(text));
    SegmentsCut(Strip(text));
  }
}
