/** Greedy packing of sentences into token budgets, neighbours sharing whole sentences. */
module ChunkPacking {
  import opened Sequences
  import opened Text

  datatype Sentence = Sentence(text: string, pdfPage: int, printedPage: Option<int>, unitKey: nat)

  function Cost(s: Sentence): nat { CountTokens(s.text) }

  /** Tokens of the sentences [lo, hi). */
  function Tokens(s: seq<Sentence>, lo: nat, hi: nat): nat
    requires lo <= hi <= |s|
    decreases hi - lo
  {
    if lo == hi then 0 else Tokens(s, lo, hi - 1) + Cost(s[hi - 1])
  }

  lemma {:induction false} TokensSplit(s: seq<Sentence>, lo: nat, mid: nat, hi: nat)
    requires lo <= mid <= hi <= |s|
    ensures Tokens(s, lo, hi) == Tokens(s, lo, mid) + Tokens(s, mid, hi)
    decreases hi - mid
  {
    if mid < hi { TokensSplit(s, lo, mid, hi - 1); }
  }

  lemma {:induction false} TokensShift(s: seq<Sentence>, lo: nat, hi: nat, part: seq<Sentence>, a: nat, b: nat)
    requires lo <= hi <= |s| && part == s[lo..hi] && a <= b <= |part|
    ensures Tokens(part, a, b) == Tokens(s, lo + a, lo + b)
    decreases b - a
  {
    if a < b { TokensShift(s, lo, hi, part, a, b - 1); }
  }

  // ---------------------------------------------------------------- the carried tail

  /** Where the carried tail of [lo, hi) starts, scanning backwards from `k`: the last
      sentence is always carried, earlier ones while they fit the overlap budget. */
  function TailStart(s: seq<Sentence>, lo: nat, k: nat, hi: nat, budget: int): (r: nat)
    requires lo <= k <= hi <= |s|
    ensures lo <= r <= k
    decreases k
  {
    if k == lo then lo
    else if k < hi && Tokens(s, k, hi) + Cost(s[k - 1]) > budget then k
    else TailStart(s, lo, k - 1, hi, budget)
  }

  /** The sentences a finished pack hands to the next one. */
  function Carried(pack: seq<Sentence>, budget: int): seq<Sentence> {
    pack[TailStart(pack, 0, |pack|, |pack|, budget)..]
  }

  lemma {:induction false} TailShift(s: seq<Sentence>, lo: nat, hi: nat, part: seq<Sentence>, k: nat, budget: int)
    requires lo <= hi <= |s| && part == s[lo..hi] && k <= |part|
    ensures lo + TailStart(part, 0, k, |part|, budget) == TailStart(s, lo, lo + k, hi, budget)
  {
    if k > 0 {
      TokensShift(s, lo, hi, part, k, |part|);
      TailShift(s, lo, hi, part, k - 1, budget);
    }
  }

  method TailSentencesLoop(sentences: seq<Sentence>, budget: int) returns (tail: seq<Sentence>)
    ensures tail == Carried(sentences, budget)
  {
    tail := [];
    var total := 0;
    var n := |sentences|;
    var k := n;
    while k > 0
      invariant 0 <= k <= n
      invariant tail == sentences[k..] && total == Tokens(sentences, k, n)
      invariant TailStart(sentences, 0, k, n, budget) == TailStart(sentences, 0, n, n, budget)
    {
      var sentence := sentences[k - 1];
      var tokens := CountTokens(sentence.text);
      if tail != [] && total + tokens > budget { break; }
      TokensSplit(sentences, k - 1, k, n);
      assert Tokens(sentences, k - 1, k) == Tokens(sentences, k - 1, k - 1) + tokens;
      total := total + tokens;
      tail := [sentence] + tail;
      k := k - 1;
    }
  }

  /** The carried tail is the longest suffix within the budget, or one sentence. */
  lemma {:induction false} TailIsLongestFit(s: seq<Sentence>, lo: nat, k: nat, hi: nat, budget: int)
    requires lo <= k <= hi <= |s| && lo < hi
    requires k < hi - 1 ==> Tokens(s, k, hi) <= budget
    ensures var r := TailStart(s, lo, k, hi, budget);
            && r < hi
            && (r < hi - 1 ==> Tokens(s, r, hi) <= budget)
            && (lo < r ==> Tokens(s, r - 1, hi) > budget)
    decreases k
  {
    if k > lo {
      TokensSplit(s, k - 1, k, hi);
      assert Tokens(s, k - 1, k) == Tokens(s, k - 1, k - 1) + Cost(s[k - 1]);
      if !(k < hi && Tokens(s, k, hi) + Cost(s[k - 1]) > budget) {
        TailIsLongestFit(s, lo, k - 1, hi, budget);
      }
    }
  }

  // ---------------------------------------------------------------- windows

  /** Sentences [lo, hi) of one range. */
  datatype Window = Window(lo: nat, hi: nat)

  predicate InRange(s: seq<Sentence>, windows: seq<Window>) {
    forall j :: 0 <= j < |windows| ==> windows[j].lo <= windows[j].hi <= |s|
  }

  /** Packing from sentence `i` on, the open pack being [lo, i). */
  function Windows(s: seq<Sentence>, lo: nat, i: nat, maxTokens: int, budget: int): (r: seq<Window>)
    requires lo <= i <= |s|
    ensures InRange(s, r)
    decreases |s| - i
  {
    if i == |s| then (if lo < i then [Window(lo, i)] else [])
    else if lo < i && Tokens(s, lo, i) + Cost(s[i]) > maxTokens then
      [Window(lo, i)] + Windows(s, TailStart(s, lo, i, i, budget), i + 1, maxTokens, budget)
    else Windows(s, lo, i + 1, maxTokens, budget)
  }

  function Slices(s: seq<Sentence>, windows: seq<Window>): seq<seq<Sentence>>
    requires InRange(s, windows)
  {
    if windows == [] then []
    else [s[windows[0].lo..windows[0].hi]] + Slices(s, windows[1..])
  }

  function OverlapTokens(maxTokens: int, overlap: real): int {
    Max(1, (maxTokens as real * overlap).Floor)
  }

  /** The packs of one range. */
  function Packs(s: seq<Sentence>, maxTokens: int, budget: int): seq<seq<Sentence>> {
    Slices(s, Windows(s, 0, 0, maxTokens, budget))
  }

  /** Packs already closed plus the packs still to come. */
  ghost predicate Packing(
    s: seq<Sentence>, packs: seq<seq<Sentence>>, lo: nat, i: nat, maxTokens: int, budget: int)
    requires lo <= i <= |s|
  {
    packs + Slices(s, Windows(s, lo, i, maxTokens, budget)) == Packs(s, maxTokens, budget)
  }

  lemma {:induction false} FlushStep(
    s: seq<Sentence>, packs: seq<seq<Sentence>>, lo: nat, i: nat, maxTokens: int, budget: int)
    requires lo < i < |s| && Tokens(s, lo, i) + Cost(s[i]) > maxTokens
    requires Packing(s, packs, lo, i, maxTokens, budget)
    ensures Packing(s, packs + [s[lo..i]], TailStart(s, lo, i, i, budget), i + 1, maxTokens, budget)
  {
    hide CountTokens, Tokens;
    var rest := Windows(s, TailStart(s, lo, i, i, budget), i + 1, maxTokens, budget);
    assert ([Window(lo, i)] + rest)[1..] == rest;
    assert packs + ([s[lo..i]] + Slices(s, rest)) == (packs + [s[lo..i]]) + Slices(s, rest);
  }

  lemma {:induction false} SkipStep(
    s: seq<Sentence>, packs: seq<seq<Sentence>>, lo: nat, i: nat, maxTokens: int, budget: int)
    requires lo <= i < |s| && (lo == i || Tokens(s, lo, i) + Cost(s[i]) <= maxTokens)
    requires Packing(s, packs, lo, i, maxTokens, budget)
    ensures Packing(s, packs, lo, i + 1, maxTokens, budget)
  {
    hide Slices, Tokens, CountTokens;
  }

  lemma {:induction false} NothingToPack(maxTokens: int, budget: int)
    ensures Packs([], maxTokens, budget) == []
  {
  }

  lemma {:induction false} LastPack(s: seq<Sentence>, packs: seq<seq<Sentence>>, lo: nat, maxTokens: int, budget: int)
    requires lo < |s|
    requires Packing(s, packs, lo, |s|, maxTokens, budget)
    ensures packs + [s[lo..]] == Packs(s, maxTokens, budget)
  {
    assert [Window(lo, |s|)][1..] == [];
    assert s[lo..|s|] == s[lo..];
    assert Slices(s, [Window(lo, |s|)]) == [s[lo..]];
  }

  lemma {:induction false} SliceTokens(s: seq<Sentence>, t: nat, i: nat)
    requires t <= i <= |s|
    ensures Tokens(s[t..i], 0, i - t) == Tokens(s, t, i)
  {
    TokensShift(s, t, i, s[t..i], 0, i - t);
  }

  /** The carried tail of the pack [lo, i), as a slice of the range. */
  lemma {:induction false} CarriedSlice(s: seq<Sentence>, lo: nat, i: nat, budget: int)
    requires lo < i <= |s|
    ensures var t := TailStart(s, lo, i, i, budget);
            t < i && Carried(s[lo..i], budget) == s[t..i]
  {
    TailShift(s, lo, i, s[lo..i], i - lo, budget);
    TailIsLongestFit(s, lo, i, i, budget);
    DropOfSlice(s, lo, i, TailStart(s, lo, i, i, budget) - lo);
  }

  /** The tail a full pack carries over, with its cost. */
  method CarryOver(current: seq<Sentence>, budget: int, ghost s: seq<Sentence>, ghost lo: nat, ghost i: nat)
    returns (carry: seq<Sentence>, carryTokens: nat)
    requires lo < i <= |s| && current == s[lo..i]
    ensures var t := TailStart(s, lo, i, i, budget);
            t < i && carry == s[t..i] && carryTokens == Tokens(s, t, i)
  {
    CarriedSlice(s, lo, i, budget);
    carry := TailSentencesLoop(current, budget);
    SliceTokens(s, TailStart(s, lo, i, i, budget), i);
    carryTokens := Tokens(carry, 0, |carry|);
  }

  method SentencePackLoop(sentences: seq<Sentence>, maxTokens: int, overlap: real)
    returns (packs: seq<seq<Sentence>>)
    ensures packs == Packs(sentences, maxTokens, OverlapTokens(maxTokens, overlap))
  {
    hide CountTokens, Slices, Windows;
    packs := [];
    var budget := OverlapTokens(maxTokens, overlap);
    if sentences == [] {
      NothingToPack(maxTokens, budget);
      return;
    }
    var current: seq<Sentence> := [];
    var currentTokens := 0;
    ghost var lo: nat := 0;
    for i := 0 to |sentences|
      invariant lo <= i && (i > 0 ==> lo < i)
      invariant current == sentences[lo..i] && currentTokens == Tokens(sentences, lo, i)
      invariant Packing(sentences, packs, lo, i, maxTokens, budget)
    {
      var sentence := sentences[i];
      var tokens := CountTokens(sentence.text);
      if current != [] && currentTokens + tokens > maxTokens {
        FlushStep(sentences, packs, lo, i, maxTokens, budget);
        packs := packs + [current];
        current, currentTokens := CarryOver(current, budget, sentences, lo, i);
        lo := TailStart(sentences, lo, i, i, budget);
      } else {
        SkipStep(sentences, packs, lo, i, maxTokens, budget);
      }
      SliceAppend(sentences, lo, i);
      current := current + [sentence];
      currentTokens := currentTokens + tokens;
    }
    LastPack(sentences, packs, lo, maxTokens, budget);
    assert current == sentences[lo..];
    if current != [] { packs := packs + [current]; }
  }

  // ---------------------------------------------------------------- what packing guarantees

  /** A window exceeds the budget only by ending with its single new sentence; `prev` is
      where the window before it ended. */
  predicate Bounded(s: seq<Sentence>, w: Window, prev: nat, maxTokens: int) {
    && w.lo < w.hi <= |s|
    && prev < w.hi
    && (Tokens(s, w.lo, w.hi) <= maxTokens || w.hi == prev + 1)
  }

  /** Neighbouring windows share at least one sentence and the next one reaches further;
      what is shared is the longest suffix within the overlap budget, or one sentence; and
      the first window could not have taken one more sentence. */
  predicate Follows(s: seq<Sentence>, w: Window, next: Window, maxTokens: int, budget: int) {
    && w.lo < w.hi < next.hi <= |s|
    && w.lo <= next.lo < w.hi
    && (next.lo < w.hi - 1 ==> Tokens(s, next.lo, w.hi) <= budget)
    && (w.lo < next.lo ==> Tokens(s, next.lo - 1, w.hi) > budget)
    && Tokens(s, w.lo, w.hi) + Cost(s[w.hi]) > maxTokens
  }

  predicate WellPacked(s: seq<Sentence>, windows: seq<Window>, prev: nat, maxTokens: int, budget: int) {
    if windows == [] then prev == |s|
    else
      && Bounded(s, windows[0], prev, maxTokens)
      && (|windows| > 1 ==> Follows(s, windows[0], windows[1], maxTokens, budget))
      && WellPacked(s, windows[1..], windows[0].hi, maxTokens, budget)
  }

  lemma {:induction false} WellPackedCons(
    s: seq<Sentence>, w: Window, rest: seq<Window>, prev: nat, maxTokens: int, budget: int)
    requires Bounded(s, w, prev, maxTokens) && WellPacked(s, rest, w.hi, maxTokens, budget)
    requires rest != [] ==> Follows(s, w, rest[0], maxTokens, budget)
    ensures WellPacked(s, [w] + rest, prev, maxTokens, budget)
  {
    hide Tokens, CountTokens;
    assert ([w] + rest)[1..] == rest;
  }

  /** What the windows still to come guarantee. */
  predicate PackedFrom(
    s: seq<Sentence>, lo: nat, i: nat, prev: nat, windows: seq<Window>, maxTokens: int, budget: int)
  {
    && WellPacked(s, windows, prev, maxTokens, budget)
    && (windows == [] <==> lo == |s|)
    && (windows != [] ==> windows[0].lo == lo && windows[0].hi >= i)
  }

  lemma {:induction false} FlushedWellPacked(
    s: seq<Sentence>, lo: nat, i: nat, prev: nat, rest: seq<Window>, maxTokens: int, budget: int)
    requires lo < i < |s| && prev < i && (Tokens(s, lo, i) <= maxTokens || i == prev + 1)
    requires Tokens(s, lo, i) + Cost(s[i]) > maxTokens
    requires PackedFrom(s, TailStart(s, lo, i, i, budget), i + 1, i, rest, maxTokens, budget)
    ensures PackedFrom(s, lo, i, prev, [Window(lo, i)] + rest, maxTokens, budget)
  {
    hide CountTokens;
    TailIsLongestFit(s, lo, i, i, budget);
    WellPackedCons(s, Window(lo, i), rest, prev, maxTokens, budget);
  }

  lemma {:induction false} WindowsWellPacked(
    s: seq<Sentence>, lo: nat, i: nat, prev: nat, maxTokens: int, budget: int)
    requires lo <= i <= |s| && prev <= i
    requires lo < i ==> prev < i && (Tokens(s, lo, i) <= maxTokens || i == prev + 1)
    requires lo == i ==> i == prev
    ensures PackedFrom(s, lo, i, prev, Windows(s, lo, i, maxTokens, budget), maxTokens, budget)
    decreases |s| - i
  {
    hide CountTokens, TailStart;
    if i < |s| {
      if lo < i && Tokens(s, lo, i) + Cost(s[i]) > maxTokens {
        hide WellPacked, Tokens;
        var next := TailStart(s, lo, i, i, budget);
        TailIsLongestFit(s, lo, i, i, budget);
        WindowsWellPacked(s, next, i + 1, i, maxTokens, budget);
        FlushedWellPacked(s, lo, i, prev, Windows(s, next, i + 1, maxTokens, budget), maxTokens, budget);
      } else {
        WindowsWellPacked(s, lo, i + 1, prev, maxTokens, budget);
      }
    } else if lo < i {
      WellPackedCons(s, Window(lo, i), [], prev, maxTokens, budget);
      assert [Window(lo, i)] + [] == [Window(lo, i)];
    }
  }

  /** Packing a range from its first sentence keeps every guarantee. */
  lemma {:induction false} PackingIsWellPacked(s: seq<Sentence>, maxTokens: int, budget: int)
    ensures var windows := Windows(s, 0, 0, maxTokens, budget);
            && WellPacked(s, windows, 0, maxTokens, budget)
            && (s == [] <==> windows == [])
            && (s != [] ==> windows[0].lo == 0)
  {
    hide WellPacked, CountTokens;
    WindowsWellPacked(s, 0, 0, 0, maxTokens, budget);
  }

  lemma {:induction false} TokensGrow(s: seq<Sentence>, lo: nat, x: nat, y: nat)
    requires lo <= x <= |s| && lo <= y <= |s|
    ensures x < y ==> Tokens(s, lo, x) + Cost(s[x]) <= Tokens(s, lo, y)
  {
    if x < y {
      TokensSplit(s, lo, x + 1, y);
      assert Tokens(s, lo, x + 1) == Tokens(s, lo, x) + Cost(s[x]);
    }
  }

  /** With one starting point, a shorter first window could have taken one more sentence. */
  lemma {:induction false} FirstEndForced(
    s: seq<Sentence>, a: seq<Window>, b: seq<Window>, prev: nat, maxTokens: int, budget: int)
    requires a != [] && b != []
    requires WellPacked(s, a, prev, maxTokens, budget) && WellPacked(s, b, prev, maxTokens, budget)
    requires a[0].lo == b[0].lo
    ensures a[0].hi >= b[0].hi
  {
    TokensGrow(s, a[0].lo, a[0].hi, b[0].hi);
    assert |a| == 1 ==> a[0].hi == |s|;
  }

  lemma {:induction false} TailGrow(s: seq<Sentence>, x: nat, y: nat, hi: nat)
    requires x <= hi <= |s| && y <= hi
    ensures x < y ==> Tokens(s, x, hi) >= Tokens(s, y - 1, hi)
  {
    if x < y { TokensSplit(s, x, y - 1, hi); }
  }

  /** Two carried tails of one window start at the same sentence. */
  lemma {:induction false} NextStartForced(
    s: seq<Sentence>, w: Window, a: Window, b: Window, maxTokens: int, budget: int)
    requires Follows(s, w, a, maxTokens, budget) && Follows(s, w, b, maxTokens, budget)
    ensures a.lo >= b.lo
  {
    TailGrow(s, a.lo, b.lo, w.hi);
  }

  /** The guarantees determine the packing: two well-packed lists of windows with the same
      starting point are equal. */
  lemma {:induction false} WellPackedUnique(
    s: seq<Sentence>, a: seq<Window>, b: seq<Window>, prev: nat, maxTokens: int, budget: int)
    requires WellPacked(s, a, prev, maxTokens, budget) && WellPacked(s, b, prev, maxTokens, budget)
    requires a != [] && b != [] ==> a[0].lo == b[0].lo
    ensures a == b
    decreases |a|
  {
    if a != [] && b != [] {
      FirstEndForced(s, a, b, prev, maxTokens, budget);
      FirstEndForced(s, b, a, prev, maxTokens, budget);
      if |a| > 1 && |b| > 1 {
        NextStartForced(s, a[0], a[1], b[1], maxTokens, budget);
        NextStartForced(s, a[0], b[1], a[1], maxTokens, budget);
      }
      WellPackedUnique(s, a[1..], b[1..], a[0].hi, maxTokens, budget);
      assert a == [a[0]] + a[1..] && b == [b[0]] + b[1..];
    }
  }

  /** The largest sentence bounds every pack: no window costs more than the budget, or
      one carried tail and one more sentence. */
  lemma {:induction false} PackBound(
    s: seq<Sentence>, windows: seq<Window>, prev: nat, maxTokens: int, budget: int, m: nat)
    requires WellPacked(s, windows, prev, maxTokens, budget)
    requires forall k :: 0 <= k < |s| ==> Cost(s[k]) <= m
    requires windows != [] ==> windows[0].lo <= prev && Tokens(s, windows[0].lo, prev) <= Max(budget, m)
    ensures forall j :: 0 <= j < |windows| ==>
              windows[j].lo <= windows[j].hi <= |s|
              && Tokens(s, windows[j].lo, windows[j].hi) <= Max(maxTokens, Max(budget, m) + m)
    decreases |windows|
  {
    if windows != [] {
      var w := windows[0];
      if |windows| > 1 && windows[1].lo == w.hi - 1 {
        assert Tokens(s, w.hi - 1, w.hi) == Tokens(s, w.hi - 1, w.hi - 1) + Cost(s[w.hi - 1]);
      }
      PackBound(s, windows[1..], w.hi, maxTokens, budget, m);
    }
  }
}
