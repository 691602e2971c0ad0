/** substrate/chunking.py: cutting a text into overlapping windows of words. */
module Chunking {
  import opened Numeric
  import opened Text
  import opened Sequences

  // ------------------------------------------------------------------- str.split()

  function WordLength(s: string): (n: nat)
    ensures n <= |s| && (n < |s| ==> IsSpace(s[n])) && forall i :: 0 <= i < n ==> !IsSpace(s[i])
  {
    if s == [] || IsSpace(s[0]) then 0 else 1 + WordLength(s[1..])
  }

  function Words(s: string): seq<string>
    decreases |s|
  {
    if s == [] then []
    else if IsSpace(s[0]) then Words(s[1..])
    else var n := WordLength(s); [s[..n]] + Words(s[n..])
  }

  predicate IsWord(w: string) { w != [] && forall i :: 0 <= i < |w| ==> !IsSpace(w[i]) }

  ghost predicate AllWords(ws: seq<string>) { forall i :: 0 <= i < |ws| ==> IsWord(ws[i]) }

  lemma {:induction false} WordsAreWords(s: string)
    ensures AllWords(Words(s))
    decreases |s|
  {
    if s != [] {
      if IsSpace(s[0]) { WordsAreWords(s[1..]); } else { WordsAreWords(s[WordLength(s)..]); }
    }
  }

  lemma {:induction false} WordLengthOf(w: string, rest: string)
    requires forall i :: 0 <= i < |w| ==> !IsSpace(w[i])
    requires rest == [] || IsSpace(rest[0])
    ensures WordLength(w + rest) == |w|
  {
    if w == [] { assert w + rest == rest; } else {
      assert (w + rest)[1..] == w[1..] + rest;
      WordLengthOf(w[1..], rest);
    }
  }

  /** Splitting undoes joining with a space. */
  lemma {:induction false} WordsOfJoin(ws: seq<string>)
    requires AllWords(ws)
    ensures Words(Join(ws, " ")) == ws
  {
    if ws != [] {
      var rest := if |ws| == 1 then "" else " " + Join(ws[1..], " ");
      var s := Join(ws, " ");
      assert s == ws[0] + rest;
      WordLengthOf(ws[0], rest);
      assert s[..|ws[0]|] == ws[0] && s[|ws[0]|..] == rest;
      WordsOfJoin(ws[1..]);
      if |ws| > 1 { assert rest[1..] == Join(ws[1..], " "); }
      assert ws == [ws[0]] + ws[1..];
    }
  }

  // ----------------------------------------------------------------------- windows

  /** The part of the budget that does not overlap, in whole words, one at least. */
  function Step(maxTokens: nat, overlapRatio: real): (step: nat)
    ensures step >= 1
    ensures var part := maxTokens as real * (1.0 - overlapRatio);
            if part < 2.0 then step == 1 else step as real <= part < step as real + 1.0
  {
    var step := Truncate(maxTokens as real * (1.0 - overlapRatio));
    if step > 1 then step else 1
  }

  function WindowsFrom(words: seq<string>, start: nat, maxTokens: nat, step: nat): seq<seq<string>>
    requires step >= 1
    decreases |words| - start
  {
    if start >= |words| then []
    else if start + maxTokens >= |words| then [words[start..]]
    else [words[start..start + maxTokens]] + WindowsFrom(words, start + step, maxTokens, step)
  }

  function Rendered(windows: seq<seq<string>>): seq<string> {
    if windows == [] then [] else [Join(windows[0], " ")] + Rendered(windows[1..])
  }

  function Pieces(text: string, maxTokens: nat, overlapRatio: real): seq<string> {
    var words := Words(text);
    if |words| <= maxTokens then (if words == [] then [] else [text])
    else Rendered(WindowsFrom(words, 0, maxTokens, Step(maxTokens, overlapRatio)))
  }

  method SplitByTokenBudget(text: string, maxTokens: nat, overlapRatio: real) returns (pieces: seq<string>)
    ensures pieces == Pieces(text, maxTokens, overlapRatio)
  {
    var words := Words(text);
    if |words| <= maxTokens { return if words == [] then [] else [text]; }
    pieces := SlideWindow(words, maxTokens, Step(maxTokens, overlapRatio));
  }

  method SlideWindow(words: seq<string>, maxTokens: nat, step: nat) returns (pieces: seq<string>)
    requires step >= 1
    ensures pieces == Rendered(WindowsFrom(words, 0, maxTokens, step))
  {
    pieces := [];
    var start := 0;
    ghost var rest := Rendered(WindowsFrom(words, 0, maxTokens, step));
    ghost var all := rest;
    while start < |words|
      invariant rest == Rendered(WindowsFrom(words, start, maxTokens, step))
      invariant all == pieces + rest
      decreases |words| - start
    {
      var end := if start + maxTokens < |words| then start + maxTokens else |words|;
      var piece := Join(words[start..end], " ");
      RenderedStep(words, start, maxTokens, step);
      ghost var later := if end == |words| then [] else Rendered(WindowsFrom(words, start + step, maxTokens, step));
      assert rest == [piece] + later;
      Regroup(pieces, [piece], later);
      pieces := pieces + [piece];
      if end == |words| { return; }
      start := start + step;
      rest := later;
    }
  }

  lemma RenderedStep(words: seq<string>, start: nat, maxTokens: nat, step: nat)
    requires step >= 1 && start < |words|
    ensures var rest := Rendered(WindowsFrom(words, start, maxTokens, step));
            if start + maxTokens >= |words| then rest == [Join(words[start..|words|], " ")]
            else rest == [Join(words[start..start + maxTokens], " ")] +
                         Rendered(WindowsFrom(words, start + step, maxTokens, step))
  {
    var w := WindowsFrom(words, start, maxTokens, step);
    if start + maxTokens >= |words| {
      assert w[1..] == [] && words[start..] == words[start..|words|];
    } else {
      assert w[1..] == WindowsFrom(words, start + step, maxTokens, step);
    }
  }

  // -------------------------------------------------------------------- properties

  function WordsOf(pieces: seq<string>): seq<seq<string>> {
    if pieces == [] then [] else [Words(pieces[0])] + WordsOf(pieces[1..])
  }

  lemma {:induction false} WordsOfRendered(windows: seq<seq<string>>)
    requires forall i :: 0 <= i < |windows| ==> AllWords(windows[i])
    ensures WordsOf(Rendered(windows)) == windows
  {
    if windows != [] {
      assert AllWords(windows[0]);
      WordsOfJoin(windows[0]);
      WordsOfRendered(windows[1..]);
    }
  }

  lemma {:induction false} WindowsKeepWords(words: seq<string>, start: nat, maxTokens: nat, step: nat)
    requires AllWords(words) && step >= 1
    ensures forall i :: 0 <= i < |WindowsFrom(words, start, maxTokens, step)| ==>
            AllWords(WindowsFrom(words, start, maxTokens, step)[i])
    decreases |words| - start
  {
    if start + maxTokens < |words| && start < |words| { WindowsKeepWords(words, start + step, maxTokens, step); }
  }

  /** Reading the pieces back as words gives the windows. */
  lemma PiecesAreWindows(text: string, maxTokens: nat, overlapRatio: real)
    requires |Words(text)| > maxTokens
    ensures WordsOf(Pieces(text, maxTokens, overlapRatio)) ==
            WindowsFrom(Words(text), 0, maxTokens, Step(maxTokens, overlapRatio))
  {
    WordsAreWords(text);
    WindowsKeepWords(Words(text), 0, maxTokens, Step(maxTokens, overlapRatio));
    WordsOfRendered(WindowsFrom(Words(text), 0, maxTokens, Step(maxTokens, overlapRatio)));
  }

  /** Every window but the last is full; the last holds at least one word and no more than the
      budget. */
  lemma {:induction false} WindowSizes(words: seq<string>, start: nat, maxTokens: nat, step: nat, i: nat)
    requires step >= 1 && i < |WindowsFrom(words, start, maxTokens, step)|
    ensures var ws := WindowsFrom(words, start, maxTokens, step);
            if i < |ws| - 1 then |ws[i]| == maxTokens else |ws[i]| <= maxTokens && (maxTokens >= 1 ==> ws[i] != [])
    decreases i
  {
    if i > 0 { WindowSizes(words, start + step, maxTokens, step, i - 1); }
  }

  /** Consecutive windows share exactly maxTokens - step words. */
  lemma {:induction false} WindowsOverlap(words: seq<string>, start: nat, maxTokens: nat, step: nat, i: nat)
    requires 1 <= step <= maxTokens && i + 1 < |WindowsFrom(words, start, maxTokens, step)|
    ensures var ws := WindowsFrom(words, start, maxTokens, step);
            |ws[i]| == maxTokens && |ws[i + 1]| > maxTokens - step && ws[i][step..] == ws[i + 1][..maxTokens - step]
    decreases i
  {
    if i > 0 {
      WindowsOverlap(words, start + step, maxTokens, step, i - 1);
    } else {
      var next := start + step;
      var end := if next + maxTokens < |words| then next + maxTokens else |words|;
      assert WindowsFrom(words, start, maxTokens, step)[1] == words[next..end];
      assert words[start..start + maxTokens][step..] == words[next..start + maxTokens];
      assert words[next..end][..maxTokens - step] == words[next..start + maxTokens];
    }
  }

  function Drop(w: seq<string>, n: nat): seq<string> { if n <= |w| then w[n..] else [] }

  /** The first window followed by what each later window adds beyond the overlap. */
  function Stitch(windows: seq<seq<string>>, overlap: nat): seq<string> {
    if windows == [] then [] else windows[0] + Tail(windows[1..], overlap)
  }

  function Tail(windows: seq<seq<string>>, overlap: nat): seq<string> {
    if windows == [] then [] else Drop(windows[0], overlap) + Tail(windows[1..], overlap)
  }

  lemma {:induction false} TailRestores(words: seq<string>, start: nat, maxTokens: nat, step: nat)
    requires 1 <= step <= maxTokens && start + maxTokens - step < |words|
    ensures Tail(WindowsFrom(words, start, maxTokens, step), maxTokens - step) == words[start + maxTokens - step..]
    decreases |words| - start
  {
    var w, overlap := WindowsFrom(words, start, maxTokens, step), maxTokens - step;
    if start + maxTokens >= |words| {
      assert w[1..] == [];
      assert words[start..][overlap..] == words[start + overlap..];
    } else {
      TailRestores(words, start + step, maxTokens, step);
      TailStep(words[start..start + maxTokens], WindowsFrom(words, start + step, maxTokens, step), overlap);
      DropThenRest(words, start, overlap, start + maxTokens);
    }
  }

  lemma TailStep(window: seq<string>, later: seq<seq<string>>, overlap: nat)
    ensures Tail([window] + later, overlap) == Drop(window, overlap) + Tail(later, overlap)
  {
    assert ([window] + later)[1..] == later;
  }

  lemma DropThenRest(words: seq<string>, start: nat, overlap: nat, end: nat)
    requires start + overlap <= end <= |words|
    ensures Drop(words[start..end], overlap) + words[end..] == words[start + overlap..]
  {
    assert words[start..end][overlap..] == words[start + overlap..end];
  }

  /** A step longer than a window skips words. */
  lemma {:induction false} TailLoses(words: seq<string>, start: nat, maxTokens: nat, step: nat)
    requires step > maxTokens
    ensures |Tail(WindowsFrom(words, start, maxTokens, step), 0)| <= if start < |words| then |words| - start else 0
    decreases |words| - start
  {
    var w := WindowsFrom(words, start, maxTokens, step);
    if start < |words| {
      if start + maxTokens >= |words| {
        assert w[1..] == [];
      } else {
        TailLoses(words, start + step, maxTokens, step);
        assert w[1..] == WindowsFrom(words, start + step, maxTokens, step);
      }
    }
  }

  function Overlap(maxTokens: nat, step: nat): nat { if step <= maxTokens then maxTokens - step else 0 }

  /** Dropping the overlaps from the pieces restores the words of the text exactly when the
      text fits the budget or the step is no longer than a window. */
  lemma StitchingRestoresIff(text: string, maxTokens: nat, overlapRatio: real)
    ensures var step := Step(maxTokens, overlapRatio);
            Stitch(WordsOf(Pieces(text, maxTokens, overlapRatio)), Overlap(maxTokens, step)) == Words(text)
            <==> |Words(text)| <= maxTokens || step <= maxTokens
  {
    var words, step := Words(text), Step(maxTokens, overlapRatio);
    if |words| <= maxTokens {
      StitchOne(text, Overlap(maxTokens, step));
    } else {
      PiecesAreWindows(text, maxTokens, overlapRatio);
      StitchWindows(words, maxTokens, step);
    }
  }

  lemma StitchOne(text: string, overlap: nat)
    ensures Stitch(WordsOf([text]), overlap) == Words(text) && Stitch(WordsOf([]), overlap) == []
  {
    assert WordsOf([text]) == [Words(text)] && [Words(text)][1..] == [];
    assert Words(text) + [] == Words(text);
  }

  lemma StitchWindows(words: seq<string>, maxTokens: nat, step: nat)
    requires step >= 1 && |words| > maxTokens
    ensures Stitch(WindowsFrom(words, 0, maxTokens, step), Overlap(maxTokens, step)) == words <==> step <= maxTokens
  {
    var w := WindowsFrom(words, 0, maxTokens, step);
    var later := WindowsFrom(words, step, maxTokens, step);
    assert w[0] == words[0..maxTokens] && w[1..] == later;
    if step <= maxTokens {
      TailRestores(words, step, maxTokens, step);
      assert words == words[0..maxTokens] + words[maxTokens..];
    } else {
      TailLoses(words, step, maxTokens, step);
      assert |Stitch(w, 0)| == maxTokens + |Tail(later, 0)|;
    }
  }

  /** A positive budget and an overlap ratio that is not negative are enough. */
  lemma StepWithinWindow(maxTokens: nat, overlapRatio: real)
    ensures Step(maxTokens, overlapRatio) <= maxTokens <==>
            maxTokens >= 1 && maxTokens as real * (1.0 - overlapRatio) < maxTokens as real + 1.0
  {
    var x := maxTokens as real * (1.0 - overlapRatio);
    if x >= 0.0 { assert x.Floor as real <= x < x.Floor as real + 1.0; }
  }

  const CONFLUENCE_MAX_TOKENS: nat := 900
  const CONFLUENCE_OVERLAP_RATIO := 0.15

  /** With the program's own constants nothing is ever lost: neighbours share 135 words. */
  lemma ConfluencePiecesRestore(text: string)
    ensures Stitch(WordsOf(Pieces(text, CONFLUENCE_MAX_TOKENS, CONFLUENCE_OVERLAP_RATIO)), 135) == Words(text)
  {
    assert Truncate(765.0) == 765;
    StitchingRestoresIff(text, CONFLUENCE_MAX_TOKENS, CONFLUENCE_OVERLAP_RATIO);
  }
}
