/** The greedy word wrap the component uses to lay card text out on a canvas
    (`wrapText`). The canvas's width measure is a parameter: any function from
    strings to widths. */
module WordWrap {
  import opened Text

  /** What `ctx.measureText(s).width` reports for `s` in the current font. */
  type Measure = string -> real

  /** One pass of `wrapText`'s loop from word `n` on, with the lines emitted
      so far and the line being filled (each word followed by a space). A
      word that would push the line past `maxWidth` starts a new line, except
      the very first word. */
  function WrapFrom(measure: Measure, maxWidth: real, words: seq<string>, n: nat,
                    lines: seq<string>, line: string): (r: seq<string>)
    requires n <= |words|
    ensures |lines| < |r| <= |lines| + 1 + (|words| - n)
    ensures r[..|lines|] == lines
    decreases |words| - n
  {
    if n == |words| then lines + [Trim(line)]
    else
      var testLine := line + words[n] + " ";
      if measure(testLine) > maxWidth && n > 0 then
        WrapFrom(measure, maxWidth, words, n + 1, lines + [Trim(line)], words[n] + " ")
      else
        WrapFrom(measure, maxWidth, words, n + 1, lines, testLine)
  }

  /** `wrapText(ctx, text, maxWidth)`: the text's space-separated words laid
      out greedily; there is always a line, and never more lines than words. */
  function WrapText(measure: Measure, text: string, maxWidth: real): (r: seq<string>)
    ensures 1 <= |r| <= |Split(text)|
  {
    WrapFrom(measure, maxWidth, Split(text), 0, [], "")
  }

  // ---------------------------------------------------------------------
  // The greedy layout, described by where each line starts
  // ---------------------------------------------------------------------

  /** One past the last word of line `k`, for a text of `n` words whose lines
      start at `starts`. */
  function LineEnd(n: nat, starts: seq<nat>, k: nat): nat
    requires k < |starts|
  {
    if k + 1 < |starts| then starts[k + 1] else n
  }

  /** `starts` cuts `n` words into lines: the first line starts at word 0 and
      every line holds at least one word. */
  ghost predicate LineStarts(n: nat, starts: seq<nat>) {
    && |starts| >= 1
    && starts[0] == 0
    && (forall k :: 0 <= k < |starts| ==> starts[k] < n)
    && (forall k: nat {:trigger LineEnd(n, starts, k)} :: k < |starts| ==>
          starts[k] < LineEnd(n, starts, k) <= n)
  }

  /** Every trial line the loop measures while filling a line with words
      `s` up to `e` (each with two words or more) is within `maxWidth`. */
  ghost predicate Fits(measure: Measure, maxWidth: real, words: seq<string>, s: nat, e: nat)
    requires s <= e <= |words|
  {
    forall t :: s + 2 <= t <= e ==> measure(Spaced(words[s..t])) <= maxWidth
  }

  /** Words `s` up to `e` of the first `n` form a greedy line: they fit while
      they are added, and when another word follows, adding it would not
      have fitted. */
  ghost predicate GreedyLine(measure: Measure, maxWidth: real, words: seq<string>, n: nat, s: nat, e: nat)
    requires s < e <= n <= |words|
  {
    && Fits(measure, maxWidth, words, s, e)
    && (e < n ==> measure(Spaced(words[s..e + 1])) > maxWidth)
  }

  /** `starts` is the greedy layout of the first `n` words: every line is a
      greedy line, so a new line starts only where adding its first word to
      the previous line would not have fitted. */
  ghost predicate Greedy(measure: Measure, maxWidth: real, words: seq<string>, n: nat, starts: seq<nat>)
    requires n <= |words|
  {
    && LineStarts(n, starts)
    && (forall k: nat {:trigger LineEnd(n, starts, k)} :: k < |starts| ==>
          GreedyLine(measure, maxWidth, words, n, starts[k], LineEnd(n, starts, k)))
  }

  /** The text of line `k` of the layout: its words, each followed by a
      space, then trimmed. */
  ghost function LineText(words: seq<string>, n: nat, starts: seq<nat>, k: nat): string
    requires n <= |words| && LineStarts(n, starts) && k < |starts|
  {
    Trim(Spaced(words[starts[k]..LineEnd(n, starts, k)]))
  }

  /** `lines` shows the layout `starts`, line by line. */
  ghost predicate Renders(words: seq<string>, n: nat, starts: seq<nat>, lines: seq<string>)
    requires n <= |words| && LineStarts(n, starts)
  {
    && |lines| == |starts|
    && forall k :: 0 <= k < |starts| ==> lines[k] == LineText(words, n, starts, k)
  }

  /** Starting a new line at word `n` of a layout of `n` words: the earlier
      lines keep their ends, the line that was being filled ends at `n`, and
      the new line holds word `n`. */
  lemma BreakLineStarts(n: nat, starts: seq<nat>)
    requires 1 <= n && LineStarts(n, starts)
    ensures LineStarts(n + 1, starts + [n])
    ensures forall k: nat | k < |starts| - 1 :: LineEnd(n + 1, starts + [n], k) == LineEnd(n, starts, k) < n
    ensures LineEnd(n + 1, starts + [n], |starts| - 1) == LineEnd(n, starts, |starts| - 1) == n
    ensures LineEnd(n + 1, starts + [n], |starts|) == n + 1
  {
    var last := |starts| - 1;
    var starts' := starts + [n];
    forall k: nat | k < last
      ensures LineEnd(n + 1, starts', k) == LineEnd(n, starts, k) < n
    {
      assert LineEnd(n, starts, k) == starts[k + 1] < LineEnd(n, starts, k + 1);
    }
    assert LineEnd(n, starts, last) == n;
    forall k: nat | k < |starts'|
      ensures starts'[k] < LineEnd(n + 1, starts', k) <= n + 1
    {
      if k < last {
        assert starts'[k] == starts[k] < LineEnd(n, starts, k);
      }
    }
  }

  /** Adding word `n` to the line being filled: the earlier lines keep their
      ends and the last line now ends after word `n`. */
  lemma ExtendLineStarts(n: nat, starts: seq<nat>)
    requires LineStarts(n, starts)
    ensures LineStarts(n + 1, starts)
    ensures forall k: nat | k < |starts| - 1 :: LineEnd(n + 1, starts, k) == LineEnd(n, starts, k) < n
    ensures LineEnd(n, starts, |starts| - 1) == n
    ensures LineEnd(n + 1, starts, |starts| - 1) == n + 1
  {
    var last := |starts| - 1;
    forall k: nat | k < last
      ensures LineEnd(n + 1, starts, k) == LineEnd(n, starts, k) < n
    {
      assert LineEnd(n, starts, k) == starts[k + 1] < LineEnd(n, starts, k + 1);
    }
    assert LineEnd(n, starts, last) == n;
    forall k: nat | k < |starts|
      ensures starts[k] < LineEnd(n + 1, starts, k) <= n + 1
    {
      if k < last {
        assert starts[k] < LineEnd(n, starts, k);
      }
    }
  }

  /** Starting a new line at word `n`, because adding it to the current line
      would not fit, keeps the layout greedy. */
  lemma BreakKeepsGreedy(measure: Measure, maxWidth: real, words: seq<string>, n: nat, starts: seq<nat>)
    requires 1 <= n < |words|
    requires Greedy(measure, maxWidth, words, n, starts)
    requires measure(Spaced(words[starts[|starts| - 1]..n + 1])) > maxWidth
    ensures Greedy(measure, maxWidth, words, n + 1, starts + [n])
  {
    var starts' := starts + [n];
    BreakLineStarts(n, starts);
    forall k: nat | k < |starts'|
      ensures GreedyLine(measure, maxWidth, words, n + 1, starts'[k], LineEnd(n + 1, starts', k))
    {
      if k < |starts| {
        assert starts'[k] == starts[k];
        assert GreedyLine(measure, maxWidth, words, n, starts[k], LineEnd(n, starts, k));
      }
    }
  }

  /** A line that starts and ends at the same words in two layouts has the
      same text in both. */
  lemma SameLineText(words: seq<string>, n: nat, starts: seq<nat>, n': nat, starts': seq<nat>, k: nat)
    requires n <= |words| && LineStarts(n, starts) && k < |starts|
    requires n' <= |words| && LineStarts(n', starts') && k < |starts'|
    requires starts'[k] == starts[k] && LineEnd(n', starts', k) == LineEnd(n, starts, k)
    ensures LineText(words, n', starts', k) == LineText(words, n, starts, k)
  {
    var s := starts[k];
    var e := LineEnd(n, starts, k);
    assert LineText(words, n', starts', k) == Trim(Spaced(words[s..e]));
  }

  /** Starting a new line leaves the text of the finished lines as it was. */
  lemma BreakKeepsLineText(words: seq<string>, n: nat, starts: seq<nat>)
    requires 1 <= n < |words| && LineStarts(n, starts)
    ensures LineStarts(n + 1, starts + [n])
    ensures forall k :: 0 <= k < |starts| ==>
      LineText(words, n + 1, starts + [n], k) == LineText(words, n, starts, k)
  {
    BreakLineStarts(n, starts);
    forall k | 0 <= k < |starts|
      ensures LineText(words, n + 1, starts + [n], k) == LineText(words, n, starts, k)
    {
      assert (starts + [n])[k] == starts[k];
      SameLineText(words, n, starts, n + 1, starts + [n], k);
    }
  }

  /** Adding word `n` to the current line, because the longer line still
      fits, keeps the layout greedy. */
  lemma ExtendKeepsGreedy(measure: Measure, maxWidth: real, words: seq<string>, n: nat, starts: seq<nat>)
    requires 1 <= n < |words|
    requires Greedy(measure, maxWidth, words, n, starts)
    requires measure(Spaced(words[starts[|starts| - 1]..n + 1])) <= maxWidth
    ensures Greedy(measure, maxWidth, words, n + 1, starts)
  {
    var last := |starts| - 1;
    var s := starts[last];
    ExtendLineStarts(n, starts);
    forall k: nat | k < |starts|
      ensures GreedyLine(measure, maxWidth, words, n + 1, starts[k], LineEnd(n + 1, starts, k))
    {
      assert GreedyLine(measure, maxWidth, words, n, starts[k], LineEnd(n, starts, k));
      if k == last {
        assert Fits(measure, maxWidth, words, s, n);
      }
    }
  }

  /** Extending the current line leaves the text of the finished lines as it
      was. */
  lemma ExtendKeepsLineText(words: seq<string>, n: nat, starts: seq<nat>)
    requires n + 1 <= |words| && LineStarts(n, starts)
    ensures LineStarts(n + 1, starts)
    ensures forall k :: 0 <= k < |starts| - 1 ==>
      LineText(words, n + 1, starts, k) == LineText(words, n, starts, k)
  {
    ExtendLineStarts(n, starts);
  }

  /** The loop keeps the lines emitted so far, and the line being filled, a
      greedy layout of the words read so far; at the end the whole text is
      laid out greedily. */
  lemma {:induction false} WrapFromGreedy(measure: Measure, maxWidth: real, words: seq<string>,
                                          n: nat, starts: seq<nat>, lines: seq<string>, line: string)
    returns (all: seq<nat>)
    requires 1 <= n <= |words|
    requires Greedy(measure, maxWidth, words, n, starts)
    requires |lines| + 1 == |starts|
    requires forall k :: 0 <= k < |lines| ==> lines[k] == LineText(words, n, starts, k)
    requires line == Spaced(words[starts[|starts| - 1]..n])
    ensures Greedy(measure, maxWidth, words, |words|, all)
    ensures Renders(words, |words|, all, WrapFrom(measure, maxWidth, words, n, lines, line))
    decreases |words| - n, 1
  {
    if n == |words| {
      all := starts;
      FinishGreedy(measure, maxWidth, words, starts, lines, line);
    } else if measure(line + words[n] + " ") > maxWidth {
      all := BreakGreedy(measure, maxWidth, words, n, starts, lines, line);
    } else {
      all := ExtendGreedy(measure, maxWidth, words, n, starts, lines, line);
    }
  }

  /** After the last word, the final push renders the greedy layout. */
  lemma FinishGreedy(measure: Measure, maxWidth: real, words: seq<string>,
                     starts: seq<nat>, lines: seq<string>, line: string)
    requires 1 <= |words|
    requires Greedy(measure, maxWidth, words, |words|, starts)
    requires |lines| + 1 == |starts|
    requires forall k :: 0 <= k < |lines| ==> lines[k] == LineText(words, |words|, starts, k)
    requires line == Spaced(words[starts[|starts| - 1]..|words|])
    ensures Renders(words, |words|, starts, WrapFrom(measure, maxWidth, words, |words|, lines, line))
  {
    var n := |words|;
    var last := |starts| - 1;
    assert LineEnd(n, starts, last) == n;
    var out := WrapFrom(measure, maxWidth, words, n, lines, line);
    assert out == lines + [LineText(words, n, starts, last)];
    FinalLineRenders(words, starts, lines);
  }

  /** Word `n` does not fit: the finished line is emitted and word `n`
      opens the next one, and the rest of the loop renders a greedy layout. */
  lemma {:induction false} BreakGreedy(measure: Measure, maxWidth: real, words: seq<string>,
                                       n: nat, starts: seq<nat>, lines: seq<string>, line: string)
    returns (all: seq<nat>)
    requires 1 <= n < |words|
    requires Greedy(measure, maxWidth, words, n, starts)
    requires |lines| + 1 == |starts|
    requires forall k :: 0 <= k < |lines| ==> lines[k] == LineText(words, n, starts, k)
    requires line == Spaced(words[starts[|starts| - 1]..n])
    requires measure(line + words[n] + " ") > maxWidth
    ensures Greedy(measure, maxWidth, words, |words|, all)
    ensures Renders(words, |words|, all, WrapFrom(measure, maxWidth, words, n, lines, line))
    decreases |words| - n, 0
  {
    SpacedSliceSnoc(words, starts[|starts| - 1], n);
    var starts' := starts + [n];
    var lines' := lines + [Trim(line)];
    BreakStep(measure, maxWidth, words, n, starts, lines);
    assert WrapFrom(measure, maxWidth, words, n, lines, line)
        == WrapFrom(measure, maxWidth, words, n + 1, lines', words[n] + " ");
    all := WrapFromGreedy(measure, maxWidth, words, n + 1, starts', lines', words[n] + " ");
  }

  /** Word `n` fits: it joins the line being filled, and the rest of the
      loop renders a greedy layout. */
  lemma {:induction false} ExtendGreedy(measure: Measure, maxWidth: real, words: seq<string>,
                                        n: nat, starts: seq<nat>, lines: seq<string>, line: string)
    returns (all: seq<nat>)
    requires 1 <= n < |words|
    requires Greedy(measure, maxWidth, words, n, starts)
    requires |lines| + 1 == |starts|
    requires forall k :: 0 <= k < |lines| ==> lines[k] == LineText(words, n, starts, k)
    requires line == Spaced(words[starts[|starts| - 1]..n])
    requires measure(line + words[n] + " ") <= maxWidth
    ensures Greedy(measure, maxWidth, words, |words|, all)
    ensures Renders(words, |words|, all, WrapFrom(measure, maxWidth, words, n, lines, line))
    decreases |words| - n, 0
  {
    var testLine := line + words[n] + " ";
    SpacedSliceSnoc(words, starts[|starts| - 1], n);
    ExtendKeepsGreedy(measure, maxWidth, words, n, starts);
    ExtendKeepsLineText(words, n, starts);
    assert WrapFrom(measure, maxWidth, words, n, lines, line)
        == WrapFrom(measure, maxWidth, words, n + 1, lines, testLine);
    all := WrapFromGreedy(measure, maxWidth, words, n + 1, starts, lines, testLine);
  }

  /** The emitted lines and the text of the last line render the layout. */
  lemma FinalLineRenders(words: seq<string>, starts: seq<nat>, lines: seq<string>)
    requires LineStarts(|words|, starts) && |lines| + 1 == |starts|
    requires forall k :: 0 <= k < |lines| ==> lines[k] == LineText(words, |words|, starts, k)
    ensures Renders(words, |words|, starts, lines + [LineText(words, |words|, starts, |lines|)])
  {
    var r := lines + [LineText(words, |words|, starts, |lines|)];
    forall k | 0 <= k < |starts| ensures r[k] == LineText(words, |words|, starts, k) {
      if k < |lines| {
        assert r[k] == lines[k];
      }
    }
  }

  /** Offering word `n` to the line holding words `s` up to `n` measures
      those words, each followed by a space, and word `n` with its space. */
  lemma SpacedSliceSnoc(words: seq<string>, s: nat, n: nat)
    requires s <= n < |words|
    ensures Spaced(words[s..n + 1]) == Spaced(words[s..n]) + words[n] + " "
  {
    assert words[s..n + 1] == words[s..n] + [words[n]];
    SpacedSnoc(words[s..n], words[n]);
  }

  /** The loop's break step: when word `n` does not fit, the finished line
      joins the emitted lines, the layout stays greedy, and the new line
      holds word `n` alone. */
  lemma BreakStep(measure: Measure, maxWidth: real, words: seq<string>,
                  n: nat, starts: seq<nat>, lines: seq<string>)
    requires 1 <= n < |words|
    requires Greedy(measure, maxWidth, words, n, starts)
    requires |lines| + 1 == |starts|
    requires forall k :: 0 <= k < |lines| ==> lines[k] == LineText(words, n, starts, k)
    requires measure(Spaced(words[starts[|starts| - 1]..n + 1])) > maxWidth
    ensures Greedy(measure, maxWidth, words, n + 1, starts + [n])
    ensures var lines' := lines + [Trim(Spaced(words[starts[|starts| - 1]..n]))];
      forall k :: 0 <= k < |lines'| ==> lines'[k] == LineText(words, n + 1, starts + [n], k)
    ensures Spaced(words[(starts + [n])[|starts|]..n + 1]) == words[n] + " "
  {
    var last := |starts| - 1;
    var starts' := starts + [n];
    var lines' := lines + [Trim(Spaced(words[starts[last]..n]))];
    BreakKeepsGreedy(measure, maxWidth, words, n, starts);
    BreakKeepsLineText(words, n, starts);
    assert LineEnd(n + 1, starts', last) == n;
    assert lines'[last] == LineText(words, n + 1, starts', last);
    assert words[n..n + 1] == [] + [words[n]];
    SpacedSnoc([], words[n]);
  }

  /** `wrapText` lays its text out greedily: it returns the rendering of a
      greedy layout of the text's words. */
  lemma WrapTextGreedy(measure: Measure, text: string, maxWidth: real) returns (starts: seq<nat>)
    ensures Greedy(measure, maxWidth, Split(text), |Split(text)|, starts)
    ensures Renders(Split(text), |Split(text)|, starts, WrapText(measure, text, maxWidth))
  {
    var words := Split(text);
    var one := FirstWordGreedy(measure, maxWidth, words);
    FirstStep(measure, maxWidth, words);
    starts := WrapFromGreedy(measure, maxWidth, words, 1, one, [], words[0] + " ");
  }

  /** The first word alone is a greedy layout of the first word. */
  lemma FirstWordGreedy(measure: Measure, maxWidth: real, words: seq<string>) returns (one: seq<nat>)
    requires |words| >= 1
    ensures one == [0]
    ensures Greedy(measure, maxWidth, words, 1, one)
    ensures Spaced(words[one[|one| - 1]..1]) == words[0] + " "
  {
    one := [0];
    assert words[0..1] == [] + [words[0]];
    SpacedSnoc([], words[0]);
    assert LineEnd(1, one, 0) == 1;
    assert GreedyLine(measure, maxWidth, words, 1, 0, 1);
  }

  /** The loop never breaks before the first word: after it, the line being
      filled is that word and a space, and nothing has been emitted. */
  lemma FirstStep(measure: Measure, maxWidth: real, words: seq<string>)
    requires |words| >= 1
    ensures WrapFrom(measure, maxWidth, words, 0, [], "") == WrapFrom(measure, maxWidth, words, 1, [], words[0] + " ")
  {
    assert "" + words[0] + " " == words[0] + " ";
  }

  /** Line `k` of two greedy layouts starts at the same word, then it also
      ends at the same word. */
  lemma GreedyLineAgrees(measure: Measure, maxWidth: real, words: seq<string>,
                         a: seq<nat>, b: seq<nat>, k: nat)
    requires Greedy(measure, maxWidth, words, |words|, a)
    requires Greedy(measure, maxWidth, words, |words|, b)
    requires k < |a| && k < |b| && a[k] == b[k]
    ensures LineEnd(|words|, a, k) == LineEnd(|words|, b, k)
    ensures k + 1 < |a| <==> k + 1 < |b|
  {
    var n := |words|;
    var s := a[k];
    var ea := LineEnd(n, a, k);
    var eb := LineEnd(n, b, k);
    assert GreedyLine(measure, maxWidth, words, n, s, ea);
    assert GreedyLine(measure, maxWidth, words, n, s, eb);
    assert k + 1 < |a| ==> ea < LineEnd(n, a, k + 1);
    assert k + 1 < |b| ==> eb < LineEnd(n, b, k + 1);
  }

  /** Two greedy layouts agree on their first `k + 1` lines. */
  lemma {:induction false} GreedyPrefixAgrees(measure: Measure, maxWidth: real, words: seq<string>,
                                              a: seq<nat>, b: seq<nat>, k: nat)
    requires Greedy(measure, maxWidth, words, |words|, a)
    requires Greedy(measure, maxWidth, words, |words|, b)
    requires k < |a| && k < |b|
    ensures a[..k + 1] == b[..k + 1]
  {
    if k > 0 {
      GreedyPrefixAgrees(measure, maxWidth, words, a, b, k - 1);
      GreedyLineAgrees(measure, maxWidth, words, a, b, k - 1);
      assert a[..k + 1] == a[..k] + [a[k]];
      assert b[..k + 1] == b[..k] + [b[k]];
    }
  }

  /** There is only one greedy layout of a text: the line breaks are
      determined by the words and the measure. */
  lemma GreedyUnique(measure: Measure, maxWidth: real, words: seq<string>, a: seq<nat>, b: seq<nat>)
    requires Greedy(measure, maxWidth, words, |words|, a)
    requires Greedy(measure, maxWidth, words, |words|, b)
    ensures a == b
  {
    var m := if |a| < |b| then |a| else |b|;
    GreedyPrefixAgrees(measure, maxWidth, words, a, b, m - 1);
    assert a[m - 1] == b[m - 1] by {
      assert a[m - 1] == a[..m][m - 1];
      assert b[m - 1] == b[..m][m - 1];
    }
    GreedyLineAgrees(measure, maxWidth, words, a, b, m - 1);
    assert |a| == |b|;
    assert a == a[..m] && b == b[..m];
  }

  /** `wrapText` returns exactly the rendering of THE greedy layout: whatever
      layout satisfies the greedy rule, the returned lines show it. */
  lemma WrapTextIsGreedyLayout(measure: Measure, text: string, maxWidth: real, starts: seq<nat>)
    requires Greedy(measure, maxWidth, Split(text), |Split(text)|, starts)
    ensures Renders(Split(text), |Split(text)|, starts, WrapText(measure, text, maxWidth))
  {
    var found := WrapTextGreedy(measure, text, maxWidth);
    GreedyUnique(measure, maxWidth, Split(text), found, starts);
  }

  // ---------------------------------------------------------------------
  // What the returned lines look like
  // ---------------------------------------------------------------------

  /** A slice of clean words is clean. */
  lemma CleanSlice(words: seq<string>, s: nat, e: nat)
    requires s <= e <= |words| && AllClean(words)
    ensures AllClean(words[s..e])
  {
    forall i | 0 <= i < e - s ensures Clean(words[s..e][i]) {
      assert words[s..e][i] == words[s + i];
    }
  }

  /** With clean words, line `k` is its words joined by single spaces. */
  lemma CleanLineText(words: seq<string>, n: nat, starts: seq<nat>, k: nat)
    requires n <= |words| && LineStarts(n, starts) && k < |starts| && AllClean(words)
    ensures LineText(words, n, starts, k) == Join(words[starts[k]..LineEnd(n, starts, k)], " ")
  {
    var e := LineEnd(n, starts, k);
    CleanSlice(words, starts[k], e);
    TrimSpaced(words[starts[k]..e]);
  }

  /** With clean words, rendered line `k` is its words joined by single
      spaces. */
  lemma RenderedLineJoined(words: seq<string>, starts: seq<nat>, lines: seq<string>, k: nat)
    requires AllClean(words) && LineStarts(|words|, starts) && k < |starts|
    requires Renders(words, |words|, starts, lines)
    ensures lines[k] == Join(words[starts[k]..LineEnd(|words|, starts, k)], " ")
  {
    CleanLineText(words, |words|, starts, k);
  }

  /** Joining lines `k` onwards with spaces gives the words from the start of
      line `k` to the end, joined with spaces. */
  lemma {:induction false} JoinLines(words: seq<string>, n: nat, starts: seq<nat>, lines: seq<string>, k: nat)
    requires n <= |words| && LineStarts(n, starts) && |lines| == |starts| && k < |starts|
    requires forall j :: 0 <= j < |starts| ==> lines[j] == Join(words[starts[j]..LineEnd(n, starts, j)], " ")
    ensures Join(lines[k..], " ") == Join(words[starts[k]..n], " ")
    decreases |starts| - k
  {
    var s := starts[k];
    var e := LineEnd(n, starts, k);
    assert lines[k] == Join(words[s..e], " ");
    if k + 1 == |starts| {
      assert lines[k..] == [lines[k]];
      assert e == n;
    } else {
      JoinLines(words, n, starts, lines, k + 1);
      assert e == starts[k + 1] < LineEnd(n, starts, k + 1) <= n;
      JoinSlices(words, s, e, n);
      JoinTail(lines, k);
    }
  }

  /** Joining from element `k` on is element `k`, a space, and the join of
      the rest. */
  lemma JoinTail(lines: seq<string>, k: nat)
    requires k + 1 < |lines|
    ensures Join(lines[k..], " ") == lines[k] + " " + Join(lines[k + 1..], " ")
  {
    assert lines[k..][0] == lines[k];
    assert lines[k..][1..] == lines[k + 1..];
  }

  /** Joining words `s` to `n` is joining `s` to `e` and `e` to `n`, with a
      space between. */
  lemma JoinSlices(words: seq<string>, s: nat, e: nat, n: nat)
    requires s < e < n <= |words|
    ensures Join(words[s..n], " ") == Join(words[s..e], " ") + " " + Join(words[e..n], " ")
  {
    assert words[s..n] == words[s..e] + words[e..n];
    JoinAppend(words[s..e], words[e..n], " ");
  }

  /** Laying clean words out in lines loses and reorders nothing: the lines
      joined with spaces are the words joined with spaces. */
  lemma LayoutRoundTrip(words: seq<string>, starts: seq<nat>, lines: seq<string>)
    requires AllClean(words) && LineStarts(|words|, starts)
    requires Renders(words, |words|, starts, lines)
    ensures Join(lines, " ") == Join(words, " ")
  {
    forall j | 0 <= j < |starts|
      ensures lines[j] == Join(words[starts[j]..LineEnd(|words|, starts, j)], " ")
    {
      RenderedLineJoined(words, starts, lines, j);
    }
    JoinLines(words, |words|, starts, lines, 0);
    assert lines[0..] == lines;
    assert words[0..|words|] == words;
  }

  /** Words are neither lost nor reordered: for a text whose words are
      separated by single spaces and carry no surrounding whitespace, the
      lines joined with spaces give back the text. */
  lemma WrapTextRoundTrip(measure: Measure, text: string, maxWidth: real)
    requires text == "" || AllClean(Split(text))
    ensures Join(WrapText(measure, text, maxWidth), " ") == text
  {
    var words := Split(text);
    if text == "" {
      assert words == [""];
      assert WrapFrom(measure, maxWidth, words, 0, [], "") == WrapFrom(measure, maxWidth, words, 1, [], " ");
      assert WrapFrom(measure, maxWidth, words, 1, [], " ") == [Trim(" ")];
      assert LeadingWhitespace(" ") == 1;
    } else {
      var starts := WrapTextGreedy(measure, text, maxWidth);
      LayoutRoundTrip(words, starts, WrapText(measure, text, maxWidth));
      SplitJoin(text);
    }
  }

  /** In a greedy layout of clean, space-free words, a line containing a
      space holds two words or more and so measured within `maxWidth`. */
  lemma LayoutLinesFit(measure: Measure, maxWidth: real, words: seq<string>, starts: seq<nat>, lines: seq<string>)
    requires AllClean(words) && forall i :: 0 <= i < |words| ==> ' ' !in words[i]
    requires Greedy(measure, maxWidth, words, |words|, starts)
    requires Renders(words, |words|, starts, lines)
    ensures forall k :: 0 <= k < |lines| && ' ' in lines[k] ==> measure(lines[k] + " ") <= maxWidth
  {
    forall k | 0 <= k < |lines| && ' ' in lines[k]
      ensures measure(lines[k] + " ") <= maxWidth
    {
      var s := starts[k];
      var e := LineEnd(|words|, starts, k);
      CleanLineText(words, |words|, starts, k);
      assert e >= s + 2;
      assert GreedyLine(measure, maxWidth, words, |words|, s, e);
      SpacedIsJoinPlusSpace(words[s..e]);
    }
  }

  /** Only a single word can overflow: with clean words, every line holding
      two or more words (so containing a space) measures, with the trailing
      space the loop measured it with, within `maxWidth`. */
  lemma WrapTextLinesFit(measure: Measure, text: string, maxWidth: real)
    requires AllClean(Split(text))
    ensures var lines := WrapText(measure, text, maxWidth);
      forall k :: 0 <= k < |lines| && ' ' in lines[k] ==> measure(lines[k] + " ") <= maxWidth
  {
    var starts := WrapTextGreedy(measure, text, maxWidth);
    LayoutLinesFit(measure, maxWidth, Split(text), starts, WrapText(measure, text, maxWidth));
  }

  /** In a greedy layout of clean, space-free words, adding the first word
      of line `k + 1` to line `k` does not fit. */
  lemma LayoutLineIsFull(measure: Measure, maxWidth: real, words: seq<string>,
                         starts: seq<nat>, lines: seq<string>, k: nat)
    requires AllClean(words) && forall i :: 0 <= i < |words| ==> ' ' !in words[i]
    requires Greedy(measure, maxWidth, words, |words|, starts)
    requires Renders(words, |words|, starts, lines)
    requires k < |lines| - 1
    ensures measure(lines[k] + " " + Split(lines[k + 1])[0] + " ") > maxWidth
  {
    var n := |words|;
    var s := starts[k];
    var e := LineEnd(n, starts, k);
    var f := LineEnd(n, starts, k + 1);
    assert e == starts[k + 1] < f <= n;
    RenderedLineJoined(words, starts, lines, k);
    RenderedLineJoined(words, starts, lines, k + 1);
    assert GreedyLine(measure, maxWidth, words, n, s, e);
    FullLine(measure, maxWidth, words, s, e, f, lines[k], lines[k + 1]);
  }

  /** A line of words `s` up to `e` that overflows when word `e` is offered
      overflows with the first word of the line of words `e` up to `f`. */
  lemma FullLine(measure: Measure, maxWidth: real, words: seq<string>, s: nat, e: nat, f: nat,
                 line: string, next: string)
    requires s < e < f <= |words| && forall i :: 0 <= i < |words| ==> ' ' !in words[i]
    requires line == Join(words[s..e], " ") && next == Join(words[e..f], " ")
    requires measure(Spaced(words[s..e + 1])) > maxWidth
    ensures measure(line + " " + Split(next)[0] + " ") > maxWidth
  {
    FirstWordOfJoin(words, e, f);
    TrialLine(words, s, e);
  }

  /** Splitting a run of space-free words joined with spaces gives back the
      run's first word first. */
  lemma FirstWordOfJoin(words: seq<string>, e: nat, f: nat)
    requires e < f <= |words| && forall i :: 0 <= i < |words| ==> ' ' !in words[i]
    ensures Split(Join(words[e..f], " "))[0] == words[e]
  {
    var next := words[e..f];
    forall i | 0 <= i < |next| ensures ' ' !in next[i] {
      assert next[i] == words[e + i];
    }
    JoinSplit(next);
  }

  /** The trial line the loop measures when word `e` is offered to the line
      holding words `s` up to `e`. */
  lemma TrialLine(words: seq<string>, s: nat, e: nat)
    requires s < e < |words|
    ensures Spaced(words[s..e + 1]) == Join(words[s..e], " ") + " " + words[e] + " "
  {
    assert words[s..e + 1] == words[s..e] + [words[e]];
    SpacedSnoc(words[s..e], words[e]);
    SpacedIsJoinPlusSpace(words[s..e]);
  }

  /** A line ends only when it is full: with clean words, adding the first
      word of the next line (and the trailing space) to a line would exceed
      `maxWidth`. */
  lemma WrapTextBreaksOnlyWhenFull(measure: Measure, text: string, maxWidth: real)
    requires AllClean(Split(text))
    ensures var lines := WrapText(measure, text, maxWidth);
      forall k :: 0 <= k < |lines| - 1 ==>
        measure(lines[k] + " " + Split(lines[k + 1])[0] + " ") > maxWidth
  {
    var starts := WrapTextGreedy(measure, text, maxWidth);
    var lines := WrapText(measure, text, maxWidth);
    forall k | 0 <= k < |lines| - 1
      ensures measure(lines[k] + " " + Split(lines[k + 1])[0] + " ") > maxWidth
    {
      LayoutLineIsFull(measure, maxWidth, Split(text), starts, lines, k);
    }
  }

  /** In any layout, a clean first word opens the first line. */
  lemma LayoutKeepsFirstWord(words: seq<string>, starts: seq<nat>, lines: seq<string>)
    requires |words| >= 1 && Clean(words[0]) && LineStarts(|words|, starts)
    requires Renders(words, |words|, starts, lines)
    ensures words[0] <= lines[0]
  {
    var e := LineEnd(|words|, starts, 0);
    var first := words[0..e];
    assert lines[0] == Trim(Spaced(first));
    assert first[0] == words[0];
    SpacedKeepsHead(first);
  }

  /** Trimming a line of words keeps a clean first word at its front. */
  lemma SpacedKeepsHead(first: seq<string>)
    requires |first| >= 1 && Clean(first[0])
    ensures first[0] <= Trim(Spaced(first))
  {
    SpacedIsJoinPlusSpace(first);
    if |first| == 1 {
      TrimKeepsCleanHead(first[0], " ");
    } else {
      var w := first[0];
      var rest := " " + Join(first[1..], " ") + " ";
      assert Join(first, " ") == w + " " + Join(first[1..], " ");
      SpacedHead(first, w, rest);
      TrimKeepsCleanHead(w, rest);
    }
  }

  /** A line of two words or more is its first word followed by the rest.
      Only string associativity separates the requires from the ensures; it
      is a lemma of its own so that `SpacedKeepsHead` stays small enough for
      the solver. */
  lemma SpacedHead(first: seq<string>, w: string, rest: string)
    requires |first| >= 2 && w == first[0] && rest == " " + Join(first[1..], " ") + " "
    requires Spaced(first) == Join(first, " ") + " "
    requires Join(first, " ") == w + " " + Join(first[1..], " ")
    ensures Spaced(first) == w + rest
  {
  }

  /** The first word never causes a break: even when it alone is wider than
      `maxWidth`, it opens the first line, with no empty line before it. */
  lemma WrapTextKeepsFirstWord(measure: Measure, text: string, maxWidth: real)
    requires Clean(Split(text)[0])
    ensures Split(text)[0] <= WrapText(measure, text, maxWidth)[0]
  {
    var starts := WrapTextGreedy(measure, text, maxWidth);
    LayoutKeepsFirstWord(Split(text), starts, WrapText(measure, text, maxWidth));
  }

  /** Why the first-word and fit properties ask for clean words: a text
      that starts with a space has an empty first word, and when the next
      word does not fit beside it, the first line comes out empty. */
  lemma LeadingSpaceOpensEmptyLine(measure: Measure, w: string, maxWidth: real)
    requires Clean(w) && ' ' !in w
    requires measure(" " + w + " ") > maxWidth
    ensures WrapText(measure, " " + w, maxWidth) == ["", w]
  {
    SplitSpaceThenWord(w);
    EmptyThenOverflow(measure, maxWidth, ["", w]);
    TrimSpace();
    TrimDropsTrailingSpace(w);
  }

  /** An empty first word followed by a word that does not fit beside it:
      the loop emits the lone space, trimmed, and then the word. */
  lemma EmptyThenOverflow(measure: Measure, maxWidth: real, words: seq<string>)
    requires |words| == 2 && words[0] == ""
    requires measure(" " + words[1] + " ") > maxWidth
    ensures WrapFrom(measure, maxWidth, words, 0, [], "") == [Trim(" "), Trim(words[1] + " ")]
  {
    FirstStep(measure, maxWidth, words);
    assert words[0] + " " == " ";
    BreakStepAt(measure, maxWidth, words, 1, [], " ");
    assert [] + [Trim(" ")] == [Trim(" ")];
    LastStep(measure, maxWidth, words, [Trim(" ")], words[1] + " ");
  }

  /** The loop's break: a word after the first whose trial line overflows
      ends the current line and opens the next. One unfolding of `WrapFrom`,
      kept apart so that `EmptyThenOverflow` stays within the solver's budget. */
  lemma BreakStepAt(measure: Measure, maxWidth: real, words: seq<string>, n: nat,
                    lines: seq<string>, line: string)
    requires 0 < n < |words| && measure(line + words[n] + " ") > maxWidth
    ensures WrapFrom(measure, maxWidth, words, n, lines, line)
         == WrapFrom(measure, maxWidth, words, n + 1, lines + [Trim(line)], words[n] + " ")
  {
  }

  /** After the last word, the line being filled is trimmed and emitted.
      One unfolding of `WrapFrom`, kept apart for the same reason as
      `BreakStepAt`. */
  lemma LastStep(measure: Measure, maxWidth: real, words: seq<string>, lines: seq<string>, line: string)
    ensures WrapFrom(measure, maxWidth, words, |words|, lines, line) == lines + [Trim(line)]
  {
  }

  /** `(" " + w).split(' ')` for a space-free `w` is an empty word, then `w`. */
  lemma SplitSpaceThenWord(w: string)
    requires ' ' !in w
    ensures Split(" " + w) == ["", w]
  {
    var words := ["", w];
    assert Join(words, " ") == " " + w;
    JoinSplit(words);
  }

  /** A lone space trims to nothing. */
  lemma TrimSpace()
    ensures Trim(" ") == ""
  {
    assert LeadingWhitespace(" ") == 1;
  }
}
