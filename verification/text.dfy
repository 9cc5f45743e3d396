/** The JavaScript string primitives the component relies on, over `seq<char>`:
    `String.prototype.trim`, `String.prototype.split(' ')` and
    `Array.prototype.join`, plus the "word followed by one space" accumulation
    that `wrapText` builds its lines with. */
module Text {

  /** The code points ECMAScript's `trim` removes: the WhiteSpace class (TAB,
      VT, FF, SPACE, NO-BREAK SPACE, ZERO WIDTH NO-BREAK SPACE and every space
      separator of category Zs) and the LineTerminator class (LF, CR, LINE
      SEPARATOR, PARAGRAPH SEPARATOR). */
  predicate IsWhitespace(c: char) {
    || c == '\t' || c == '\n' || c == '\U{B}' || c == '\U{C}' || c == '\r'
    || c == ' ' || c == '\U{A0}' || c == '\U{1680}'
    || ('\U{2000}' <= c <= '\U{200A}')
    || c == '\U{2028}' || c == '\U{2029}' || c == '\U{202F}' || c == '\U{205F}'
    || c == '\U{3000}' || c == '\U{FEFF}'
  }

  /** Number of whitespace characters at the front of `s`. */
  function LeadingWhitespace(s: string): (k: nat)
    ensures k <= |s|
    ensures forall i :: 0 <= i < k ==> IsWhitespace(s[i])
    ensures k == |s| || !IsWhitespace(s[k])
  {
    if |s| == 0 || !IsWhitespace(s[0]) then 0 else 1 + LeadingWhitespace(s[1..])
  }

  /** Number of whitespace characters at the back of `s`. */
  function TrailingWhitespace(s: string): (k: nat)
    ensures k <= |s|
    ensures forall i :: |s| - k <= i < |s| ==> IsWhitespace(s[i])
    ensures k == |s| || !IsWhitespace(s[|s| - 1 - k])
  {
    if |s| == 0 || !IsWhitespace(s[|s| - 1]) then 0
    else 1 + TrailingWhitespace(s[..|s| - 1])
  }

  /** `s.trim()`: `s` without its leading and trailing whitespace. The
      result is the slice of `s` that starts after the leading whitespace,
      everything after it is whitespace, and its own ends are not. */
  function Trim(s: string): (r: string)
    ensures LeadingWhitespace(s) + |r| <= |s|
    ensures r == s[LeadingWhitespace(s)..LeadingWhitespace(s) + |r|]
    ensures forall j :: LeadingWhitespace(s) + |r| <= j < |s| ==> IsWhitespace(s[j])
    ensures |r| == 0 || (!IsWhitespace(r[0]) && !IsWhitespace(r[|r| - 1]))
  {
    var i := LeadingWhitespace(s);
    var t := s[i..];
    var k := TrailingWhitespace(t);
    var r := t[..|t| - k];
    assert forall j :: i + |r| <= j < |s| ==> s[j] == t[j - i];
    r
  }

  /** A word `trim` leaves alone and that is not empty. */
  predicate Clean(w: string) {
    |w| > 0 && !IsWhitespace(w[0]) && !IsWhitespace(w[|w| - 1])
  }

  predicate AllClean(ws: seq<string>) {
    forall i :: 0 <= i < |ws| ==> Clean(ws[i])
  }

  /** `parts.join(sep)` for an array of strings: empty for no parts,
      otherwise it starts with the first part and ends with the last, with
      a separator between them when there are two or more. */
  function Join(parts: seq<string>, sep: string): string
  {
    if |parts| == 0 then ""
    else if |parts| == 1 then parts[0]
    else parts[0] + sep + Join(parts[1..], sep)
  }

  /** `s.split(' ')`: the pieces between consecutive single spaces. */
  function Split(s: string): (ws: seq<string>)
    ensures |ws| >= 1
    ensures forall i :: 0 <= i < |ws| ==> ' ' !in ws[i]
  {
    if |s| == 0 then [""]
    else
      var rest := Split(s[1..]);
      if s[0] == ' ' then [""] + rest
      else [[s[0]] + rest[0]] + rest[1..]
  }

  /** Every word of `ws` followed by one space: the value `wrapText` keeps in
      its `line` variable. */
  function Spaced(ws: seq<string>): string
  {
    if |ws| == 0 then "" else Spaced(ws[..|ws| - 1]) + ws[|ws| - 1] + " "
  }

  // ---------------------------------------------------------------------
  // Join: agreement with left-to-right accumulation, and concatenation
  // ---------------------------------------------------------------------

  /** Joining appends each further part after the separator, so the parts
      appear in their input order: `join` agrees with the left-to-right
      accumulation that starts from the first part. */
  lemma {:induction false} JoinSnoc(parts: seq<string>, last: string, sep: string)
    requires |parts| >= 1
    ensures Join(parts + [last], sep) == Join(parts, sep) + sep + last
    decreases |parts|
  {
    if |parts| == 1 {
      assert (parts + [last])[1..] == [last];
    } else {
      assert (parts + [last])[1..] == parts[1..] + [last];
      JoinSnoc(parts[1..], last, sep);
    }
  }

  /** A join starts with the first part and ends with the last, and with
      two parts or more a separator lies between them. */
  lemma {:induction false} JoinEnds(parts: seq<string>, sep: string)
    requires |parts| >= 1
    ensures parts[0] <= Join(parts, sep)
    ensures var r := Join(parts, sep); var last := parts[|parts| - 1];
      |last| <= |r| && r[|r| - |last|..] == last
    ensures |parts| >= 2 ==> |Join(parts, sep)| >= |parts[0]| + |sep| + |parts[|parts| - 1]|
    ensures |parts| >= 2 ==> Join(parts, sep)[|parts[0]|..|parts[0]| + |sep|] == sep
    decreases |parts|
  {
    if |parts| >= 2 {
      assert Join(parts, sep) == parts[0] + sep + Join(parts[1..], sep);
      var init := parts[..|parts| - 1];
      var last := parts[|parts| - 1];
      JoinSnoc(init, last, sep);
      assert init + [last] == parts;
      JoinEnds(init, sep);
      assert init[0] == parts[0];
    }
  }

  /** Joining two non-empty runs of parts is joining each run and putting one
      separator between them. */
  lemma {:induction false} JoinAppend(xs: seq<string>, ys: seq<string>, sep: string)
    requires |xs| >= 1 && |ys| >= 1
    ensures Join(xs + ys, sep) == Join(xs, sep) + sep + Join(ys, sep)
    decreases |xs|
  {
    if |xs| == 1 {
      assert (xs + ys)[1..] == ys;
    } else {
      assert (xs + ys)[1..] == xs[1..] + ys;
      JoinAppend(xs[1..], ys, sep);
    }
  }

  // ---------------------------------------------------------------------
  // Split and Join with ' ' are inverse to each other
  // ---------------------------------------------------------------------

  /** Splitting at spaces and joining with a space gives back the input:
      no character is lost, added or moved. */
  lemma {:induction false} SplitJoin(s: string)
    ensures Join(Split(s), " ") == s
    decreases |s|
  {
    if |s| > 0 {
      var rest := Split(s[1..]);
      SplitJoin(s[1..]);
      if s[0] == ' ' {
        assert ([""] + rest)[1..] == rest;
      } else {
        var ws := [[s[0]] + rest[0]] + rest[1..];
        if |rest| == 1 {
          assert ws == [[s[0]] + rest[0]];
        } else {
          assert ws[1..] == rest[1..];
          assert Join(rest, " ") == rest[0] + " " + Join(rest[1..], " ");
        }
      }
    }
  }

  /** Splitting at spaces recovers a non-empty list of space-free words
      joined with single spaces. */
  lemma {:induction false} JoinSplit(ws: seq<string>)
    requires |ws| >= 1
    requires forall i :: 0 <= i < |ws| ==> ' ' !in ws[i]
    ensures Split(Join(ws, " ")) == ws
    decreases |ws|, |ws[0]|
  {
    var w := ws[0];
    if |w| == 0 {
      if |ws| == 1 {
      } else {
        var s := Join(ws, " ");
        assert s == " " + Join(ws[1..], " ");
        assert s[1..] == Join(ws[1..], " ");
        JoinSplit(ws[1..]);
        assert [""] + ws[1..] == ws;
      }
    } else {
      var s := Join(ws, " ");
      var ws' := [w[1..]] + ws[1..];
      assert ' ' !in w[1..] by {
        forall c | c in w[1..] ensures c != ' ' {
          assert c in w;
        }
      }
      assert forall i :: 0 <= i < |ws'| ==> ' ' !in ws'[i] by {
        forall i | 0 <= i < |ws'| ensures ' ' !in ws'[i] {
          if i > 0 { assert ws'[i] == ws[i]; }
        }
      }
      assert ws'[1..] == ws[1..];
      if |ws| == 1 {
        assert s == w;
        assert s[1..] == Join(ws', " ");
      } else {
        assert s == w + " " + Join(ws[1..], " ");
        assert s[1..] == Join(ws', " ");
      }
      assert s[0] == w[0];
      assert w[0] != ' ' by { assert w[0] in w; }
      JoinSplit(ws');
      assert [w[0]] + w[1..] == w;
      assert [w] + ws[1..] == ws;
    }
  }

  // ---------------------------------------------------------------------
  // Spaced, Join and Trim
  // ---------------------------------------------------------------------

  /** The accumulated line is the words joined with spaces plus one trailing
      space. */
  lemma {:induction false} SpacedIsJoinPlusSpace(ws: seq<string>)
    requires |ws| >= 1
    ensures Spaced(ws) == Join(ws, " ") + " "
    decreases |ws|
  {
    if |ws| > 1 {
      var init := ws[..|ws| - 1];
      SpacedIsJoinPlusSpace(init);
      JoinSnoc(init, ws[|ws| - 1], " ");
      assert init + [ws[|ws| - 1]] == ws;
    } else {
      assert ws[..0] == [];
    }
  }

  /** Appending one word to the accumulated line. */
  lemma SpacedSnoc(ws: seq<string>, w: string)
    ensures Spaced(ws + [w]) == Spaced(ws) + w + " "
  {
    assert (ws + [w])[..|ws|] == ws;
  }

  /** Trimming a clean core followed by one space leaves the core. */
  lemma TrimDropsTrailingSpace(core: string)
    requires Clean(core)
    ensures Trim(core + " ") == core
  {
    var s := core + " ";
    var r := Trim(s);
    assert LeadingWhitespace(s) == 0 by {
      assert !IsWhitespace(s[0]);
    }
    assert !IsWhitespace(s[|core| - 1]);
    assert |r| != |s| by {
      assert s[|s| - 1] == ' ';
    }
    assert r == core;
  }

  /** The joined form of a non-empty list of clean words is clean. */
  lemma JoinClean(ws: seq<string>, sep: string)
    requires |ws| >= 1 && AllClean(ws)
    ensures Clean(Join(ws, sep))
  {
    if |ws| > 1 {
      var init := ws[..|ws| - 1];
      JoinSnoc(init, ws[|ws| - 1], sep);
      assert init + [ws[|ws| - 1]] == ws;
      var head := Join(ws, sep);
      assert head == ws[0] + sep + Join(ws[1..], sep);
      assert head[0] == ws[0][0];
      var last := ws[|ws| - 1];
      assert head == Join(init, sep) + sep + last;
      assert head[|head| - 1] == last[|last| - 1];
    }
  }

  /** A line of clean words, once trimmed, is those words joined with single
      spaces. */
  lemma TrimSpaced(ws: seq<string>)
    requires |ws| >= 1 && AllClean(ws)
    ensures Trim(Spaced(ws)) == Join(ws, " ")
  {
    SpacedIsJoinPlusSpace(ws);
    JoinClean(ws, " ");
    TrimDropsTrailingSpace(Join(ws, " "));
  }

  /** The trim of a line that starts with a clean word keeps that word at its
      front. */
  lemma TrimKeepsCleanHead(w: string, rest: string)
    requires Clean(w)
    ensures w <= Trim(w + rest)
  {
    var s := w + rest;
    assert LeadingWhitespace(s) == 0 by {
      assert !IsWhitespace(s[0]);
    }
    assert !IsWhitespace(s[|w| - 1]);
    assert Trim(s)[..|w|] == w;
  }
}
