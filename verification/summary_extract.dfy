/** `_extract_summary`: up to three lines after the first "summary", or
    else the text's first three sentences. */
module SummaryExtract {
  import opened Text

  /** The summary path returns at most this many characters. */
  const SummaryLimit: nat := 500

  /** The fallback keeps this many `.`-separated pieces. */
  const SentenceCount: nat := 3

  /** How many lines after the "summary" line are looked at: `lines[1:4]`. */
  const SummaryLineCount: nat := 3

  /** A line the summary keeps: not blank and not a `#` heading once
      stripped. */
  predicate KeepsLine(line: string) {
    var t := Strip(line);
    t != "" && t[0] != '#'
  }

  /** The stripped kept lines, in order. */
  function SummaryParts(lines: seq<string>): (r: seq<string>)
    ensures |r| <= |lines|
    decreases |lines|
  {
    if |lines| == 0 then []
    else
      var rest := SummaryParts(lines[1..]);
      if KeepsLine(lines[0]) then [Strip(lines[0])] + rest else rest
  }

  /** One line contributes its stripped form when it is kept, and nothing
      otherwise. */
  lemma SummaryPartsLine(line: string)
    ensures SummaryParts([line]) == if KeepsLine(line) then [Strip(line)] else []
  {
    assert [line][1..] == [];
  }

  /** The parts of two runs of lines are the parts of the first run
      followed by those of the second: together with `SummaryPartsLine`
      this fixes the order and the multiplicity of the parts. */
  lemma {:induction false} SummaryPartsAppend(a: seq<string>, b: seq<string>)
    ensures SummaryParts(a + b) == SummaryParts(a) + SummaryParts(b)
    decreases |a|
  {
    if |a| == 0 {
      assert a + b == b;
    } else {
      assert (a + b)[0] == a[0];
      assert (a + b)[1..] == a[1..] + b;
      SummaryPartsAppend(a[1..], b);
    }
  }

  /** Every part is a kept line stripped: not empty, and starting with
      neither whitespace nor `#`. */
  lemma {:induction false} SummaryPartsShape(lines: seq<string>, i: int)
    requires 0 <= i < |SummaryParts(lines)|
    ensures var p := SummaryParts(lines)[i];
      p != "" && p[0] != '#' && !IsSpace(p[0])
    decreases |lines|
  {
    var rest := SummaryParts(lines[1..]);
    if KeepsLine(lines[0]) {
      if i > 0 {
        SummaryPartsShape(lines[1..], i - 1);
        assert SummaryParts(lines)[i] == rest[i - 1];
      }
    } else {
      SummaryPartsShape(lines[1..], i);
    }
  }

  /** `line` is kept, and `p` is what it contributes. */
  predicate KeptAs(line: string, p: string) {
    KeepsLine(line) && p == Strip(line)
  }

  /** The parts are exactly the stripped forms of the kept lines. */
  lemma {:induction false} SummaryPartsMembers(lines: seq<string>, p: string)
    ensures p in SummaryParts(lines) <==> exists i :: 0 <= i < |lines| && KeptAs(lines[i], p)
    decreases |lines|
  {
    if |lines| > 0 {
      var tail := lines[1..];
      SummaryPartsMembers(tail, p);
      SummaryPartsFirst(lines, p);
      if i :| 0 <= i < |tail| && KeptAs(tail[i], p) {
        assert KeptAs(lines[i + 1], p);
      }
      if i :| 0 < i < |lines| && KeptAs(lines[i], p) {
        assert KeptAs(tail[i - 1], p);
      }
    }
  }

  /** A text's parts are its first line's, if it is kept, then the rest's. */
  lemma SummaryPartsFirst(lines: seq<string>, p: string)
    requires |lines| > 0
    ensures p in SummaryParts(lines) <==> (KeepsLine(lines[0]) && p == Strip(lines[0])) || p in SummaryParts(lines[1..])
  {
  }

  /** Nothing is kept exactly when every line is blank or a heading. */
  lemma {:induction false} SummaryPartsEmpty(lines: seq<string>)
    ensures SummaryParts(lines) == [] <==> forall i :: 0 <= i < |lines| ==> !KeepsLine(lines[i])
    decreases |lines|
  {
    if |lines| > 0 {
      SummaryPartsEmpty(lines[1..]);
      assert forall i :: 1 <= i < |lines| ==> lines[i] == lines[1..][i - 1];
    }
  }

  /** The candidate lines: the second to fourth lines of the text from the
      first "summary" (any case) on; the line holding "summary" itself is
      skipped. */
  function SummaryCandidates(text: string): (r: seq<string>)
    requires Contains(Lower(text), "summary")
    ensures |r| <= SummaryLineCount
  {
    var idx := FirstIndex(Lower(text), "summary");
    Slice(Split(text[idx..], '\n'), 1, 1 + SummaryLineCount)
  }

  /** `t` is `head`, a newline, the lines `c` rejoined with newlines, and
      a rest that is empty or starts a new line; the rest is empty unless
      `c` holds `n` lines. */
  ghost predicate LinesAfterHead(t: string, head: string, c: seq<string>, n: nat) {
    exists rest ::
      && t == head + "\n" + Join("\n", c) + rest
      && (rest == "" || rest[0] == '\n')
      && (|c| < n ==> rest == "")
  }

  /** Where the candidates sit in the text: from the first "summary" on,
      the text is the line holding it and then the candidates, as
      `LinesAfterHead` lays out; with no candidate, that line is the
      last. */
  lemma SummaryCandidatesLayout(text: string)
    requires Contains(Lower(text), "summary")
    ensures var t := text[FirstIndex(Lower(text), "summary")..];
      var head := Split(t, '\n')[0];
      var c := SummaryCandidates(text);
      && '\n' !in head && head <= t
      && (forall i :: 0 <= i < |c| ==> '\n' !in c[i])
      && (|c| == 0 ==> t == head)
      && (|c| > 0 ==> LinesAfterHead(t, head, c, SummaryLineCount))
  {
    var t := text[FirstIndex(Lower(text), "summary")..];
    NextLines(t, SummaryLineCount);
  }

  /** The lines after the first line of `t`, at most `n` of them, as
      `LinesAfterHead` lays them out. */
  lemma NextLines(t: string, n: nat)
    requires n > 0
    ensures var lines := Split(t, '\n');
      var c := Slice(lines, 1, 1 + n);
      && '\n' !in lines[0] && lines[0] <= t
      && (|c| == 0 ==> t == lines[0])
      && (|c| > 0 ==> LinesAfterHead(t, lines[0], c, n))
  {
    var lines := Split(t, '\n');
    JoinOfSplit(t, '\n');
    SplitFirstPiece(t, '\n');
    if |lines| > 1 {
      JoinedLayout(lines, n);
    }
  }

  /** Joined lines are the first line and then the next `n` lines, as
      `LinesAfterHead` lays them out. */
  lemma JoinedLayout(lines: seq<string>, n: nat)
    requires |lines| > 1 && n > 0
    ensures LinesAfterHead(Join("\n", lines), lines[0], Slice(lines, 1, 1 + n), n)
  {
    var c := Slice(lines, 1, 1 + n);
    var more := lines[Min(1 + n, |lines|)..];
    TailCut(lines, n);
    JoinFirst(lines);
    LayoutTail(lines[0], c, more, n);
  }

  /** The lines after the first are the next `n` of them and the rest. */
  lemma TailCut(lines: seq<string>, n: nat)
    requires |lines| > 1
    ensures lines[1..] == Slice(lines, 1, 1 + n) + lines[Min(1 + n, |lines|)..]
  {
    assert Slice(lines, 1, 1 + n) == lines[1..Min(1 + n, |lines|)];
  }

  /** Lines joined with newlines: the first, a newline, and the rest joined. */
  lemma JoinFirst(lines: seq<string>)
    requires |lines| > 1
    ensures Join("\n", lines) == lines[0] + "\n" + Join("\n", lines[1..])
  {
  }

  /** A head, a newline and the join of `c + more` lay out `c` after the
      head. */
  lemma LayoutTail(head: string, c: seq<string>, more: seq<string>, n: nat)
    requires |c| > 0 && (|c| < n ==> more == [])
    ensures LinesAfterHead(head + "\n" + Join("\n", c + more), head, c, n)
  {
    var t := head + "\n" + Join("\n", c + more);
    if |more| == 0 {
      assert c + more == c;
      assert t == head + "\n" + Join("\n", c) + "";
    } else {
      JoinAppend("\n", c, more);
      var rest := "\n" + Join("\n", more);
      assert t == head + "\n" + Join("\n", c) + rest;
    }
  }

  /** The fallback: newlines become spaces, the text is cut at `.`, and the
      first three pieces are joined with ". " and closed with a `.`. The
      result is one line ending in `.` and holding at most three dots.
      (Python's `if sentences` guard always holds, since a split has at
      least one piece, so "Analysis complete." is never produced.) */
  function FirstSentences(text: string): (r: string)
    ensures |r| > 0 && r[|r| - 1] == '.'
    ensures '\n' !in r
    ensures multiset(r)['.'] <= SentenceCount
  {
    var kept := Take(Split(ReplaceChar(text, '\n', ' '), '.'), SentenceCount);
    FallbackPieces(text, kept);
    FallbackShape(kept);
    Join(". ", kept) + "."
  }

  /** Up to three pieces without newlines or dots, joined with ". ", hold
      no newline and at most two dots. */
  lemma FallbackShape(kept: seq<string>)
    requires 1 <= |kept| <= SentenceCount
    requires forall i :: 0 <= i < |kept| ==> '\n' !in kept[i] && '.' !in kept[i]
    ensures '\n' !in Join(". ", kept)
    ensures multiset(Join(". ", kept))['.'] <= SentenceCount - 1
  {
    var sep := ". ";
    assert multiset(sep)['.'] == 1 && multiset(sep)['\n'] == 0;
    JoinCount(sep, kept, '\n');
    JoinCount(sep, kept, '.');
    MulStep(|kept| - 1, 0);
    MulStep(|kept| - 1, 1);
  }

  /** Each piece with a space put in front. */
  function Spaced(xs: seq<string>): (r: seq<string>)
    ensures |r| == |xs|
    ensures forall i :: 0 <= i < |xs| ==> r[i] == " " + xs[i]
  {
    seq(|xs|, i requires 0 <= i < |xs| => " " + xs[i])
  }

  /** Joining with ". " is joining with "." pieces that each start with a
      space, except for the very first. */
  lemma {:induction false} JoinDotSpace(xs: seq<string>)
    requires |xs| >= 1
    ensures Join(".", Spaced(xs)) == " " + Join(". ", xs)
    decreases |xs|
  {
    var sp := Spaced(xs);
    if |xs| > 1 {
      var rest := Join(". ", xs[1..]);
      assert sp[1..] == Spaced(xs[1..]);
      JoinDotSpace(xs[1..]);
      assert Join(".", sp) == (" " + xs[0]) + "." + (" " + rest);
      assert (" " + xs[0]) + "." + (" " + rest) == " " + (xs[0] + ". " + rest);
    } else {
      assert sp == [" " + xs[0]];
    }
  }

  /** The fallback, read back: the result is its sentences and a final
      `.`; cut at its dots, it gives the first (up to three) pieces of the
      flattened text, every one after the first with the space that ". "
      puts before it. */
  lemma FirstSentencesPieces(text: string)
    ensures var kept := Take(Split(ReplaceChar(text, '\n', ' '), '.'), SentenceCount);
      var r := FirstSentences(text);
      && |kept| >= 1
      && r == r[..|r| - 1] + "."
      && Split(r[..|r| - 1], '.') == [kept[0]] + Spaced(kept[1..])
  {
    var kept := Take(Split(ReplaceChar(text, '\n', ' '), '.'), SentenceCount);
    FallbackPieces(text, kept);
    DotJoinPieces(kept);
    var r := FirstSentences(text);
    assert r[..|r| - 1] == Join(". ", kept);
  }

  /** Dot-free pieces joined with ". " split back at the dots into the
      pieces, every one after the first led by a space. */
  lemma DotJoinPieces(kept: seq<string>)
    requires |kept| >= 1
    requires forall i :: 0 <= i < |kept| ==> '.' !in kept[i]
    ensures Split(Join(". ", kept), '.') == [kept[0]] + Spaced(kept[1..])
  {
    var pieces := [kept[0]] + Spaced(kept[1..]);
    SpacedDotFree(kept);
    JoinSpacedPieces(kept);
    SplitOfJoin(pieces, '.');
  }

  lemma SpacedDotFree(kept: seq<string>)
    requires |kept| >= 1
    requires forall i :: 0 <= i < |kept| ==> '.' !in kept[i]
    ensures var pieces := [kept[0]] + Spaced(kept[1..]);
      forall i :: 0 <= i < |pieces| ==> '.' !in pieces[i]
  {
    var pieces := [kept[0]] + Spaced(kept[1..]);
    forall i | 0 < i < |pieces| ensures '.' !in pieces[i] {
      assert pieces[i] == " " + kept[i];
    }
  }

  /** The separator ". " is a dot and then a space. */
  lemma DotSpace()
    ensures "." + " " == ". "
  {
  }

  /** Moves the brackets of a four-part concatenation. */
  lemma Regroup(a: string, b: string, c: string, d: string)
    ensures a + b + (c + d) == a + (b + c) + d
  {
  }

  lemma JoinSpacedPieces(kept: seq<string>)
    requires |kept| >= 1
    ensures Join(".", [kept[0]] + Spaced(kept[1..])) == Join(". ", kept)
  {
    var pieces := [kept[0]] + Spaced(kept[1..]);
    if |kept| > 1 {
      var rest := Join(". ", kept[1..]);
      JoinDotSpace(kept[1..]);
      assert pieces[1..] == Spaced(kept[1..]);
      assert Join(".", pieces) == kept[0] + "." + (" " + rest);
      Regroup(kept[0], ".", " ", rest);
      DotSpace();
    } else {
      assert pieces == [kept[0]];
    }
  }

  /** The pieces kept hold neither a newline nor a dot. */
  lemma FallbackPieces(text: string, kept: seq<string>)
    requires kept == Take(Split(ReplaceChar(text, '\n', ' '), '.'), SentenceCount)
    ensures 1 <= |kept| <= SentenceCount
    ensures forall i :: 0 <= i < |kept| ==> '\n' !in kept[i] && '.' !in kept[i]
  {
    var flat := ReplaceChar(text, '\n', ' ');
    assert '\n' !in flat;
    forall i | 0 <= i < |kept| ensures '\n' !in kept[i] && '.' !in kept[i] {
      SplitPieceWithin(flat, '.', i);
    }
  }

  /** Every piece of a split consists of characters of the text. */
  lemma {:induction false} SplitPieceWithin(s: string, sep: char, i: int)
    requires 0 <= i < |Split(s, sep)|
    ensures forall c :: c in Split(s, sep)[i] ==> c in s
    decreases |s|
  {
    if |s| > 0 {
      var rest := Split(s[1..], sep);
      if s[0] == sep {
        if i > 0 {
          SplitPieceWithin(s[1..], sep, i - 1);
        }
      } else if i == 0 {
        SplitPieceWithin(s[1..], sep, 0);
      } else {
        SplitPieceWithin(s[1..], sep, i);
      }
    }
  }

  /** The summary: the kept candidate lines joined by spaces and cut to
      their first 500 characters when any is kept, else the first
      sentences. On the
      summary path the result starts with the first kept line and with a
      visible character that is not `#`. */
  function ExtractSummary(text: string): (r: string)
    ensures |r| > 0
    ensures Contains(Lower(text), "summary") && SummaryParts(SummaryCandidates(text)) != [] ==>
      var parts := SummaryParts(SummaryCandidates(text));
      var first := parts[0];
      && r <= Join(" ", parts) && |r| == Min(SummaryLimit, |Join(" ", parts)|)
      && |r| <= SummaryLimit
      && !IsSpace(r[0]) && r[0] != '#'
      && Take(first, SummaryLimit) <= r
    ensures !(Contains(Lower(text), "summary") && SummaryParts(SummaryCandidates(text)) != []) ==>
      r == FirstSentences(text)
  {
    if Contains(Lower(text), "summary") && SummaryParts(SummaryCandidates(text)) != [] then
      var parts := SummaryParts(SummaryCandidates(text));
      SummaryPartsShape(SummaryCandidates(text), 0);
      JoinedSummary(parts);
      Take(Join(" ", parts), SummaryLimit)
    else FirstSentences(text)
  }

  /** The cut join starts like its first part. */
  lemma JoinedSummary(parts: seq<string>)
    requires |parts| > 0 && parts[0] != "" && parts[0][0] != '#' && !IsSpace(parts[0][0])
    ensures var r := Take(Join(" ", parts), SummaryLimit);
      && 0 < |r| <= SummaryLimit
      && !IsSpace(r[0]) && r[0] != '#'
      && Take(parts[0], SummaryLimit) <= r
  {
    JoinStartsWithFirst(" ", parts);
    var j := Join(" ", parts);
    assert j[0] == parts[0][0];
  }

  /** When "summary" appears only on the text's last line, there are no
      lines after it to take, so the fallback is used even if that line
      carries the summary itself (as in "Summary: buy the dip"). */
  lemma SummaryOnLastLine(text: string)
    requires Contains(Lower(text), "summary")
    requires '\n' !in text[FirstIndex(Lower(text), "summary")..]
    ensures ExtractSummary(text) == FirstSentences(text)
  {
    SplitWithoutSep(text[FirstIndex(Lower(text), "summary")..], '\n');
  }

  /** A text with no dot and no "summary" comes back whole, newlines turned
      into spaces, with one dot added. */
  lemma NoDotFallback(text: string)
    requires !Contains(Lower(text), "summary") && '.' !in text
    ensures ExtractSummary(text) == ReplaceChar(text, '\n', ' ') + "."
  {
    var flat := ReplaceChar(text, '\n', ' ');
    assert '.' !in flat by {
      forall i | 0 <= i < |flat| ensures flat[i] != '.' {
        assert text[i] in text;
      }
    }
    SplitWithoutSep(flat, '.');
  }
}
