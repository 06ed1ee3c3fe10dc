/** `_extract_list`: a line-by-line state machine that collects the items of
    a labelled section (support and resistance levels, observations, risks,
    entry and exit points). */
module ListExtract {
  import opened Text

  const Placeholder := "Not identified in chart"

  /** At most this many items are returned. */
  const MaxItems: nat := 5

  /** `lstrip('-*• ')` on a bulleted line. */
  const BulletChars: set<char> := {'-', '*', '•', ' '}

  /** `lstrip('0123456789. ')` on a numbered line. */
  const NumberChars: set<char> := {'0', '1', '2', '3', '4', '5', '6', '7', '8', '9', '.', ' '}

  /** The scanner's state: the items so far and the `in_section` flag. */
  datatype Scan = Scan(items: seq<string>, inSection: bool)

  const Start := Scan([], false)

  /** A line that opens, or re-opens, the section: it mentions the keyword
      in any case and holds a colon. */
  predicate IsHeading(line: string, keyword: string) {
    Contains(Lower(line), Lower(keyword)) && ':' in line
  }

  /** A stripped line that starts with a bullet marker. */
  predicate IsBullet(t: string) {
    StartsWith(t, '-') || StartsWith(t, '*') || StartsWith(t, '•')
  }

  /** A stripped line that starts with a digit. */
  predicate IsNumbered(t: string) {
    |t| > 0 && IsDigit(t[0])
  }

  /** A stripped line that ends the section: blank, or a `#` heading. */
  predicate ClosesSection(t: string) {
    t == "" || t[0] == '#'
  }

  /** What a heading contributes: the stripped text after its first
      colon, when that is not empty. */
  function HeadingItems(line: string): (r: seq<string>)
    ensures |r| <= 1
    ensures |r| == 1 <==> !IsBlank(AfterFirst(line, ':'))
    ensures |r| == 1 ==> r[0] == Strip(AfterFirst(line, ':'))
  {
    var after := Strip(AfterFirst(line, ':'));
    if after != "" then [after] else []
  }

  /** What one line adds to the items. A heading, in or out of the
      section, adds the text after its colon if any; inside the section a
      bullet line adds itself without its bullet marks and a numbered line
      itself without its number; every other line adds nothing. */
  function LineItems(line: string, keyword: string, inSection: bool): (r: seq<string>)
    ensures |r| <= 1
    ensures IsHeading(line, keyword) ==> r == HeadingItems(line)
    ensures !IsHeading(line, keyword) && !inSection ==> r == []
    ensures var t := Strip(line);
      !IsHeading(line, keyword) && inSection ==>
        && (IsBullet(t) ==> r == [LStripChars(t, BulletChars)])
        && (IsNumbered(t) ==> r == [LStripChars(t, NumberChars)])
        && (!IsBullet(t) && !IsNumbered(t) ==> r == [])
  {
    if IsHeading(line, keyword) then HeadingItems(line)
    else if !inSection then []
    else
      var t := Strip(line);
      if IsBullet(t) then [LStripChars(t, BulletChars)]
      else if IsNumbered(t) then [LStripChars(t, NumberChars)]
      else []
  }

  /** Whether the section is open after the line: a heading opens it;
      inside it, only a blank or `#` line closes it, so a line that is
      neither a bullet nor numbered leaves it open. */
  function StaysOpen(line: string, keyword: string, inSection: bool): (b: bool)
    ensures IsHeading(line, keyword) ==> b
    ensures !IsHeading(line, keyword) && !inSection ==> !b
    ensures !IsHeading(line, keyword) && inSection ==> (b <==> !ClosesSection(Strip(line)))
  {
    if IsHeading(line, keyword) then true
    else if !inSection then false
    else
      var t := Strip(line);
      if IsBullet(t) || IsNumbered(t) then true
      else !ClosesSection(t)
  }

  /** One turn of the loop body. */
  function ScanLine(st: Scan, line: string, keyword: string): Scan {
    Scan(st.items + LineItems(line, keyword, st.inSection), StaysOpen(line, keyword, st.inSection))
  }

  /** The whole loop, over the lines in order. */
  function ScanLines(st: Scan, lines: seq<string>, keyword: string): (r: Scan)
    ensures st.items <= r.items
    ensures |r.items| <= |st.items| + |lines|
    decreases |lines|
  {
    if |lines| == 0 then st
    else ScanLines(ScanLine(st, lines[0], keyword), lines[1..], keyword)
  }

  /** `items[:5] if items else ["Not identified in chart"]`: the first five
      items collected, or the placeholder when none is. */
  function ExtractList(text: string, keyword: string): (r: seq<string>)
    ensures 1 <= |r| <= MaxItems
    ensures var items := ScanLines(Start, Split(text, '\n'), keyword).items;
      && (|items| > 0 ==> r == items[..Min(MaxItems, |items|)])
      && (|items| == 0 ==> r == [Placeholder])
  {
    var items := ScanLines(Start, Split(text, '\n'), keyword).items;
    if |items| > 0 then Take(items, MaxItems) else [Placeholder]
  }

  /** The loop is a fold: scanning `a + b` is scanning `a`, then `b` from
      where `a` left off. */
  lemma {:induction false} ScanLinesConcat(st: Scan, a: seq<string>, b: seq<string>, keyword: string)
    ensures ScanLines(st, a + b, keyword) == ScanLines(ScanLines(st, a, keyword), b, keyword)
    decreases |a|
  {
    if |a| == 0 {
      assert a + b == b;
    } else {
      assert (a + b)[0] == a[0];
      assert (a + b)[1..] == a[1..] + b;
      ScanLinesConcat(ScanLine(st, a[0], keyword), a[1..], b, keyword);
    }
  }

  /** The items already collected never influence what is collected next:
      a scan appends to them what a scan from no items would collect. */
  lemma {:induction false} ScanLinesAppends(items: seq<string>, inSection: bool, lines: seq<string>, keyword: string)
    ensures var blank := ScanLines(Scan([], inSection), lines, keyword);
      ScanLines(Scan(items, inSection), lines, keyword) == Scan(items + blank.items, blank.inSection)
    decreases |lines|
  {
    if |lines| == 0 {
      assert items + [] == items;
    } else {
      var added := LineItems(lines[0], keyword, inSection);
      var open := StaysOpen(lines[0], keyword, inSection);
      assert ScanLines(Scan(items, inSection), lines, keyword) == ScanLines(Scan(items + added, open), lines[1..], keyword);
      assert [] + added == added;
      assert ScanLines(Scan([], inSection), lines, keyword) == ScanLines(Scan(added, open), lines[1..], keyword);
      ScanLinesAppends(items + added, open, lines[1..], keyword);
      ScanLinesAppends(added, open, lines[1..], keyword);
      var rest := ScanLines(Scan([], open), lines[1..], keyword).items;
      AppendAssoc(items, added, rest);
    }
  }

  /** Dropping the first of five lines leaves the next two and the last
      two. */
  lemma DropFirstOfFive<T>(a: T, b: T, c: T, d: T, e: T)
    ensures [a, b, c, d, e][1..] == [b, c] + [d, e]
  {
  }

  /** Concatenation of item lists is associative. */
  lemma AppendAssoc<T>(a: seq<T>, b: seq<T>, c: seq<T>)
    ensures a + b + c == a + (b + c)
  {
  }

  /** One line appends to the items what it would append to no items. */
  lemma LineAppends(items: seq<string>, inSection: bool, line: string, keyword: string)
    ensures var blank := ScanLine(Scan([], inSection), line, keyword);
      ScanLine(Scan(items, inSection), line, keyword) == Scan(items + blank.items, blank.inSection)
  {
    assert [] + LineItems(line, keyword, inSection) == LineItems(line, keyword, inSection);
  }

  /** Outside the section, lines without a heading change nothing. */
  lemma {:induction false} NoHeadingKeepsState(st: Scan, lines: seq<string>, keyword: string)
    requires !st.inSection
    requires forall i :: 0 <= i < |lines| ==> !IsHeading(lines[i], keyword)
    ensures ScanLines(st, lines, keyword) == st
    decreases |lines|
  {
    if |lines| > 0 {
      NoHeadingKeepsState(ScanLine(st, lines[0], keyword), lines[1..], keyword);
    }
  }

  /** A text with no heading line yields exactly the placeholder. */
  lemma NoHeadingGivesPlaceholder(text: string, keyword: string)
    requires forall i :: 0 <= i < |Split(text, '\n')| ==> !IsHeading(Split(text, '\n')[i], keyword)
    ensures ExtractList(text, keyword) == [Placeholder]
  {
    NoHeadingKeepsState(Start, Split(text, '\n'), keyword);
  }

  /** A keyword the text never mentions, in any case, gives the
      placeholder: no line can be its heading. */
  lemma AbsentKeywordGivesPlaceholder(text: string, keyword: string)
    requires !Contains(Lower(text), Lower(keyword))
    ensures ExtractList(text, keyword) == [Placeholder]
  {
    var lines := Split(text, '\n');
    forall i | 0 <= i < |lines| ensures !IsHeading(lines[i], keyword) {
      if Contains(Lower(lines[i]), Lower(keyword)) {
        PieceMentionLowered(text, '\n', i, Lower(keyword));
      }
    }
    NoHeadingGivesPlaceholder(text, keyword);
  }

  /** Items are collected only once a heading has been seen: everything
      before the first heading line is ignored. */
  lemma {:induction false} ItemsNeedHeading(st: Scan, lines: seq<string>, keyword: string)
    requires !st.inSection
    requires |ScanLines(st, lines, keyword).items| > |st.items|
    ensures exists i :: 0 <= i < |lines| && IsHeading(lines[i], keyword)
  {
    if forall i :: 0 <= i < |lines| ==> !IsHeading(lines[i], keyword) {
      NoHeadingKeepsState(st, lines, keyword);
    }
  }

  /** A bullet line as `BulletItem` reads it: "- ", then an item that
      starts with no bullet mark and ends with no whitespace. */
  predicate PlainBullet(line: string) {
    && |line| > 2 && line[0] == '-' && line[1] == ' ' && line[2] !in BulletChars
    && !IsSpace(line[|line| - 1]) && ':' !in line
  }

  /** A heading with nothing after its colon, two plain bullets, and a
      line that is no heading. */
  predicate SectionShape(h: string, b1: string, b2: string, other: string, keyword: string) {
    IsHeading(h, keyword) && HeadingItems(h) == [] && PlainBullet(b1) && PlainBullet(b2) &&
    !IsHeading(other, keyword)
  }

  /** A text whose lines are a heading with nothing after its colon, two
      bullets, a blank line that closes the section, and a line that is no
      heading: the two bullets' items, in order. */
  lemma BlankClosedSection(text: string, h: string, b1: string, b2: string, other: string, keyword: string)
    requires Split(text, '\n') == [h, b1, b2, "", other]
    requires SectionShape(h, b1, b2, other, keyword)
    ensures ExtractList(text, keyword) == [b1[2..], b2[2..]]
  {
    SectionLines(h, b1, b2, other, keyword);
    ExtractOfLines(text, [h, b1, b2, "", other], keyword);
  }

  /** `ExtractList` depends on the text only through its lines. */
  lemma ExtractOfLines(text: string, lines: seq<string>, keyword: string)
    requires Split(text, '\n') == lines
    ensures var items := ScanLines(Start, lines, keyword).items;
      |items| > 0 ==> ExtractList(text, keyword) == items[..Min(MaxItems, |items|)]
  {
  }

  /** The scan over those five lines ends outside the section with the
      two bullets' items. */
  lemma SectionLines(h: string, b1: string, b2: string, other: string, keyword: string)
    requires SectionShape(h, b1, b2, other, keyword)
    ensures ScanLines(Start, [h, b1, b2, "", other], keyword) == Scan([b1[2..], b2[2..]], false)
  {
    var lines := [h, b1, b2, "", other];
    var tail := ["", other];
    EmptyHeadingOpens(h, keyword);
    ScanStep(Start, lines, keyword, Scan([], true));
    DropFirstOfFive(h, b1, b2, "", other);
    TwoBullets(b1, b2, tail, keyword);
    ClosedTail([b1[2..], b2[2..]], other, keyword);
  }

  /** A heading with nothing after its colon opens the section and adds
      no item. */
  lemma EmptyHeadingOpens(h: string, keyword: string)
    requires IsHeading(h, keyword) && HeadingItems(h) == []
    ensures ScanLine(Start, h, keyword) == Scan([], true)
  {
  }

  /** Two bullets at the start of an open section add their two items. */
  lemma TwoBullets(b1: string, b2: string, rest: seq<string>, keyword: string)
    requires PlainBullet(b1) && PlainBullet(b2)
    ensures ScanLines(Scan([], true), [b1, b2] + rest, keyword) ==
      ScanLines(Scan([b1[2..], b2[2..]], true), rest, keyword)
  {
    var lines := [b1, b2] + rest;
    var s1 := Scan([b1[2..]], true);
    var s2 := Scan([b1[2..], b2[2..]], true);
    BulletItem(b1, [], keyword);
    BulletItem(b2, s1.items, keyword);
    assert s1.items + [b2[2..]] == s2.items;
    assert lines[1..][0] == b2 && lines[1..][1..] == rest;
    ScanStep(s1, lines[1..], keyword, s2);
    ScanStep(Scan([], true), lines, keyword, s1);
  }

  /** A blank line closes the section; a later line that is no heading
      leaves it closed. */
  lemma ClosedTail(items: seq<string>, other: string, keyword: string)
    requires !IsHeading(other, keyword)
    ensures ScanLines(Scan(items, true), ["", other], keyword) == Scan(items, false)
  {
    var closed := Scan(items, false);
    BlankCloses(items, keyword);
    NotHeadingOutside(other, items, keyword);
    ScanStep(closed, [other], keyword, closed);
    ScanStep(Scan(items, true), ["", other], keyword, closed);
  }

  /** One step of the loop. */
  lemma ScanStep(st: Scan, lines: seq<string>, keyword: string, next: Scan)
    requires |lines| > 0 && ScanLine(st, lines[0], keyword) == next
    ensures ScanLines(st, lines, keyword) == ScanLines(next, lines[1..], keyword)
  {
  }

  /** The lines of a labelled section closed by a blank line. */
  const SupportSection: seq<string> := ["Support Levels: ", "- 100", "- 95", "", "Resistance:..."]

  /** The text `"Support Levels: \n- 100\n- 95\n\nResistance:..."` gives the
      two prices: the heading contributes nothing (only a space follows its
      colon), each bullet contributes its price, the blank line closes the
      section, and the later "Resistance:" heading belongs to another
      keyword. */
  lemma SupportSectionExample()
    ensures ExtractList(Join("\n", SupportSection), "support") == ["100", "95"]
  {
    ExampleLines();
    EmptyHeading("Support Levels: ");
    OtherHeading("Resistance:...");
    ExampleBullets();
    BlankClosedSection(Join("\n", SupportSection), "Support Levels: ", "- 100", "- 95", "Resistance:...", "support");
  }

  /** The two bullet lines of the example and the prices they carry. */
  lemma ExampleBullets()
    ensures PlainBullet("- 100") && "- 100"[2..] == "100"
    ensures PlainBullet("- 95") && "- 95"[2..] == "95"
  {
  }

  lemma ExampleLines()
    ensures Split(Join("\n", SupportSection), '\n') == SupportSection
  {
    var lines := SupportSection;
    assert '\n' !in lines[0] && '\n' !in lines[1] && '\n' !in lines[2];
    assert '\n' !in lines[3] && '\n' !in lines[4];
    SplitOfJoin(lines, '\n');
  }

  /** "Support Levels: " opens the support section and adds no item. */
  lemma EmptyHeading(line: string)
    requires line == "Support Levels: "
    ensures IsHeading(line, "support") && HeadingItems(line) == []
  {
    assert Lower(line)[..7] == "support";
    assert OccursAt(Lower(line), "support", 0);
    assert line == "Support Levels" + [':'] + " ";
    AfterFirstOf("Support Levels", ':', " ");
  }

  /** Inside the section, a line of "- " and a visible item adds the
      item. */
  lemma BulletItem(line: string, items: seq<string>, keyword: string)
    requires PlainBullet(line)
    ensures ScanLine(Scan(items, true), line, keyword) == Scan(items + [line[2..]], true)
  {
    StripVisible(line);
    LStripUpTo(line, BulletChars, 2);
  }

  /** A blank line closes the section and adds nothing. */
  lemma BlankCloses(items: seq<string>, keyword: string)
    ensures ScanLine(Scan(items, true), "", keyword) == Scan(items, false)
  {
    assert Strip("") == "";
    assert items + [] == items;
  }

  /** "Resistance:..." is no heading for "support". */
  lemma OtherHeading(line: string)
    requires line == "Resistance:..."
    ensures !IsHeading(line, "support")
  {
    LowerMissing(line, 'p');
    MissingCharRulesOut(Lower(line), "support", 2);
  }

  /** Outside the section, a line that is no heading changes nothing. */
  lemma NotHeadingOutside(line: string, items: seq<string>, keyword: string)
    requires !IsHeading(line, keyword)
    ensures ScanLine(Scan(items, false), line, keyword) == Scan(items, false)
  {
    assert items + [] == items;
  }
}
