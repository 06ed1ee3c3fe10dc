/** `_extract_fibonacci`: one record per standard retracement label that
    occurs in the raw text, in the fixed label order. */
module FibonacciExtract {
  import opened Text

  datatype FibLevel = FibLevel(level: string, price: string, significance: string)

  /** The labels tried, in this order. */
  const StandardLevels: seq<string> := ["0%", "23.6%", "38.2%", "50%", "61.8%", "78.6%", "100%"]

  /** Width of the window opened at a label's first occurrence. */
  const FibWindow: nat := 150

  /** No price is ever parsed. */
  const SeeChart := "See chart"

  /** The single record returned when no label occurs. */
  const NotVisible := FibLevel("N/A", "N/A", "Fibonacci levels not visible on chart")

  /** What a label's window says about it: support wins over resistance,
      both tested case-insensitively. */
  function Significance(window: string): (r: string)
    ensures r in {"Acting as support", "Acting as resistance", "Key level"}
    ensures var lo := Lower(window);
      && (r == "Acting as support" <==> Mentions(lo, "support"))
      && (r == "Acting as resistance" <==> !Mentions(lo, "support") && Mentions(lo, "resistance"))
  {
    var lo := Lower(window);
    if Contains(lo, "support") then "Acting as support"
    else if Contains(lo, "resistance") then "Acting as resistance"
    else "Key level"
  }

  /** The record for a label that occurs: the window is taken from the raw
      text, not a lower-cased copy. */
  function LevelRecord(text: string, level: string): (r: FibLevel)
    requires Contains(text, level)
    ensures r.level == level && r.price == SeeChart
    ensures var i := FirstIndex(text, level);
      i <= |text| && r.significance == Significance(text[i..Min(i + FibWindow, |text|)])
  {
    var idx := FirstIndex(text, level);
    FibLevel(level, SeeChart, Significance(Slice(text, idx, idx + FibWindow)))
  }

  function LevelsOf(records: seq<FibLevel>): (ls: seq<string>)
    ensures |ls| == |records|
    ensures forall i :: 0 <= i < |records| ==> ls[i] == records[i].level
  {
    seq(|records|, i requires 0 <= i < |records| => records[i].level)
  }

  /** The loop over candidate labels: one record, priced "See chart", for
      each label that occurs in the text. */
  function ScanLevels(text: string, levels: seq<string>): (r: seq<FibLevel>)
    ensures |r| <= |levels|
    ensures forall i :: 0 <= i < |r| ==> r[i].price == SeeChart
    decreases |levels|
  {
    if |levels| == 0 then []
    else
      var rest := ScanLevels(text, levels[1..]);
      if Contains(text, levels[0]) then [LevelRecord(text, levels[0])] + rest else rest
  }

  /** The records follow the label order: their labels are a subsequence
      of the labels tried. */
  lemma {:induction false} ScanLevelsInOrder(text: string, levels: seq<string>)
    ensures SubseqOf(LevelsOf(ScanLevels(text, levels)), levels)
    decreases |levels|
  {
    if |levels| > 0 {
      ScanLevelsInOrder(text, levels[1..]);
      var rest := ScanLevels(text, levels[1..]);
      if Contains(text, levels[0]) {
        var r := [LevelRecord(text, levels[0])] + rest;
        assert ScanLevels(text, levels) == r;
        var xs := LevelsOf(r);
        assert xs[0] == levels[0];
        assert xs[1..] == LevelsOf(rest);
      } else {
        assert ScanLevels(text, levels) == rest;
      }
    }
  }

  /** Every label that occurs in the text gets a record. */
  lemma {:induction false} ScanLevelsComplete(text: string, levels: seq<string>, l: string)
    requires l in levels && Contains(text, l)
    ensures exists i :: 0 <= i < |ScanLevels(text, levels)| && ScanLevels(text, levels)[i].level == l
    decreases |levels|
  {
    var rest := ScanLevels(text, levels[1..]);
    if l == levels[0] {
      assert ScanLevels(text, levels)[0].level == l;
    } else {
      ScanLevelsComplete(text, levels[1..], l);
      var i :| 0 <= i < |rest| && rest[i].level == l;
      if Contains(text, levels[0]) {
        assert ScanLevels(text, levels)[i + 1] == rest[i];
      } else {
        assert ScanLevels(text, levels) == rest;
      }
    }
  }

  /** Each record carries the significance read from the 150 characters
      starting at its label's first occurrence in the raw text. */
  lemma {:induction false} ScanLevelsRecords(text: string, levels: seq<string>, i: int)
    requires 0 <= i < |ScanLevels(text, levels)|
    ensures var r := ScanLevels(text, levels)[i];
      r.level in levels && Contains(text, r.level) && r == LevelRecord(text, r.level)
    decreases |levels|
  {
    var rest := ScanLevels(text, levels[1..]);
    if Contains(text, levels[0]) {
      if i > 0 {
        ScanLevelsRecords(text, levels[1..], i - 1);
        assert ScanLevels(text, levels)[i] == rest[i - 1];
      }
    } else {
      ScanLevelsRecords(text, levels[1..], i);
    }
  }

  /** No record at all exactly when none of the labels occurs. */
  lemma {:induction false} ScanLevelsEmpty(text: string, levels: seq<string>)
    ensures ScanLevels(text, levels) == [] <==> forall i :: 0 <= i < |levels| ==> !Contains(text, levels[i])
    decreases |levels|
  {
    if |levels| > 0 {
      ScanLevelsEmpty(text, levels[1..]);
      assert forall i :: 0 < i < |levels| ==> levels[i] == levels[1..][i - 1];
    }
  }

  /** One to seven records; the placeholder exactly when no label occurs;
      otherwise the records are all priced "See chart". */
  function ExtractFibonacci(text: string): (r: seq<FibLevel>)
    ensures 1 <= |r| <= |StandardLevels|
    ensures r == [NotVisible] ==> forall i :: 0 <= i < |StandardLevels| ==> !Contains(text, StandardLevels[i])
    ensures r != [NotVisible] ==> forall i :: 0 <= i < |r| ==> r[i].price == SeeChart
  {
    var found := ScanLevels(text, StandardLevels);
    ScanLevelsEmpty(text, StandardLevels);
    FoundIsNoPlaceholder(text);
    if |found| > 0 then found else [NotVisible]
  }

  /** A record found is never the placeholder: "N/A" is no label. */
  lemma FoundIsNoPlaceholder(text: string)
    ensures var found := ScanLevels(text, StandardLevels);
      |found| > 0 ==> found != [NotVisible]
  {
    PlaceholderIsNoLabel();
    NoPlaceholderRecord(text, StandardLevels);
  }

  lemma PlaceholderIsNoLabel()
    ensures NotVisible.level !in StandardLevels
  {
  }

  lemma NoPlaceholderRecord(text: string, levels: seq<string>)
    requires NotVisible.level !in levels
    ensures var found := ScanLevels(text, levels);
      |found| > 0 ==> found != [NotVisible]
  {
    if |ScanLevels(text, levels)| > 0 {
      ScanLevelsRecords(text, levels, 0);
    }
  }

  /** A label has a record exactly when it occurs in the raw text, and the
      records follow the label order; so the placeholder comes back exactly
      when no label occurs. */
  lemma ExtractFibonacciPresence(text: string)
    ensures var r := ExtractFibonacci(text);
      && (r == [NotVisible] <==> forall l :: l in StandardLevels ==> !Contains(text, l))
      && (r != [NotVisible] ==> SubseqOf(LevelsOf(r), StandardLevels))
      && forall l :: l in StandardLevels ==>
           (Contains(text, l) <==> exists i :: 0 <= i < |r| && r[i].level == l)
  {
    var r := ExtractFibonacci(text);
    ScanLevelsInOrder(text, StandardLevels);
    PlaceholderIffAbsent(text);
    forall l | l in StandardLevels
      ensures Contains(text, l) <==> exists i :: 0 <= i < |r| && r[i].level == l
    {
      LevelPresence(text, l);
    }
  }

  lemma PlaceholderIffAbsent(text: string)
    ensures ExtractFibonacci(text) == [NotVisible] <==> forall l :: l in StandardLevels ==> !Contains(text, l)
  {
    ScanLevelsEmpty(text, StandardLevels);
    assert "N/A" !in StandardLevels;
  }

  lemma LevelPresence(text: string, l: string)
    requires l in StandardLevels
    ensures Contains(text, l) <==> exists i :: 0 <= i < |ExtractFibonacci(text)| && ExtractFibonacci(text)[i].level == l
  {
    var r := ExtractFibonacci(text);
    var found := ScanLevels(text, StandardLevels);
    if Contains(text, l) {
      ScanLevelsComplete(text, StandardLevels, l);
      assert |found| > 0;
    } else if r != found {
      assert "N/A" !in StandardLevels;
      assert r[0].level != l;
    } else {
      forall i | 0 <= i < |r| ensures r[i].level != l {
        ScanLevelsRecords(text, StandardLevels, i);
      }
    }
  }

  /** "0%" is a substring of "50%" and of "100%", so either of those labels
      also produces a "0%" record. */
  lemma ZeroPercentShadow(text: string)
    requires Contains(text, "50%") || Contains(text, "100%")
    ensures exists i :: 0 <= i < |ExtractFibonacci(text)| && ExtractFibonacci(text)[i].level == "0%"
  {
    if Contains(text, "50%") {
      OccursWithin(text, "50%", "0%", FirstIndex(text, "50%"), 1);
    } else {
      OccursWithin(text, "100%", "0%", FirstIndex(text, "100%"), 2);
    }
    assert "0%" in StandardLevels;
    ExtractFibonacciPresence(text);
  }

  /** A text mentioning only the 61.8% level, next to the word support,
      yields exactly that one record. */
  lemma SingleLevelExample(text: string)
    requires text == "61.8% support zone here"
    ensures ExtractFibonacci(text) == [FibLevel("61.8%", SeeChart, "Acting as support")]
  {
    ExampleDigits(text);
    ExampleHead(text);
    ExampleTail(text);
  }

  /** The example's scan over the last three labels. */
  lemma ExampleTail(text: string)
    requires text == "61.8% support zone here"
    ensures ScanLevels(text, StandardLevels[4..]) == [FibLevel("61.8%", SeeChart, "Acting as support")]
  {
    var levels := StandardLevels;
    ExampleDigits(text);
    MissingCharRulesOut(text, "100%", 1);
    MissingCharRulesOut(text, "78.6%", 0);
    assert levels[5..][1..] == levels[6..] && levels[6..][1..] == [];
    SkipAbsent(text, levels[6..]);
    SkipAbsent(text, levels[5..]);
    SupportNextToLevel(text);
    assert levels[4..][0] == "61.8%" && levels[4..][1..] == levels[5..];
  }

  /** A text without the digits 0, 2, 3 and 5 holds none of the first four
      labels, so they contribute nothing. */
  lemma ExampleHead(text: string)
    requires '0' !in text && '2' !in text && '3' !in text && '5' !in text
    ensures ScanLevels(text, StandardLevels) == ScanLevels(text, StandardLevels[4..])
  {
    var levels := StandardLevels;
    MissingCharRulesOut(text, "0%", 0);
    SkipAbsent(text, levels);
    MissingCharRulesOut(text, "23.6%", 0);
    SkipAbsent(text, levels[1..]);
    MissingCharRulesOut(text, "38.2%", 0);
    SkipAbsent(text, levels[2..]);
    MissingCharRulesOut(text, "50%", 0);
    SkipAbsent(text, levels[3..]);
    assert levels[1..][1..] == levels[2..];
    assert levels[2..][1..] == levels[3..];
    assert levels[3..][1..] == levels[4..];
  }

  /** A label that does not occur contributes nothing. */
  lemma SkipAbsent(text: string, levels: seq<string>)
    requires |levels| > 0 && !Contains(text, levels[0])
    ensures ScanLevels(text, levels) == ScanLevels(text, levels[1..])
  {
  }

  /** The example holds none of the digits 0, 2, 3, 5 and 7. */
  lemma ExampleDigits(text: string)
    requires text == "61.8% support zone here"
    ensures '0' !in text && '2' !in text && '3' !in text && '5' !in text && '7' !in text
  {
    forall i | 0 <= i < |text| ensures text[i] !in {'0', '2', '3', '5', '7'} {
    }
  }

  /** In the example, the 61.8% window mentions support. */
  lemma SupportNextToLevel(text: string)
    requires text == "61.8% support zone here"
    ensures Contains(text, "61.8%")
    ensures LevelRecord(text, "61.8%") == FibLevel("61.8%", SeeChart, "Acting as support")
  {
    assert OccursAt(text, "61.8%", 0);
    assert FirstIndex(text, "61.8%") == 0;
    var window := Slice(text, 0, FibWindow);
    assert window == text;
    assert OccursAt(Lower(window), "support", 6);
  }
}
