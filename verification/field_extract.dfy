/** `_extract_field`, used for the confidence level and the trend direction:
    the first keyword whose 100-character window reads as a label decides. */
module FieldExtract {
  import opened Text

  /** The labels a window can read as. */
  const FieldLabels: set<string> := {"HIGH", "MEDIUM", "LOW", "BULLISH", "BEARISH", "SIDEWAYS"}

  const NotAvailable := "N/A"

  /** Width of the window opened at a keyword's first occurrence. */
  const FieldWindow: nat := 100

  /** The keyword lists `_parse_analysis` passes in. */
  const ConfidenceKeywords: seq<string> := ["confidence", "confidence level"]
  const TrendKeywords: seq<string> := ["trend direction", "trend"]

  /** No priority word occurs before `k` in the list below (any case). */
  ghost predicate NoneBefore(u: string, k: nat) {
    && (k > 0 ==> !Mentions(u, "HIGH"))
    && (k > 1 ==> !Mentions(u, "MEDIUM") && !Mentions(u, "MODERATE"))
    && (k > 2 ==> !Mentions(u, "LOW"))
    && (k > 3 ==> !Mentions(u, "BULLISH"))
    && (k > 4 ==> !Mentions(u, "BEARISH"))
    && (k > 5 ==> !Mentions(u, "SIDEWAYS") && !Mentions(u, "NEUTRAL"))
  }

  /** What a window reads as: the first label in priority order HIGH,
      MEDIUM (or MODERATE), LOW, BULLISH, BEARISH, SIDEWAYS (or NEUTRAL)
      whose word occurs in it (any case), or "N/A" when none does. */
  function ClassifyWindow(window: string): (r: string)
    ensures r in FieldLabels || r == NotAvailable
    ensures var u := Upper(window);
      && (r == "HIGH" <==> Mentions(u, "HIGH"))
      && (r == "MEDIUM" <==> NoneBefore(u, 1) && (Mentions(u, "MEDIUM") || Mentions(u, "MODERATE")))
      && (r == "LOW" <==> NoneBefore(u, 2) && Mentions(u, "LOW"))
      && (r == "BULLISH" <==> NoneBefore(u, 3) && Mentions(u, "BULLISH"))
      && (r == "BEARISH" <==> NoneBefore(u, 4) && Mentions(u, "BEARISH"))
      && (r == "SIDEWAYS" <==> NoneBefore(u, 5) && (Mentions(u, "SIDEWAYS") || Mentions(u, "NEUTRAL")))
      && (r == NotAvailable <==> NoneBefore(u, 6))
  {
    var u := Upper(window);
    if Contains(u, "HIGH") then "HIGH"
    else if Contains(u, "MEDIUM") || Contains(u, "MODERATE") then "MEDIUM"
    else if Contains(u, "LOW") then "LOW"
    else if Contains(u, "BULLISH") then "BULLISH"
    else if Contains(u, "BEARISH") then "BEARISH"
    else if Contains(u, "SIDEWAYS") || Contains(u, "NEUTRAL") then "SIDEWAYS"
    else NotAvailable
  }

  /** `text[idx:idx + 100]` where `idx = text.lower().find(keyword)`: it
      opens on the keyword itself. */
  function FieldWindowAt(text: string, keyword: string): (w: string)
    requires Contains(Lower(text), keyword)
    ensures var i := FirstIndex(Lower(text), keyword);
      i <= |text| && |w| == Min(FieldWindow, |text| - i) && w == text[i..i + |w|]
    ensures |keyword| <= FieldWindow ==> OccursAt(Lower(w), keyword, 0)
  {
    var idx := FirstIndex(Lower(text), keyword);
    var w := Slice(text, idx, idx + FieldWindow);
    LowerSlice(text, idx, idx + FieldWindow);
    assert 0 < |keyword| <= FieldWindow ==> OccursAt(Lower(w), keyword, 0) by {
      if 0 < |keyword| <= FieldWindow {
        OccursInSlice(Lower(text), keyword, idx, idx + FieldWindow, 0);
      }
    }
    w
  }

  /** What one keyword contributes: its window's reading, or "N/A" when the
      keyword does not occur in the lower-cased text. */
  function KeywordReading(text: string, keyword: string): (r: string)
    ensures r in FieldLabels || r == NotAvailable
    ensures !Contains(Lower(text), keyword) ==> r == NotAvailable
  {
    if Contains(Lower(text), keyword) then ClassifyWindow(FieldWindowAt(text, keyword))
    else NotAvailable
  }

  /** The result is the reading of the first keyword, in list order, whose
      reading is not "N/A"; a keyword whose window matches nothing is passed
      over; "N/A" exactly when every keyword reads "N/A". */
  function ExtractField(text: string, keywords: seq<string>): (r: string)
    ensures r in FieldLabels || r == NotAvailable
    decreases |keywords|
  {
    if |keywords| == 0 then NotAvailable
    else
      var here := KeywordReading(text, keywords[0]);
      if here != NotAvailable then here else ExtractField(text, keywords[1..])
  }

  /** `ExtractField` gives "N/A" exactly when every keyword reads "N/A". */
  lemma {:induction false} ExtractFieldNone(text: string, keywords: seq<string>)
    ensures ExtractField(text, keywords) == NotAvailable
        <==> forall i :: 0 <= i < |keywords| ==> KeywordReading(text, keywords[i]) == NotAvailable
    decreases |keywords|
  {
    if |keywords| > 0 && KeywordReading(text, keywords[0]) == NotAvailable {
      ExtractFieldNone(text, keywords[1..]);
      assert forall i :: 1 <= i < |keywords| ==> keywords[i] == keywords[1..][i - 1];
    }
  }

  /** Any other reading is the one of the first keyword, in list order,
      that reads as something. */
  lemma {:induction false} ExtractFieldFirstReading(text: string, keywords: seq<string>)
    requires ExtractField(text, keywords) != NotAvailable
    ensures exists i :: && 0 <= i < |keywords|
                        && ExtractField(text, keywords) == KeywordReading(text, keywords[i])
                        && forall j :: 0 <= j < i ==> KeywordReading(text, keywords[j]) == NotAvailable
    decreases |keywords|
  {
    if KeywordReading(text, keywords[0]) == NotAvailable {
      var rest := keywords[1..];
      ExtractFieldFirstReading(text, rest);
      var i :| && 0 <= i < |rest|
               && ExtractField(text, rest) == KeywordReading(text, rest[i])
               && forall j :: 0 <= j < i ==> KeywordReading(text, rest[j]) == NotAvailable;
      forall j | 0 <= j < i + 1 ensures KeywordReading(text, keywords[j]) == NotAvailable {
        if j > 0 {
          assert keywords[j] == rest[j - 1];
        }
      }
      assert keywords[i + 1] == rest[i];
    } else {
      assert ExtractField(text, keywords) == KeywordReading(text, keywords[0]);
    }
  }

  /** The confidence field can read as a trend word and the trend field as
      a confidence word: both fields share one label set, and a keyword
      absent from the text never decides. */
  lemma SharedLabelSet(text: string)
    ensures ExtractField(text, ConfidenceKeywords) in FieldLabels + {NotAvailable}
    ensures ExtractField(text, TrendKeywords) in FieldLabels + {NotAvailable}
    ensures !Contains(Lower(text), "trend") ==> ExtractField(text, TrendKeywords) == NotAvailable
  {
    if !Contains(Lower(text), "trend") {
      var lo := Lower(text);
      if Contains(lo, "trend direction") {
        var i := FirstIndex(lo, "trend direction");
        OccursWithin(lo, "trend direction", "trend", i, 0);
      }
      assert KeywordReading(text, TrendKeywords[0]) == NotAvailable;
      assert KeywordReading(text, TrendKeywords[1]) == NotAvailable;
    }
  }
}
