/** `_extract_indicator`, used for RSI and MACD: a signal and a one-line
    description read from the 300 characters after the indicator's first
    mention. */
module IndicatorExtract {
  import opened Wrappers
  import opened Text

  datatype Indicator = Indicator(name: string, value: string, signal: string, description: string)

  const Signals: set<string> := {"OVERBOUGHT", "OVERSOLD", "BULLISH", "BEARISH", "NEUTRAL"}

  /** Width of the window opened at the indicator's first mention. */
  const IndicatorWindow: nat := 300

  /** Only this many lines of the window are looked at for a description. */
  const DescriptionLines: nat := 3

  const MaxDescription: nat := 200

  const NoDescription := "Not visible or cannot be determined"

  /** The record returned when the indicator is never mentioned. */
  function Default(indicator: string): Indicator {
    Indicator(Upper(indicator), "N/A", "NEUTRAL", NoDescription)
  }

  /** The first signal word, in priority order, found in the window (any
      case); NEUTRAL when there is none. */
  function ReadSignal(window: string): (r: string)
    ensures r in Signals
    ensures var u := Upper(window);
      && (r == "OVERBOUGHT" <==> Mentions(u, "OVERBOUGHT"))
      && (r == "OVERSOLD" <==> !Mentions(u, "OVERBOUGHT") && Mentions(u, "OVERSOLD"))
      && (r == "BULLISH" <==>
            !Mentions(u, "OVERBOUGHT") && !Mentions(u, "OVERSOLD") && Mentions(u, "BULLISH"))
      && (r == "BEARISH" <==>
            && !Mentions(u, "OVERBOUGHT") && !Mentions(u, "OVERSOLD")
            && !Mentions(u, "BULLISH") && Mentions(u, "BEARISH"))
      && (r == "NEUTRAL" <==>
            && !Mentions(u, "OVERBOUGHT") && !Mentions(u, "OVERSOLD")
            && !Mentions(u, "BULLISH") && !Mentions(u, "BEARISH"))
  {
    var u := Upper(window);
    if Contains(u, "OVERBOUGHT") then "OVERBOUGHT"
    else if Contains(u, "OVERSOLD") then "OVERSOLD"
    else if Contains(u, "BULLISH") then "BULLISH"
    else if Contains(u, "BEARISH") then "BEARISH"
    else "NEUTRAL"
  }

  /** The index of the first non-blank line, or `|lines|` when all are
      blank: the `for ... if line.strip(): ... break` loop. */
  function FirstNonBlankIndex(lines: seq<string>): (k: nat)
    ensures k <= |lines|
    ensures forall j :: 0 <= j < k ==> IsBlank(lines[j])
    ensures k < |lines| ==> !IsBlank(lines[k])
    decreases |lines|
  {
    if |lines| == 0 || !IsBlank(lines[0]) then 0
    else 1 + FirstNonBlankIndex(lines[1..])
  }

  /** The stripped text of the first non-blank line, if any. */
  function FirstNonBlank(lines: seq<string>): (r: Option<string>)
    ensures r.Some? <==> exists j :: 0 <= j < |lines| && !IsBlank(lines[j])
    ensures r.Some? ==> r.value != ""
    ensures r.Some? ==>
      exists k :: 0 <= k < |lines| && r.value == Strip(lines[k]) &&
        forall j :: 0 <= j < k ==> IsBlank(lines[j])
  {
    var k := FirstNonBlankIndex(lines);
    if k < |lines| then Some(Strip(lines[k])) else None
  }

  /** `text[idx:idx + 300]` where `idx = text.lower().find(indicator)`. */
  function IndicatorWindowAt(text: string, indicator: string): (w: string)
    requires Contains(Lower(text), indicator)
    ensures var i := FirstIndex(Lower(text), indicator);
      i <= |text| && |w| == Min(IndicatorWindow, |text| - i) && w == text[i..i + |w|]
    ensures 0 < |indicator| ==> |w| > 0 && LowerChar(w[0]) == indicator[0]
  {
    var idx := FirstIndex(Lower(text), indicator);
    var w := Slice(text, idx, idx + IndicatorWindow);
    assert 0 < |indicator| ==> Lower(text)[idx] == indicator[0];
    w
  }

  /** `name` is always the upper-cased keyword and `value` always "N/A"; an
      unmentioned indicator gets the default record; otherwise the signal
      is read from the window and the description, at most 200 characters,
      from its first non-blank line among the first three. */
  function ExtractIndicator(text: string, indicator: string): (r: Indicator)
    ensures r.name == Upper(indicator) && r.value == "N/A"
    ensures r.signal in Signals
    ensures |r.description| <= MaxDescription
    ensures !Contains(Lower(text), indicator) ==> r == Default(indicator)
    ensures Contains(Lower(text), indicator) ==>
      var window := IndicatorWindowAt(text, indicator);
      var line := FirstNonBlank(Take(Split(window, '\n'), DescriptionLines));
      && r.signal == ReadSignal(window)
      && (line.None? ==> r.description == NoDescription)
      && (line.Some? ==> r.description == Take(line.value, MaxDescription))
  {
    if !Contains(Lower(text), indicator) then Default(indicator)
    else
      var window := IndicatorWindowAt(text, indicator);
      var line := FirstNonBlank(Take(Split(window, '\n'), DescriptionLines));
      Indicator(Upper(indicator), "N/A", ReadSignal(window),
                if line.Some? then Take(line.value, MaxDescription) else NoDescription)
  }

  /** When the indicator is mentioned and its name starts with a visible
      character, the description always comes from the line holding the
      mention itself: the window's first line is never blank, so the
      second and third lines are never consulted. */
  lemma DescriptionFromMentionLine(text: string, indicator: string)
    requires Contains(Lower(text), indicator)
    requires |indicator| > 0 && !IsSpace(indicator[0])
    ensures var window := IndicatorWindowAt(text, indicator);
            var r := ExtractIndicator(text, indicator);
      && r.description == Take(Strip(Split(window, '\n')[0]), MaxDescription)
      && |r.description| > 0 && LowerChar(r.description[0]) == indicator[0]
  {
    var window := IndicatorWindowAt(text, indicator);
    var lines := Split(window, '\n');
    SplitFirstPiece(window, '\n');
    var first := lines[0];
    assert LowerChar(window[0]) == indicator[0];
    // A whitespace character is its own lower-case form, so the window's
    // first character is neither a newline nor blank.
    assert !IsSpace(window[0]);
    assert |first| > 0 && first[0] == window[0];
    assert !IsBlank(first);
    var taken := Take(lines, DescriptionLines);
    assert taken[0] == first;
    assert FirstNonBlankIndex(taken) == 0;
  }
}
