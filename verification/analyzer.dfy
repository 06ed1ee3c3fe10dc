/** `ChartAnalyzer.analyze_chart` and `_parse_analysis`: one call to the
    model service under the retry policy, then every extractor run over
    the same raw text; any error the policy re-raises becomes a failure
    record. */
module Analyzer {
  import opened Wrappers
  import opened Text
  import Recommendation
  import FieldExtract
  import ListExtract
  import IndicatorExtract
  import FibonacciExtract
  import SummaryExtract
  import Retry

  /** The structured analysis: the keys of the result dictionary. */
  datatype Analysis = Analysis(
    overallRecommendation: string,
    confidenceLevel: string,
    trendDirection: string,
    supportLevels: seq<string>,
    resistanceLevels: seq<string>,
    rsiAnalysis: IndicatorExtract.Indicator,
    macdAnalysis: IndicatorExtract.Indicator,
    fibonacciLevels: seq<FibonacciExtract.FibLevel>,
    keyObservations: seq<string>,
    riskFactors: seq<string>,
    entryPoints: seq<string>,
    exitPoints: seq<string>,
    summary: string,
    rawAnalysis: string)

  /** What `analyze_chart` returns: the analysis, or the error dictionary
      (`error: True`) with its fixed placeholder values. */
  datatype ChartResult =
    | Parsed(analysis: Analysis)
    | Failed(message: string, overallRecommendation: string, confidenceLevel: string,
             trendDirection: string, rawAnalysis: string)

  const Unable := "UNABLE TO ANALYZE"
  const UnknownTrend := "UNKNOWN"

  /** The shape every parsed analysis has, whatever the raw text. */
  predicate WellFormed(a: Analysis) {
    && a.overallRecommendation in Recommendation.Labels
    && a.confidenceLevel in FieldExtract.FieldLabels + {FieldExtract.NotAvailable}
    && a.trendDirection in FieldExtract.FieldLabels + {FieldExtract.NotAvailable}
    && 1 <= |a.supportLevels| <= ListExtract.MaxItems
    && 1 <= |a.resistanceLevels| <= ListExtract.MaxItems
    && 1 <= |a.keyObservations| <= ListExtract.MaxItems
    && 1 <= |a.riskFactors| <= ListExtract.MaxItems
    && 1 <= |a.entryPoints| <= ListExtract.MaxItems
    && 1 <= |a.exitPoints| <= ListExtract.MaxItems
    && a.rsiAnalysis.name == "RSI" && a.rsiAnalysis.signal in IndicatorExtract.Signals
    && a.macdAnalysis.name == "MACD" && a.macdAnalysis.signal in IndicatorExtract.Signals
    && 1 <= |a.fibonacciLevels| <= |FibonacciExtract.StandardLevels|
    && |a.summary| > 0
  }

  /** `_parse_analysis`: each field from its extractor, with the keywords
      the source passes, and the raw text kept verbatim. */
  function ParseAnalysis(raw: string): (a: Analysis)
    ensures WellFormed(a)
    ensures a.rawAnalysis == raw
  {
    assert Upper("rsi") == "RSI" && Upper("macd") == "MACD";
    Analysis(
      Recommendation.ExtractRecommendation(raw),
      FieldExtract.ExtractField(raw, FieldExtract.ConfidenceKeywords),
      FieldExtract.ExtractField(raw, FieldExtract.TrendKeywords),
      ListExtract.ExtractList(raw, "support"),
      ListExtract.ExtractList(raw, "resistance"),
      IndicatorExtract.ExtractIndicator(raw, "rsi"),
      IndicatorExtract.ExtractIndicator(raw, "macd"),
      FibonacciExtract.ExtractFibonacci(raw),
      ListExtract.ExtractList(raw, "observation"),
      ListExtract.ExtractList(raw, "risk"),
      ListExtract.ExtractList(raw, "entry"),
      ListExtract.ExtractList(raw, "exit"),
      SummaryExtract.ExtractSummary(raw),
      raw)
  }

  /** Each key of the analysis comes from its own keywords: a key whose
      keywords the text never mentions, in any case, keeps its default. */
  lemma ParseAnalysisDefaults(raw: string)
    ensures var a := ParseAnalysis(raw);
      var u := Lower(raw);
      && (!Contains(u, "confidence") && !Contains(u, "confidence level") ==> a.confidenceLevel == FieldExtract.NotAvailable)
      && (!Contains(u, "trend direction") && !Contains(u, "trend") ==> a.trendDirection == FieldExtract.NotAvailable)
      && (!Contains(u, "support") ==> a.supportLevels == [ListExtract.Placeholder])
      && (!Contains(u, "resistance") ==> a.resistanceLevels == [ListExtract.Placeholder])
      && (!Contains(u, "observation") ==> a.keyObservations == [ListExtract.Placeholder])
      && (!Contains(u, "risk") ==> a.riskFactors == [ListExtract.Placeholder])
      && (!Contains(u, "entry") ==> a.entryPoints == [ListExtract.Placeholder])
      && (!Contains(u, "exit") ==> a.exitPoints == [ListExtract.Placeholder])
      && (!Contains(u, "rsi") ==> a.rsiAnalysis == IndicatorExtract.Default("rsi"))
      && (!Contains(u, "macd") ==> a.macdAnalysis == IndicatorExtract.Default("macd"))
  {
    AbsentFields(raw);
    AbsentLists(raw);
  }

  /** A field none of whose keywords occurs reads "N/A". */
  lemma AbsentFields(raw: string)
    ensures var u := Lower(raw);
      && (!Contains(u, "confidence") && !Contains(u, "confidence level") ==>
            FieldExtract.ExtractField(raw, FieldExtract.ConfidenceKeywords) == FieldExtract.NotAvailable)
      && (!Contains(u, "trend direction") && !Contains(u, "trend") ==>
            FieldExtract.ExtractField(raw, FieldExtract.TrendKeywords) == FieldExtract.NotAvailable)
  {
    FieldExtract.ExtractFieldNone(raw, FieldExtract.ConfidenceKeywords);
    FieldExtract.ExtractFieldNone(raw, FieldExtract.TrendKeywords);
  }

  /** A list whose keyword does not occur is the placeholder. */
  lemma AbsentLists(raw: string)
    ensures var u := Lower(raw);
      && (!Contains(u, "support") ==> ListExtract.ExtractList(raw, "support") == [ListExtract.Placeholder])
      && (!Contains(u, "resistance") ==> ListExtract.ExtractList(raw, "resistance") == [ListExtract.Placeholder])
      && (!Contains(u, "observation") ==> ListExtract.ExtractList(raw, "observation") == [ListExtract.Placeholder])
      && (!Contains(u, "risk") ==> ListExtract.ExtractList(raw, "risk") == [ListExtract.Placeholder])
      && (!Contains(u, "entry") ==> ListExtract.ExtractList(raw, "entry") == [ListExtract.Placeholder])
      && (!Contains(u, "exit") ==> ListExtract.ExtractList(raw, "exit") == [ListExtract.Placeholder])
  {
    ListKeywordsLower();
    AbsentList(raw, "support");
    AbsentList(raw, "resistance");
    AbsentList(raw, "observation");
    AbsentList(raw, "risk");
    AbsentList(raw, "entry");
    AbsentList(raw, "exit");
  }

  lemma AbsentList(raw: string, keyword: string)
    requires Lower(keyword) == keyword
    ensures !Contains(Lower(raw), keyword) ==> ListExtract.ExtractList(raw, keyword) == [ListExtract.Placeholder]
  {
    if !Contains(Lower(raw), keyword) {
      ListExtract.AbsentKeywordGivesPlaceholder(raw, keyword);
    }
  }

  /** The list keywords are already lower case. */
  lemma ListKeywordsLower()
    ensures Lower("support") == "support" && Lower("resistance") == "resistance"
    ensures Lower("observation") == "observation" && Lower("risk") == "risk"
    ensures Lower("entry") == "entry" && Lower("exit") == "exit"
  {
  }

  /** The error dictionary for an error whose text is `message`. */
  function FailureRecord(message: string): (r: ChartResult)
    ensures r.Failed? && r.message == message && r.rawAnalysis == message
    ensures r.overallRecommendation !in Recommendation.Labels
  {
    Failed(message, Unable, FieldExtract.NotAvailable, UnknownTrend, message)
  }

  /** `analyze_chart`: the analysis of the first answer the retry policy
      obtains, or the failure record of the error it re-raises. */
  function AnalyzeChart(call: nat -> Retry.Response): (r: ChartResult)
    ensures var t := Retry.CallService(call);
      && (r.Parsed? <==> t.outcome.Success?)
      && (r.Parsed? ==> r.analysis == ParseAnalysis(t.outcome.value) && WellFormed(r.analysis))
      && (r.Failed? ==> r == FailureRecord(t.outcome.error.message))
  {
    match Retry.CallService(call).outcome
    case Success(raw) => Parsed(ParseAnalysis(raw))
    case Failure(e) => FailureRecord(e.message)
  }

  /** A service that answers with no text at all yields the analysis of
      the empty string: every field at its default, and a summary of a
      single dot. */
  lemma EmptyReplyAnalysis(call: nat -> Retry.Response)
    requires call(1) == Retry.Reply(None)
    ensures AnalyzeChart(call).Parsed?
    ensures var a := AnalyzeChart(call).analysis;
      && a.rawAnalysis == ""
      && a.overallRecommendation == "HOLD"
      && a.confidenceLevel == "N/A" && a.trendDirection == "N/A"
      && a.supportLevels == [ListExtract.Placeholder]
      && a.fibonacciLevels == [FibonacciExtract.NotVisible]
      && a.rsiAnalysis == IndicatorExtract.Default("rsi")
      && a.summary == "."
  {
    var t := Retry.CallService(call);
    assert t.attempts == 1;
    assert t.outcome == Success("");
  }

  /** The empty text has no list heading, no Fibonacci level and no
      "summary", so each section takes its default. */
  lemma EmptyTextSections(raw: string)
    requires raw == ""
    ensures ListExtract.ExtractList(raw, "support") == [ListExtract.Placeholder]
    ensures FibonacciExtract.ExtractFibonacci(raw) == [FibonacciExtract.NotVisible]
    ensures SummaryExtract.ExtractSummary(raw) == "."
  {
  }

  /** An error the policy re-raises is reported, never analysed: the
      recommendation is "UNABLE TO ANALYZE" and the raw text is the error
      text. */
  lemma ErrorIsReported(call: nat -> Retry.Response, e: Retry.Error)
    requires call(1) == Retry.Raised(e) && !Retry.IsRateLimitError(e)
    ensures AnalyzeChart(call) == Failed(e.message, Unable, "N/A", UnknownTrend, e.message)
  {
    Retry.OtherErrorsAreNotRetried(call, e);
  }
}
