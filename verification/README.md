# Chart-Prophet analysis core in Dafny

Chart-Prophet sends a trading-chart image to a language model. It turns the
model's free-text answer into a structured analysis. That analysis covers a
recommendation, a confidence level, a trend direction, lists of levels and
observations, the RSI and MACD readings, Fibonacci levels and a summary. The
program keeps a journal of trades and reports win and loss statistics over it.

This project models that core as pure Dafny functions and proves properties
about it:

- **`chart_analyzer.py`**
  - The rate-limit error classifier and the retry policy around the model call.
  - `analyze_chart` and `_parse_analysis`.
  - The six extractors: recommendation, keyword-window field, bulleted
    list, indicator, Fibonacci and summary.
- **`app.py`**
  - The upload-extension check.
  - The default that `save_trade` applies.
  - The whitelisted `update_trade`.
  - The `get_trades` filter.
  - The counting in `get_stats`.
- **`static/history.js`**
  - The three badge helpers.

Python strings are `seq<char>`. `find`, clamped slicing, `split`, `join`,
`strip` and `lstrip(chars)` are small verified functions in module `Text`.
The model service is an oracle `call: nat -> Response`, indexed by attempt
number from 1. Waits are recorded rather than slept. Timestamps are integers,
the `strftime('%Y-%m-%d')` day key is a function parameter `dayKey`, and the `isoformat()` rendering is a parameter `isoFormat`.

Modules:

| Module | Covers |
|---|---|
| `Wrappers` | `Option` and `Result` |
| `Text` | Python `str` operations |
| `Recommendation` | the recommendation extractor |
| `FieldExtract` | the confidence and trend fields |
| `ListExtract` | the bulleted-section lists |
| `IndicatorExtract` | RSI and MACD |
| `FibonacciExtract` | the Fibonacci levels |
| `SummaryExtract` | the summary |
| `Retry` | the classifier and the retry policy |
| `Analyzer` | `analyze_chart` and `_parse_analysis` |
| `Upload` | `allowed_file` |
| `Trades` | the journal: save, update, filter |
| `TradeStats` | `get_stats` |
| `History` | the page helpers |

## Model

| member | source | states |
|---|---|---|
| Text.Find | Chart-Prophet/chart_analyzer.py:174 | `find` gives the first position where the pattern occurs, or -1 exactly when it occurs nowhere |
| Text.FirstIndex | Chart-Prophet/chart_analyzer.py:223 | for a pattern that occurs, the index is an occurrence and no earlier position is one |
| Text.Contains | Chart-Prophet/chart_analyzer.py:158 | `p in s` holds exactly when `p` occurs at some position of `s` |
| Text.Slice | Chart-Prophet/chart_analyzer.py:175 | `s[lo:hi]` is clamped to the sequence: its length is `max(0, min(hi, len) - lo)` and it copies `s` from `lo` |
| Text.Take | Chart-Prophet/chart_analyzer.py:211 | `s[:n]` is the prefix of length `min(n, len)` |
| Text.Lower | Chart-Prophet/chart_analyzer.py:171 | `lower()` keeps the length and maps each character on its own |
| Text.Upper | Chart-Prophet/chart_analyzer.py:157 | `upper()` keeps the length and maps each character on its own |
| Text.LowerSlice | Chart-Prophet/chart_analyzer.py:174-175 | lower-casing commutes with slicing, so an index found in `text.lower()` addresses the same window of `text` |
| Text.Split | Chart-Prophet/chart_analyzer.py:191 | `split(sep)` has at least one piece and no piece holds the separator |
| Text.JoinOfSplit | Chart-Prophet/chart_analyzer.py:191 | joining the pieces of a split with the separator gives the text back |
| Text.SplitOfJoin | Chart-Prophet/chart_analyzer.py:285 | splitting a join of separator-free pieces gives the pieces back |
| Text.JoinAppend | Chart-Prophet/chart_analyzer.py:283 | joining two non-empty lists of parts is joining each and putting the separator between |
| Text.JoinStartsWithFirst | Chart-Prophet/chart_analyzer.py:283 | a join begins with its first part |
| Text.SplitFirstPiece | Chart-Prophet/chart_analyzer.py:235 | the first piece of a split is the prefix of the text up to the first separator |
| Text.JoinCount | Chart-Prophet/chart_analyzer.py:286 | a character absent from the pieces occurs in their join once per separator copy |
| Text.Strip | Chart-Prophet/chart_analyzer.py:198 | `strip()` is the slice of the line that starts after its leading whitespace, and everything outside that slice is whitespace; the result has no whitespace at either end, is empty exactly for a blank line, and keeps a visible first character |
| Text.LStripChars | Chart-Prophet/chart_analyzer.py:205 | `lstrip(chars)` is a suffix of the line, every character it removed is one of `chars`, and the result does not start with one of `chars` |
| Text.AfterFirst | Chart-Prophet/chart_analyzer.py:198 | `split(':', 1)[-1]` is the suffix after the first colon, or the whole line when there is none |
| Text.OccursWithin | Chart-Prophet/chart_analyzer.py:245 | an occurrence of a longer label holds an occurrence of any label inside it |
| Text.MissingCharRulesOut | Chart-Prophet/chart_analyzer.py:158 | a pattern with a character the text lacks does not occur in it |
| Recommendation.ExtractRecommendation | Chart-Prophet/chart_analyzer.py:156-168 | the result is always one of STRONG BUY, STRONG SELL, BUY, SELL, HOLD |
| Recommendation.SellLookahead | Chart-Prophet/chart_analyzer.py:162 | `"SELL" in upper[:find("BUY")+50]` holds exactly when some SELL ends within the first `find("BUY")+50` characters |
| Recommendation.RecommendationPriority | Chart-Prophet/chart_analyzer.py:156-168 | STRONG BUY beats all; STRONG SELL, BUY and SELL each hold exactly under their cascade conditions; HOLD holds exactly when neither BUY nor SELL occurs |
| Recommendation.StrongImpliesPlain | Chart-Prophet/chart_analyzer.py:158-164 | a text with STRONG BUY (SELL) also contains BUY (SELL) |
| Recommendation.SellBeforeBuyVetoesBuy | Chart-Prophet/chart_analyzer.py:162 | a SELL placed before the first BUY rules the BUY reading out, so the window is a prefix and not a look-ahead |
| FieldExtract.ClassifyWindow | Chart-Prophet/chart_analyzer.py:176-187 | a window reads as HIGH exactly when HIGH occurs; as MEDIUM, LOW, BULLISH, BEARISH or SIDEWAYS exactly when its word (MODERATE and NEUTRAL included) occurs and no word earlier in that order does; and as "N/A" exactly when none of the eight words occurs |
| FieldExtract.FieldWindowAt | Chart-Prophet/chart_analyzer.py:173-175 | the window is the text from the keyword's first position in the lower-cased text, `min(100, len - idx)` characters long, and it opens on the keyword itself |
| FieldExtract.KeywordReading | Chart-Prophet/chart_analyzer.py:173-187 | a keyword absent from the lower-cased text contributes "N/A" |
| FieldExtract.ExtractField | Chart-Prophet/chart_analyzer.py:170-188 | the result is one of the six labels or "N/A" |
| FieldExtract.ExtractFieldNone | Chart-Prophet/chart_analyzer.py:172-188 | "N/A" comes back exactly when every keyword reads "N/A" |
| FieldExtract.ExtractFieldFirstReading | Chart-Prophet/chart_analyzer.py:172-187 | any other result is the reading of the first keyword in list order that reads as a label; one that matches nothing falls through |
| FieldExtract.SharedLabelSet | Chart-Prophet/chart_analyzer.py:140-141 | both fields share one label set, and the trend field is "N/A" when "trend" never occurs |
| ListExtract.HeadingItems | Chart-Prophet/chart_analyzer.py:198-200 | a heading adds one item exactly when the text after its first colon is not blank, and that item is the stripped text |
| ListExtract.LineItems | Chart-Prophet/chart_analyzer.py:196-209 | a heading adds its `HeadingItems`; outside the section any other line adds nothing; inside it a bullet line adds `lstrip('-*• ')` of its stripped form, a digit-led line adds `lstrip('0123456789. ')` of it, and any other line adds nothing |
| ListExtract.StaysOpen | Chart-Prophet/chart_analyzer.py:196-209 | a heading opens the section; outside it nothing else opens it; inside it the section stays open exactly unless the stripped line is blank or starts with `#` |
| ListExtract.ScanLines | Chart-Prophet/chart_analyzer.py:195-209 | the loop only appends to the items, at most one per line |
| ListExtract.ScanLinesConcat | Chart-Prophet/chart_analyzer.py:195-209 | the loop is a fold: scanning `a + b` is scanning `a` and then `b` from where `a` left off |
| ListExtract.ScanLinesAppends | Chart-Prophet/chart_analyzer.py:195-209 | what the loop appends does not depend on the items already collected |
| ListExtract.ExtractList | Chart-Prophet/chart_analyzer.py:190-211 | the result is the first `min(5, n)` of the `n` collected items when there are any, and `["Not identified in chart"]` otherwise |
| ListExtract.NoHeadingKeepsState | Chart-Prophet/chart_analyzer.py:196-203 | outside the section, lines without a heading leave the state unchanged |
| ListExtract.NoHeadingGivesPlaceholder | Chart-Prophet/chart_analyzer.py:196-211 | with no heading line the result is exactly ["Not identified in chart"] |
| ListExtract.AbsentKeywordGivesPlaceholder | Chart-Prophet/chart_analyzer.py:190-211 | a text that never mentions the keyword, in any case, yields exactly ["Not identified in chart"] |
| ListExtract.ItemsNeedHeading | Chart-Prophet/chart_analyzer.py:196-203 | an item is collected only if some line is a heading |
| ListExtract.BlankClosedSection | Chart-Prophet/chart_analyzer.py:190-211 | a heading with nothing after its colon, two "- " bullets, a blank line and a line that is no heading give exactly the two bullets' items |
| ListExtract.SupportSectionExample | Chart-Prophet/chart_analyzer.py:190-211 | the text "Support Levels: \n- 100\n- 95\n\nResistance:..." gives ["100", "95"] for the keyword "support" |
| IndicatorExtract.ReadSignal | Chart-Prophet/chart_analyzer.py:226-233 | the signal is OVERBOUGHT exactly when that word occurs, OVERSOLD, BULLISH or BEARISH exactly when that word occurs and no earlier one in that order does, and NEUTRAL exactly when none occurs |
| IndicatorExtract.FirstNonBlankIndex | Chart-Prophet/chart_analyzer.py:236-239 | the index of the first non-blank line: all lines before it are blank |
| IndicatorExtract.FirstNonBlank | Chart-Prophet/chart_analyzer.py:236-239 | a line is found exactly when some line is not blank, and it is the stripped form of a line before which every line is blank |
| IndicatorExtract.IndicatorWindowAt | Chart-Prophet/chart_analyzer.py:222-224 | the window is the text from the indicator's first position in the lower-cased text, `min(300, len - idx)` characters long, and starts with the indicator's first letter in some case |
| IndicatorExtract.ExtractIndicator | Chart-Prophet/chart_analyzer.py:213-241 | `name` is the upper-cased keyword and `value` "N/A"; an unmentioned indicator gets the default record; a mentioned one gets the `ReadSignal` of its window, and as description the first non-blank of the window's first three lines, stripped and cut to 200 characters, or the default text when all three are blank |
| IndicatorExtract.DescriptionFromMentionLine | Chart-Prophet/chart_analyzer.py:235-239 | for a mentioned indicator the description always comes from the window's first line, the one holding the mention |
| FibonacciExtract.Significance | Chart-Prophet/chart_analyzer.py:251-255 | support beats resistance, and "Key level" holds when neither word occurs |
| FibonacciExtract.LevelRecord | Chart-Prophet/chart_analyzer.py:249-261 | a record carries its label, the price "See chart", and the `Significance` of the raw text's 150 characters from the label's first occurrence |
| FibonacciExtract.ScanLevels | Chart-Prophet/chart_analyzer.py:247-261 | at most one record per label, each priced "See chart" |
| FibonacciExtract.ScanLevelsInOrder | Chart-Prophet/chart_analyzer.py:247-261 | the record labels are a subsequence of the labels tried |
| FibonacciExtract.ScanLevelsComplete | Chart-Prophet/chart_analyzer.py:247-261 | every label that occurs gets a record |
| FibonacciExtract.ScanLevelsRecords | Chart-Prophet/chart_analyzer.py:248-261 | each record is for a label that occurs, with the significance of its 150-character window |
| FibonacciExtract.ScanLevelsEmpty | Chart-Prophet/chart_analyzer.py:247-263 | there are no records exactly when no label occurs |
| FibonacciExtract.ExtractFibonacci | Chart-Prophet/chart_analyzer.py:243-270 | one to seven records; the placeholder means no label occurs; otherwise every record is priced "See chart" |
| FibonacciExtract.ExtractFibonacciPresence | Chart-Prophet/chart_analyzer.py:243-270 | the placeholder comes back exactly when no label occurs; a label has a record exactly when it occurs; records follow the label order |
| FibonacciExtract.PlaceholderIffAbsent | Chart-Prophet/chart_analyzer.py:263-268 | the placeholder comes back exactly when no label occurs |
| FibonacciExtract.LevelPresence | Chart-Prophet/chart_analyzer.py:247-261 | a standard label has a record exactly when it occurs in the raw text |
| FibonacciExtract.ZeroPercentShadow | Chart-Prophet/chart_analyzer.py:245-248 | a text with "50%" or "100%" also yields a "0%" record |
| FibonacciExtract.SingleLevelExample | Chart-Prophet/chart_analyzer.py:243-270 | "61.8% support zone here" yields the single record 61.8% / See chart / Acting as support |
| SummaryExtract.SummaryParts | Chart-Prophet/chart_analyzer.py:278-281 | at most one part per candidate line; SummaryPartsLine and SummaryPartsAppend fix which part each line gives and their order |
| SummaryExtract.SummaryPartsLine | Chart-Prophet/chart_analyzer.py:280-281 | one line gives its stripped form when it is neither blank nor a `#` heading, and nothing otherwise |
| SummaryExtract.SummaryPartsAppend | Chart-Prophet/chart_analyzer.py:278-281 | the parts of two runs of lines are the first run's parts followed by the second's, so the kept lines appear once each, in text order |
| SummaryExtract.SummaryPartsShape | Chart-Prophet/chart_analyzer.py:279-281 | every kept part is a stripped line that is non-empty and starts with neither whitespace nor `#` |
| SummaryExtract.SummaryPartsMembers | Chart-Prophet/chart_analyzer.py:279-281 | a string is a part exactly when it is the stripped form of some kept line |
| SummaryExtract.SummaryPartsEmpty | Chart-Prophet/chart_analyzer.py:280-282 | nothing is kept exactly when every candidate line is blank or a heading |
| SummaryExtract.SummaryCandidatesLayout | Chart-Prophet/chart_analyzer.py:274-279 | from the first "summary" on, the text is the line holding it, a newline, the candidates rejoined with newlines, and a rest that is empty or starts a new line (empty unless three candidates were taken); no candidate holds a newline, so each is one whole line; with no candidate that line is the last |
| SummaryExtract.FirstSentences | Chart-Prophet/chart_analyzer.py:285-286 | the fallback is non-empty, ends in `.`, holds no newline and at most three dots |
| SummaryExtract.FirstSentencesPieces | Chart-Prophet/chart_analyzer.py:285-286 | the fallback is its sentences and a final `.`; cut at its dots, it gives the first up to three `.`-pieces of the text with newlines as spaces, each after the first led by the space ". " put before it |
| SummaryExtract.DotJoinPieces | Chart-Prophet/chart_analyzer.py:286 | dot-free pieces joined with ". " split back at the dots into the pieces, each after the first led by a space |
| SummaryExtract.FallbackPieces | Chart-Prophet/chart_analyzer.py:285-286 | one to three pieces are kept, none with a newline or a dot |
| SummaryExtract.ExtractSummary | Chart-Prophet/chart_analyzer.py:272-286 | on the summary path the result is the first `min(500, len)` characters of the kept parts joined by spaces, so it begins with the first kept line and a visible character other than `#`; otherwise it is the fallback |
| SummaryExtract.SummaryOnLastLine | Chart-Prophet/chart_analyzer.py:276-286 | when "summary" appears only on the last line, the fallback is used |
| SummaryExtract.NoDotFallback | Chart-Prophet/chart_analyzer.py:285-286 | a text with no dot and no "summary" comes back whole, newlines as spaces, with a dot added |
| Retry.IsRateLimitError | Chart-Prophet/chart_analyzer.py:46-54 | an error is a rate limit exactly when "429" or "RATELIMIT_EXCEEDED" occurs in its text as written, "quota" or "rate limit" occurs in its lower-cased text, or its status is 429 |
| Retry.RateLimitExamples | Chart-Prophet/chart_analyzer.py:46-54 | "429 ..." and "Quota ..." messages and a bare status 429 are rate limits |
| Retry.LowerCaseCodeIsNotRateLimit | Chart-Prophet/chart_analyzer.py:50 | RATELIMIT_EXCEEDED is matched case-sensitively |
| Retry.ReplyText | Chart-Prophet/chart_analyzer.py:117 | `response.text or ""`: the text, or "" for none |
| Retry.Backoff | Chart-Prophet/chart_analyzer.py:100 | every wait lies in [4, 60] seconds |
| Retry.BackoffMonotone | Chart-Prophet/chart_analyzer.py:100 | waits never shrink from one attempt to the next |
| Retry.BackoffDoubling | Chart-Prophet/chart_analyzer.py:100 | from the third attempt on, each wait doubles the last one, up to the 60-second cap |
| Retry.BackoffSchedule | Chart-Prophet/chart_analyzer.py:99-100 | the waits the five-attempt policy can take are 4, 4, 8 and 16 seconds |
| Retry.RetryFrom | Chart-Prophet/chart_analyzer.py:98-103 | the recursion follows the policy: earlier attempts raised retryable errors and were followed by their backoff; the last one answered, raised a non-retryable error, or was the fifth |
| Retry.CallService | Chart-Prophet/chart_analyzer.py:98-103 | the decorated call follows the policy, retrying rate-limit errors only |
| Retry.PolicyDeterminesTrace | Chart-Prophet/chart_analyzer.py:98-103 | only one trace follows the policy |
| Retry.CallWithRetry | Chart-Prophet/chart_analyzer.py:98-103 | the attempt-wait loop follows the policy |
| Retry.OtherErrorsAreNotRetried | Chart-Prophet/chart_analyzer.py:101-102 | an error that is not a rate limit is re-raised after one attempt, with no wait |
| Retry.PersistentRateLimit | Chart-Prophet/chart_analyzer.py:99-102 | five rate limits in a row give five attempts, waits 4, 4, 8, 16, and the fifth error re-raised |
| Retry.SucceedsAt | Chart-Prophet/chart_analyzer.py:98-117 | an answer after only rate-limited attempts is the call's result |
| Retry.SucceedsIff | Chart-Prophet/chart_analyzer.py:98-103 | the call succeeds exactly when some attempt among the first five answers after only rate-limited ones |
| Analyzer.ParseAnalysis | Chart-Prophet/chart_analyzer.py:137-154 | every parsed analysis is well formed (labels, list bounds, indicator names, at least one Fibonacci record, a non-empty summary) and keeps the raw text verbatim |
| Analyzer.ParseAnalysisDefaults | Chart-Prophet/chart_analyzer.py:139-150 | each key is fed by its own keywords: when the text never mentions (in any case) the keywords of confidence, trend, support, resistance, observation, risk, entry, exit, RSI or MACD, that key keeps its own default (N/A, the list placeholder, or the default reading of that indicator) |
| Analyzer.FailureRecord | Chart-Prophet/chart_analyzer.py:127-135 | the error record carries the message as message and raw text, and its recommendation is none of the five labels |
| Analyzer.AnalyzeChart | Chart-Prophet/chart_analyzer.py:119-135 | it never raises: it parses exactly when the policy obtains an answer, and the analysis it returns is then the parse of that very answer; otherwise it returns the error record |
| Analyzer.EmptyReplyAnalysis | Chart-Prophet/chart_analyzer.py:117-123 | a reply with no text is analysed as "": HOLD, N/A, N/A, placeholders, default RSI and a summary of "." |
| Analyzer.EmptyTextSections | Chart-Prophet/chart_analyzer.py:190-286 | the empty text yields the list placeholder, the Fibonacci placeholder and "." |
| Analyzer.ErrorIsReported | Chart-Prophet/chart_analyzer.py:127-135 | a non-rate-limit error becomes UNABLE TO ANALYZE / N/A / UNKNOWN with its message as raw text |
| Upload.LastIndex | Chart-Prophet/app.py:22 | the position of the last dot: no dot follows it |
| Upload.Extension | Chart-Prophet/app.py:22 | `rsplit('.', 1)[1]` is the dot-free suffix after the last dot |
| Upload.ExtensionOfJoin | Chart-Prophet/app.py:22 | splitting `stem + "." + ext` at the last dot gives back `ext` |
| Upload.AllowedFile | Chart-Prophet/app.py:13-22 | a name is accepted exactly when it ends in a dot and one of png, jpg, jpeg, gif, webp, up to the case of its letters; a name without a dot is refused |
| Upload.AllowedFileIff | Chart-Prophet/app.py:13-22 | `stem.ext` is accepted exactly when `ext` lower-cased is png, jpg, jpeg, gif or webp |
| Upload.NoDotRefused | Chart-Prophet/app.py:22 | a name without a dot is refused |
| Upload.UpperCaseAccepted | Chart-Prophet/app.py:22 | "chart.PNG" is accepted |
| Upload.LastExtensionDecides | Chart-Prophet/app.py:22 | "chart.png.exe" is refused |
| Trades.SaveTrade | Chart-Prophet/app.py:120-134 | each column comes from its payload key (null when absent); an absent recommendation becomes "HOLD"; an explicit null one is refused by the NOT NULL column |
| Trades.SaveIgnoresUnknownKeys | Chart-Prophet/app.py:120-134 | payload keys with no column make no difference |
| Trades.CreatedAtValue | Chart-Prophet/app.py:94 | `created_at` is null exactly for a row without a timestamp, and otherwise the timestamp's ISO rendering |
| Trades.Listing | Chart-Prophet/app.py:92-107 | the listed record has `id`, `created_at`, and every stored column except `raw_analysis`, each under its payload name |
| Trades.ListingOfSaved | Chart-Prophet/app.py:92-107 | listing a saved row gives back each posted column, "HOLD" for a missing recommendation, the new id, the save time as `created_at`, and no `raw_analysis` |
| Trades.Patch | Chart-Prophet/app.py:160-167 | each editable column in the payload takes its value; every other column, the id and the timestamp are kept |
| Trades.PatchIgnoresOtherKeys | Chart-Prophet/app.py:160-167 | keys outside outcome, profit_loss, exit_price and notes are ignored |
| Trades.PatchIdempotent | Chart-Prophet/app.py:160-167 | applying the same update twice changes nothing more |
| Trades.EmptyPatchIsIdentity | Chart-Prophet/app.py:160-167 | an empty payload leaves the row as it was |
| Trades.FindTrade | Chart-Prophet/app.py:155 | the first row with the id, or none exactly when no row has it |
| Trades.UpdateTrade | Chart-Prophet/app.py:155-167 | "Trade not found" (404) exactly when no row has the id; otherwise that row is patched and every other row is untouched |
| Trades.FilterTrades | Chart-Prophet/app.py:78-86 | the selected rows are exactly the matching rows, in table order |
| Trades.AllMeansNoFilter | Chart-Prophet/app.py:83-86 | "all" or an empty indicator, and "all" as outcome, select the same rows as no parameter |
| Trades.SameFilter | Chart-Prophet/app.py:78-86 | queries that agree on every row select the same rows |
| TradeStats.CountersPartition | Chart-Prophet/app.py:217-220 | wins + losses + pending ≤ total, with equality exactly when every outcome is win, loss, pending or null |
| TradeStats.CountsOf | Chart-Prophet/app.py:226-249 | the tallies of a sequence cover every trade |
| TradeStats.CountsOfOutcomes | Chart-Prophet/app.py:218-219 | the tallies' wins and losses are the win and loss counters |
| TradeStats.Group | Chart-Prophet/app.py:226-249 | each row holds exactly the tallies of the trades with that key, and no empty row is ever created |
| TradeStats.GroupKeys | Chart-Prophet/app.py:227-231 | the table has a row for exactly the keys some trade has |
| TradeStats.OneKeyCountsAll | Chart-Prophet/app.py:240-249 | when every trade has key `k`, its row holds every trade |
| TradeStats.CountsForPresent | Chart-Prophet/app.py:243-245 | a key counts something exactly when some trade has it |
| TradeStats.KeyOrderLists | Chart-Prophet/app.py:230-231 | the first-seen key order lists each present key exactly once |
| TradeStats.GroupTotal | Chart-Prophet/app.py:226-249 | the table's keys in first-seen order are its keys, each once, and its rows add up to the number of keyed trades |
| TradeStats.IndicatorKey | Chart-Prophet/app.py:242 | a falsy indicator is bucketed as "Unknown" |
| TradeStats.ByIndicator | Chart-Prophet/app.py:240-249 | each indicator row holds the tallies of exactly the trades with that indicator, and no row is empty |
| TradeStats.IndicatorRows | Chart-Prophet/app.py:240-249 | the indicator table has a row for exactly the indicators the trades carry, each with exactly their tallies |
| TradeStats.MissingIndicatorIsUnknown | Chart-Prophet/app.py:242 | a trade with no indicator creates the "Unknown" row |
| TradeStats.IndicatorTotals | Chart-Prophet/app.py:240-249 | the indicator rows' totals add up to `total_trades` |
| TradeStats.OneIndicatorRow | Chart-Prophet/app.py:212-213 | statistics filtered to one indicator have only that row, and it holds every selected trade |
| TradeStats.DayOf | Chart-Prophet/app.py:228-229 | a trade has a day exactly when it has a timestamp |
| TradeStats.ByDate | Chart-Prophet/app.py:226-238 | each day row holds the tallies of exactly the trades of that day, and no row is empty |
| TradeStats.DateRows | Chart-Prophet/app.py:226-238 | the date table has a row for exactly the days of the dated trades |
| TradeStats.DateTotals | Chart-Prophet/app.py:226-238 | the date rows add up to the number of dated trades |
| TradeStats.UndatedTradesAreSkipped | Chart-Prophet/app.py:228 | with no dated trade the date table is empty |
| TradeStats.WinRate | Chart-Prophet/app.py:222 | 0 for no trades; otherwise it lies in [0, 100] and `rate * total == wins * 100` |
| TradeStats.ComputeStats | Chart-Prophet/app.py:217-249 | `total_trades` is the number of trades; wins, losses and pending are their counters and add up to at most the total; the win rate is `WinRate` of wins over total, in [0, 100]; the two tables are `ByDate` and `ByIndicator` of the same trades |
| TradeStats.GetStats | Chart-Prophet/app.py:198-250 | over the trades the listing filter selects with no outcome constraint, the total, win, loss and pending counters count those trades, the win rate is computed from them, and both tables are built from them |
| TradeStats.GetStatsMatchesListing | Chart-Prophet/app.py:68-86 | with the same date and indicator filters, the win count equals the number of rows the listing returns for outcome "win", and the loss count the number it returns for outcome "loss" |
| TradeStats.OutcomeFilterCount | Chart-Prophet/app.py:85-86 | counting the trades of one outcome among a listing equals the size of the listing narrowed to that outcome |
| TradeStats.StatsIgnoreOutcome | Chart-Prophet/app.py:201-213 | an outcome in the query does not change the statistics |
| History.RecommendationClass | Chart-Prophet/static/history.js:178-184 | "" exactly for a falsy value; "buy" exactly when the lower-cased value mentions buy; "sell" exactly when it mentions sell but not buy; "hold" otherwise |
| History.BuyBeforeSell | Chart-Prophet/static/history.js:181-182 | a value mentioning both words is a buy, whatever their order |
| History.UnableIsHold | Chart-Prophet/static/history.js:181-183 | "UNABLE TO ANALYZE" gets the hold class |
| History.LabelClasses | Chart-Prophet/static/history.js:180-182 | "Buy" gets the buy class and "SELL" the sell class |
| History.OutcomeClass | Chart-Prophet/static/history.js:186-189 | "pending" for a falsy outcome; otherwise a capital-free class of the outcome's length |
| History.OutcomeClassMatchesText | Chart-Prophet/static/history.js:186-189 | letter for letter, the class is the outcome up to case |
| History.OutcomeClassIdempotent | Chart-Prophet/static/history.js:186-189 | a class fed back as an outcome is its own class |
| History.FormatOutcome | Chart-Prophet/static/history.js:191-194 | "Pending" for a falsy or "pending" outcome; otherwise the same length, with the first character upper-cased and the rest kept |
| History.FormatOutcomeRoundTrip | Chart-Prophet/static/history.js:186-194 | lower-casing a formatted lower-case outcome gives it back, and its class is unchanged |
| History.OutcomeLabels | Chart-Prophet/static/history.js:191-194 | win, loss, pending and none are shown as Win, Loss, Pending, Pending |

## Left out

- The model client, the prompt and `generate_content` are foreign I/O. The service is an oracle parameter (`chart_analyzer.py:9-18, 58-96, 104-116`).
- Tenacity's internals and real sleeping are not modelled. Waits are recorded as whole seconds.
- The pydantic classes are never used to validate anything, so plain datatypes stand in for them.
- Flask routing, `jsonify`, HTTP plumbing, file reading and base64 encoding are I/O and are not modelled (`app.py:24-65, 269-277`).
- The `/analyze` route's handling of a missing or empty upload is out of scope. So is the `request.json` being `None` case of the JSON routes.
- SQLAlchemy sessions, commits and rollbacks are not modelled; the table is an in-memory sequence. Column length limits and type coercion by the database are also left out.
- The 500 replies of the exception handlers are not modelled. The one database error modelled is the NOT NULL recommendation.
- `delete_trade` is outside the modelled core.
- `get_trades` sorts by `created_at` descending; the model keeps table order. The timestamp's `isoformat()` rendering is a function parameter.
- `datetime.fromisoformat`, `timedelta` and `strftime` are not modelled:
  - timestamps are integer seconds;
  - a query date is the timestamp of its midnight;
  - the day key is an opaque function.
- Floating point is not modelled:
  - the `profit_loss` sums, `total_profit_loss` and the per-date `profit_loss` field are left out;
  - `round(win_rate, 2)` and `formatPL` are left out.
- TradeStats.WinRate: the rate is an exact real ratio, not a double rounded to two decimals.
- Analyzer.ParseAnalysis: its own contract states only that the record is well formed and keeps the raw text. Which key is fed by which keywords is stated on ParseAnalysisDefaults, and what each extractor returns is stated on the extractor's own members.
- SummaryExtract.SummaryParts: its own contract states only that it gives at most one part per line. What one line gives is stated on SummaryPartsLine, and that runs of lines compose in order on SummaryPartsAppend.
- ListExtract.ScanLines: its own contract states only that the loop appends, at most one item per line. What each line appends is stated on LineItems and StaysOpen, and how the lines compose on ScanLinesConcat and ScanLinesAppends.
- Stored payload values are JSON scalars (`Value`); Python's type checks on them are not modelled.
- Case mapping is ASCII only, in `lower()`, `upper()`, `toLowerCase()` and `toUpperCase()`. `isdigit()` is ASCII digits only. Unicode case mapping can change a string's length, and the source reuses indices across it.
- The DOM, Chart.js and `fetch` code of `static/history.js`, and all of `static/app.js`, are UI code.
- The `"Analysis complete."` branch of `_extract_summary` is unreachable: `split` always returns at least one piece. FirstSentences states this rather than modelling the branch.
