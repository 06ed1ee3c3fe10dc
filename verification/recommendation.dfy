/** The overall recommendation (`_extract_recommendation`): a priority
    cascade of substring tests over the upper-cased response. */
module Recommendation {
  import opened Text

  /** Every value the extractor can produce. */
  const Labels: set<string> := {"STRONG BUY", "STRONG SELL", "BUY", "SELL", "HOLD"}

  /** The SELL test for a plain BUY covers `upper[:upper.find("BUY") + 50]`. */
  const BuyLookahead: nat := 50

  function ExtractRecommendation(text: string): (r: string)
    ensures r in Labels
  {
    var u := Upper(text);
    if Contains(u, "STRONG BUY") then "STRONG BUY"
    else if Contains(u, "STRONG SELL") then "STRONG SELL"
    else if Contains(u, "BUY")
            && !Contains(Take(u, FirstIndex(u, "BUY") + BuyLookahead), "SELL") then "BUY"
    else if Contains(u, "SELL") then "SELL"
    else if Contains(u, "HOLD") then "HOLD"
    else "HOLD"
  }

  /** Some "SELL" lies wholly inside the first `find("BUY") + 50` characters
      of the upper-cased text: before the first BUY as well as after it. */
  ghost predicate SellNearFirstBuy(u: string)
    requires Mentions(u, "BUY")
  {
    exists j :: OccursAt(u, "SELL", j) && j + 4 <= FirstIndex(u, "BUY") + BuyLookahead
  }

  /** The SELL test of the BUY branch, over occurrences: `"SELL" in
      upper[:find("BUY") + 50]` holds exactly when some SELL ends within the
      first `find("BUY") + 50` characters. */
  lemma SellLookahead(u: string)
    requires Contains(u, "BUY")
    ensures Contains(Take(u, FirstIndex(u, "BUY") + BuyLookahead), "SELL") <==> SellNearFirstBuy(u)
  {
    ContainsSlice(u, "SELL", 0, FirstIndex(u, "BUY") + BuyLookahead);
  }

  /** The cascade: STRONG BUY beats everything, then STRONG SELL, then a BUY
      with no SELL near the first BUY, then any SELL; the result is HOLD
      exactly when neither BUY nor SELL occurs, whether or not the text
      says HOLD. */
  lemma RecommendationPriority(text: string)
    ensures var u := Upper(text); var r := ExtractRecommendation(text);
      && (Contains(u, "STRONG BUY") ==> r == "STRONG BUY")
      && (r == "STRONG SELL" <==> !Contains(u, "STRONG BUY") && Contains(u, "STRONG SELL"))
      && (r == "BUY" <==>
            && !Contains(u, "STRONG BUY") && !Contains(u, "STRONG SELL")
            && Contains(u, "BUY") && !SellNearFirstBuy(u))
      && (r == "SELL" <==>
            && !Contains(u, "STRONG BUY") && !Contains(u, "STRONG SELL")
            && Contains(u, "SELL") && (Contains(u, "BUY") ==> SellNearFirstBuy(u)))
      && (r == "HOLD" <==> !Contains(u, "BUY") && !Contains(u, "SELL"))
  {
    var u := Upper(text);
    StrongImpliesPlain(u);
    if Contains(u, "BUY") {
      SellLookahead(u);
      SellNearMeansSell(u);
    }
  }

  /** "STRONG BUY" contains "BUY" and "STRONG SELL" contains "SELL". */
  lemma StrongImpliesPlain(u: string)
    ensures Contains(u, "STRONG BUY") ==> Contains(u, "BUY")
    ensures Contains(u, "STRONG SELL") ==> Contains(u, "SELL")
  {
    if Contains(u, "STRONG BUY") {
      OccursWithin(u, "STRONG BUY", "BUY", FirstIndex(u, "STRONG BUY"), 7);
    }
    if Contains(u, "STRONG SELL") {
      OccursWithin(u, "STRONG SELL", "SELL", FirstIndex(u, "STRONG SELL"), 7);
    }
  }

  lemma SellNearMeansSell(u: string)
    requires Mentions(u, "BUY")
    ensures SellNearFirstBuy(u) ==> Contains(u, "SELL")
  {
  }

  /** A SELL anywhere before the first BUY vetoes the BUY reading: the
      look-ahead is a prefix of the text, not a window after BUY. */
  lemma SellBeforeBuyVetoesBuy(text: string, j: int)
    requires Contains(Upper(text), "BUY")
    requires OccursAt(Upper(text), "SELL", j) && j < FirstIndex(Upper(text), "BUY")
    ensures ExtractRecommendation(text) != "BUY"
    ensures !Contains(Upper(text), "STRONG BUY") ==> ExtractRecommendation(text) in {"STRONG SELL", "SELL"}
  {
    RecommendationPriority(text);
    assert SellNearFirstBuy(Upper(text));
  }
}
