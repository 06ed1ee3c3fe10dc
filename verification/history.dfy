/** The display helpers of the trade history page: the CSS class of a
    recommendation badge, the CSS class of an outcome badge, and the
    outcome's label. A JavaScript argument that is `null`, `undefined` or
    the empty string is falsy; any other string is truthy. */
module History {
  import opened Wrappers
  import opened Text

  /** `!value` for a string-or-null argument. */
  predicate Falsy(v: Option<string>) {
    v.None? || v.value == ""
  }

  /** No ASCII capital letter anywhere in `s`. */
  predicate NoCapitals(s: string) {
    forall i :: 0 <= i < |s| ==> !('A' <= s[i] <= 'Z')
  }

  // ---------------------------------------------------------------------
  // getRecommendationClass
  // ---------------------------------------------------------------------

  /** `getRecommendationClass`: no class for a missing recommendation;
      otherwise "buy" when the lower-cased text mentions buy anywhere,
      then "sell", and "hold" for everything else. */
  function RecommendationClass(rec: Option<string>): (c: string)
    ensures c in {"", "buy", "sell", "hold"}
    ensures c == "" <==> Falsy(rec)
    ensures !Falsy(rec) ==>
      && (c == "buy" <==> Mentions(Lower(rec.value), "buy"))
      && (c == "sell" <==> !Mentions(Lower(rec.value), "buy") && Mentions(Lower(rec.value), "sell"))
  {
    if Falsy(rec) then ""
    else
      var lo := Lower(rec.value);
      if Contains(lo, "buy") then "buy"
      else if Contains(lo, "sell") then "sell"
      else "hold"
  }

  /** A recommendation that mentions both words is shown as a buy,
      whatever their order. */
  lemma BuyBeforeSell(rec: string, i: int, j: int)
    requires OccursAt(Lower(rec), "buy", i) && OccursAt(Lower(rec), "sell", j)
    ensures RecommendationClass(Some(rec)) == "buy"
  {
    assert rec != "" by {
      assert |Lower(rec)| == |rec|;
    }
  }

  /** The analyzer's failure label gets the neutral "hold" class. */
  lemma UnableIsHold(rec: string)
    requires rec == "UNABLE TO ANALYZE"
    ensures RecommendationClass(Some(rec)) == "hold"
  {
    var lo := Lower(rec);
    assert lo == "unable to analyze";
    UnableMentionsNeither(lo);
  }

  /** Neither word occurs in the lower-cased failure label. */
  lemma UnableMentionsNeither(lo: string)
    requires lo == "unable to analyze"
    ensures !Contains(lo, "buy") && !Contains(lo, "sell")
  {
    forall i | 0 <= i && i + 3 <= |lo| ensures !OccursAt(lo, "buy", i) {
      assert lo[i..i + 3][0] == lo[i] && lo[i..i + 3][1] == lo[i + 1];
    }
    MissingCharRulesOut(lo, "sell", 0);
  }

  /** The stored recommendation labels get their own classes, in any
      case. */
  lemma LabelClasses(b: string, s: string)
    requires b == "Buy" && s == "SELL"
    ensures RecommendationClass(Some(b)) == "buy"
    ensures RecommendationClass(Some(s)) == "sell"
  {
    assert OccursAt(Lower(b), "buy", 0);
    assert !Contains(Lower(s), "buy") by {
      MissingCharRulesOut(Lower(s), "buy", 0);
    }
    assert OccursAt(Lower(s), "sell", 0);
  }

  // ---------------------------------------------------------------------
  // getOutcomeClass
  // ---------------------------------------------------------------------

  /** `getOutcomeClass`: "pending" for a missing outcome, otherwise the
      outcome lower-cased. */
  function OutcomeClass(outcome: Option<string>): (c: string)
    ensures |c| > 0
    ensures NoCapitals(c)
    ensures Falsy(outcome) ==> c == "pending"
    ensures !Falsy(outcome) ==> |c| == |outcome.value|
  {
    if Falsy(outcome) then "pending" else Lower(outcome.value)
  }

  /** The class names agree with the text up to case: letter for letter
      the class is the outcome's lower-case form. */
  lemma OutcomeClassMatchesText(outcome: string, i: int)
    requires outcome != "" && 0 <= i < |outcome|
    ensures LowerChar(OutcomeClass(Some(outcome))[i]) == LowerChar(outcome[i])
  {
  }

  /** A class, fed back as an outcome, is its own class. */
  lemma OutcomeClassIdempotent(outcome: Option<string>)
    ensures OutcomeClass(Some(OutcomeClass(outcome))) == OutcomeClass(outcome)
  {
    var c := OutcomeClass(outcome);
    assert Lower(c) == c by {
      forall i | 0 <= i < |c| ensures Lower(c)[i] == c[i] {
        assert !('A' <= c[i] <= 'Z');
      }
    }
  }

  // ---------------------------------------------------------------------
  // formatOutcome
  // ---------------------------------------------------------------------

  /** `formatOutcome`: "Pending" for a missing or "pending" outcome;
      otherwise the outcome with its first character upper-cased. */
  function FormatOutcome(outcome: Option<string>): (r: string)
    ensures Falsy(outcome) || outcome.value == "pending" ==> r == "Pending"
    ensures !Falsy(outcome) && outcome.value != "pending" ==>
      && |r| == |outcome.value|
      && r[0] == UpperChar(outcome.value[0])
      && r[1..] == outcome.value[1..]
  {
    if Falsy(outcome) || outcome.value == "pending" then "Pending"
    else [UpperChar(outcome.value[0])] + outcome.value[1..]
  }

  /** Formatting a lower-case outcome and lower-casing it again gives the
      outcome back, and it gives the same class. */
  lemma FormatOutcomeRoundTrip(outcome: string)
    requires outcome != "" && NoCapitals(outcome)
    ensures Lower(FormatOutcome(Some(outcome))) == outcome
    ensures OutcomeClass(Some(FormatOutcome(Some(outcome)))) == OutcomeClass(Some(outcome))
  {
    var r := FormatOutcome(Some(outcome));
    if outcome == "pending" {
      assert Lower(r) == "pending";
    } else {
      forall i | 0 <= i < |r| ensures Lower(r)[i] == outcome[i] {
        if i > 0 {
          assert r[i] == r[1..][i - 1] == outcome[1..][i - 1];
        }
      }
    }
    assert Lower(outcome) == outcome by {
      forall i | 0 <= i < |outcome| ensures Lower(outcome)[i] == outcome[i] {
        assert !('A' <= outcome[i] <= 'Z');
      }
    }
  }

  /** The outcomes the journal stores are shown as "Win", "Loss" and
      "Pending". */
  lemma OutcomeLabels()
    ensures FormatOutcome(Some("win")) == "Win"
    ensures FormatOutcome(Some("loss")) == "Loss"
    ensures FormatOutcome(Some("pending")) == "Pending"
    ensures FormatOutcome(None) == "Pending"
  {
    assert "win"[1..] == "in";
    assert "loss"[1..] == "oss";
  }
}
