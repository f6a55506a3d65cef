/** The figures and badges of the contracts dashboard
    (client/src/components/dashboard/user-contracts.tsx): the colour of a contract-type
    badge, the variant of a score badge, and the three summary cards (total, average
    score, high-risk count). `contracts` is the fetched list, `None` while the query has
    no data. */
module UserContracts {
  import opened Wrappers
  import ResultsView

  /** What the dashboard reads of a stored analysis. `overallScore` may be missing;
      `severities` holds the severity of each risk, in order. */
  datatype ContractSummary = ContractSummary(overallScore: Option<real>, severities: seq<Option<string>>, contractType: string)

  // ---------------------------------------------------------------------------------
  // contractTypeColors

  const OtherColour: string := "bg-gray-100 text-gray-800 hover:bg-gray-200"

  const ContractTypeColours: map<string, string> := map[
    "Employment" := "bg-blue-100 text-blue-800 hover:bg-blue-200",
    "Non-Disclosure Agreement" := "bg-green-100 text-green-800 hover:bg-green-200",
    "Sales" := "bg-yellow-100 text-yellow-800 hover:bg-yellow-200",
    "Lease" := "bg-emerald-100 text-emerald-800 hover:bg-emerald-200",
    "Services" := "bg-pink-100 text-pink-800 hover:bg-pink-200",
    "Other" := OtherColour
  ]

  /** `contractTypeColors[contractType] || contractTypeColors["Other"]`. */
  function TypeColour(contractType: string): string
  {
    if contractType in ContractTypeColours && ContractTypeColours[contractType] != "" then
      ContractTypeColours[contractType]
    else
      ContractTypeColours["Other"]
  }

  /** Each of the six known labels has its own colour; any other label, such as a
      free-form answer of the classifier, gets the colour of "Other". */
  lemma TypeColourLookup(a: string, b: string)
    ensures a !in ContractTypeColours ==> TypeColour(a) == OtherColour
    ensures a in ContractTypeColours ==> TypeColour(a) == ContractTypeColours[a]
    ensures a in ContractTypeColours && b in ContractTypeColours && TypeColour(a) == TypeColour(b) ==> a == b
  {
  }

  // ---------------------------------------------------------------------------------
  // The score badge

  datatype Variant = SuccessBadge | DestructiveBadge | SecondaryBadge

  /** `score > 75 ? "success" : score < 50 ? "destructive" : "secondary"`, where the
      score is `parseFloat` of the stored value: a missing score parses to NaN, which
      fails both comparisons. */
  function BadgeVariant(score: Option<real>): Variant
  {
    match score
    case None => SecondaryBadge
    case Some(s) => if s > 75.0 then SuccessBadge else if s < 50.0 then DestructiveBadge else SecondaryBadge
  }

  /** The badge is green above 75, red below 50, and neutral otherwise, including for a
      missing score. */
  lemma BadgeThresholds(score: Option<real>)
    ensures BadgeVariant(score) == SuccessBadge <==> score.Some? && score.value > 75.0
    ensures BadgeVariant(score) == DestructiveBadge <==> score.Some? && score.value < 50.0
    ensures score.None? ==> BadgeVariant(score) == SecondaryBadge
  {
  }

  /** The dashboard's threshold differs from the results page's: a score above 70 and
      at most 75 is "Good" there but only neutral here. */
  lemma ThresholdsDisagree(s: real)
    requires 70.0 < s <= 75.0
    ensures ResultsView.GetScore(s).text == "Good"
    ensures BadgeVariant(Some(s)) == SecondaryBadge
  {
  }

  // ---------------------------------------------------------------------------------
  // The summary cards

  /** `contracts?.length || 0`. */
  function TotalContracts(contracts: Option<seq<ContractSummary>>): nat
  {
    match contracts
    case None => 0
    case Some(cs) => |cs|
  }

  function ScoreOf(c: ContractSummary): real
  {
    match c.overallScore
    case Some(s) => s
    case None => 0.0
  }

  /** The `reduce`: the scores added from the first contract on, a missing one as 0. */
  function ScoreSum(cs: seq<ContractSummary>): real
  {
    if cs == [] then 0.0 else ScoreSum(cs[..|cs| - 1]) + ScoreOf(cs[|cs| - 1])
  }

  function AverageScore(contracts: Option<seq<ContractSummary>>): real
  {
    var total := TotalContracts(contracts);
    if total > 0 then ScoreSum(contracts.value) / total as real else 0.0
  }

  predicate HasHighRisk(c: ContractSummary)
  {
    exists k | 0 <= k < |c.severities| :: c.severities[k] == Some("high")
  }

  /** The length of the `filter`: how many contracts have a risk of severity "high". */
  function HighRiskCount(cs: seq<ContractSummary>): nat
  {
    if cs == [] then 0 else HighRiskCount(cs[..|cs| - 1]) + (if HasHighRisk(cs[|cs| - 1]) then 1 else 0)
  }

  function HighRiskContracts(contracts: Option<seq<ContractSummary>>): nat
  {
    match contracts
    case None => 0
    case Some(cs) => HighRiskCount(cs)
  }

  predicate ScoresInRange(cs: seq<ContractSummary>)
  {
    forall k | 0 <= k < |cs| :: 0.0 <= ScoreOf(cs[k]) <= 100.0
  }

  lemma {:induction false} ScoreSumBounds(cs: seq<ContractSummary>)
    requires ScoresInRange(cs)
    ensures 0.0 <= ScoreSum(cs) <= 100.0 * |cs| as real
    decreases |cs|
  {
    if cs != [] {
      var init := cs[..|cs| - 1];
      assert forall k | 0 <= k < |init| :: init[k] == cs[k];
      ScoreSumBounds(init);
      assert 0.0 <= ScoreOf(cs[|cs| - 1]) <= 100.0;
    }
  }

  /** No contracts average 0; otherwise, when every score is between 0 and 100 (a
      missing one counting as 0), so is the average. */
  lemma AverageInRange(contracts: Option<seq<ContractSummary>>)
    requires contracts.Some? ==> ScoresInRange(contracts.value)
    ensures TotalContracts(contracts) == 0 ==> AverageScore(contracts) == 0.0
    ensures 0.0 <= AverageScore(contracts) <= 100.0
  {
    var total := TotalContracts(contracts);
    if total > 0 {
      var cs := contracts.value;
      ScoreSumBounds(cs);
      var n := total as real;
      var avg := ScoreSum(cs) / n;
      assert avg * n == ScoreSum(cs);
      assert (100.0 - avg) * n == 100.0 * n - ScoreSum(cs);
    }
  }

  lemma {:induction false} ScoreSumConstant(cs: seq<ContractSummary>, s: real)
    requires forall k | 0 <= k < |cs| :: ScoreOf(cs[k]) == s
    ensures ScoreSum(cs) == s * |cs| as real
    decreases |cs|
  {
    if cs != [] {
      var init := cs[..|cs| - 1];
      assert forall k | 0 <= k < |init| :: init[k] == cs[k];
      ScoreSumConstant(init, s);
    }
  }

  /** Contracts that all score the same average exactly that score. */
  lemma AverageOfEqualScores(cs: seq<ContractSummary>, s: real)
    requires cs != []
    requires forall k | 0 <= k < |cs| :: ScoreOf(cs[k]) == s
    ensures AverageScore(Some(cs)) == s
  {
    ScoreSumConstant(cs, s);
  }

  lemma {:induction false} HighRiskBounded(cs: seq<ContractSummary>)
    ensures HighRiskCount(cs) <= |cs|
    ensures HighRiskCount(cs) == |cs| <==> forall k | 0 <= k < |cs| :: HasHighRisk(cs[k])
    ensures HighRiskCount(cs) == 0 <==> forall k | 0 <= k < |cs| :: !HasHighRisk(cs[k])
    decreases |cs|
  {
    if cs != [] {
      var init := cs[..|cs| - 1];
      assert forall k | 0 <= k < |init| :: init[k] == cs[k];
      HighRiskBounded(init);
    }
  }

  /** The high-risk card never shows more than the total card; it shows the total
      exactly when every contract has a high-severity risk, and 0 while there is no
      data. */
  lemma HighRiskAtMostTotal(contracts: Option<seq<ContractSummary>>)
    ensures HighRiskContracts(contracts) <= TotalContracts(contracts)
    ensures contracts.Some? ==>
      (HighRiskContracts(contracts) == TotalContracts(contracts) <==>
       forall k | 0 <= k < |contracts.value| :: HasHighRisk(contracts.value[k]))
    ensures contracts.None? ==> HighRiskContracts(contracts) == 0 && TotalContracts(contracts) == 0
  {
    if contracts.Some? {
      HighRiskBounded(contracts.value);
    }
  }
}
