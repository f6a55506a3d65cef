/** The decisions the analysis results page makes
    (client/src/components/analysis/contract-analysis-results.tsx): the score band, the
    severity colours, which risks and opportunities a viewer sees, the blurred
    placeholder that stands for the hidden ones, and the two percentages. Rendering
    itself (markup, animation, tabs) is not modelled; a list is modelled by the rows it
    shows. */
module ResultsView {
  import opened Wrappers
  import Fallback

  // ---------------------------------------------------------------------------------
  // getScore

  datatype Icon = ArrowUp | ArrowDown | Minus

  /** The icon, text colour and label shown next to the overall score. */
  datatype ScoreTrend = ScoreTrend(icon: Icon, colour: string, text: string)

  function GetScore(score: real): ScoreTrend
  {
    if score > 70.0 then ScoreTrend(ArrowUp, "text-green-500", "Good")
    else if score < 50.0 then ScoreTrend(ArrowDown, "text-red-500", "Bad")
    else ScoreTrend(Minus, "text-yellow-500", "Average")
  }

  /** The position of a label on the scale Bad < Average < Good. */
  function Rank(t: ScoreTrend): (rank: nat)
    ensures rank <= 2
  {
    if t.text == "Good" then 2 else if t.text == "Average" then 1 else 0
  }

  /** Exactly one band applies to every score: above 70 is good, below 50 is bad, and
      50 to 70 inclusive is average. The icon and the colour agree with the label. */
  lemma ScoreBands(score: real)
    ensures GetScore(score).text in {"Good", "Average", "Bad"}
    ensures GetScore(score).text == "Good" <==> score > 70.0
    ensures GetScore(score).text == "Bad" <==> score < 50.0
    ensures GetScore(score).text == "Average" <==> 50.0 <= score <= 70.0
    ensures GetScore(score).icon == ArrowUp <==> GetScore(score).text == "Good"
    ensures GetScore(score).icon == ArrowDown <==> GetScore(score).text == "Bad"
  {
  }

  /** A higher score never gets a worse label. */
  lemma ScoreTrendMonotone(a: real, b: real)
    requires a <= b
    ensures Rank(GetScore(a)) <= Rank(GetScore(b))
  {
  }

  // ---------------------------------------------------------------------------------
  // getSeverityColor / getImpactColor

  /** The badge class for a severity or impact level; `None` where the switch falls
      through (`undefined`), which includes a missing level. The page defines this map
      twice, once for severities and once for impacts, with the same cases. */
  function LevelColour(level: Option<string>): Option<string>
  {
    match level
    case Some("high") => Some("bg-red-100 text-red-800")
    case Some("medium") => Some("bg-yellow-100 text-yellow-800")
    case Some("low") => Some("bg-green-100 text-green-800")
    case _ => None
  }

  /** Only the three levels get a colour, and each its own. */
  lemma LevelColours(a: Option<string>, b: Option<string>)
    ensures LevelColour(a).Some? <==> a.Some? && a.value in {"high", "medium", "low"}
    ensures LevelColour(a).Some? && LevelColour(a) == LevelColour(b) ==> a == b
  {
  }

  // ---------------------------------------------------------------------------------
  // renderRisksAndOpportunities

  datatype ListKind = RiskList | OpportunityList

  /** A risk or an opportunity as the page receives it; every field may be missing. */
  datatype Item = Item(risk: Option<string>, opportunity: Option<string>, explanation: Option<string>,
                       severity: Option<string>, impact: Option<string>)

  datatype Badge = Badge(colour: Option<string>, text: string)

  /** One list entry as displayed: the title, the badge if any, the explanation if
      any, and whether it is drawn blurred. */
  datatype Row = Row(title: Option<string>, badge: Option<Badge>, explanation: Option<string>, blurred: bool)

  datatype ListView = ListView(rows: seq<Row>, placeholder: Option<Row>)

  /** JavaScript truthiness of an optional string. */
  predicate Truthy(s: Option<string>)
  {
    s.Some? && s.value != ""
  }

  function UpperChar(c: char): char
  {
    if 'a' <= c <= 'z' then (c as int - 'a' as int + 'A' as int) as char else c
  }

  /** `toUpperCase` on ASCII letters. */
  function Upper(s: string): (u: string)
    ensures |u| == |s|
    ensures forall i | 0 <= i < |s| && 'a' <= s[i] <= 'z' :: u[i] as int == s[i] as int - 32
    ensures forall i | 0 <= i < |s| && !('a' <= s[i] <= 'z') :: u[i] == s[i]
  {
    seq(|s|, i requires 0 <= i < |s| => UpperChar(s[i]))
  }

  /** Upper-casing twice changes nothing more, and no lower-case ASCII letter is left. */
  lemma UpperIdempotent(s: string)
    ensures Upper(Upper(s)) == Upper(s)
    ensures forall i | 0 <= i < |s| :: !('a' <= Upper(s)[i] <= 'z')
  {
  }

  /** `isActive ? items : items.slice(0, 3)`. */
  function DisplayItems(items: seq<Item>, isActive: bool): seq<Item>
  {
    if isActive || |items| <= 3 then items else items[..3]
  }

  /** Premium viewers see every item; others see the first three, in order. */
  lemma VisibleItems(items: seq<Item>, isActive: bool)
    ensures isActive ==> DisplayItems(items, isActive) == items
    ensures !isActive ==> |DisplayItems(items, isActive)| == (if |items| < 3 then |items| else 3)
    ensures DisplayItems(items, isActive) <= items
  {
  }

  /** The free view is always a prefix of the premium view. */
  lemma FreeViewWithinPremium(items: seq<Item>)
    ensures DisplayItems(items, false) <= DisplayItems(items, true)
    ensures |DisplayItems(items, true)| - |DisplayItems(items, false)| ==
      (if |items| > 3 then |items| - 3 else 0)
  {
  }

  /** The row of a received item. The badge is shown when the item has a severity or
      an impact; its class comes from the severity on the risks tab and from the impact
      on the opportunities tab, and its text is the first of the two that is set. */
  function RowOf(item: Item, kind: ListKind): Row
  {
    var badge :=
      if Truthy(item.severity) || Truthy(item.impact) then
        var level := if Truthy(item.severity) then item.severity.value else item.impact.value;
        Some(Badge(if kind == RiskList then LevelColour(item.severity) else LevelColour(item.impact), Upper(level)))
      else None;
    Row(if kind == RiskList then item.risk else item.opportunity, badge, item.explanation, false)
  }

  /** The blurred entry standing for the hidden items: a fixed title, a plain "LOW"
      badge and no explanation. */
  function Placeholder(kind: ListKind): Row
  {
    Row(Some(if kind == RiskList then "Hidden Risk" else "Hidden Opportunity"), Some(Badge(None, "LOW")), None, true)
  }

  function RenderList(items: seq<Item>, kind: ListKind, isActive: bool): (view: ListView)
    ensures |view.rows| == if isActive || |items| <= 3 then |items| else 3
    ensures forall i | 0 <= i < |view.rows| :: view.rows[i] == RowOf(items[i], kind)
  {
    var shown := DisplayItems(items, isActive);
    ListView(seq(|shown|, i requires 0 <= i < |shown| => RowOf(shown[i], kind)),
             if !isActive && |items| > 3 then Some(Placeholder(kind)) else None)
  }

  /** The placeholder appears exactly when some items are hidden, that is for a
      non-premium viewer of more than three items, and it names the tab's kind. */
  lemma PlaceholderWhenHidden(items: seq<Item>, kind: ListKind, isActive: bool)
    ensures RenderList(items, kind, isActive).placeholder.Some? <==> !isActive && |items| > 3
    ensures RenderList(items, kind, isActive).placeholder.Some? <==> |RenderList(items, kind, isActive).rows| < |items|
    ensures RenderList(items, kind, isActive).placeholder.Some? ==>
      RenderList(items, kind, isActive).placeholder.value.title ==
        Some(if kind == RiskList then "Hidden Risk" else "Hidden Opportunity")
    ensures forall i | 0 <= i < |RenderList(items, kind, isActive).rows| :: !RenderList(items, kind, isActive).rows[i].blurred
  {
  }

  /** A badge is shown exactly when the item has a severity or an impact; on the risks
      tab an item whose severity is one of the three levels gets that level's colour. */
  lemma BadgeWhenLevelled(item: Item, kind: ListKind)
    ensures RowOf(item, kind).badge.Some? <==> Truthy(item.severity) || Truthy(item.impact)
    ensures kind == RiskList && item.severity.Some? && item.severity.value in {"high", "medium", "low"} ==>
      RowOf(item, kind).badge == Some(Badge(LevelColour(item.severity), Upper(item.severity.value)))
  {
  }

  /** The items the server's pattern extractor produces carry no severity and no
      impact, so their rows have no badge. */
  lemma ExtractedItemsHaveNoBadge(r: Fallback.Risk, o: Fallback.Opportunity)
    ensures RowOf(Item(Some(r.risk), None, Some(r.explanation), None, None), RiskList).badge.None?
    ensures RowOf(Item(None, Some(o.opportunity), Some(o.explanation), None, None), OpportunityList).badge.None?
  {
  }

  // ---------------------------------------------------------------------------------
  // The Risk and Opportunities percentages

  function RiskPercentage(score: real): real
  {
    100.0 - score
  }

  function OpportunityPercentage(score: real): real
  {
    score
  }

  /** The two percentages always add up to 100, and both are in [0, 100] exactly when
      the score is. */
  lemma PercentagesComplement(score: real)
    ensures RiskPercentage(score) + OpportunityPercentage(score) == 100.0
    ensures (0.0 <= RiskPercentage(score) <= 100.0 && 0.0 <= OpportunityPercentage(score) <= 100.0)
      <==> 0.0 <= score <= 100.0
  {
  }
}
