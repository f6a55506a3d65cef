/** The stored analysis record and its schema (server/src/models/contract.model.ts): the
    custom validator of `intellectualPropertyClauses`, the numeric bounds, the required
    fields and the defaults. A record is modelled before casting: each field holds what
    was given for it, `None` when it was not given. Validation follows the document
    database's rules for these field kinds: a required string must be present and
    non-empty, a bound or a custom validator is not applied to a missing value, and a
    default fills only a missing value. */
module ContractModel {
  import opened Wrappers
  import Fallback
  import ContractAi

  /** The values the untyped (`Mixed`) field can hold, as far as the validator tells
      them apart. */
  datatype JsValue =
    | Undefined
    | Null
    | JsString(s: string)
    | JsNumber(n: real)
    | JsBool(b: bool)
    | JsArray(items: seq<JsValue>)
    | JsObject

  /** `items.every((item) => typeof item === "string")`. */
  function EveryString(items: seq<JsValue>): bool
  {
    items == [] || (items[0].JsString? && EveryString(items[1..]))
  }

  /** The validator of `intellectualPropertyClauses`. */
  function IpClausesValidator(v: JsValue): bool
  {
    v.JsString? || (v.JsArray? && EveryString(v.items))
  }

  lemma {:induction false} EveryStringMeans(items: seq<JsValue>)
    ensures EveryString(items) <==> forall k | 0 <= k < |items| :: items[k].JsString?
    decreases |items|
  {
    if items != [] {
      EveryStringMeans(items[1..]);
      assert forall k | 1 <= k < |items| :: items[k] == items[1..][k - 1];
    }
  }

  /** The validator accepts exactly a string, or an array all of whose elements are
      strings; so the empty array is accepted, and numbers, booleans, `null`, objects
      and arrays holding anything but strings are rejected. */
  lemma IpClausesAccepted(v: JsValue)
    ensures IpClausesValidator(v) <==>
      v.JsString? || (v.JsArray? && forall k | 0 <= k < |v.items| :: v.items[k].JsString?)
    ensures IpClausesValidator(JsArray([]))
  {
    if v.JsArray? {
      EveryStringMeans(v.items);
    }
  }

  /** The validator's message, given the value as the template shows it. */
  function IpClausesMessage(shown: string): (m: string)
    ensures |m| > |shown| && m[..|shown|] == shown
    ensures m[|shown|..] == " is not a valid string or array of strings!"
  {
    shown + " is not a valid string or array of strings!"
  }

  // ---------------------------------------------------------------------------------
  // The record

  /** Risk and opportunity entries: three free strings each. */
  datatype RiskEntry = RiskEntry(risk: Option<string>, explanation: Option<string>, severity: Option<string>)
  datatype OpportunityEntry = OpportunityEntry(opportunity: Option<string>, explanation: Option<string>, impact: Option<string>)

  datatype Feedback = Feedback(rating: Option<real>, comments: Option<string>)

  /** The fields the schema constrains, the risks and opportunities, and the fields
      with defaults. */
  datatype AnalysisRecord = AnalysisRecord(
    userId: Option<string>,
    contractText: Option<string>,
    risks: seq<RiskEntry>,
    opportunities: seq<OpportunityEntry>,
    summary: Option<string>,
    overallScore: Option<real>,
    intellectualPropertyClauses: JsValue,
    version: Option<real>,
    userFeedback: Option<Feedback>,
    language: Option<string>,
    aiModel: Option<string>,
    contractType: Option<string>)

  /** The paths a record can fail validation on. */
  datatype Path = UserId | ContractText | Summary | OverallScore | IpClauses | Rating | ContractType

  /** A required string: given and not empty. */
  predicate RequiredString(s: Option<string>)
  {
    s.Some? && s.value != ""
  }

  /** A bounded number: missing, or within the bounds. */
  predicate WithinBounds(n: Option<real>, min: real, max: real)
  {
    n.None? || (min <= n.value <= max)
  }

  function Violations(r: AnalysisRecord): set<Path>
  {
    (if r.userId.None? then {UserId} else {})
    + (if !RequiredString(r.contractText) then {ContractText} else {})
    + (if !RequiredString(r.summary) then {Summary} else {})
    + (if !RequiredString(r.contractType) then {ContractType} else {})
    + (if !WithinBounds(r.overallScore, 0.0, 100.0) then {OverallScore} else {})
    + (if r.userFeedback.Some? && !WithinBounds(r.userFeedback.value.rating, 1.0, 5.0) then {Rating} else {})
    + (if r.intellectualPropertyClauses != Undefined && !IpClausesValidator(r.intellectualPropertyClauses) then {IpClauses} else {})
  }

  predicate Valid(r: AnalysisRecord)
  {
    Violations(r) == {}
  }

  /** A record is storable exactly when the user, the contract text, the summary and the
      type are given, the score is within [0, 100], a rating within [1, 5], and the
      clauses, if given, are a string or an array of strings. */
  lemma ValidExactly(r: AnalysisRecord)
    ensures Valid(r) <==>
      r.userId.Some? && RequiredString(r.contractText) && RequiredString(r.summary) && RequiredString(r.contractType)
      && (r.overallScore.Some? ==> 0.0 <= r.overallScore.value <= 100.0)
      && (r.userFeedback.Some? && r.userFeedback.value.rating.Some? ==> 1.0 <= r.userFeedback.value.rating.value <= 5.0)
      && (r.intellectualPropertyClauses == Undefined || r.intellectualPropertyClauses.JsString?
          || (r.intellectualPropertyClauses.JsArray?
              && forall k | 0 <= k < |r.intellectualPropertyClauses.items| :: r.intellectualPropertyClauses.items[k].JsString?))
  {
    IpClausesAccepted(r.intellectualPropertyClauses);
    if !Valid(r) {
      var p :| p in Violations(r);
    }
  }

  /** The bounds are inclusive at both ends. */
  lemma BoundsInclusive(r: AnalysisRecord, score: real, rating: real)
    requires score == 0.0 || score == 100.0
    requires rating == 1.0 || rating == 5.0
    ensures OverallScore !in Violations(r.(overallScore := Some(score)))
    ensures Rating !in Violations(r.(userFeedback := Some(Feedback(Some(rating), None))))
    ensures OverallScore in Violations(r.(overallScore := Some(100.5)))
    ensures Rating in Violations(r.(userFeedback := Some(Feedback(Some(0.0), None))))
  {
  }

  // ---------------------------------------------------------------------------------
  // Defaults

  const DefaultVersion: real := 1.0
  const DefaultLanguage: string := "en"
  const DefaultAiModel: string := "gemini-pro"

  function Default<T>(given: Option<T>, default: T): (r: Option<T>)
    ensures r.Some?
    ensures given.Some? ==> r == given
  {
    if given.Some? then given else Some(default)
  }

  function WithDefaults(r: AnalysisRecord): AnalysisRecord
  {
    r.(version := Default(r.version, DefaultVersion),
       language := Default(r.language, DefaultLanguage),
       aiModel := Default(r.aiModel, DefaultAiModel))
  }

  /** A new record gets version 1, language "en" and the model the analysis uses,
      where they were not given; given values are kept, applying the defaults again
      changes nothing, and defaults never make a record valid or invalid. */
  lemma DefaultsFillMissing(r: AnalysisRecord)
    ensures r.version.None? ==> WithDefaults(r).version == Some(DefaultVersion)
    ensures r.language.None? ==> WithDefaults(r).language == Some(DefaultLanguage)
    ensures r.aiModel.None? ==> WithDefaults(r).aiModel == Some(ContractAi.AiModel)
    ensures r.version.Some? ==> WithDefaults(r).version == r.version
    ensures r.language.Some? ==> WithDefaults(r).language == r.language
    ensures r.aiModel.Some? ==> WithDefaults(r).aiModel == r.aiModel
    ensures WithDefaults(WithDefaults(r)) == WithDefaults(r)
    ensures Violations(WithDefaults(r)) == Violations(r)
  {
  }

  // ---------------------------------------------------------------------------------
  // Severity and impact

  /** Risk and opportunity entries never cause a violation: severities and impacts
      are free strings, and may be missing. */
  lemma EntriesUnconstrained(r: AnalysisRecord, risks: seq<RiskEntry>, opportunities: seq<OpportunityEntry>)
    ensures Violations(r.(risks := risks, opportunities := opportunities)) == Violations(r)
  {
  }

  /** The entries the server's pattern extractor produces, which have no severity or
      impact, can be stored. */
  lemma ExtractedEntriesStorable(r: AnalysisRecord, f: Fallback.FallbackAnalysis)
    requires Valid(r)
    ensures Valid(r.(
      risks := seq(|f.risks|, i requires 0 <= i < |f.risks| =>
        RiskEntry(Some(f.risks[i].risk), Some(f.risks[i].explanation), None)),
      opportunities := seq(|f.opportunities|, i requires 0 <= i < |f.opportunities| =>
        OpportunityEntry(Some(f.opportunities[i].opportunity), Some(f.opportunities[i].explanation), None))))
  {
  }
}
