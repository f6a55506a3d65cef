/** The pattern extractor `analyzeContractWithAI` falls back on when the repaired reply
    does not parse (server/src/services/ai.services.ts:133-192). It searches the text for
    `"risks"`, `"opportunities"` and `"summary"` fields with regular expressions, cuts
    each list at `},` and searches every piece for its fields. */
module Fallback {
  import opened Wrappers
  import opened Text

  datatype Risk = Risk(risk: string, explanation: string)
  datatype Opportunity = Opportunity(opportunity: string, explanation: string)
  datatype FallbackAnalysis = FallbackAnalysis(risks: seq<Risk>, opportunities: seq<Opportunity>, summary: string)

  /** Value of a field the extractor could not find in a list entry. */
  const Unknown: string := "Unknown"

  /** Summary of a reply the extractor found no summary in. */
  const NoSummary: string := "Error analyzing contract"

  /** Separator between list entries: the end of one object and the comma after it. */
  const EntrySeparator: string := "},"

  function Quoted(key: string): string
  {
    "\"" + key + "\""
  }

  // ---------------------------------------------------------------------------------
  // The field patterns `"key"\s*:\s*OPEN(...)CLOSE`

  /** The head `"key"\s*:\s*OPEN` written out at `p`, with its colon at `a` and its
      opener just before `e`. */
  predicate HeadShape(text: string, p: nat, key: string, open: char, a: nat, e: nat)
  {
    p + |key| + 2 <= a < e - 1 && e <= |text| && OccursAt(Quoted(key), text, p)
    && (forall k | p + |key| + 2 <= k < a :: IsSpace(text[k]))
    && text[a] == ':'
    && (forall k | a < k < e - 1 :: IsSpace(text[k]))
    && text[e - 1] == open
  }

  /** Where the head `"key"\s*:\s*OPEN` of a field pattern, tried at `p`, ends. */
  function HeaderEnd(text: string, p: nat, key: string, open: char): (r: Option<nat>)
    requires p <= |text|
    ensures r.Some? ==> p + |key| + 4 <= r.value <= |text| && text[r.value - 1] == open
    ensures r.Some? ==> OccursAt(Quoted(key), text, p)
    ensures r.Some? ==> exists a: nat :: HeadShape(text, p, key, open, a, r.value)
  {
    if !OccursAt(Quoted(key), text, p) then None
    else
      var a := SkipSpace(text, p + |key| + 2);
      if a < |text| && text[a] == ':' then
        var b := SkipSpace(text, a + 1);
        if b < |text| && text[b] == open then
          assert HeadShape(text, p, key, open, a, b + 1);
          Some(b + 1)
        else None
      else None
  }

  /** A head written out at `p` is matched there, through its opener (which is never
      whitespace in the extractor's patterns). */
  lemma HeadMatch(text: string, p: nat, key: string, open: char, a: nat, e: nat)
    requires !IsSpace(open) && HeadShape(text, p, key, open, a, e)
    ensures HeaderEnd(text, p, key, open) == Some(e)
  {
    SkipSpaceIs(text, p + |key| + 2, a);
    SkipSpaceIs(text, a + 1, e - 1);
  }

  /** The capture of the pattern tried at `p`: everything after the head up to the
      first `close`. Both `[^"]*"` and the lazy `[\s\S]*?\]` stop at the first closing
      character, and the pattern fails at `p` if there is none. */
  function CaptureAt(text: string, p: nat, key: string, open: char, close: char): (r: Option<string>)
    requires p <= |text|
    ensures r.Some? <==> HeaderEnd(text, p, key, open).Some? && close in text[HeaderEnd(text, p, key, open).value..]
    ensures r.Some? ==> close !in r.value
    ensures r.Some? ==>
      var s := HeaderEnd(text, p, key, open).value;
      s + |r.value| < |text| && text[s..s + |r.value|] == r.value && text[s + |r.value|] == close
  {
    match HeaderEnd(text, p, key, open)
    case None => None
    case Some(s) =>
      var e := SkipUntil(close, text, s);
      if e < |text| then
        assert text[s..][e - s] == close;
        Some(text[s..e])
      else
        assert forall i | 0 <= i < |text[s..]| :: text[s..][i] == text[s + i];
        None
  }

  /** `text.match(re)[1]` for the field pattern: the capture of the leftmost position,
      at or after `p`, where the pattern matches. */
  function FirstCapture(text: string, key: string, open: char, close: char, p: nat := 0): (r: Option<string>)
    requires p <= |text|
    ensures r.Some? ==> exists q | p <= q <= |text| ::
      CaptureAt(text, q, key, open, close) == r && forall q' | p <= q' < q :: CaptureAt(text, q', key, open, close).None?
    ensures r.None? ==> forall q | p <= q <= |text| :: CaptureAt(text, q, key, open, close).None?
    decreases |text| - p
  {
    var here := CaptureAt(text, p, key, open, close);
    if here.Some? then
      assert p <= p <= |text| && CaptureAt(text, p, key, open, close) == here;
      here
    else if p == |text| then None
    else
      var later := FirstCapture(text, key, open, close, p + 1);
      assert forall q | p <= q <= p :: CaptureAt(text, q, key, open, close).None?;
      later
  }

  /** The capture of a string field `"key"\s*:\s*"([^"]*)"`, or `default`. */
  function StringField(text: string, key: string, default: string): string
  {
    match FirstCapture(text, key, '"', '"')
    case Some(v) => v
    case None => default
  }

  // ---------------------------------------------------------------------------------
  // The extractor

  function RiskOf(fragment: string): Risk
  {
    Risk(StringField(fragment, "risk", Unknown), StringField(fragment, "explanation", Unknown))
  }

  function OpportunityOf(fragment: string): Opportunity
  {
    Opportunity(StringField(fragment, "opportunity", Unknown), StringField(fragment, "explanation", Unknown))
  }

  /** The pieces of the list under `key`: the capture of `"key"\s*:\s*\[([\s\S]*?)\]`
      split at `},`, or none when the pattern does not match. */
  function ListFragments(text: string, key: string): seq<string>
  {
    match FirstCapture(text, key, '[', ']')
    case Some(c) => Split(c, EntrySeparator)
    case None => []
  }

  /** `parts.map(...)` building one risk per fragment. */
  function RisksOf(parts: seq<string>): (risks: seq<Risk>)
    ensures |risks| == |parts|
    ensures forall i | 0 <= i < |parts| :: risks[i] == RiskOf(parts[i])
  {
    seq(|parts|, i requires 0 <= i < |parts| => RiskOf(parts[i]))
  }

  /** `parts.map(...)` building one opportunity per fragment. */
  function OpportunitiesOf(parts: seq<string>): (opportunities: seq<Opportunity>)
    ensures |opportunities| == |parts|
    ensures forall i | 0 <= i < |parts| :: opportunities[i] == OpportunityOf(parts[i])
  {
    seq(|parts|, i requires 0 <= i < |parts| => OpportunityOf(parts[i]))
  }

  function Risks(text: string): seq<Risk>
  {
    RisksOf(ListFragments(text, "risks"))
  }

  function Opportunities(text: string): seq<Opportunity>
  {
    OpportunitiesOf(ListFragments(text, "opportunities"))
  }

  /** What the extractor recovers from the repaired reply. */
  function Recovered(text: string): FallbackAnalysis
  {
    FallbackAnalysis(Risks(text), Opportunities(text), StringField(text, "summary", NoSummary))
  }

  // ---------------------------------------------------------------------------------
  // What the extractor promises

  /** The head of a field pattern written out at `p` with whitespace around the colon. */
  lemma HeaderRoundTrip(text: string, p: nat, key: string, gap: string, gap': string, open: char, tail: string)
    requires forall i | 0 <= i < |gap| :: IsSpace(gap[i])
    requires forall i | 0 <= i < |gap'| :: IsSpace(gap'[i])
    requires !IsSpace(open)
    requires p <= |text| && text[p..] == Quoted(key) + gap + ":" + gap' + [open] + tail
    ensures HeaderEnd(text, p, key, open) == Some(p + |key| + |gap| + |gap'| + 4)
  {
    var h := text[p..];
    var a := p + |key| + 2 + |gap|;
    var b := a + 1 + |gap'|;
    assert text[p..p + |key| + 2] == h[..|key| + 2] == Quoted(key);
    forall k | p + |key| + 2 <= k < a ensures IsSpace(text[k]) {
      assert text[k] == h[k - p] == gap[k - p - |key| - 2];
    }
    assert text[a] == h[a - p] == ':';
    forall k | a < k < b ensures IsSpace(text[k]) {
      assert text[k] == h[k - p] == gap'[k - a - 1];
    }
    assert text[b] == h[b - p] == open;
    HeadMatch(text, p, key, open, a, b + 1);
  }

  /** The body of a field runs to the first closing character. */
  lemma BodyRoundTrip(text: string, s: nat, v: string, close: char, rest: string)
    requires s <= |text| && close !in v
    requires text[s..] == v + [close] + rest
    ensures SkipUntil(close, text, s) == s + |v| < |text|
    ensures text[s..s + |v|] == v
  {
    assert forall i | s <= i < s + |v| :: text[i] == text[s..][i - s] == v[i - s];
    assert text[s + |v|] == text[s..][|v|] == close;
    SkipUntilIs(close, text, s, s + |v|);
    assert text[s..s + |v|] == text[s..][..|v|];
  }

  /** A field written out in full at `p`, with whitespace around the colon, is captured
      there. */
  lemma CaptureRoundTrip(text: string, p: nat, key: string, gap: string, gap': string, open: char, v: string, close: char, rest: string)
    requires forall i | 0 <= i < |gap| :: IsSpace(gap[i])
    requires forall i | 0 <= i < |gap'| :: IsSpace(gap'[i])
    requires !IsSpace(open) && close !in v
    requires p <= |text| && text[p..] == Quoted(key) + gap + ":" + gap' + [open] + v + [close] + rest
    ensures CaptureAt(text, p, key, open, close) == Some(v)
  {
    var head := Quoted(key) + gap + ":" + gap' + [open];
    var tail := v + [close] + rest;
    FieldPieces(text, p, head, v, close, rest);
    HeaderRoundTrip(text, p, key, gap, gap', open, tail);
    var s := p + |head|;
    BodyRoundTrip(text, s, v, close, rest);
    CaptureFrom(text, p, key, open, close, s, s + |v|);
  }

  /** A field written at `p` splits into its head and the text after the head. */
  lemma FieldPieces(text: string, p: nat, head: string, v: string, close: char, rest: string)
    requires p <= |text| && text[p..] == head + v + [close] + rest
    ensures text[p..] == head + (v + [close] + rest)
    ensures p + |head| <= |text| && text[p + |head|..] == v + [close] + rest
  {
    assert head + v + [close] + rest == head + (v + [close] + rest);
    assert text[p + |head|..] == text[p..][|head|..];
  }

  lemma CaptureFrom(text: string, p: nat, key: string, open: char, close: char, s: nat, e: nat)
    requires p <= |text| && HeaderEnd(text, p, key, open) == Some(s)
    requires s <= e < |text| && SkipUntil(close, text, s) == e
    ensures CaptureAt(text, p, key, open, close) == Some(text[s..e])
  {
  }

  /** A complete field at `q` with no match of the pattern before it is the one found. */
  lemma FirstCaptureRoundTrip(text: string, q: nat, key: string, gap: string, gap': string, open: char, v: string, close: char, rest: string)
    requires forall i | 0 <= i < |gap| :: IsSpace(gap[i])
    requires forall i | 0 <= i < |gap'| :: IsSpace(gap'[i])
    requires !IsSpace(open) && close !in v
    requires q <= |text| && text[q..] == Quoted(key) + gap + ":" + gap' + [open] + v + [close] + rest
    requires forall q' | 0 <= q' < q :: CaptureAt(text, q', key, open, close).None?
    ensures FirstCapture(text, key, open, close) == Some(v)
  {
    CaptureRoundTrip(text, q, key, gap, gap', open, v, close, rest);
    var r := FirstCapture(text, key, open, close);
    if r.Some? {
      var q0 :| 0 <= q0 <= |text| && CaptureAt(text, q0, key, open, close) == r
        && forall q' | 0 <= q' < q0 :: CaptureAt(text, q', key, open, close).None?;
      assert q0 == q;
    }
  }

  /** Text without double quotes before a complete field cannot match the pattern, so
      the field is the one found, as in `{"risks": [...]}`. */
  lemma CaptureAfterPlainText(text: string, q: nat, key: string, gap: string, gap': string, open: char, v: string, close: char, rest: string)
    requires forall i | 0 <= i < |gap| :: IsSpace(gap[i])
    requires forall i | 0 <= i < |gap'| :: IsSpace(gap'[i])
    requires !IsSpace(open) && close !in v
    requires q <= |text| && text[q..] == Quoted(key) + gap + ":" + gap' + [open] + v + [close] + rest
    requires forall i | 0 <= i < q :: text[i] != '"'
    ensures FirstCapture(text, key, open, close) == Some(v)
  {
    forall q' | 0 <= q' < q ensures CaptureAt(text, q', key, open, close).None? {
      NoCaptureWithoutQuote(text, q', key, open, close);
    }
    FirstCaptureRoundTrip(text, q, key, gap, gap', open, v, close, rest);
  }

  /** Every field pattern starts with a double quote. */
  lemma NoCaptureWithoutQuote(text: string, p: nat, key: string, open: char, close: char)
    requires p < |text| && text[p] != '"'
    ensures CaptureAt(text, p, key, open, close).None?
  {
    QuotedStartsWithQuote(text, p, key);
  }

  lemma QuotedStartsWithQuote(text: string, p: nat, key: string)
    requires p < |text|
    ensures OccursAt(Quoted(key), text, p) ==> text[p] == '"'
  {
    if OccursAt(Quoted(key), text, p) {
      assert text[p..p + |key| + 2][0] == text[p];
    }
  }

  /** A text without the closing character has no capture. */
  lemma NoCloseNoCapture(text: string, key: string, open: char, close: char)
    requires close !in text
    ensures FirstCapture(text, key, open, close).None?
  {
    forall q | 0 <= q <= |text| ensures CaptureAt(text, q, key, open, close).None? {
      if HeaderEnd(text, q, key, open).Some? {
        var s := HeaderEnd(text, q, key, open).value;
        assert forall i | 0 <= i < |text[s..]| :: text[s..][i] == text[s + i];
      }
    }
  }

  /** `split("},")` gives one more entry than the list content has separators, so the
      list has that many entries; without a `"risks": [ ... ]` region there are none. */
  lemma RiskCount(text: string)
    ensures FirstCapture(text, "risks", '[', ']').None? ==> Risks(text) == []
    ensures FirstCapture(text, "risks", '[', ']').Some? ==>
      |Risks(text)| == 1 + Occurrences(FirstCapture(text, "risks", '[', ']').value, EntrySeparator)
  {
    if FirstCapture(text, "risks", '[', ']').Some? {
      assert EntrySeparator[0] !in EntrySeparator[1..];
      SplitCount(FirstCapture(text, "risks", '[', ']').value, EntrySeparator);
    }
  }

  lemma OpportunityCount(text: string)
    ensures FirstCapture(text, "opportunities", '[', ']').None? ==> Opportunities(text) == []
    ensures FirstCapture(text, "opportunities", '[', ']').Some? ==>
      |Opportunities(text)| == 1 + Occurrences(FirstCapture(text, "opportunities", '[', ']').value, EntrySeparator)
  {
    if FirstCapture(text, "opportunities", '[', ']').Some? {
      assert EntrySeparator[0] !in EntrySeparator[1..];
      SplitCount(FirstCapture(text, "opportunities", '[', ']').value, EntrySeparator);
    }
  }

  /** A text with no `]` at all, such as a reply cut off inside its risk list, yields no
      risks and no opportunities. */
  lemma UnterminatedListsEmpty(text: string)
    requires ']' !in text
    ensures Risks(text) == [] && Opportunities(text) == []
  {
    NoCloseNoCapture(text, "risks", '[', ']');
    NoCloseNoCapture(text, "opportunities", '[', ']');
  }

  /** Every string field is its default or a capture without double quotes. */
  lemma StringFieldShape(text: string, key: string, default: string)
    ensures StringField(text, key, default) == default || '"' !in StringField(text, key, default)
  {
    match FirstCapture(text, key, '"', '"')
    case None =>
    case Some(v) =>
      var q :| 0 <= q <= |text| && CaptureAt(text, q, key, '"', '"') == Some(v);
  }

  /** An empty text holds no field. */
  lemma NothingInEmpty(key: string, open: char, close: char)
    ensures FirstCapture("", key, open, close).None?
  {
    NoCloseNoCapture("", key, open, close);
  }

  /** An empty list, `"risks": []`, yields a single entry whose fields are unknown. */
  lemma EmptyListOneUnknownRisk(text: string)
    requires FirstCapture(text, "risks", '[', ']') == Some("")
    ensures Risks(text) == [Risk(Unknown, Unknown)]
  {
    assert IndexOf("", EntrySeparator).None?;
    assert Split("", EntrySeparator) == [""];
    NothingInEmpty("risk", '"', '"');
    NothingInEmpty("explanation", '"', '"');
  }

  lemma EmptyListOneUnknownOpportunity(text: string)
    requires FirstCapture(text, "opportunities", '[', ']') == Some("")
    ensures Opportunities(text) == [Opportunity(Unknown, Unknown)]
  {
    assert IndexOf("", EntrySeparator).None?;
    assert Split("", EntrySeparator) == [""];
    NothingInEmpty("opportunity", '"', '"');
    NothingInEmpty("explanation", '"', '"');
  }

  /** Each risk comes from one piece of the list: its fields are the first captures in
      that piece, or `"Unknown"`. */
  lemma RiskEntries(text: string, i: nat)
    requires i < |Risks(text)|
    ensures Risks(text)[i].risk == Unknown || '"' !in Risks(text)[i].risk
    ensures Risks(text)[i].explanation == Unknown || '"' !in Risks(text)[i].explanation
    ensures Risks(text)[i] == RiskOf(ListFragments(text, "risks")[i])
  {
    var f := ListFragments(text, "risks")[i];
    StringFieldShape(f, "risk", Unknown);
    StringFieldShape(f, "explanation", Unknown);
  }

  /** An empty reply recovers nothing but the default summary. */
  lemma EmptyTextRecovers()
    ensures Recovered("") == FallbackAnalysis([], [], NoSummary)
  {
    NothingInEmpty("risks", '[', ']');
    NothingInEmpty("opportunities", '[', ']');
    NothingInEmpty("summary", '"', '"');
  }
}
