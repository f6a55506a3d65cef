/** The two calls to the language model in server/src/services/ai.services.ts:
    `detectContractType` (lines 47-62) and `analyzeContractWithAI` (lines 64-192). The
    model itself is an input: `generate` maps a prompt to the reply text or to the error
    the client library throws. `JSON.parse` is an input too: `parse` maps a text to the
    parsed value, or to `None` where `JSON.parse` throws. */
module ContractAi {
  import opened Wrappers
  import opened Text
  import opened RegexReplace
  import opened JsonRepair
  import opened Fallback

  /** The model name the client is created with. */
  const AiModel: string := "gemini-pro"

  /** What the model client throws. */
  datatype ModelError = ModelError(message: string)

  // ---------------------------------------------------------------------------------
  // detectContractType

  /** How many characters of the contract the classification prompt quotes. */
  const ExcerptLength: nat := 2000

  const DetectionHead: string :=
    "\n    Analyze the following contract text and determine the type of contract it is.\n"
    + "    Provide only the contract type as a single string (e.g., \"Employment\", \"Non-Disclosure Agreement\", \"Sales\", \"Lease\", etc.).\n"
    + "    Do not include any additional explanation or text.\n\n    Contract text:\n    "

  const DetectionTail: string := "\n  "

  /** `contractText.substring(0, 2000)`. */
  function Excerpt(contractText: string): (e: string)
    ensures |e| == if |contractText| < ExcerptLength then |contractText| else ExcerptLength
    ensures e <= contractText
  {
    if |contractText| < ExcerptLength then contractText else contractText[..ExcerptLength]
  }

  function DetectionPrompt(contractText: string): string
  {
    DetectionHead + Excerpt(contractText) + DetectionTail
  }

  /** The contract type: the model's reply to the classification prompt, trimmed. */
  function DetectContractType(contractText: string, generate: string -> Result<string, ModelError>): Result<string, ModelError>
  {
    match generate(DetectionPrompt(contractText))
    case Success(reply) => Success(Trim(reply))
    case Failure(e) => Failure(e)
  }

  /** Only the first 2000 characters reach the model: contracts that agree on them are
      classified alike, whatever follows. */
  lemma DetectionReadsExcerpt(a: string, b: string, generate: string -> Result<string, ModelError>)
    requires Excerpt(a) == Excerpt(b)
    ensures DetectionPrompt(a) == DetectionPrompt(b)
    ensures DetectContractType(a, generate) == DetectContractType(b, generate)
  {
  }

  /** The prompt quotes the excerpt between the fixed head and tail, and a short
      contract in full. */
  lemma DetectionPromptQuotes(contractText: string)
    ensures DetectionPrompt(contractText)[|DetectionHead|..|DetectionHead| + |Excerpt(contractText)|] == Excerpt(contractText)
    ensures |contractText| <= ExcerptLength ==> Excerpt(contractText) == contractText
    ensures |DetectionPrompt(contractText)| <= |DetectionHead| + ExcerptLength + |DetectionTail|
  {
    PieceInPlace(DetectionHead, Excerpt(contractText), DetectionTail, DetectionPrompt(contractText));
    if |contractText| == ExcerptLength {
      assert contractText[..ExcerptLength] == contractText;
    }
  }

  /** Where the middle one of three concatenated pieces sits. */
  lemma PieceInPlace(a: string, b: string, c: string, p: string)
    requires p == a + b + c
    ensures p[|a|..|a| + |b|] == b
  {
  }

  /** The label is the trimmed reply: no surrounding whitespace, and a model failure is
      passed on. */
  lemma DetectedLabelTrimmed(contractText: string, generate: string -> Result<string, ModelError>)
    ensures generate(DetectionPrompt(contractText)).Failure? ==>
      DetectContractType(contractText, generate) == Failure(generate(DetectionPrompt(contractText)).error)
    ensures generate(DetectionPrompt(contractText)).Success? ==>
      var kind := DetectContractType(contractText, generate).value;
      kind == Trim(generate(DetectionPrompt(contractText)).value)
      && Trim(kind) == kind
      && (kind == [] || (!IsSpace(kind[0]) && !IsSpace(kind[|kind| - 1])))
  {
    match generate(DetectionPrompt(contractText))
    case Success(reply) => TrimIdempotent(reply);
    case Failure(_) =>
  }

  // ---------------------------------------------------------------------------------
  // analyzeContractWithAI

  const AnalysisIntro: string := "\n    Analyze the following "

  /** The instruction block of the analysis prompt, line by line: the thirteen items
      asked for and the JSON structure the reply must follow. */
  function RequestLine(k: nat): string
  {
    match k
    case 0 => " contract and provide:"
    case 1 => "    1. A list of at least 10 potential risks for the party receiving the contract, each with a brief explanation and severity level (low, medium, high)."
    case 2 => "    2. A list of at least 10 potential opportunities or benefits for the receiving party, each with a brief explanation and impact level (low, medium, high)."
    case 3 => "    3. A comprehensive summary of the contract, including key terms and conditions."
    case 4 => "    4. Any recommendations for improving the contract from the receiving party's perspective."
    case 5 => "    5. A list of key clauses in the contract."
    case 6 => "    6. An assessment of the contract's legal compliance."
    case 7 => "    7. A list of potential negotiation points."
    case 8 => "    8. The contract duration or term, if applicable."
    case 9 => "    9. A summary of termination conditions, if applicable."
    case 10 => "    10. A breakdown of any financial terms or compensation structure, if applicable."
    case 11 => "    11. Any performance metrics or KPIs mentioned, if applicable."
    case 12 => "    12. A summary of any specific clauses relevant to this type of contract (e.g., intellectual property for employment contracts, warranties for sales contracts)."
    case 13 => "    13. An overall score from 1 to 100, with 100 being the highest. This score represents the overall favorability of the contract based on the identified risks and opportunities."
    case 14 => ""
    case 15 => "    Format your response as a JSON object with the following structure:"
    case 16 => "    {"
    case 17 => "      \"risks\": [{\"risk\": \"Risk description\", \"explanation\": \"Brief explanation\", \"severity\": \"low|medium|high\"}],"
    case 18 => "      \"opportunities\": [{\"opportunity\": \"Opportunity description\", \"explanation\": \"Brief explanation\", \"impact\": \"low|medium|high\"}],"
    case 19 => "      \"summary\": \"Comprehensive summary of the contract\","
    case 20 => "      \"recommendations\": [\"Recommendation 1\", \"Recommendation 2\", ...],"
    case 21 => "      \"keyClauses\": [\"Clause 1\", \"Clause 2\", ...],"
    case 22 => "      \"legalCompliance\": \"Assessment of legal compliance\","
    case 23 => "      \"negotiationPoints\": [\"Point 1\", \"Point 2\", ...],"
    case 24 => "      \"contractDuration\": \"Duration of the contract, if applicable\","
    case 25 => "      \"terminationConditions\": \"Summary of termination conditions, if applicable\","
    case 26 => "      \"overallScore\": \"Overall score from 1 to 100\","
    case 27 => "      \"financialTerms\": {"
    case 28 => "        \"description\": \"Overview of financial terms\","
    case 29 => "        \"details\": [\"Detail 1\", \"Detail 2\", ...]"
    case 30 => "      },"
    case 31 => "      \"performanceMetrics\": [\"Metric 1\", \"Metric 2\", ...],"
    case 32 => "      \"specificClauses\": \"Summary of clauses specific to this contract type\""
    case 33 => "    }"
    case _ => "      "
  }

  const RequestLineCount: nat := 35

  /** The instruction block, its lines joined by newlines. */
  function AnalysisRequest(): string
  {
    Join(seq(RequestLineCount, k requires 0 <= k < RequestLineCount => RequestLine(k)), "\n")
  }

  const AnalysisClosing: string :=
    "\n    Important: Provide only the JSON object in your response, without any additional text or formatting. \n"
    + "    \n    \n    Contract text:\n    "

  const AnalysisTail: string := "\n    "

  /** The analysis prompt: the request naming the contract type, then the whole
      contract text. */
  function AnalysisPrompt(contractText: string, contractType: string): string
  {
    AnalysisIntro + contractType + AnalysisRequest() + AnalysisClosing + contractText + AnalysisTail
  }

  /** What `analyzeContractWithAI` resolves to: the parsed reply, or what the extractor
      recovered from it. */
  datatype Analysis<J> = Parsed(value: J) | Extracted(fallback: FallbackAnalysis)

  /** Ask the model, clean its reply up and parse it; when parsing fails, extract what
      the patterns find in the cleaned-up text, field by field. A model failure is
      passed on. */
  method AnalyzeContractWithAI<J>(contractText: string, contractType: string,
                                  generate: string -> Result<string, ModelError>, parse: string -> Option<J>)
    returns (r: Result<Analysis<J>, ModelError>)
    ensures generate(AnalysisPrompt(contractText, contractType)).Failure? ==>
      r == Failure(generate(AnalysisPrompt(contractText, contractType)).error)
    ensures generate(AnalysisPrompt(contractText, contractType)).Success? ==>
      var text := Repaired(generate(AnalysisPrompt(contractText, contractType)).value);
      r.Success? &&
      (parse(text).Some? ==> r.value == Parsed(parse(text).value)) &&
      (parse(text).None? ==> r.value == Extracted(Recovered(text)))
  {
    var prompt := AnalysisIntro + contractType + AnalysisRequest();
    prompt := prompt + AnalysisClosing + contractText + AnalysisTail;
    var reply := generate(prompt);
    if reply.Failure? {
      return Failure(reply.error);
    }
    var text := reply.value;
    text := StripFences(text);
    text := QuoteKeys(text);
    text := SpaceValues(text);
    text := DropTrailingCommas(text);
    var parsed := parse(text);
    if parsed.Some? {
      return Success(Parsed(parsed.value));
    }
    var fallback := ExtractFallback(text);
    return Success(Extracted(fallback));
  }

  /** The extractor `analyzeContractWithAI` falls back on: start from the default
      analysis and overwrite each field whose pattern matches the text. */
  method ExtractFallback(text: string) returns (fallback: FallbackAnalysis)
    ensures fallback == Recovered(text)
  {
    fallback := FallbackAnalysis([], [], NoSummary);
    var risksMatch := FirstCapture(text, "risks", '[', ']');
    if risksMatch.Some? {
      var parts := Split(risksMatch.value, EntrySeparator);
      fallback := fallback.(risks := RisksOf(parts));
    }
    var opportunitiesMatch := FirstCapture(text, "opportunities", '[', ']');
    if opportunitiesMatch.Some? {
      var parts := Split(opportunitiesMatch.value, EntrySeparator);
      fallback := fallback.(opportunities := OpportunitiesOf(parts));
    }
    var summaryMatch := FirstCapture(text, "summary", '"', '"');
    if summaryMatch.Some? {
      fallback := fallback.(summary := summaryMatch.value);
    }
  }

  /** The prompt quotes the contract type and the whole contract text. */
  lemma AnalysisPromptQuotes(contractText: string, contractType: string)
    ensures OccursAt(contractType, AnalysisPrompt(contractText, contractType), |AnalysisIntro|)
    ensures var p := AnalysisPrompt(contractText, contractType);
      |p| >= |contractText| + |AnalysisTail| && p[|p| - |AnalysisTail| - |contractText|..|p| - |AnalysisTail|] == contractText
  {
    PiecesInPlace(AnalysisIntro, contractType, AnalysisRequest(), AnalysisClosing, contractText, AnalysisTail,
                  AnalysisPrompt(contractText, contractType));
  }

  /** Where the second and the fifth of six concatenated pieces sit. */
  lemma PiecesInPlace(a: string, b: string, c: string, d: string, e: string, f: string, p: string)
    requires p == a + b + c + d + e + f
    ensures OccursAt(b, p, |a|)
    ensures |p| >= |e| + |f| && p[|p| - |f| - |e|..|p| - |f|] == e
  {
    assert p == a + b + (c + d + e + f);
    assert p == (a + b + c + d) + e + f;
  }

  /** An empty reply does not parse (`JSON.parse("")` throws) and yields the bare
      default analysis. */
  lemma EmptyReplyDefault()
    ensures Repaired("") == ""
    ensures Recovered(Repaired("")) == FallbackAnalysis([], [], NoSummary)
  {
    assert StripFences("") == Trim("");
    TrimIs("", 0, 0);
    EmptyTextRecovers();
  }
}
