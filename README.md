# Contract analysis: a Dafny model of its core logic

The application takes an uploaded PDF contract and recovers its text. It then asks a
language model for the contract type and for an analysis: risks, opportunities, a
summary and a score. It stores the analysis and shows it on a results page and on a
dashboard. This project models, in Dafny, the parts of that flow that hold real logic,
and proves what they do.

- **Text extraction** (`PdfText`). The stored upload is decoded, either as a Node buffer or as a
  serialised `{type: "Buffer", data}` object. Each page's text items are joined by
  spaces and each page ends with a newline. Every failure becomes one wrapped error.
  `ExtractTextFromPdf` is a method with the page loop, proved against `PagesText`.
- **Type detection** (`ContractAi`). The classification prompt quotes the first 2000 characters
  of the contract. The label is the model's reply, trimmed.
- **Reply repair** (`RegexReplace`, `JsonRepair`). The analysis reply goes through four global
  regular-expression replacements: fence removal (followed by a trim), key quoting,
  value spacing and trailing-comma removal. Each expression is modelled as a
  deterministic matcher anchored at a position. `ReplaceAll` is JavaScript's global
  `replace` over such a matcher.
- **Fallback extraction** (`Fallback`, `ContractAi.ExtractFallback`). When the repaired text
  does not parse, the `risks`, `opportunities` and `summary` fields are recovered with
  patterns. The defaults are `"Unknown"` and `"Error analyzing contract"`.
- **Analysis** (`ContractAi.AnalyzeContractWithAI`). A method that builds the prompt, asks the
  model, reassigns the reply text through the four clean-up steps, parses it, and
  falls back on the extractor.
- **Results page** (`ResultsView`). The score band, the severity and impact colours, the
  three-item preview with a blurred placeholder, the badges, and the two percentages.
- **Dashboard** (`UserContracts`). The type-colour lookup with its fallback, the score-badge
  variant, and the total, average and high-risk cards.
- **Upload wizard** (`UploadModal`). A class whose fields are the dialog's `step`, `files`,
  `detectedType` and `error` and the results store, with one method per handler and
  request callback. Each method is proved against the transition function `Next`. The
  lemmas about the wizard are stated over `Next`, including an invariant that every
  event the dialog can receive preserves.
- **Stored record** (`ContractModel`). The schema's validator for the intellectual-property
  clauses, the numeric bounds, the required fields and the defaults.

Outside the code: the language model (`generate`), the PDF library (`load`) and
`JSON.parse` (`parse`) are parameters. The outcome of the key-value store read, the
stored value or the store's exception, is a parameter of the extraction method.

The pattern `"risks"\s*:\s*\[([\s\S]*?)\]` needs a closing `]`, so an unterminated list
yields no risks (`Fallback.UnterminatedListsEmpty`).

## Model

| member | source | states |
|---|---|---|
| PdfText.ExtractTextFromPdf | server/src/services/ai.services.ts:9-45 | A store read that throws, a falsy or malformed stored value, a PDF that does not open, or a page that cannot be read each give one error prefixed "Failed to extract text from PDF. Error: " and no text. The error detail comes from the first failing page. Otherwise the text is `PagesText` of the pages, in page order. |
| PdfText.FailureMessage | server/src/services/ai.services.ts:39-44 | Every failure message starts with the fixed prefix. |
| PdfText.DecodeStoredCases | server/src/services/ai.services.ts:11-29 | Decoding succeeds exactly for a Node buffer, or for an object with `type === "Buffer"` and an array `data`. Exactly the falsy values are reported as a missing file. A buffer's bytes are taken unchanged. |
| PdfText.SerialisedBufferBytes | server/src/services/ai.services.ts:22-23 | A serialised buffer decodes to one byte per number, each the number modulo 256. Numbers in 0..255 are kept unchanged. |
| PdfText.PagesTextAppend | server/src/services/ai.services.ts:32-37 | The text of two runs of pages is the first run's text followed by the second's: pages are appended in order. |
| PdfText.PagesTextFirst | server/src/services/ai.services.ts:33-36 | The first page's items, joined by spaces and followed by a newline, come first. |
| PdfText.OneNewlinePerPage | server/src/services/ai.services.ts:32-37 | When no item holds a newline, the text has exactly one newline per page. Zero pages give the empty text. |
| PdfText.FirstUnreadAt | server/src/services/ai.services.ts:33-35 | When every page before `i` reads and page `i` fails, page `i`'s failure is the one reported. |
| ContractAi.Excerpt | server/src/services/ai.services.ts:56 | The excerpt is the prefix of length min(2000, length) of the contract text. |
| ContractAi.DetectionReadsExcerpt | server/src/services/ai.services.ts:50-59 | Contracts with the same first 2000 characters get the same prompt, and hence the same detected type. |
| ContractAi.DetectionPromptQuotes | server/src/services/ai.services.ts:50-57 | The prompt holds the excerpt right after its fixed head. A contract of at most 2000 characters is quoted whole. The prompt never exceeds head + 2000 + tail. |
| ContractAi.DetectedLabelTrimmed | server/src/services/ai.services.ts:59-61 | A model failure is passed on. Otherwise the label is the trimmed reply: it neither starts nor ends with whitespace, and trimming it again changes nothing. |
| ContractAi.AnalyzeContractWithAI | server/src/services/ai.services.ts:64-192 | A model failure is passed on. Otherwise the repaired reply is handed to `JSON.parse`; a parsed value is returned unchanged. When parsing fails, the result is exactly `Recovered` of the repaired text, not of the raw reply. |
| ContractAi.ExtractFallback | server/src/services/ai.services.ts:148-192 | Filling the default analysis field by field gives `Recovered(text)`. |
| ContractAi.AnalysisPromptQuotes | server/src/services/ai.services.ts:68-111 | The analysis prompt names the contract type right after its opening words. It ends with the whole contract text and the closing whitespace. |
| ContractAi.EmptyReplyDefault | server/src/services/ai.services.ts:118-152 | An empty reply stays empty through the repair and recovers `{risks: [], opportunities: [], summary: "Error analyzing contract"}`. |
| RegexReplace.ReplaceAllSettled | server/src/services/ai.services.ts:118-124 | A global replace changes nothing in a text where no match starts. |
| RegexReplace.ReplaceAllFixed | server/src/services/ai.services.ts:118-124 | A global replace changes nothing when every match's replacement equals the matched text. |
| RegexReplace.ReplaceAllSkip | server/src/services/ai.services.ts:118-124 | The characters before the first match are copied. |
| RegexReplace.ReplaceAllPreservesFiltered | server/src/services/ai.services.ts:118-124 | When every replacement agrees with its matched text on the characters a filter keeps, the output agrees with the input on those characters. |
| JsonRepair.StripFencesWithoutBackticks | server/src/services/ai.services.ts:118 | A reply without backticks is only trimmed. |
| JsonRepair.StripFencesUnwraps | server/src/services/ai.services.ts:118 | A reply of the form "```json\n" + body + "\n```" (body without backticks) becomes the trimmed body. |
| JsonRepair.StripFencesKeepsLanguageTag | server/src/services/ai.services.ts:118 | When the opening fence follows a newline, the second alternative takes the newline and the backticks. The word `json` then stays in front of the body. |
| JsonRepair.OpeningFenceRemoved | server/src/services/ai.services.ts:118 | "```json" and the newline after it are deleted. |
| JsonRepair.NewlineFenceRemoved | server/src/services/ai.services.ts:118 | "```" and the newline before it are deleted. |
| JsonRepair.TaggedFenceRemoved | server/src/services/ai.services.ts:118 | "```json" with no newline after it is deleted on its own, and the scan goes on right after it. |
| JsonRepair.BareFenceRemoved | server/src/services/ai.services.ts:118 | "```" with no newline before it and no "json" after it is deleted on its own, and the scan goes on right after it. |
| JsonRepair.StripFencesUnwrapsUntagged | server/src/services/ai.services.ts:118 | A reply of the form "```\n" + body + "\n```" (a block with no language tag, body without backticks) becomes the trimmed body. |
| JsonRepair.BareKeyAtIff | server/src/services/ai.services.ts:122 | Rewrite 1 matches at the start of the text exactly when there are break points `1 <= a < b <= c`: `{` or `,` first, whitespace up to `a`, word characters up to `b`, whitespace up to `c`, and `:` at `c`. |
| JsonRepair.BareKeyMatch | server/src/services/ai.services.ts:122 | At such break points the match has length `c + 1`, and its replacement is `x[..a] + '"' + x[a..b] + '"' + x[b..c+1]`: the key wrapped in double quotes, with the rest kept. |
| JsonRepair.QuoteAfterGapNoMatch | server/src/services/ai.services.ts:122 | A key already in quotes is not matched, because `"` is not a word character. |
| JsonRepair.QuoteKeysOnlyAddsQuotes | server/src/services/ai.services.ts:122 | Rewrite 1 only inserts double quotes: with every `"` deleted, its output equals its input. |
| JsonRepair.NoBareKeyRemains | server/src/services/ai.services.ts:122 | Rewrite 1's output contains no bare key: no position matches the pattern again. |
| JsonRepair.QuoteKeysIdempotent | server/src/services/ai.services.ts:122 | Applying rewrite 1 twice is the same as applying it once. |
| JsonRepair.QuoteKeysHead | server/src/services/ai.services.ts:122 | Rewrite 1 never changes the first character. |
| JsonRepair.QuoteKeysEntersStrings | server/src/services/ai.services.ts:122 | Rewrite 1 also acts inside string values: `",w:"` becomes `",\"w\":"`. |
| JsonRepair.SpaceValuesOnlyChangesWhitespace | server/src/services/ai.services.ts:123 | Rewrite 2 changes whitespace only: with all whitespace deleted, its output equals its input. |
| JsonRepair.SpacedValueAtIff | server/src/services/ai.services.ts:123 | Rewrite 2 matches at the start of the text exactly when there are break points `1 <= a < b`: `:` first, whitespace up to `a`, `"` at `a`, no `"` before the closing `"` at `b`, and then a character other than `,`, `}` or `]`. |
| JsonRepair.SpacedValueMatch | server/src/services/ai.services.ts:123 | At such break points the match has length `b + 2`. Its replacement is `: "` + the string's contents + `"` + the following character: the gap after the colon becomes exactly one space, and the contents and the next character are kept. |
| JsonRepair.SpaceValuesRewrites | server/src/services/ai.services.ts:123 | Where the value shape starts the text, rewrite 2 outputs the respaced value and continues with the text after the following character. |
| JsonRepair.SpacedValueFixedWhenSpaced | server/src/services/ai.services.ts:123 | A value already written `: "..."` plus its next character is replaced by itself. |
| JsonRepair.DropTrailingCommasOnlyDeletes | server/src/services/ai.services.ts:124 | Rewrite 3 deletes only commas and whitespace: with those deleted, its output equals its input. |
| JsonRepair.CommaBeforeBracketKept | server/src/services/ai.services.ts:124 | A comma whose next non-whitespace character is `]` is copied, together with the whitespace after it. |
| JsonRepair.NoTrailingCommaRemains | server/src/services/ai.services.ts:124 | If no comma is followed by whitespace and another comma, rewrite 3's output has no comma before `}`. |
| JsonRepair.TrailingCommaSurvives | server/src/services/ai.services.ts:124 | Without that proviso a trailing comma can survive: `,,}` becomes `,}`. |
| JsonRepair.CleanTextUnchanged | server/src/services/ai.services.ts:122-124 | Text that is already clean JSON in the three rewrites' sense passes through all three unchanged. |
| JsonRepair.CleanReplyUnchanged | server/src/services/ai.services.ts:118-126 | A reply without backticks whose trimmed text is clean reaches `JSON.parse` as the trimmed reply. |
| Fallback.HeaderEnd | server/src/services/ai.services.ts:155-187 | A head found at `p` is really written there: `"key"` at `p`, then whitespace, `:` at some `a`, whitespace, and the opening character last. The head ends right after that character. |
| Fallback.HeadMatch | server/src/services/ai.services.ts:155-187 | Conversely, a head written out at `p` in that shape, with an opener that is not whitespace, is found there and ends right after its opener. |
| Fallback.CaptureAt | server/src/services/ai.services.ts:155-187 | A capture exists exactly when the head matches and a closing character follows it. The capture has no closing character and runs up to the first one. |
| Fallback.FirstCapture | server/src/services/ai.services.ts:155-187 | `match` returns the capture at the leftmost position that has one. `None` means no position has one. |
| Fallback.CaptureRoundTrip | server/src/services/ai.services.ts:158-159 | A field written out in full at any position `p`, with whitespace around the colon, is captured there as its value. |
| Fallback.FirstCaptureRoundTrip | server/src/services/ai.services.ts:155-187 | A complete field at position `q` with no match of the pattern before `q` is the one found. |
| Fallback.CaptureAfterPlainText | server/src/services/ai.services.ts:155-187 | A complete field that only text without double quotes precedes is the one found, as in `{"risks": [...]}`. |
| Fallback.NoCloseNoCapture | server/src/services/ai.services.ts:155-168 | Without a closing character there is no match: the lazy `*?` needs the first `]`. |
| Fallback.RiskCount | server/src/services/ai.services.ts:155-165 | Without a `"risks": [ ... ]` region there are no risks. Otherwise there is one entry more than the region has `},` separators. |
| Fallback.OpportunityCount | server/src/services/ai.services.ts:168-184 | The same rule holds for opportunities. |
| Fallback.UnterminatedListsEmpty | server/src/services/ai.services.ts:155-184 | A text with no `]` yields no risks and no opportunities. |
| Fallback.EmptyListOneUnknownRisk | server/src/services/ai.services.ts:157-163 | `"risks": []` yields one risk whose fields are both "Unknown". |
| Fallback.EmptyListOneUnknownOpportunity | server/src/services/ai.services.ts:170-183 | `"opportunities": []` yields one opportunity whose fields are both "Unknown". |
| Fallback.RiskEntries | server/src/services/ai.services.ts:157-163 | Each risk comes from its own piece of the list. Each field is "Unknown" or a capture without double quotes. |
| Fallback.StringFieldShape | server/src/services/ai.services.ts:158-162 | A string field is its default or a capture without double quotes. |
| Fallback.EmptyTextRecovers | server/src/services/ai.services.ts:148-152 | An empty text recovers nothing but the default summary. |
| Text.Trim | server/src/services/ai.services.ts:118 | The trimmed text is a slice of the input. It neither starts nor ends with whitespace, and only whitespace is cut. |
| Text.TrimIdempotent | server/src/services/ai.services.ts:61 | Trimming twice is trimming once. |
| Text.TrimIgnoresPadding | server/src/services/ai.services.ts:61 | Whitespace added around a text does not change its trim. |
| Text.JoinSplit | server/src/services/ai.services.ts:157 | Joining the pieces of `split(sep)` with `sep` gives back the text. |
| Text.SplitPartsFree | server/src/services/ai.services.ts:157 | No piece contains the separator. |
| Text.SplitCount | server/src/services/ai.services.ts:157 | For a separator whose first character does not recur in it, such as `},`, there is one piece more than there are occurrences. |
| ResultsView.ScoreBands | client/src/components/analysis/contract-analysis-results.tsx:36-43 | Exactly one band applies: Good above 70, Bad below 50, Average from 50 to 70 inclusive. The icon agrees with the label. |
| ResultsView.ScoreTrendMonotone | client/src/components/analysis/contract-analysis-results.tsx:36-43 | A higher score never gets a worse label. |
| ResultsView.LevelColours | client/src/components/analysis/contract-analysis-results.tsx:47-67 | Exactly high, medium and low get a class, each its own. Any other level, or a missing one, gets none. |
| ResultsView.VisibleItems | client/src/components/analysis/contract-analysis-results.tsx:79 | Premium viewers see every item. Others see the prefix of length min(3, n), in order. |
| ResultsView.FreeViewWithinPremium | client/src/components/analysis/contract-analysis-results.tsx:79 | The free view is a prefix of the premium view, shorter by n − 3 when n > 3. |
| ResultsView.RenderList | client/src/components/analysis/contract-analysis-results.tsx:88-118 | A premium viewer gets one row per item; any other viewer gets rows for at most the first three. Row `i` is the row of item `i`, in order. |
| ResultsView.PlaceholderWhenHidden | client/src/components/analysis/contract-analysis-results.tsx:80-135 | The blurred placeholder appears exactly for a non-premium viewer of more than three items, that is exactly when rows are hidden. It reads "Hidden Risk" or "Hidden Opportunity", and no real row is blurred. |
| ResultsView.BadgeWhenLevelled | client/src/components/analysis/contract-analysis-results.tsx:102-112 | A badge is shown exactly when the item has a severity or an impact. On the risks tab a known severity gives its colour and its upper-cased name. |
| ResultsView.ExtractedItemsHaveNoBadge | client/src/components/analysis/contract-analysis-results.tsx:102-112 | Entries recovered by the fallback extractor have no severity or impact, so they show no badge. |
| ResultsView.Upper | client/src/components/analysis/contract-analysis-results.tsx:110 | Upper-casing keeps the length. Each lower-case ASCII letter moves down by 32 code points to its capital, and every other character is kept. |
| ResultsView.UpperIdempotent | client/src/components/analysis/contract-analysis-results.tsx:110 | Upper-casing twice is upper-casing once, and no lower-case ASCII letter is left. |
| ResultsView.PercentagesComplement | client/src/components/analysis/contract-analysis-results.tsx:184-188 | The Risk and Opportunities percentages add up to 100. Both lie in [0, 100] exactly when the score does. |
| UserContracts.TypeColourLookup | client/src/components/dashboard/user-contracts.tsx:58-103 | Each of the six known labels gets its own class. Any other label gets the "Other" class. |
| UserContracts.BadgeThresholds | client/src/components/dashboard/user-contracts.tsx:84-90 | The badge is success exactly above 75 and destructive exactly below 50. A missing score (NaN) is secondary. |
| UserContracts.ThresholdsDisagree | client/src/components/dashboard/user-contracts.tsx:89 | A score in (70, 75] is "Good" on the results page but only secondary on the dashboard. |
| UserContracts.AverageInRange | client/src/components/dashboard/user-contracts.tsx:170-177 | No data or no contracts average 0. When every score (missing = 0) is in [0, 100], so is the average. |
| UserContracts.ScoreSumBounds | client/src/components/dashboard/user-contracts.tsx:173-176 | The sum of n scores in [0, 100] lies in [0, 100·n]. |
| UserContracts.AverageOfEqualScores | client/src/components/dashboard/user-contracts.tsx:171-177 | Contracts that all have the same score average exactly that score. |
| UserContracts.HighRiskBounded | client/src/components/dashboard/user-contracts.tsx:179-182 | The high-risk count is at most the list length. It equals the length exactly when every contract has a high-severity risk, and is 0 exactly when none has. |
| UserContracts.HighRiskAtMostTotal | client/src/components/dashboard/user-contracts.tsx:170-182 | The high-risk card never exceeds the total card. Both are 0 while there is no data. |
| UploadModal.UploadWizard.constructor | client/src/components/modals/upload-modal.tsx:35-40 | A new wizard is at "upload", with no files, no type and no error. |
| UploadModal.UploadWizard.OnDrop | client/src/components/modals/upload-modal.tsx:104-112 | A non-empty drop replaces the files, clears the error and returns to "upload". An empty drop only sets "No file selected". |
| UploadModal.UploadWizard.HandleFileUpload | client/src/components/modals/upload-modal.tsx:123-128 | With a file it moves to "detecting" and sends the first file. Without one nothing changes and nothing is sent. |
| UploadModal.UploadWizard.OnDetectionSuccess | client/src/components/modals/upload-modal.tsx:60-63 | Stores the detected type and moves to "confirm". |
| UploadModal.UploadWizard.OnDetectionError | client/src/components/modals/upload-modal.tsx:64-68 | Sets "Failed to detect contract type" and returns to "upload". |
| UploadModal.UploadWizard.HandleAnalyzeContract | client/src/components/modals/upload-modal.tsx:130-135 | With a file and a truthy type it moves to "processing" and sends both. Otherwise nothing changes. |
| UploadModal.UploadWizard.OnUploadSuccess | client/src/components/modals/upload-modal.tsx:92-96 | Stores the results and moves to "done". |
| UploadModal.UploadWizard.OnUploadError | client/src/components/modals/upload-modal.tsx:97-101 | Sets "Failed to upload contract" and returns to "upload". |
| UploadModal.UploadWizard.HandleClose | client/src/components/modals/upload-modal.tsx:137-143 | Resets files, type, error and step to the initial values. The results store is kept. |
| UploadModal.UploadWizard.TryAnother | client/src/components/modals/upload-modal.tsx:227-229 | Returns to "upload" and keeps the files and the type. |
| UploadModal.UploadWizard.RemoveSelectedFile | client/src/components/modals/upload-modal.tsx:184 | Clears the files only. |
| UploadModal.DropReplacesSelection | client/src/components/modals/upload-modal.tsx:104-112 | The drop transition, in full, for empty and non-empty drops. |
| UploadModal.DetectionSteps | client/src/components/modals/upload-modal.tsx:60-128 | Detection starts only with a file and sends the first one. Success leads to "confirm" with the type; failure leads back to "upload" with its message. |
| UploadModal.AnalysisSteps | client/src/components/modals/upload-modal.tsx:92-135 | Analysis starts, and sends, exactly when there is a file and a truthy type. Success leads to "done" with the results; failure leads back to "upload" with its message. |
| UploadModal.CloseAndBack | client/src/components/modals/upload-modal.tsx:137-228 | Closing resets the dialog whatever the step. "Try another file" only changes the step. The trash button only clears the files. |
| UploadModal.InitialConsistent | client/src/components/modals/upload-modal.tsx:35-40 | The initial state is at "upload" with nothing selected and satisfies the invariant. |
| UploadModal.StepKeepsConsistent | client/src/components/modals/upload-modal.tsx:60-143 | Every event the dialog can receive in a state keeps the invariant. The invariant: detecting has a file; processing has a file and a type; confirm has a type. |
| UploadModal.RunKeepsConsistent | client/src/components/modals/upload-modal.tsx:60-143 | The invariant holds through any sequence of receivable events. |
| UploadModal.LateDetectionAfterClose | client/src/components/modals/upload-modal.tsx:60-143 | A detection result arriving after the dialog was closed still moves it to "confirm", now with no file. There the analyse button does nothing. |
| ContractModel.IpClausesAccepted | server/src/models/contract.model.ts:80-84 | The validator accepts exactly a string or an array whose every element is a string, the empty array included. |
| ContractModel.EveryStringMeans | server/src/models/contract.model.ts:83 | `every(item => typeof item === "string")` holds exactly when each element is a string. |
| ContractModel.IpClausesMessage | server/src/models/contract.model.ts:86-87 | The message is the value as shown followed by exactly " is not a valid string or array of strings!". |
| ContractModel.ValidExactly | server/src/models/contract.model.ts:57-106 | A record validates exactly when: user, contract text, summary and type are given (strings non-empty); the score is in [0, 100]; a rating is in [1, 5]; and the clauses, if given, pass the validator. |
| ContractModel.BoundsInclusive | server/src/models/contract.model.ts:69-93 | Both bounds are inclusive; 100.5 and 0 fall outside. |
| ContractModel.Default | server/src/models/contract.model.ts:91-99 | A default fills only a missing value. |
| ContractModel.DefaultsFillMissing | server/src/models/contract.model.ts:91-99 | Missing version, language and model become 1, "en" and "gemini-pro", the model the analysis uses. Given values are kept, applying defaults twice is applying them once, and defaults never change validity. |
| ContractModel.EntriesUnconstrained | server/src/models/contract.model.ts:60-61 | Risk and opportunity entries, severities and impacts included, never cause a violation. |
| ContractModel.ExtractedEntriesStorable | server/src/models/contract.model.ts:4-61 | A valid record stays valid with the fallback extractor's entries, which have no severity or impact. |

## Left out

- The language-model client, the PDF library and the key-value store are inputs. `generate`, `load` and the outcome of the store read are parameters, and their internals are not modelled.
- `JSON.parse` is the parameter `parse`. Which texts parse is not modelled.
- Strings are sequences of code points. JavaScript counts UTF-16 code units, so `substring(0, 2000)` can differ for text outside the Basic Multilingual Plane.
- ResultsView.Upper: upper-cases ASCII letters only, whereas `toUpperCase` also maps other scripts.
- Scores are exact reals. Floating-point rounding, `parseFloat` of a non-numeric string and `toFixed` are not modelled. A missing score on the dashboard's badge is NaN, modelled as `None`.
- The results page is modelled for a present score. A missing `overallScore` there, which would print NaN, is not modelled.
- UserContracts.TypeColour: a label naming an inherited object property (such as "constructor") would read that property in JavaScript. The model treats it as unknown and gives the "Other" class.
- PdfText.ExtractTextFromPdf: `JSON.stringify` of a thrown error is a detail string produced by the library. It is `{}` for the module's own errors. The console logging is not modelled.
- PdfText.ExtractTextFromPdf: the `data` array of a serialised buffer is modelled as integers. `new Uint8Array` also accepts other elements (numeric strings, fractions, values that convert to `NaN` and so to 0); that coercion is not modelled.
- The upload wizard's `isProcessing` button state, the `onClose` and `onUploadComplete` callbacks, router navigation, the dropzone's own file filtering and the HTTP requests are not modelled. Handlers return the request they would send.
- Document-database casting, `createdAt: Date.now` (a clock), `customFields`, `expirationDate`, `financialTerms` and the other unconstrained fields of the schema are not modelled.
- Rendering, animation, tabs and charts are not modelled.
