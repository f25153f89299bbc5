# Herbal garden: a Dafny model of its core logic

This project models the deterministic core of the virtual herbal garden and
its Ayurveda chat backend, and proves properties of it with Dafny:

- **Knowledge-base ingestion** (`KnowledgeBase`, `Upsert`): every pair of a
  health issue and one of its remedies becomes one index record. The record
  has a slug id, a fixed-template `chunk_text` and the copied descriptive
  fields. Records are sent to the index in batches of four.
- **PDF ingestion** (`PdfIngest`): extracted text is cut into overlapping
  windows of 800 characters that advance by 650. Each window is trimmed, and
  windows of 50 characters or fewer are dropped. A file whose trimmed text is
  shorter than 50 characters is skipped. Chunk ids are
  `pdf-<sanitised file name>-chunk-<i>`.
- **PDF generation** (`PdfLayout`): `drawWrappedText` wraps words greedily
  against a font-width function. The output file name is a slug of the
  condition.
- **Garden scene** (`Garden`, `Settings`, `Selection`):
  - the `seededRandom` linear congruential generator and how many numbers
    each scattering loop draws;
  - the grass, plant-grid and plant-box layouts;
  - the per-bed settings store with its reset operations and the row/column
    steppers;
  - bed selection, with its asynchronous AI-information request.
- **Chat backend** (`ChatServer`):
  - query validation and the reply when nothing is found;
  - the numbered context blocks (`buildContext`) and the scores shown in them;
  - fence clean-up of the model's answer and the shape of the reply;
  - the `/identify-plant` defaults;
  - the mapping of thrown errors to status 502 or 500.
- **Plant-information service** (`PlantInfo`): the `getPlantInfo` cache, the
  completeness check and the choice of error message.
- **Shared helpers** (`Text`, `Js`, `Arith`): JavaScript's white-space class
  and `trim`, ASCII lower-casing, `split`/`join`, decimal rendering, the
  markdown-fence clean-up, JavaScript values, truthiness, property reads,
  errors, and a few arithmetic lemmas.

Three kinds of outside service become function parameters of the model:
the vector index search, the generative model and `JSON.parse`. The font's
width function and the scene's position tests are parameters too.

## Model

| member | source | states |
|---|---|---|
| Text.TrimSpec | ayurveda-backend/server.js:128-132 | `trim` removes exactly the leading and trailing white space, so the result is a slice of the input with no white space at either end. It is empty exactly when the input is all white space. |
| Text.TrimIdempotent | ayurveda-backend/server.js:132 | Trimming an already trimmed query changes nothing. |
| Text.CollapseSpacesSplit | ayurveda-backend/ingestToPinecone.js:67 | A run of white space between two words becomes exactly one dash. |
| Text.Slug | ayurveda-backend/ingestToPinecone.js:67 | The lower-cased name with white-space runs turned into dashes has no white space and no upper-case letter. It is never longer than the name. For a name without white space it is just the lower-cased name. |
| Text.Split | ayurveda-backend/generatePDFs.js:57 | `split(" ")` yields at least one piece. No piece contains a space, and joining the pieces with spaces restores the text. |
| Text.ParseDecOfDec | ayurveda-backend/ingestPDFToPinecone.js:99 | The decimal rendering of a chunk index reads back as that index. |
| Text.CleanFencedJson | ayurveda-backend/server.js:157-160 | A model answer wrapped in a "```json" fence cleans to the trimmed JSON body. |
| Text.CleanWithoutBackticks | services/geminiService.js:52 | Text without backticks is only trimmed by the fence clean-up. |
| Js.Get | ayurveda-backend/server.js:126 | Reading a property throws a `TypeError` exactly on `null` and `undefined`. On an object it yields the member, or `undefined` when there is none. |
| Js.OrElse | ayurveda-backend/server.js:222-223 | `v \|\| fallback` keeps a truthy value and replaces a falsy one. |
| Upsert.UpsertInBatches | ayurveda-backend/ingestPDFToPinecone.js:111-119 | The batches number ceil(n/4) and each holds 1 to 4 records. Every batch but the last is full. Concatenated, they are the record list in order. |
| PdfIngest.WindowsSpec | ayurveda-backend/ingestPDFToPinecone.js:42-48 | The loop examines ceil(len/step) windows. Window k is the slice from k·step to min(k·step + size, len). |
| PdfIngest.WindowsCoverText | ayurveda-backend/ingestPDFToPinecone.js:42-48 | When the overlap is non-negative, every character of the text lies in some window, so no text falls between windows. |
| PdfIngest.LongChunksSpec | ayurveda-backend/ingestPDFToPinecone.js:44-47 | The kept chunks are exactly the trimmed windows longer than 50 characters, in window order. |
| PdfIngest.KeptIndicesComplete | ayurveda-backend/ingestPDFToPinecone.js:45-46 | Every trimmed window longer than 50 characters is kept. |
| PdfIngest.ChunksBounded | ayurveda-backend/ingestPDFToPinecone.js:43-46 | Every kept chunk has more than 50 and at most `chunkSize` characters. |
| PdfIngest.ChunkText | ayurveda-backend/ingestPDFToPinecone.js:39-51 | The loop returns the long trimmed windows, in order. Each has more than 50 and at most `chunkSize` characters, and an empty text gives no chunks. |
| PdfIngest.SanitizeFileName | ayurveda-backend/ingestPDFToPinecone.js:99 | Every character outside `[a-zA-Z0-9]` becomes a dash and letters are lower-cased. The length is kept. |
| PdfIngest.ChunkIdsDistinct | ayurveda-backend/ingestPDFToPinecone.js:99 | Within one file, two chunk ids are equal exactly when the indices are. |
| PdfIngest.ChunkIdsCanCollideAcrossFiles | ayurveda-backend/ingestPDFToPinecone.js:99 | Two different file names ("a b.pdf", "a_b.pdf") give the same id for chunk 0. |
| PdfIngest.IngestPdfText | ayurveda-backend/ingestPDFToPinecone.js:88-119 | A text shorter than 50 characters once trimmed is skipped. Otherwise the records are the chunks with pairwise distinct ids, each chunk has 51 to 800 characters, and the batches concatenate to the records. |
| KnowledgeBase.RemedyId | ayurveda-backend/ingestToPinecone.js:67 | The id is the condition's slug, a dash, then the plant name's slug. It has no white space and no upper case. |
| KnowledgeBase.RemedyChunkText | ayurveda-backend/ingestToPinecone.js:70 | The embedded text consists of the template's fixed pieces with the condition, the plant name and the preparation in their places, each copied verbatim. |
| KnowledgeBase.RemedyChunkTextInjective | ayurveda-backend/prepareRecords.js:11 | When neither name contains an apostrophe, the embedded text determines the condition, the plant name and the preparation. |
| KnowledgeBase.IssueRemedyRecords | ayurveda-backend/ingestToPinecone.js:66-77 | An issue gives one record per remedy, in remedy order. |
| KnowledgeBase.KnowledgeBaseRecordsLength | ayurveda-backend/ingestToPinecone.js:64-78 | There is exactly one record per (issue, remedy) pair. |
| KnowledgeBase.KnowledgeBaseRecordAt | ayurveda-backend/ingestToPinecone.js:64-78 | Remedy j of issue i is record number (remedies of the issues before i) + j. |
| KnowledgeBase.KnowledgeBaseRecordFrom | ayurveda-backend/ingestToPinecone.js:64-78 | Every record is the record of some issue and one of its remedies. |
| KnowledgeBase.PrepareRecords | ayurveda-backend/prepareRecords.js:6-19 | The nested loops compute the same transform as the ingestion script, one record per remedy. |
| KnowledgeBase.IngestKnowledgeBase | ayurveda-backend/ingestToPinecone.js:64-93 | The records are the transform. They are sent in ceil(n/4) batches of 1 to 4 records that concatenate to the record list. |
| KnowledgeBase.RemedyIdWithoutSpaces | ayurveda-backend/ingestToPinecone.js:67 | For names without white space the id is the two lower-cased names joined by a dash. |
| KnowledgeBase.RemedyIdIgnoresCase | ayurveda-backend/ingestToPinecone.js:67 | The id does not depend on the case of either name. |
| KnowledgeBase.RemedyIdsCollideOnWordSplit | ayurveda-backend/ingestToPinecone.js:67 | ("a b", "c") and ("a", "b c") get the same id, so the later record replaces the earlier one in the index. |
| PdfLayout.WrapFrom | ayurveda-backend/generatePDFs.js:59-73 | No drawn line is empty. A pending line is always drawn. |
| PdfLayout.WrapFromWideIsWord | ayurveda-backend/generatePDFs.js:60-67 | A line wider than the maximum is a single word: a line is only broken when it already holds a word. |
| PdfLayout.WrapFromGreedy | ayurveda-backend/generatePDFs.js:60-67 | For text without empty words the wrap is greedy: each line followed by the next line's first word would be wider than the maximum. |
| PdfLayout.WrapFromFull | ayurveda-backend/generatePDFs.js:60-67 | For any words, empty ones included, a line is emitted only when the word that follows it, which starts the next line, makes it wider than the maximum. |
| PdfLayout.WrapFull | ayurveda-backend/generatePDFs.js:56-74 | For every text, each drawn line but the last is followed by a line that starts with a word that did not fit on it. |
| PdfLayout.WrapJoin | ayurveda-backend/generatePDFs.js:57-73 | For text without empty words, the drawn lines joined by spaces give the text back. Every word is drawn once, in order. |
| PdfLayout.WrapLines | ayurveda-backend/generatePDFs.js:57-73 | Every line of a wrapped text is non-empty, and a line wider than the maximum holds no space. |
| PdfLayout.DrawWrappedText | ayurveda-backend/generatePDFs.js:56-74 | The loop draws exactly the wrapped lines, line k at y − k·(size + 4). The cursor ends one line advance below the last line. |
| PdfLayout.PdfFileNameClean | ayurveda-backend/generatePDFs.js:158 | The file name ends in "-remedies.pdf". It has no white space, no upper case and no comma. |
| PdfLayout.PdfFileNameOfCommaList | ayurveda-backend/generatePDFs.js:158 | "A, B" becomes "a-b-remedies.pdf": the comma goes, the space becomes a dash. |
| Garden.NextSeed | App.jsx:222-226 | Every generator state after a draw is below 233280. |
| Garden.DrawInUnitInterval | App.jsx:223-226 | Every drawn number lies in [0, 1). |
| Garden.SeedAfterAdd | App.jsx:222-226 | Drawing m numbers and then n is drawing m + n: the sequence depends on the initial seed alone. |
| Garden.ColourIndex | App.jsx:284 | The colour index floor(r·6) is one of the six greens. |
| Garden.GrassStepWellFormed | App.jsx:257-285 | One iteration pushes a blade and a colour together or neither. It keeps the earlier blades, and every colour index stays below 6. |
| Garden.GrassAfterWellFormed | App.jsx:257-285 | After n iterations there are as many colours as blades, at most n of them, all valid. |
| Garden.Grassland | App.jsx:202-285 | The memoised loop yields the 2000-iteration state from seed 12345. It produces equally many blades and colours, at most 2000, with every colour in range. |
| Garden.PlantGrid | App.jsx:543-564 | The grid has rows·cols plants in row-major order. Plant k sits in row k/cols and column k%cols, and draws generator states 3k+1 to 3k+3 from seed `modelPath.length·1000`. |
| Garden.CeilSqrt | App.jsx:664 | `Math.ceil(Math.sqrt(n))` is the least r with r·r ≥ n. |
| Garden.BoxGridLargeEnough | App.jsx:664-665 | The box grid has room for every plant, and both dimensions are positive for a non-empty box. |
| Garden.BoxCellInside | App.jsx:667-670 | Plant i's row and column lie inside the grid. |
| Garden.BoxCellsDistinct | App.jsx:667-670 | Different plants get different cells. |
| Garden.PlantBox | App.jsx:664-692 | One cell per plant, filled row by row. Every cell lies inside the grid and no two plants share a cell. |
| Garden.ColourSlot | App.jsx:658 | `plantType % 6` truncates toward zero: it lies in [0, 6) for non-negative types and in (−6, 0] for negative ones, congruent to the type. |
| Settings.LookupFinds | App.jsx:435 | A model listed in the defaults table gets its own entry. |
| Settings.LookupMisses | App.jsx:435 | A model missing from the table gets the fallback configuration. |
| Settings.BedDefaultsComplete | App.jsx:448-450 | Every bed's defaults, listed or fallback, carry the five keys. |
| Settings.InitialStore | App.jsx:431-439 | The initial store has exactly the beds of the plant data, each holding its model's defaults. |
| Settings.UpdateSettingSpec | App.jsx:441-446 | An update sets one key of one bed, keeps that bed's other keys and leaves every other bed unchanged. A bed without settings gets a one-key object. |
| Settings.ResetBedSpec | App.jsx:448-455 | A reset gives the bed its complete defaults and leaves every other bed unchanged. |
| Settings.RunCovers | App.jsx:441-465 | No sequence of updates and resets loses a bed of the plant data or one of its keys. |
| Settings.InitialCovers | App.jsx:431-439 | The starting store holds every bed of the plant data with all five settings. |
| Settings.SessionCovers | App.jsx:430-465 | From the starting store, every bed keeps all five settings through any session. |
| Settings.RunThenResetAll | App.jsx:457-465 | `resetAll` after any session restores the initial store. |
| Settings.ResetBedUndoes | App.jsx:441-455 | From the initial store, any updates of one bed followed by its reset give the initial store back. |
| Settings.StepDown | App.jsx:976 | The "−" button never goes below 1 and otherwise subtracts one. |
| Settings.StepUp | App.jsx:978 | The "+" button never goes above 6 and otherwise adds one. |
| Settings.StepperRoundTrip | App.jsx:976-986 | Inside [1, 6] the two buttons undo each other and stay in range. |
| Settings.LemongrassStepper | App.jsx:416 | The lemon-grass bed starts at 12 rows, so its "+" button lowers the rows to 6 while "−" gives 11. |
| Selection.SelectBed | App.jsx:46-58 | The selection is recorded and the AI data cleared. Loading starts exactly for a non-empty id of a bed in the plant data, and only then is a request for that bed's plant issued. |
| Selection.ClickToggles | App.jsx:598-601 | A click selects the bed exactly when it was not already selected. |
| Selection.ClickTwice | App.jsx:598-601 | Two clicks on a bed restore an empty selection or that bed's selection. After any other selected bed, they leave nothing selected. |
| Selection.ResolveAsWritten | App.jsx:51-54 | The answer callback stores the answer and stops loading, whatever is selected now. |
| Selection.StaleAnswerShown | App.jsx:46-58 | Select "a", then "b", then a's answer arrives: the panel headed by b shows a's plant information. |
| Selection.Resolve | App.jsx:51-54 | Corrected callback: only the latest request, with its bed still selected, stores its answer. |
| Selection.StepCoherent | App.jsx:46-58 | With stale answers dropped, every event keeps the panel coherent: AI data only describes the selected bed's plant. |
| Selection.RunCoherent | App.jsx:46-58 | Coherence holds after any sequence of selections, clicks and answers. |
| Selection.LatestAnswerShown | App.jsx:46-58 | The answer to the latest request for the selected bed is shown and ends loading. |
| ChatServer.ToFixed3 | ayurveda-backend/server.js:108 | `toFixed(3)` gives digits, a point and three decimals, with a leading minus for a negative score. |
| ChatServer.ToFixed3Close | ayurveda-backend/server.js:108 | A non-negative score's text reads back within half a thousandth of the score. |
| ChatServer.ToFixed3Negative | ayurveda-backend/server.js:108 | A negative score is shown as a minus sign and the text of its magnitude, which reads back within half a thousandth of the magnitude. |
| ChatServer.FieldOr | ayurveda-backend/server.js:109-113 | A present non-empty field is shown; a missing object, key or empty value shows the placeholder. |
| ChatServer.BuildContext | ayurveda-backend/server.js:104-116 | No hits give an empty context; otherwise the context starts with the first hit's block, numbered 1. |
| ChatServer.BuildContextAppend | ayurveda-backend/server.js:104-116 | A further hit adds its block, numbered one past the others, after a blank line. |
| ChatServer.HitBlocksDistinct | ayurveda-backend/server.js:107-108 | Blocks are told apart by their numbers. |
| ChatServer.ErrorStatus | ayurveda-backend/server.js:173-177 | A thrown `SyntaxError` gives 502; anything else gives 500. |
| ChatServer.AnswerBodyFields | ayurveda-backend/server.js:164-169 | The reply carries exactly the four answer fields the model filled in, with their values; fields left `undefined` are omitted. |
| ChatServer.ModelReply | ayurveda-backend/server.js:157-169 | A parse failure gives 502. A `null` answer gives 500. A parsed answer gives 200 with its four fields. |
| ChatServer.Answer | ayurveda-backend/server.js:135-177 | Without hits the canned reply is sent. Otherwise the model's answer is handled as above. A failed search or model call gives 502 for a `SyntaxError` and 500 for anything else, with the matching message. |
| ChatServer.Chat | ayurveda-backend/server.js:124-179 | The status is 200, 400, 500 or 502. It is 400 exactly when the body can be read and its `query` is not a string with non-white-space content; an unreadable body gives 500 with the internal-error message. Each error status has its message. |
| ChatServer.ChatTrimsQuery | ayurveda-backend/server.js:132 | White space around the query changes nothing in the reply. |
| ChatServer.ChatNoHits | ayurveda-backend/server.js:137-145 | Without hits the canned reply is sent, whatever the model would say. |
| ChatServer.ChatFencedAnswer | ayurveda-backend/server.js:151-169 | A fenced JSON answer is parsed without its fence and returned with status 200. |
| ChatServer.MimeTypeOf | ayurveda-backend/server.js:190 | A non-empty MIME type is passed on and an empty one falls back to "image/jpeg", so the type sent is never empty. |
| ChatServer.IdentifyPlant | ayurveda-backend/server.js:182-234 | 400 exactly without a file. With a file, 502 exactly when the model call or the parse throws a `SyntaxError`, and 200 exactly when the parse yields a value other than `null`; every other failure gives 500. Each error status has its message. A 200 reply holds exactly `identified_plant` and `medical_value`, both truthy. |
| ChatServer.IdentifyDefaults | ayurveda-backend/server.js:221-224 | Filled-in fields are passed through; missing or falsy ones get their defaults. |
| PlantInfo.CaughtMessage | services/geminiService.js:61-72 | The message is chosen in this order: a message mentioning "fetch" or "network" means a network error; then `SyntaxError` means a parse failure; then the error's own message; then the generic one. It is never empty. |
| PlantInfo.CheckAnswer | services/geminiService.js:52-57 | A parsed answer is accepted exactly when it is complete, with all three descriptive fields truthy, and then it is returned as parsed. A parse error is passed on. A `null` answer is a `TypeError`, and any other incomplete answer is an error carrying the "Incomplete response from AI" message. |
| PlantInfo.GetPlantInfo | services/geminiService.js:29-73 | A cached plant is answered from the cache, before the key is checked. Without a key the call fails and the cache is unchanged. Otherwise a complete checked answer is returned and cached under that plant. A failure of the model or of the check gives the error object carrying that error's message, and the cache is unchanged. |
| PlantInfo.GetPlantInfoKeepsCache | services/geminiService.js:55-60 | Only complete answers are cached, so every result is complete or an error object. |
| PlantInfo.GetPlantInfoTwice | services/geminiService.js:30-32 | Once a plant's answer is complete, asking again returns it without consulting the key or the model. |
| PlantInfo.GetPlantInfoFenced | services/geminiService.js:46-60 | A complete answer in a "```json" fence is parsed without the fence and cached. |

## Left out

- Rendering, the 3D scene, PDF drawing calls, file and network I/O, the index
  client, the model client, environment variables and process exits. Where
  their results matter they are parameters, as listed above.
- String lengths: strings are sequences of Unicode code points, while
  JavaScript counts UTF-16 code units. The chunk sizes and the 50-character
  guard therefore agree with the source only for text within the Basic
  Multilingual Plane.
- PdfIngest.SanitizeFileName: works on code points, while the source's
  `/[^a-zA-Z0-9]/g` (without the `u` flag) works on UTF-16 code units. A
  character outside the Basic Multilingual Plane becomes one dash here and two
  dashes in the source, so `ChunkId` differs from the source's id for such
  file names.
- `toLowerCase` is modelled on ASCII letters only. Other letters are left
  unchanged.
- Floating-point geometry (positions, rotations, heights, scales, line widths)
  is abstract. The model keeps the generator states each value is drawn from
  and the exact integer thresholds those draws are compared against.
- Garden.ColourIndex: takes `floor(r·6)` as `seed·6 / 233280` on exact
  values. This assumes the floating-point product does not round across an
  integer.
- Garden.CeilSqrt: is the exact ceiling of the square root. The source's
  floating-point `Math.sqrt` agrees with it for the plant counts a box can
  hold.
- Garden.PlantGrid: rows and columns are natural numbers. The source takes
  them from the settings store, where the steppers keep them whole.
- ChatServer.ToFixed3: values of 10^21 and above, which `toFixed` prints in
  exponent form, are not modelled. Scores are small.
- ChatServer.FieldOr: field values are strings. Non-string values
  interpolated into the template are not modelled.
- Settings.LookupFinds: plain-object lookups of inherited keys such as
  "constructor" are not modelled. The table holds only the listed models.
- Selection.SelectBed: the same holds for `plantData[bedId]`, and the answer
  to a request is a function of the plant name, not a live service call.
- The page-break and multi-page logic of the PDF generator, and the text
  drawn around the wrapped paragraphs, are not modelled.
- `JSON.parse` is a parameter. The model relies only on its contract: a value
  or a `SyntaxError`.
- `GRASS_COUNT`'s scattering tests (`isValidPosition`,
  `getPathEdgeDistance`) are parameters, as they are floating-point geometry.
- The prompts' fixed instruction texts are parameters. Only their position
  in the prompt is modelled.

## Findings

| source | as written | input that shows it | evidently intended | confidence | as-written member | corrected member |
|---|---|---|---|---|---|---|
| App.jsx:46-58 | The `getPlantInfo(...).then` callback stores its answer and clears the loading flag, whatever bed is selected by the time it runs. | Select bed "a" (plant Tulsi), then bed "b" (plant Neem) before the first answer arrives. When Tulsi's answer arrives, the panel headed "AI Insights — Neem" shows Tulsi's information and stops loading. | Only the answer to the latest request, for the bed still selected, is shown. | medium, not executed | Selection.StaleAnswerShown | Selection.RunCoherent |
