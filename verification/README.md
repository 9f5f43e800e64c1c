# Loupe kernels

A Dafny model of the small kernels inside the Loupe code scanner that have to be
right for every input: what gets hashed, what keeps hostile text inside its
block, what bounds a budget, and what a whole run of transitions can reach. Loupe is
written in Rust. Its `fuzz/src` directory holds reference algorithms that its product
modules are compared with; where both exist, both are modelled here and proved to compute the
same thing, so that the comparison holds for all inputs.

| file | part of Loupe |
|---|---|
| `InventoryManifest.dfy` | the streaming hasher of a Git inventory: entries, length-prefixed stream, runs of pushes |
| `Json.dfy`, `CanonicalJson.dfy` | JSON trees, their rendering and an RFC 8259 reader; canonical bytes |
| `BoundedJson.dfy` | the bounded admission of JSON: budgets threaded through two different walks |
| `PendingFollowUp.dfy` | the coalescing follow-up document, over whole runs of merges |
| `PromptBlocks.dfy`, `PromptReader.dfy` | prompt data blocks: marked codec, boundary selection, composition decoder, and a reader of the tags |
| `ReportFences.dfy` | report fields in adaptive fences (section 4.5 of CommonMark 0.31) and the fence scanner |
| `Terminal.dfy`, `FindingReader.dfy`, `Calendar.dfy` | the coloured finding renderer and list rows, a reader of what they show, and proleptic Gregorian dates |
| `BrokerUsage.dfy`, `BrokerOutput.dfy` | token usage walks; the shared output ceiling as a concurrent state machine |
| `RequestBudget.dfy` | the refilling byte budget, its replay, and power-of-two buffer growth |
| `RetryPolicy.dfy` | capped exponential backoff |
| `Lifecycle.dfy` | job and finding lifecycles over whole runs, verdict rollup |
| `LeadIdentity.dfy` | the NUL-joined identity frame and the transient-identifier scanner |
| `Bytes.dfy`, `Hexadecimal.dfy`, `Decimal.dfy`, `Search.dfy`, `TextLines.dfy`, `Wrappers.dfy` | shared vocabulary |

## Reading the model

- Text is a sequence of Unicode scalars. Wherever the source counts or compares bytes
  (`len`, the ordering of strings, the boundary window) the model uses the UTF-8 encoding
  of the text, defined in `Bytes.Utf8` and proved injective.
- BLAKE3 is opaque: theorems are about the bytes that are fed to it.
- JSON numbers are opaque tokens. A tree is `Distinct` when no object repeats a key, which the
  source's map type guarantees; it is `Tokens` when its number tokens are made of number
  characters.
- Text policies, Unicode tables and the JSON parser used for provider responses are function
  parameters. A theorem that needs a fact about them names it (`Idempotent`,
  `KeepsFixedTexts`, `KeepsNulOut`).
- A panic or a failed assertion of a reference decoder is `None`. Integer widths,
  saturation, truncating division and overflow are written out.
- Objects that the source updates in place are classes; each method is proved against a
  function of the old state, and the theorems are about that function.
- Writers are tied to readers that share nothing with them but the layout: a stream decoder, a
  tag reader, a line reader, positions of digits.
- Clocks, random draws and network chunks are parameters.

Where the code is stricter or looser than one might expect, the model follows the code:

- an empty provider chunk ends the stream and is reported as an overflow, since nothing
  could be reserved for it;
- `format_unix` counts the sign in the width of the year, so years before 0 pad to three digits;
- a composition decodes exactly when no *encoded* payload holds the boundary; a boundary that a
  separator happens to break is not a collision for the decoder, though the product still
  refuses it because it also looks in the original.

## Model

| member | source | states |
|---|---|---|
| `Hexadecimal.HexDecodesText` | crates/loupe-core/src/inventory_manifest.rs:53-68 | decoding lowercase hex undoes spelling bytes as hex, for all bytes |
| `Hexadecimal.HexEncodesBytes` | crates/loupe-core/src/inventory_manifest.rs:53-68 | every accepted hex text is the spelling of the bytes it decodes to: one spelling per path |
| `Hexadecimal.HexAt` | crates/loupe-core/src/inventory_manifest.rs:53-68 | byte i is spelled by digits 2i and 2i + 1, the high half first |
| `Bytes.LexLessAt` | crates/loupe-core/src/inventory_manifest.rs:181 | the order of paths is decided at the first differing byte, a proper prefix coming first |
| `InventoryManifest.SplitHoldsComponents` | crates/loupe-core/src/inventory_manifest.rs:98-100 | splitting a path at slashes yields exactly its slash-delimited components, defined by positions and not by splitting |
| `InventoryManifest.FromParts` | crates/loupe-core/src/inventory_manifest.rs:94-114 | an entry is admitted exactly when its path is bounded, NUL-free and has no empty, dot or dot-dot component, its mode is one of four and its object id is 40 or 64 lowercase hex digits; which of the three errors otherwise |
| `InventoryManifest.EncodedAdmission` | crates/loupe-core/src/inventory_manifest.rs:80-92 | the hex wire form admits exactly what the raw form admits, and whatever it admits has exactly one wire spelling |
| `InventoryManifest.EntryPrefixFree` | crates/loupe-core/src/inventory_manifest.rs:191-195 | one record determines where it ends: if two streams start with records, the records and the remainders agree |
| `InventoryManifest.HeaderPrefixFree` | crates/loupe-core/src/inventory_manifest.rs:165-176 | the header determines the commit and the announced count |
| `InventoryManifest.BodyInjective` | crates/loupe-core/src/inventory_manifest.rs:191-195 | equally long lists of entries with equal bytes are equal |
| `InventoryManifest.AdmitsIffStillAccepted` | crates/loupe-core/src/inventory_manifest.rs:178-204 | the push guard admits an entry exactly when appending it keeps the invariant of the run (count, strict path order, byte cap), and the byte count grows by the canonical length |
| `InventoryManifest.Run` | crates/loupe-core/src/inventory_manifest.rs:178-204 | after any run of accepted and rejected pushes the accepted entries are strictly increasing, at most the announced count, and within the byte cap |
| `InventoryManifest.RunErasesRejected` | crates/loupe-core/src/inventory_manifest.rs:178-204 | the state equals that of the run with the rejected pushes erased |
| `InventoryManifest.RunAcceptsOrdered` | crates/loupe-core/src/inventory_manifest.rs:178-204 | an ordered inventory within the caps is accepted whole |
| `InventoryManifest.StreamIdentity` | crates/loupe-core/src/inventory_manifest.rs:164-211 | two complete streams are equal if and only if commit and set of entries are |
| `InventoryManifest.ManifestHasher.New` | crates/loupe-core/src/inventory_manifest.rs:165-176 | refuses exactly a count above the limit or a bad commit, in that order, and otherwise starts an empty valid hasher |
| `InventoryManifest.ManifestHasher.Push` | crates/loupe-core/src/inventory_manifest.rs:178-200 | accepts exactly what keeps the run valid and appends it; a rejected push changes nothing; which error |
| `InventoryManifest.ManifestHasher.Finish` | crates/loupe-core/src/inventory_manifest.rs:206-211 | succeeds exactly when every announced entry arrived, and the hashed bytes are header and records in order |
| `InventoryManifest.NumberOfBigEndian` | crates/loupe-core/src/inventory_manifest.rs:174-193 | a left-to-right reader (value so far times 256 plus the next byte) gives each length, mode and count back |
| `InventoryManifest.ReadsStream` | crates/loupe-core/src/inventory_manifest.rs:165-200 | a stream decoder that knows only the layout recovers the commit, the count and every entry, in order, from the header and records |
| `InventoryManifest.FinishedStreamReads` | crates/loupe-core/src/inventory_manifest.rs:165-211 | so the bytes a finished hasher was fed read back as its commit and its accepted entries |
| `InventoryManifest.FinishedHashersAgree` | crates/loupe-core/src/inventory_manifest.rs:164-211 | two finished hashers were fed equal bytes if and only if they have one commit and accepted one set |
| `Json.ReadEscaped` | crates/loupe-core/src/text/json_string.rs:71-119 | reading an escaped string gives the string back, whatever follows its closing quote |
| `Json.ReadRendered` | crates/loupe-core/src/canonical.rs:10-17 | reading a rendered tree gives the tree and the text after it |
| `CanonicalJson.OrderedIsSorted` | crates/loupe-core/src/canonical.rs:27-41 | ordering sorts the keys of every object at every depth |
| `CanonicalJson.OrderedIffSame` | crates/loupe-core/src/canonical.rs:27-41 | two trees order to the same tree if and only if they are equal up to object-field order, arrays keeping theirs |
| `CanonicalJson.ParseCanonical` | crates/loupe-core/src/canonical.rs:10-17 | parsing the canonical text gives the tree with fields sorted at every depth, which is the same tree up to field order and has the same canonical bytes |
| `CanonicalJson.CanonicalIsShortest` | crates/loupe-core/src/canonical.rs:15 | no text that parses to the sorted tree is shorter than the canonical text: no optional escape and no white space is written |
| `Json.EscapeIsLowercase` | crates/loupe-core/src/canonical.rs:15 | the only long escapes are `\u00` and two lowercase digits that spell the control character |
| `CanonicalJson.CanonicalIdentity` | crates/loupe-core/src/canonical.rs:10-41 | two trees have equal canonical bytes if and only if they are equal up to field order |
| `BoundedJson.Normalize` | fuzz/src/core_text_json.rs:81-115 | the early-exit reference walk accepts exactly when whole-tree node count, depth, key and text bytes fit what is left, every key and leaf is admissible and no object repeats a key; result is the normalized tree sorted everywhere; the budget grows by the tree's totals |
| `BoundedJson.NormalizeObject` | fuzz/src/core_text_json.rs:95-112 | the two passes over an object (all keys, then the values in key order) charge exactly what the object holds |
| `BoundedJson.ChargeKeys` | fuzz/src/core_text_json.rs:96-103 | the key pass succeeds exactly when all keys are admissible and distinct, and charges all their bytes |
| `BoundedJson.Visit` | crates/loupe-core/src/text/json.rs:110-175 | the product's streaming walk, which charges keys and values interleaved and checks bytes at once, accepts exactly the same trees and normalizes them in place |
| `BoundedJson.VisitFields` | crates/loupe-core/src/text/json.rs:161-175 | one object of the streaming walk: same acceptance condition, fields kept in input order |
| `BoundedJson.ReferenceAdmit` | fuzz/src/core_text_json.rs:117-127 | the reference decides admission and text exactly as the declarative definition |
| `BoundedJson.CheckedParse` | crates/loupe-core/src/text/json.rs:19-40 | the product decides admission and text of a raw document exactly as the declarative definition, so it agrees with the reference |
| `BoundedJson.AdmitMeans` | fuzz/src/core_text_json.rs:81-126 | without any walk: admitted exactly when the list of nodes is short enough, the strings and keys they hold are small enough, no path is too long, every node is admissible on its own, and the canonical bytes fit; the text is the canonical text of the normalized tree |
| `BoundedJson.OrderedReplaced` | crates/loupe-core/src/text/json.rs:33-40 | normalizing leaves and sorting fields commute, which is why the two walks agree |
| `BoundedJson.FieldOrderIrrelevant` | fuzz/src/core_text_json.rs:104-110 | trees equal up to field order get the same verdict and the same text |
| `BoundedJson.AdmissibleIsDistinct` | fuzz/src/core_text_json.rs:96-103 | an admissible tree repeats no key at any depth, nor does its normalized form |
| `BoundedJson.TextWithinRendering` | fuzz/src/core_text_json.rs:122-127 | the text a tree holds never exceeds the bytes that render it |
| `BoundedJson.Readmission` | fuzz/src/core_text_json.rs:146-150 | admitted text parses to the sorted, normalized tree, and admitting that again yields the same text |
| `PendingFollowUp.New` | crates/loupe-core/src/pending_follow_up.rs:52-79 | the in-place push and drain of the trigger list computes the declarative merge, admission included |
| `PendingFollowUp.IndexOrdered` | crates/loupe-core/src/pending_follow_up.rs:57-66 | looking a key up in the stored, sorted document finds the value written under that key |
| `PendingFollowUp.MergeStep` | crates/loupe-core/src/pending_follow_up.rs:52-79 | one admitted merge over a stored document stores the last 16 triggers, the new ref and the retained intent, in a form that storing again does not change |
| `PendingFollowUp.RunCoalesces` | crates/loupe-core/src/pending_follow_up.rs:52-79 | after any run of admitted merges from nothing, the document lists exactly the last 16 requests in order, the last ref, and full review if and only if some request of the whole run asked for it, even one that left the window |
| `PendingFollowUp.RunRecordsRequests` | crates/loupe-core/src/pending_follow_up.rs:64-76 | the stored list has min(length of the run, 16) entries, and its i-th entry spells trigger, normalized ref, time and intent of the request that far into the last 16 |
| `Calendar.CivilRoundTrip` | crates/loupe-cli/src/render.rs:316-328 | for every day number the result is a valid Gregorian date whose day number is the one converted |
| `Calendar.CivilOfDayNumber` | crates/loupe-cli/src/render.rs:316-328 | conversely, every valid date is the conversion of its own day number |
| `Calendar.CivilSteps` | crates/loupe-cli/src/render.rs:316-328 | day 0 is 1970-01-01 and each next day is the calendar's next day, month lengths and leap years included |
| `Calendar.CivilMonotone` | crates/loupe-cli/src/render.rs:316-328 | later day numbers give later dates |
| `Calendar.NoOverflow` | crates/loupe-cli/src/render.rs:302-328 | for every 64-bit timestamp each signed intermediate stays in 64 bits and each unsigned one stays non-negative |
| `Calendar.FormatUnixRoundTrip` | crates/loupe-cli/src/render.rs:302-312 | a reader of the text, which takes digits by position and converts the date by its day number, gives the timestamp back |
| `Calendar.FormatUnixShape` | crates/loupe-cli/src/render.rs:311 | the text ends in `-MM-DD hh:mm:ss UTC` with two digits each; the year has at least four characters, sign counted, and no zeros beyond that; 23 characters in all for years 0 to 9999 |
| `Calendar.FormatUnixInjective` | crates/loupe-cli/src/render.rs:302-312 | two renderings are equal if and only if the timestamps are |
| `Terminal.TerminalText` | crates/loupe-cli/src/render.rs:79-90 | the run-by-run escaping loop writes the character-wise escape of its text |
| `Terminal.EscapedVisible` | crates/loupe-cli/src/render.rs:79-90 | text without controls is shown as it is |
| `Terminal.EscapeControlReads` | crates/loupe-cli/src/render.rs:82-83 | a control's escape reads back as the control, in two characters exactly for tab, line feed and carriage return, otherwise in lowercase hexadecimal without leading zeros |
| `Terminal.ColorIsInvisible` | crates/loupe-cli/src/render.rs:59-65 | stripping the known ANSI sequences from any painted output gives the plain output, which holds no control but line feed |
| `Terminal.Output.Metadata` | crates/loupe-cli/src/render.rs:160-190 | appends the metadata rows to the shared buffer, in either style |
| `Terminal.Output.UnifiedDiff` | crates/loupe-cli/src/render.rs:250-267 | appends each diff line painted by its first characters |
| `Terminal.Output.Audit` | crates/loupe-cli/src/render.rs:212-240 | appends the audit section only when a decision was recorded |
| `Terminal.Finding` | crates/loupe-cli/src/render.rs:129-144 | the buffer-appending renderer produces, in both styles, the rendering of one style-independent list of spans |
| `Terminal.FindingClean` | crates/loupe-cli/src/render.rs:129-267 | whatever the finding holds, every span of its rendering is free of controls |
| `Terminal.FindingColorIsInvisible` | fuzz/src/cli_render.rs:77-128 | for every finding, removing the seven ANSI sequences from the coloured rendering gives the plain one, which has no control but line feed |
| `FindingReader.FindingShows` | crates/loupe-cli/src/render.rs:129-267 | a reader that knows only lines, labels and headings gets every field back from the rendering, in both styles: number, severity and title; place, repository, job, scanner, state, CWE, creation time, verification and fingerprint each under its own label; description, proof of concept and patch line by line in order; who decided what and when |
| `Terminal.ColumnsOfJoin` | crates/loupe-cli/src/render.rs:93-118 | columns without controls, joined by tabs, split back into exactly those columns |
| `Terminal.RowColumns` | crates/loupe-cli/src/render.rs:93-126 | list and search rows have exactly 7 and 5 tabs and split into exactly the intended columns, whatever the data |
| `FindingReader.RowsShowFields` | crates/loupe-cli/src/render.rs:93-126 | every column of a list or search row reads as the field it is for |
| `PromptBlocks.EncodedIsCanonical` | crates/loupe-worker/src/llm/prompt.rs:343-362 | the streaming encoder and the group-wise definition agree |
| `PromptBlocks.Encode` | crates/loupe-worker/src/llm/prompt.rs:343-362 | the encoder's loop writes the canonical encoding, or the text itself when delimited |
| `PromptBlocks.DecodePayload` | fuzz/src/worker_prompt_render.rs:97-125 | the decoding loop, with its final canonicity test, computes the declarative decoder |
| `PromptBlocks.CodecBijection` | fuzz/src/worker_prompt_render.rs:97-125 | decoding inverts encoding, and accepts nothing but encodings, in both modes |
| `PromptBlocks.CanonicalLength` | crates/loupe-worker/src/llm/prompt.rs:343-362 | the encoding adds one character for each marker and two between every 32 scalars and the next, nothing else |
| `PromptBlocks.EncodingKeepsBoundaryOut` | crates/loupe-worker/src/llm/prompt.rs:212-227 | a hexadecimal boundary absent from the original is absent from its encoding, despite separators and doubled markers |
| `PromptBlocks.EarlyCloseHoldsBoundary` | fuzz/src/worker_prompt_render.rs:87-90 | a closing tag found inside or straddling a payload puts the boundary inside the payload |
| `PromptBlocks.FirstCloseIsOwn` | fuzz/src/worker_prompt_render.rs:87-90 | the first closing tag after a payload without the boundary is the payload's own |
| `PromptBlocks.Finish` | crates/loupe-worker/src/llm/prompt.rs:256-286 | the loop over parts writes the preamble and every part, data framed |
| `PromptBlocks.DecodeComposition` | fuzz/src/worker_prompt_render.rs:70-95 | the consuming loop computes the declarative decomposition, refusing any byte out of place |
| `PromptBlocks.CompositionRoundTrip` | fuzz/src/worker_prompt_render.rs:70-95 | for all trusted spans and payloads, decoding the framed text returns exactly the payloads in both modes when none holds the boundary |
| `PromptBlocks.ExactlyFramed` | fuzz/src/worker_prompt_render.rs:70-95 | the decoder accepts a text if and only if it is framed from the recipe with canonical payloads free of the boundary, and then returns those payloads |
| `PromptBlocks.BlockReads` | crates/loupe-worker/src/llm/prompt.rs:263-281 | an attribute reader that goes by position finds field, source and boundary in that order, and the boundary it reads is the one the block's own closing tag carries |
| `PromptBlocks.PartIsRead` | crates/loupe-worker/src/llm/prompt.rs:256-286 | at its place in the output every instruction stands verbatim, and every data part is a block that reads as its field, the boundary and its value |
| `PromptBlocks.Utf8Contains` | crates/loupe-worker/src/llm/prompt.rs:302-304 | searching UTF-8 bytes for a boundary is searching the text |
| `PromptBlocks.WindowAtEnd` | crates/loupe-worker/src/llm/prompt.rs:329-341 | a new occurrence after one more byte can only end at that byte |
| `PromptBlocks.BoundaryScan.PushByte` | crates/loupe-worker/src/llm/prompt.rs:329-341 | the 32-byte sliding window keeps the last bytes seen, and its flag says exactly whether the boundary has occurred anywhere |
| `PromptBlocks.ScanFor` | crates/loupe-worker/src/llm/prompt.rs:217-224 | the incremental scan finds the boundary exactly when the text holds it |
| `PromptBlocks.Collides` | crates/loupe-worker/src/llm/prompt.rs:212-227 | looking in the original and in the encoding decides exactly whether some original payload holds the boundary |
| `PromptBlocks.SelectBoundary` | crates/loupe-worker/src/llm/prompt.rs:306-317 | the first of three draws that no payload holds, the entropy failure before it, or a collision |
| `PromptBlocks.ChosenIsFirst` | crates/loupe-worker/src/llm/prompt.rs:306-317 | every draw before the chosen one came and collided; a failed draw ends the search; a collision is reported only after all three |
| `PromptBlocks.Render` | crates/loupe-worker/src/llm/prompt.rs:196-203 | whenever a boundary is found the rendered prompt decodes, under that boundary, to exactly the payloads, and each of its parts reads in place as itself |
| `ReportFences.LongestBySplitting` | fuzz/src/server_report_github.rs:40-44 | the reference's split-and-max is the longest run of backquotes |
| `ReportFences.MeasureFence` | crates/loupe-server/src/reporters/render.rs:400-412 | the renderer's single pass measures the same width: at least 3 and longer than every run in the value |
| `ReportFences.WidthIsLeast` | crates/loupe-server/src/reporters/render.rs:400-412 | a number is below the width exactly when it is below 3 or the value holds that many backquotes in a row |
| `ReportFences.FenceRanges` | fuzz/src/server_report_github.rs:18-32 | the line-scanning loop finds the ranges of the declarative scanner |
| `ReportFences.FenceLine` | fuzz/src/server_report_github.rs:21-31 | a line of w backquotes closes an open fence exactly when w reaches its width and only white space follows, and opens one exactly when w is at least 3 |
| `ReportFences.FieldHeadReads` | fuzz/src/server_report_github.rs:40-44 | a field opens with its label and language, then holds the value, its fence and an empty line |
| `ReportFences.ScanValue` | fuzz/src/server_report_github.rs:14-44 | from inside a fence, a value with shorter runs is skipped whole and only its own fence closes it |
| `ReportFences.FieldsContained` | fuzz/src/server_report_github.rs:14-44 | over any sequence of fields with one-line labels and arbitrary values, between lines that open no fence, the scanner finds exactly one range per field, holding exactly the value and a line feed, for the source's scanner and for every indentation a Markdown reader may allow |
| `BrokerUsage.Observe` | fuzz/src/worker_broker_usage.rs:123-148 | the explicit-stack walk terminates and raises the three maxima to those of the recursive definition |
| `BrokerUsage.AnyOrderFindsPeak` | fuzz/src/worker_broker_usage.rs:123-148 | every traversal that takes any pending value and puts its children back anywhere ends with the same maxima |
| `BrokerUsage.UsageByLookup` | crates/loupe-worker/src/llm/model_broker.rs:1004-1017 | looking `usage` up once equals scanning all fields when no key repeats |
| `BrokerUsage.ParsedTokenUsage.Observe` | crates/loupe-worker/src/llm/model_broker.rs:1004-1028 | the broker's recursive walk computes the same maxima |
| `BrokerUsage.ReferenceTokens` | fuzz/src/worker_broker_usage.rs:106-121 | one document, or the parsed `data:` lines; the count is the saturated larger of total and input plus output |
| `BrokerUsage.BrokerTokens` | crates/loupe-worker/src/llm/model_broker.rs:978-994 | the broker, which skips the end marker and saturates the sum first, counts the same |
| `BrokerUsage.TokensMean` | fuzz/src/worker_broker_usage.rs:106-121 | the documents are the whole text or the `data:` lines that parse; input, output and total are each the greatest count of any `usage` object a path leads to, or 0; the count is the least 64-bit number at least the total and at least input plus output, or the largest one |
| `BrokerOutput.StepKeepsInvariant` | crates/loupe-worker/src/llm/model_broker.rs:362-383 | every load, exchange, failed exchange and refusal of any stream keeps: finished reservations are sequential, the counter is initial plus granted, the ceiling is not passed |
| `BrokerOutput.ExecutionIsSequential` | crates/loupe-worker/src/llm/model_broker.rs:362-383 | at every point of every interleaving, the finished reservations are those of a one-at-a-time order |
| `BrokerOutput.InterleavingIrrelevant` | crates/loupe-worker/src/llm/model_broker.rs:362-383 | the counter depends only on how much was asked for in all, never on order or retries |
| `BrokerOutput.ForwardChunks` | fuzz/src/worker_broker_usage.rs:77-98 | forwarded bytes are the fitting prefix of the bytes before the first empty chunk, the counter grows by exactly that, and overflow is reported exactly when bytes were cut or an empty chunk came |
| `BrokerOutput.CutIrrelevant` | fuzz/src/worker_broker_usage.rs:77-98 | however the same bytes are cut into nonempty chunks, all are reached and overflow means exactly that they exceed what was left |
| `RequestBudget.Budget.Admit` | crates/loupe-server/src/request_budget.rs:89-102 | saturating 64-bit arithmetic refills, decides and charges exactly as unbounded arithmetic does |
| `RequestBudget.RunStaysValid` | crates/loupe-server/src/request_budget.rs:89-102 | over any run of charges, clocks going back included, the balance stays within capacity |
| `RequestBudget.WindowBound` | fuzz/src/server_ingress_transport.rs:118-132 | over every window of consecutive charges, what is admitted plus what remains is at most capacity plus the refill of the elapsed time |
| `RequestBudget.WindowIsTight` | crates/loupe-server/src/request_budget.rs:89-102 | some window is always used up exactly: nothing that the window bound allows is withheld |
| `RequestBudget.EvictionUnobservable` | crates/loupe-server/src/request_budget.rs:112-119 | dropping a full bucket and starting afresh later is indistinguishable from keeping it |
| `RequestBudget.Replay` | fuzz/src/server_ingress_transport.rs:118-137 | the replay accepts exactly the logs whose every decision is the bucket's and in which nothing follows a refusal, and ends on the bucket's balance |
| `RequestBudget.NextPowerOfTwo` | crates/loupe-server/src/ingress/mod.rs:46-62 | the least power of two that holds the requested length |
| `RequestBudget.AllocationBound` | fuzz/src/server_ingress_transport.rs:37-63 | allocations that are powers of two within the cap, each at least twice the last, sum to less than twice the last one |
| `RequestBudget.RequestBuffer.Append` | crates/loupe-server/src/ingress/mod.rs:41-62 | refuses exactly what would pass the cap; otherwise appends the whole chunk, reallocating only when it must and keeping the allocations doubling |
| `RetryPolicy.DelaysAgree` | fuzz/src/storage_policy_snapshot.rs:30-41 | for every valid policy and attempt count the reference, with its shortcut and 128-bit product, and the scheduler, with its saturating 64-bit one, both equal the unbounded capped exponential |
| `RetryPolicy.DelayMonotone` | crates/loupe-storage/src/scheduler/policy.rs:124-129 | delays lie between 1 and the cap and never shrink with the attempt count |
| `RetryPolicy.DelayDoubles` | fuzz/src/storage_policy_snapshot.rs:34-36 | from the first attempt on, each delay is twice the one before, up to the cap |
| `Lifecycle.TablesAgree` | fuzz/src/core_state_machine.rs:39-64 | the product's transition functions are exactly the reference's edge tables |
| `Lifecycle.Drive` | fuzz/src/core_state_machine.rs:89-126 | the run loop computes the state after the whole run of each machine, rejected actions leaving it alone |
| `Lifecycle.AcceptedAreAccepted` | fuzz/src/core_state_machine.rs:89-126 | erasing the rejected actions leaves a run that is accepted throughout and ends in the same state |
| `Lifecycle.LeasesAreSeparated` | fuzz/src/core_state_machine.rs:39-49 | in every job run, between two successive accepted leases there are only heartbeats and then a reap to the queue, or a failure and an operator retry |
| `Lifecycle.ReportNeedsVerdict` | fuzz/src/core_state_machine.rs:50-64 | in every finding run ending reported, a visit to validation means that some validating state is left by a confirming verdict, or by awaiting approval and approving, straight to the report; otherwise the run is one of the two direct ones |
| `Lifecycle.VerdictIsLast` | fuzz/src/core_state_machine.rs:50-64 | that validating state is the last one visited |
| `Lifecycle.RollUpFollowsTable` | fuzz/src/core_state_machine.rs:129-171 | the rollup follows the sixteen-row precedence table and each result is a legal edge out of validation |
| `LeadIdentity.Frame` | fuzz/src/storage_identity.rs:148-155 | the pushing loop writes the domain and the three parts, each after a NUL |
| `LeadIdentity.FrameIdentity` | fuzz/src/storage_identity.rs:148-155 | on NUL-free parts frames are equal if and only if the parts are, an absent instance reading as empty |
| `LeadIdentity.FrameReads` | fuzz/src/storage_identity.rs:148-155 | splitting a frame of NUL-free parts at its NUL bytes gives domain, family, anchor and instance, in that order |
| `LeadIdentity.TransientId` | fuzz/src/storage_identity.rs:26-47 | the scanning loops decide exactly: a word-bounded keyword, at most one separator, then all the digits up to a word boundary |
| `LeadIdentity.KeywordsDoNotOverlap` | fuzz/src/storage_identity.rs:26-47 | occurrences of a keyword never overlap, so a search that resumes past each match misses none |
| `LeadIdentity.ExpectedAnchor` | fuzz/src/storage_identity.rs:49-88 | an anchor is admitted exactly when no character is banned, the collapsed text is nonempty and within both limits, no word is a location or a hash, and no transient identifier occurs |
| `LeadIdentity.AnchorWords` | fuzz/src/storage_identity.rs:66-68 | before its last normalization an anchor has the words of the lower-cased text, in order, with one space between two of them and none at either end |
| `LeadIdentity.SplitSpacesJoins` | fuzz/src/storage_identity.rs:72 | the pieces examined hold no space and join back to the text |
| `LeadIdentity.FrameInjective` | fuzz/src/storage_identity.rs:49-88 | admitted triples with equal frames are equal, absent and present instances told apart |

## Left out

- BLAKE3 and every collision question: the theorems stop at the hashed bytes.
- Unicode tables (categories, normalization, lower-casing) and the concrete text policies: parameters.
- JSON number syntax and floating-point rendering: a number is any run of number characters, read and written as is.
- BoundedJson.CheckedParse: says whether a document is admitted and what is stored, not which rule a refusal names.
- The recursion limit of the JSON parser: the admission depth limit is modelled, the parser's own is not.
- ReportFences.FenceRanges: models the range-finding loop of `escapes_fences`; the search for a payload's occurrences outside the ranges that follows it is not modelled.
- GitHub report assembly (fixed headings, inline code spans for locations, size accounting): would add only concatenations.
- PromptBlocks.Render: leaves out the rendered-size, part-count and field-name limits and fixes the source label to `agent`, as the decoder does.
- RetryPolicy.DelaysAgree: takes from policy validation only the two backoff fields; the other fields are range checks.
- RequestBudget.EvictionUnobservable: the table of workers, its size limit and the request-count bucket beside the byte bucket are not modelled.
- RequestBudget.RequestBuffer.Append: does not model wiping of released memory or allocation failure.
- BrokerOutput.ExecutionIsSequential: the counter is one atomic location; weaker orderings between it and other memory are not modelled.
- Terminal.RowColumns: source text reaches rows as plain scalars; the typed admission in front of the renderer is not modelled.
- Manifest display and source-path projections, provenance markers, redacting formatters: type-level or not injective by design.
- HTTP, TLS, sockets, the SQLite store, sandbox arguments, command-line parsing: input and output.
