# Minpaku chatbot — a Dafny model of its core

The minpaku chatbot is a support-chat widget for a vacation rental ("minpaku")
that can be embedded in other sites. This project models its deterministic core
and proves properties of that model. Each source module becomes one or more Dafny
modules; the retrieval library and the chat endpoint are each split in two, as
listed below.

Server side:

- **Retrieval library** (`Rag`, `Chunking`):
  - the text sent for embedding;
  - the sentence splitter and greedy chunk packer;
  - storing a document, with or without chunking, in a fallible `documents` table;
  - search, listing by category and deletion.
- **Chat endpoint** (`ChatRoute`, `SseReframe`):
  - the prompt: the property fact sheet, then the numbered retrieval results, then the language instructions;
  - the choice of the reply language and of the latest user message;
  - the status and message of every failure;
  - the handler that turns DeepSeek's `data: ` lines into `0:{"content":…}` frames, keeping a carry-over line buffer.
- **Language classifier** (`LanguageDetection`): `detectLanguage` over Unicode ranges, and the configuration lookup.
- **Admin API** (`DocumentsRoute`, `InitRoute`):
  - `GET`/`POST`/`DELETE /api/documents`;
  - the seed loop of `POST /api/documents/init` and its counters;
  - the category list of `GET /api/documents/init`.
- **Property configuration** (`MinpakuConfig`): the defaults, and the environment overrides with their `||` fallback.

Browser side:

- **Chat widget** (`ChatInterface`):
  - the send guard;
  - the history posted;
  - the loop that reads the response body and decodes `0:` lines;
  - the update of the assistant message by id.
- **Demo page** (`DemoPage`): the embed URL built from the chosen settings, and the `<iframe>` snippet.
- **Embed page** (`EmbedPage`):
  - the settings read back from the URL;
  - the resize and close messages posted to the parent window.
- **`EmbedRoundTrip`** connects the two pages. Settings chosen on the demo page come back on the embed page, except that an empty theme, colour or greeting gives the default.

The JavaScript library behaviour the core depends on is modelled in its own modules:

- `JsText`: white space, `trim`, `split`, `join`, UTF-16 length.
- `JsNumber`: `Number.prototype.toString` and `parseInt` over integers and NaN. `toString` writes an integer of magnitude 10^21 or more in exponent form, which `parseInt` reads back as its leading digit.
- `Utf8`: encoding, and the WHATWG decoder, which substitutes U+FFFD. `TextDecoder.decode` without `stream` restarts on each call, so it also drops a leading U+FEFF from each input (`DecodeDroppingBom`). Node's `chunk.toString()` does not drop it, and `SseReframe` uses the plain decoder.
- `UriCodec`: `encodeURIComponent` and `decodeURIComponent` (section 2.1 of RFC 3986).
- `FormUrlencoded`: the `application/x-www-form-urlencoded` serializer and parser behind `URLSearchParams` (section 5 of the WHATWG URL Standard).
- `JsonFrame`: `JSON.stringify` of a string, and `JSON.parse` of the `{"content": …}` object.

Modelling choices:

- Text is a sequence of Unicode scalar values. Where the source uses `.length` (the chunk fit test and the English-letter ratio), the model uses the UTF-16 length.
- The foreign services are parameters of the operations that call them:
  - the embedding provider;
  - the Supabase `documents` table and its `match_documents` procedure;
  - the DeepSeek chat call;
  - the percentage formatting of a similarity.
- The admin routes and the seed loop act on the store object. Its insert, delete and select failures are functions fixed when the store is created.

## Model

| member | source | states |
|---|---|---|
| Rag.NormaliseForEmbedding | src/lib/rag.ts:47 | the text sent has no line feed, the same length, and every line feed becomes one space with all other characters kept |
| Rag.GenerateEmbedding | src/lib/rag.ts:43-55 | succeeds exactly when the provider answers for the normalised text, with that answer; any failure becomes the fixed embedding error |
| Rag.DocumentStore.constructor | src/lib/rag.ts:8-13 | the table starts empty, with the given failure oracles |
| Rag.DocumentStore.Insert | src/lib/rag.ts:92-104 | a successful insert appends the row under a fresh, larger id; a failed one changes nothing |
| Rag.DocumentStore.Delete | src/lib/rag.ts:195-203 | a successful delete removes exactly the rows with that id (none for NaN); a failed one changes nothing |
| Rag.WithoutIdKeepsOrder | src/lib/rag.ts:195-198 | removing rows by id keeps the ids increasing in table order |
| Rag.StoreOne | src/lib/rag.ts:86-109 | the row stored holds the document and the embedding of the document's own content; a failed embedding never reaches the insert |
| Rag.StoreDocument | src/lib/rag.ts:86-109 | the store gains exactly that row on success; on failure it is unchanged and the error is the embedding or insert error |
| Rag.ChunkDocuments | src/lib/rag.ts:120-129 | one document per chunk, in chunk order, all in the given category; the title is unchanged for a single chunk and "{title} (i/n)" for i = 1..n otherwise |
| Rag.ChunkTitlesDistinct | src/lib/rag.ts:123 | two chunks of one document never get the same title |
| Rag.StoreAllStopsAtFirstFailure | src/lib/rag.ts:122-133 | the rows inserted are those of the documents before the first failure, in order; the error returned is that failure's, and no later document is attempted |
| Rag.StoreDocumentWithChunks | src/lib/rag.ts:114-134 | the store gains the rows of the chunk documents up to the first failure, earlier rows stay, and the failure is rethrown |
| Rag.SearchSimilarDocuments | src/lib/rag.ts:139-165 | the query's embedding is sent to `match_documents` with the threshold and count given; an embedding or procedure failure is an error |
| Rag.GetDocumentsByCategory | src/lib/rag.ts:170-188 | on success, exactly the rows of that category, newest first; a select failure is the fetch error with the database's message |
| Rag.NewestFirstDescending | src/lib/rag.ts:174-176 | with ids growing in insertion order, the listing has strictly decreasing ids |
| Rag.DeleteDocument | src/lib/rag.ts:193-208 | on success exactly the rows with that id are gone; on failure nothing changes and the delete error carries the database's message |
| Chunking.SentencesWeave | src/lib/rag.ts:61 | the sentences with the dropped separators put back between them are the whole text |
| Chunking.SeparatorsMatch | src/lib/rag.ts:61 | every dropped separator is a terminator of `.!?。！？` followed by one or more white-space characters |
| Chunking.SentencesStartGreedy | src/lib/rag.ts:61 | no sentence after the first starts with white space, because the whole run after a terminator is consumed |
| Chunking.SentencesWithoutSplitPoint | src/lib/rag.ts:61 | a text with no terminator followed by white space is one sentence, whatever its length |
| Chunking.SplitTextIntoChunks | src/lib/rag.ts:60-81 | the loop over the sentences, with the current chunk carried between them, returns the chunks of the greedy packing |
| Chunking.ChunksOf | src/lib/rag.ts:80 | no chunk is empty or white space only |
| Chunking.KeepNonBlank | src/lib/rag.ts:80 | keeps exactly the chunks that are not blank, and nothing else |
| Chunking.GroupsPartition | src/lib/rag.ts:65-78 | the runs of sentences packed into chunks, concatenated, are the sentences in order: none dropped, repeated or reordered |
| Chunking.ChunkSize | src/lib/rag.ts:66-73 | every chunk is a single sentence, possibly over the limit, or is at most the limit plus 2 UTF-16 units, since the fit test ignores the ". " it adds |
| Chunking.GlueAllNonBlank | src/lib/rag.ts:67-75 | a run that contains a non-blank sentence gives a non-blank chunk |
| Chunking.NonBlankSentenceKept | src/lib/rag.ts:65-80 | every sentence with a non-white-space character lands in a chunk that is returned |
| Chunking.SingleChunkWithoutSplitPoint | src/lib/rag.ts:60-81 | a non-blank text without a split point is returned as exactly `[text]`, however long |
| ChatRoute.RagContext | src/app/api/chat/route.ts:94-115 | no results or a failed search give exactly the base context; otherwise the context starts with it |
| ChatRoute.EntryOccurs | src/app/api/chat/route.ts:102-106 | the entry of result i sits whole at its position, followed by a blank line unless it is the last |
| ChatRoute.ContentOccurs | src/app/api/chat/route.ts:104 | result i's content appears untruncated inside its entry |
| ChatRoute.EntryNumbered | src/app/api/chat/route.ts:103 | the entry of result i opens with its rank i+1 |
| ChatRoute.RagContextListsEveryResult | src/app/api/chat/route.ts:99-108 | every result, the last included, is listed, numbered by rank, with full content; each later entry starts after it and the blank line that follows it |
| ChatRoute.GenerateRagContext | src/app/api/chat/route.ts:89-116 | the search uses threshold 0.1 and count 10; a successful search gives the base context followed by the listed results, a failed one the base context alone, and the context always starts with it |
| ChatRoute.PropertyNameFor | src/app/api/chat/route.ts:77-80 | any code other than en, zh and ko gets the Japanese property name |
| ChatRoute.PropertyNameAgreesWithConfig | src/app/api/chat/route.ts:59 | the name line speaks the language of the configuration used for the instructions, unsupported codes included |
| ChatRoute.MultilingualContext | src/app/api/chat/route.ts:58-84 | the enhanced context comes first, then the selected configuration's system prompt, and the property name line last |
| ChatRoute.LatestUserMessageIsLast | src/app/api/chat/route.ts:156-157 | the text read is the content of the last message from the user, or "" when there is none |
| ChatRoute.LatestUserIndex | src/app/api/chat/route.ts:150-151 | finds the index of the last user message, or reports that no message is from the user |
| ChatRoute.SelectLanguage | src/app/api/chat/route.ts:148-153 | an explicit language wins; otherwise the choice is a supported code |
| ChatRoute.SelectLanguageDetects | src/app/api/chat/route.ts:148-153 | without an explicit language the choice is the detected language of the latest user message, "ja" when there are no messages |
| ChatRoute.FailureMessage | src/app/api/chat/route.ts:252-276 | 401, 429 and 500 from upstream, a timeout and anything else each get their own message |
| ChatRoute.ChatPost | src/app/api/chat/route.ts:118-278 | a missing key is a 500 before the body is read, a non-array `messages` a 400, every later failure a 500; for a valid body the request is model deepseek-chat, temperature 0.7, 2000 tokens, streamed, with the system prompt (language context over retrieval context for the latest user message) followed by the conversation unchanged; an upstream failure gives its 500 message, otherwise that request is streamed |
| SseReframe.Payload | src/app/api/chat/route.ts:206-213 | a line has JSON to parse exactly when, trimmed, it starts with `data: ` and is not `data: [DONE]`; the JSON is the rest of the trimmed line |
| SseReframe.LineFrames | src/app/api/chat/route.ts:205-224 | a line yields at most one frame, and one exactly when its payload parses to a non-empty delta content; the frame is `0:` + `{"content":…}` + line feed |
| SseReframe.FramesOfAppend | src/app/api/chat/route.ts:205 | the frames of two runs of lines are the frames of each, in order |
| SseReframe.FramesLoop | src/app/api/chat/route.ts:205-225 | the loop over the complete lines enqueues the frames of each line in line order |
| SseReframe.LinesOfReceived | src/app/api/chat/route.ts:202-203 | splitting what was received at line feeds gives back the processed lines and the buffer |
| SseReframe.ReceiveStep | src/app/api/chat/route.ts:201-203 | appending new text and splitting off the complete lines keeps "received = processed lines each with a line feed, then the buffer" |
| SseReframe.SplitCharacterIsReplaced | src/app/api/chat/route.ts:201 | a character whose bytes arrive in two events, wherever the cut falls, is not recovered: the head decodes to one U+FFFD and each byte of the tail to another |
| Utf8.SplitCharacter | src/app/api/chat/route.ts:201 | a character's encoding cut after k bytes and decoded in two parts gives 1 + (length - k) U+FFFD characters |
| Utf8.TruncatedCharIsOneError | src/app/api/chat/route.ts:201 | a proper prefix of a multi-byte encoding is one maximal ill-formed subpart, one U+FFFD |
| Utf8.ContinuationsAreErrors | src/app/api/chat/route.ts:201 | continuation bytes without a lead byte decode to one U+FFFD each |
| Utf8.DecodeOneChar | src/app/api/chat/route.ts:201 | one character's encoding decodes to that character |
| SseReframe.Reframer.constructor | src/app/api/chat/route.ts:198 | the buffer starts empty and nothing is enqueued |
| SseReframe.Reframer.EnqueueFrames | src/app/api/chat/route.ts:205-225 | the queue gains the frames of the complete lines, in order |
| SseReframe.Reframer.Receive | src/app/api/chat/route.ts:201-225 | the buffer never holds a line feed, every complete line is processed once, the last unterminated line waits in the buffer, and the queue gains exactly their frames |
| SseReframe.Reframer.OnData | src/app/api/chat/route.ts:200-226 | one `data` event: the bytes are decoded on their own, then received as above |
| LanguageDetection.CountAsciiLetters | src/lib/language-detection.ts:62 | the count of ASCII letters is positive exactly when there is one, and never exceeds the length |
| LanguageDetection.DetectLanguage | src/lib/language-detection.ts:54-101 | ko exactly when there is Hangul; en exactly when there is no Hangul or kana/CJK and over half the UTF-16 units are ASCII letters; zh exactly when, without Hangul or kana, a CJK ideograph and a Chinese marker (or `|`) occur; ja otherwise, blank text included |
| LanguageDetection.ChineseQuestionHasMarker | src/lib/language-detection.ts:87-95 | the question pattern never decides anything: a text it matches already contains a Chinese marker |
| LanguageDetection.Find | src/lib/language-detection.ts:109 | no entry is found exactly when no entry has the code; a found entry is one of the list |
| LanguageDetection.GetLanguageConfig | src/lib/language-detection.ts:108-110 | a supported code gets its own entry; any other code gets the Japanese entry |
| LanguageDetection.ValidCodes | src/lib/language-detection.ts:122-124 | the valid codes are exactly ja, en, zh and ko |
| LanguageDetection.DetectedIsValid | src/lib/language-detection.ts:54-124 | the classifier only returns valid codes, and their configuration has that code |
| DocumentsRoute.DocumentsGet | src/app/api/documents/route.ts:10-37 | a non-empty query searches with threshold 0.5 and count 10 whatever the category; else a non-empty category lists it, newest first; else 400 without touching the store; failures are 500 |
| DocumentsRoute.PostedDocument | src/app/api/documents/route.ts:43-53 | a document exists exactly when title, content and category are all non-empty |
| DocumentsRoute.DocumentsPost | src/app/api/documents/route.ts:40-66 | a missing field is a 400 that stores nothing; a body that is not JSON, the JSON `null`, or a failed store is a 500; otherwise the chunked document is stored once |
| DocumentsRoute.DocumentsDelete | src/app/api/documents/route.ts:69-94 | without a non-empty id a 400 and nothing changes; otherwise `parseInt(id)` is deleted, and its failure is a 500 |
| InitRoute.SeedOne | src/app/api/documents/init/route.ts:21-30 | one document is stored with chunking and counted as a success or as one error line |
| InitRoute.SeedAll | src/app/api/documents/init/route.ts:20-31 | every seed document is stored in array order; the counts and error lines are those of the whole run |
| InitRoute.EveryDocumentIsAttempted | src/app/api/documents/init/route.ts:20-22 | the rows of every document appear in order, whether or not an earlier document failed |
| InitRoute.CountsAddUp | src/app/api/documents/init/route.ts:36-40 | successes plus failures equal the number of seed documents |
| InitRoute.InitPost | src/app/api/documents/init/route.ts:6-54 | a body that is not JSON is a 500; otherwise `reset` changes nothing, every document is attempted, the stats add up, `errors` is omitted when empty, and `success` is true even when every document failed |
| InitRoute.FirstIndex | src/app/api/documents/init/route.ts:62 | the index found holds the element, or is the length when it is absent |
| InitRoute.UniqueMembers | src/app/api/documents/init/route.ts:62 | the distinct list has exactly the elements of the input |
| InitRoute.UniqueInFirstAppearanceOrder | src/app/api/documents/init/route.ts:62 | the distinct list repeats nothing and follows first appearance |
| InitRoute.CategoriesOf | src/app/api/documents/init/route.ts:62 | one category per seed document, in order |
| InitRoute.InitGet | src/app/api/documents/init/route.ts:57-75 | reports the number of seeds, and each seed category exactly once in first-appearance order |
| MinpakuConfig.EnvOr | src/config/minpaku-config.ts:81-86 | a non-empty variable wins; an unset or empty one gives the default |
| MinpakuConfig.GetMinpakuConfig | src/config/minpaku-config.ts:79-87 | six fields follow their variable with the default as fallback; the other fields are always the defaults |
| MinpakuConfig.NoOverridesGivesDefault | src/config/minpaku-config.ts:79-87 | with no override set, the result is the fact sheet itself |
| MinpakuConfig.OnlyOverrideVarsMatter | src/config/minpaku-config.ts:79-87 | environments that agree on the six variables give the same configuration |
| MinpakuConfig.ConfigFieldsNonEmpty | src/config/minpaku-config.ts:81-86 | whatever the environment, no field of the prompt template is empty |
| ChatInterface.History | src/components/chat/ChatInterface.tsx:64-67 | the history posted keeps every message, in order, as role and content only |
| ChatInterface.UpdateById | src/components/chat/ChatInterface.tsx:102-108 | only messages with the id get the new content; the length and every other message stay the same |
| ChatInterface.UpdateByIdTwice | src/components/chat/ChatInterface.tsx:102-108 | a later update by the same id overrides an earlier one |
| ChatInterface.LineText | src/components/chat/ChatInterface.tsx:97-101 | only lines starting with "0:" contribute, and only the content their JSON decodes to |
| ChatInterface.Chat.constructor | src/components/chat/ChatInterface.tsx:24-33 | the list holds only the welcome message, the input is empty and nothing is loading |
| ChatInterface.Chat.ConsumeLine | src/components/chat/ChatInterface.tsx:96-113 | the text grows by the line's content, and the assistant message shows the text |
| ChatInterface.Chat.ConsumeRead | src/components/chat/ChatInterface.tsx:93-114 | one read's bytes are decoded on their own, a leading U+FEFF is dropped, and the lines are consumed in order |
| ChatInterface.LeadingBomIsDropped | src/components/chat/ChatInterface.tsx:93 | a frame read after a byte order mark still gives its content, as `TextDecoder.decode` drops the mark |
| ChatInterface.Chat.ConsumeStream | src/components/chat/ChatInterface.tsx:89-115 | the assistant text is the in-order concatenation of the contents decoded from every read |
| ChatInterface.Chat.HandleSendMessage | src/components/chat/ChatInterface.tsx:43-130 | blank input or a pending send changes nothing; otherwise the trimmed input is added as a user message, the input is cleared, the reply (or one error message) is appended, and loading ends |
| ChatInterface.AfterSendShape | src/components/chat/ChatInterface.tsx:46-67 | the request carries every earlier message, welcome included, then the new one; the list keeps them and ends with one assistant message |
| ChatInterface.WholeFramesDecode | src/components/chat/ChatInterface.tsx:93-113 | frames read whole in one read decode to the concatenation of their contents |
| ChatInterface.WholeFrameGivesContent | src/app/api/chat/route.ts:218 | a server frame read whole decodes to its original content |
| ChatInterface.TwoReads | src/components/chat/ChatInterface.tsx:89-93 | no bytes carry over between reads: two reads give the text of each in turn |
| ChatInterface.CutFrameGivesNothing | src/components/chat/ChatInterface.tsx:97-112 | the two parts of a frame cut after `0:{"content":` give nothing |
| ChatInterface.SplitFrameIsLost | src/components/chat/ChatInterface.tsx:93-113 | a frame that decodes whole gives nothing when its bytes are split across two reads |
| DemoPage.SlotOf | src/app/demo/page.tsx:18-25 | each conditional `set` names its parameter in the page's order |
| DemoPage.ParamsEmitted | src/app/demo/page.tsx:18-25 | each setting is present exactly when it differs from its default, with its text; `showHeader` only as "false"; the greeting percent-encoded |
| DemoPage.ParamsInOrder | src/app/demo/page.tsx:18-25 | parameters come in the order theme, primaryColor, width, height, showHeader, welcomeMessage |
| DemoPage.PrefixRanks | src/app/demo/page.tsx:18-25 | after k calls only the first k names can occur, in order |
| DemoPage.WelcomeEncodedTwice | src/app/demo/page.tsx:24 | a custom greeting is the last pair and is percent-encoded before form encoding |
| DemoPage.NoParamsIffDefault | src/app/demo/page.tsx:7-14 | only the default settings give no parameter |
| DemoPage.UrlOfShape | src/app/demo/page.tsx:27-28 | the URL is the base URL alone exactly when there are no pairs, otherwise the base, "?" and the query |
| DemoPage.EmbedUrlShape | src/app/demo/page.tsx:6-28 | the URL is exactly the page's initial URL, with no "?", exactly when every setting is the default |
| DemoPage.SetStep | src/app/demo/page.tsx:18-25 | each conditional `set` appends to the pairs before it, since its name is new |
| DemoPage.SetAppearance | src/app/demo/page.tsx:18-20 | the first three `set` calls give the pairs of theme, colour and width |
| DemoPage.SetLayout | src/app/demo/page.tsx:21-25 | the last three `set` calls complete the pairs |
| DemoPage.Demo.constructor | src/app/demo/page.tsx:6-14 | the page starts at the base URL with the default settings |
| DemoPage.Demo.BuildParams | src/app/demo/page.tsx:17-25 | the successive `set` calls give the settings' pairs |
| DemoPage.Demo.GenerateEmbedUrl | src/app/demo/page.tsx:16-30 | the stored URL becomes the URL of the current settings |
| DemoPage.EmbedCode | src/app/demo/page.tsx:33-40 | the snippet's `src`, `width` and `height` attributes hold the URL and the sizes |
| DemoPage.Demo.GenerateEmbedCode | src/app/demo/page.tsx:32-41 | the snippet shows the URL last generated, then the current width and height, one per line |
| DemoPage.SnippetSourceIsUrl | src/app/demo/page.tsx:34 | the generated URL contains no '"', so the `src` value is the whole URL |
| EmbedPage.SizeOr | src/app/embed/page.tsx:38 | an absent, 0 or NaN size gives the fallback; any other size is sent as it is |
| EmbedPage.UnsetKeepsField | src/app/embed/page.tsx:25-32 | an absent or empty parameter leaves the field as it was |
| EmbedPage.ShowHeaderOnlyForTrue | src/app/embed/page.tsx:29 | a given `showHeader` is true only for the exact text "true" |
| EmbedPage.GivenFieldsParsed | src/app/embed/page.tsx:25-28 | sizes are read with `parseInt`, theme and colour taken as given |
| EmbedPage.GreetingDecoded | src/app/embed/page.tsx:30 | a given greeting is percent-decoded, and the effect throws exactly when that decoding fails |
| EmbedPage.ReadOverrides | src/app/embed/page.tsx:22-30 | filling `newConfig` field by field gives the overrides of the parameters, or the decoding error |
| EmbedPage.ReadSizes | src/app/embed/page.tsx:27-28 | the two size parameters are read with `parseInt` when given |
| EmbedPage.Embed.constructor | src/app/embed/page.tsx:9-18 | the page starts with the default configuration, not minimised, nothing posted |
| EmbedPage.Embed.Mount | src/app/embed/page.tsx:20-54 | the given fields replace the old ones, and inside a frame the parsed size is posted with 400 and 600 as fallbacks; a malformed greeting sets and posts nothing |
| EmbedPage.Embed.HandleClose | src/app/embed/page.tsx:56-60 | inside a frame a close message is posted |
| EmbedPage.Embed.HandleMinimize | src/app/embed/page.tsx:62-70 | the page is minimised and inside a frame 60 by 60 is posted |
| EmbedPage.Embed.HandleRestore | src/app/embed/page.tsx:72-80 | the page is restored and inside a frame the configured size is posted as it is |
| EmbedRoundTrip.SearchOfGenerated | src/app/embed/page.tsx:22 | the search part of the generated URL parses back to the pairs the demo page set |
| EmbedRoundTrip.TextFieldsRoundTrip | src/app/demo/page.tsx:18-19 | theme and colour come back as set, or are absent when default or empty |
| EmbedRoundTrip.SizeAndHeaderRoundTrip | src/app/demo/page.tsx:20-22 | a size comes back through `toString` and `parseInt`, NaN included, exactly when it is below 10^21 in magnitude; the header flag comes back through "false" |
| EmbedRoundTrip.SizesOfGenerated | src/app/embed/page.tsx:27-28 | the size the embed page ends up with is what `parseInt` reads from the demo size's `toString`, the defaults 400 and 600 included |
| EmbedRoundTrip.GreetingRoundTrip | src/app/demo/page.tsx:23-24 | a custom greeting comes back through the two encodings; an empty one is not sent |
| EmbedRoundTrip.MountOfGenerated | src/app/embed/page.tsx:25-40 | mounting on the generated URL never throws, yields the chosen settings with each size as `parseInt` reads its `toString`, and posts that size with 400 and 600 for 0 or NaN |
| EmbedRoundTrip.RoundTrip | src/app/embed/page.tsx:25-32 | settings with a non-empty theme, colour and greeting survive the trip unchanged exactly when both sizes are below 10^21 in magnitude |
| EmbedRoundTrip.EmptyGreetingIsDefault | src/app/embed/page.tsx:30 | an empty custom greeting comes back as the default greeting |
| JsNumber.ToString | src/app/demo/page.tsx:20-21 | below 10^21 in magnitude an integer is written as its decimal digits, with '-' when negative; from 10^21 on its leading digit is followed by '.' or 'e' (exponent form) |
| JsNumber.ParseIntToString | src/app/embed/page.tsx:27-28 | `parseInt` of a number's `toString` gives the number back, NaN included, exactly when it is written in plain notation (magnitude below 10^21) |
| JsNumber.ParseIntOfLargeNatural | src/app/embed/page.tsx:27 | a number of 10^21 or more, written in exponent form, reads back as its leading digit |
| JsNumber.ParseIntOfLargeNegative | src/app/embed/page.tsx:27 | a number of -10^21 or less reads back as its leading digit, negated |
| JsNumber.Scientific | src/app/demo/page.tsx:20-21 | the exponent form starts with the first digit followed by '.' or 'e' |
| UriCodec.DecodeEncode | src/app/demo/page.tsx:24 | `decodeURIComponent` undoes `encodeURIComponent` for every string |
| UriCodec.EncodeIsAscii | src/app/demo/page.tsx:24 | the encoding is plain ASCII |
| FormUrlencoded.ParseSerialize | src/app/demo/page.tsx:28 | parsing the serialized pairs gives them back |
| FormUrlencoded.GetSet | src/app/demo/page.tsx:18-24 | after `set`, `get` of that name gives the new value, and other names keep theirs |
| JsonFrame.DecodeFrameLine | src/components/chat/ChatInterface.tsx:99 | the browser's parse of a frame line gives back the content the route put in it |
| JsonFrame.FrameLineHasNoNewline | src/app/api/chat/route.ts:218 | a frame line holds no line feed, since every control character is escaped |
| Utf8.DecodeEncode | src/components/chat/ChatInterface.tsx:93 | decoding the UTF-8 encoding of a string gives it back |
| Utf8.DecodeDroppingBomOfEncode | src/components/chat/ChatInterface.tsx:93 | `TextDecoder.decode` of an encoding gives the string back without a leading U+FEFF |
| Utf8.BomDropped | src/components/chat/ChatInterface.tsx:93 | exactly one leading U+FEFF is lost, and nothing else |
| JsText.JoinSplit | src/app/api/chat/route.ts:202-203 | joining the split parts with the separator gives back the text |
| JsText.SplitJoin | src/app/api/chat/route.ts:202-203 | splitting a join of parts without the separator gives back the parts |

## Left out

- The embedding provider, the Supabase table and its `match_documents` procedure, and the DeepSeek call are parameters. The similarity ranking and threshold filtering inside the database are not modelled.
- Similarities are floating point. Their `toFixed(1)` percentage is a parameter function from the similarity to its text.
- `JSON.parse` is modelled only for the shapes the core reads: the `{"content": …}` object of a frame, and an oracle for `choices[0].delta.content` of an upstream line. The request bodies arrive already parsed, with "not JSON" as an error value.
- `created_at` ordering is modelled as id order. Ids grow with insertion order.
- The `japanesePatterns` list of the classifier is declared but never consulted, so it has no behaviour to model. `getSupportedLanguages` only returns the constant list.
- The upstream stream's `end` and `error` events, the `ReadableStream` controller, and the response-body null case of the widget are not modelled. The widget's reply is a sequence of reads, or a failure.
- SseReframe.Reframer.EnqueueFrames appends the frames of one event at once rather than one `enqueue` call per frame. The queue observed after the event is the same.
- The `reset` flag of the seed route only logs, so it changes nothing. Timestamps and `Date.now()` ids are parameters of the send.
- Rendering, scrolling, the DOM theme class and colour, `console` output, and the demo page's form handlers are not modelled. `postMessage` is modelled as the log of the messages posted; `isIframe()` is a constant of the page.
- React state updates are modelled as taking effect in order, one at a time. Concurrency between requests and overlapping seed runs is not modelled.
- EmbedPage.OverridesOf accepts any theme text, as the code does; the `"light" | "dark" | "auto"` type cast is not checked at run time.
- DocumentsRoute.PostBody holds string fields only. A truthy non-string field, such as `"content": 5`, passes the field check and then makes `split` throw in the chunker, a 500; the model cannot express that body.
- JsNumber.ParseIntToString, EmbedRoundTrip.SizeAndHeaderRoundTrip, EmbedRoundTrip.MountOfGenerated and EmbedRoundTrip.RoundTrip: a size comes back unchanged only below 10^21 in magnitude, since `toString` writes larger integers in exponent form.
- JsNumber.Num holds exact integers, not doubles. An integer above 2^53 is not rounded to the nearest double, and the digits `toString` writes for it are those of the exact integer rather than the shortest ones that identify the double.
- The seed document set `src/data/minpaku-documents` is not part of this model. It is a parameter of the init routes.
