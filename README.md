# Local Pilot chat client: a Dafny model

Local Pilot is an Office task-pane add-in that chats with a locally hosted
llama.cpp completion server. This project models the two pieces of its logic
that do more than render:

- **The completion client** (`src/taskpane/llamaApiService.ts`), in
  `llama_api_service.dfy`:
  - the chat-prompt formatter: the fixed instruction, then one
    `### Human: …` / `### Assistant: …` line per turn, then the `### Assistant:` cue;
  - the request payload;
  - the blocking request `sendChatRequest` and how it maps a reply to a string;
  - the streaming request `streamChatResponse`, with:
    - the read loop,
    - the per-read split into non-blank lines,
    - the `data: ` line filter,
    - the per-line parse, append and `onChunk` call,
    - the `stop` and parse-failure exits,
    - the classification of how the stream ends.

  The loop is a `StreamSession` class with a mutable `accumulatedText` and a
  ghost log of the `onChunk` arguments. Its methods are proved against the
  functions `LineDeltas`, `ChunkDeltas`, `StreamDeltas`, `Partials` and
  `StreamResult`.
- **The chat panel** (`src/taskpane/components/TextInsertion.tsx`), in
  `text_insertion.dfy`:
  - the send guard;
  - the user, reply and error turns a send appends;
  - the `[INSERT]…[/INSERT]` marker that asks for text to be put into the
    document, with its fallback to the user's text;
  - the `finally` reset;
  - the Stop action;
  - the Send/Stop button.

  The panel is a `ChatPanel` class. `handleSendMessage` is split at its `await`
  into `BeginSend` and `FinishSend`, and `HandleSendMessage` composes them with
  `StreamChatResponse`.
- **Support modules.**
  - `js_string.dfy` models the JavaScript string built-ins the code relies on:
    `trim` with the ECMAScript whitespace set, `split` on one character,
    `join`, `startsWith` and `indexOf`, which also expresses `includes`.
  - `wrappers.dfy` holds `Option`.

JSON parsing is a parameter `parse: string -> Option<StreamChunk>`, so every
stream property holds for any parser. The network is also a parameter: a
function from the request payload to what `fetch` and the body reader deliver.

### Decoder behaviour

- **No buffer across reads.** Each read is split into lines on its own
  (llamaApiService.ts:132-137), so a record split between two reads is lost
  (`SplitRecordIsLost`).
- **`stop` ends only its own read.** A `stop` record breaks the inner `for`
  only (:153-155). It keeps its own content, and later reads are still
  processed until the reader reports `done` (`StopDropsRestOfChunk`).
- **A parse failure ends only its own read.** One `try` wraps the whole line
  loop (:135-160), so a line that fails to parse drops itself and the remaining
  lines of its read, and what earlier lines appended stays
  (`ParseFailureKeepsEarlier`).
- **An abort returns a fixed sentence.** A stream that is aborted returns
  `"Message generation stopped."` (:166-168), not the partial text
  (`AbortDiscardsPartialText`).
- **Blocking mode falls back on empty content.** Empty or missing content
  yields `"Sorry, I couldn't generate a response."` (:78) (`BlockingOutcome`).

## Model

| member | source | states |
|---|---|---|
| JsString.TrimSpec | src/taskpane/components/TextInsertion.tsx:375 | `trim` returns the factor of its input after the leading whitespace; everything cut off on either side is whitespace, and the result neither starts nor ends with whitespace |
| JsString.TrimEmptyIffBlank | src/taskpane/llamaApiService.ts:137 | a trimmed string is empty exactly when every code unit is whitespace, so `line.trim() !== ''` means "not all whitespace" |
| JsString.TrimIdempotent | src/taskpane/components/TextInsertion.tsx:375 | trimming an already trimmed text changes nothing |
| JsString.IndexOfSpec | src/taskpane/components/TextInsertion.tsx:372 | `indexOf` returns the first occurrence at or after the start index, and reports none only when there is no occurrence |
| JsString.SplitJoinInverse | src/taskpane/llamaApiService.ts:137 | `split('\n')` yields pieces without line breaks that join back to the read |
| JsString.SplitJoin | src/taskpane/llamaApiService.ts:44 | splitting a `join("\n")` of line-free pieces gives the pieces back |
| JsString.JoinAppend | src/taskpane/llamaApiService.ts:44 | joining two non-empty lists puts exactly one separator between them |
| JsString.ConcatAppend | src/taskpane/llamaApiService.ts:148 | the concatenation of appended contents distributes over list append |
| LlamaApiService.FormatPrompt | src/taskpane/llamaApiService.ts:39-47 | the prompt of a history; `PromptFrame`, `EmptyHistoryPrompt`, `PromptLines`, `PromptRoundTrip` and `PromptAppend` state what it is |
| LlamaApiService.DecodeRenderedHistory | src/taskpane/llamaApiService.ts:41-44 | the mapped lines read back, in order, as exactly the messages they were rendered from |
| LlamaApiService.PromptFrame | src/taskpane/llamaApiService.ts:46 | every prompt starts with the instruction and a line break and ends with `"\n### Assistant:"` |
| LlamaApiService.EmptyHistoryPrompt | src/taskpane/llamaApiService.ts:36-46 | an empty history gives exactly the instruction, `"\n\n"` and the cue, with the instruction text of line 36 |
| LlamaApiService.DecodeRenderedMessage | src/taskpane/llamaApiService.ts:42-43 | the human and assistant tags never both match, so each rendered line reads back as its message with its role |
| LlamaApiService.PromptLines | src/taskpane/llamaApiService.ts:39-47 | after the instruction line, the prompt's lines are one per message in order and then the cue; an empty history leaves one empty line |
| LlamaApiService.PromptRoundTrip | src/taskpane/llamaApiService.ts:39-47 | reading a prompt back gives the history it was built from, for single-line message texts |
| LlamaApiService.PromptAppend | src/taskpane/llamaApiService.ts:41-46 | appending a turn inserts its line just before the cue, so a later prompt extends the earlier one up to the cue |
| LlamaApiService.RequestModes | src/taskpane/llamaApiService.ts:96-105 | the streaming payload equals the blocking payload of lines 55-64 except for `stream`, and both carry the formatted prompt |
| LlamaApiService.BuildRequest | src/taskpane/llamaApiService.ts:96-105 | the payload: the formatted prompt, `top_k` 40, `n_predict` 2000, the stop sequence `"\n### Human:"`, `cache_prompt` and the given `stream` flag; `RequestModes` and `StopSequenceMatchesHumanTurn` state its properties |
| LlamaApiService.StopSequenceMatchesHumanTurn | src/taskpane/llamaApiService.ts:61 | the stop sequence is exactly how a following human turn of the prompt begins |
| LlamaApiService.SendChatRequest | src/taskpane/llamaApiService.ts:52-84 | the blocking request always resolves to a non-empty string |
| LlamaApiService.BlockingOutcome | src/taskpane/llamaApiService.ts:73-82 | the blocking result is the content when the status is ok, the body parses and the content is non-empty; the no-response sentence when the content is empty; the error sentence for a failed fetch, a non-ok status or an unparsable body |
| LlamaApiService.NonBlank | src/taskpane/llamaApiService.ts:137 | the filter keeps only lines with a non-whitespace character and never adds lines |
| LlamaApiService.TextLineKept | src/taskpane/llamaApiService.ts:137 | a line with a non-whitespace character is kept, in its place between the filtered lines before and after it |
| LlamaApiService.NonBlankAppend | src/taskpane/llamaApiService.ts:137 | filtering a concatenation is concatenating the filtered parts |
| LlamaApiService.BlankLineDropped | src/taskpane/llamaApiService.ts:137 | a line that is blank after trimming is dropped wherever it stands |
| LlamaApiService.LineDeltas | src/taskpane/llamaApiService.ts:139-156 | every content the line loop appends is non-empty |
| LlamaApiService.NonDataLineIgnored | src/taskpane/llamaApiService.ts:141 | a line without the `data: ` prefix contributes nothing, wherever it stands |
| LlamaApiService.ContentLineAppends | src/taskpane/llamaApiService.ts:144-149 | the parser receives the text after exactly six prefix characters, and a non-stop record with content appends that content and lets the loop go on |
| LlamaApiService.EmptyContentIgnored | src/taskpane/llamaApiService.ts:147-150 | a record with empty or missing content appends nothing and causes no `onChunk` call |
| LlamaApiService.StopDropsRestOfChunk | src/taskpane/llamaApiService.ts:153-155 | a `stop` record appends its own content (nothing when it is empty) and drops the lines after it in the same read |
| LlamaApiService.ParseFailureKeepsEarlier | src/taskpane/llamaApiService.ts:135-160 | a data line that fails to parse drops itself and the rest of its read, and keeps what the earlier lines appended |
| LlamaApiService.StreamDeltasAppend | src/taskpane/llamaApiService.ts:127-161 | reads are decoded independently: the contents of reads `a + b` are those of `a` followed by those of `b` |
| LlamaApiService.StreamTextAppend | src/taskpane/llamaApiService.ts:127-163 | the final text of reads `a + b` is the text of `a` followed by the text of `b` |
| LlamaApiService.StreamDeltasSnoc | src/taskpane/llamaApiService.ts:127-161 | one more read appends exactly that read's contents |
| LlamaApiService.SplitRecordIsLost | src/taskpane/llamaApiService.ts:132-137 | the read `data: hi` yields `hi`, while the same bytes split into the reads `da` and `ta: hi` yield nothing |
| LlamaApiService.StreamDeltasNonEmpty | src/taskpane/llamaApiService.ts:147-149 | every content appended while streaming is non-empty |
| LlamaApiService.PartialsAppend | src/taskpane/llamaApiService.ts:148-149 | the `onChunk` log for appends `a + b` is the log for `a` followed by the log for `b` continued from `a`'s text |
| LlamaApiService.PartialsAt | src/taskpane/llamaApiService.ts:148-149 | the `k`-th `onChunk` argument is the text after the first `k + 1` appends |
| LlamaApiService.PartialsExtend | src/taskpane/llamaApiService.ts:147-149 | with non-empty appends, each `onChunk` argument strictly extends the previous one, and the last is the whole text |
| LlamaApiService.LogAppend | src/taskpane/llamaApiService.ts:148-149 | after further appends, the text is the old text plus their concatenation, and the `onChunk` log is the old log plus the new arguments |
| LlamaApiService.LinesFrom | src/taskpane/llamaApiService.ts:139-156 | the contents from line `i` on are line `i`'s contents followed, when the loop goes on, by the contents of the later lines |
| LlamaApiService.LineEffectOf | src/taskpane/llamaApiService.ts:139-156 | one iteration of the line loop appends at most one content, never an empty one, and only a data line can end the loop |
| LlamaApiService.OnChunkMonotone | src/taskpane/llamaApiService.ts:125-163 | every `onChunk` argument strictly extends the previous one, starting from `""`; when the reader reports `done`, the result is the last argument, or `""` when there was none |
| LlamaApiService.AbortDiscardsPartialText | src/taskpane/llamaApiService.ts:165-168 | an abort during reading returns the fixed stop sentence even though `onChunk` has shown the partial text |
| LlamaApiService.StreamResult | src/taskpane/llamaApiService.ts:107-173 | the string the streaming request resolves to; `OnChunkMonotone`, `AbortDiscardsPartialText` and `StreamTextAppend` state its properties, and `StreamChatResponse` is proved to return it |
| LlamaApiService.StreamSession.constructor | src/taskpane/llamaApiService.ts:125 | a session starts with empty text, no contents and no `onChunk` calls |
| LlamaApiService.StreamSession.Append | src/taskpane/llamaApiService.ts:147-150 | the text grows by exactly the content, and `onChunk` receives the new text |
| LlamaApiService.StreamSession.ProcessLine | src/taskpane/llamaApiService.ts:139-156 | one line appends its record's content; it skips non-data lines, ends the loop on a parse failure or a `stop` record, and keeps the session invariant |
| LlamaApiService.StreamSession.ProcessLines | src/taskpane/llamaApiService.ts:135-160 | the inner loop appends exactly `LineDeltas` of the read's lines |
| LlamaApiService.StreamSession.ProcessChunk | src/taskpane/llamaApiService.ts:132-137 | one read appends exactly the contents of its non-blank lines |
| LlamaApiService.StreamSession.ReadLoop | src/taskpane/llamaApiService.ts:127-161 | the read loop appends exactly `StreamDeltas` of the reads, and text and log stay consistent with the appends |
| LlamaApiService.StreamChatResponse | src/taskpane/llamaApiService.ts:89-174 | the result is `StreamResult` and the `onChunk` calls are `OnChunkCalls`: the text on `done`, the stop sentence on an abort, the connection-error sentence on a non-ok status, a missing body or any other error |
| TextInsertion.TaggedIffOpen | src/taskpane/components/TextInsertion.tsx:372-374 | the lazy tag match yields a value exactly when the open tag occurs |
| TextInsertion.ExtractInsert | src/taskpane/components/TextInsertion.tsx:372-375 | the text a reply asks to insert, through the lazy match `Tagged`; `InsertOnlyWithOpenTag`, `InsertBetweenTags`, `InsertFallsBackToUserText` and `TagShapes` characterise it |
| TextInsertion.InsertOnlyWithOpenTag | src/taskpane/components/TextInsertion.tsx:372 | insertion is attempted exactly when `[INSERT]` occurs in the response |
| TextInsertion.TaggedBetween | src/taskpane/components/TextInsertion.tsx:374-375 | between the first open tag and the nearest close tag after it, the trimmed inner text is taken |
| TextInsertion.InsertBetweenTags | src/taskpane/components/TextInsertion.tsx:374-375 | `pre [INSERT] inner [/INSERT] post` inserts `inner` trimmed, when the shown tags are the first `[INSERT]` and the nearest `[/INSERT]` after it |
| TextInsertion.TaggedFallback | src/taskpane/components/TextInsertion.tsx:374-375 | when no close tag follows the first open tag, the fallback is taken |
| TextInsertion.InsertFallsBackToUserText | src/taskpane/components/TextInsertion.tsx:375 | `pre [INSERT] rest`, with no `[/INSERT]` in `rest`, inserts the user's own message text |
| TextInsertion.TagShapes | src/taskpane/components/TextInsertion.tsx:372-375 | every response holding an open tag has one of the two shapes above, so the two lemmas cover every case |
| TextInsertion.SendAllowedIffText | src/taskpane/components/TextInsertion.tsx:335 | a send passes the guard exactly when no stream is in progress and the input has a non-whitespace character |
| TextInsertion.SendAllowed | src/taskpane/components/TextInsertion.tsx:335 | the send guard; `SendAllowedIffText` states when it passes |
| TextInsertion.ButtonRule | src/taskpane/components/TextInsertion.tsx:494-498 | while streaming, the button is an enabled Stop labelled "Stop"; otherwise it is Send, enabled exactly when the send guard would pass |
| TextInsertion.Button | src/taskpane/components/TextInsertion.tsx:491-498 | the button's action, enabled state and caption; `ButtonRule` states them |
| TextInsertion.SendTurnsOrder | src/taskpane/components/TextInsertion.tsx:344-387 | a send appends the user's turn, then the reply, then at most one error turn; the error turn comes exactly when an insertion was attempted and the host rejected it |
| TextInsertion.SendTurns | src/taskpane/components/TextInsertion.tsx:344-387 | the turns a send appends; `SendTurnsOrder` states their order and when the error turn occurs |
| TextInsertion.ChatPanel.constructor | src/taskpane/components/TextInsertion.tsx:297-304 | the panel starts with the greeting turn, empty input, no stream and no controller |
| TextInsertion.ChatPanel.HandleTextChange | src/taskpane/components/TextInsertion.tsx:330-332 | only the input text changes |
| TextInsertion.ChatPanel.BeginSend | src/taskpane/components/TextInsertion.tsx:335-353 | a blocked send changes nothing; otherwise the user's turn is appended, the input is cleared, streaming is on with empty streamed text and a fresh controller |
| TextInsertion.ChatPanel.FinishSend | src/taskpane/components/TextInsertion.tsx:363-392 | the reply turn is appended, the insertion the reply asks for is made, an error turn follows a host rejection, and the flags, streamed text and controller are reset |
| TextInsertion.ChatPanel.HandleSendMessage | src/taskpane/components/TextInsertion.tsx:334-393 | a blocked send changes nothing; a send that passes streams the history plus the user's turn, appends `SendTurns`, makes the insertion the reply asks for, shows the `onChunk` texts, and ends with input cleared, no stream, empty streamed text and no controller |
| TextInsertion.ChatPanel.HandleStopGeneration | src/taskpane/components/TextInsertion.tsx:402-406 | it aborts exactly when a controller exists and changes nothing else |

## Left out

- The network is a parameter of `SendChatRequest` and `StreamChatResponse`, and so is `fetch`. The body reader is a list of already-decoded text reads ended by one terminal event. Byte-level UTF-8 decoding by `TextDecoder` is not modelled.
- `JSON.parse` and `response.json()` are the `parse` parameter. A record is reduced to its `content` (empty when missing or falsy) and whether `stop` is truthy.
- The float sampling parameters `temperature` (0.7) and `top_p` (0.9) are not in `LlamaRequest`. The server URL and HTTP headers are not modelled either.
- `console` logging and the `Date` timestamps of messages are not modelled.
- `AbortController` is not modelled as a signal. An abort is the terminal event `AbortError` in the server's response. `HandleStopGeneration` records the abort on the controller but does not feed it back into a running stream, because that would need concurrency.
- An `onChunk` callback that throws is not modelled. The panel's callback (`setStreamedText`) never throws.
- `streamedText` is updated by `setStreamedText` while the stream runs. Those values are the ghost log `shownDuringStream`; only its final value is the field `streamedText`, before the `finally` reset.
- The host call `props.insertText` is a logged argument (`insertCalls`). Whether it rejects is the `hostRejects` parameter. It is the only step inside the panel's `try` that can throw, because `streamChatResponse` catches every error itself.
- handleKeyPress (Enter sends), handleInsertText (the per-message insert button), scrolling, markdown rendering and styles are presentation and are not modelled. App.tsx, Header.tsx and HeroList.tsx are not part of this model.
- PromptRoundTrip: holds only for message texts without line breaks. A text containing `"\n### Human: "` cannot be told apart from two turns, so no decoder can invert the prompt format for such histories.
- PromptLines: stated for message texts without line breaks, for the same reason.
- React batches state updates. The model applies each `set…` call in order, as the functional updates in the source do.
