# Chat app streaming exchange and worker routing, in Dafny

This project models the two halves of a small chat app.

- The browser client, `public/chat.js`. It keeps the module state `chatHistory` and `isProcessing`. Its `sendMessage` accepts or rejects a submission, appends the user's turn, and POSTs the whole history. It then reads the streamed reply chunk by chunk and splits each chunk into lines. Each line whose JSON has a truthy `response` field adds that text to `responseText`. `updateTyping` reveals `responseText` one character per timer tick into `displayedText`. At the end of the stream the whole text is shown and stored as the assistant's turn. On failure only the user's turn stays.
- The Cloudflare worker, `src/index.ts`. Its `fetch` sends each (path, method) pair to static assets, the chat handler, 405 or 404. `handleChatRequest` puts the system prompt in front of the messages unless one is already there. It then hands them to the model and returns the model's raw stream, or a 500 reply on any error.

Modules:

- `Messages`: the `{ role, content }` message.
- `JsText`: the JavaScript string operations the code relies on: `trim`, `split("\n")` with `join("\n")` as its inverse, and `startsWith`.
- `ChatStream`: what an exchange computes, as functions on values. This covers the text a chunk adds, the reveal step, and the history an exchange or a series of exchanges leaves behind.
- `ChatClient`: class `ChatSession`. It has the fields `chatHistory`, `isProcessing`, `responseText`, `displayedText` and `typingTimeout`. `Submit`, `ResponseArrived`, `ReceiveChunk`, `Finish` and `Fail` are the stretches of `sendMessage` between two `await`s. `ReceiveLine` is one pass of the line loop inside the stretch `ReceiveChunk` models. `UpdateTyping` is the `updateTyping` closure. `TimerFires` and `FireTicks` are its timer callbacks, run by the event loop. `EditInput` is the user typing into the text area. `SendMessage` drives a whole exchange, with the read loop and the interleaved timer ticks, and `RunSession` a series of them. The methods that move text are proved against the `ChatStream` functions: `ReceiveLine` against `LineDelta`, `ReceiveChunk` against `ChunkDelta`, `UpdateTyping`, `TimerFires` and `FireTicks` against `Reveal` and `RevealTicks`, `SendMessage` against `ExchangeHistory` and `StreamText`, and `RunSession` against `SessionHistory`. The others state their new state directly.
- `Worker`: routing, system-prompt injection and the 500 fallback, as functions.
- `Protocol`: the client's request as the worker receives it.

`JSON.parse` is an abstract `Parser` from a line to `NotJson` or `Json(truthy, text)`. The model (`env.AI.run`) is a function parameter. The system prompt text is a parameter.

## Model

| member | source | states |
|---|---|---|
| `JsText.Trim` | public/chat.js:46 | `trim()` never lengthens its input, and what it returns neither starts nor ends with whitespace |
| `JsText.TrimStartSpec` | public/chat.js:46 | the leading part cut by trimming is all whitespace; what is left is a suffix that does not start with whitespace |
| `JsText.TrimEndSpec` | public/chat.js:46 | the trailing part cut is all whitespace; what is left is a prefix that does not end with whitespace |
| `JsText.TrimSpec` | public/chat.js:46 | `trim()` gives a contiguous piece of the input with no whitespace at either end |
| `JsText.TrimEmptyIff` | public/chat.js:119 | `line.trim()` is empty exactly when the line is all whitespace, which is the test behind `message === ""` and `!line.trim()` |
| `JsText.SplitLines` | public/chat.js:116 | `chunk.split("\n")` yields at least one piece, even for an empty chunk |
| `JsText.SplitLinesNoLineFeed` | public/chat.js:116 | no piece of a split contains a line feed: every line feed is a separator |
| `JsText.JoinSplit` | public/chat.js:116 | joining the pieces of a split with `"\n"` gives back the chunk, so splitting loses no character |
| `JsText.SplitJoin` | public/chat.js:116 | splitting line-feed-free lines joined by `"\n"` gives back exactly those lines |
| `JsText.SplitSingleLine` | public/chat.js:116 | a chunk without a line feed splits into itself alone |
| `JsText.SplitPrefixed` | public/chat.js:116 | a line-feed-free piece, a line feed and a tail split into that piece followed by the pieces of the tail |
| `ChatStream.LineDelta` | public/chat.js:118-129 | a blank line, a non-JSON line, or JSON whose `response` is falsy adds nothing; any other line adds its `response` text |
| `ChatStream.ChunkDelta` | public/chat.js:115-129 | a chunk without a line feed adds exactly what that single line adds |
| `ChatStream.LinesDeltaAppend` | public/chat.js:118-129 | lines contribute in order: two runs of lines add the first run's text followed by the second's |
| `ChatStream.IgnoredLineIsInvisible` | public/chat.js:119-128 | a skipped or unparsable line can be removed from anywhere in a chunk without changing the text, so it never aborts or disturbs the loop |
| `ChatStream.ChunkOfFrames` | public/chat.js:115-129 | a chunk made of newline-separated frames adds the frames' texts in frame order |
| `ChatStream.StreamText` | public/chat.js:111-130 | the text after every prefix of the chunks is a prefix of the final `responseText` |
| `ChatStream.StreamTextGrows` | public/chat.js:97-130 | `responseText` only grows by appending: after `j` chunks it is the text after `i <= j` chunks followed by exactly what chunks `i` to `j` add, in order |
| `ChatStream.SplitFrameIsLost` | public/chat.js:111-130 | chunks are split independently: a JSON frame cut across two reads adds nothing, though the whole frame would add its text |
| `ChatStream.Reveal` | public/chat.js:102-109 | one `updateTyping` appends exactly the next received character when fewer are shown, changes nothing otherwise, and keeps the shown text a prefix of the received text |
| `ChatStream.RevealTicksShows` | public/chat.js:102-109 | from a prefix, `k` reveal ticks show exactly the first `min(shown + k, received)` characters of the received text |
| `ChatStream.ExchangeHistory` | public/chat.js:59-150 | an accepted exchange adds the user's message; on success the assistant's full text follows it (two messages), on failure nothing more (one message) |
| `ChatStream.SessionGrowth` | public/chat.js:20-150 | over any series of turns the history only grows at its end, by one message per accepted turn plus one per completed turn, and never gains a system message |
| `ChatClient.ChatSession.constructor` | public/chat.js:20-23 | the history starts as the assistant's greeting alone, nothing in flight |
| `ChatClient.ChatSession.Submit` | public/chat.js:46-59 | blank trimmed input or an exchange in flight is rejected with nothing changed; otherwise exactly one user message with the trimmed input is appended, input cleared and locked, and the request carries the whole history, greeting first and no system message |
| `ChatClient.ChatSession.ResponseArrived` | public/chat.js:93-99 | a non-ok status takes the failure path; an ok one starts the read loop with empty buffers and a `null` handle |
| `ChatClient.ChatSession.UpdateTyping` | public/chat.js:102-109 | the shown text becomes `Reveal(shown, received)`; when a character was shown a new tick is scheduled under a fresh non-null handle, otherwise nothing changes, the old handle included |
| `ChatClient.ChatSession.TimerFires` | public/chat.js:102-109 | a scheduled tick runs `updateTyping`: it shows `Reveal(shown, received)` and is scheduled again exactly when it showed a character (line 107); with nothing scheduled nothing changes |
| `ChatClient.ChatSession.FireTicks` | public/chat.js:102-109 | when a tick was scheduled, `n` timer runs during one await show exactly `RevealTicks(shown, received, n)`, the first `min(shown + n, received)` received characters, and a tick is still scheduled afterwards exactly when `n` is 0 or the last run showed a character; with nothing scheduled nothing changes |
| `ChatClient.ChatSession.ReceiveLine` | public/chat.js:119-128 | `responseText` grows by exactly `LineDelta` of the line, and a skipped line changes nothing at all; while the handle is `null`, a line that adds text starts the reveal (line 124): the handle becomes non-null, the first received character is shown and a tick is scheduled, and a line that adds nothing leaves the handle `null`; once the handle is set, the shown text, the handle and the pending tick stay as they are |
| `ChatClient.ChatSession.ReceiveChunk` | public/chat.js:115-129 | `responseText` grows by exactly `ChunkDelta` of the chunk; from a `null` handle the handle ends non-null exactly when the chunk adds text, and then exactly the first received character is shown and a tick is scheduled, so `updateTyping` ran from the loop only for the first delta; once the handle is set, the loop leaves the shown text, the handle and the pending tick alone; history and flags are untouched |
| `ChatClient.ChatSession.Finish` | public/chat.js:132-139 | the pending tick is cancelled, the shown text becomes the whole received text, that text (even empty) is appended as the assistant's message, and `isProcessing` is cleared |
| `ChatClient.ChatSession.Fail` | public/chat.js:141-150 | the history is unchanged, so the error notice never enters it, and `isProcessing` is cleared |
| `ChatClient.ChatSession.SendMessage` | public/chat.js:45-151 | a whole call: rejected calls change nothing; accepted ones leave exactly `ExchangeHistory`, `isProcessing` false, and on success the shown text equal to the received text, whatever timer ticks ran |
| `ChatClient.ChatSession.RunSession` | public/chat.js:32-41 | a series of sends from the key and button handlers, each after the previous one finished, leaves the history `SessionHistory` describes: the old history as a prefix, one message more per accepted turn and one more per completed one, no system message, and nothing in flight |
| `Worker.RouteOf` | src/index.ts:40-59 | anything outside `/api/` (so `/` too) goes to assets whatever the method; POST on `/api/chat` goes to the chat handler, any other method there gets 405, and any other `/api/` path gets 404 |
| `Worker.MethodOnlyMattersForChat` | src/index.ts:43-59 | off `/api/chat` the method never changes the route |
| `Worker.SystemEntry` | src/index.ts:78 | the injected message has the system role |
| `Worker.SystemScanSpec` | src/index.ts:77 | `messages.some(...)` finds a system message exactly when one precedes every `null` element, answers false exactly when all elements are objects and none is a system message, and throws exactly when a `null` element comes before any system message |
| `Worker.SystemScan` | src/index.ts:77 | a list of plain objects gives false; a true answer needs a system message in the list, and a throw needs a `null` element |
| `Worker.InjectSystemPrompt` | src/index.ts:77-79 | the injection throws exactly when the system check throws; otherwise it keeps the input unchanged as its tail, adds at most one message, and the result always holds a system message |
| `Worker.InjectWhenAbsent` | src/index.ts:77-79 | when every element is an object and none is a system message, the result is the prompt at index 0 followed by the input unchanged, one longer |
| `Worker.InjectWhenPresent` | src/index.ts:77-79 | with a system message ahead of every `null` element, the list is passed on unchanged, and two system messages are not collapsed |
| `Worker.InjectIdempotent` | src/index.ts:77-79 | the injected list always holds a system message, and injecting again leaves it unchanged |
| `Worker.MessagesOf` | src/index.ts:72-74 | a present `messages` array is passed on unchanged; a missing `messages` defaults to `[]`; a rejected body, a `null` body or a non-array `messages` throws |
| `Worker.HandleChatRequest` | src/index.ts:66-110 | the result is the model's stream exactly when the body, the system check and the model call all succeed, and the model then gets the injected list, the model id and 1024 tokens; every other case gets the same 500 JSON reply |
| `Worker.MissingMessagesGetPromptOnly` | src/index.ts:72-79 | a body without `messages` reaches the model as the system prompt alone |
| `Worker.Fetch` | src/index.ts:35-60 | every request gets exactly one outcome: assets, 405, 404, or the chat handler's reply for POST on `/api/chat` |
| `Protocol.AsEntries` | public/chat.js:90 | the body the client sends holds one message object per history entry, in order |
| `Protocol.ClientRequestGetsOnePrompt` | src/index.ts:66-99 | a request built from the client's history, which never holds a system message, is routed to the chat handler and reaches the model with exactly one system message, the prompt at its head |

## Left out

- Presentation: `addMessageToChat`, `scrollToBottom`, `escapeHtml`, the text-area and key listeners, the typing indicator, the assistant placeholder and its paragraph, and the error bubble's text. The model keeps the input text and the disabled flag only.
- Network and decoding: `fetch`, `response.body.getReader()` and `TextDecoder` are not modelled. A request's fate is a `Transport` value: `fetch` throws, a non-ok status, or a list of already-decoded chunks ending normally or with a read error.
- `JSON.parse` and the `response` lookup are an abstract `Parser`. The parser states whether `response` is truthy and what `+=` appends for it.
- Timing: `setTimeout` delays (`TYPING_SPEED`, 20 ms) and the event loop are not modelled. Timer runs are explicit `TimerFires` steps. `SendMessage` takes how many of them run during each await of the read loop.
- `ChatClient.ChatSession.Fail`: a tick scheduled before a read error is not cancelled by the code and keeps revealing into the abandoned placeholder. The model drops it, because it touches neither the history nor the flags.
- Characters: the reveal shows one Unicode scalar value per tick. `charAt` shows one UTF-16 code unit, so the code can show half a surrogate pair for a tick.
- `console.debug` and `console.error` logging.
- `env.ASSETS.fetch` and `env.AI.run` are foreign calls. Assets are a bare `Asset` outcome. The model is a function parameter, and its stream is an opaque handle.
- URL parsing: the path is taken as the already-parsed `url.pathname`, and the method as given.
- Message elements: a non-null element is read as an object with a role and a content. A primitive element, whose `role` is `undefined`, counts as an object whose role is not `"system"`.
- Lines 111-173 of `src/index.ts` repeat lines 48-110 outside any function. The logic is modelled once.

## Behaviour the code does not have

The model follows `public/chat.js` as written. It does not do the following:

- It strips no `data:` prefix and has no `[DONE]` sentinel. Each line is parsed as JSON as it is.
- It carries no partial line from one chunk to the next, so a frame split across reads is lost (`ChatStream.SplitFrameIsLost`). There is no retry of malformed frames.
- An empty reply is not a failure: the empty text is stored as the assistant's message (`ChatClient.ChatSession.Finish`).
- The reveal does not restart once it has stopped. `typingTimeout` is never reset to `null`, so the read loop calls `updateTyping` only for the first text received. After that, the reveal goes on only through its own ticks. A tick that shows a character schedules the next one, so text that arrives before that tick runs is still revealed. The first tick that finds nothing new to show schedules no other. From then on, later text shows only at the final flush (`ChatClient.ChatSession.ReceiveChunk`, `ChatClient.ChatSession.TimerFires`).
- Nothing is written to durable storage, and there is no expiry.
- A failed exchange does not remove the assistant placeholder.
