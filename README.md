# Chat client core: SSE framing, streaming, quota and session store

This project models the browser client of a small chat agent (`public/chat.js`) in Dafny and proves properties of that model. It covers:

- **Frame parser** (`consumeSseEvents`, module `Sse`). It removes every carriage return, cuts the text at each blank line and joins each event's `data:` lines. It hands back the unterminated rest.
- **Delta extractor and read loop** (`processBuffer` and the `while (true)` loop of `streamResponse`, module `Delta`).
  - Chunks are appended to a buffer, and the buffer goes through the parser.
  - Each payload is decoded and probed for `response`, then for `choices[0].delta.content`.
  - `[DONE]` ends the current batch and empties the buffer.
  - At end of input the buffer is flushed with an extra blank line.
- **History edits** (module `History`):
  - the one-message splice of `deleteMessage` and `regenerateMessage`;
  - the overwrite and truncate of `saveEdit`;
  - the assistant placeholder that `streamResponse` pushes and later fills;
  - the request body `history.slice(0, -1)`.
- **View pieces that behave as data** (module `View`): `escapeHtml` and the choice of action buttons in `createMessageElement`.
- **Client state** (module `Chat`):
  - a `ChatApp` object holds the session list, the active id, `isProcessing` and `requestsLeft`;
  - each `Session` object has its title and history changed in place;
  - localStorage is a `Storage` object whose ghost fields hold the last value written under each key.
  - The quota gate and every action on this state are methods that change the state: create, switch, delete, load, retitle, send, regenerate, edit, delete message, and the two halves of `streamResponse`.

`streamResponse` is split at its awaits:
- `BeginStream` is the synchronous start: it sets the flag, pushes the placeholder and fixes the request.
- `FinishStream` is everything after the response. It writes the final text into the placeholder, saves only on success, then clears the flag.

All of the asynchronous part's writes to shared state happen at its end, so any user action can be modelled as a method call between the two halves.

The model keeps these behaviours of the code as written, though a reader might expect otherwise:
- **The greeting is sent.** The request is every message before the placeholder, the greeting included; nothing strips it (`History.Request`).
- **The whole whitespace run is trimmed.** A `data:` value loses its whole leading whitespace run (`trimStart`), not just one space (`Sse.LineValue`, `Sse.DataLinesTrimmed`).
- **The title can change again.** It is rewritten on every send after which the history, the new message included, has at most two messages (for instance after earlier messages were deleted), not only on the first.
- **An unknown id still becomes active.** `switchToSession` makes the id active before it looks the session up.
- **Not every change is saved at once:**
  - `sendMessage` saves the session list only through the title update (the count is stored at once);
  - the error path of `streamResponse` does not save;
  - `deleteSession` saves before it switches, so the stored active id is the deleted one until the next save;
  - a new session (the "New Chat" button, and the fallbacks of `loadSessions`) is saved before the switch, so the stored active id is the previous one until the next save.
- **An edit does not wait for a running stream.** `saveEdit` does not look at `isProcessing`.
- **An out-of-range edit still costs a request.** `saveEdit` spends the request before its index is checked.
- **`[DONE]` does not end the stream.** It ends the current batch and empties the buffer, but the read loop goes on to the end of the body.

## Model

| member | source | states |
|---|---|---|
| Sse.TrimStart | public/chat.js:590 | the result is a suffix of the input, everything removed is ECMAScript whitespace, and the result does not start with whitespace |
| Sse.RemoveCRClean | public/chat.js:580 | no carriage return survives the normalization |
| Sse.RemoveCRAppend | public/chat.js:580 | removing carriage returns distributes over concatenation |
| Sse.RemoveCRWithoutCR | public/chat.js:580 | text without carriage returns is left as it is |
| Sse.Split | public/chat.js:586 | splitting at "\n" gives at least one piece, no piece holds a newline, and joining the pieces with "\n" gives the text back |
| Sse.SplitLine | public/chat.js:586 | a newline-free line splits to itself, and a line followed by "\n" splits off as the first piece |
| Sse.SplitJoin | public/chat.js:586-593 | splitting the "\n"-join of newline-free lines gives the lines back |
| Sse.IndexOfBoundary | public/chat.js:583 | the result is -1 or a position where a blank line starts |
| Sse.IndexOfBoundarySpec | public/chat.js:583 | the result is -1 exactly when there is no blank line, and otherwise no blank line starts before it |
| Sse.IndexOfBoundaryFirst | public/chat.js:583 | the first blank line is the one indexOf finds |
| Sse.GlueAppend | public/chat.js:583-585 | writing the cut events back distributes over concatenation |
| Sse.RawEventsAppend | public/chat.js:583-585 | two lists of raw events form a list of raw events |
| Sse.FramesSpec | public/chat.js:583-585 | the cutting loop splits the text into raw events, each followed by its "\n\n", and a rest without a blank line; no raw event holds one |
| Sse.FramesUnique | public/chat.js:583-585 | any split with those three properties is the one the loop makes |
| Sse.FramesConcat | public/chat.js:583-585 | cutting a concatenation is cutting the first part, then its rest followed by the second part |
| Sse.LineValue | public/chat.js:588-591 | a line contributes a value exactly when it starts with "data:", and that value has no leading whitespace |
| Sse.DataLinesEmpty | public/chat.js:588-593 | an event yields no data lines exactly when none of its lines is a data line |
| Sse.DataLinesTrimmed | public/chat.js:590 | every collected value has had its whole leading whitespace run removed |
| Sse.DataLinesAppend | public/chat.js:588-592 | the collected values of two line lists are the collected values of each, in order |
| Sse.DataLinesSingle | public/chat.js:588-592 | a single line contributes just its own value |
| Sse.DataLinesNext | public/chat.js:588-592 | one more line adds just its own value to what was collected before it |
| Sse.EventData | public/chat.js:586-593 | an event is dropped exactly when it has no data line |
| Sse.EventPayload | public/chat.js:593 | an event adds at most one payload, and none exactly when it is dropped |
| Sse.PayloadsAppend | public/chat.js:583-594 | the payloads of two lists of raw events are the payloads of each, in order |
| Sse.Consume | public/chat.js:579-596 | the rest handed back holds no carriage return and no blank line, and is no longer than the input |
| Sse.ConsumeIncremental | public/chat.js:579-596 | parsing the rest of a first call followed by new text gives the same events and rest as one call on all the text: split points do not matter |
| Sse.CollectDataLines | public/chat.js:587-592 | the inner loop collects exactly the values of the data lines, in order |
| Sse.ConsumeSseEvents | public/chat.js:579-596 | the parser's loops compute exactly the events and rest that `Consume` specifies |
| Delta.IncrementsAppend | public/chat.js:543-559 | the text added by two lists of payloads is the text added by each, in order |
| Delta.UntilDone | public/chat.js:543-544 | the payloads handled form a prefix without "[DONE]", and they stop only at a "[DONE]" |
| Delta.ApplyEvents | public/chat.js:543-559 | the batch loop reports "[DONE]" exactly when one is among the events; it appends exactly the increments of the payloads before it |
| Delta.ProcessBuffer | public/chat.js:541-561 | processBuffer hands back the parser's rest, or "" after "[DONE]", and appends the increments of the batch |
| Delta.ReadChunk | public/chat.js:536-538 | one turn of the read loop advances its state by exactly one chunk |
| Delta.ReadStream | public/chat.js:530-539 | the read loop and its final flush produce exactly `StreamText`, the state after every chunk plus the flush |
| Delta.PumpWhole | public/chat.js:530-539 | without a "[DONE]", the loop's state after n chunks is one parser call on the first n chunks joined: its rest, and the increments of all its events |
| Delta.StreamWhole | public/chat.js:530-539 | without a "[DONE]", the final text of a stream is the increments of every event of the joined body plus a blank line, however the chunks split it |
| History.RemoveAt | public/chat.js:277 | `splice(index, 1)` removes the message at the index, keeps the others in order, and changes nothing past the end |
| History.RemoveAtMultiset | public/chat.js:277 | exactly the removed message is lost: the others are kept as a multiset |
| History.WithContent | public/chat.js:368 | assigning a message's content keeps its role and leaves every other message unchanged |
| History.Edited | public/chat.js:368-374 | saveEdit keeps the messages before the index, gives the edited one the new content with its role, and removes everything after it |
| History.EditedIdempotent | public/chat.js:368-374 | saving the same edit twice gives the same history as saving it once |
| History.Request | public/chat.js:512 | the request holds every message before the last; together with the last one it is the history |
| History.RequestAfterPush | public/chat.js:498-513 | the request sent after the placeholder push is the history it was pushed onto, the greeting included |
| History.FillPlaceholder | public/chat.js:563 | writing the final text into a pushed placeholder gives the history plus one assistant message |
| View.ReplaceAll | public/chat.js:430 | a global replace removes every occurrence of the character when the replacement lacks it, and changes nothing when the character is absent |
| View.ReplaceAllAppend | public/chat.js:430 | a global replace distributes over concatenation |
| View.ChainAppend | public/chat.js:429-434 | the chain of five replaces distributes over concatenation |
| View.ChainChar | public/chat.js:429-434 | on one character the chain gives that character's entity; no later replace touches an earlier entity |
| View.EscapeHtmlOnePass | public/chat.js:427-435 | the chain of global replaces equals a one-pass escape of each character |
| View.EscapedHasNoMarkup | public/chat.js:427-435 | escaped text contains no `<`, `>`, `"` or `'` |
| View.EscapeHtmlRoundTrip | public/chat.js:427-435 | decoding the five entities in what escapeHtml produced gives the text back |
| View.EscapedRoundTrip | public/chat.js:427-435 | decoding the one-pass escape gives the text back |
| View.Actions | public/chat.js:224-252 | user messages get edit then delete; the assistant message at index 0 gets nothing; every other message gets copy, regenerate, like and dislike in that order; like and dislike come exactly with regenerate, and no message gets more than four buttons |
| Chat.TrimEnd | public/chat.js:459 | the result is a prefix of the input, everything removed is whitespace, and the result does not end with whitespace |
| Chat.Trim | public/chat.js:459 | the trimmed message is empty exactly when the input is all whitespace; otherwise it has no whitespace at either end |
| Chat.Title | public/chat.js:420-421 | the title is the message itself when it has at most 30 characters; otherwise it is its first 30 characters followed by "..." |
| Chat.Reserve | public/chat.js:462-471 | the gate refuses exactly when the count is at most zero; otherwise the count drops by one and stays non-negative |
| Chat.GrantedBound | public/chat.js:462-471 | from a count n, a run of gated actions issues min(attempts, n) requests, and none when n is at most zero |
| Chat.Records | public/chat.js:386 | the serialized list has one record per session, in order, each holding that session's id, title and history |
| Chat.IndexOfId | public/chat.js:117 | `find` by id: the first session with that id, or -1 exactly when no session has it |
| Chat.WithoutId | public/chat.js:131 | `filter` by id: every session with the id goes, every other stays, and nothing changes when no session has the id |
| Chat.WithoutIdSingle | public/chat.js:131 | a one-session list keeps its session exactly when the session's id differs |
| Chat.WithoutIdAppend | public/chat.js:131 | filtering distributes over concatenation, so the kept sessions stay in their order and each appears as often as before |
| Chat.WithoutIdKeepsIds | public/chat.js:131 | filtering keeps ids unique |
| Chat.WithoutIdKeepsDistinct | public/chat.js:131 | filtering keeps every session object at one position at most |
| Chat.Session.constructor | public/chat.js:99-109 | a session object holds the id, title and history it is made with |
| Chat.ChatApp.constructor | public/chat.js:9-12 | the client starts with no sessions, no active id, no stream running and a count of 50 |
| Chat.ChatApp.SaveSessions | public/chat.js:384-391 | storage then holds the serialized session list and the active id, with `null` written as "null"; the stored count is untouched |
| Chat.ChatApp.UpdateRequestCount | public/chat.js:148-151 | storage then holds the count; the other keys are untouched |
| Chat.ChatApp.SpendRequest | public/chat.js:471-472 | the count drops by one, stays non-negative and is stored; nothing else changes |
| Chat.ChatApp.LoadRequestCount | public/chat.js:153-159 | a saved count replaces the current one and the result is written back |
| Chat.ChatApp.CreateNewSession | public/chat.js:97-113 | a fresh session with the new id, "New Chat" and the greeting goes in front, the rest are kept in order, and the list is saved |
| Chat.ChatApp.SwitchToSession | public/chat.js:115-118 | the id becomes active whether or not a session has it; nothing else changes |
| Chat.ChatApp.NewChat | public/chat.js:451-454 | the new session is created in front and becomes the active one; storage holds the new list and the previous active id, and the stored count is untouched |
| Chat.ChatApp.DeleteSession | public/chat.js:127-145 | see "deleteSession" below |
| Chat.ChatApp.LoadSessions | public/chat.js:393-415 | see "loadSessions" below |
| Chat.ChatApp.UpdateSessionTitle | public/chat.js:417-425 | a found session with at most two messages gets `Title` of the message and the list is saved; otherwise nothing changes; the history is never touched |
| Chat.ChatApp.BeginStream | public/chat.js:491-513 | the flag is set, exactly the placeholder is appended, and the request is the history before the push |
| Chat.ChatApp.FinishStream | public/chat.js:521-576 | see "FinishStream" below |
| Chat.ChatApp.SendMessage | public/chat.js:458-488 | see "sendMessage" below |
| Chat.ChatApp.Submit | public/chat.js:470-488 | past the gate: one request is spent, the message and then the placeholder are pushed, and the stored count is always the new count, while the stored session list and active id change only through the title update |
| Chat.ChatApp.RegenerateMessage | public/chat.js:287-304 | refused without an active session, during a stream or without quota; otherwise one request is spent, the message is removed, the list is saved with only that session's record changed, and the stream begins on what is left |
| Chat.ChatApp.SaveEdit | public/chat.js:356-380 | see "saveEdit" below |
| Chat.ChatApp.Resubmit | public/chat.js:368-379 | the history becomes `Edited`, the list is saved with only that session's record changed, and the stream begins |
| Chat.ChatApp.DeleteMessage | public/chat.js:272-281 | once confirmed, the active session's history becomes `RemoveAt` of it and the list is saved; otherwise nothing changes |
| Chat.ChatApp.SendAndAwait | public/chat.js:458-576 | a message is sent exactly when the gate admits it; refused, the count, the flag, storage and the active session are unchanged; sent, the history grows by exactly the user's message and the assistant's final text, one request is spent and stored, the title follows the retitle rule, the flag is cleared, and a delivered answer leaves storage in step with memory |

The four rows that point here state the following.
- **deleteSession** (`DeleteSession`):
  - Unconfirmed, nothing changes.
  - Confirmed, no session with the id is left and the list is never empty after.
  - Either the filtered list stays and a deleted active session hands over to the first one left, or an emptied list gets one new session, which becomes active.
  - Storage holds the final list and the old active id.
  - Distinctness and unique ids are kept.
- **loadSessions** (`LoadSessions`):
  - A parsed list replaces the sessions. A truthy saved id that is found is kept; otherwise the first session's id when it is truthy. In both cases storage is untouched.
  - Otherwise a new session with the new id, "New Chat" and the greeting goes in front of the parsed list; storage holds the new list and the saved id.
  - A missing or unparsable list gets that new session in front of the sessions already present; storage holds the new list and the previous active id.
  - The count, in memory and in storage, is untouched.
  - Some listed session is active afterwards.
- **FinishStream** (`FinishStream`):
  - The flag ends cleared.
  - While the placeholder's index is still in the history, it gets the streamed text (`Delta.StreamText`) or the error text, and storage is written only on a delivered reply.
  - Otherwise storage is unchanged.
- **sendMessage** (`SendMessage`):
  - With an empty trimmed message, a running stream, no quota or no active session, nothing changes.
  - Otherwise one request is spent, the trimmed message is pushed and then the placeholder.
  - The request is the history with the message.
  - The stored count is always the new count.
  - The list is saved with only that session's record changed when the history was short enough to retitle; otherwise the stored session list and active id are untouched.
- **saveEdit** (`SaveEdit`):
  - Refused without an active session or without quota.
  - Otherwise one request is spent even when the index is past the end, which then changes nothing else.
  - With an index in range, the history becomes `Edited`, the list is saved with only that session's record changed, and the stream begins.

## Left out

- DOM rendering, markdown and highlighting (`renderMarkdown`, `renderMessages`, `renderSessions`, `createBtn`, `enterEditMode`, the typing indicator, scrolling, the input box) are not modelled. They only draw state the model holds.
- The rule of `renderMessages` that skips empty messages other than the last one is not modelled (rendering only).
- `confirm` is a boolean parameter (`confirmed`). `alert` and `console` output are not modelled.
- The clipboard (`copyToClipboard`) and the like/dislike logging are not modelled. `View.Actions` only says which buttons exist.
- localStorage is the ghost `Storage` object; JSON serialization is `Chat.Records`.
- The `try`/`catch` in `saveSessions` is not modelled: a failing write is taken not to happen.
- Chat.Title: lengths and the 30-character cut are counted in code points. JavaScript's `length` and `substring` count UTF-16 code units, so a message with characters outside the Basic Multilingual Plane is cut at another place.
- `Chat.ChatApp.LoadRequestCount` takes the saved count already parsed. `parseInt` on stored text, and NaN, are not modelled.
- `Chat.ChatApp.LoadSessions` takes the outcome of `JSON.parse` as a `SavedList` (missing, unparsable, or a list of sessions). This has three consequences:
  - a saved value that parses to something other than an array is not modelled;
  - the list is taken to hold distinct sessions;
  - the saved active id is taken as a string or null.
- `fetch`, the reader and `TextDecoder` are collaborators. A reply is either `Failed` (a rejected fetch or read, a non-ok status, no body) or the already decoded chunks, as strings of code points. UTF-16 code units, the decoder's split multi-byte sequences and its final flush are not modelled.
- `JSON.parse` and the property probes are the `decode` parameter. Its result says only whether `response` and `choices[0].delta.content` are truthy, and which text they add.
- `generateId` (clock and randomness) is the `freshId` parameter. The caller supplies an id that no session has.
- Timers, `await` interleavings other than between `BeginStream` and `FinishStream`, and the event listeners are not modelled; `Chat.ChatApp.NewChat` and `Chat.ChatApp.SendAndAwait` stand for the button and a send followed by its full answer.
- `Delta.PumpWhole` and `Delta.StreamWhole` are stated only for streams that carry no "[DONE]": a "[DONE]" empties the buffer mid-stream, so after it the chunk split points can matter. With "[DONE]", `Delta.ReadStream` still equals `Delta.StreamText`.
- `src/types.ts` (the worker's message types) is not part of this model beyond the roles of a message.
