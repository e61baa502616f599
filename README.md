# ChatRaw backend core in Dafny

This project models the core of the ChatRaw backend (`backend/main.py`):
how a document is cut into chunks for retrieval, how retrieval ranks stored
chunks against a query and builds the context block, how the streaming
chat relays an OpenAI-compatible server-sent-event stream as content
events, and how both chat entry points compose the prompt, store the reply
and title the chat.

Modules, one per file:

- `PyStr` (`pystr.dfy`): the Python `str` behaviour the core relies on.
  This covers `isspace`, `strip`, `split`, `startswith`, `endswith`, `in`,
  slicing with negative indices and `str(int)`.
- `Chunker` (`chunker.dfy`): `RAGService.chunk_document`. The function
  `Chunks` is the specification. The method `ChunkDocument` and its helper
  methods follow the source's loops.
- `Retrieval` (`retrieval.dfy`): `cosine_similarity` and `build_rag_context`.
  This covers the threshold filter, the stable descending sort, the `top_k`
  slice and the context text.
- `Relay` (`relay.dfy`): the line loop of `chat_stream`. The class
  `StreamRelay` holds `buffer`, `full_response` and the events yielded so far.
  Its method `Feed` appends one chunk and drains complete lines until the
  buffer holds no newline, or until a `data: [DONE]` line or a line whose
  decoding raises; the lines after either of those stay in the buffer.
- `Chat` (`chat.dfy`): `chat_stream` and `chat_non_stream` end to end. This
  covers configuration check, prompt, request, error paths, events,
  persistence and the title rule. The stored chat is the class `ChatLog`.

Behaviour kept as the code has it:

- `chunk_document` with `overlap == 0` seeds the next buffer with the whole
  flushed buffer, because `current[-0:]` is all of `current`
  (`Chunker.NoOverlapRepeats`).
- The docstring of `chunk_document` promises chunks of at most `chunk_size`.
  That holds only for force-sliced chunks. A flushed buffer can be longer
  (`Chunker.OversizeChunk`), and for `0 < overlap` it is bounded by
  `chunk_size + overlap + 1` (`Chunker.ChunkBound`).
- The whole-document fallback of `chunk_document` fires only for a document
  that is not empty but is all white space (`Chunker.BlankDocument`). It
  cannot fire for any other document (`Chunker.NonBlankDocument`).
- The score threshold is compared with the unrounded cosine. The references
  carry the score rounded to two places.
- In the stream, `data: [DONE]` breaks only the inner `while`. Lines after it
  in the same chunk stay in the buffer. They are relayed if another chunk
  arrives and lost if none does (`Relay.DoneDefers`).
- A decoder exception other than `json.JSONDecodeError` escapes the line loop
  and becomes one `error` event after whatever was already relayed.
- `chat_stream` stores a non-empty reply only. `chat_non_stream` stores
  whatever content it reads, even an empty one.
- The web-context line opens with a Chinese phrase ("以下是用户提供的网页内容作为参考 (来源: ").
  The source file shows it with its UTF-8 bytes read in another encoding.
  The model uses the Chinese text.

Further facts about the code that the model keeps:

- `chunk_document` does not clamp an `overlap` of `chunk_size` or more (see
  "Left out").
- `data: [DONE]` leaves only the inner loop, not the stream
  (`Relay.DoneLine`, `Relay.DoneDefers`).
- `chat_stream` yields no thinking events. The `chat_id` event comes from
  the `/api/chat` route (`backend/main.py:891`), not from `chat_stream`, and
  is not modelled.

## Model

| member | source | states |
|---|---|---|
| PyStr.Strip | backend/main.py:691 | `str.strip()`: the result has no white space at either end, and is empty exactly when the input is all white space |
| PyStr.StripTrims | backend/main.py:691 | the stripped text is a contiguous piece of the input with only white space cut from both sides |
| PyStr.Split | backend/main.py:686 | `str.split(sep)` returns at least one part |
| PyStr.SplitJoin | backend/main.py:686 | joining the parts of `split(sep)` with `sep` gives back the text |
| PyStr.SplitPartsFree | backend/main.py:686 | no part of `split(sep)` contains the separator |
| PyStr.JoinBlank | backend/main.py:686-693 | a text split on a blank separator is blank exactly when every part is blank |
| PyStr.FindContains | backend/main.py:686 | `find`, which `split` cuts at, succeeds exactly when the text contains the substring, the notion the chunker's coverage lemmas use |
| PyStr.SliceTo | backend/main.py:516 | `s[:n]` is a prefix of `s` of length `min(n, len(s))`, with negative `n` counted from the end |
| PyStr.SliceFrom | backend/main.py:710 | `s[n:]` is a suffix of `s`, and its length follows Python's rules for negative `n` |
| PyStr.IntString | backend/main.py:480 | `str(n)` is the decimal digits, with a minus sign for a negative `n` |
| PyStr.DecimalRoundTrip | backend/main.py:480 | the decimal text of a natural number parses back to it |
| PyStr.DecimalNoLeadingZero | backend/main.py:659 | the decimal text starts with `0` only for zero |
| Chunker.ChunkDocument | backend/main.py:684-724 | the chunks are `Chunks(content, chunk_size, overlap)`, none is empty, and an empty document has none |
| Chunker.ScanParagraphs | backend/main.py:686-714 | the paragraph loop leaves the chunks and the buffer of the specified scan over the stripped paragraphs |
| Chunker.AbsorbParagraph | backend/main.py:691-714 | one paragraph is skipped when blank, force-sliced when longer than a chunk (after flushing the buffer), or buffered after an overflow flush that seeds the next buffer |
| Chunker.FlushAndFallback | backend/main.py:716-722 | the final flush, then the whole-document slices when that produced nothing and the document is not empty |
| Chunker.ForceSplit | backend/main.py:702-703 | `para[i:i + chunk_size]` for `i` in `range(0, len, chunk_size - overlap)` |
| Chunker.ChunksNonEmpty | backend/main.py:698-722 | no chunk is empty |
| Chunker.EmptyDocument | backend/main.py:720 | an empty document has no chunks |
| Chunker.ChunkPiecesWellFormed | backend/main.py:684-724 | every chunk is non-empty; a flushed buffer is stripped and ends with the last paragraph it took in; a slice of a long paragraph is a piece of that paragraph; every slice is at most `chunk_size` long; buffered and sliced chunks follow paragraph order; a fallback chunk is a piece of the whole document |
| Chunker.ScanInvariant | backend/main.py:690-714 | the loop keeps every chunk well formed and ordered, and keeps a buffer that ends with its last paragraph and a break |
| Chunker.ScanNoWhole | backend/main.py:690-717 | the paragraph loop and the final flush never produce a fallback chunk |
| Chunker.NothingLost | backend/main.py:684-724 | every non-blank paragraph is in the chunks: inside one chunk when it fits, and every slice of it a chunk when it does not |
| Chunker.NonBlankDocument | backend/main.py:716-722 | a document with any non-blank character never takes the fallback and has at least one chunk |
| Chunker.BlankDocument | backend/main.py:719-722 | a blank document's chunks are the force slices of the whole text |
| Chunker.BlankHoldsNothing | backend/main.py:692 | a blank text contains no stripped non-empty paragraph |
| Chunker.SlicesOverlap | backend/main.py:702-703 | consecutive slices overlap: a slice after its first `chunk_size - overlap` characters is a prefix of the next |
| Chunker.SlicesRejoin | backend/main.py:702-703 | the first `chunk_size - overlap` characters of each slice, laid end to end, are exactly the text: nothing is lost or repeated |
| Chunker.SlicesReachEnd | backend/main.py:702 | there are enough slices to reach the end of the text: the last one starts within `chunk_size - overlap` of it |
| Chunker.SlicesContained | backend/main.py:702-703 | every slice of the force split is a piece of the text it was cut from |
| Chunker.SliceAt | backend/main.py:702-703 | slice `j` starts at `j * (chunk_size - overlap)` and ends at `chunk_size` past it or at the end of the text |
| Chunker.ChunkBound | backend/main.py:706-714 | with `0 < overlap`, every chunk is at most `chunk_size + overlap + 1` long |
| Chunker.OversizeChunk | backend/main.py:685 | counterexample to the docstring: `"ab\n\ncd"` with size 4 and overlap 3 gives a 7-character chunk |
| Chunker.NoOverlapRepeats | backend/main.py:709-710 | with overlap 0 the whole flushed buffer is repeated at the head of the next chunk |
| Chunker.SeedTail | backend/main.py:709-710 | after a flush the buffer restarts with the last `overlap` characters and a space |
| Chunker.SeedWhole | backend/main.py:710 | `current[-0:]` is all of `current` |
| Chunker.TwoParagraphs | backend/main.py:706-717 | two paragraphs that overflow a chunk together give the first as one chunk and the seeded second as the next |
| Retrieval.NormSqZero | backend/main.py:671-673 | the squared norm is never negative and is zero exactly for the zero vector |
| Retrieval.CosineGuards | backend/main.py:667-675 | the similarity is 0 for different lengths, an empty vector or a zero vector, and otherwise the ratio of the dot product to positive norms |
| Retrieval.Candidates | backend/main.py:643-649 | the kept chunks are never more than the stored ones |
| Retrieval.CandidateFrom | backend/main.py:644-649 | every kept reference comes from a stored chunk with an embedding whose score passes the threshold, carrying its rounded score |
| Retrieval.CandidateOf | backend/main.py:644-649 | every stored chunk with an embedding whose score passes the threshold is kept |
| Retrieval.ScoreChunks | backend/main.py:643-649 | the scan loop builds the candidate list in store order |
| Retrieval.SortSorted | backend/main.py:651 | the sort orders the scores from highest to lowest |
| Retrieval.SortPerm | backend/main.py:651 | the sort is a permutation of the results |
| Retrieval.SortStable | backend/main.py:651 | the sort is stable: results with equal scores keep their order |
| Retrieval.RankChunks | backend/main.py:643-652 | filter, sort and `top_k` slice give `Ranked` |
| Retrieval.RankedSound | backend/main.py:651-652 | the ranked list is sorted and holds only kept candidates |
| Retrieval.RankedCount | backend/main.py:652 | `results[:top_k]` has `min(top_k, n)` entries, and `max(n + top_k, 0)` for a negative `top_k` |
| Retrieval.RankedBest | backend/main.py:651-652 | no candidate left out scores above one kept |
| Retrieval.RankedStable | backend/main.py:651-652 | among equal scores the kept ones are the first in store order |
| Retrieval.BuildRagContext | backend/main.py:630-664 | the context and references are `RagContext`: empty for an empty query embedding or no result, else the header, numbered entries and footer |
| Retrieval.FormatContext | backend/main.py:657-660 | the loop builds the header, entries 1 to n in rank order, then the footer |
| Retrieval.RagContextEmpty | backend/main.py:634-655 | the context is empty exactly when there are no references, which happens exactly for an empty query embedding or an empty ranking |
| Retrieval.RagContextRefs | backend/main.py:651-664 | the references are the ranked results, and the context lists them under the header and before the footer |
| Retrieval.EntryListed | backend/main.py:658-659 | entry `k + 1` of the context is reference `k` |
| Relay.ReadLine | backend/main.py:488-507 | one line is skipped, emitted, stops the loop or fails exactly as `Classify` says |
| Relay.ClassifyCases | backend/main.py:489-499 | a line is skipped without the `data: ` prefix, stops exactly for `data: [DONE]`, and fails exactly when the decoder raises |
| Relay.ClassifyEmit | backend/main.py:489-505 | a line is emitted exactly when, stripped, it has the `data: ` prefix, its payload is not `[DONE]` and the decoder finds a non-empty content in it; the content emitted is that one |
| Relay.FirstNewline | backend/main.py:488 | `split("\n", 1)` cuts at the first newline |
| Relay.DrainSuffix | backend/main.py:487-488 | the buffer left after the line loop is a suffix of the buffer before it |
| Relay.DrainedRest | backend/main.py:487-488 | when the loop runs out of lines, the buffer left holds no newline and is everything after the last one |
| Relay.SkippedLine | backend/main.py:491-492 | a skipped line emits nothing and the loop continues with the next |
| Relay.EmittedLine | backend/main.py:503-505 | an emitted line puts its content before those of the lines after it |
| Relay.DoneLine | backend/main.py:495-496 | `[DONE]` leaves the loop with the later lines still buffered |
| Relay.FailedLine | backend/main.py:498-507 | an exception other than a JSON decode error leaves the loop with the later lines unread |
| Relay.DrainSplit | backend/main.py:484-488 | draining a buffer and then its leftover plus new text is the same as draining all of it at once |
| Relay.ChunkingInvariant | backend/main.py:484-507 | with no `[DONE]` and no exception, what is relayed does not depend on how the stream is cut into chunks |
| Relay.EmittedContents | backend/main.py:504-505 | the text of the content events is the concatenation of the contents |
| Relay.DrainBuffer | backend/main.py:487-507 | the line loop leaves the buffer, emits the contents and ends as `DrainLines` says |
| Relay.StreamFailed | backend/main.py:484-507 | once a chunk has raised, later chunks are never read |
| Relay.StreamStep | backend/main.py:484-485 | each chunk is appended to the buffer left by the previous ones and drained |
| Relay.StreamRest | backend/main.py:484-488 | unless the stream stopped or raised, the buffer holds no newline and is a suffix of the last buffer drained |
| Relay.DoneDefers | backend/main.py:495-496 | a line after `[DONE]` in the same chunk is relayed only when another chunk arrives |
| Relay.StillValid | backend/main.py:504-505 | appending content events and their text keeps `full_response` equal to the text of the events |
| Relay.StreamRelay.constructor | backend/main.py:473-483 | the relay starts with an empty buffer, an empty response and no events |
| Relay.StreamRelay.Feed | backend/main.py:485-507 | one chunk: the buffer, the events and `full_response` advance as `DrainLines` of the old buffer and the chunk says, and `full_response` stays the text of the events |
| Relay.StreamRelay.Commit | backend/main.py:488-505 | the buffer becomes the leftover, and the events and `full_response` grow by the emitted contents |
| Chat.PromptShape | backend/main.py:435-444 | the prompt ends with the message, is the message alone exactly without retrieval context and page text, starts with the page block when there is page text, and has the context and `User question: ` right before the message |
| Chat.TitleBound | backend/main.py:516 | the title is at most 33 characters, starts with the first 30 of the message, is the message when that has at most 30, and otherwise is 33 long and ends with `...` |
| Chat.ApiErrorStatus | backend/main.py:480 | the status code can be read back from the streaming error text |
| Chat.FinishShape | backend/main.py:519-523 | a clean stream ends with exactly one `done`, last; there is one references event, right before it, exactly when there are references; the content events come first |
| Chat.ChatLog.AddMessage | backend/main.py:511 | the message is appended to the chat and the title is kept |
| Chat.ChatLog.UpdateTitle | backend/main.py:517 | the title is replaced and the messages are kept |
| Chat.ChatLog.SaveReply | backend/main.py:510-517 | the reply is appended as an assistant message; the title is set from the message when the chat then has at most two messages |
| Chat.ChatStream | backend/main.py:415-528 | not configured gives one error; otherwise the request is the history plus the composed prompt; a transport failure or a non-200 status gives one error; a raising line gives the contents so far plus an error; a broken stream gives the contents plus an error; a clean stream gives the finished events; the chat changes only by a non-empty reply |
| Chat.StreamReplyNonEmpty | backend/main.py:509-511 | a reply is stored exactly when the stream was configured, answered 200, neither raised nor broke, and relayed some text, and that reply is never empty |
| Chat.ChatNonStream | backend/main.py:530-599 | not configured raises the 500 detail; a client exception passes through; a non-200 status raises `API error: ` and the body; a reply that cannot be read raises; otherwise the content is stored, the title rule applied, and the content returned with the references |

## Left out

- Floating point: the cosine's square roots and division are the parameter `ratio`, applied to the dot product and the two squared norms. `round(score, 2)` and the `:.2f` formatting are parameters too. Scores are exact reals.
- Retrieval.CosineGuards: the zero-norm guard is stated for exact reals. In floating point a non-zero vector can have a norm that underflows to zero, and the model does not capture that.
- The embedding request (`get_embedding`) is not modelled. Its result is the query vector inside `Retriever`, and an empty vector stands for a failed request.
- Database reads and writes (`get_settings`, `get_chunks_with_embedding`, `get_model_by_type`, `get_messages`) are values passed in. `add_message` and `update_chat_title` are methods of `ChatLog`.
- JSON: parsing of the stream payloads is the parameter `decode`, and parsing of the non-streaming body is the `Body` value. `json.dumps` of the events is the `Event` datatype.
- Network and concurrency: `aiohttp` sessions, headers, the URL built from `api_url`, the payload (temperature, `top_p`, `max_tokens`), the 300-second timeout and `async` scheduling are not modelled. A `Transport` or `PlainTransport` value says what the network delivered.
- UTF-8 decoding of chunks (`chunk.decode("utf-8")`) is not modelled: chunks arrive as text. A decode error, and a multi-byte character split across chunks, are not modelled.
- Image input (`image_base64` with a vision model) is not modelled. The user turn is always the text prompt.
- Chunker.ChunkDocument: requires `0 <= overlap < chunk_size`. For `overlap == chunk_size`, Python's `range` raises on step 0. For a larger overlap, a long paragraph yields no slices. Neither case is modelled.
- Relay.StreamRelay.Feed: the line loop is a module-level method (`DrainBuffer`) over the buffer's value, and `Feed` stores its results. The buffer is not rewritten in place line by line.
- Errors raised by `build_rag_context` itself, before the stream's `try`, are not modelled. Retrieval is total here.
- The HTTP endpoints, the document upload pipeline (`process_document`), embedding batches and reranking are outside this model.
