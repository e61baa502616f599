/**
 * The two chat entry points of `LLMService` in `backend/main.py`:
 * `chat_stream`, which relays the completion as events, and
 * `chat_non_stream`, which returns it whole. Both compose the same prompt
 * (web page context, then retrieval context, then the question), and both
 * store the reply and name a new chat after its first message.
 *
 * The network is a parameter: a `Transport` says whether the endpoint was
 * reached, with which status, body text and stream chunks (already decoded
 * to text), and whether the stream ended cleanly; a `PlainTransport` says
 * the same of the non-streaming request.
 */
module Chat {
  import opened PyStr
  import opened Retrieval
  import opened Relay

  // ---------------------------------------------------------------------
  // Inputs

  /** An exception from the HTTP client: `asyncio.TimeoutError` or another
      one, with its `str(e)`. */
  datatype Fault = Timeout | Raised(message: string)

  /** How the stream ended after its last chunk. */
  datatype Ending = Complete | Interrupted(fault: Fault)

  /** The streaming request: no response at all, or a status, the body text
      read on an error status, and the chunks of `resp.content.iter_any()`. */
  datatype Transport =
    | Unreachable(fault: Fault)
    | Answered(status: int, text: string, chunks: seq<string>, ending: Ending)

  /** `data["choices"][0]["message"]["content"]` of the non-streaming reply,
      or the exception its look-up raises. */
  datatype Body = Parsed(content: string) | Malformed(message: string)

  /** The non-streaming request. */
  datatype PlainTransport =
    | NoReply(fault: Fault)
    | Replied(status: int, text: string, body: Body)

  /** The chat model configuration the relay needs (`get_model_by_type("chat")`). */
  datatype ModelConfig = ModelConfig(apiUrl: string, modelId: string)

  datatype Option<T> = None | Some(value: T)

  /** A stored chat message. */
  datatype Message = Message(role: string, content: string)

  /** What `build_rag_context(message)` reads besides the message: the query
      embedding, the stored chunks, the settings and the floating-point
      parameters of the ranking. */
  datatype Retriever = Retriever(query: Vector, chunks: seq<StoredChunk>, settings: RagSettings,
                                 ratio: (real, real, real) -> real, round: real -> real, fmt: real -> string)

  const NotConfigured := "Chat model not configured"
  const TimeoutMessage := "Request timeout"

  // ---------------------------------------------------------------------
  // Prompt composition

  const WebIntro := "以下是用户提供的网页内容作为参考 (来源: "
  const UserQuestion := "User question: "

  /** The block that introduces a web page's text (`web_context`). */
  function WebContext(content: string, url: string): string {
    WebIntro + url + "):\n---\n" + content + "\n---\n\n"
  }

  /** `final_message`: the retrieval context and `"User question: "` before
      the message when there is a context, and the web page block before
      that when there is page text. */
  function Prompt(message: string, ragContext: string, webContent: string, webUrl: string): string {
    var asked := if ragContext != "" then ragContext + UserQuestion + message else message;
    if webContent != "" then WebContext(webContent, webUrl) + asked else asked
  }

  /** The prompt always ends with the message; it is the bare message exactly
      when there is neither a retrieval context nor page text; the page block
      comes first and the retrieval context right before the question. */
  lemma PromptShape(message: string, ragContext: string, webContent: string, webUrl: string)
    ensures var p := Prompt(message, ragContext, webContent, webUrl);
      && EndsWith(p, message)
      && (p == message <==> ragContext == "" && webContent == "")
      && (webContent != "" ==> StartsWith(p, WebContext(webContent, webUrl)))
      && (ragContext != "" ==> EndsWith(p, ragContext + UserQuestion + message))
      && (webContent == "" ==> StartsWith(p, ragContext))
  {
    var p := Prompt(message, ragContext, webContent, webUrl);
    var asked := if ragContext != "" then ragContext + UserQuestion + message else message;
    assert EndsWith(asked, message) by {
      if ragContext != "" {
        assert asked == (ragContext + UserQuestion) + message;
      }
    }
    if webContent != "" {
      assert p == WebContext(webContent, webUrl) + asked;
      EndsWithAfter(WebContext(webContent, webUrl), asked, message);
      assert |WebContext(webContent, webUrl)| > 0;
    } else {
      assert asked[..|ragContext|] == ragContext;
    }
  }

  /** A suffix of `b` is a suffix of `a + b`. */
  lemma EndsWithAfter(a: string, b: string, t: string)
    requires EndsWith(b, t)
    ensures EndsWith(a + b, t)
  {
    assert (a + b)[|a + b| - |t|..] == b[|b| - |t|..];
  }

  // ---------------------------------------------------------------------
  // The chat title

  const TitleLength := 30
  const Ellipsis := "..."

  /** `message[:30] + "..." if len(message) > 30 else message` */
  function Title(message: string): string {
    if |message| > TitleLength then message[..TitleLength] + Ellipsis else message
  }

  /** The title is at most 33 characters, starts with the first 30 of the
      message (all of it when shorter), is the message itself when that has
      at most 30, and is exactly 33 long otherwise. */
  lemma TitleBound(message: string)
    ensures var t := Title(message);
      && |t| <= TitleLength + |Ellipsis|
      && StartsWith(t, SliceTo(message, TitleLength))
      && (|message| <= TitleLength ==> t == message)
      && (|message| > TitleLength ==> |t| == TitleLength + |Ellipsis| && EndsWith(t, Ellipsis))
  {
  }

  // ---------------------------------------------------------------------
  // The stored chat

  /** A chat's stored messages (`get_messages`) and its title. */
  class ChatLog {
    var messages: seq<Message>
    var title: string

    constructor(messages: seq<Message>, title: string)
      ensures this.messages == messages && this.title == title
    {
      this.messages := messages;
      this.title := title;
    }

    /** `db.add_message(chat_id, role, content)` */
    method AddMessage(role: string, content: string)
      modifies this
      ensures messages == old(messages) + [Message(role, content)]
      ensures title == old(title)
    {
      messages := messages + [Message(role, content)];
    }

    /** `db.update_chat_title(chat_id, title)` */
    method UpdateTitle(t: string)
      modifies this
      ensures title == t
      ensures messages == old(messages)
    {
      title := t;
    }

    /** Stores the assistant reply and, when the chat then has at most two
        messages, names it after the user's message. */
    method SaveReply(reply: string, message: string)
      modifies this
      ensures messages == old(messages) + [Message(Assistant, reply)]
      ensures title == if |old(messages)| + 1 <= 2 then Title(message) else old(title)
    {
      AddMessage(Assistant, reply);
      var count := |messages|;
      if count <= 2 {
        UpdateTitle(Title(message));
      }
    }
  }

  const Assistant := "assistant"
  const User := "user"

  // ---------------------------------------------------------------------
  // Configuration and error texts

  /** The chat model is configured when it exists with an API URL and a
      model id. */
  predicate Configured(config: Option<ModelConfig>) {
    config.Some? && config.value.apiUrl != "" && config.value.modelId != ""
  }

  /** The `{"error": …}` text for an exception: `"Request timeout"` for a
      timeout, `str(e)` otherwise. */
  function FaultMessage(fault: Fault): string {
    match fault
    case Timeout => TimeoutMessage
    case Raised(m) => m
  }

  /** `f"API error ({resp.status}): {error_text}"` */
  function ApiError(status: int, text: string): string {
    "API error (" + IntString(status) + "): " + text
  }

  /** The status can be read back from the streaming error message. */
  lemma ApiErrorStatus(status: nat, text: string)
    ensures var m := ApiError(status, text);
      var digits := m[|"API error ("|..|m| - |"): "| - |text|];
      && (forall k :: 0 <= k < |digits| ==> '0' <= digits[k] <= '9')
      && ParseDecimal(digits) == status
  {
    var m := ApiError(status, text);
    var d := Decimal(status);
    assert m == "API error (" + d + "): " + text;
    assert m[|"API error ("|..|m| - |"): "| - |text|] == d;
    DecimalRoundTrip(status);
  }

  /** The retrieval context and references when `use_rag` is set, and
      nothing otherwise. */
  function Retrieved(useRag: bool, message: string, retriever: Retriever): (string, seq<Reference>) {
    if useRag then RagContext(retriever.query, retriever.chunks, retriever.settings, retriever.ratio, retriever.round, retriever.fmt)
    else ("", [])
  }

  /** The history sent to the model: the stored messages and the composed
      user turn. */
  function Request(history: seq<Message>, message: string, useRag: bool, webContent: string, webUrl: string,
                   retriever: Retriever): seq<Message> {
    history + [Message(User, Prompt(message, Retrieved(useRag, message, retriever).0, webContent, webUrl))]
  }

  /** The events after a clean end of stream: the contents, the references
      when there are any, and one `done`. */
  function Finish(contents: seq<string>, refs: seq<Reference>): seq<Event> {
    ContentEvents(contents) + (if refs == [] then [] else [References(refs)]) + [Done]
  }

  /** How many events are `done`. */
  function DoneCount(events: seq<Event>): nat {
    if events == [] then 0
    else DoneCount(events[..|events| - 1]) + (if events[|events| - 1].Done? then 1 else 0)
  }

  /** How many events carry references. */
  function ReferenceCount(events: seq<Event>): nat {
    if events == [] then 0
    else ReferenceCount(events[..|events| - 1]) + (if events[|events| - 1].References? then 1 else 0)
  }

  lemma {:induction false} ContentCounts(contents: seq<string>)
    ensures DoneCount(ContentEvents(contents)) == 0
    ensures ReferenceCount(ContentEvents(contents)) == 0
  {
    if contents != [] {
      var n := |contents| - 1;
      assert ContentEvents(contents)[..n] == ContentEvents(contents[..n]);
      ContentCounts(contents[..n]);
    }
  }

  /** A clean stream ends with exactly one `done`, as its last event; a
      references event appears exactly when there are references, once and
      right before it; everything before is content, in order. */
  lemma FinishShape(contents: seq<string>, refs: seq<Reference>)
    ensures var e := Finish(contents, refs);
      && e[|e| - 1] == Done
      && DoneCount(e) == 1
      && ReferenceCount(e) == (if refs == [] then 0 else 1)
      && (refs != [] ==> e[|e| - 2] == References(refs))
      && e[..|contents|] == ContentEvents(contents)
  {
    var c := ContentEvents(contents);
    var e := Finish(contents, refs);
    ContentCounts(contents);
    if refs == [] {
      assert e == c + [Done];
      assert e[..|e| - 1] == c;
    } else {
      var r := c + [References(refs)];
      assert e == r + [Done];
      assert e[..|e| - 1] == r;
      assert r[..|r| - 1] == c;
    }
  }

  // ---------------------------------------------------------------------
  // chat_stream

  /** `chat_stream(chat_id, message, use_rag, …, web_content, web_url)`:
      the events yielded, the messages sent to the model (empty when the
      model is not configured), and the stored reply and title. */
  method ChatStream(chat: ChatLog, message: string, useRag: bool, webContent: string, webUrl: string,
                    config: Option<ModelConfig>, retriever: Retriever, transport: Transport,
                    decode: string -> Decoded)
      returns (events: seq<Event>, request: seq<Message>)
    modifies chat
    ensures !Configured(config) ==> events == [Error(NotConfigured)] && request == []
    ensures Configured(config) ==> request == Request(old(chat.messages), message, useRag, webContent, webUrl, retriever)
    ensures Configured(config) && transport.Unreachable? ==> events == [Error(FaultMessage(transport.fault))]
    ensures Configured(config) && transport.Answered? && transport.status != 200 ==>
      events == [Error(ApiError(transport.status, transport.text))]
    ensures Configured(config) && transport.Answered? && transport.status == 200 ==>
      var run := Stream(transport.chunks, Classifier(decode));
      && (run.end.Failed? ==> events == ContentEvents(run.contents) + [Error(run.end.message)])
      && (!run.end.Failed? && transport.ending.Interrupted? ==>
            events == ContentEvents(run.contents) + [Error(FaultMessage(transport.ending.fault))])
      && (!run.end.Failed? && transport.ending.Complete? ==>
            events == Finish(run.contents, Retrieved(useRag, message, retriever).1))
    ensures Stored(chat, old(chat.messages), old(chat.title), StreamReply(config, transport, decode), message)
  {
    if config.None? || config.value.apiUrl == "" || config.value.modelId == "" {
      return [Error(NotConfigured)], [];
    }
    var ragContext, refs := "", [];
    if useRag {
      ragContext, refs := BuildRagContext(retriever.query, retriever.chunks, retriever.settings,
                                          retriever.ratio, retriever.round, retriever.fmt);
    }
    request := chat.messages + [Message(User, Prompt(message, ragContext, webContent, webUrl))];
    match transport
    case Unreachable(fault) =>
      return [Error(FaultMessage(fault))], request;
    case Answered(status, text, chunks, ending) =>
      if status != 200 {
        return [Error(ApiError(status, text))], request;
      }
      var relay := new StreamRelay();
      var i := 0;
      while i < |chunks|
        invariant 0 <= i <= |chunks|
        invariant relay.Valid()
        invariant !Stream(chunks[..i], Classifier(decode)).end.Failed?
        invariant var run := Stream(chunks[..i], Classifier(decode));
          && relay.buffer == run.rest
          && relay.events == ContentEvents(run.contents)
          && relay.fullResponse == Concat(run.contents)
        invariant chat.messages == old(chat.messages) && chat.title == old(chat.title)
      {
        StreamStep(chunks, i, Classifier(decode));
        ghost var prev := Stream(chunks[..i], Classifier(decode));
        var end := relay.Feed(chunks[i], decode);
        ghost var d := DrainLines(prev.rest + chunks[i], Classifier(decode));
        ContentEventsAppend(prev.contents, d.contents);
        ConcatAppend(prev.contents, d.contents);
        if end.Failed? {
          StreamFailed(chunks, i + 1, Classifier(decode));
          return relay.events + [Error(end.message)], request;
        }
        i := i + 1;
      }
      assert chunks[..i] == chunks;
      if ending.Interrupted? {
        return relay.events + [Error(FaultMessage(ending.fault))], request;
      }
      if relay.fullResponse != "" {
        chat.SaveReply(relay.fullResponse, message);
      }
      events := relay.events + (if refs == [] then [] else [References(refs)]) + [Done];
  }

  /** The reply `chat_stream` stores: the concatenated contents of a stream
      that ended cleanly, when they are not empty; nothing otherwise. */
  function StreamReply(config: Option<ModelConfig>, transport: Transport, decode: string -> Decoded): Option<string> {
    if !Configured(config) || transport.Unreachable? || transport.status != 200 then None
    else
      var run := Stream(transport.chunks, Classifier(decode));
      if run.end.Failed? || transport.ending.Interrupted? || Concat(run.contents) == "" then None
      else Some(Concat(run.contents))
  }

  /** The chat after a reply: unchanged when nothing is stored; otherwise
      the reply appended as an assistant message, and the title set from
      the message when the chat now has at most two messages. */
  twostate predicate Stored(chat: ChatLog, before: seq<Message>, title: string, reply: Option<string>, message: string)
    reads chat
  {
    match reply
    case None => chat.messages == before && chat.title == title
    case Some(r) =>
      && chat.messages == before + [Message(Assistant, r)]
      && chat.title == if |before| + 1 <= 2 then Title(message) else title
  }

  lemma ContentEventsAppend(a: seq<string>, b: seq<string>)
    ensures ContentEvents(a + b) == ContentEvents(a) + ContentEvents(b)
  {
  }

  /** A stored reply is never empty: an empty `full_response` stores nothing. */
  lemma StreamReplyNonEmpty(config: Option<ModelConfig>, transport: Transport, decode: string -> Decoded)
    ensures StreamReply(config, transport, decode).Some? ==> StreamReply(config, transport, decode).value != ""
    ensures StreamReply(config, transport, decode).Some? <==>
      && Configured(config) && transport.Answered? && transport.status == 200
      && !Stream(transport.chunks, Classifier(decode)).end.Failed?
      && transport.ending.Complete?
      && Concat(Stream(transport.chunks, Classifier(decode)).contents) != ""
  {
  }

  // ---------------------------------------------------------------------
  // chat_non_stream

  /** What `chat_non_stream` returns or raises: the reply and the
      references, an `HTTPException` detail, or an exception from the HTTP
      client or from reading the reply. */
  datatype Reply = Answer(content: string, references: seq<Reference>) | HttpError(detail: string) | Exception(fault: Fault)

  /** `chat_non_stream(chat_id, message, use_rag, …)`: the same prompt as
      the stream; a non-200 status raises `"API error: " + text`; any reply
      that is read is stored, even an empty one. */
  method ChatNonStream(chat: ChatLog, message: string, useRag: bool, webContent: string, webUrl: string,
                       config: Option<ModelConfig>, retriever: Retriever, transport: PlainTransport)
      returns (reply: Reply, request: seq<Message>)
    modifies chat
    ensures !Configured(config) ==> reply == HttpError(NotConfigured) && request == []
    ensures Configured(config) ==> request == Request(old(chat.messages), message, useRag, webContent, webUrl, retriever)
    ensures Configured(config) && transport.NoReply? ==> reply == Exception(transport.fault)
    ensures Configured(config) && transport.Replied? && transport.status != 200 ==>
      reply == HttpError("API error: " + transport.text)
    ensures Configured(config) && transport.Replied? && transport.status == 200 ==>
      match transport.body
      case Malformed(m) => reply == Exception(Raised(m))
      case Parsed(content) => reply == Answer(content, Retrieved(useRag, message, retriever).1)
    ensures Stored(chat, old(chat.messages), old(chat.title), PlainReply(config, transport), message)
  {
    if config.None? || config.value.apiUrl == "" || config.value.modelId == "" {
      return HttpError(NotConfigured), [];
    }
    var ragContext, refs := "", [];
    if useRag {
      ragContext, refs := BuildRagContext(retriever.query, retriever.chunks, retriever.settings,
                                          retriever.ratio, retriever.round, retriever.fmt);
    }
    request := chat.messages + [Message(User, Prompt(message, ragContext, webContent, webUrl))];
    match transport
    case NoReply(fault) =>
      return Exception(fault), request;
    case Replied(status, text, body) =>
      if status != 200 {
        return HttpError("API error: " + text), request;
      }
      match body
      case Malformed(m) =>
        return Exception(Raised(m)), request;
      case Parsed(content) =>
        chat.SaveReply(content, message);
        return Answer(content, refs), request;
  }

  /** The reply `chat_non_stream` stores: whatever content it read. */
  function PlainReply(config: Option<ModelConfig>, transport: PlainTransport): Option<string> {
    if !Configured(config) || transport.NoReply? || transport.status != 200 || transport.body.Malformed? then None
    else Some(transport.body.content)
  }
}
