/**
 The StudyBolt backend: the web-search adapter, search augmentation of a
 conversation, the `/api/chat` handler with its Server-Sent Events framing,
 and the `/api/search` handler with its cache.

 The search provider, the completion agent, the cache store and the clock are
 inputs: a `ProviderReply` is what the search request came back with, an
 `Upstream` is the sequence of deltas the completion stream delivered (and
 whether it then threw), a `Cache` is the key/value store keyed by the string
 that the server hashes, and `now` is the current time in seconds.

 On failure the search adapter returns `{}` instead of an array, so every
 caller that then calls `.map` on it throws. `PerformWebSearchAsWritten` and
 the `...AsWritten` handlers keep that behaviour; `PerformWebSearch` returns
 the empty list the callers expect, and `HandleChat` / `HandleSearch` use it.
 */
module ChatServer {
  import opened Text

  // ---------------------------------------------------------------------------
  // Search provider adapter

  /** One organic result as the provider sent it; a field may be missing. */
  datatype RawResult = RawResult(title: Option<string>, snippet: Option<string>, link: Option<string>)

  /** What the search request came back with. */
  datatype ProviderReply =
    | Organic(results: Option<seq<RawResult>>)   // a 2xx reply; `organic_results` may be missing
    | HttpFailure(status: int)                   // a reply whose status is not 2xx
    | NetworkFailure                             // the request or the body parse threw

  datatype SearchResult = SearchResult(id: string, title: string, snippet: string, link: string, text: string)

  /** The value `performWebSearch` resolves to: an array of results, or the `{}` it returns on failure. */
  datatype SearchValue = ResultArray(items: seq<SearchResult>) | EmptyObject

  /** JavaScript's `field || fallback` on an optional string: missing and empty both fall back. */
  function OrDefault(field: Option<string>, fallback: string): (r: string)
    ensures field.Some? && field.value != [] ==> r == field.value
    ensures field.None? || field.value == [] ==> r == fallback
  {
    if field.Some? && field.value != [] then field.value else fallback
  }

  /** The number of elements `xs.slice(0, end)` keeps from an array of length `len`. */
  function SliceCount(len: nat, end: int): nat
  {
    if end < 0 then Max(len + end, 0) else Min(end, len)
  }

  function ResultId(k: nat): string { "search-result-" + NatToString(k + 1) }

  function NormaliseOne(raw: RawResult, k: nat): SearchResult
  {
    SearchResult(
      ResultId(k),
      OrDefault(raw.title, "No title"),
      OrDefault(raw.snippet, ""),
      OrDefault(raw.link, ""),
      OrDefault(raw.title, "") + "\n" + OrDefault(raw.snippet, "") + "\nSource: " + OrDefault(raw.link, ""))
  }

  /** The provider's results cut to `numResults` and given ids and default fields. */
  function Normalise(raws: seq<RawResult>, numResults: int): (r: seq<SearchResult>)
    ensures numResults >= 0 ==> |r| == Min(numResults, |raws|)
    ensures numResults < 0 ==> |r| == Max(|raws| + numResults, 0)
    ensures forall k :: 0 <= k < |r| ==> r[k].id == "search-result-" + NatToString(k + 1)
    ensures forall k :: 0 <= k < |r| ==>
              && r[k].title == OrDefault(raws[k].title, "No title")
              && r[k].snippet == OrDefault(raws[k].snippet, "")
              && r[k].link == OrDefault(raws[k].link, "")
    ensures forall k :: 0 <= k < |r| ==>
              r[k].text == OrDefault(raws[k].title, "") + "\n" + OrDefault(raws[k].snippet, "") + "\nSource: " + OrDefault(raws[k].link, "")
  {
    seq(SliceCount(|raws|, numResults), k requires 0 <= k < SliceCount(|raws|, numResults) => NormaliseOne(raws[k], k))
  }

  /** No two normalised results share an id. */
  lemma NormalisedIdsDistinct(raws: seq<RawResult>, numResults: int, i: nat, j: nat)
    requires i < j < |Normalise(raws, numResults)|
    ensures Normalise(raws, numResults)[i].id != Normalise(raws, numResults)[j].id
  {
    var r := Normalise(raws, numResults);
    var p := "search-result-";
    if r[i].id == r[j].id {
      assert NatToString(i + 1) == r[i].id[|p|..];
      assert NatToString(j + 1) == r[j].id[|p|..];
      NatToStringInjective(i + 1, j + 1);
    }
  }

  /** A result whose title is missing is shown as "No title", but its `text` starts with an empty title line. */
  lemma MissingTitleDefaults(raws: seq<RawResult>, numResults: int, k: nat)
    requires k < |Normalise(raws, numResults)|
    requires raws[k].title.None? || raws[k].title.value == ""
    ensures Normalise(raws, numResults)[k].title == "No title"
    ensures Normalise(raws, numResults)[k].text[0] == '\n'
  {
  }

  /** `performWebSearch` as written: `{}` on any failure. */
  function PerformWebSearchAsWritten(reply: ProviderReply, numResults: int): (r: SearchValue)
    ensures r.EmptyObject? <==> !reply.Organic?
    ensures reply.Organic? && reply.results.Some? ==> r == ResultArray(Normalise(reply.results.value, numResults))
    ensures reply.Organic? && reply.results.None? ==> r == ResultArray([])
  {
    match reply
    case Organic(rs) => ResultArray(Normalise(if rs.Some? then rs.value else [], numResults))
    case _ => EmptyObject
  }

  /** `performWebSearch` as its callers use it: an empty list on any failure. */
  function PerformWebSearch(reply: ProviderReply, numResults: int): (r: seq<SearchResult>)
    ensures !reply.Organic? ==> r == []
    ensures reply.Organic? ==> ResultArray(r) == PerformWebSearchAsWritten(reply, numResults)
    ensures numResults >= 0 ==> |r| <= numResults
  {
    match reply
    case Organic(rs) => Normalise(if rs.Some? then rs.value else [], numResults)
    case _ => []
  }

  // ---------------------------------------------------------------------------
  // Context augmentation

  datatype ChatMessage = ChatMessage(role: string, content: string)

  /** The fixed instructions of the injected system message, up to the context block. */
  const SystemPreamble: string :=
    "You are StudyBolt, an AI study assistant. You have access to current web search results to provide accurate, up-to-date information.\n\n"
    + "When an swering:\n"
    + "- Use the search results provided to give comprehensive answers\n"
    + "- Cite sources when making specific claims\n"
    + "- If search results don't fully answer the question, acknowledge limitations\n"
    + "- Focus on being helpful for studying and learning\n"
    + "- Structure responses clearly with proper formatting\n\n"
    + "Current search results:\n"

  const EntrySeparator: string := "\n\n---\n\n"

  function Entry(r: SearchResult): string
  {
    "[" + r.title + "]\n" + r.snippet + "\nSource: " + r.link
  }

  function Entries(results: seq<SearchResult>): (r: seq<string>)
    ensures |r| == |results|
    ensures forall i :: 0 <= i < |r| ==> r[i] == Entry(results[i])
  {
    seq(|results|, i requires 0 <= i < |results| => Entry(results[i]))
  }

  /** The search context: every result's entry, in order, separated by a rule. It is empty only without results. */
  function ContextBlock(results: seq<SearchResult>): (r: string)
    ensures r == [] <==> results == []
    ensures results != [] ==> StartsWith(r, Entry(results[0]))
    ensures |results| == 1 ==> r == Entry(results[0])
  {
    var entries := Entries(results);
    if |entries| >= 2 then
      assert Join(entries, EntrySeparator) == entries[0] + EntrySeparator + Join(entries[1..], EntrySeparator);
      Join(entries, EntrySeparator)
    else Join(entries, EntrySeparator)
  }

  /** The context block grows by one separator and one entry per extra result, in input order. */
  lemma ContextBlockSnoc(results: seq<SearchResult>, r: SearchResult)
    ensures results == [] ==> ContextBlock(results + [r]) == Entry(r)
    ensures results != [] ==> ContextBlock(results + [r]) == ContextBlock(results) + EntrySeparator + Entry(r)
  {
    assert Entries(results + [r]) == Entries(results) + [Entry(r)];
    if results != [] {
      JoinSnoc(Entries(results), Entry(r), EntrySeparator);
    }
  }

  /** `createSearchAugmentedMessages`: one system message carrying the context, then the conversation unchanged. */
  function Augment(messages: seq<ChatMessage>, results: seq<SearchResult>): (r: seq<ChatMessage>)
    ensures |r| == 1 + |messages|
    ensures r[0].role == "system"
    ensures StartsWith(r[0].content, SystemPreamble)
    ensures r[0].content[|SystemPreamble|..] == ContextBlock(results)
    ensures r[1..] == messages
  {
    [ChatMessage("system", SystemPreamble + ContextBlock(results))] + messages
  }

  // ---------------------------------------------------------------------------
  // POST /api/chat

  /** The `messages` field of the request body. */
  datatype MessagesField = Absent | NotAnArray | Messages(items: seq<ChatMessage>)

  /** A JSON value as JavaScript sees it after parsing the body; `Undefined` is a missing field. */
  datatype JsValue = Undefined | Null | JsBool(b: bool) | JsNumber(n: int) | JsString(s: string) | JsObject

  /** JavaScript truthiness: only `undefined`, `null`, `false`, `0` and `""` are falsy. */
  predicate Truthy(v: JsValue)
  {
    match v
    case Undefined => false
    case Null => false
    case JsBool(b) => b
    case JsNumber(n) => n != 0
    case JsString(t) => t != []
    case JsObject => true
  }

  /** `enableSearch` is whatever the body carried; its default `false` applies only when it is missing, and is falsy too. */
  datatype ChatRequest = ChatRequest(messages: MessagesField, enableSearch: JsValue)

  /** What the completion stream delivered: each chunk's delta content, then whether it threw. */
  datatype Upstream = Upstream(deltas: seq<Option<string>>, fails: bool)

  datatype SseEvent = ContentEvent(content: string) | DoneEvent | ErrorEvent(error: string)

  /**
   The handler's observable behaviour: a 400 reply before any stream header, or
   an event stream, together with the query it searched for (if any) and the
   conversation it sent to the completion agent (None when it never called it).
   */
  datatype ChatReply =
    | BadRequest(status: int, error: string)
    | EventStream(searchQuery: Option<string>, sent: Option<seq<ChatMessage>>, events: seq<SseEvent>)

  const StreamFailure: string := "Failed to generate response"

  /** The request carries a non-empty array of messages. */
  predicate ValidChat(req: ChatRequest)
  {
    req.messages.Messages? && |req.messages.items| > 0
  }

  /** Search augmentation applies when `enableSearch` is truthy and the last message is the user's. */
  predicate ShouldAugment(req: ChatRequest)
    requires ValidChat(req)
  {
    var ms := req.messages.items;
    Truthy(req.enableSearch) && ms[|ms| - 1].role == "user"
  }

  /**
   `if (enableSearch)` tests truthiness, not `true`: the string "false" and the
   number 1 turn search on, while a missing field, `false`, `0` and "" leave it off.
   */
  lemma SearchFlagIsTruthiness(ms: seq<ChatMessage>, flag: JsValue)
    requires |ms| > 0 && ms[|ms| - 1].role == "user"
    ensures ShouldAugment(ChatRequest(Messages(ms), flag)) <==> Truthy(flag)
    ensures ShouldAugment(ChatRequest(Messages(ms), JsString("false")))
    ensures ShouldAugment(ChatRequest(Messages(ms), JsNumber(1)))
    ensures !ShouldAugment(ChatRequest(Messages(ms), Undefined))
    ensures !ShouldAugment(ChatRequest(Messages(ms), JsString("")))
  {
  }

  /** The texts of the deltas that carry content (`if (content)`), in arrival order. */
  function ContentTexts(deltas: seq<Option<string>>): seq<string>
  {
    if deltas == [] then []
    else if deltas[0].Some? && deltas[0].value != [] then [deltas[0].value] + ContentTexts(deltas[1..])
    else ContentTexts(deltas[1..])
  }

  /** One content event per delta with non-empty content, in arrival order. */
  function DeltaEvents(deltas: seq<Option<string>>): (r: seq<SseEvent>)
    ensures |r| <= |deltas|
    ensures |r| == |ContentTexts(deltas)|
    ensures forall i :: 0 <= i < |r| ==> r[i] == ContentEvent(ContentTexts(deltas)[i])
    ensures forall i :: 0 <= i < |r| ==> r[i].ContentEvent? && r[i].content != []
  {
    if deltas == [] then []
    else
      var head := if deltas[0].Some? && deltas[0].value != [] then [ContentEvent(deltas[0].value)] else [];
      head + DeltaEvents(deltas[1..])
  }

  /**
   The relay as the `for await` loop performs it: a chunk arriving after the
   ones already relayed adds one event at the end when it has content, and
   nothing otherwise. Nothing is written before the first chunk.
   */
  lemma {:induction false} DeltaEventsSnoc(ds: seq<Option<string>>, d: Option<string>)
    ensures DeltaEvents([]) == []
    ensures DeltaEvents(ds + [d]) == DeltaEvents(ds) + (if d.Some? && d.value != [] then [ContentEvent(d.value)] else [])
    decreases |ds|
  {
    var last := if d.Some? && d.value != [] then [ContentEvent(d.value)] else [];
    if ds == [] {
      assert ds + [d] == [d];
      assert [d][1..] == [];
    } else {
      var first := if ds[0].Some? && ds[0].value != [] then [ContentEvent(ds[0].value)] else [];
      calc {
        DeltaEvents(ds + [d]);
        { assert (ds + [d])[0] == ds[0]; }
        first + DeltaEvents((ds + [d])[1..]);
        { assert (ds + [d])[1..] == ds[1..] + [d]; }
        first + DeltaEvents(ds[1..] + [d]);
        { DeltaEventsSnoc(ds[1..], d); }
        first + (DeltaEvents(ds[1..]) + last);
        (first + DeltaEvents(ds[1..])) + last;
        DeltaEvents(ds) + last;
      }
    }
  }

  /** The deltas relayed, then exactly one terminal event: `[DONE]` or the error. */
  function Relay(up: Upstream): (r: seq<SseEvent>)
    ensures |r| >= 1 && r[..|r| - 1] == DeltaEvents(up.deltas)
    ensures r[|r| - 1] == (if up.fails then ErrorEvent(StreamFailure) else DoneEvent)
  {
    DeltaEvents(up.deltas) + [if up.fails then ErrorEvent(StreamFailure) else DoneEvent]
  }

  /** The text of the content events, concatenated. */
  function StreamedText(events: seq<SseEvent>): string
  {
    if events == [] then []
    else (if events[0].ContentEvent? then events[0].content else []) + StreamedText(events[1..])
  }

  /** The text the upstream produced, missing deltas counted as empty. */
  function UpstreamText(deltas: seq<Option<string>>): string
  {
    if deltas == [] then []
    else (if deltas[0].Some? then deltas[0].value else []) + UpstreamText(deltas[1..])
  }

  /** Dropping empty deltas loses nothing: the client sees exactly the upstream's text, in order. */
  lemma {:induction false} RelayPreservesText(deltas: seq<Option<string>>)
    ensures StreamedText(DeltaEvents(deltas)) == UpstreamText(deltas)
    decreases |deltas|
  {
    if deltas != [] {
      RelayPreservesText(deltas[1..]);
      var head := if deltas[0].Some? && deltas[0].value != [] then [ContentEvent(deltas[0].value)] else [];
      StreamedTextAppend(head, DeltaEvents(deltas[1..]));
      assert DeltaEvents(deltas) == head + DeltaEvents(deltas[1..]);
      assert UpstreamText(deltas) == (if deltas[0].Some? then deltas[0].value else []) + UpstreamText(deltas[1..]);
      assert StreamedText(head) == (if deltas[0].Some? then deltas[0].value else []) by {
        if head != [] {
          assert head[1..] == [];
          assert StreamedText(head) == head[0].content + StreamedText(head[1..]);
        }
      }
    }
  }

  lemma {:induction false} StreamedTextAppend(a: seq<SseEvent>, b: seq<SseEvent>)
    ensures StreamedText(a + b) == StreamedText(a) + StreamedText(b)
    decreases |a|
  {
    if a == [] {
      assert a + b == b;
    } else {
      assert (a + b)[1..] == a[1..] + b;
      StreamedTextAppend(a[1..], b);
    }
  }

  function CountDone(events: seq<SseEvent>): nat
  {
    if events == [] then 0 else (if events[0].DoneEvent? then 1 else 0) + CountDone(events[1..])
  }

  function CountErrors(events: seq<SseEvent>): nat
  {
    if events == [] then 0 else (if events[0].ErrorEvent? then 1 else 0) + CountErrors(events[1..])
  }

  /** A relayed stream ends in exactly one `[DONE]` on success, and in exactly one error and no `[DONE]` on failure. */
  lemma RelayTerminates(up: Upstream)
    ensures !up.fails ==> CountDone(Relay(up)) == 1 && CountErrors(Relay(up)) == 0
    ensures up.fails ==> CountDone(Relay(up)) == 0 && CountErrors(Relay(up)) == 1
  {
    var d := DeltaEvents(up.deltas);
    NoTerminals(d);
    CountsAppend(d, [Relay(up)[|Relay(up)| - 1]]);
  }

  lemma {:induction false} NoTerminals(events: seq<SseEvent>)
    requires forall i :: 0 <= i < |events| ==> events[i].ContentEvent?
    ensures CountDone(events) == 0 && CountErrors(events) == 0
    decreases |events|
  {
    if events != [] {
      NoTerminals(events[1..]);
    }
  }

  lemma {:induction false} CountsAppend(a: seq<SseEvent>, b: seq<SseEvent>)
    ensures CountDone(a + b) == CountDone(a) + CountDone(b)
    ensures CountErrors(a + b) == CountErrors(a) + CountErrors(b)
    decreases |a|
  {
    if a == [] {
      assert a + b == b;
    } else {
      assert (a + b)[1..] == a[1..] + b;
      CountsAppend(a[1..], b);
    }
  }

  /** The `/api/chat` handler, given what `performWebSearch` resolves to when it is called. */
  function HandleChatWith(req: ChatRequest, search: SearchValue, up: Upstream): (r: ChatReply)
    ensures r.BadRequest? <==> !ValidChat(req)
    ensures r.BadRequest? ==> r.status == 400
    ensures r.EventStream? && !ShouldAugment(req) ==>
              r.searchQuery.None? && r.sent == Some(req.messages.items) && r.events == Relay(up)
    ensures r.EventStream? && ShouldAugment(req) ==>
              r.searchQuery == Some(req.messages.items[|req.messages.items| - 1].content)
    ensures r.EventStream? && ShouldAugment(req) && search.ResultArray? ==>
              r.sent == Some(Augment(req.messages.items, search.items)) && r.events == Relay(up)
    ensures r.EventStream? && ShouldAugment(req) && search.EmptyObject? ==>
              r.sent.None? && r.events == [ErrorEvent(StreamFailure)]
  {
    match req.messages
    case Messages(ms) =>
      if |ms| == 0 then BadRequest(400, "Messages array is required")
      else if ShouldAugment(req) then
        var query := Some(ms[|ms| - 1].content);
        (match search
         case EmptyObject => EventStream(query, None, [ErrorEvent(StreamFailure)])
         case ResultArray(results) => EventStream(query, Some(Augment(ms, results)), Relay(up)))
      else EventStream(None, Some(ms), Relay(up))
    case _ => BadRequest(400, "Messages array is required")
  }

  /** The handler as written: a failed search makes `.map` throw inside the stream. */
  function HandleChatAsWritten(req: ChatRequest, reply: ProviderReply, up: Upstream): (r: ChatReply)
    ensures ValidChat(req) && ShouldAugment(req) && !reply.Organic? ==>
              r.EventStream? && r.sent.None? && r.events == [ErrorEvent(StreamFailure)]
    ensures reply.Organic? ==> r == HandleChat(req, reply, up)
  {
    HandleChatWith(req, PerformWebSearchAsWritten(reply, 5), up)
  }

  /** The handler with the search failure read as "no results". */
  function HandleChat(req: ChatRequest, reply: ProviderReply, up: Upstream): (r: ChatReply)
    ensures r.BadRequest? <==> !ValidChat(req)
    ensures ValidChat(req) ==> r.EventStream? && r.sent.Some? && r.events == Relay(up)
    ensures ValidChat(req) && ShouldAugment(req) ==>
              r.sent == Some(Augment(req.messages.items, PerformWebSearch(reply, 5)))
  {
    HandleChatWith(req, ResultArray(PerformWebSearch(reply, 5)), up)
  }

  /**
   Every valid chat request reaches the completion agent exactly once and
   ends its stream with `[DONE]` when the upstream does not fail, whatever
   the search provider did; augmentation adds exactly one leading system
   message.
   */
  lemma ChatCompletes(req: ChatRequest, reply: ProviderReply, up: Upstream)
    requires ValidChat(req) && !up.fails
    ensures HandleChat(req, reply, up).EventStream?
    ensures CountDone(HandleChat(req, reply, up).events) == 1
    ensures CountErrors(HandleChat(req, reply, up).events) == 0
    ensures |HandleChat(req, reply, up).sent.value| == |req.messages.items| + (if ShouldAugment(req) then 1 else 0)
  {
    RelayTerminates(up);
  }

  /** With search enabled, a failed search aborts the chat as written: one error event, no `[DONE]`, no completion call. */
  lemma ChatSearchFailureAborts()
    ensures
      var req := ChatRequest(Messages([ChatMessage("user", "mitosis")]), JsBool(true));
      var up := Upstream([Some("Cells divide.")], false);
      && HandleChatAsWritten(req, NetworkFailure, up) == EventStream(Some("mitosis"), None, [ErrorEvent(StreamFailure)])
      && CountDone(HandleChatAsWritten(req, NetworkFailure, up).events) == 0
      && HandleChat(req, NetworkFailure, up).events == [ContentEvent("Cells divide."), DoneEvent]
  {
    var req := ChatRequest(Messages([ChatMessage("user", "mitosis")]), JsBool(true));
    var up := Upstream([Some("Cells divide.")], false);
    assert DeltaEvents(up.deltas) == [ContentEvent("Cells divide.")] by {
      assert up.deltas[1..] == [];
    }
  }

  // ---------------------------------------------------------------------------
  // Wire framing

  /** The bytes written for one event; JSON string escaping is not modelled. */
  function Frame(e: SseEvent): (r: string)
    ensures StartsWith(r, "data: ")
    ensures |r| >= 8 && r[|r| - 2..] == "\n\n"
    ensures e.DoneEvent? ==> r[6..|r| - 2] == "[DONE]"
    ensures e.ContentEvent? ==>
              && StartsWith(r, "data: {\"content\":\"") && |r| == 22 + |e.content|
              && r[18..|r| - 4] == e.content && r[|r| - 4..|r| - 2] == "\"}"
    ensures e.ErrorEvent? ==>
              && StartsWith(r, "data: {\"error\":\"") && |r| == 20 + |e.error|
              && r[16..|r| - 4] == e.error && r[|r| - 4..|r| - 2] == "\"}"
  {
    var payload :=
      match e
      case ContentEvent(c) => "{\"content\":\"" + c + "\"}"
      case DoneEvent => "[DONE]"
      case ErrorEvent(m) => "{\"error\":\"" + m + "\"}";
    "data: " + payload + "\n\n"
  }

  /** No content or error frame can be mistaken for the `[DONE]` sentinel. */
  lemma DoneFrameUnambiguous(e: SseEvent)
    requires !e.DoneEvent?
    ensures Frame(e) != Frame(DoneEvent)
  {
    assert Frame(e)[6] == '{';
    assert Frame(DoneEvent)[6] == '[';
  }

  /** Distinct events are written as distinct frames, so a client can tell which event each frame carries. */
  lemma FrameInjective(e1: SseEvent, e2: SseEvent)
    ensures Frame(e1) == Frame(e2) ==> e1 == e2
  {
    if Frame(e1) == Frame(e2) {
      var r := Frame(e1);
      if e1.DoneEvent? || e2.DoneEvent? {
        assert r[6] == (if e1.DoneEvent? then '[' else '{');
        assert r[6] == (if e2.DoneEvent? then '[' else '{');
      } else {
        assert r[8] == (if e1.ContentEvent? then 'c' else 'e');
        assert r[8] == (if e2.ContentEvent? then 'c' else 'e');
      }
    }
  }

  // ---------------------------------------------------------------------------
  // POST /api/search

  /** The `query` field of the request body. */
  datatype QueryField = NoQuery | NotAString | QueryText(text: string)

  datatype SearchRequest = SearchRequest(query: QueryField, numResults: Option<int>)

  datatype Source = Source(title: string, snippet: string, link: string, id: string)

  /** The cached payload. */
  datatype Summary = Summary(query: string, summary: string, sources: seq<Source>, timestamp: string)

  /** A cache entry and the instant (in seconds) at which the store drops it. */
  datatype CacheEntry = CacheEntry(value: Summary, expiresAt: int)

  type Cache = map<string, CacheEntry>

  /** What the one-shot completion call returned: the first choice's content, or a thrown error. */
  datatype Completion = Completed(content: Option<string>) | CompletionFailed(message: string)

  /** What writing to the cache store did. */
  datatype StoreOutcome = Stored | StoreFailed(message: string)

  /** The collaborators of one `/api/search` call. */
  datatype SearchWorld = SearchWorld(
    now: int,                 // seconds, for the cache lifetime
    stamp: string,            // `new Date().toISOString()`
    provider: ProviderReply,
    completion: Completion,
    store: StoreOutcome)

  datatype Origin = FromCache | Fresh

  datatype SearchResponse =
    | SearchBadRequest(status: int, error: string)
    | SearchOk(origin: Origin, body: Summary)
    | SearchError(status: int, error: string, message: string)

  /** The response, the cache afterwards, whether the provider was called, and what was sent for summarising. */
  datatype SearchTrace = SearchTrace(response: SearchResponse, cache: Cache, searched: bool, prompt: Option<seq<ChatMessage>>)

  const CacheTtl: int := 3600
  const DefaultNumResults: int := 5
  const SummarizerInstruction: string :=
    "You are a research assistant. Provide a concise summary of the search results below, highlighting key points and insights."
  /** The message of the TypeError that `.map` on `{}` throws. */
  const MapOnObjectError: string := "searchResults.map is not a function"

  function NumResults(req: SearchRequest): int
  {
    if req.numResults.Some? then req.numResults.value else DefaultNumResults
  }

  /**
   The string the server hashes into the cache key: the trimmed query sits
   between the `search:` prefix and the last colon, and the text after the last
   colon reads back as the result count.
   */
  function CacheKey(query: string, numResults: int): (r: string)
    ensures StartsWith(r, "search:")
    ensures exists k :: 7 <= k < |r| && r[k] == ':' && ':' !in r[k + 1..]
                        && r[7..k] == Trim(query) && ParseInt(r[k + 1..]) == Some(numResults)
  {
    var n := IntToString(numResults);
    NoColonInNumber(numResults);
    IntRoundTrip(numResults);
    KeyFields("search:" + Trim(query) + ":" + n, Trim(query), n, numResults);
    "search:" + Trim(query) + ":" + n
  }

  lemma KeyFields(r: string, q: string, n: string, count: int)
    requires r == "search:" + q + ":" + n
    requires ':' !in n && ParseInt(n) == Some(count)
    ensures StartsWith(r, "search:")
    ensures exists k :: 7 <= k < |r| && r[k] == ':' && ':' !in r[k + 1..] && r[7..k] == q && ParseInt(r[k + 1..]) == Some(count)
  {
    var k := 7 + |q|;
    assert r[k + 1..] == n && r[7..k] == q && r[k] == ':';
  }

  /** The value stored under `key`, unless it is missing or has expired. */
  function Lookup(cache: Cache, key: string, now: int): Option<Summary>
  {
    if key in cache && now < cache[key].expiresAt then Some(cache[key].value) else None
  }

  function Sources(results: seq<SearchResult>): (r: seq<Source>)
    ensures |r| == |results|
    ensures forall i :: 0 <= i < |r| ==>
              r[i] == Source(results[i].title, results[i].snippet, results[i].link, results[i].id)
  {
    seq(|results|, i requires 0 <= i < |results| => Source(results[i].title, results[i].snippet, results[i].link, results[i].id))
  }

  function Texts(results: seq<SearchResult>): (r: seq<string>)
    ensures |r| == |results| && forall i :: 0 <= i < |r| ==> r[i] == results[i].text
  {
    seq(|results|, i requires 0 <= i < |results| => results[i].text)
  }

  /** The opening of the user message, quoting the query as it was sent (untrimmed). */
  function SummaryLead(query: string): string
  {
    "Please summarize these search results for the query \"" + query + "\":\n\n"
  }

  /**
   The two messages sent to the agent to summarise the results: the fixed
   instruction, then the query and every result's `text`, in order, separated
   by blank lines.
   */
  function SummaryPrompt(query: string, results: seq<SearchResult>): (r: seq<ChatMessage>)
    ensures |r| == 2
    ensures r[0] == ChatMessage("system", SummarizerInstruction)
    ensures r[1].role == "user" && StartsWith(r[1].content, SummaryLead(query))
    ensures r[1].content[|SummaryLead(query)|..] == Join(Texts(results), "\n\n")
    ensures results == [] ==> r[1].content == SummaryLead(query)
  {
    var lead := SummaryLead(query);
    var body := Join(Texts(results), "\n\n");
    assert (lead + body)[..|lead|] == lead && (lead + body)[|lead|..] == body;
    [ ChatMessage("system", SummarizerInstruction), ChatMessage("user", lead + body) ]
  }

  predicate ValidQuery(req: SearchRequest)
  {
    req.query.QueryText? && req.query.text != []
  }

  /** A cache miss: search, summarise, store, in that order; any throw is a 500 and leaves the cache alone. */
  function FreshSearch(q: string, key: string, cache: Cache, w: SearchWorld, search: SearchValue): (t: SearchTrace)
    ensures t.searched
    ensures t.response.SearchOk? <==> search.ResultArray? && w.completion.Completed? && w.store.Stored?
    ensures t.response.SearchOk? ==>
              && t.response.origin == Fresh
              && t.cache == cache[key := CacheEntry(t.response.body, w.now + CacheTtl)]
              && t.response.body.query == q
              && t.response.body.sources == Sources(search.items)
              && t.response.body.timestamp == w.stamp
    ensures !t.response.SearchOk? ==> t.response.SearchError? && t.response.status == 500 && t.cache == cache
    ensures search.EmptyObject? ==> t.response == SearchError(500, "Search failed", MapOnObjectError) && t.prompt.None?
    ensures search.ResultArray? ==> t.prompt == Some(SummaryPrompt(q, search.items))
    ensures t.response.SearchOk? ==>
              t.response.body.summary == (if w.completion.content.Some? then w.completion.content.value else "")
  {
    match search
    case EmptyObject => SearchTrace(SearchError(500, "Search failed", MapOnObjectError), cache, true, None)
    case ResultArray(results) =>
      var prompt := SummaryPrompt(q, results);
      match w.completion
      case CompletionFailed(m) => SearchTrace(SearchError(500, "Search failed", m), cache, true, Some(prompt))
      case Completed(content) =>
        var body := Summary(q, OrDefault(content, ""), Sources(results), w.stamp);
        match w.store
        case StoreFailed(m) => SearchTrace(SearchError(500, "Search failed", m), cache, true, Some(prompt))
        case Stored => SearchTrace(SearchOk(Fresh, body), cache[key := CacheEntry(body, w.now + CacheTtl)], true, Some(prompt))
  }

  /** A non-empty query under `key`: answered from the cache while its entry is live, searched afresh otherwise. */
  function Answer(q: string, key: string, cache: Cache, w: SearchWorld, search: SearchValue): (t: SearchTrace)
    ensures !t.response.SearchBadRequest?
    ensures Lookup(cache, key, w.now).Some? ==>
              && t.response == SearchOk(FromCache, Lookup(cache, key, w.now).value)
              && t.cache == cache && !t.searched && t.prompt.None?
    ensures Lookup(cache, key, w.now).None? ==> t == FreshSearch(q, key, cache, w, search)
  {
    match Lookup(cache, key, w.now)
    case Some(v) => SearchTrace(SearchOk(FromCache, v), cache, false, None)
    case None => FreshSearch(q, key, cache, w, search)
  }

  /** The `/api/search` handler, given what `performWebSearch` resolves to when it is called. */
  function HandleSearchWith(req: SearchRequest, cache: Cache, w: SearchWorld, search: SearchValue): (t: SearchTrace)
    ensures t.response.SearchBadRequest? <==> !ValidQuery(req)
    ensures t.response.SearchBadRequest? ==> t.response.status == 400 && t.cache == cache && !t.searched
    ensures ValidQuery(req) ==> t == Answer(req.query.text, CacheKey(req.query.text, NumResults(req)), cache, w, search)
  {
    if ValidQuery(req) then Answer(req.query.text, CacheKey(req.query.text, NumResults(req)), cache, w, search)
    else SearchTrace(SearchBadRequest(400, "Query is required"), cache, false, None)
  }

  /** The handler as written: on a cache miss a failed search makes `.map` throw, giving a 500. */
  function HandleSearchAsWritten(req: SearchRequest, cache: Cache, w: SearchWorld): (t: SearchTrace)
    ensures ValidQuery(req) && Lookup(cache, CacheKey(req.query.text, NumResults(req)), w.now).None? && !w.provider.Organic? ==>
              t.response == SearchError(500, "Search failed", MapOnObjectError) && t.prompt.None?
    ensures w.provider.Organic? ==> t == HandleSearch(req, cache, w)
  {
    HandleSearchWith(req, cache, w, PerformWebSearchAsWritten(w.provider, NumResults(req)))
  }

  /** The handler with the search failure read as "no results". */
  function HandleSearch(req: SearchRequest, cache: Cache, w: SearchWorld): (t: SearchTrace)
    ensures t.response.SearchOk? && t.response.origin == Fresh && NumResults(req) >= 0 ==>
              |t.response.body.sources| <= NumResults(req)
    ensures t.response.SearchOk? && t.response.origin == Fresh ==>
              t.response.body.sources == Sources(PerformWebSearch(w.provider, NumResults(req)))
  {
    HandleSearchWith(req, cache, w, ResultArray(PerformWebSearch(w.provider, NumResults(req))))
  }

  /** On a miss with every collaborator succeeding, the reply is fresh and stored for one TTL. */
  lemma SearchMissStores(req: SearchRequest, cache: Cache, w: SearchWorld)
    requires ValidQuery(req)
    requires Lookup(cache, CacheKey(req.query.text, NumResults(req)), w.now).None?
    requires w.completion.Completed? && w.store.Stored?
    ensures HandleSearch(req, cache, w).response.SearchOk?
    ensures HandleSearch(req, cache, w).response.origin == Fresh
    ensures |HandleSearch(req, cache, w).response.body.sources| == |PerformWebSearch(w.provider, NumResults(req))|
    ensures Lookup(HandleSearch(req, cache, w).cache, CacheKey(req.query.text, NumResults(req)), w.now)
            == Some(HandleSearch(req, cache, w).response.body)
  {
    var key := CacheKey(req.query.text, NumResults(req));
    var s := ResultArray(PerformWebSearch(w.provider, NumResults(req)));
    assert HandleSearch(req, cache, w) == FreshSearch(req.query.text, key, cache, w, s);
    FreshStores(req.query.text, key, cache, w, s);
  }

  /** Under a fixed key: a fresh search whose collaborators all succeed is stored and found again at once. */
  lemma FreshStores(q: string, key: string, cache: Cache, w: SearchWorld, s: SearchValue)
    requires s.ResultArray? && w.completion.Completed? && w.store.Stored?
    ensures var t := FreshSearch(q, key, cache, w, s);
      && t.response.SearchOk? && t.response.origin == Fresh
      && |t.response.body.sources| == |s.items|
      && Lookup(t.cache, key, w.now) == Some(t.response.body)
  {
  }

  /**
   Cache idempotence: a repeat of a request answered fresh at `w1.now`, made
   before the entry expires, is answered from the cache with the same body and
   no search; made after it expires, it searches again.
   */
  lemma SearchRepeatWithinTtl(req: SearchRequest, cache: Cache, w1: SearchWorld, w2: SearchWorld)
    requires HandleSearch(req, cache, w1).response.SearchOk?
    requires HandleSearch(req, cache, w1).response.origin == Fresh
    ensures w1.now <= w2.now < w1.now + CacheTtl ==>
              var second := HandleSearch(req, HandleSearch(req, cache, w1).cache, w2);
              second.response == SearchOk(FromCache, HandleSearch(req, cache, w1).response.body) && !second.searched
    ensures w2.now >= w1.now + CacheTtl ==>
              HandleSearch(req, HandleSearch(req, cache, w1).cache, w2).searched
  {
    var key := CacheKey(req.query.text, NumResults(req));
    var s1 := ResultArray(PerformWebSearch(w1.provider, NumResults(req)));
    var s2 := ResultArray(PerformWebSearch(w2.provider, NumResults(req)));
    var first := HandleSearch(req, cache, w1);
    assert ValidQuery(req);
    assert first == Answer(req.query.text, key, cache, w1, s1);
    AnswerRepeat(req.query.text, key, cache, w1, s1, w2, s2);
    assert HandleSearch(req, first.cache, w2) == Answer(req.query.text, key, first.cache, w2, s2);
  }

  /** The same under a fixed key: a fresh answer is stored until `w1.now + CacheTtl`, and only then looked up again. */
  lemma AnswerRepeat(q: string, key: string, cache: Cache, w1: SearchWorld, s1: SearchValue, w2: SearchWorld, s2: SearchValue)
    requires Answer(q, key, cache, w1, s1).response.SearchOk?
    requires Answer(q, key, cache, w1, s1).response.origin == Fresh
    ensures var first := Answer(q, key, cache, w1, s1);
      var second := Answer(q, key, first.cache, w2, s2);
      && (w1.now <= w2.now < w1.now + CacheTtl ==> second.response == SearchOk(FromCache, first.response.body) && !second.searched)
      && (w2.now >= w1.now + CacheTtl ==> second.searched)
  {
    var first := Answer(q, key, cache, w1, s1);
    assert Lookup(cache, key, w1.now).None?;
    assert first.cache == cache[key := CacheEntry(first.response.body, w1.now + CacheTtl)];
  }

  /** Distinct (trimmed query, result count) pairs never share a cache entry: the count follows the last colon. */
  lemma CacheKeyInjective(q1: string, n1: int, q2: string, n2: int)
    requires CacheKey(q1, n1) == CacheKey(q2, n2)
    ensures Trim(q1) == Trim(q2) && n1 == n2
  {
    NoColonInNumber(n1);
    NoColonInNumber(n2);
    LastColonSplits("search:" + Trim(q1), IntToString(n1), "search:" + Trim(q2), IntToString(n2));
    assert Trim(q1) == ("search:" + Trim(q1))[7..];
    assert Trim(q2) == ("search:" + Trim(q2))[7..];
    IntRoundTrip(n1);
    IntRoundTrip(n2);
  }

  /** Text ending in a colon-free suffix after a colon determines both halves. */
  lemma LastColonSplits(p1: string, s1: string, p2: string, s2: string)
    requires p1 + ":" + s1 == p2 + ":" + s2
    requires ':' !in s1 && ':' !in s2
    ensures p1 == p2 && s1 == s2
  {
    var k := p1 + ":" + s1;
    assert k[|k| - |s1| - 1] == ':';
    assert k[|k| - |s2| - 1] == ':' by {
      assert k == p2 + ":" + s2;
    }
    forall j | |k| - |s2| <= j < |k| ensures k[j] != ':' {
      assert k[j] == s2[j - (|k| - |s2|)];
    }
    forall j | |k| - |s1| <= j < |k| ensures k[j] != ':' {
      assert k[j] == s1[j - (|k| - |s1|)];
    }
    assert |s1| == |s2|;
    assert s1 == k[|k| - |s1|..];
    assert s2 == (p2 + ":" + s2)[|k| - |s2|..];
    assert p1 == k[..|p1|];
    assert p2 == (p2 + ":" + s2)[..|p2|];
  }

  lemma NoColonInNumber(i: int)
    ensures ':' !in IntToString(i)
  {
    var s := IntToString(i);
    forall j | 0 <= j < |s| ensures s[j] != ':' {
      if i < 0 && j > 0 {
        assert s[j] == NatToString(-i)[j - 1];
      }
    }
  }

  /** Queries that differ only in surrounding whitespace share one cache entry. */
  lemma PaddedQueriesShareKey(q: string, w1: string, w2: string, n: int)
    requires AllSpace(w1) && AllSpace(w2)
    requires q != [] ==> !IsSpace(q[0]) && !IsSpace(q[|q| - 1])
    ensures CacheKey(w1 + q + w2, n) == CacheKey(q, n)
  {
    TrimSurrounded(w1, q, w2);
  }

  /**
   As written, a search failure on a cache miss is a 500 whatever the other
   collaborators do; read as "no results", the same request is a fresh summary
   with no sources.
   */
  lemma SearchFailureIsServerError(req: SearchRequest, cache: Cache, w: SearchWorld)
    requires ValidQuery(req) && !w.provider.Organic?
    requires Lookup(cache, CacheKey(req.query.text, NumResults(req)), w.now).None?
    requires w.completion.Completed? && w.store.Stored?
    ensures HandleSearchAsWritten(req, cache, w).response == SearchError(500, "Search failed", MapOnObjectError)
    ensures HandleSearch(req, cache, w).response.SearchOk?
    ensures HandleSearch(req, cache, w).response.body.sources == []
  {
    var key := CacheKey(req.query.text, NumResults(req));
    assert HandleSearchAsWritten(req, cache, w) == FreshSearch(req.query.text, key, cache, w, EmptyObject);
    assert HandleSearch(req, cache, w) == FreshSearch(req.query.text, key, cache, w, ResultArray([]));
  }
}
