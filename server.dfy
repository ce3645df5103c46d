/** The `/chat` handler: validate the request, retrieve context for the
    query, generate an answer and record the exchange in the session log. */
module Server {
  import opened Wrappers
  import opened JsStrings
  import opened Embedder
  import Ingest
  import Gemini

  /** The two fields the handler reads from the request body. */
  datatype ChatRequest = ChatRequest(sessionId: Option<string>, query: Option<string>)

  datatype Role = User | Bot
  /** One entry of a session's history (its timestamp is not modelled). */
  datatype StoredMessage = StoredMessage(sessionId: string, role: Role, content: string)

  datatype ResponseBody = Answer(response: string) | ErrorBody(error: string)
  datatype HttpResponse = HttpResponse(status: nat, body: ResponseBody)

  /** What the vector search resolves to: the payloads of the hits, in the
      order the index returns them, or a thrown error. */
  datatype SearchOutcome = Hits(payloads: seq<Ingest.Payload>) | SearchFailed(message: string)

  /** The session store's answer to one append: done, or a thrown error. */
  datatype StoreReply = Stored | StoreFailed(message: string)

  /** The remote calls the handler makes, as it makes them. */
  datatype RemoteCall =
    | Embed(texts: seq<string>, task: string)
    | Search(vector: Option<Vector>, k: nat)
    | Generate(context: string, query: string)
    | Save(sessionId: string, role: Role, content: string)

  /** The number of nearest chunks the handler asks for. */
  const SearchLimit: nat := 5
  const MissingFieldsMessage: string := "Missing sessionId or query"
  const InternalErrorMessage: string := "Internal server error"

  /** `!sessionId || !query` fails exactly on an absent or empty field. */
  predicate ValidRequest(req: ChatRequest) {
    req.sessionId.Some? && req.sessionId.value != "" && req.query.Some? && req.query.value != ""
  }

  /** `const [queryEmbedding] = ...`: the first vector, `undefined` when the
      embedder returned none. */
  function FirstVector(vectors: seq<Vector>): Option<Vector> {
    if |vectors| == 0 then None else Some(vectors[0])
  }

  /** `c.chunk` as `join` renders it: a payload without the field gives "". */
  function ContextLine(p: Ingest.Payload): string {
    p.chunk.GetOr("")
  }

  function ContextLines(payloads: seq<Ingest.Payload>): (lines: seq<string>)
    ensures |lines| == |payloads|
  {
    seq(|payloads|, i requires 0 <= i < |payloads| => ContextLine(payloads[i]))
  }

  /** The context handed to generation: the chunks, one per line. */
  function AssembleContext(payloads: seq<Ingest.Payload>): string {
    Join(ContextLines(payloads), "\n")
  }

  /** No hits give an empty context. */
  lemma EmptyRetrievalGivesEmptyContext()
    ensures AssembleContext([]) == ""
  {
  }

  /** Splitting the context at line breaks gives back the chunks of the hits,
      in the order the index returned them, when no chunk holds a line break. */
  lemma ContextRoundTrip(payloads: seq<Ingest.Payload>)
    requires |payloads| >= 1
    requires forall i :: 0 <= i < |payloads| ==> '\n' !in ContextLine(payloads[i])
    ensures Split(AssembleContext(payloads), '\n') == ContextLines(payloads)
    ensures forall i :: 0 <= i < |payloads| ==>
      Split(AssembleContext(payloads), '\n')[i] == (if payloads[i].chunk.Some? then payloads[i].chunk.value else "")
  {
    var lines := ContextLines(payloads);
    assert "\n" == ['\n'];
    SplitJoin(lines, '\n');
  }

  /** The session store as the handler sees it: an append-only log. */
  class SessionStore {
    var messages: seq<StoredMessage>

    constructor ()
      ensures messages == []
    {
      messages := [];
    }

    /** `saveMessage`: append one message to the log, unless the store
        throws, in which case the log is unchanged. */
    method SaveMessage(sessionId: string, role: Role, content: string, reply: StoreReply)
      returns (saved: bool)
      modifies this
      ensures saved <==> reply.Stored?
      ensures messages == old(messages) + (if saved then [StoredMessage(sessionId, role, content)] else [])
    {
      saved := reply.Stored?;
      if saved {
        messages := messages + [StoredMessage(sessionId, role, content)];
      }
    }
  }

  /** The `/chat` handler. An invalid request is answered 400 before any
      remote call. Otherwise the query is embedded as a one-text batch, the 5
      nearest chunks are searched, their texts become the context and the
      answer is generated from (context, query). The user's query and then
      the answer are appended to the log, and the handler answers 200. A
      failing search, generation or append gives 500 and stops there: what
      was appended before the failure stays. `save` is the store's reply to
      the append of each turn. */
  method HandleChat(store: SessionStore, req: ChatRequest,
                    embed: (seq<string>, string) -> seq<Vector>,
                    search: (Option<Vector>, nat) -> SearchOutcome,
                    generate: Gemini.GenerateRequest -> Gemini.ProviderReply,
                    save: Role -> StoreReply)
    returns (resp: HttpResponse, calls: seq<RemoteCall>)
    modifies store
    ensures !ValidRequest(req) ==>
      && resp == HttpResponse(400, ErrorBody(MissingFieldsMessage))
      && calls == []
      && store.messages == old(store.messages)
    ensures ValidRequest(req) ==>
      var sid, q := req.sessionId.value, req.query.value;
      var task := TaskName(RetrievalQuery);
      var vector := FirstVector(embed([q], task));
      var embedAndSearch := [Embed([q], task), Search(vector, SearchLimit)];
      var failed := HttpResponse(500, ErrorBody(InternalErrorMessage));
      match search(vector, SearchLimit)
      case SearchFailed(_) =>
        && resp == failed
        && calls == embedAndSearch
        && store.messages == old(store.messages)
      case Hits(payloads) =>
        var context := AssembleContext(payloads);
        var generated := embedAndSearch + [Generate(context, q)];
        match Gemini.GetGeminiResponse(context, q, generate)
        case Failure(_) =>
          && resp == failed
          && calls == generated
          && store.messages == old(store.messages)
        case Success(answer) =>
          var userTurn, botTurn := StoredMessage(sid, User, q), StoredMessage(sid, Bot, answer);
          match save(User)
          case StoreFailed(_) =>
            && resp == failed
            && calls == generated + [Save(sid, User, q)]
            && store.messages == old(store.messages)
          case Stored =>
            && calls == generated + [Save(sid, User, q), Save(sid, Bot, answer)]
            && match save(Bot)
               case StoreFailed(_) =>
                 && resp == failed
                 && store.messages == old(store.messages) + [userTurn]
               case Stored =>
                 && resp == HttpResponse(200, Answer(answer))
                 && store.messages == old(store.messages) + [userTurn, botTurn]
  {
    if !ValidRequest(req) {
      return HttpResponse(400, ErrorBody(MissingFieldsMessage)), [];
    }
    var sessionId, query := req.sessionId.value, req.query.value;
    var failed := HttpResponse(500, ErrorBody(InternalErrorMessage));

    var task := TaskName(RetrievalQuery);
    var queryEmbedding := FirstVector(embed([query], task));
    calls := [Embed([query], task)];

    var topChunks := search(queryEmbedding, SearchLimit);
    calls := calls + [Search(queryEmbedding, SearchLimit)];
    if topChunks.SearchFailed? {
      return failed, calls;
    }
    var context := AssembleContext(topChunks.payloads);

    var botResponse := Gemini.GetGeminiResponse(context, query, generate);
    calls := calls + [Generate(context, query)];
    if botResponse.Failure? {
      return failed, calls;
    }

    var saved := store.SaveMessage(sessionId, User, query, save(User));
    calls := calls + [Save(sessionId, User, query)];
    if !saved {
      return failed, calls;
    }
    saved := store.SaveMessage(sessionId, Bot, botResponse.value, save(Bot));
    calls := calls + [Save(sessionId, Bot, botResponse.value)];
    if !saved {
      return failed, calls;
    }
    resp := HttpResponse(200, Answer(botResponse.value));
  }
}
