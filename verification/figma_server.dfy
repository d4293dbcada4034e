/** The Figma bridge server: the `CallToolRequestSchema` handler of
    `mcp/figma-server.ts`. Its three tools are stubs that read the token
    document (or nothing) and answer with text; none of them writes, so the
    store a handler leaves behind is the one it was given. */
module FigmaServer {
  import opened Wrappers
  import opened Exceptions
  import opened Json
  import opened Storage
  import opened Protocol

  /** The tools this server answers. */
  const Tools: seq<string> := ["get_figma_tokens", "sync_tokens_from_figma", "sync_tokens_to_figma"]

  /** The fixed answer of `sync_tokens_from_figma`. */
  const SyncFromFigmaText: string := "Token sync from Figma would be implemented here. Requires Figma API access."

  /** The line `sync_tokens_to_figma` puts in front of the serialised document. */
  const SyncToFigmaHeader: string := "Tokens ready to sync to Figma:\n"

  /** A handled call: the response, and the store as the handler leaves it. */
  datatype Outcome = Outcome(response: Response, store: Store)

  /** One `case` of the switch: what it answers or throws, and the store it
      leaves. No case calls `saveTokens`. */
  function Handle(store: Store, name: string, stringify: JValue -> string): (h: (Result<Response, Exception>, Store))
    ensures h.1 == store
    ensures h.0.Failure? <==> name !in Tools || (name != "sync_tokens_from_figma" && store.tokens.Failure?)
    ensures h.0.Success? ==> |h.0.value.content| == 1 && !h.0.value.isError
  {
    if name == "get_figma_tokens" then
      (var tokens :- LoadTokens(store); Success(Reply(stringify(tokens))), store)
    else if name == "sync_tokens_from_figma" then
      (Success(Reply(SyncFromFigmaText)), store)
    else if name == "sync_tokens_to_figma" then
      (var tokens :- LoadTokens(store); Success(Reply(SyncToFigmaHeader + stringify(tokens))), store)
    else
      (Failure(Error("Unknown tool: " + name)), store)
  }

  /** The `CallToolRequestSchema` handler: the switch inside its `try`/`catch`.
      The arguments (`fileKey`) are never read. Every call answers with one
      text item, never changes the stored token document, and an error-flagged
      answer always reads `Error: <message>`. */
  function CallTool(store: Store, request: Request, stringify: JValue -> string): (o: Outcome)
    ensures o.store == store
    ensures |o.response.content| == 1
    ensures o.response.isError ==> |TextOf(o.response)| >= 7 && TextOf(o.response)[..7] == "Error: "
    ensures o.response.isError <==> request.name !in Tools || (request.name != "sync_tokens_from_figma" && store.tokens.Failure?)
  {
    var (handled, after) := Handle(store, request.name, stringify);
    Outcome(Catch(handled), after)
  }

  /** `get_figma_tokens` answers with the serialised token document, whatever
      the arguments, or with the read error. */
  lemma GetFigmaTokensReply(store: Store, args: Option<map<string, string>>, stringify: JValue -> string)
    ensures var r := CallTool(store, Request("get_figma_tokens", args), stringify).response;
      && (store.tokens.Success? ==> r == Reply(stringify(store.tokens.value)))
      && (store.tokens.Failure? ==> r == ErrorReply("Error: " + store.tokens.error))
  {
  }

  /** `sync_tokens_from_figma` answers with its fixed text, even when the token
      document cannot be read. */
  lemma SyncFromFigmaReply(store: Store, args: Option<map<string, string>>, stringify: JValue -> string)
    ensures CallTool(store, Request("sync_tokens_from_figma", args), stringify).response == Reply(SyncFromFigmaText)
  {
  }

  /** `sync_tokens_to_figma` answers with the header line followed by the
      serialised token document, or with the read error. */
  lemma SyncToFigmaReply(store: Store, args: Option<map<string, string>>, stringify: JValue -> string)
    ensures var r := CallTool(store, Request("sync_tokens_to_figma", args), stringify).response;
      && (store.tokens.Success? ==> r == Reply(SyncToFigmaHeader + stringify(store.tokens.value)))
      && (store.tokens.Failure? ==> r == ErrorReply("Error: " + store.tokens.error))
  {
  }

  /** A name outside the three tools is answered with `Error: Unknown tool: <name>`. */
  lemma UnknownToolReply(store: Store, request: Request, stringify: JValue -> string)
    requires request.name !in Tools
    ensures CallTool(store, request, stringify).response == ErrorReply("Error: Unknown tool: " + request.name)
  {
    assert "Error: " + ("Unknown tool: " + request.name) == "Error: Unknown tool: " + request.name;
  }

  /** Serving a sequence of calls, each against the store the previous call
      left behind. */
  function Serve(store: Store, requests: seq<Request>, stringify: JValue -> string): (seq<Response>, Store)
    decreases |requests|
  {
    if |requests| == 0 then ([], store)
    else
      var first := CallTool(store, requests[0], stringify);
      var (rest, last) := Serve(first.store, requests[1..], stringify);
      ([first.response] + rest, last)
  }

  /** The sync tools never sync: after any sequence of calls the token
      document is the one the session started with, so each call is answered
      exactly as it would be on its own. */
  lemma {:induction false} ServeNeverWrites(store: Store, requests: seq<Request>, stringify: JValue -> string)
    ensures Serve(store, requests, stringify).1 == store
    ensures |Serve(store, requests, stringify).0| == |requests|
    ensures forall i :: 0 <= i < |requests| ==>
      Serve(store, requests, stringify).0[i] == CallTool(store, requests[i], stringify).response
    decreases |requests|
  {
    if |requests| > 0 {
      ServeNeverWrites(store, requests[1..], stringify);
      var responses := Serve(store, requests, stringify).0;
      forall i | 1 <= i < |requests|
        ensures responses[i] == CallTool(store, requests[i], stringify).response
      {
        assert requests[i] == requests[1..][i - 1];
      }
    }
  }

  /** Writing a document would be observable: the next `get_figma_tokens`
      would serve it. That no call ever does so is what `ServeNeverWrites`
      states. */
  lemma SaveTokensWouldBeObservable(store: Store, doc: JValue, stringify: JValue -> string)
    ensures CallTool(SaveTokens(store, doc), Request("get_figma_tokens", None), stringify).response
         == Reply(stringify(doc))
  {
  }
}
