/** The poll route (GET /api/poll-video): it checks its two inputs, asks the
    upstream service for the operation's status, and maps the answer onto a
    small reply record. The request's `operationName` parameter and the
    server's `GENAI_API_KEY` are inputs; so is what the upstream answered. */
module PollRoute {
  import opened Js

  const UpstreamBase := "https://generativelanguage.googleapis.com/v1/"
  const MissingParamsMessage := "operationName veya GENAI_API_KEY eksik"
  const PollFailedMessage := "Poll işlemi başarısız"
  const ServerErrorMessage := "Sunucu hatası"

  /** What the route reads of an operation in JSON: `done`,
      `response.video.uri` and `metadata` (kept as its JSON text). */
  datatype Operation = Operation(done: bool, videoUri: Option<string>, metadata: Option<string>)

  /** The upstream body after `res.json()`: the message of the error parsing
      threw, or the fields read as an operation together with the parsed
      body's JSON text. */
  datatype UpstreamBody = UpstreamText(message: string) | UpstreamJson(operation: Operation, serialized: string)

  /** `fetch` threw, or the upstream answered with `res.ok`, `res.status` and a body. */
  datatype Upstream = Unreachable(message: string) | Answered(ok: bool, status: nat, body: UpstreamBody)

  datatype PollBody =
    | Finished(videoUrl: Option<string>)
    | Running(metadata: Option<string>)
    | Rejected(error: string)
    | UpstreamFailed(error: string, details: string)
    | ServerError(error: string, message: string)

  datatype Reply = Reply(status: nat, body: PollBody)

  /** What GET answered, and the URL it fetched, if it fetched one. */
  datatype Exchange = Exchange(reply: Reply, fetched: Option<string>)

  /** The status URL: base, operation name and key pasted in as they are. */
  function StatusUrl(operationName: string, apiKey: string): (r: string)
    ensures |r| == |UpstreamBase| + |operationName| + 5 + |apiKey|
    ensures r[..|UpstreamBase|] == UpstreamBase
    ensures r[|UpstreamBase|..|UpstreamBase| + |operationName|] == operationName
    ensures r[|UpstreamBase| + |operationName|..|r| - |apiKey|] == "?key="
    ensures r[|r| - |apiKey|..] == apiKey
  {
    UpstreamBase + operationName + "?key=" + apiKey
  }

  /** Reads the operation name and the key back out of a status URL. The name
      runs up to the first '?'. */
  function ParseStatusUrl(url: string): Option<(string, string)>
  {
    if |url| < |UpstreamBase| || url[..|UpstreamBase|] != UpstreamBase then None
    else
      var rest := url[|UpstreamBase|..];
      match IndexOf(rest, '?')
      case None => None
      case Some(q) =>
        var query := rest[q + 1..];
        if |query| >= 4 && query[..4] == "key=" then Some((rest[..q], query[4..])) else None
  }

  /** An operation name without '?' and its key can be read back from the URL. */
  lemma StatusUrlRoundTrip(operationName: string, apiKey: string)
    requires '?' !in operationName
    ensures ParseStatusUrl(StatusUrl(operationName, apiKey)) == Some((operationName, apiKey))
  {
    var url := StatusUrl(operationName, apiKey);
    assert url[..|UpstreamBase|] == UpstreamBase;
    var rest := url[|UpstreamBase|..];
    assert rest == operationName + "?key=" + apiKey;
    var n := |operationName|;
    assert rest[n] == '?' && rest[..n] == operationName;
    IndexOfFirst(rest, '?', n);
    assert rest[n + 1..] == "key=" + apiKey;
  }

  /** Nothing is escaped, so a '?' in the operation name makes two different
      inputs fetch the same URL. */
  lemma StatusUrlNotEscaped()
    ensures StatusUrl("operations/a?key=b", "c") == StatusUrl("operations/a", "b?key=c")
  {
  }

  /** GET. */
  function Get(operationName: Option<string>, apiKey: Option<string>, upstream: Upstream): (x: Exchange)
    ensures x.fetched.Some? <==> Truthy(operationName) && Truthy(apiKey)
    ensures x.fetched.Some? ==> x.fetched.value == StatusUrl(operationName.value, apiKey.value)
    ensures x.fetched.None? ==> x.reply == Reply(400, Rejected(MissingParamsMessage))
    ensures x.reply.body.Finished? <==>
              x.fetched.Some? && upstream.Answered? && upstream.ok && upstream.body.UpstreamJson? && upstream.body.operation.done
    ensures x.reply.body.Finished? ==>
              x.reply.status == 200
              && x.reply.body.videoUrl == (if Truthy(upstream.body.operation.videoUri) then upstream.body.operation.videoUri else None)
    ensures x.reply.body.Running? <==>
              x.fetched.Some? && upstream.Answered? && upstream.ok && upstream.body.UpstreamJson? && !upstream.body.operation.done
    ensures x.reply.body.Running? ==>
              x.reply.status == 200 && x.reply.body.metadata == upstream.body.operation.metadata
    ensures x.fetched.Some? && upstream.Answered? && !upstream.ok ==>
              x.reply.status == upstream.status && x.reply.body.UpstreamFailed?
              && x.reply.body.error == PollFailedMessage
              && x.reply.body.details == if upstream.body.UpstreamJson? then upstream.body.serialized else "{}"
    ensures x.reply.body.ServerError? <==>
              x.fetched.Some? && (upstream.Unreachable? || (upstream.ok && upstream.body.UpstreamText?))
    ensures x.reply.body.ServerError? ==>
              x.reply.status == 500 && x.reply.body.error == ServerErrorMessage
              && x.reply.body.message == if upstream.Unreachable? then upstream.message else upstream.body.message
  {
    if !Truthy(operationName) || !Truthy(apiKey) then
      Exchange(Reply(400, Rejected(MissingParamsMessage)), None)
    else
      var url := StatusUrl(operationName.value, apiKey.value);
      var reply :=
        match upstream
        case Unreachable(m) => Reply(500, ServerError(ServerErrorMessage, m))
        case Answered(ok, status, body) =>
          if !ok then
            Reply(status, UpstreamFailed(PollFailedMessage, if body.UpstreamJson? then body.serialized else "{}"))
          else
            match body
            case UpstreamText(m) => Reply(500, ServerError(ServerErrorMessage, m))
            case UpstreamJson(op, _) =>
              if op.done then Reply(200, Finished(if Truthy(op.videoUri) then op.videoUri else None))
              else Reply(200, Running(op.metadata));
      Exchange(reply, Some(url))
  }

  /** A finished reply never carries an empty URL: an empty or missing URI becomes null. */
  lemma FinishedUrlNonEmpty(operationName: Option<string>, apiKey: Option<string>, upstream: Upstream)
    ensures var body := Get(operationName, apiKey, upstream).reply.body;
            body.Finished? && body.videoUrl.Some? ==> body.videoUrl.value != ""
  {
  }
}
