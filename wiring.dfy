/** How the page and the two routes fit together: what the generation route
    receives when the page posts its request, how the page reads the routes'
    replies, and what follows for the page. The page posts only the prompt and
    expects an `operationName`; the generation route wants an API key and
    answers with a `videoUrl`; so the page never reaches its polling loop. */
module Wiring {
  import opened Js
  import Page
  import VideoRoute
  import PollRoute

  /** The body the generation route destructures from the page's request:
      only `prompt` is present. */
  function RouteBodyOf(request: Page.VideoRequest): (b: VideoRoute.RequestBody)
    ensures b.prompt == Some(request.prompt)
    ensures b.apiKey.None? && b.aspectRatio.None? && b.base64Image.None?
  {
    VideoRoute.RequestBody(None, Some(request.prompt), None, None)
  }

  /** The generation route's reply as the page parses it. `serialized` stands
      for the reply body's `JSON.stringify`. The route's bodies are JSON and
      never carry `operationName`. */
  function PageReadsVideoReply(reply: VideoRoute.RouteReply, serialized: string): (r: Page.ServerReply)
    ensures r.ServerAnswer? && r.status == reply.status && r.body.ServerJson?
    ensures r.ok <==> 200 <= reply.status < 300
    ensures r.body.operationName.None?
    ensures r.body.error == if reply.body.Error? then Some(reply.body.message) else None
  {
    var error := match reply.body
                 case VideoUrl(_) => None
                 case Error(m) => Some(m);
    Page.ServerAnswer(200 <= reply.status < 300, reply.status, Page.ServerJson(error, None, serialized))
  }

  /** Whatever the page posts, the generation route turns it away for lack of
      an API key, and the page reports the route's message. */
  lemma PageRequestIsRejected(request: Page.VideoRequest, serialized: string)
    ensures VideoRoute.CheckInputs(RouteBodyOf(request))
            == Some(VideoRoute.RouteReply(400, VideoRoute.Error(VideoRoute.MissingKeyMessage)))
    ensures var reply := VideoRoute.CheckInputs(RouteBodyOf(request)).value;
            Page.SubmitOutcome(PageReadsVideoReply(reply, serialized)) == Err(VideoRoute.MissingKeyMessage)
  {
  }

  /** Even a successful generation reply leaves the page without an operation
      name: the route answers with `videoUrl`, the page looks for `operationName`. */
  lemma SuccessLacksOperationName(url: string, serialized: string)
    ensures Page.SubmitOutcome(PageReadsVideoReply(VideoRoute.RouteReply(200, VideoRoute.VideoUrl(url)), serialized))
            == Err(Page.OperationNameMissingMessage)
  {
  }

  /** No reply of the generation route lets the page start polling. */
  lemma PageNeverPolls(reply: VideoRoute.RouteReply, serialized: string)
    ensures Page.SubmitOutcome(PageReadsVideoReply(reply, serialized)).Err?
  {
  }

  /** The poll route's reply as the page's loop reads it: `done` is true only in
      a finished reply; every other body lacks `done`, which reads as false. */
  function PageReadsPollReply(reply: PollRoute.Reply): (r: Page.PollReply)
    ensures r.Status?
    ensures r.done <==> reply.body.Finished?
    ensures r.done ==> r.videoUrl == reply.body.videoUrl
  {
    match reply.body
    case Finished(url) => Page.Status(true, url)
    case _ => Page.Status(false, None)
  }

  /** The replies the page's loop sees when the poll route, holding the server
      key `apiKey`, asks upstream for `operationName` and gets `upstreams(k)`
      the k-th time. */
  function LoopReplies(operationName: string, apiKey: Option<string>, upstreams: nat -> PollRoute.Upstream): nat -> Page.PollReply
  {
    (k: nat) => PageReadsPollReply(PollRoute.Get(Some(operationName), apiKey, upstreams(k)).reply)
  }

  /** Without `GENAI_API_KEY` on the server, every poll is rejected with 400,
      the page keeps waiting, and the loop times out after all its attempts. */
  lemma {:induction false} PollWithoutServerKeyTimesOut(operationName: string, apiKey: Option<string>, upstreams: nat -> PollRoute.Upstream)
    requires !Truthy(apiKey)
    ensures Page.Settle(LoopReplies(operationName, apiKey, upstreams), 0) == Page.Verdict(Page.TimedOut, Page.MaxAttempts)
  {
    var replies := LoopReplies(operationName, apiKey, upstreams);
    forall k | 0 <= k < Page.MaxAttempts
      ensures Page.Pending(replies(k))
    {
      assert PollRoute.Get(Some(operationName), apiKey, upstreams(k)).reply.body.Rejected?;
    }
    Page.TimedOutIffAllPending(replies, 0);
  }

  /** With both inputs present, the loop stops at the first upstream answer
      that is a finished operation: the video's URI when it is non-empty, "no
      video" otherwise. Errors of the poll route only make the loop wait. */
  lemma {:induction false} PollStopsAtFirstFinished(operationName: string, apiKey: string, upstreams: nat -> PollRoute.Upstream, m: nat)
    requires operationName != "" && apiKey != "" && m < Page.MaxAttempts
    requires forall k :: 0 <= k < m ==>
               !PollRoute.Get(Some(operationName), Some(apiKey), upstreams(k)).reply.body.Finished?
    requires var u := upstreams(m); u.Answered? && u.ok && u.body.UpstreamJson? && u.body.operation.done
    ensures var uri := upstreams(m).body.operation.videoUri;
            Page.Settle(LoopReplies(operationName, Some(apiKey), upstreams), 0)
            == Page.Verdict(if Truthy(uri) then Page.Delivered(uri.value) else Page.NoVideo, m + 1)
  {
    var replies := LoopReplies(operationName, Some(apiKey), upstreams);
    forall k | 0 <= k < m
      ensures Page.Pending(replies(k))
    {
    }
    assert !Page.Pending(replies(m));
    Page.StopsAtFirstAnswer(replies, 0, m);
  }
}
