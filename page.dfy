/** The video studio page: its React state as one record, the handlers as
    functions from the old state to the new one (a functional updater such as
    `setSelectedScenes(prev => ...)` becomes a function of `prev`), and the
    status-polling loop as a method with its `while` loop. Replies of the
    network are inputs; nothing here sleeps or fetches. */
module Page {
  import opened Js

  /** One scene proposed by the scene generator. `duration` is
      `duration_seconds` as a template literal prints it. */
  datatype Scene = Scene(prompt: string, duration: string)

  /** The page's state hooks that the modelled handlers read or write. */
  datatype PageState = PageState(
    apiKey: string,
    storyPrompt: string,
    scenes: seq<Scene>,
    selected: seq<nat>,
    isLoadingScenes: bool,
    mainPrompt: string,
    generatedUrl: Option<string>,
    isLoadingVideo: bool,
    videoError: Option<string>)

  const MissingKeyMessage := "Lütfen önce Google AI API Anahtarınızı girin."
  const MissingStoryMessage := "Lütfen bir hikaye metni girin."
  const MissingVideoPromptMessage := "Lütfen video oluşturmak için bir metin girin."
  const NoSceneSelectedMessage := "Lütfen birleştirmek için en az bir sahne seçin."
  const NoVideoMessage := "Video oluşturulamadı."
  const TimeoutMessage := "Video zaman aşımına uğradı."
  const OperationNameMissingMessage := "OperationName alınamadı."
  const InvalidJsonMessage := "Sunucudan geçerli JSON yanıtı alınamadı."

  /** The polling loop gives up after this many status requests. */
  const MaxAttempts: nat := 30

  // ---------------------------------------------------------------------------
  // Scene selection
  // ---------------------------------------------------------------------------

  predicate Distinct(s: seq<nat>)
  {
    forall i, j :: 0 <= i < j < |s| ==> s[i] != s[j]
  }

  /** `r` is obtained from `s` by dropping entries, keeping the order of the rest. */
  predicate IsSubsequence(r: seq<nat>, s: seq<nat>)
    decreases |s|
  {
    if r == [] then true
    else if s == [] then false
    else (r[0] == s[0] && IsSubsequence(r[1..], s[1..])) || IsSubsequence(r, s[1..])
  }

  /** `s.filter(i => i !== x)`: every occurrence of `x` removed, the rest kept in order. */
  function Without(s: seq<nat>, x: nat): (r: seq<nat>)
    ensures multiset(r) == multiset(s)[x := 0]
    ensures IsSubsequence(r, s)
    ensures forall j :: j in r <==> j in s && j != x
  {
    if s == [] then []
    else
      assert s == [s[0]] + s[1..];
      if s[0] == x then Without(s[1..], x)
      else [s[0]] + Without(s[1..], x)
  }

  /** The updater of `handleSceneSelection(index)`. */
  function ToggleIndex(selected: seq<nat>, index: nat): (r: seq<nat>)
    ensures index !in selected ==> r == selected + [index]
    ensures index in selected ==> IsSubsequence(r, selected)
    ensures index in selected ==> forall j :: j != index ==> multiset(r)[j] == multiset(selected)[j]
    ensures index in r <==> index !in selected
    ensures forall j :: j != index ==> (j in r <==> j in selected)
  {
    if index in selected then Without(selected, index) else selected + [index]
  }

  lemma {:induction false} SubsequenceDistinct(r: seq<nat>, s: seq<nat>)
    requires IsSubsequence(r, s) && Distinct(s)
    ensures Distinct(r) && forall y :: y in r ==> y in s
    decreases |s|
  {
    if r != [] {
      if r[0] == s[0] && IsSubsequence(r[1..], s[1..]) {
        SubsequenceDistinct(r[1..], s[1..]);
        assert r == [r[0]] + r[1..];
        forall i, j | 0 <= i < j < |r| ensures r[i] != r[j] {
          if i == 0 {
            assert r[j] == r[1..][j - 1];
            assert r[j] in s[1..];
          } else {
            assert r[i] == r[1..][i - 1] && r[j] == r[1..][j - 1];
          }
        }
      } else {
        SubsequenceDistinct(r, s[1..]);
      }
    }
  }

  /** Toggling keeps a selection free of duplicates. */
  lemma ToggleKeepsDistinct(selected: seq<nat>, index: nat)
    requires Distinct(selected)
    ensures Distinct(ToggleIndex(selected, index))
  {
    if index in selected {
      SubsequenceDistinct(ToggleIndex(selected, index), selected);
    }
  }

  lemma {:induction false} WithoutAppended(s: seq<nat>, x: nat)
    requires x !in s
    ensures Without(s + [x], x) == s
  {
    if s != [] {
      assert (s + [x])[1..] == s[1..] + [x];
      WithoutAppended(s[1..], x);
    }
  }

  /** Ticking a box and unticking it again restores the selection. */
  lemma ToggleTwiceRestores(selected: seq<nat>, index: nat)
    requires index !in selected
    ensures ToggleIndex(ToggleIndex(selected, index), index) == selected
  {
    WithoutAppended(selected, index);
  }

  /** What the page keeps true of its selection: every index names a shown
      scene, and none is listed twice. */
  predicate ValidSelection(s: PageState)
  {
    (forall k :: 0 <= k < |s.selected| ==> s.selected[k] < |s.scenes|) && Distinct(s.selected)
  }

  /** Ticking or unticking the checkbox of a shown scene keeps the selection valid. */
  lemma ToggleKeepsSelectionValid(s: PageState, index: nat)
    requires ValidSelection(s) && index < |s.scenes|
    ensures ValidSelection(s.(selected := ToggleIndex(s.selected, index)))
  {
    ToggleKeepsDistinct(s.selected, index);
    var r := ToggleIndex(s.selected, index);
    forall k | 0 <= k < |r| ensures r[k] < |s.scenes| {
      if r[k] != index {
        assert r[k] in r;
        var m :| 0 <= m < |s.selected| && s.selected[m] == r[k];
      }
    }
  }

  /** `handleSelectAllScenes`: every shown scene, in order. */
  function SelectAllScenes(s: PageState): (r: PageState)
    ensures r == s.(selected := r.selected)
    ensures |r.selected| == |s.scenes| && forall k :: 0 <= k < |r.selected| ==> r.selected[k] == k
  {
    s.(selected := seq(|s.scenes|, k => k))
  }

  /** `handleDeselectAllScenes`. */
  function DeselectAllScenes(s: PageState): (r: PageState)
    ensures r == s.(selected := r.selected) && r.selected == []
  {
    s.(selected := [])
  }

  lemma SelectAllIsValid(s: PageState)
    ensures ValidSelection(SelectAllScenes(s)) && Ascending(SelectAllScenes(s).selected)
  {
  }

  // ---------------------------------------------------------------------------
  // Combining the selected scenes into the main prompt
  // ---------------------------------------------------------------------------

  /** The text one scene contributes, numbered by its place in the combination. */
  function Segment(position: nat, scene: Scene): (r: string)
    ensures var n := Decimal(position);
            |r| >= 6 + |n| + |scene.prompt| && r[..6] == "Sahne " && r[6..6 + |n|] == n
            && r[|r| - |scene.prompt|..] == scene.prompt
  {
    "Sahne " + Decimal(position) + " (" + scene.duration + "s): " + scene.prompt
  }

  function Numbered(chosen: seq<Scene>): (r: seq<string>)
    ensures |r| == |chosen| && forall k :: 0 <= k < |r| ==> r[k] == Segment(k + 1, chosen[k])
  {
    seq(|chosen|, k requires 0 <= k < |chosen| => Segment(k + 1, chosen[k]))
  }

  /** The scenes numbered from 1 and separated by blank lines. */
  function CombinedPrompt(chosen: seq<Scene>): (r: string)
    ensures chosen == [] ==> r == ""
    ensures chosen != [] ==> var first := Segment(1, chosen[0]); |first| <= |r| && r[..|first|] == first
  {
    Join(Numbered(chosen), "\n\n")
  }

  predicate InRange(order: seq<nat>, n: nat)
  {
    forall k :: 0 <= k < |order| ==> order[k] < n
  }

  function ScenesAt(scenes: seq<Scene>, order: seq<nat>): (r: seq<Scene>)
    requires InRange(order, |scenes|)
    ensures |r| == |order| && forall k :: 0 <= k < |r| ==> r[k] == scenes[order[k]]
  {
    seq(|order|, k requires 0 <= k < |order| => scenes[order[k]])
  }

  /** `handleCombineAndUseScenes`. An index past the end of `scenes` makes the
      handler throw a TypeError before it sets anything. */
  function CombineScenes(s: PageState): (r: PageState)
    ensures r == s.(mainPrompt := r.mainPrompt, videoError := r.videoError)
    ensures s.selected == [] ==> r == s.(videoError := Some(NoSceneSelectedMessage))
    ensures s.selected != [] && !InRange(s.selected, |s.scenes|) ==> r == s
    ensures s.selected != [] && InRange(s.selected, |s.scenes|) ==> r.videoError == None
  {
    var order := SortAscending(s.selected);
    if |order| == 0 then
      s.(videoError := Some(NoSceneSelectedMessage))
    else if !InRange(order, |s.scenes|) then
      assert !InRange(s.selected, |s.scenes|) by {
        var k :| 0 <= k < |order| && order[k] >= |s.scenes|;
        assert order[k] in multiset(s.selected);
      }
      s
    else
      assert InRange(s.selected, |s.scenes|) by {
        forall k | 0 <= k < |s.selected| ensures s.selected[k] < |s.scenes| {
          assert s.selected[k] in multiset(order);
        }
      }
      s.(mainPrompt := CombinedPrompt(ScenesAt(s.scenes, order)), videoError := None)
  }

  /** The combination takes the selected scenes in ascending index order:
      whichever ascending arrangement of the selection one names, the main
      prompt becomes those scenes, numbered and joined. */
  lemma CombineInAscendingOrder(s: PageState, order: seq<nat>)
    requires Ascending(order) && multiset(order) == multiset(s.selected)
    requires s.selected != [] && InRange(s.selected, |s.scenes|)
    ensures InRange(order, |s.scenes|)
    ensures CombineScenes(s) == s.(mainPrompt := CombinedPrompt(ScenesAt(s.scenes, order)), videoError := None)
  {
    forall k | 0 <= k < |order| ensures order[k] < |s.scenes| {
      assert order[k] in multiset(s.selected);
    }
    AscendingUnique(SortAscending(s.selected), order);
  }

  /** The order in which boxes were ticked does not matter. */
  lemma CombineIgnoresClickOrder(s: PageState, t: PageState)
    requires t == s.(selected := t.selected)
    requires multiset(t.selected) == multiset(s.selected)
    ensures CombineScenes(t).mainPrompt == CombineScenes(s).mainPrompt
    ensures CombineScenes(t).videoError == CombineScenes(s).videoError
  {
    AscendingUnique(SortAscending(s.selected), SortAscending(t.selected));
  }

  /** After selecting all scenes, the combination is every scene in page order. */
  lemma CombineAllScenes(s: PageState)
    requires s.scenes != []
    ensures CombineScenes(SelectAllScenes(s)).mainPrompt == CombinedPrompt(s.scenes)
  {
    var t := SelectAllScenes(s);
    CombineInAscendingOrder(t, t.selected);
    assert ScenesAt(s.scenes, t.selected) == s.scenes;
  }

  /** After deselecting all, combining reports the missing selection and keeps the prompt. */
  lemma CombineAfterDeselectAll(s: PageState)
    ensures CombineScenes(DeselectAllScenes(s)).mainPrompt == s.mainPrompt
    ensures CombineScenes(DeselectAllScenes(s)).videoError == Some(NoSceneSelectedMessage)
  {
  }

  /** A single scene is its own segment, numbered 1. */
  lemma CombinedPromptSingle(scene: Scene)
    ensures CombinedPrompt([scene]) == "Sahne 1 (" + scene.duration + "s): " + scene.prompt
  {
    assert Numbered([scene]) == [Segment(1, scene)];
  }

  /** One more scene adds a blank line and the next numbered segment. */
  lemma CombinedPromptAppend(chosen: seq<Scene>, scene: Scene)
    requires chosen != []
    ensures CombinedPrompt(chosen + [scene])
         == CombinedPrompt(chosen) + "\n\n" + Segment(|chosen| + 1, scene)
  {
    assert Numbered(chosen + [scene]) == Numbered(chosen) + [Segment(|chosen| + 1, scene)];
    JoinAppend(Numbered(chosen), Segment(|chosen| + 1, scene), "\n\n");
  }

  // ---------------------------------------------------------------------------
  // Style cards
  // ---------------------------------------------------------------------------

  /** The updater of `handleStyleClick(style)`: append after a space, then trim. */
  function AddStyle(prompt: string, style: string): (r: string)
    ensures r == [] || (!IsWhitespace(r[0]) && !IsWhitespace(r[|r| - 1]))
  {
    Trim(prompt + " " + style)
  }

  /** On an empty (or blank) prompt the result is just the trimmed style. */
  lemma AddStyleToBlank(prompt: string, style: string)
    requires AllWhitespace(prompt)
    ensures AddStyle(prompt, style) == Trim(style)
  {
    var blank := prompt + " ";
    assert forall k :: 0 <= k < |prompt| ==> blank[k] == prompt[k];
    assert prompt + " " + style == blank + style;
    TrimAfterBlank(blank, style);
  }

  /** A trimmed, non-empty prompt gets the trimmed style after one space. */
  lemma AddStyleAppends(prompt: string, style: string)
    requires prompt != [] && Trim(prompt) == prompt
    requires style != [] && Trim(style) == style
    ensures AddStyle(prompt, style) == prompt + " " + style
  {
    var s := prompt + " " + style;
    assert s[..0] == [] && s[|s|..] == [] && s[0..|s|] == s;
    assert s[0] == prompt[0] && s[|s| - 1] == style[|style| - 1];
    TrimExactly(s, 0, |s|);
  }

  // ---------------------------------------------------------------------------
  // Scene generation
  // ---------------------------------------------------------------------------

  const GeminiEndpoint := "https://generativelanguage.googleapis.com/v1beta/models/gemini-2.5-flash:generateContent?key="
  const SceneFailurePrefix := "Sahne oluşturulurken bir hata oluştu: "

  /** What `JSON.parse` made of the candidate text. */
  datatype ScenesJson = TextNotJson | NotArray | SceneArray(scenes: seq<Scene>)

  /** The body of the model's reply as `safeParseJson` saw it. For a parsed body:
      `error.message`, the body's `JSON.stringify`, the first candidate's first
      text part, and what parsing that text gave. */
  datatype GeminiBody =
    | Unparsable(text: string)
    | Parsed(errorMessage: Option<string>, serialized: string, candidateText: Option<string>, sceneJson: ScenesJson)

  datatype GeminiReply = GeminiDown(message: string) | GeminiAnswer(ok: bool, body: GeminiBody)

  /** A handler's effect: the new state and the request it sent, if any. */
  datatype Handled<R> = Handled(state: PageState, request: Option<R>)

  /** The scenes the reply yields, or the message of the Error the handler throws. */
  function SceneOutcome(reply: GeminiReply): (r: Result<seq<Scene>>)
    ensures r.Ok? <==> reply.GeminiAnswer? && reply.ok && reply.body.Parsed?
                       && Truthy(reply.body.candidateText) && reply.body.sceneJson.SceneArray?
    ensures r.Ok? ==> r.value == reply.body.sceneJson.scenes
  {
    match reply
    case GeminiDown(m) => Err(m)
    case GeminiAnswer(ok, body) =>
      if !ok then
        Err("API Hatası: " + (match body
                                case Unparsable(text) => text
                                case Parsed(e, serialized, _, _) => Or(e, serialized)))
      else
        match body
        case Unparsable(text) => Err("API yanıtı JSON değildi: " + Prefix(text, 300))
        case Parsed(_, _, text, json) =>
          if !Truthy(text) then Err("Gemini yanıtı beklenen alanda metin döndürmedi.")
          else
            match json
            case TextNotJson => Err("Gemini'den dönen metin JSON değil veya doğru formatta değil.")
            case NotArray => Err("Sahneler dizi formatında dönmedi.")
            case SceneArray(scenes) => Ok(scenes)
  }

  /** `handleGenerateScenes`: the early returns, the reset, the reply, the finally. */
  function GenerateScenes(s: PageState, reply: GeminiReply): (h: Handled<string>)
    ensures s.apiKey == "" ==> h == Handled(s.(videoError := Some(MissingKeyMessage)), None)
    ensures s.apiKey != "" && s.storyPrompt == "" ==>
              h == Handled(s.(videoError := Some(MissingStoryMessage)), None)
    ensures h.request.Some? <==> s.apiKey != "" && s.storyPrompt != ""
    ensures h.request.Some? ==>
              h.request.value == GeminiEndpoint + s.apiKey
              && h.state == s.(scenes := h.state.scenes, selected := [], isLoadingScenes := false,
                               videoError := h.state.videoError)
              && (SceneOutcome(reply).Ok? ==>
                    h.state.scenes == SceneOutcome(reply).value && h.state.videoError == None)
              && (SceneOutcome(reply).Err? ==>
                    h.state.scenes == [] && h.state.videoError == Some(SceneFailurePrefix + SceneOutcome(reply).message))
  {
    if s.apiKey == "" then Handled(s.(videoError := Some(MissingKeyMessage)), None)
    else if s.storyPrompt == "" then Handled(s.(videoError := Some(MissingStoryMessage)), None)
    else
      var started := s.(isLoadingScenes := true, scenes := [], selected := [], videoError := None);
      var finished :=
        match SceneOutcome(reply)
        case Ok(scenes) => started.(scenes := scenes)
        case Err(m) => started.(videoError := Some(SceneFailurePrefix + m));
      Handled(finished.(isLoadingScenes := false), Some(GeminiEndpoint + s.apiKey))
  }

  /** Generating scenes keeps the selection valid, whatever the reply. */
  lemma GenerateScenesKeepsSelectionValid(s: PageState, reply: GeminiReply)
    requires ValidSelection(s)
    ensures ValidSelection(GenerateScenes(s, reply).state)
  {
  }

  // ---------------------------------------------------------------------------
  // Video generation and the polling loop
  // ---------------------------------------------------------------------------

  const VideoRoutePath := "/api/video-olustur"
  const PollRoutePath := "/api/poll-video?operationName="

  /** The JSON body the page posts to the generation route: only the prompt. */
  datatype VideoRequest = VideoRequest(prompt: string)

  /** The body of the generation route's reply as the page parsed it: the
      `error` and `operationName` fields and the body's `JSON.stringify`. */
  datatype ServerBody = ServerText(text: string) | ServerJson(error: Option<string>, operationName: Option<string>, serialized: string)

  datatype ServerReply = ServerDown(message: string) | ServerAnswer(ok: bool, status: nat, body: ServerBody)

  /** The operation name to poll, or the message of the Error the handler throws. */
  function SubmitOutcome(reply: ServerReply): (r: Result<string>)
    ensures r.Ok? <==> reply.ServerAnswer? && reply.ok && reply.body.ServerJson? && Truthy(reply.body.operationName)
    ensures r.Ok? ==> r.value == reply.body.operationName.value
    ensures r.Err? && reply.ServerAnswer? ==> r.message != ""
  {
    match reply
    case ServerDown(m) => Err(m)
    case ServerAnswer(ok, status, body) =>
      if !ok then
        var msg := match body
                   case ServerText(text) => text
                   case ServerJson(e, _, serialized) => Or(e, serialized);
        Err(if msg != "" then msg else "Sunucu hatası (" + Decimal(status) + ")")
      else
        match body
        case ServerText(_) => Err(InvalidJsonMessage)
        case ServerJson(_, op, _) => if Truthy(op) then Ok(op.value) else Err(OperationNameMissingMessage)
  }

  /** `data` of one status request as the loop reads it (`done`, `videoUrl`), or
      the message of an Error thrown by `fetch` or `res.json()`. */
  datatype PollReply = Status(done: bool, videoUrl: Option<string>) | Failed(message: string)

  /** A reply that makes the loop go round again. */
  predicate Pending(reply: PollReply)
  {
    reply.Status? && !reply.done
  }

  datatype PollOutcome = Delivered(url: string) | NoVideo | TimedOut | Threw(message: string)

  /** How the loop ends on a reply that does not make it go round again. */
  function Conclusion(reply: PollReply): PollOutcome
    requires !Pending(reply)
  {
    match reply
    case Failed(m) => Threw(m)
    case Status(_, url) => if Truthy(url) then Delivered(url.value) else NoVideo
  }

  /** How the loop ends and how many status requests it has made by then. */
  datatype Verdict = Verdict(outcome: PollOutcome, attempts: nat)

  /** The verdict of the loop once `attempt` requests have been answered as pending. */
  function Settle(replies: nat -> PollReply, attempt: nat): (v: Verdict)
    requires attempt <= MaxAttempts
    ensures attempt <= v.attempts <= MaxAttempts
    ensures v.outcome.TimedOut? ==> v.attempts == MaxAttempts
    decreases MaxAttempts - attempt
  {
    if attempt == MaxAttempts then Verdict(TimedOut, MaxAttempts)
    else if Pending(replies(attempt)) then Settle(replies, attempt + 1)
    else Verdict(Conclusion(replies(attempt)), attempt + 1)
  }

  /** What the loop sets on the page. A thrown Error leaves that to the caller. */
  function AfterPoll(s: PageState, outcome: PollOutcome): PageState
  {
    match outcome
    case Delivered(url) => s.(generatedUrl := Some(url), videoError := None)
    case NoVideo => s.(videoError := Some(NoVideoMessage))
    case TimedOut => s.(videoError := Some(TimeoutMessage))
    case Threw(_) => s
  }

  function ThrownBy(outcome: PollOutcome): Option<string>
  {
    if outcome.Threw? then Some(outcome.message) else None
  }

  /** `pollVideoStatus(operationName)`: `replies(k)` is the answer to the k-th
      status request. Returns the new state, the requests made, and the message
      of an Error that escaped the loop. */
  method PollVideoStatus(s: PageState, operationName: string, replies: nat -> PollReply)
    returns (r: PageState, requests: seq<string>, thrown: Option<string>)
    ensures |requests| == Settle(replies, 0).attempts
    ensures forall k :: 0 <= k < |requests| ==> requests[k] == PollRoutePath + operationName
    ensures r == AfterPoll(s, Settle(replies, 0).outcome)
    ensures thrown == ThrownBy(Settle(replies, 0).outcome)
  {
    var done := false;
    var attempts: nat := 0;
    r, requests, thrown := s, [], None;
    while !done && attempts < MaxAttempts
      invariant !done && attempts <= MaxAttempts && |requests| == attempts
      invariant forall k :: 0 <= k < |requests| ==> requests[k] == PollRoutePath + operationName
      invariant r == s && thrown == None
      invariant Settle(replies, attempts) == Settle(replies, 0)
    {
      attempts := attempts + 1;
      requests := requests + [PollRoutePath + operationName];
      var data := replies(attempts - 1);
      if data.Failed? {
        thrown := Some(data.message);
        return;
      }
      if data.done {
        done := true;
        if Truthy(data.videoUrl) {
          r := r.(generatedUrl := data.videoUrl, videoError := None);
        } else {
          r := r.(videoError := Some(NoVideoMessage));
        }
        break;
      }
    }
    if !done {
      r := r.(videoError := Some(TimeoutMessage));
    }
  }

  /** The loop makes at least one and at most `MaxAttempts` requests. */
  lemma {:induction false} SettleBounds(replies: nat -> PollReply, attempt: nat)
    requires attempt < MaxAttempts
    ensures attempt < Settle(replies, attempt).attempts <= MaxAttempts
    decreases MaxAttempts - attempt
  {
    if attempt + 1 < MaxAttempts && Pending(replies(attempt)) {
      SettleBounds(replies, attempt + 1);
    }
  }

  /** The loop times out exactly when every one of the `MaxAttempts` replies is
      pending, and then it has made all `MaxAttempts` requests. */
  lemma {:induction false} TimedOutIffAllPending(replies: nat -> PollReply, attempt: nat)
    requires attempt <= MaxAttempts
    ensures Settle(replies, attempt).outcome == TimedOut
            <==> forall k :: attempt <= k < MaxAttempts ==> Pending(replies(k))
    ensures Settle(replies, attempt).outcome == TimedOut ==> Settle(replies, attempt).attempts == MaxAttempts
    decreases MaxAttempts - attempt
  {
    if attempt < MaxAttempts {
      TimedOutIffAllPending(replies, attempt + 1);
    }
  }

  /** The loop stops at the first reply that is not pending and ends as that reply says. */
  lemma {:induction false} StopsAtFirstAnswer(replies: nat -> PollReply, attempt: nat, m: nat)
    requires attempt <= m < MaxAttempts
    requires forall k :: attempt <= k < m ==> Pending(replies(k))
    requires !Pending(replies(m))
    ensures Settle(replies, attempt) == Verdict(Conclusion(replies(m)), m + 1)
    decreases m - attempt
  {
    if attempt < m {
      StopsAtFirstAnswer(replies, attempt + 1, m);
    }
  }

  /** The same pending reply over and over never ends the loop early. */
  lemma RepeatedPendingTimesOut(reply: PollReply)
    requires Pending(reply)
    ensures Settle(_ => reply, 0) == Verdict(TimedOut, MaxAttempts)
  {
    TimedOutIffAllPending(_ => reply, 0);
  }

  const VideoFailurePrefix := "Video oluşturulurken bir hata oluştu: "

  /** The error the page shows when video generation throws: the message can be
      read back from between the fixed prefix and the final full stop. */
  function VideoFailure(message: string): (r: string)
    ensures |r| == |VideoFailurePrefix| + |message| + 1
    ensures r[..|VideoFailurePrefix|] == VideoFailurePrefix && r[|r| - 1] == '.'
    ensures r[|VideoFailurePrefix|..|r| - 1] == message
  {
    VideoFailurePrefix + message + "."
  }

  /** `handleGenerateVideo`: the early returns, the reset, the submission reply,
      the polling loop, the catch and the finally. Returns the new state, the
      body posted to the generation route, and the status requests made. */
  method GenerateVideo(s: PageState, reply: ServerReply, replies: nat -> PollReply)
    returns (r: PageState, request: Option<VideoRequest>, polls: seq<string>)
    ensures s.apiKey == "" ==>
              r == s.(videoError := Some(MissingKeyMessage)) && request == None && polls == []
    ensures s.apiKey != "" && s.mainPrompt == "" ==>
              r == s.(videoError := Some(MissingVideoPromptMessage)) && request == None && polls == []
    ensures s.apiKey != "" && s.mainPrompt != "" ==> request == Some(VideoRequest(s.mainPrompt))
    ensures s.apiKey != "" && s.mainPrompt != "" && SubmitOutcome(reply).Err? ==>
              polls == []
              && r == s.(isLoadingVideo := false, generatedUrl := None,
                         videoError := Some(VideoFailure(SubmitOutcome(reply).message)))
    ensures s.apiKey != "" && s.mainPrompt != "" && SubmitOutcome(reply).Ok? ==>
              var verdict := Settle(replies, 0);
              var cleared := s.(isLoadingVideo := false, generatedUrl := None, videoError := None);
              |polls| == verdict.attempts
              && (forall k :: 0 <= k < |polls| ==> polls[k] == PollRoutePath + SubmitOutcome(reply).value)
              && r == if verdict.outcome.Threw? then cleared.(videoError := Some(VideoFailure(verdict.outcome.message)))
                      else AfterPoll(cleared, verdict.outcome)
  {
    if s.apiKey == "" {
      return s.(videoError := Some(MissingKeyMessage)), None, [];
    }
    if s.mainPrompt == "" {
      return s.(videoError := Some(MissingVideoPromptMessage)), None, [];
    }
    r := s.(isLoadingVideo := true, generatedUrl := None, videoError := None);
    request := Some(VideoRequest(s.mainPrompt));
    polls := [];
    var submitted := SubmitOutcome(reply);
    if submitted.Err? {
      r := r.(videoError := Some(VideoFailure(submitted.message)));
    } else {
      var thrown;
      r, polls, thrown := PollVideoStatus(r, submitted.value, replies);
      if thrown.Some? {
        r := r.(videoError := Some(VideoFailure(thrown.value)));
      }
    }
    r := r.(isLoadingVideo := false);
  }
}
