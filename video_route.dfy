/** The generation route (POST /api/video-olustur): it checks the request body,
    builds the parts it hands to the video model, and turns the model's answer
    into a reply that carries either the video's URI or an error message. The
    SDK is not modelled. What it answered is an input: an error it threw, or
    the candidates of its response, reduced to the fields the route reads. */
module VideoRoute {
  import opened Js

  /** The fields the route destructures from the JSON body. A field that is
      absent or null is `None`. */
  datatype RequestBody = RequestBody(
    apiKey: Option<string>,
    prompt: Option<string>,
    aspectRatio: Option<string>,
    base64Image: Option<string>)

  /** `req.json()`: either the parsed body or the message of the error it threw. */
  datatype Request = Malformed(message: string) | Body(body: RequestBody)

  /** One entry of `videoParts`. */
  datatype Part = InlineData(mimeType: string, data: string) | Text(text: string)

  /** What the route reads of the model's response: each candidate's content
      parts, and of each part its `videoMetadata` and that metadata's `videoUri`. */
  datatype VideoMetadata = VideoMetadata(videoUri: Option<string>)
  datatype ResponsePart = ResponsePart(videoMetadata: Option<VideoMetadata>)
  datatype Candidate = Candidate(parts: seq<ResponsePart>)

  /** How the SDK answered. `SetupFailed`: constructing the client or looking up
      the model threw, before any parts were built. `CallFailed`: the call
      `generateContent` threw. `Returned`: the call returned, with
      `response.candidates` absent (`None`) or present. */
  datatype ModelAnswer =
    | SetupFailed(message: string)
    | CallFailed(message: string)
    | Returned(candidates: Option<seq<Candidate>>)

  datatype ReplyBody = VideoUrl(url: string) | Error(message: string)
  datatype RouteReply = RouteReply(status: nat, body: ReplyBody)

  const MissingKeyMessage := "API anahtarı eksik"
  const MissingPromptMessage := "Prompt metni eksik"
  const NoVideoUriMessage := "VEO API video URI döndürmedi. Model cevabını kontrol edin."
  /** The TypeError V8 throws for `candidates?.[0].content` on an empty list. */
  const UndefinedContentMessage := "Cannot read properties of undefined (reading 'content')"
  const ImageMimeType := "image/png"
  const DefaultAspectRatio := "16:9"

  /** `cleanBase64`: the text after a data-URL header. That is the second
      comma-separated field when it is non-empty, and otherwise the input. */
  function CleanBase64(base64String: Option<string>): (r: Option<string>)
    ensures r.None? <==> !Truthy(base64String)
    ensures r.Some? ==> r.value != "" && (',' !in r.value || r.value == base64String.value)
  {
    if !Truthy(base64String) then None
    else
      var fields := Split(base64String.value, ',');
      if |fields| > 1 && fields[1] != "" then Some(fields[1]) else base64String
  }

  /** Between the first and the second comma (or the end) lies what cleanBase64 returns. */
  lemma CleanBase64BetweenCommas(s: string, i: nat, j: nat)
    requires i < j <= |s|
    requires s[i] == ',' && ',' !in s[..i]
    requires (j == |s| || s[j] == ',') && ',' !in s[i + 1..j]
    ensures i + 1 < j ==> CleanBase64(Some(s)) == Some(s[i + 1..j])
    ensures i + 1 == j ==> CleanBase64(Some(s)) == Some(s)
  {
    SplitAtFirst(s, ',', i);
    var rest := s[i + 1..];
    assert rest[..j - i - 1] == s[i + 1..j];
    SplitAtFirst(rest, ',', j - i - 1);
  }

  /** Text with no comma comes back unchanged. */
  lemma CleanBase64WithoutComma(s: string)
    requires s != "" && ',' !in s
    ensures CleanBase64(Some(s)) == Some(s)
  {
    assert s[..|s|] == s;
    SplitAtFirst(s, ',', |s|);
  }

  /** A data URL loses its header: `data:<type>;base64,<payload>` gives the payload. */
  lemma CleanBase64OfDataUrl(header: string, payload: string)
    requires ',' !in header && ',' !in payload && payload != ""
    ensures CleanBase64(Some(header + "," + payload)) == Some(payload)
  {
    var s := header + "," + payload;
    assert s[..|header|] == header;
    assert s[|header| + 1..|s|] == payload;
    CleanBase64BetweenCommas(s, |header|, |s|);
  }

  /** Cleaning twice is cleaning once. */
  lemma CleanBase64Idempotent(base64String: Option<string>)
    ensures CleanBase64(CleanBase64(base64String)) == CleanBase64(base64String)
  {
    var r := CleanBase64(base64String);
    if r.Some? && r.value != base64String.value {
      CleanBase64WithoutComma(r.value);
    }
  }

  /** The early returns of POST: a missing key, then a missing prompt. */
  function CheckInputs(body: RequestBody): (r: Option<RouteReply>)
    ensures r.None? <==> Truthy(body.apiKey) && Truthy(body.prompt)
    ensures !Truthy(body.apiKey) ==> r == Some(RouteReply(400, Error(MissingKeyMessage)))
    ensures Truthy(body.apiKey) && !Truthy(body.prompt) ==> r == Some(RouteReply(400, Error(MissingPromptMessage)))
  {
    if !Truthy(body.apiKey) then Some(RouteReply(400, Error(MissingKeyMessage)))
    else if !Truthy(body.prompt) then Some(RouteReply(400, Error(MissingPromptMessage)))
    else None
  }

  /** The parts handed to the model: the cleaned image first when there is
      one, then the prompt, then the aspect ratio (16:9 when none is given). */
  predicate VideoPartsFor(parts: seq<Part>, prompt: string, aspectRatio: Option<string>, base64Image: Option<string>)
  {
    |parts| == (if CleanBase64(base64Image).Some? then 3 else 2)
    && (CleanBase64(base64Image).Some? ==> parts[0] == InlineData(ImageMimeType, CleanBase64(base64Image).value))
    && parts[|parts| - 2] == Text("Video prompt: " + prompt)
    && parts[|parts| - 1] == Text("En-boy oranı: " + Or(aspectRatio, DefaultAspectRatio))
  }

  /** Builds `videoParts` by pushing onto an initially empty list. */
  method BuildVideoParts(prompt: string, aspectRatio: Option<string>, base64Image: Option<string>)
    returns (videoParts: seq<Part>)
    ensures VideoPartsFor(videoParts, prompt, aspectRatio, base64Image)
  {
    videoParts := [];
    var cleanedImage := CleanBase64(base64Image);
    if Truthy(cleanedImage) {
      videoParts := videoParts + [InlineData(ImageMimeType, cleanedImage.value)];
    }
    videoParts := videoParts + [Text("Video prompt: " + prompt)];
    videoParts := videoParts + [Text("En-boy oranı: " + Or(aspectRatio, DefaultAspectRatio))];
  }

  /** How many of `parts` carry video metadata. */
  function MetadataCount(parts: seq<ResponsePart>): nat
  {
    if parts == [] then 0
    else (if parts[0].videoMetadata.Some? then 1 else 0) + MetadataCount(parts[1..])
  }

  lemma MetadataCountStep(parts: seq<ResponsePart>, m: nat)
    requires 0 < m <= |parts|
    ensures MetadataCount(parts[..m])
            == (if parts[0].videoMetadata.Some? then 1 else 0) + MetadataCount(parts[1..][..m - 1])
  {
    assert parts[..m][1..] == parts[1..][..m - 1];
  }

  /** `parts.filter(part => part.videoMetadata).map(part => part.videoMetadata?.videoUri)`:
      one entry per part that carries metadata, and the part that comes after
      `c` others with metadata gives entry `c`. */
  function MetadataUris(parts: seq<ResponsePart>): (r: seq<Option<string>>)
    ensures |r| == MetadataCount(parts)
    ensures forall m :: 0 <= m < |parts| && parts[m].videoMetadata.Some? ==>
              MetadataCount(parts[..m]) < |r| && r[MetadataCount(parts[..m])] == parts[m].videoMetadata.value.videoUri
  {
    if parts == [] then []
    else
      var rest := MetadataUris(parts[1..]);
      var r := if parts[0].videoMetadata.Some? then [parts[0].videoMetadata.value.videoUri] + rest else rest;
      assert forall m :: 0 <= m < |parts| && parts[m].videoMetadata.Some? ==>
               MetadataCount(parts[..m]) < |r| && r[MetadataCount(parts[..m])] == parts[m].videoMetadata.value.videoUri by {
        forall m | 0 <= m < |parts| && parts[m].videoMetadata.Some?
          ensures MetadataCount(parts[..m]) < |r| && r[MetadataCount(parts[..m])] == parts[m].videoMetadata.value.videoUri
        {
          if m == 0 {
            assert parts[..0] == [];
          } else {
            MetadataCountStep(parts, m);
            assert parts[1..][m - 1] == parts[m];
          }
        }
      }
      r
  }

  /** The video URI of the first candidate's response, or the message of the error thrown. */
  function ExtractVideoUri(candidates: Option<seq<Candidate>>): (r: Result<string>)
    ensures r.Ok? ==> r.value != ""
  {
    match candidates
    case None => Err(NoVideoUriMessage)
    case Some(cs) =>
      if cs == [] then Err(UndefinedContentMessage)
      else
        var videoData := MetadataUris(cs[0].parts);
        if |videoData| == 0 || !Truthy(videoData[0]) then Err(NoVideoUriMessage)
        else Ok(videoData[0].value)
  }

  /** The first part that carries video metadata decides: its URI when it has a
      non-empty one, an error otherwise. Later parts are not consulted. */
  lemma {:induction false} FirstMetadataPartDecides(cs: seq<Candidate>, m: nat)
    requires cs != [] && m < |cs[0].parts|
    requires cs[0].parts[m].videoMetadata.Some?
    requires forall k :: 0 <= k < m ==> cs[0].parts[k].videoMetadata.None?
    ensures var uri := cs[0].parts[m].videoMetadata.value.videoUri;
            ExtractVideoUri(Some(cs)) == if Truthy(uri) then Ok(uri.value) else Err(NoVideoUriMessage)
  {
    FirstMetadataUri(cs[0].parts, m);
  }

  lemma {:induction false} FirstMetadataUri(parts: seq<ResponsePart>, m: nat)
    requires m < |parts| && parts[m].videoMetadata.Some?
    requires forall k :: 0 <= k < m ==> parts[k].videoMetadata.None?
    ensures |MetadataUris(parts)| > 0 && MetadataUris(parts)[0] == parts[m].videoMetadata.value.videoUri
  {
    NoMetadataCount(parts[..m]);
  }

  /** With no part carrying video metadata, extraction fails. */
  lemma {:induction false} NoMetadataNoUri(cs: seq<Candidate>)
    requires cs != [] && forall k :: 0 <= k < |cs[0].parts| ==> cs[0].parts[k].videoMetadata.None?
    ensures ExtractVideoUri(Some(cs)) == Err(NoVideoUriMessage)
  {
    NoMetadataParts(cs[0].parts);
  }

  lemma {:induction false} NoMetadataParts(parts: seq<ResponsePart>)
    requires forall k :: 0 <= k < |parts| ==> parts[k].videoMetadata.None?
    ensures MetadataUris(parts) == []
  {
    NoMetadataCount(parts);
  }

  lemma {:induction false} NoMetadataCount(parts: seq<ResponsePart>)
    requires forall k :: 0 <= k < |parts| ==> parts[k].videoMetadata.None?
    ensures MetadataCount(parts) == 0
  {
    if parts != [] {
      NoMetadataCount(parts[1..]);
    }
  }

  /** POST: returns the reply and the parts handed to `generateContent`, if
      the route got that far. */
  method Post(request: Request, answer: ModelAnswer) returns (reply: RouteReply, sent: Option<seq<Part>>)
    ensures request.Malformed? ==> reply == RouteReply(500, Error(request.message)) && sent == None
    ensures request.Body? && CheckInputs(request.body).Some? ==>
              reply == CheckInputs(request.body).value && sent == None
    ensures request.Body? && CheckInputs(request.body).None? ==>
              (sent.Some? <==> !answer.SetupFailed?)
              && (answer.SetupFailed? || answer.CallFailed? ==> reply == RouteReply(500, Error(answer.message)))
              && (answer.Returned? ==>
                    reply == match ExtractVideoUri(answer.candidates)
                             case Ok(url) => RouteReply(200, VideoUrl(url))
                             case Err(m) => RouteReply(500, Error(m)))
    ensures sent.Some? ==>
              request.Body? && request.body.prompt.Some?
              && VideoPartsFor(sent.value, request.body.prompt.value, request.body.aspectRatio, request.body.base64Image)
    ensures reply.status == 200 <==> reply.body.VideoUrl?
    ensures reply.status in {200, 400, 500}
    ensures reply.body.VideoUrl? ==> reply.body.url != ""
  {
    sent := None;
    match request
    case Malformed(m) =>
      reply := RouteReply(500, Error(m));
    case Body(body) =>
      var rejected := CheckInputs(body);
      if rejected.Some? {
        reply := rejected.value;
        return;
      }
      if answer.SetupFailed? {
        reply := RouteReply(500, Error(answer.message));
        return;
      }
      var videoParts := BuildVideoParts(body.prompt.value, body.aspectRatio, body.base64Image);
      sent := Some(videoParts);
      match answer
      case CallFailed(m) =>
        reply := RouteReply(500, Error(m));
      case Returned(candidates) =>
        match ExtractVideoUri(candidates)
        case Ok(url) => reply := RouteReply(200, VideoUrl(url));
        case Err(m) => reply := RouteReply(500, Error(m));
  }
}
