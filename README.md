# AI video studio: page handlers and API routes in Dafny

This project models a Next.js application that turns a story into a video. It
has three parts:

- **The page** (`app/page.tsx`). The user asks a language model to split a
  story into scenes. They tick scenes and combine the ticked ones into one
  numbered prompt. They can append style words to that prompt. Then they ask
  the server to generate a video, and the page polls a status route until the
  video is ready, fails, or 30 attempts have passed.
- **The generation route** (`app/api/video-olustur/route.ts`). It checks the
  request's API key and prompt and cleans an optional base64 image. It builds
  the list of parts it hands to the video model. It turns the model's answer
  into a `videoUrl` or an error.
- **The poll route** (`app/api/poll-video/route.ts`). It checks its two inputs,
  fetches the operation's status upstream, and maps the answer to a reply.

Modules:

- `Js` (`js.dfy`) models the JavaScript built-ins the handlers rely on:
  truthiness of optional strings, `a || b`, `trim`, `split` on one character,
  `join`, `slice(0, n)`, the decimal rendering of a number, and the numeric
  `sort` of the selection. It also has a first-occurrence search, which the
  proof that a status URL can be read back uses.
- `Page` (`page.dfy`) keeps the page's React state as one record,
  `PageState`. Each handler is a function from the old state to the new one.
  `handleGenerateVideo` and the status-polling loop are methods. The polling
  loop keeps its `while` loop, proved against the specification function
  `Settle`.
- `VideoRoute` (`video_route.dfy`) models the generation route's POST. It is a
  method because it builds `videoParts` by successive pushes.
- `PollRoute` (`poll_route.dfy`) models the poll route's GET as a function.
- `Wiring` (`wiring.dfy`) connects the page to the routes: what the
  generation route receives from the page, and how the page reads each
  route's reply.

The network, the clock and the SDK are inputs. What a `fetch` or the video
model answered is a parameter, reduced to the fields the code reads. The
polling loop takes `replies: nat -> PollReply`, where `replies(k)` is the
answer to the k-th status request.

The page and the routes do not agree with each other, as the code stands:

- The page posts only `{ prompt }`. The generation route rejects any body
  without `apiKey` (`Wiring.PageRequestIsRejected`).
- A successful generation reply carries `videoUrl`, but the page looks for
  `operationName`. So no reply of the generation route lets the page start
  polling (`Wiring.SuccessLacksOperationName`, `Wiring.PageNeverPolls`).

The model states this behaviour; it does not correct it.

## Model

| member | source | states |
|---|---|---|
| Js.TrimStart | app/page.tsx:198 | the result is a suffix of the input, only white space was dropped in front of it, and it does not start with white space |
| Js.TrimEnd | app/page.tsx:198 | the result is a prefix of the input, only white space was dropped after it, and it does not end with white space |
| Js.Trim | app/page.tsx:198 | the trimmed text neither starts nor ends with white space |
| Js.TrimExactly | app/page.tsx:198 | the result of `trim` is fixed by where the white space ends on either side |
| Js.TrimIdempotent | app/page.tsx:198 | trimming twice is trimming once |
| Js.TrimAfterBlank | app/page.tsx:198 | white space put in front of a text does not change what `trim` leaves |
| Js.Split | app/api/video-olustur/route.ts:17 | `split(',')` gives at least one field, and no field contains the separator |
| Js.JoinSplit | app/api/video-olustur/route.ts:17 | joining the fields of a split with the same separator gives the text back |
| Js.SplitAtFirst | app/api/video-olustur/route.ts:17 | the first field ends at the first separator; the remaining fields are the split of what follows it |
| Js.Join | app/page.tsx:189 | an empty list joins to the empty text; otherwise the text starts with the first part, followed by the separator when there is more than one part |
| Js.JoinAppend | app/page.tsx:187-189 | joining one more part adds the separator and that part |
| Js.Prefix | app/page.tsx:130 | `slice(0, 300)` keeps the first 300 characters, or the whole text when it is shorter |
| Js.Decimal | app/page.tsx:188 | a number renders as a non-empty string of digits without a leading zero |
| Js.DecimalRoundTrip | app/page.tsx:188 | reading the rendered digits back gives the number |
| Js.DecimalInjective | app/page.tsx:188 | different numbers render differently, so scene numbers are unambiguous |
| Js.SortAscending | app/page.tsx:179 | the numeric sort yields an ascending arrangement of the same multiset of indices |
| Js.AscendingUnique | app/page.tsx:179 | two ascending arrangements of the same multiset are equal, so the sorted order is fully determined |
| Page.Without | app/page.tsx:162-163 | `filter(i => i !== index)` removes every occurrence and keeps the rest in order and with their counts |
| Page.ToggleIndex | app/page.tsx:160-168 | an absent index is appended at the end; a present one is removed and nothing else changes; membership of the index flips and no other index's membership changes |
| Page.ToggleKeepsDistinct | app/page.tsx:160-168 | toggling never duplicates an index |
| Page.ToggleTwiceRestores | app/page.tsx:160-168 | ticking and then unticking a box restores the selection |
| Page.ToggleKeepsSelectionValid | app/page.tsx:160-168 | toggling a shown scene keeps every selected index in range and distinct |
| Page.SubsequenceDistinct | app/page.tsx:162-163 | dropping entries from a duplicate-free selection leaves one that is still duplicate-free |
| Page.SelectAllScenes | app/page.tsx:170-172 | the selection becomes 0, 1, ..., n-1 for the n shown scenes, and nothing else changes |
| Page.SelectAllIsValid | app/page.tsx:170-172 | selecting all gives a valid, ascending selection |
| Page.DeselectAllScenes | app/page.tsx:174-176 | the selection becomes empty, and nothing else changes |
| Page.ScenesAt | app/page.tsx:180 | the scenes chosen are, position by position, the scenes at the sorted indices |
| Page.Segment | app/page.tsx:188 | a segment starts with `Sahne `, then the scene's number in decimal, and ends with the scene's prompt |
| Page.Numbered | app/page.tsx:187-188 | one segment per chosen scene, the k-th numbered k+1 |
| Page.CombinedPrompt | app/page.tsx:187-189 | no scenes give the empty text; otherwise the text opens with the first scene's segment, numbered 1 |
| Page.CombineScenes | app/page.tsx:178-193 | only the main prompt and the error change; an empty selection sets the "select at least one scene" error; an index past the last scene leaves the state as it was; otherwise the error is cleared |
| Page.CombineInAscendingOrder | app/page.tsx:178-193 | the main prompt becomes the selected scenes in ascending index order, numbered from 1, each as `Sahne k (d s): prompt`, separated by blank lines |
| Page.CombineIgnoresClickOrder | app/page.tsx:178-193 | the order in which boxes were ticked does not change the combination |
| Page.CombineAllScenes | app/page.tsx:170-193 | after selecting all, the combination is every scene in page order |
| Page.CombineAfterDeselectAll | app/page.tsx:174-193 | after deselecting all, combining keeps the prompt and reports the missing selection |
| Page.CombinedPromptSingle | app/page.tsx:187-189 | a single scene gives one segment numbered 1 and no separator |
| Page.CombinedPromptAppend | app/page.tsx:187-189 | one more scene adds a blank line and the next numbered segment |
| Page.AddStyle | app/page.tsx:197-199 | the new prompt neither starts nor ends with white space |
| Page.AddStyleToBlank | app/page.tsx:197-199 | on an empty or blank prompt, the result is the trimmed style alone |
| Page.AddStyleAppends | app/page.tsx:197-199 | a trimmed, non-empty prompt gets the trimmed style after exactly one space |
| Page.SceneOutcome | app/page.tsx:109-145 | the reply yields scenes exactly when it is OK, parsed, has candidate text, and that text is a JSON array; the scenes are that array |
| Page.GenerateScenes | app/page.tsx:80-154 | a missing key or a missing story sets that message and sends nothing; otherwise it sends one request to the Gemini endpoint with the key, clears the selection, ends not loading, and holds either the returned scenes with no error, or no scenes with the error prefixed by the failure text |
| Page.GenerateScenesKeepsSelectionValid | app/page.tsx:80-154 | whatever the reply, the selection stays valid |
| Page.SubmitOutcome | app/page.tsx:243-276 | the page gets an operation name exactly when the reply is OK, JSON, and carries a non-empty `operationName`; any other answer from the server gives a non-empty error message |
| Page.Settle | app/page.tsx:294-317 | how the loop ends: it never makes more than 30 requests, and a time-out comes only after all 30 |
| Page.PollVideoStatus | app/page.tsx:291-318 | makes as many requests as `Settle` counts, all to the poll route with the operation name; the new state and the escaped error are those of the verdict |
| Page.SettleBounds | app/page.tsx:291-297 | the loop makes at least one and at most 30 requests |
| Page.TimedOutIffAllPending | app/page.tsx:291-318 | the loop times out exactly when all 30 replies are "not done", and it has then made 30 requests |
| Page.StopsAtFirstAnswer | app/page.tsx:302-313 | the loop stops at the first reply that is done or throws, and ends as that reply says |
| Page.RepeatedPendingTimesOut | app/page.tsx:291-318 | the same "not done" reply over and over times out after 30 requests |
| Page.VideoFailure | app/page.tsx:283-284 | the error shown is the fixed prefix, the thrown message, and a full stop, so the message can be read back |
| Page.GenerateVideo | app/page.tsx:226-288 | a missing key or prompt sets that message and sends nothing; otherwise it posts the prompt; a failed submission sets the wrapped error; a successful one polls the poll route with the operation name from the submission reply, as many times as the verdict says, and sets the URL, "no video", timeout, or wrapped error; loading ends on every path past the early returns |
| VideoRoute.CleanBase64 | app/api/video-olustur/route.ts:14-18 | null exactly for a missing or empty input; otherwise a non-empty text that is the input itself or contains no comma |
| VideoRoute.CleanBase64BetweenCommas | app/api/video-olustur/route.ts:14-18 | the result is the text between the first and the second comma, or the input when that text is empty |
| VideoRoute.CleanBase64WithoutComma | app/api/video-olustur/route.ts:14-18 | a text with no comma comes back unchanged |
| VideoRoute.CleanBase64OfDataUrl | app/api/video-olustur/route.ts:14-18 | a data URL loses its header and keeps its payload |
| VideoRoute.CleanBase64Idempotent | app/api/video-olustur/route.ts:14-18 | cleaning twice is cleaning once |
| VideoRoute.CheckInputs | app/api/video-olustur/route.ts:28-33 | 400 with "API anahtarı eksik" for a missing key, then 400 with "Prompt metni eksik" for a missing prompt, and passes exactly when both are present |
| VideoRoute.BuildVideoParts | app/api/video-olustur/route.ts:46-64 | three parts with a cleaned image, two without; the image part comes first as `image/png` with the cleaned data; then the prompt text and the aspect ratio, defaulting to 16:9 |
| VideoRoute.MetadataUris | app/api/video-olustur/route.ts:83-85 | one entry per part that carries video metadata, in order: the part preceded by c others with metadata gives entry c, its `videoUri` |
| VideoRoute.ExtractVideoUri | app/api/video-olustur/route.ts:83-89 | a URI it returns is never empty |
| VideoRoute.FirstMetadataPartDecides | app/api/video-olustur/route.ts:83-89 | the first part carrying video metadata decides: its non-empty URI, or the "no video URI" error; later parts are not consulted |
| VideoRoute.FirstMetadataUri | app/api/video-olustur/route.ts:83-85 | the first mapped URI comes from the first part that carries metadata |
| VideoRoute.NoMetadataNoUri | app/api/video-olustur/route.ts:83-89 | with no part carrying video metadata, the route reports that no URI came back |
| VideoRoute.NoMetadataParts | app/api/video-olustur/route.ts:83-85 | with no part carrying metadata, the filtered list is empty |
| VideoRoute.Post | app/api/video-olustur/route.ts:21-100 | a malformed body or a thrown error gives 500 with its message; failed checks give their 400 reply; the parts are sent exactly when the client was set up, and they are the cleaned image (if any), the prompt and the aspect ratio, as `BuildVideoParts` builds them; 200 exactly with a non-empty video URL; every status is 200, 400 or 500 |
| PollRoute.StatusUrl | app/api/poll-video/route.ts:17-19 | the URL is the v1 base, then the operation name, then `?key=` and the key, all pasted in unescaped |
| PollRoute.StatusUrlRoundTrip | app/api/poll-video/route.ts:17-19 | an operation name without '?' and the key can be read back from the status URL |
| PollRoute.StatusUrlNotEscaped | app/api/poll-video/route.ts:17-19 | the name is not escaped: a '?' in it makes two different inputs fetch the same URL |
| PollRoute.Get | app/api/poll-video/route.ts:4-47 | fetches exactly when both inputs are present, otherwise 400; upstream failure keeps the upstream status and forwards the upstream's JSON error body as `details`, or `{}` when that body is not JSON; a done operation gives 200 with its URI or null; a pending one gives 200 with its metadata; a thrown error gives 500 with its message |
| PollRoute.FinishedUrlNonEmpty | app/api/poll-video/route.ts:32-35 | a finished reply never carries an empty URL, since `|| null` turns it into null |
| Wiring.RouteBodyOf | app/page.tsx:243-250 | the route receives only the prompt: no key, no aspect ratio, no image |
| Wiring.PageReadsVideoReply | app/page.tsx:252-273 | the page sees the route's status and its error, and never an operation name |
| Wiring.PageRequestIsRejected | app/api/video-olustur/route.ts:28-30 | every request the page posts is refused with 400 for the missing key, and the page reports that message |
| Wiring.SuccessLacksOperationName | app/page.tsx:270-276 | a successful generation reply makes the page report "OperationName alınamadı." |
| Wiring.PageNeverPolls | app/page.tsx:270-279 | no generation reply lets the page reach its polling loop |
| Wiring.PageReadsPollReply | app/page.tsx:300-303 | the loop sees `done` only in a finished poll reply, with that reply's URL |
| Wiring.PollWithoutServerKeyTimesOut | app/api/poll-video/route.ts:7-14 | without the server key, every poll is rejected and the page's loop times out after 30 requests |
| Wiring.PollStopsAtFirstFinished | app/api/poll-video/route.ts:30-35 | the loop ends at the first finished upstream operation, with its URI or "no video"; poll errors only make it wait |

## Left out

- Rendering, JSX, drag and drop, file reading (`handleFileChange`, `handleImageUpload`, `handleDrop`, `handleDragOver`): these are UI and browser I/O, not handler logic.
- `handleUsePrompt`: it only copies a prompt into the main prompt.
- `fileContent`, `totalDuration`, `aspectRatio` and `base64Image` on the page: they feed only the scene prompt template and the UI, and the page does not send them to the route. The scene prompt template, the system instruction and the response schema are text, and they are left out.
- The sleep of 2 seconds between polls, `fetch`, `process.env` and `console.error`: sleeps and logging have no effect on state; replies and the environment are parameters.
- JSON parsing and `JSON.stringify`: a parsed body is reduced to the fields read, and a serialized body is a parameter.
- Number rendering of `duration_seconds`: a scene's duration is kept as its rendered text, since JavaScript's float formatting is out of scope.
- `slice(0, 300)` counts UTF-16 code units. `Js.Prefix` counts characters, which agree for text in the Basic Multilingual Plane.
- Wiring.LoopReplies: the page puts the operation name into the query string without encoding it, and the route reads it back with `searchParams.get`, which decodes it. The model hands the page's name to the route unchanged, so it does not capture that names containing `&`, `#`, `+` or `%` arrive altered or cut short.
- The SDK calls `new GoogleGenAI`, `getGenerativeModel` and `generateContent`, and their safety settings: their outcome is the input `ModelAnswer`.
- React's asynchronous batching of state updates: each handler's updates are applied in program order. Two handlers running at the same time are not modelled.
- Page.CombineScenes: an index past the last scene makes the handler throw a TypeError inside the event handler. The model says only that the state stays as it was, not what is logged.
- Js.SortAscending: the result of the library sort is modelled as a value, by its contract. The algorithm itself is not modelled.
- Page.PollVideoStatus: a failing `fetch` or `res.json()` is modelled as a reply carrying the thrown message. The model does not distinguish which of them threw.
