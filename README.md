# Human detection: a Dafny model of the client and server core

The system detects people in images. A Python server runs a YOLOv8 model
on an uploaded image, a base64 image, or a stream of webcam frames received
over a WebSocket. It answers with `{detections, count, has_person}`. A
React client uploads single images, streams webcam frames, and keeps a
running total of the people detected.

This project models the parts of both sides whose behaviour can be stated:

- `Types.dfy`: the shared records `DetectionResult`, `Detection`,
  `BoundingBox` and `ConnectionStatus`.
- `Text.dfy`: Python's `str.split(sep)` and the pieces of it the server
  uses, with its join round trip.
- `Detector.dfy`: the server's detector service. It assembles model output
  into a result and strips a data-URL header. The model, image decoding and
  base64 decoding are function parameters.
- `Router.dfy`: the server's REST handlers and the WebSocket loop. The loop
  turns a sequence of inbound events into a sequence of replies.
- `Api.dfy`: the client's REST calls. It covers the requests they build and
  how `fetch` outcomes become results or `DetectionError`s.
- `ImageDetection.dfy`: the single-image hook, as a class. `detect` is
  split at its `await` into `DetectStart` and `DetectComplete`.
- `WebcamDetection.dfy`: the webcam hook, as a class. It covers the frame
  throttle, the fps counter, and start and stop.
- `HomePage.dfy`: the page's running total of detections.
- `Wire.dfy`: where client and server meet. It covers confidence defaults
  and bounds, and how a webcam frame's data URL reaches the detector.

Time is whole milliseconds, passed as an argument. Confidence values and
model coordinates are `real`, with no floating-point rounding.

Four behaviours of the code a reader might not expect:

- `stopStream` keeps `fps` and `frameCount`. Only the one-second timer
  resets them.
- `startStream` does not stop an existing session. The `WebcamDetector`
  component offers Start only while not streaming, so `StartStream` requires
  `!isStreaming`.
- A camera failure is only logged. The connection status does not change.
- If the video will not play, the new camera stream stays attached and Start
  is offered again. The next start attaches a second stream in place of the
  first without stopping its tracks, and `stopStream` stops only the second.
  The first camera stream keeps running.

## Model

| member | source | states |
|---|---|---|
| Text.SplitOn | server/services/detector.py:95 | Python's `str.split(sep)`, leftmost and non-overlapping: at least one piece, and a single piece is the whole string |
| Text.IndexOf | server/services/detector.py:94-95 | the position of the first occurrence of a separator the text contains: it occurs there and nowhere earlier |
| Text.JoinSplitOn | server/services/detector.py:95 | joining the pieces of `split(sep)` with `sep` gives back the original text |
| Text.SplitOnFirst | server/services/detector.py:95 | `split` cuts at the first occurrence: the first piece is the text before it, and the rest is the split of the text after it |
| Text.SplitOnHead | server/services/detector.py:95 | piece 0 is the text before the first separator, or the whole text when there is none |
| Text.Before | server/routers/detection.py:88 | a prefix of the text without the separator. When the separator occurs, the prefix's length is the index of its first occurrence and the separator follows it; otherwise it is the whole text |
| Text.After | server/routers/detection.py:88 | the text is the part before the first separator, the separator, then this part |
| Text.SecondPiece | server/services/detector.py:95 | `split(sep)[1]` is the text between the first separator and the next one (or the end), and holds no separator |
| Detector.Trunc | server/services/detector.py:69-72 | Python `int()` on a float truncates toward zero: within 1 of the input, never farther from zero |
| Detector.ToDetection | server/services/detector.py:63-77 | the dictionary for one box: each corner is the reported coordinate truncated toward zero (`int()`), the score as reported, the label "person" and the truncated raw class |
| Detector.Assembled | server/services/detector.py:79-83 | the returned dictionary: the collected detections, `count` the number of boxes, `has_person` iff there is a box |
| Detector.CollectedAppend | server/services/detector.py:59-62 | the detections of two runs of results are those of the first followed by those of the second |
| Detector.CollectedLength | server/services/detector.py:58-62 | one detection per reported box; a result without boxes contributes none |
| Detector.CollectedAt | server/services/detector.py:59-77 | box j of result i becomes the detection at position (boxes before i) + j: result order, then box order, with truncated corners and the raw class id |
| Detector.CollectedArePersons | server/services/detector.py:75 | every detection is labelled "person", whatever its class |
| Detector.AssembledWellFormed | server/services/detector.py:79-83 | `count` is the number of detections, and `has_person` holds iff the model reported a box |
| Detector.Detect | server/services/detector.py:44-83 | the nested loops build exactly the assembled result; `count` equals the number of detections and the number of boxes; `has_person` iff `count > 0` |
| Detector.StripDataUrlHeader | server/services/detector.py:93-95 | with a comma, the text between the first comma and the next (or the end), holding no comma; without one, the text unchanged |
| Detector.FromBytes | server/services/detector.py:85-88 | fails exactly when the image cannot be opened; otherwise a well-formed result whose detections are the model's boxes in order |
| Detector.FromBase64 | server/services/detector.py:90-98 | any result it returns is well formed |
| Detector.DetectFromBytes | server/services/detector.py:85-88 | returns what `FromBytes` specifies, at threshold 0.5 when none is given |
| Detector.DetectFromBase64 | server/services/detector.py:90-98 | returns what `FromBase64` specifies, at threshold 0.5 when none is given |
| Router.QueryConfidence | server/routers/detection.py:28 | absent means 0.5; a given value is accepted unchanged exactly when it lies in [0.1, 1.0]; anything accepted lies in that range |
| Router.DetectImage | server/routers/detection.py:24-45 | a validation error exactly when the confidence is out of range; otherwise the detector's result, or a server error when it raises |
| Router.BodyConfidence | server/routers/detection.py:18-21 | absent means 0.5; a given value is used as is, with no range check |
| Router.DetectBase64 | server/routers/detection.py:48-58 | for a parsed body, no range check can reject it: the detector's result on the body's image and confidence |
| Router.ForwardedPayload | server/routers/detection.py:86-88 | with "base64,", the text after its first occurrence up to any second one; otherwise the image unchanged |
| Router.SocketConfidence | server/routers/detection.py:80 | absent means 0.5; a given value is used as is |
| Router.Step | server/routers/detection.py:75-100 | a missing or falsy image draws "No image provided". A non-empty image is answered with the detector's result on the forwarded payload at the message's confidence (0.5 when absent), and every result reply is well formed. A detector failure or a garbled message closes the socket. A disconnect, and only a disconnect, ends the loop without closing |
| Router.Serve | server/routers/detection.py:72-100 | the `while True` loop over a connection's events: at most one reply per event, and one for every event while it keeps listening |
| Router.ServeAnswersEach | server/routers/detection.py:72-94 | while every message draws a reply, there is exactly one reply per message, in message order, and the loop keeps listening |
| Router.ServeStopsAt | server/routers/detection.py:96-100 | the first event that stops the loop ends it: the replies are those of the earlier messages, and later events are never read |
| Router.HandleEvent | server/routers/detection.py:75-94 | one pass of the loop body does what `Step` specifies |
| Router.WebSocketDetect | server/routers/detection.py:62-100 | the loop's replies and how it ends are exactly those `Serve` specifies |
| Api.ImageRequest | client/src/lib/api.ts:16-32 | the file goes in the form and the confidence in the query string, 0.5 by default |
| Api.Base64Request | client/src/lib/api.ts:57-73 | no query string; image and confidence (0.5 by default) go in the JSON body |
| Api.Settle | client/src/lib/api.ts:24-54 | resolves exactly for an OK response whose body parses, with that body. A status code is attached exactly for a non-OK response: "Detection failed: " + status text, rethrown unwrapped. A `fetch` rejection becomes "Detection cancelled" for an abort and "Network error during detection" otherwise, with no status and the original error as cause |
| Api.SettleAwaited | client/src/lib/api.ts:41 | with the body awaited inside the `try`, every failure is a `DetectionError`, it resolves exactly as before, and it agrees with `Settle` except on body failures |
| ImageDetection.IsImage | client/src/hooks/useImageDetection.ts:17 | `startsWith("image/")`: the MIME type begins with "image/" |
| ImageDetection.IsCancellation | client/src/hooks/useImageDetection.ts:76-79 | only a `DetectionError` passes, and its message is "Detection cancelled"; a plain error never passes |
| ImageDetection.ErrorText | client/src/hooks/useImageDetection.ts:82 | the message shown is the thrown error's own message |
| ImageDetection.CancellationOnlyOnFetchAbort | client/src/hooks/useImageDetection.ts:75-82 | as written, the hook's cancellation test passes exactly when `fetch` itself was aborted; an HTTP failure never passes for a cancellation |
| ImageDetection.BodyAbortReportedAsError | client/src/lib/api.ts:41-48 | as written, an abort while the body is read escapes the `catch`, is not seen as a cancellation, and its message is shown as the error |
| ImageDetection.AwaitedCancellationIffAborted | client/src/hooks/useImageDetection.ts:75-82 | with the body awaited, the hook sees a cancellation exactly when the request was aborted |
| ImageDetection.ImageDetector.LiveIsLatest | client/src/hooks/useImageDetection.ts:61-62 | at most one request is in flight and not aborted, and it is the one the controller ref holds |
| ImageDetection.ImageDetector.constructor | client/src/hooks/useImageDetection.ts:7-14 | no file, preview, result or error; not loading; no controller |
| ImageDetection.ImageDetector.AbortCurrent | client/src/hooks/useImageDetection.ts:22 | the current controller is aborted; afterwards no request is live |
| ImageDetection.ImageDetector.HandleFileSelect | client/src/hooks/useImageDetection.ts:16-30 | a non-image only sets "Please select an image file"; an image aborts the live request, is stored with its preview, and clears result and error |
| ImageDetection.ImageDetector.ClearImage | client/src/hooks/useImageDetection.ts:32-39 | aborts the live request and clears file, preview, result and error |
| ImageDetection.ImageDetector.DetectStart | client/src/hooks/useImageDetection.ts:57-72 | no file: nothing changes. Otherwise the previous controller is aborted, a fresh one is installed, the new request is the only live one, loading is set and the error cleared |
| ImageDetection.ImageDetector.DetectComplete | client/src/hooks/useImageDetection.ts:67-85 | success stores the result and notifies once; a cancellation changes neither result nor error; any other failure sets the error message; loading is cleared in every case; a superseded or cleared request changes neither result, error nor notifications |
| ImageDetection.SupersededRequestClearsLoading | client/src/hooks/useImageDetection.ts:83-85 | when a superseded request settles, loading reads false while the newer request is still live |
| WebcamDetection.SpacedSnoc | client/src/hooks/useWebcamDetection.ts:54-57 | a tick more than 66 ms after the last counted one keeps counted ticks spaced |
| WebcamDetection.SpacedGap | client/src/hooks/useWebcamDetection.ts:54-57 | k steps along counted ticks cover at least 67·k ms |
| WebcamDetection.FifteenPerSecond | client/src/hooks/useWebcamDetection.ts:54-57 | two counted ticks at most 1000 ms apart are fewer than 15 positions apart |
| WebcamDetection.AtMostFifteenInWindow | client/src/lib/constants.ts:2-3 | with whole-millisecond times, at most 15 counted ticks fall in any window of 1000 ms |
| WebcamDetection.WebcamSession.constructor | client/src/hooks/useWebcamDetection.ts:17-29 | not streaming, disconnected, no result, zero counters, confidence 0.5, no tick counted yet, no camera stream acquired, stopped or orphaned |
| WebcamDetection.WebcamSession.SetConfidence | client/src/hooks/useWebcamDetection.ts:31-33 | the confidence cell holds the new value |
| WebcamDetection.WebcamSession.Tick | client/src/hooks/useWebcamDetection.ts:46-73 | counted iff streaming, connected and more than 66 ms since the last counted tick. A counted tick records the time and bumps the count; otherwise nothing changes. A frame with the current confidence is sent only on a counted tick with a sized video. Counted ticks stay spaced |
| WebcamDetection.WebcamSession.OnSecond | client/src/hooks/useWebcamDetection.ts:35-41 | `fps` takes the count and the count resets, streaming or not. With whole-millisecond times, `fps` is at most 15 when at most 1000 ms passed since the last reset. The reset time is now |
| WebcamDetection.WebcamSession.OnResult | client/src/hooks/useWebcamDetection.ts:97-100 | the latest result replaces the previous one, and the callback receives it exactly once |
| WebcamDetection.WebcamSession.OnStatusChange | client/src/hooks/useWebcamDetection.ts:101 | the connection status is the one reported |
| WebcamDetection.WebcamSession.StartStream | client/src/hooks/useWebcamDetection.ts:84-110 | camera denied: nothing changes. Otherwise a new camera stream is attached in place of the previous one, whose tracks are not stopped, so a previously attached stream becomes orphaned. On a play failure no socket is opened and streaming stays off; on success one new socket is opened and streaming is on |
| WebcamDetection.WebcamSession.StopStream | client/src/hooks/useWebcamDetection.ts:112-125 | the attached camera stream, if any, is the one whose tracks are stopped, and it is detached; no orphaned stream is stopped. The socket is disconnected and dropped. Streaming is off, there is no result and the status is disconnected; confidence and counters are kept. A second call changes nothing |
| WebcamDetection.NextFrameCarriesLatestConfidence | client/src/hooks/useWebcamDetection.ts:31-33 | last write wins: after setting a confidence, the next frame sent carries it |
| WebcamDetection.TickAfterTimerScenario | client/src/hooks/useWebcamDetection.ts:35-58 | a tick after the fps timer fires is still counted, and a second without frames reports 0 |
| WebcamDetection.PlayFailureLeaksStream | client/src/hooks/useWebcamDetection.ts:84-125 | a play failure, a successful start and a stop leave stream 0 running and unattached; only stream 1 is stopped |
| WebcamDetection.ResultSequenceScenario | client/src/hooks/useWebcamDetection.ts:97-100 | after three empty results and one with a person, the latest result is the last payload and the callback fired four times |
| HomePage.Added | client/src/app/page.tsx:32-33 | a result without a person adds nothing; a well-formed result adds its number of detections |
| HomePage.AddedIsDetections | client/src/app/page.tsx:31-35 | a well-formed result adds exactly its number of detections, never a negative amount |
| HomePage.TotalCountsDetections | client/src/app/page.tsx:29-35 | over well-formed results, the total is the number of detections in them all |
| HomePage.TotalNeverDecreases | client/src/app/page.tsx:33 | over well-formed results, the total never decreases |
| HomePage.ServerResultAdds | client/src/app/page.tsx:32-33 | a result the server assembled adds one per box the model reported |
| HomePage.Page.constructor | client/src/app/page.tsx:29 | the total starts at 0 |
| HomePage.Page.HandleDetection | client/src/app/page.tsx:31-35 | a result without a person leaves the total unchanged; one with a person adds its count; the total stays that of all results reported |
| Wire.ImageConfidenceReachesServer | client/src/lib/api.ts:26 | `/detect` receives the client's default 0.5, or the client's value when it is in [0.1, 1.0]; any other value is rejected |
| Wire.Base64ConfidenceReachesServer | client/src/lib/api.ts:68-71 | `/detect/base64` uses the confidence the client sent, or 0.5 when none was given |
| Wire.FramePayloadReachesDetector | server/routers/detection.py:86-91 | a JPEG data URL whose payload has no comma reaches the decoder as exactly its payload |

## Left out

- The socket class `DetectionWebSocket` is not part of this model: its reconnection, backoff and `WS_CONFIG` are not modelled. The socket is an opaque handle with a connected flag, `send` and `disconnect`.
- `detectBase64` has no caller in the client. Only the request it builds and how it settles are modelled.
- YOLO inference, PIL image decoding and `base64.b64decode` are parameters. `None` stands for the exception they raise.
- Floating point: `round(conf, 3)`, JPEG quality, fractional `performance.now()` and slider steps are not modelled. Confidence is exact `real`. Times are whole milliseconds. With fractional times, gaps just over 66 ms (66.2 ms, say) fit 16 counted ticks in 1000 ms, so the bound of 15 holds only for whole-millisecond times.
- Browser and transport APIs are not modelled: `getUserMedia`, canvas drawing and `toDataURL`, `requestAnimationFrame` and `setInterval` scheduling, `fetch` and `FormData`, object URLs, FastAPI routing and validation, CORS, and server start-up.
- Async interleaving is not modelled: each callback is one atomic step.
- Presentation components and the page's JSX are not modelled.
- Router.Step: an `image` that is absent or falsy (`null`, `0`, `false`, `[]`, `{}`) is `Message(None, _)`, answered with "No image provided" while the loop continues. Text that is not a JSON object, or a truthy `image` that is not a string, is one `Garbled` event that closes the socket. An explicit JSON `null` or non-numeric confidence is not modelled.
- Router.DetectImage: the framework's parsing of the upload is taken as done, and only the confidence bound can fail validation.
- Router.DetectBase64: the framework's parsing of the body is taken as done. A body without `image`, or with a non-numeric `confidence`, draws a 422 that is not modelled.
- Router.BodyConfidence: an explicit `"confidence": null` reaches the model as `None`. This is not modelled; the body's confidence is either absent or a number.
- Detector.FromBase64: its contract says only that results are well formed. Its detections are those of `FromBytes` on the decoded bytes, by its definition.
- ImageDetection.ImageDetector.DetectComplete requires that an aborted request settles as an abort. It does not model a response that finished before `abort()` was called but settled after it.
- ImageDetection.ImageDetector.DetectComplete reads the body as if awaited, which is the corrected behaviour in the finding below. The drawing of the result onto the canvas is not modelled.
- WebcamDetection.WebcamSession.Tick requires time never to run backwards (`now` at least the latest time seen). It models `performance.now()` as whole milliseconds, and a video element and canvas that are always present.
- WebcamDetection.WebcamSession.StartStream requires `!isStreaming`, as the `WebcamDetector` component only offers Start then. A play failure leaves the stream attached, as the code does, and the next start orphans it.
- The unmount cleanups of both hooks are not modelled separately. They call `stopStream` and abort the current controller, which `StopStream` and `AbortCurrent` model.

## Findings

| source | as written | input that shows it | evidently intended | confidence | as-written member | corrected member |
|---|---|---|---|---|---|---|
| client/src/lib/api.ts:41 | `return response.json()` inside the `try` is not awaited, so a failure while reading the body bypasses the `catch` (the same at line 82) | a 200 response whose headers arrive, after which the user selects another image during the body read: the abort's `DOMException` reaches the hook unwrapped and its message is shown as an error instead of being ignored as a cancellation | `return await response.json()`, so body failures are classified like `fetch` failures | not executed | ImageDetection.BodyAbortReportedAsError | ImageDetection.AwaitedCancellationIffAborted |
