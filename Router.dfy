/**
 * The detection endpoints of the server (server/routers/detection.py): the two
 * REST handlers and the WebSocket loop that answers one detection per frame.
 * Request parsing by the web framework is taken as done: a handler receives
 * the fields it reads, with `None` for a field the client left out.
 */
module Router {
  import opened Types
  import opened Text
  import Detector

  /** Default confidence of every endpoint. */
  const DefaultConfidence: real := 0.5
  /** Bounds `/detect` enforces on its `confidence` query parameter. */
  const MinConfidence: real := 0.1
  const MaxConfidence: real := 1.0

  const NoImageProvided: string := "No image provided"
  const Base64Marker: string := "base64,"

  /** What a REST handler answers. */
  datatype HttpReply =
    | Json(result: DetectionResult)
    | ValidationError   // 422: a parameter failed the framework's validation
    | InternalError     // 500: the detector raised

  function ReplyOf(o: Option<DetectionResult>): HttpReply {
    match o
    case None => InternalError
    case Some(r) => Json(r)
  }

  /** `/detect`'s `confidence: float = Query(0.5, ge=0.1, le=1.0)`. */
  function QueryConfidence(q: Option<real>): (r: Option<real>)
    ensures q.None? ==> r == Some(DefaultConfidence)
    ensures q.Some? ==> (r.Some? <==> MinConfidence <= q.value <= MaxConfidence)
    ensures r.Some? ==> MinConfidence <= r.value <= MaxConfidence
    ensures q.Some? && r.Some? ==> r.value == q.value
  {
    match q
    case None => Some(DefaultConfidence)
    case Some(c) => if MinConfidence <= c <= MaxConfidence then Some(c) else None
  }

  /** `POST /detect`: an uploaded image file and an optional confidence. */
  method DetectImage(file: seq<bv8>, confidence: Option<real>, infer: Detector.Infer)
      returns (reply: HttpReply)
    ensures reply.ValidationError? <==> QueryConfidence(confidence).None?
    ensures QueryConfidence(confidence).Some? ==>
      reply == ReplyOf(Detector.FromBytes(file, QueryConfidence(confidence).value, infer))
  {
    var c := QueryConfidence(confidence);
    if c.None? {
      return ValidationError;
    }
    var r := Detector.DetectFromBytes(file, c, infer);
    reply := ReplyOf(r);
  }

  /** The JSON body of `POST /detect/base64`. */
  datatype DetectionRequest = DetectionRequest(image: string, confidence: Option<real>)

  /** `confidence: Optional[float] = 0.5`: a default, and no range check. */
  function BodyConfidence(c: Option<real>): (r: real)
    ensures c.Some? ==> r == c.value
    ensures c.None? ==> r == DefaultConfidence
  {
    match c
    case None => DefaultConfidence
    case Some(v) => v
  }

  /** `POST /detect/base64`. */
  method DetectBase64(body: DetectionRequest, decode: Detector.Decode64, infer: Detector.Infer)
      returns (reply: HttpReply)
    ensures reply == ReplyOf(Detector.FromBase64(body.image, BodyConfidence(body.confidence), decode, infer))
    ensures !reply.ValidationError?
  {
    var r := Detector.DetectFromBase64(body.image, Some(BodyConfidence(body.confidence)), decode, infer);
    reply := ReplyOf(r);
  }

  /**
   * One event the WebSocket loop receives. A `Message` is a JSON object; its
   * `image` is None when the key is absent or its value is falsy (`null`, `0`,
   * `false`, `[]`, `{}`), which `if not image_b64` treats like "". `Garbled` is
   * text that is not a JSON object, or a truthy `image` that is not a string:
   * both raise inside the loop.
   */
  datatype Inbound =
    | Message(image: Option<string>, confidence: Option<real>)
    | Garbled
    | Disconnect   // the client went away

  /** One JSON message the server sends back. */
  datatype Outbound = ErrorReply(error: string) | ResultReply(result: DetectionResult)

  /** How the loop has ended, if it has. */
  datatype SessionEnd =
    | Listening            // still waiting for the next message
    | ClientDisconnected   // `WebSocketDisconnect`: the loop ends, the socket is not closed
    | ClosedOnError        // any other exception: the loop ends and the server closes the socket

  datatype StepOutcome = Reply(reply: Outbound) | Stop(end: SessionEnd)

  /** `message.get("confidence", 0.5)`. */
  function SocketConfidence(c: Option<real>): (r: real)
    ensures c.None? ==> r == DefaultConfidence
    ensures c.Some? ==> r == c.value
  {
    match c
    case None => DefaultConfidence
    case Some(v) => v
  }

  /**
   * The text forwarded to `detect_from_base64`: when it contains "base64,",
   * Python's `split("base64,")[1]`, that is, the text after the first marker
   * up to a second one.
   */
  function ForwardedPayload(image: string): (r: string)
    ensures Contains(image, Base64Marker) ==>
      r == Before(After(image, Base64Marker), Base64Marker) && !Contains(r, Base64Marker)
    ensures !Contains(image, Base64Marker) ==> r == image
  {
    if Contains(image, Base64Marker) then SecondPiece(image, Base64Marker) else image
  }

  /** What one pass of the `while True` body does with one event. */
  function Step(e: Inbound, decode: Detector.Decode64, infer: Detector.Infer): (o: StepOutcome)
    ensures e.Message? && (e.image.None? || e.image.value == []) ==> o == Reply(ErrorReply(NoImageProvided))
    ensures o.Reply? && o.reply.ResultReply? ==> WellFormed(o.reply.result)
    ensures e.Disconnect? <==> o == Stop(ClientDisconnected)
    ensures e.Garbled? ==> o == Stop(ClosedOnError)
    // a non-empty image is answered with the detector's result on the forwarded
    // payload, and a detector failure closes the socket
    ensures e.Message? && e.image.Some? && e.image.value != [] ==>
      var d := Detector.FromBase64(ForwardedPayload(e.image.value), SocketConfidence(e.confidence), decode, infer);
      (d.None? ==> o == Stop(ClosedOnError)) && (d.Some? ==> o == Reply(ResultReply(d.value)))
  {
    match e
    case Disconnect => Stop(ClientDisconnected)
    case Garbled => Stop(ClosedOnError)
    case Message(image, confidence) =>
      var text := match image case None => "" case Some(t) => t;
      if text == [] then Reply(ErrorReply(NoImageProvided))
      else
        match Detector.FromBase64(ForwardedPayload(text), SocketConfidence(confidence), decode, infer)
        case None => Stop(ClosedOnError)
        case Some(r) => Reply(ResultReply(r))
  }

  /** The replies a sequence of events draws, and how the loop stands afterwards. */
  function Serve(events: seq<Inbound>, decode: Detector.Decode64, infer: Detector.Infer): (r: (seq<Outbound>, SessionEnd))
    // at most one reply per event, and every event answered while listening
    ensures |r.0| <= |events|
    ensures r.1 == Listening ==> |r.0| == |events|
    decreases |events|
  {
    if events == [] then ([], Listening)
    else
      match Step(events[0], decode, infer)
      case Stop(end) => ([], end)
      case Reply(o) =>
        var rest := Serve(events[1..], decode, infer);
        ([o] + rest.0, rest.1)
  }

  /**
   * While every event draws a reply, the loop answers each one exactly once, in
   * message order, and keeps listening.
   */
  lemma {:induction false} ServeAnswersEach(events: seq<Inbound>, decode: Detector.Decode64, infer: Detector.Infer)
    requires forall k :: 0 <= k < |events| ==> Step(events[k], decode, infer).Reply?
    ensures |Serve(events, decode, infer).0| == |events|
    ensures forall k :: 0 <= k < |events| ==> Serve(events, decode, infer).0[k] == Step(events[k], decode, infer).reply
    ensures Serve(events, decode, infer).1 == Listening
    decreases |events|
  {
    if events != [] {
      ServeAnswersEach(events[1..], decode, infer);
      var rest := Serve(events[1..], decode, infer).0;
      forall k | 0 < k < |events| ensures Serve(events, decode, infer).0[k] == Step(events[k], decode, infer).reply {
        assert events[1..][k - 1] == events[k];
      }
    }
  }

  /**
   * The first event that stops the loop ends it: the replies are those of the
   * events before it, and nothing after it is read.
   */
  lemma {:induction false} ServeStopsAt(events: seq<Inbound>, k: nat, decode: Detector.Decode64, infer: Detector.Infer)
    requires k < |events|
    requires forall j :: 0 <= j < k ==> Step(events[j], decode, infer).Reply?
    requires Step(events[k], decode, infer).Stop?
    ensures Serve(events, decode, infer) == (Serve(events[..k], decode, infer).0, Step(events[k], decode, infer).end)
    ensures |Serve(events, decode, infer).0| == k
    decreases k
  {
    if k == 0 {
    } else {
      ServeStopsAt(events[1..], k - 1, decode, infer);
      assert events[..k][1..] == events[1..][..k - 1];
      ServeAnswersEach(events[..k], decode, infer);
    }
  }

  /** The loop body for one event, as statements: the method twin of `Step`. */
  method HandleEvent(e: Inbound, decode: Detector.Decode64, infer: Detector.Infer) returns (o: StepOutcome)
    ensures o == Step(e, decode, infer)
  {
    match e
    case Disconnect =>
      o := Stop(ClientDisconnected);
    case Garbled =>
      o := Stop(ClosedOnError);
    case Message(image, confidence) =>
      var text := match image case None => "" case Some(t) => t;
      if text == [] {
        o := Reply(ErrorReply(NoImageProvided));
      } else {
        var r := Detector.DetectFromBase64(ForwardedPayload(text), Some(SocketConfidence(confidence)), decode, infer);
        o := if r.None? then Stop(ClosedOnError) else Reply(ResultReply(r.value));
      }
  }

  lemma ServeUnfold(events: seq<Inbound>, i: nat, decode: Detector.Decode64, infer: Detector.Infer)
    requires i < |events|
    ensures Step(events[i], decode, infer).Stop? ==>
      Serve(events[i..], decode, infer) == ([], Step(events[i], decode, infer).end)
    ensures Step(events[i], decode, infer).Reply? ==>
      Serve(events[i..], decode, infer) ==
        ([Step(events[i], decode, infer).reply] + Serve(events[i + 1..], decode, infer).0,
         Serve(events[i + 1..], decode, infer).1)
  {
    assert events[i..][0] == events[i] && events[i..][1..] == events[i + 1..];
  }

  /** One turn of the loop: what is still to come after event `i` once its outcome `o` is known. */
  lemma ServeAdvance(events: seq<Inbound>, i: nat, replies: seq<Outbound>, total: (seq<Outbound>, SessionEnd),
                     o: StepOutcome, decode: Detector.Decode64, infer: Detector.Infer)
    requires i < |events| && o == Step(events[i], decode, infer)
    requires total.0 == replies + Serve(events[i..], decode, infer).0
    requires total.1 == Serve(events[i..], decode, infer).1
    ensures o.Stop? ==> total == (replies, o.end)
    ensures o.Reply? ==>
      total.0 == (replies + [o.reply]) + Serve(events[i + 1..], decode, infer).0 &&
      total.1 == Serve(events[i + 1..], decode, infer).1
  {
    ServeUnfold(events, i, decode, infer);
    if o.Stop? {
      assert replies + [] == replies;
    } else {
      var later := Serve(events[i + 1..], decode, infer);
      assert replies + ([o.reply] + later.0) == (replies + [o.reply]) + later.0;
    }
  }

  /** `websocket_detect`: the receive/reply loop over the events of one connection. */
  method WebSocketDetect(events: seq<Inbound>, decode: Detector.Decode64, infer: Detector.Infer)
      returns (replies: seq<Outbound>, end: SessionEnd)
    ensures (replies, end) == Serve(events, decode, infer)
  {
    ghost var total := Serve(events, decode, infer);
    replies := [];
    var i := 0;
    assert events[i..] == events;
    assert replies + total.0 == total.0;
    while i < |events|
      invariant 0 <= i <= |events|
      invariant total.0 == replies + Serve(events[i..], decode, infer).0
      invariant total.1 == Serve(events[i..], decode, infer).1
    {
      var o := HandleEvent(events[i], decode, infer);
      ServeAdvance(events, i, replies, total, o, decode, infer);
      if o.Stop? {
        return replies, o.end;
      }
      replies := replies + [o.reply];
      i := i + 1;
    }
    assert events[i..] == [];
    assert replies + [] == replies;
    end := Listening;
  }
}
