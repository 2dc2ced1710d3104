/**
 * The detection service of the server (server/services/detector.py): it runs
 * the inference model on an image and assembles the boxes the model reports
 * into a `DetectionResult`. Base64 decoding, image decoding and the model
 * itself are foreign code and enter as function parameters; `None` from any
 * of them stands for the exception the library raises.
 */
module Detector {
  import opened Types
  import opened Text

  /** One box as the model reports it: corners, score and class, all floats. */
  datatype RawBox = RawBox(x1: real, y1: real, x2: real, y2: real, conf: real, cls: real)

  /** One per-image result of the model; `boxes` is None when it carries no box tensor. */
  datatype InferenceResult = InferenceResult(boxes: Option<seq<RawBox>>)

  /** Decoded image bytes to model output at a confidence threshold (None: the image would not open). */
  type Infer = (seq<bv8>, real) -> Option<seq<InferenceResult>>

  /** Base64 text to bytes (None: the text is not valid base64). */
  type Decode64 = string -> Option<seq<bv8>>

  /** Default `conf_threshold` of `detect`, `detect_from_bytes` and `detect_from_base64`. */
  const DefaultThreshold: real := 0.5

  function Threshold(conf: Option<real>): real {
    match conf
    case Some(c) => c
    case None => DefaultThreshold
  }

  /** Python's `int(x)` on a float: truncation toward zero. */
  function Trunc(x: real): (n: int)
    ensures x >= 0.0 ==> n >= 0 && n as real <= x < n as real + 1.0
    ensures x < 0.0 ==> n <= 0 && n as real - 1.0 < x <= n as real
  {
    if x >= 0.0 then x.Floor else -((-x).Floor)
  }

  /**
   * The dictionary `detect` appends for one box: corners truncated toward zero,
   * the score as reported, the label "person" and the raw class.
   */
  function ToDetection(b: RawBox): (d: Detection)
    ensures d.className == "person" && d.confidence == b.conf && d.classId == Trunc(b.cls)
    ensures d.bbox == BoundingBox(Trunc(b.x1), Trunc(b.y1), Trunc(b.x2), Trunc(b.y2))
  {
    Detection(BoundingBox(Trunc(b.x1), Trunc(b.y1), Trunc(b.x2), Trunc(b.y2)),
              b.conf, "person", Trunc(b.cls))
  }

  function BoxesOf(r: InferenceResult): seq<RawBox> {
    match r.boxes
    case None => []
    case Some(bs) => bs
  }

  function Converted(boxes: seq<RawBox>): seq<Detection> {
    seq(|boxes|, k requires 0 <= k < |boxes| => ToDetection(boxes[k]))
  }

  /** The detections of a sequence of model results: result order, then box order. */
  function Collected(results: seq<InferenceResult>): seq<Detection>
    decreases |results|
  {
    if results == [] then []
    else Collected(results[..|results| - 1]) + Converted(BoxesOf(results[|results| - 1]))
  }

  /** Number of boxes the results report in all. */
  function BoxCount(results: seq<InferenceResult>): nat
    decreases |results|
  {
    if results == [] then 0
    else BoxCount(results[..|results| - 1]) + |BoxesOf(results[|results| - 1])|
  }

  /** The dictionary `detect` returns. */
  function Assembled(results: seq<InferenceResult>): (r: DetectionResult)
    ensures r.detections == Collected(results)
    ensures r.count == BoxCount(results)
    ensures r.hasPerson <==> BoxCount(results) > 0
  {
    CollectedLength(results);
    var ds := Collected(results);
    DetectionResult(ds, |ds|, |ds| > 0)
  }

  lemma {:induction false} CollectedAppend(a: seq<InferenceResult>, b: seq<InferenceResult>)
    ensures Collected(a + b) == Collected(a) + Collected(b)
    decreases |b|
  {
    if b == [] {
      assert a + b == a;
    } else {
      var n := |b| - 1;
      var ab := a + b;
      assert ab[..|ab| - 1] == a + b[..n];
      assert ab[|ab| - 1] == b[n];
      var last := Converted(BoxesOf(b[n]));
      assert Collected(ab) == Collected(a + b[..n]) + last;
      assert Collected(b) == Collected(b[..n]) + last;
      CollectedAppend(a, b[..n]);
    }
  }

  /** One detection per reported box; a result without boxes contributes none. */
  lemma {:induction false} CollectedLength(results: seq<InferenceResult>)
    ensures |Collected(results)| == BoxCount(results)
    decreases |results|
  {
    if results != [] {
      CollectedLength(results[..|results| - 1]);
    }
  }

  /**
   * Box `j` of result `i` becomes the detection at position
   * (boxes of the results before `i`) + `j`: detections follow result order,
   * then box order.
   */
  lemma CollectedAt(results: seq<InferenceResult>, i: nat, j: nat)
    requires i < |results| && j < |BoxesOf(results[i])|
    ensures BoxCount(results[..i]) + j < |Collected(results)|
    ensures Collected(results)[BoxCount(results[..i]) + j] == ToDetection(BoxesOf(results[i])[j])
  {
    var before, here, after := results[..i], [results[i]], results[i + 1..];
    assert results == before + here + after;
    CollectedAppend(before + here, after);
    CollectedAppend(before, here);
    assert here[..0] == [];
    assert Collected(here) == Converted(BoxesOf(results[i]));
    CollectedLength(before);
  }

  /** Every detection is labelled "person", whatever class the model reported. */
  lemma {:induction false} CollectedArePersons(results: seq<InferenceResult>)
    ensures forall d :: d in Collected(results) ==> d.className == "person"
    decreases |results|
  {
    if results != [] {
      CollectedArePersons(results[..|results| - 1]);
    }
  }

  /** `count` is the number of detections and `has_person` holds iff there is one. */
  lemma AssembledWellFormed(results: seq<InferenceResult>)
    ensures WellFormed(Assembled(results))
    ensures Assembled(results).hasPerson <==> BoxCount(results) > 0
  {
    CollectedLength(results);
  }

  /** `DetectorService.detect`: the nested loops that append one detection per box. */
  method Detect(results: seq<InferenceResult>) returns (r: DetectionResult)
    ensures r == Assembled(results)
    ensures r.count == |r.detections| == BoxCount(results)
    ensures r.hasPerson <==> r.count > 0
  {
    var detections: seq<Detection> := [];
    var i := 0;
    while i < |results|
      invariant 0 <= i <= |results|
      invariant detections == Collected(results[..i])
    {
      var boxes := results[i].boxes;
      if boxes.Some? {
        var j := 0;
        while j < |boxes.value|
          invariant 0 <= j <= |boxes.value|
          invariant detections == Collected(results[..i]) + Converted(boxes.value[..j])
        {
          assert Converted(boxes.value[..j + 1]) == Converted(boxes.value[..j]) + [ToDetection(boxes.value[j])];
          detections := detections + [ToDetection(boxes.value[j])];
          j := j + 1;
        }
        assert boxes.value[..j] == BoxesOf(results[i]);
      }
      assert results[..i + 1][..i] == results[..i];
      i := i + 1;
    }
    assert results[..i] == results;
    CollectedLength(results);
    r := DetectionResult(detections, |detections|, |detections| > 0);
  }

  /**
   * `detect_from_base64`'s header strip: when the text has a comma, Python's
   * `s.split(",")[1]` keeps the text between the first comma and the next one
   * (or the end); otherwise the text is kept whole.
   */
  function StripDataUrlHeader(s: string): (r: string)
    ensures Contains(s, ",") ==> r == Before(After(s, ","), ",") && !Contains(r, ",")
    ensures !Contains(s, ",") ==> r == s
  {
    if Contains(s, ",") then SecondPiece(s, ",") else s
  }

  /** `detect_from_bytes`: open the image and run `detect` on the model's output; the method twin of `FromBytes`. */
  method DetectFromBytes(image: seq<bv8>, conf: Option<real>, infer: Infer)
      returns (r: Option<DetectionResult>)
    ensures r == FromBytes(image, Threshold(conf), infer)
  {
    var results := infer(image, Threshold(conf));
    if results.None? {
      return None;
    }
    var d := Detect(results.value);
    return Some(d);
  }

  /** `detect_from_base64`: strip a data-URL header, decode, then `detect_from_bytes`; the method twin of `FromBase64`. */
  method DetectFromBase64(text: string, conf: Option<real>, decode: Decode64, infer: Infer)
      returns (r: Option<DetectionResult>)
    ensures r == FromBase64(text, Threshold(conf), decode, infer)
  {
    var bytes := decode(StripDataUrlHeader(text));
    if bytes.None? {
      return None;
    }
    r := DetectFromBytes(bytes.value, conf, infer);
  }

  /** What `detect_from_bytes` returns, or None when it raises. */
  function FromBytes(image: seq<bv8>, conf: real, infer: Infer): (r: Option<DetectionResult>)
    ensures r.None? <==> infer(image, conf).None?
    ensures r.Some? ==> WellFormed(r.value) && r.value.detections == Collected(infer(image, conf).value)
  {
    match infer(image, conf)
    case None => None
    case Some(results) =>
      AssembledWellFormed(results);
      Some(Assembled(results))
  }

  /** What `detect_from_base64` returns, or None when it raises. */
  function FromBase64(text: string, conf: real, decode: Decode64, infer: Infer): (r: Option<DetectionResult>)
    ensures r.Some? ==> WellFormed(r.value)
  {
    match decode(StripDataUrlHeader(text))
    case None => None
    case Some(bytes) => FromBytes(bytes, conf, infer)
  }
}
