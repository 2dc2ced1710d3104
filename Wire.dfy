/**
 * Where the client's requests meet the server's handlers: the confidence
 * the client sends is the one the server uses, and a webcam frame's data URL
 * reaches the detector as its bare base64 payload.
 */
module Wire {
  import opened Types
  import opened Text
  import Api
  import Router
  import Detector

  /** The header `canvas.toDataURL("image/jpeg", ...)` puts before the base64 payload. */
  const JpegDataUrlHeader: string := "data:image/jpeg;base64,"

  /** A confidence the client puts in `/detect`'s query string passes the server's bounds unchanged when it lies in them; the client's default is the server's. */
  lemma ImageConfidenceReachesServer(file: Api.File, c: Option<real>)
    ensures c.None? ==> Router.QueryConfidence(Api.ImageRequest(file, c).confidenceQuery) == Some(Router.DefaultConfidence)
    ensures c.Some? && Router.MinConfidence <= c.value <= Router.MaxConfidence ==>
      Router.QueryConfidence(Api.ImageRequest(file, c).confidenceQuery) == c
    ensures c.Some? && !(Router.MinConfidence <= c.value <= Router.MaxConfidence) ==>
      Router.QueryConfidence(Api.ImageRequest(file, c).confidenceQuery).None?
  {
  }

  /** The confidence the client puts in `/detect/base64`'s body is the server's threshold, whatever its value. */
  lemma Base64ConfidenceReachesServer(image: string, c: Option<real>)
    ensures Api.Base64Request(image, c).payload.JsonImage?
    ensures var p := Api.Base64Request(image, c).payload;
      Router.BodyConfidence(Some(p.confidence)) == Router.BodyConfidence(c)
  {
  }

  /** Text without a comma holds no "base64," marker. */
  lemma NoCommaNoMarker(p: string)
    requires !Contains(p, ",")
    ensures !Contains(p, Router.Base64Marker)
  {
    forall j | 0 <= j <= |p| ensures !OccursAt(p, Router.Base64Marker, j) {
      if OccursAt(p, Router.Base64Marker, j) {
        assert p[j + 6..j + 7] == [','];
        assert OccursAt(p, ",", j + 6);
      }
    }
  }

  /**
   * A webcam frame, a JPEG data URL whose payload has no comma (as base64 text
   * never has), reaches the detector as exactly its payload: the socket handler
   * forwards what follows "base64,", and the detector's header strip keeps it.
   */
  lemma FramePayloadReachesDetector(payload: string)
    requires !Contains(payload, ",")
    ensures Router.ForwardedPayload(JpegDataUrlHeader + payload) == payload
    ensures Detector.StripDataUrlHeader(Router.ForwardedPayload(JpegDataUrlHeader + payload)) == payload
  {
    var s := JpegDataUrlHeader + payload;
    var m := Router.Base64Marker;
    assert s[16..23] == m;
    assert OccursAt(s, m, 16);
    var head := JpegDataUrlHeader[..22];
    assert ',' !in head;
    forall j | 0 <= j < 16 ensures !OccursAt(s, m, j) {
      assert s[j + 6] == head[j + 6];
      assert m[6] == ',';
    }
    assert IndexOf(s, m) == 16;
    assert After(s, m) == payload;
    NoCommaNoMarker(payload);
  }
}
