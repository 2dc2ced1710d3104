/**
 * The values exchanged between the detection server and the browser client:
 * a detection result with its boxes, and the status of the streaming socket.
 */
module Types {

  datatype Option<+T> = None | Some(value: T)

  /** Pixel corners of a box, as the server serialises them (integers). */
  datatype BoundingBox = BoundingBox(x1: int, y1: int, x2: int, y2: int)

  /** One detected object; `className` is the JSON field `class`. */
  datatype Detection = Detection(bbox: BoundingBox, confidence: real, className: string, classId: int)

  /** The JSON body the server returns for one image: `{detections, count, has_person}`. */
  datatype DetectionResult = DetectionResult(detections: seq<Detection>, count: int, hasPerson: bool)

  /** The four statuses the streaming socket reports. */
  datatype ConnectionStatus = Connecting | Connected | Disconnected | Error

  /**
   * A result as the server builds it: `count` is the number of detections and
   * `has_person` says whether there is at least one.
   */
  predicate WellFormed(r: DetectionResult) {
    r.count == |r.detections| && (r.hasPerson <==> r.count > 0)
  }
}
