/**
 * The page's running total of people detected (client/src/app/page.tsx):
 * `handleDetection` is the callback both detectors report their results to.
 */
module HomePage {
  import opened Types
  import Detector

  /** What one result adds to the total: its count, but only when it has a person. */
  function Added(r: DetectionResult): (a: int)
    ensures !r.hasPerson ==> a == 0
    ensures WellFormed(r) ==> a == |r.detections|
  {
    if r.hasPerson then r.count else 0
  }

  /** The total after a sequence of results, starting from 0. */
  function Total(rs: seq<DetectionResult>): int
    decreases |rs|
  {
    if rs == [] then 0 else Total(rs[..|rs| - 1]) + Added(rs[|rs| - 1])
  }

  /** The number of detections in a sequence of results. */
  function DetectionsIn(rs: seq<DetectionResult>): nat
    decreases |rs|
  {
    if rs == [] then 0 else DetectionsIn(rs[..|rs| - 1]) + |rs[|rs| - 1].detections|
  }

  predicate AllWellFormed(rs: seq<DetectionResult>) {
    forall k :: 0 <= k < |rs| ==> WellFormed(rs[k])
  }

  /** For a well-formed result, what it adds is the number of its detections. */
  lemma AddedIsDetections(r: DetectionResult)
    requires WellFormed(r)
    ensures Added(r) == |r.detections| && Added(r) >= 0
  {
  }

  /** Over well-formed results, the total is the number of people detected in them all. */
  lemma {:induction false} TotalCountsDetections(rs: seq<DetectionResult>)
    requires AllWellFormed(rs)
    ensures Total(rs) == DetectionsIn(rs)
    decreases |rs|
  {
    if rs != [] {
      var init := rs[..|rs| - 1];
      assert AllWellFormed(init) by {
        forall k | 0 <= k < |init| ensures WellFormed(init[k]) {
          assert init[k] == rs[k];
        }
      }
      TotalCountsDetections(init);
      AddedIsDetections(rs[|rs| - 1]);
    }
  }

  /** Over well-formed results the total never decreases: each prefix's total is at most the next one's. */
  lemma {:induction false} TotalNeverDecreases(rs: seq<DetectionResult>, i: nat, j: nat)
    requires AllWellFormed(rs) && i <= j <= |rs|
    ensures Total(rs[..i]) <= Total(rs[..j])
    decreases j - i
  {
    if i < j {
      TotalNeverDecreases(rs, i, j - 1);
      assert rs[..j][..j - 1] == rs[..j - 1];
      AddedIsDetections(rs[j - 1]);
    }
  }

  /** A result the server assembled adds one to the total for every box the model reported. */
  lemma ServerResultAdds(results: seq<Detector.InferenceResult>)
    ensures Added(Detector.Assembled(results)) == Detector.BoxCount(results)
  {
    Detector.AssembledWellFormed(results);
    Detector.CollectedLength(results);
  }

  class Page {
    var totalDetections: int
    /** The results reported so far, in order. */
    ghost var reported: seq<DetectionResult>

    ghost predicate Valid()
      reads this
    {
      totalDetections == Total(reported)
    }

    /** `useState(0)`. */
    constructor ()
      ensures Valid() && totalDetections == 0 && reported == []
    {
      totalDetections := 0;
      reported := [];
    }

    /** `handleDetection(result)`. */
    method HandleDetection(r: DetectionResult)
      requires Valid()
      modifies this
      ensures Valid() && reported == old(reported) + [r]
      ensures totalDetections == old(totalDetections) + (if r.hasPerson then r.count else 0)
    {
      assert (reported + [r])[..|reported|] == reported;
      if r.hasPerson {
        totalDetections := totalDetections + r.count;
      }
      reported := reported + [r];
    }
  }
}
