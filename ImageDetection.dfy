/**
 * The single-image detection hook (client/src/hooks/useImageDetection.ts):
 * the selected file, its preview, the last result, the loading flag and the
 * error message, plus the abort controller of the request in flight.
 *
 * `detect` is split at its `await`: `DetectStart` issues a request and
 * returns its token (one per `AbortController`), and `DetectComplete` is the
 * continuation that runs when that request settles. Tokens stand for
 * controllers; `aborted` holds those whose `abort()` has been called.
 */
module ImageDetection {
  import opened Types
  import Api

  const NotAnImage: string := "Please select an image file"
  const ImagePrefix: string := "image/"

  /** `file.type.startsWith("image/")`. */
  predicate IsImage(file: Api.File): (b: bool)
    ensures b <==> |file.mimeType| >= |ImagePrefix| && file.mimeType[..|ImagePrefix|] == ImagePrefix
  {
    ImagePrefix <= file.mimeType
  }

  /** The hook's test for a cancelled request: `err instanceof DetectionError && err.message === "Detection cancelled"`. */
  predicate IsCancellation(t: Api.Thrown): (b: bool)
    ensures b ==> ErrorText(t) == Api.Cancelled
    // a plain error never passes, whatever its message
    ensures t.PlainError? ==> !b
  {
    t.Raised? && t.error.message == Api.Cancelled
  }

  /** `err instanceof Error ? err.message : ...`: everything the API throws is an `Error`. */
  function ErrorText(t: Api.Thrown): (m: string)
    ensures t.Raised? ==> m == t.error.message
    ensures t.PlainError? ==> m == t.message
  {
    match t
    case Raised(e) => e.message
    case PlainError(_, m) => m
  }

  /**
   * As written, the hook reads a failure as a cancellation exactly when `fetch`
   * itself was aborted: an HTTP failure's message starts "Detection failed: ",
   * so it never passes for "Detection cancelled".
   */
  lemma CancellationOnlyOnFetchAbort(o: Api.FetchOutcome)
    ensures (Api.Settle(o).Threw? && IsCancellation(Api.Settle(o).thrown)) <==> o == Api.Rejected(Api.AbortError)
  {
    if o.Responded? && !o.ok {
      var m := Api.FailedPrefix + o.statusText;
      assert m[10] == 'f' && Api.Cancelled[10] == 'c';
    }
  }

  /**
   * As written, a request aborted while its body is being read is not seen as
   * cancelled: the abort escapes `detectImage`'s `catch` and the hook shows its
   * message as an error.
   */
  lemma BodyAbortReportedAsError(m: string)
    ensures var o := Api.Responded(true, 200, "OK", Api.ReadAborted(m));
      Api.Aborted(o) && Api.Settle(o) == Api.Threw(Api.PlainError("AbortError", m)) &&
      !IsCancellation(Api.Settle(o).thrown) && ErrorText(Api.Settle(o).thrown) == m
  {
  }

  /** With the body awaited, the hook sees a cancellation exactly when the request was aborted. */
  lemma AwaitedCancellationIffAborted(o: Api.FetchOutcome)
    ensures (Api.SettleAwaited(o).Threw? && IsCancellation(Api.SettleAwaited(o).thrown)) <==> Api.Aborted(o)
  {
    CancellationOnlyOnFetchAbort(o);
    if o.Responded? && o.ok && o.body.Unparseable? {
      assert Api.NetworkFailure[0] == 'N' && Api.Cancelled[0] == 'D';
    }
  }

  /** A request `DetectStart` issued: its token and what it sends. */
  datatype Issued = Issued(token: nat, request: Api.Request)

  function Tokens(c: Option<nat>): set<nat> {
    match c
    case None => {}
    case Some(t) => {t}
  }

  class ImageDetector {
    var selectedFile: Option<Api.File>
    var previewUrl: Option<string>
    var result: Option<DetectionResult>
    var isLoading: bool
    var error: Option<string>
    /** `abortControllerRef.current`. */
    var controller: Option<nat>
    /** Controllers whose `abort()` has been called. */
    var aborted: set<nat>
    /** Requests issued and not yet settled. */
    var inFlight: set<nat>
    /** Number of controllers created so far; the next token. */
    var issued: nat
    /** The results passed to `onDetection`, in order. */
    var notified: seq<DetectionResult>

    /** Every request in flight that has not been aborted is the one `abortControllerRef` holds. */
    ghost predicate Valid()
      reads this
    {
      (forall t :: t in inFlight ==> t < issued) &&
      (forall t :: t in aborted ==> t < issued) &&
      (controller.Some? ==> controller.value < issued) &&
      (forall t :: t in inFlight && t !in aborted ==> controller == Some(t))
    }

    /** Requests that are in flight and not aborted. */
    function Live(): set<nat>
      reads this
    {
      inFlight - aborted
    }

    /** At most one request is live, and it is the most recently issued one. */
    lemma LiveIsLatest()
      requires Valid()
      ensures Live() <= Tokens(controller)
      ensures |Live()| <= 1
    {
      assert Live() <= Tokens(controller);
      if controller.Some? && Live() != {} {
        assert Live() == {controller.value};
      }
    }

    constructor ()
      ensures Valid()
      ensures selectedFile.None? && previewUrl.None? && result.None? && !isLoading && error.None?
      ensures controller.None? && aborted == {} && inFlight == {} && issued == 0 && notified == []
    {
      selectedFile, previewUrl, result, isLoading, error := None, None, None, false, None;
      controller, aborted, inFlight, issued, notified := None, {}, {}, 0, [];
    }

    /** `abortControllerRef.current?.abort()`. */
    method AbortCurrent()
      requires Valid()
      modifies this`aborted
      ensures Valid()
      ensures aborted == old(aborted) + Tokens(controller)
      ensures Live() <= {}
    {
      aborted := aborted + Tokens(controller);
    }

    /** `handleFileSelect(file)`; `url` is what `URL.createObjectURL(file)` returns. */
    method HandleFileSelect(file: Api.File, url: string)
      requires Valid()
      modifies this
      ensures Valid()
      ensures !IsImage(file) ==>
        error == Some(NotAnImage) &&
        selectedFile == old(selectedFile) && previewUrl == old(previewUrl) && result == old(result) &&
        isLoading == old(isLoading) && aborted == old(aborted)
      ensures IsImage(file) ==>
        selectedFile == Some(file) && previewUrl == Some(url) && result.None? && error.None? &&
        isLoading == old(isLoading) && aborted == old(aborted) + Tokens(old(controller)) && Live() == {}
      ensures controller == old(controller) && inFlight == old(inFlight) && issued == old(issued)
      ensures notified == old(notified)
    {
      if !IsImage(file) {
        error := Some(NotAnImage);
        return;
      }
      AbortCurrent();
      selectedFile := Some(file);
      result := None;
      error := None;
      previewUrl := Some(url);
    }

    /** `clearImage()`. */
    method ClearImage()
      requires Valid()
      modifies this
      ensures Valid()
      ensures selectedFile.None? && previewUrl.None? && result.None? && error.None?
      ensures aborted == old(aborted) + Tokens(old(controller)) && Live() == {}
      ensures isLoading == old(isLoading) && controller == old(controller)
      ensures inFlight == old(inFlight) && issued == old(issued) && notified == old(notified)
    {
      AbortCurrent();
      selectedFile := None;
      previewUrl := None;
      result := None;
      error := None;
    }

    /**
     * The part of `detect(confidence)` before its `await`: nothing without a
     * selected file; otherwise abort the previous controller, install a fresh
     * one and send the file.
     */
    method DetectStart(confidence: real) returns (started: Option<Issued>)
      requires Valid()
      modifies this
      ensures Valid()
      ensures old(selectedFile).None? ==> started.None? && unchanged(this)
      ensures old(selectedFile).Some? ==>
        started == Some(Issued(old(issued), Api.ImageRequest(old(selectedFile).value, Some(confidence)))) &&
        issued == old(issued) + 1 && controller == Some(old(issued)) &&
        aborted == old(aborted) + Tokens(old(controller)) && inFlight == old(inFlight) + {old(issued)} &&
        Live() == {old(issued)} &&
        isLoading && error.None? &&
        selectedFile == old(selectedFile) && previewUrl == old(previewUrl) && result == old(result) &&
        notified == old(notified)
    {
      if selectedFile.None? {
        return None;
      }
      AbortCurrent();
      var token := issued;
      controller := Some(token);
      issued := issued + 1;
      inFlight := inFlight + {token};
      isLoading := true;
      error := None;
      started := Some(Issued(token, Api.ImageRequest(selectedFile.value, Some(confidence))));
    }

    /**
     * The continuation of `detect` when request `token` settles with `outcome`.
     * An aborted request's outcome is an abort, before or after its headers
     * arrived. The body is read as if awaited inside the `try` (see
     * Api.SettleAwaited).
     */
    method DetectComplete(token: nat, outcome: Api.FetchOutcome)
      requires Valid() && token in inFlight
      requires token in aborted ==> Api.Aborted(outcome)
      modifies this
      ensures Valid()
      ensures inFlight == old(inFlight) - {token} && !isLoading
      ensures selectedFile == old(selectedFile) && previewUrl == old(previewUrl)
      ensures controller == old(controller) && aborted == old(aborted) && issued == old(issued)
      ensures var s := Api.SettleAwaited(outcome);
        if s.Resolved? then
          result == Some(s.result) && notified == old(notified) + [s.result] && error == old(error)
        else if IsCancellation(s.thrown) then
          result == old(result) && notified == old(notified) && error == old(error)
        else
          result == old(result) && notified == old(notified) && error == Some(ErrorText(s.thrown))
      // a superseded or cleared request settles without touching result, error or the callback
      ensures old(controller) != Some(token) || token in old(aborted) ==>
        result == old(result) && error == old(error) && notified == old(notified)
    {
      var settled := Api.SettleAwaited(outcome);
      AwaitedCancellationIffAborted(outcome);
      match settled {
        case Resolved(r) =>
          result := Some(r);
          notified := notified + [r];
        case Threw(t) =>
          if !IsCancellation(t) {
            error := Some(ErrorText(t));
          }
      }
      isLoading := false;
      inFlight := inFlight - {token};
    }
  }

  /**
   * `isLoading` is cleared by the settling of a superseded request too, so it
   * reads false while the newer request is still in flight.
   */
  method SupersededRequestClearsLoading() returns (loading: bool, live: set<nat>)
    ensures !loading && live == {1}
  {
    var d := new ImageDetector();
    d.HandleFileSelect(Api.File("a.jpg", "image/jpeg", []), "blob:a");
    var first := d.DetectStart(0.5);
    var second := d.DetectStart(0.5);
    d.DetectComplete(0, Api.Rejected(Api.AbortError));
    loading, live := d.isLoading, d.Live();
  }
}
