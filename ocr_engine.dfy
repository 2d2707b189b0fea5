/**
 * The bookkeeping of the recognition loop (js/ocr-engine.js): a busy flag
 * that refuses overlapping runs, a worker that is set up once, one result per
 * region in region order with a fixed text for a region that fails, the page
 * segmentation mode each region asks for, and the upscale factor applied to a
 * region before recognition. The recognizer itself is an oracle: each call
 * receives the outcome of setting up the worker and of each region.
 */
module OcrEngine {
  import opened Wrappers
  import opened Text
  import JsRuntime
  import opened RegionSelector

  /** One recognised region, as handed to the result table. */
  datatype OcrResult = OcrResult(regionId: string, regionLabel: string, text: string)

  /**
   * What the recognizer does for one region: sets the mode and recognises
   * `text`, sets the mode and then fails to recognise, or fails to set the
   * mode, which abandons the whole run.
   */
  datatype Outcome = Recognized(text: string) | RecognizeFailed | ConfigureFailed

  const FailureText: string := "[인식 실패]"
  const DefaultPsm: int := 6
  /** The target height, in pixels, that the upscale factor aims for. */
  const TargetHeight: nat := 300

  /** `parseInt(region.psm) || 6`: a missing, non-numeric or zero mode becomes 6. */
  function PsmOf(psm: Option<string>): (n: int)
    ensures n != 0
    ensures psm == None ==> n == DefaultPsm
    ensures psm.Some? && ParseInt(psm.value).Some? && ParseInt(psm.value).value != 0 ==>
      n == ParseInt(psm.value).value
    ensures psm.Some? && (ParseInt(psm.value) == None || ParseInt(psm.value) == Some(0)) ==>
      n == DefaultPsm
  {
    if psm == None then DefaultPsm
    else match ParseInt(psm.value)
      case Some(v) => if v != 0 then v else DefaultPsm
      case None => DefaultPsm
  }

  /** A mode written as decimal text is the mode used, unless it is 0. */
  lemma PsmOfDecimal(n: nat)
    ensures PsmOf(Some(NatToString(n))) == if n == 0 then DefaultPsm else n
  {
    ParseIntNatToString(n);
  }

  /** The text of one region's result. */
  function ResultText(o: Outcome): string
    requires !o.ConfigureFailed?
  {
    if o.Recognized? then Strip(o.text) else FailureText
  }

  predicate Abandoned(outcomes: seq<Outcome>) {
    exists i :: 0 <= i < |outcomes| && outcomes[i].ConfigureFailed?
  }

  /** The results of a run whose worker is ready: none if any region cannot be configured. */
  function Results(regions: seq<Region>, outcomes: seq<Outcome>): (r: Option<seq<OcrResult>>)
    requires |outcomes| == |regions|
    ensures r.Some? <==> !Abandoned(outcomes)
    ensures r.Some? ==>
      && |r.value| == |regions|
      && forall i :: 0 <= i < |regions| ==>
           && r.value[i].regionId == regions[i].id
           && r.value[i].regionLabel == regions[i].caption
           && r.value[i].text == ResultText(outcomes[i])
  {
    if Abandoned(outcomes) then None
    else Some(seq(|regions|, i requires 0 <= i < |regions| && !outcomes[i].ConfigureFailed? =>
      OcrResult(regions[i].id, regions[i].caption, ResultText(outcomes[i]))))
  }

  /** A failed region is reported with the fixed text; a recognised one never has surrounding spaces. */
  lemma ResultTextFacts(o: Outcome)
    requires !o.ConfigureFailed?
    ensures o.RecognizeFailed? ==> ResultText(o) == FailureText
    ensures o.Recognized? ==> ResultText(o) == [] || (!IsSpace(ResultText(o)[0]) && !IsSpace(ResultText(o)[|ResultText(o)| - 1]))
    ensures o.Recognized? ==> NonSpace(ResultText(o)) == NonSpace(o.text)
  {
  }

  /** `Math.max(1, Math.ceil(300 / height))` for a region `height` pixels high; `None` for `Infinity` at height 0. */
  function Scale(height: nat): (s: Option<nat>)
    ensures s.None? <==> height == 0
    ensures s.Some? ==> s.value >= 1
  {
    if height == 0 then None
    else
      var up := (TargetHeight + height - 1) / height;
      Some(if up < 1 then 1 else up)
  }

  /**
   * The scale never shrinks a region, brings a region of at most 300 pixels to
   * at least 300, and is the smallest factor that does: one step less falls short.
   */
  lemma ScaleBounds(height: nat)
    requires height > 0
    ensures var s := Scale(height).value;
      && height * s >= height
      && (height <= TargetHeight ==> height * s >= TargetHeight && height * (s - 1) < TargetHeight)
      && (height >= TargetHeight ==> s == 1)
  {
    var s := Scale(height).value;
    var up := (TargetHeight + height - 1) / height;
    assert height * up <= TargetHeight + height - 1 < height * (up + 1) by {
      DivBounds(TargetHeight + height - 1, height);
    }
  }

  lemma DivBounds(a: nat, b: nat)
    requires b > 0
    ensures b * (a / b) <= a < b * (a / b + 1)
  {
  }

  /**
   * The pixel rectangle of a region in an image of `nw` by `nh` pixels:
   * each normalised coordinate times the image size, rounded.
   */
  function SourceRect(r: Region, nw: nat, nh: nat): (int, int, int, int) {
    (JsRuntime.Round(r.nx * nw as real), JsRuntime.Round(r.ny * nh as real),
     JsRuntime.Round(r.nw * nw as real), JsRuntime.Round(r.nh * nh as real))
  }

  /** Rounding is off by at most half a pixel on each coordinate. */
  lemma SourceRectClose(r: Region, nw: nat, nh: nat)
    ensures var (left, top, width, height) := SourceRect(r, nw, nh);
      && -0.5 <= r.nx * nw as real - left as real < 0.5
      && -0.5 <= r.ny * nh as real - top as real < 0.5
      && -0.5 <= r.nw * nw as real - width as real < 0.5
      && -0.5 <= r.nh * nh as real - height as real < 0.5
  {
  }

  /** The per-region loop of `recognizeImage`, once the worker is ready. */
  method RecognizeAll(regions: seq<Region>, outcomes: seq<Outcome>) returns (r: Option<seq<OcrResult>>)
    requires |outcomes| == |regions|
    ensures r == Results(regions, outcomes)
  {
    var results: seq<OcrResult> := [];
    var i := 0;
    while i < |regions|
      invariant 0 <= i <= |regions|
      invariant !Abandoned(outcomes[..i])
      invariant |results| == i
      invariant forall k :: 0 <= k < i ==>
        results[k] == OcrResult(regions[k].id, regions[k].caption, ResultText(outcomes[k]))
    {
      if outcomes[i].ConfigureFailed? {
        assert Abandoned(outcomes) by {
          assert outcomes[i].ConfigureFailed?;
        }
        return None;
      }
      results := results + [OcrResult(regions[i].id, regions[i].caption, ResultText(outcomes[i]))];
      i := i + 1;
      assert forall k :: 0 <= k < i ==> outcomes[..i][k] == outcomes[k];
    }
    assert outcomes[..i] == outcomes;
    assert results == Results(regions, outcomes).value;
    r := Some(results);
  }

  class Engine {
    var hasWorker: bool
    var isInitialized: bool
    var isProcessing: bool
    /** How many workers have been created: set-up work done so far. */
    var workersCreated: nat

    /** The worker is only marked ready once it exists. */
    predicate Valid()
      reads this
    {
      isInitialized ==> hasWorker
    }

    constructor ()
      ensures Valid()
      ensures !hasWorker && !isInitialized && !isProcessing && workersCreated == 0
    {
      hasWorker, isInitialized, isProcessing := false, false, false;
      workersCreated := 0;
    }

    /**
     * `initWorker`: nothing to do once a worker is set up; otherwise a worker
     * is created (`created`) and configured (`configured`), either of which
     * can fail.
     */
    method InitWorker(created: bool, configured: bool) returns (ok: bool)
      requires Valid()
      modifies this
      ensures Valid()
      ensures isProcessing == old(isProcessing)
      ensures old(hasWorker && isInitialized) ==>
        ok && hasWorker && isInitialized && workersCreated == old(workersCreated)
      ensures !old(hasWorker && isInitialized) ==>
        && ok == (created && configured)
        && (created ==> hasWorker && workersCreated == old(workersCreated) + 1)
        && (!created ==> hasWorker == old(hasWorker) && workersCreated == old(workersCreated))
        && isInitialized == (created && configured)
    {
      if hasWorker && isInitialized {
        return true;
      }
      if !created {
        return false;
      }
      hasWorker := true;
      workersCreated := workersCreated + 1;
      if !configured {
        return false;
      }
      isInitialized := true;
      ok := true;
    }

    /**
     * `recognizeImage`: refuses while a run is in progress and when there are
     * no regions; otherwise sets up the worker and recognises each region in
     * order. The busy flag is down again however the run ends.
     */
    method RecognizeImage(regions: seq<Region>, created: bool, configured: bool, outcomes: seq<Outcome>)
      returns (r: Option<seq<OcrResult>>)
      requires Valid()
      requires |outcomes| == |regions|
      modifies this
      ensures Valid()
      ensures old(isProcessing) ==>
        r == None && isProcessing && hasWorker == old(hasWorker)
        && isInitialized == old(isInitialized) && workersCreated == old(workersCreated)
      ensures !old(isProcessing) && regions == [] ==>
        r == None && !isProcessing && hasWorker == old(hasWorker)
        && isInitialized == old(isInitialized) && workersCreated == old(workersCreated)
      ensures !old(isProcessing) && regions != [] ==>
        && !isProcessing
        && workersCreated <= old(workersCreated) + 1
        && (old(hasWorker && isInitialized) ==>
              hasWorker && isInitialized && workersCreated == old(workersCreated))
        && (!old(hasWorker && isInitialized) ==>
              && isInitialized == (created && configured)
              && (created ==> hasWorker && workersCreated == old(workersCreated) + 1)
              && (!created ==> hasWorker == old(hasWorker) && workersCreated == old(workersCreated)))
        && r == (if isInitialized then Results(regions, outcomes) else None)
    {
      if isProcessing {
        return None;
      }
      if |regions| == 0 {
        return None;
      }
      isProcessing := true;
      var ready := InitWorker(created, configured);
      if !ready {
        isProcessing := false;
        return None;
      }
      r := RecognizeAll(regions, outcomes);
      isProcessing := false;
    }

    method GetIsProcessing() returns (busy: bool)
      ensures busy == isProcessing
    {
      busy := isProcessing;
    }
  }
}
