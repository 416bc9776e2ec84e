/** The global output limit: `_ensure_output_capacity`, and what it
    guarantees where the orchestrator calls it before writing PDF and email
    outputs. */
module Capacity {
  import opened Wrappers
  import opened Batching

  /** `_ensure_output_capacity`: no outputs need no room; otherwise the
      outputs must fit in the slots `max_output_files - current` left. It
      fails exactly when some output is required and there are fewer free
      slots than required outputs. */
  function EnsureOutputCapacity(required: int, current: int, maxOutputs: int, context: string): (r: Result<()>)
    ensures r.Err? <==> required > 0 && current + required > maxOutputs
  {
    if required <= 0 then Ok(())
    else if required > maxOutputs - current then
      Err("Output file limit exceeded before processing " + context + ".")
    else Ok(())
  }

  /** Emails are checked against the exact number of planned batches, so
      once the check passes the batches written stay within the limit (or
      nothing is written at all). */
  lemma EmailOutputsWithinLimit<T>(cap: nat, blocks: seq<Item<T>>, current: int, maxOutputs: int, context: string)
    requires EnsureOutputCapacity(|Plan(cap, blocks)|, current, maxOutputs, context).Ok?
    ensures |blocks| == 0 || current + |Plan(cap, blocks)| <= maxOutputs
  {
    PlanLength(cap, blocks);
  }

  /** PDFs are checked against the size-only estimate, which never exceeds
      the batches the merge plans; so the check can pass while the merge
      writes more outputs than the limit allows. */
  lemma PdfEstimateNoLargerThanPlan<T>(cap: nat, files: seq<Item<T>>, current: int, maxOutputs: int, context: string)
    requires EnsureOutputCapacity(|Plan(cap, files)|, current, maxOutputs, context).Ok?
    ensures EnsureOutputCapacity(Estimate(cap, BytesOf(files)), current, maxOutputs, context).Ok?
  {
    EstimateAtMostPlan(cap, files);
  }

  /** Two small PDFs of 30000 words each pass the check with one slot left
      and are then written as two outputs. */
  lemma PdfOutputsMayExceedLimit<T>(x: T, y: T)
    ensures var files := [Item(x, 1, 30000), Item(y, 2, 30000)];
      && EnsureOutputCapacity(Estimate(1024, BytesOf(files)), 0, 1, "PDF files").Ok?
      && 0 + |Plan(1024, files)| > 1
  {
    EstimateMissesWordCap(x, y);
  }

  /** Where every size is known and positive and no file has words, the
      estimate is exact and the limit holds for PDFs too. */
  lemma PdfOutputsWithinLimitWithoutWords<T>(cap: nat, files: seq<Item<T>>, current: int, maxOutputs: int, context: string)
    requires forall i :: 0 <= i < |files| ==> files[i].bytes > 0 && files[i].words == 0
    requires EnsureOutputCapacity(Estimate(cap, BytesOf(files)), current, maxOutputs, context).Ok?
    ensures |files| == 0 || current + |Plan(cap, files)| <= maxOutputs
  {
    EstimateMatchesPlan(cap, files);
    PlanLength(cap, files);
  }
}
