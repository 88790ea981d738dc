/**
 * GET /api/verify/progress?jobId=… (app/api/verify/progress/route.ts): a
 * job's status, counters and current batch snapshot.
 */
module ProgressRoute {
  import opened Wrappers
  import opened Types
  import opened JobStore
  import opened Http

  /** The handler; `query` is the `jobId` search parameter, None when absent. */
  function Progress(store: Store, query: Option<string>): (r: Response)
    ensures r.status == 200 <==> query.Some? && query.value != "" && query.value in store
    ensures query.None? || query == Some("") ==> r == Fail(InvalidJobId)
    ensures query.Some? && query.value != "" && query.value !in store ==> r == Fail(JobNotFound)
    ensures r.status == 200 ==>
      var job := store[query.value];
      r.body == ProgressReport(job.jobId, job.status, job.totalEmails, job.processedCount, job.statusCounts, job.currentBatch)
  {
    if query.None? || query.value == "" then Fail(InvalidJobId)
    else
      match GetJob(store, query.value)
      case None => Fail(JobNotFound)
      case Some(job) =>
        Response(200, ProgressReport(job.jobId, job.status, job.totalEmails, job.processedCount, job.statusCounts, job.currentBatch))
  }

  /**
   * In a store that keeps the invariant, a report is about the job asked
   * for, its two buckets add up to its processed count, which never exceeds
   * its total, and only a job being processed reports a batch.
   */
  lemma ProgressConsistent(store: Store, id: JobId)
    requires StoreInvariant(store) && id != "" && id in store
    ensures var report := Progress(store, Some(id)).body;
      && report.jobId == id
      && report.statusCounts.valid + report.statusCounts.invalid == report.processedCount <= report.totalEmails
      && (report.currentBatch.Some? ==> report.status == JobProcessing)
  {
    assert JobInvariant(id, store[id]);
    WellFormedCounters(store[id]);
  }
}
