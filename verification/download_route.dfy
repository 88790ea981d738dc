/**
 * GET /api/verify/download?jobId=… (app/api/verify/download/route.ts): the
 * results of a COMPLETED job as a CSV attachment.
 */
module DownloadRoute {
  import opened Wrappers
  import opened Types
  import opened Csv
  import opened JobStore
  import opened Http
  import opened Verification

  /** The attachment's file name. */
  function AttachmentName(id: JobId): string
  {
    "verified-emails-" + id + ".csv"
  }

  /** The handler; `query` is the `jobId` search parameter, None when absent. */
  function Download(store: Store, query: Option<string>): (r: Response)
    ensures r.status == 200 <==> query.Some? && query.value != "" && query.value in store && store[query.value].status == JobCompleted
    ensures query.None? || query == Some("") ==> r == Fail(InvalidJobId)
    ensures query.Some? && query.value != "" && query.value !in store ==> r == Fail(JobNotFound)
    ensures query.Some? && query.value != "" && query.value in store && store[query.value].status != JobCompleted ==>
      r == Fail(JobNotCompleted)
    ensures r.status == 200 ==>
      && r.body.CsvAttachment? && r.body.contentType == "text/csv"
      && r.body.fileName == AttachmentName(query.value)
      && (|store[query.value].emails| == 0 <==> r.body.csv == EmptyText)
      && (r.body.csv.Table? ==>
            && r.body.csv.header == ["email", "verification_status"]
            && |r.body.csv.body| == |store[query.value].emails|
            && forall i :: 0 <= i < |r.body.csv.body| ==>
                 r.body.csv.body[i] == [store[query.value].emails[i].email, StatusName(store[query.value].emails[i].status)])
  {
    if query.None? || query.value == "" then Fail(InvalidJobId)
    else
      var id := query.value;
      match GetJob(store, id)
      case None => Fail(JobNotFound)
      case Some(job) =>
        if job.status != JobCompleted then Fail(JobNotCompleted)
        else
          var csv := GenerateResultsCsv(store, id);
          Response(200, CsvAttachment("text/csv", AttachmentName(id), csv.value))
  }

  /**
   * In a store that keeps the invariant, a completed job whose counters
   * account for every record exports no row with status PENDING.
   */
  lemma DownloadedRowsSettled(store: Store, id: JobId, i: nat)
    requires StoreInvariant(store) && id != "" && id in store && store[id].status == JobCompleted
    requires store[id].processedCount == store[id].totalEmails
    requires i < |store[id].emails|
    ensures Download(store, Some(id)).body.csv.body[i][1] != "PENDING"
  {
    assert JobInvariant(id, store[id]);
    WellFormedFinished(store[id]);
  }
}
