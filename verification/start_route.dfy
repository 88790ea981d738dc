/**
 * POST /api/verify/start (app/api/verify/start/route.ts): read `jobId` from
 * the JSON body, refuse a missing, unknown or already started job, and
 * launch startVerification without awaiting it.
 */
module StartRoute {
  import opened Wrappers
  import opened Types
  import opened JobStore
  import opened Http
  import opened Verification

  /** The `jobId` member of the body: a JSON string, or anything else (absent included). */
  datatype JobIdField = NotAString | JsonString(value: string)

  /**
   * The body: unparseable JSON, the JSON `null` (destructuring it throws),
   * or any other JSON value, whose `jobId` member is read.
   */
  datatype StartRequest = UnreadableBody | NullBody | JsonBody(jobId: JobIdField)

  /** The job id the handler goes on with: a non-empty string. */
  function RequestedId(request: StartRequest): (id: Option<JobId>)
    ensures id.Some? <==> request.JsonBody? && request.jobId.JsonString? && request.jobId.value != ""
    ensures id.Some? ==> id.value == request.jobId.value
  {
    if request.JsonBody? && request.jobId.JsonString? && request.jobId.value != "" then Some(request.jobId.value)
    else None
  }

  /**
   * The handler. The verification it launches is not awaited; `h.store` is
   * the store once that run has finished, with `faultAt` the batch at which
   * an unexpected exception escapes the loop, if any. Whatever the run does,
   * the response to a PENDING job is 202: its failure is only logged.
   */
  method Start(store: Store, request: StartRequest, oracle: Oracle, faultAt: Option<nat>, now: int) returns (h: Handled)
    ensures h.response.status == 202 <==> RequestedId(request).Some? && Startable(store, RequestedId(request).value)
    ensures h.response.status == 202 ==> h.response.body == StartAccepted
    ensures h.response.status != 202 ==> h.store == store
    ensures request.UnreadableBody? || request.NullBody? ==> h.response == Fail(StartError)
    ensures request.JsonBody? && RequestedId(request).None? ==> h.response == Fail(InvalidJobId)
    ensures RequestedId(request).Some? && RequestedId(request).value !in store ==> h.response == Fail(JobNotFound)
    ensures RequestedId(request).Some? && RequestedId(request).value in store && store[RequestedId(request).value].status != JobPending ==>
      h.response == Fail(JobAlreadyStarted)
    ensures h.store.Keys == store.Keys
    ensures forall other :: other in store && Some(other) != RequestedId(request) ==> h.store[other] == store[other]
    ensures h.response.status == 202 ==>
      var id := RequestedId(request).value;
      && h.store[id].status == (if Halt(store[id], faultAt) < |Batches(store[id])| then JobFailed else JobCompleted)
      && SameRecords(store[id], h.store[id]) && h.store[id].currentBatch == None
    ensures h.response.status == 202 && faultAt.None? ==>
      var id := RequestedId(request).value;
      forall i :: 0 <= i < |store[id].emails| ==> h.store[id].emails[i].status == EmailOutcome(Addresses(store[id].emails), oracle, i)
    ensures h.response.status == 202 && faultAt.None? && StoreInvariant(store) && NeverPending(oracle) ==>
      h.store[RequestedId(request).value].processedCount == h.store[RequestedId(request).value].totalEmails
    ensures StoreInvariant(store) ==> StoreInvariant(h.store)
  {
    if request.UnreadableBody? || request.NullBody? {
      return Handled(store, Fail(StartError));
    }
    if RequestedId(request).None? {
      return Handled(store, Fail(InvalidJobId));
    }
    var id := RequestedId(request).value;
    match GetJob(store, id)
    case None =>
      return Handled(store, Fail(JobNotFound));
    case Some(job) =>
      if job.status != JobPending {
        return Handled(store, Fail(JobAlreadyStarted));
      }
      var run := StartVerification(store, id, oracle, faultAt, now);
      if StoreInvariant(store) {
        assert JobInvariant(id, store[id]);
        assert JobInvariant(id, run.store[id]);
      }
      return Handled(run.store, Response(202, StartAccepted));
  }
}
