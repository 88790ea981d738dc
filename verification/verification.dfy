/**
 * The verification driver of lib/services/verificationService.ts: the
 * external service as an oracle, per-batch processing (publish the batch,
 * mark badly formatted addresses, write back the service's verdicts), the
 * job state machine of a run, and the results export.
 */
module Verification {
  import opened Wrappers
  import opened Types
  import opened Helpers
  import opened Csv
  import opened JobStore

  /** Emails per request to the external service. */
  const BatchSize: nat := 100

  // ---------------------------------------------------------------------
  // The external service and verifyBatch
  // ---------------------------------------------------------------------

  /**
   * One entry of the service's `results` array. A missing or otherwise
   * falsy status is `None`.
   */
  datatype ApiResult = ApiResult(email: string, status: Option<VerificationStatus>)

  /**
   * The service's reply to one request: the `results` array, or `None` for
   * a transport error, a timeout, a reply whose `results` is not an array,
   * or any other exception while reading the reply.
   */
  type Reply = Option<seq<ApiResult>>

  /** The service: its reply to the request sent for batch number `k` with these addresses. */
  type Oracle = (nat, seq<string>) -> Reply

  /** The `Map<string, VerificationStatus>` that verifyBatch returns, keyed by lower-cased address. */
  type Results = map<string, Option<VerificationStatus>>

  /** The failure path: every requested address is mapped to API_ERROR. */
  function MarkAllFailed(emails: seq<string>, acc: Results): Results
  {
    if |emails| == 0 then acc
    else MarkAllFailed(emails[1..], acc[ToLower(emails[0]) := Some(ApiError)])
  }

  /** The success path: each entry is stored under its lower-cased address; later entries overwrite. */
  function Collect(rs: seq<ApiResult>, acc: Results): Results
  {
    if |rs| == 0 then acc
    else Collect(rs[1..], acc[ToLower(rs[0].email) := rs[0].status])
  }


  /** The verdict recorded under the lower-cased address; API_ERROR when there is none. */
  function StatusFor(results: Results, email: string): VerificationStatus
  {
    var key := ToLower(email);
    if key in results && results[key].Some? then results[key].value else ApiError
  }

  /** The status of the last entry of `rs` whose lower-cased address is `key`, if any. */
  function LastAnswer(rs: seq<ApiResult>, key: string): Option<Option<VerificationStatus>>
  {
    if |rs| == 0 then None
    else if ToLower(rs[|rs| - 1].email) == key then Some(rs[|rs| - 1].status)
    else LastAnswer(rs[..|rs| - 1], key)
  }

  /**
   * The verdict a requested address receives from a reply: API_ERROR for a
   * failed request; otherwise the status of the last entry for its
   * lower-cased address, or API_ERROR when there is none or it is falsy.
   */
  function AnsweredStatus(reply: Reply, email: string): VerificationStatus
  {
    match reply
    case None => ApiError
    case Some(rs) =>
      match LastAnswer(rs, ToLower(email))
      case Some(Some(s)) => s
      case _ => ApiError
  }

  lemma {:induction false} MarkAllFailedLookup(emails: seq<string>, acc: Results, key: string)
    ensures var m := MarkAllFailed(emails, acc);
      && (key in m <==> key in acc || exists e :: e in emails && ToLower(e) == key)
      && ((exists e :: e in emails && ToLower(e) == key) ==> m[key] == Some(ApiError))
      && (key in m && !(exists e :: e in emails && ToLower(e) == key) ==> m[key] == acc[key])
  {
    if |emails| > 0 {
      MarkAllFailedLookup(emails[1..], acc[ToLower(emails[0]) := Some(ApiError)], key);
      assert forall e :: e in emails <==> e == emails[0] || e in emails[1..];
    }
  }

  lemma {:induction false} CollectSnoc(rs: seq<ApiResult>, r: ApiResult, acc: Results)
    ensures Collect(rs + [r], acc) == Collect(rs, acc)[ToLower(r.email) := r.status]
  {
    if |rs| > 0 {
      assert (rs + [r])[1..] == rs[1..] + [r];
      CollectSnoc(rs[1..], r, acc[ToLower(rs[0].email) := rs[0].status]);
    }
  }

  lemma {:induction false} CollectLookup(rs: seq<ApiResult>, acc: Results, key: string)
    ensures var m := Collect(rs, acc);
      && (key in m <==> key in acc || LastAnswer(rs, key).Some?)
      && (LastAnswer(rs, key).Some? ==> m[key] == LastAnswer(rs, key).value)
      && (key in m && LastAnswer(rs, key).None? ==> m[key] == acc[key])
    decreases |rs|
  {
    if |rs| > 0 {
      var init := rs[..|rs| - 1];
      var last := rs[|rs| - 1];
      assert rs == init + [last];
      CollectSnoc(init, last, acc);
      CollectLookup(init, acc, key);
    }
  }

  /**
   * `verifyBatch(emails)` given the service's reply: the map it builds
   * gives every requested address exactly its answered verdict.
   */
  function VerifyBatch(reply: Reply, emails: seq<string>): (results: Results)
    ensures forall email :: email in emails ==> StatusFor(results, email) == AnsweredStatus(reply, email)
  {
    match reply
    case None =>
      var failed := MarkAllFailed(emails, map[]);
      assert forall email :: email in emails ==> StatusFor(failed, email) == ApiError by {
        forall email | email in emails
          ensures StatusFor(failed, email) == ApiError
        {
          MarkAllFailedLookup(emails, map[], ToLower(email));
        }
      }
      failed
    case Some(rs) =>
      var collected := Collect(rs, map[]);
      assert forall email :: email in emails ==> StatusFor(collected, email) == AnsweredStatus(reply, email) by {
        forall email | email in emails
          ensures StatusFor(collected, email) == AnsweredStatus(reply, email)
        {
          CollectLookup(rs, map[], ToLower(email));
        }
      }
      collected
  }

  /** The answer for a key is the status of an entry for that key with no later entry for it. */
  lemma {:induction false} LastAnswerIsLast(rs: seq<ApiResult>, key: string)
    requires LastAnswer(rs, key).Some?
    ensures exists j :: (0 <= j < |rs| && ToLower(rs[j].email) == key && rs[j].status == LastAnswer(rs, key).value
                         && forall j' :: j < j' < |rs| ==> ToLower(rs[j'].email) != key)
    decreases |rs|
  {
    if ToLower(rs[|rs| - 1].email) != key {
      var init := rs[..|rs| - 1];
      LastAnswerIsLast(init, key);
      var j :| 0 <= j < |init| && ToLower(init[j].email) == key && init[j].status == LastAnswer(init, key).value
        && (forall j' :: j < j' < |init| ==> ToLower(init[j'].email) != key);
      assert rs[j] == init[j];
      forall j' | j < j' < |rs|
        ensures ToLower(rs[j'].email) != key
      {
        if j' < |init| {
          assert rs[j'] == init[j'];
        }
      }
    }
  }

  /** No entry of a reply carries the status PENDING. */
  predicate NeverPendingReply(reply: Reply)
  {
    reply.Some? ==> forall j :: 0 <= j < |reply.value| ==> reply.value[j].status != Some(Pending)
  }

  /** A reply without PENDING entries never leaves a requested address PENDING. */
  lemma AnsweredStatusSettles(reply: Reply, email: string)
    requires NeverPendingReply(reply)
    ensures AnsweredStatus(reply, email) != Pending
  {
    if reply.Some? && LastAnswer(reply.value, ToLower(email)).Some? {
      LastAnswerIsLast(reply.value, ToLower(email));
    }
  }

  // ---------------------------------------------------------------------
  // processBatch
  // ---------------------------------------------------------------------

  /** The addresses of a batch that pass the format check, in batch order: the request body. */
  function ValidEmails(batch: seq<string>): (valid: seq<string>)
    ensures |valid| <= |batch|
    ensures forall e :: e in valid <==> e in batch && IsValidEmailFormat(e)
  {
    if |batch| == 0 then []
    else
      var rest := ValidEmails(batch[1..]);
      assert forall e :: e in batch <==> e == batch[0] || e in batch[1..];
      (if IsValidEmailFormat(batch[0]) then [batch[0]] else []) + rest
  }

  /** Filtering a concatenation filters each part in turn: the request keeps batch order and repeats. */
  lemma {:induction false} ValidEmailsAppend(a: seq<string>, b: seq<string>)
    ensures ValidEmails(a + b) == ValidEmails(a) + ValidEmails(b)
  {
    if |a| == 0 {
      assert a + b == b;
    } else {
      assert (a + b)[1..] == a[1..] + b;
      ValidEmailsAppend(a[1..], b);
    }
  }

  /** The positions of a batch whose address passes the format check. */
  function PassingPositions(batch: seq<string>): set<int>
  {
    set p | 0 <= p < |batch| && IsValidEmailFormat(batch[p])
  }

  /** Extending a batch by one address adds its position exactly when that address passes. */
  lemma PassingPositionsSnoc(init: seq<string>, last: string)
    ensures PassingPositions(init + [last]) ==
      PassingPositions(init) + (if IsValidEmailFormat(last) then {|init|} else {})
  {
    var batch := init + [last];
    var passing := PassingPositions(batch);
    var before := PassingPositions(init);
    var extra: set<int> := if IsValidEmailFormat(last) then {|init|} else {};
    forall p | p in passing
      ensures p in before + extra
    {
      if p < |init| {
        assert init[p] == batch[p];
      }
    }
    forall p | p in before + extra
      ensures p in passing
    {
      if p in before {
        assert init[p] == batch[p];
      }
    }
  }

  /** The request holds one entry per position of the batch that passes the format check. */
  lemma {:induction false} ValidEmailsCount(batch: seq<string>)
    ensures |ValidEmails(batch)| == |PassingPositions(batch)|
    decreases |batch|
  {
    if |batch| > 0 {
      var init := batch[..|batch| - 1];
      var last := batch[|batch| - 1];
      assert batch == init + [last];
      ValidEmailsAppend(init, [last]);
      ValidEmailsCount(init);
      PassingPositionsSnoc(init, last);
      var extra: set<int> := if IsValidEmailFormat(last) then {|init|} else {};
      assert |ValidEmails([last])| == |extra|;
      assert PassingPositions(init) * extra == {};
    }
  }

  /** The snapshot published for a batch: 1-indexed number, total, first and last position. */
  function BatchDescriptor(start: nat, length: nat, number: nat, total: nat): BatchInfo
  {
    BatchInfo(number, total, start + 1, start + length)
  }

  /** `a` and `b` are the same job with the same addresses and rows, whatever their statuses. */
  predicate SameRecords(a: Job, b: Job)
  {
    && a.jobId == b.jobId && a.totalEmails == b.totalEmails
    && a.emailColumnName == b.emailColumnName && a.createdAt == b.createdAt
    && |a.emails| == |b.emails|
    && forall i :: 0 <= i < |a.emails| ==>
         a.emails[i].email == b.emails[i].email && a.emails[i].originalRow == b.emails[i].originalRow
  }

  /** `a` and `b` differ at most in per-email statuses, counters, timestamps and the batch snapshot. */
  predicate SameJob(a: Job, b: Job)
  {
    SameRecords(a, b) && a.status == b.status
  }

  /** The records of `a` and `b` agree outside positions `[lo, hi)`. */
  predicate SameOutside(a: Job, b: Job, lo: int, hi: int)
    requires |a.emails| == |b.emails|
  {
    forall i :: 0 <= i < |a.emails| && !(lo <= i < hi) ==> a.emails[i] == b.emails[i]
  }

  /** The first pass of processBatch: INVALID_FORMAT for every address failing the check, from position `p` on. */
  function MarkInvalidFormats(job: Job, batch: seq<string>, start: nat, p: nat, now: int): (r: Job)
    ensures SameJob(job, r) && r.currentBatch == job.currentBatch
    ensures SameOutside(job, r, start + p, start + |batch|)
    ensures forall j :: start + p <= j < start + |batch| && j < |job.emails| ==>
      r.emails[j].status == (if IsValidEmailFormat(batch[j - start]) then job.emails[j].status else InvalidFormat)
    decreases |batch| - p
  {
    if p >= |batch| then job
    else
      var next := if IsValidEmailFormat(batch[p]) then job else RecordResult(job, start + p, InvalidFormat, now);
      MarkInvalidFormats(next, batch, start, p + 1, now)
  }

  /** The second pass of processBatch: the service's verdict for every address passing the check. */
  function WriteResults(job: Job, batch: seq<string>, start: nat, results: Results, p: nat, now: int): (r: Job)
    ensures SameJob(job, r) && r.currentBatch == job.currentBatch
    ensures SameOutside(job, r, start + p, start + |batch|)
    ensures forall j :: start + p <= j < start + |batch| && j < |job.emails| ==>
      r.emails[j].status == (if IsValidEmailFormat(batch[j - start]) then StatusFor(results, batch[j - start]) else job.emails[j].status)
    decreases |batch| - p
  {
    if p >= |batch| then job
    else
      var next := if IsValidEmailFormat(batch[p]) then RecordResult(job, start + p, StatusFor(results, batch[p]), now) else job;
      WriteResults(next, batch, start, results, p + 1, now)
  }

  /** What processBatch did: the job afterwards and the request it sent, if any. */
  datatype BatchStep = BatchStep(job: Job, request: Option<seq<string>>)

  /**
   * The final status of position `p` of a batch: INVALID_FORMAT when the
   * address fails the check, otherwise the verdict of the service's reply
   * to the batch's request.
   */
  function Outcome(batch: seq<string>, number: nat, oracle: Oracle, p: nat): VerificationStatus
    requires p < |batch|
  {
    if !IsValidEmailFormat(batch[p]) then InvalidFormat
    else AnsweredStatus(oracle(number, ValidEmails(batch)), batch[p])
  }

  /**
   * `processBatch(jobId, batch, startIndex, batchNumber, totalBatches)` on
   * the job it updates: publish the batch snapshot, mark badly formatted
   * addresses, and, if any address is well formed, send one request with
   * exactly those and write back the verdicts.
   */
  function ProcessBatch(job: Job, batch: seq<string>, start: nat, number: nat, total: nat, oracle: Oracle, now: int): (step: BatchStep)
    ensures SameJob(job, step.job)
    ensures step.job.currentBatch == Some(BatchDescriptor(start, |batch|, number, total))
    ensures SameOutside(job, step.job, start, start + |batch|)
    ensures forall p :: 0 <= p < |batch| && start + p < |job.emails| ==>
      step.job.emails[start + p].status == Outcome(batch, number, oracle, p)
    ensures step.request.Some? <==> exists p :: 0 <= p < |batch| && IsValidEmailFormat(batch[p])
    ensures step.request.Some? ==> step.request.value == ValidEmails(batch)
    ensures step.request.Some? <==> |ValidEmails(batch)| > 0
  {
    var published := job.(currentBatch := Some(BatchDescriptor(start, |batch|, number, total)), updatedAt := now);
    var marked := MarkInvalidFormats(published, batch, start, 0, now);
    var valid := ValidEmails(batch);
    if |valid| > 0 then
      var written := WriteResults(marked, batch, start, VerifyBatch(oracle(number, valid), valid), 0, now);
      AnsweredOutcomes(published, batch, start, number, oracle, now);
      assert exists p :: 0 <= p < |batch| && IsValidEmailFormat(batch[p]) by {
        assert valid[0] in batch;
      }
      BatchStep(written, Some(valid))
    else
      UnansweredOutcomes(published, batch, start, number, oracle, now);
      BatchStep(marked, None)
  }

  /** With a request sent, every position of the batch ends with its outcome. */
  lemma AnsweredOutcomes(job: Job, batch: seq<string>, start: nat, number: nat, oracle: Oracle, now: int)
    requires |ValidEmails(batch)| > 0
    ensures var valid := ValidEmails(batch);
      var written := WriteResults(MarkInvalidFormats(job, batch, start, 0, now), batch, start, VerifyBatch(oracle(number, valid), valid), 0, now);
      forall p :: 0 <= p < |batch| && start + p < |job.emails| ==>
        written.emails[start + p].status == Outcome(batch, number, oracle, p)
  {
    var valid := ValidEmails(batch);
    var reply := oracle(number, valid);
    var results := VerifyBatch(reply, valid);
    var marked := MarkInvalidFormats(job, batch, start, 0, now);
    var written := WriteResults(marked, batch, start, results, 0, now);
    assert forall p :: 0 <= p < |batch| && IsValidEmailFormat(batch[p]) ==>
      StatusFor(results, batch[p]) == AnsweredStatus(reply, batch[p]) by {
      assert forall p :: 0 <= p < |batch| && IsValidEmailFormat(batch[p]) ==> batch[p] in valid;
    }
    forall p | 0 <= p < |batch| && start + p < |job.emails|
      ensures written.emails[start + p].status == Outcome(batch, number, oracle, p)
    {
      assert (start + p) - start == p;
    }
  }

  /** With no well-formed address, every position of the batch ends INVALID_FORMAT, its outcome. */
  lemma UnansweredOutcomes(job: Job, batch: seq<string>, start: nat, number: nat, oracle: Oracle, now: int)
    requires |ValidEmails(batch)| == 0
    ensures var marked := MarkInvalidFormats(job, batch, start, 0, now);
      forall p :: 0 <= p < |batch| && start + p < |job.emails| ==>
        marked.emails[start + p].status == Outcome(batch, number, oracle, p)
  {
    var marked := MarkInvalidFormats(job, batch, start, 0, now);
    assert forall p :: 0 <= p < |batch| ==> !IsValidEmailFormat(batch[p]) by {
      forall p | 0 <= p < |batch|
        ensures !IsValidEmailFormat(batch[p])
      {
        assert batch[p] in batch;
      }
    }
    forall p | 0 <= p < |batch| && start + p < |job.emails|
      ensures marked.emails[start + p].status == Outcome(batch, number, oracle, p)
    {
      assert (start + p) - start == p;
    }
  }

  lemma {:induction false} MarkKeepsWellFormed(job: Job, batch: seq<string>, start: nat, p: nat, now: int)
    requires WellFormed(job)
    requires forall j :: start + p <= j < start + |batch| && j < |job.emails| ==> job.emails[j].status == Pending
    ensures WellFormed(MarkInvalidFormats(job, batch, start, p, now))
    decreases |batch| - p
  {
    if p < |batch| {
      if IsValidEmailFormat(batch[p]) {
        MarkKeepsWellFormed(job, batch, start, p + 1, now);
      } else {
        RecordResultKeepsWellFormed(job, start + p, InvalidFormat, now);
        MarkKeepsWellFormed(RecordResult(job, start + p, InvalidFormat, now), batch, start, p + 1, now);
      }
    }
  }

  lemma {:induction false} WriteKeepsWellFormed(job: Job, batch: seq<string>, start: nat, results: Results, p: nat, now: int)
    requires WellFormed(job)
    requires forall j :: start + p <= j < start + |batch| && j < |job.emails| && IsValidEmailFormat(batch[j - start]) ==>
      job.emails[j].status == Pending
    ensures WellFormed(WriteResults(job, batch, start, results, p, now))
    decreases |batch| - p
  {
    if p < |batch| {
      if IsValidEmailFormat(batch[p]) {
        var status := StatusFor(results, batch[p]);
        RecordResultKeepsWellFormed(job, start + p, status, now);
        var next := RecordResult(job, start + p, status, now);
        assert forall j :: start + p + 1 <= j < start + |batch| && j < |next.emails| ==> next.emails[j] == job.emails[j];
        WriteKeepsWellFormed(next, batch, start, results, p + 1, now);
        assert WriteResults(job, batch, start, results, p, now) == WriteResults(next, batch, start, results, p + 1, now);
      } else {
        WriteKeepsWellFormed(job, batch, start, results, p + 1, now);
        assert WriteResults(job, batch, start, results, p, now) == WriteResults(job, batch, start, results, p + 1, now);
      }
    }
  }

  /** A batch over PENDING records leaves the job's counters consistent with its records. */
  lemma ProcessBatchKeepsWellFormed(job: Job, batch: seq<string>, start: nat, number: nat, total: nat, oracle: Oracle, now: int)
    requires WellFormed(job)
    requires forall j :: start <= j < start + |batch| && j < |job.emails| ==> job.emails[j].status == Pending
    ensures WellFormed(ProcessBatch(job, batch, start, number, total, oracle, now).job)
  {
    var published := job.(currentBatch := Some(BatchDescriptor(start, |batch|, number, total)), updatedAt := now);
    assert WellFormed(published);
    MarkKeepsWellFormed(published, batch, start, 0, now);
    var marked := MarkInvalidFormats(published, batch, start, 0, now);
    var valid := ValidEmails(batch);
    if |valid| > 0 {
      var results := VerifyBatch(oracle(number, valid), valid);
      assert forall j :: start <= j < start + |batch| && j < |marked.emails| && IsValidEmailFormat(batch[j - start]) ==>
        marked.emails[j].status == Pending;
      WriteKeepsWellFormed(marked, batch, start, results, 0, now);
    }
  }

  // ---------------------------------------------------------------------
  // startVerification
  // ---------------------------------------------------------------------

  /** A request sent to the service: the batch number and the addresses in its body. */
  datatype Request = Request(batchNumber: nat, emails: seq<string>)

  /**
   * What a run of the batch loop did: the job afterwards, the batch
   * snapshots it published and the requests it sent.
   */
  datatype RunLog = RunLog(job: Job, published: seq<BatchInfo>, requests: seq<Request>)

  /** The addresses of a job's records, in order. */
  function Addresses(records: seq<EmailRecord>): (addresses: seq<string>)
    ensures |addresses| == |records|
    ensures forall i :: 0 <= i < |records| ==> addresses[i] == records[i].email
  {
    seq(|records|, i requires 0 <= i < |records| => records[i].email)
  }

  /** The index of the batch at whose start the loop stops: the fault's, or the end. */
  function HaltAt(count: nat, faultAt: Option<nat>): (h: nat)
    ensures h <= count
    ensures h < count <==> faultAt.Some? && faultAt.value < count
  {
    if faultAt.Some? && faultAt.value < count then faultAt.value else count
  }

  /** Batch `k` covers positions `k * BatchSize` to `k * BatchSize + |batches[k]|` of the addresses. */
  lemma BatchBounds(addresses: seq<string>, batches: seq<seq<string>>, k: nat)
    requires batches == ChunkArray(addresses, BatchSize) && k < |batches|
    ensures 0 < |batches[k]| <= BatchSize
    ensures k * BatchSize + |batches[k]| <= |addresses|
    ensures forall p :: 0 <= p < |batches[k]| ==> batches[k][p] == addresses[k * BatchSize + p]
    ensures (k + 1) * BatchSize == k * BatchSize + BatchSize
  {
    ChunkArrayShape(addresses, BatchSize);
    MulSucc(k, BatchSize);
    assert batches[k] == addresses[k * BatchSize .. Min((k + 1) * BatchSize, |addresses|)];
  }

  /** The outcome of position `p` of batch index `b` of a run. */
  function BatchOutcome(batches: seq<seq<string>>, b: nat, oracle: Oracle, p: nat): VerificationStatus
    requires b < |batches| && p < |batches[b]|
  {
    Outcome(batches[b], b + 1, oracle, p)
  }

  /** Every batch holds 1 to BatchSize addresses and batch `b` ends inside the first `n` positions. */
  predicate FitsBatches(batches: seq<seq<string>>, n: nat)
  {
    forall b :: 0 <= b < |batches| ==> 0 < |batches[b]| <= BatchSize && b * BatchSize + |batches[b]| <= n
  }

  /** The batches chunkArray makes of the addresses fit them. */
  lemma ChunksFit(addresses: seq<string>)
    ensures FitsBatches(ChunkArray(addresses, BatchSize), |addresses|)
  {
    var batches := ChunkArray(addresses, BatchSize);
    forall b | 0 <= b < |batches|
      ensures 0 < |batches[b]| <= BatchSize && b * BatchSize + |batches[b]| <= |addresses|
    {
      BatchBounds(addresses, batches, b);
    }
  }

  /** Batches before index `i` lie below position `i * BatchSize`; batch `i` starts there. */
  lemma BatchesDisjoint(batches: seq<seq<string>>, i: nat, n: nat)
    requires FitsBatches(batches, n) && i < |batches|
    ensures forall b :: 0 <= b < i ==> b * BatchSize + |batches[b]| <= i * BatchSize
    ensures (i + 1) * BatchSize == i * BatchSize + BatchSize
    ensures i * BatchSize + |batches[i]| <= n
  {
  }

  /** The snapshot published for batch index `b`. */
  function Snapshot(batches: seq<seq<string>>, b: nat): BatchInfo
    requires b < |batches|
  {
    BatchDescriptor(b * BatchSize, |batches[b]|, b + 1, |batches|)
  }

  /** Every position of the first `count` batches holds its batch's outcome. */
  predicate Done(job: Job, batches: seq<seq<string>>, count: nat, oracle: Oracle)
  {
    forall b, p :: 0 <= b < count && b < |batches| && 0 <= p < |batches[b]| ==>
      b * BatchSize + p < |job.emails| && job.emails[b * BatchSize + p].status == BatchOutcome(batches, b, oracle, p)
  }

  /** The requests the first `count` batches send: one per batch holding a well-formed address. */
  function RequestsSent(batches: seq<seq<string>>, count: nat): seq<Request>
    requires count <= |batches|
  {
    if count == 0 then []
    else
      var valid := ValidEmails(batches[count - 1]);
      RequestsSent(batches, count - 1) + (if |valid| > 0 then [Request(count, valid)] else [])
  }

  /** The request belongs to one of the first `count` batches and carries exactly its well-formed addresses. */
  predicate Carrier(r: Request, batches: seq<seq<string>>, count: nat)
    requires count <= |batches|
  {
    0 < r.batchNumber <= count && |r.emails| > 0 && r.emails == ValidEmails(batches[r.batchNumber - 1])
  }

  /** Every request is a carrier for the first `count` batches. */
  predicate Carries(sent: seq<Request>, batches: seq<seq<string>>, count: nat)
    requires count <= |batches|
  {
    forall j :: 0 <= j < |sent| ==> Carrier(sent[j], batches, count)
  }

  /** Appending batch `count`'s request, if it has one, keeps every request a carrier. */
  lemma CarriesExtend(prefix: seq<Request>, batches: seq<seq<string>>, count: nat)
    requires 0 < count <= |batches| && Carries(prefix, batches, count - 1)
    ensures var valid := ValidEmails(batches[count - 1]);
      Carries(prefix + (if |valid| > 0 then [Request(count, valid)] else []), batches, count)
  {
    var valid := ValidEmails(batches[count - 1]);
    var sent := prefix + (if |valid| > 0 then [Request(count, valid)] else []);
    forall j | 0 <= j < |sent|
      ensures Carrier(sent[j], batches, count)
    {
      if j < |prefix| {
        assert sent[j] == prefix[j];
        assert Carrier(prefix[j], batches, count - 1);
      } else {
        assert sent[j] == Request(count, valid);
      }
    }
  }

  lemma {:induction false} RequestsSentCarry(batches: seq<seq<string>>, count: nat)
    requires count <= |batches|
    ensures Carries(RequestsSent(batches, count), batches, count)
  {
    if count > 0 {
      RequestsSentCarry(batches, count - 1);
      CarriesExtend(RequestsSent(batches, count - 1), batches, count);
    }
  }

  /** Batch numbers strictly increase along the requests, so no batch sends two. */
  predicate InBatchOrder(sent: seq<Request>)
  {
    forall j, j' :: 0 <= j < j' < |sent| ==> sent[j].batchNumber < sent[j'].batchNumber
  }

  lemma {:induction false} RequestsSentOrdered(batches: seq<seq<string>>, count: nat)
    requires count <= |batches|
    ensures InBatchOrder(RequestsSent(batches, count))
  {
    if count > 0 {
      RequestsSentOrdered(batches, count - 1);
      RequestsSentCarry(batches, count - 1);
      var prefix := RequestsSent(batches, count - 1);
      var sent := RequestsSent(batches, count);
      RequestsSentStep(batches, count - 1);
      forall j, j' | 0 <= j < j' < |sent|
        ensures sent[j].batchNumber < sent[j'].batchNumber
      {
        assert sent[j] == prefix[j];
        if j' < |prefix| {
          assert sent[j'] == prefix[j'];
        } else {
          assert Carrier(prefix[j], batches, count - 1);
          assert sent[j'].batchNumber == count;
        }
      }
    }
  }

  /** Every batch holding a well-formed address sends a request. */
  lemma {:induction false} RequestsSentComplete(batches: seq<seq<string>>, count: nat, b: nat)
    requires count <= |batches| && b < count && |ValidEmails(batches[b])| > 0
    ensures exists j :: 0 <= j < |RequestsSent(batches, count)| && RequestsSent(batches, count)[j].batchNumber == b + 1
  {
    var prefix := RequestsSent(batches, count - 1);
    var sent := RequestsSent(batches, count);
    var valid := ValidEmails(batches[count - 1]);
    assert sent == prefix + (if |valid| > 0 then [Request(count, valid)] else []);
    if b == count - 1 {
      assert sent[|prefix|].batchNumber == b + 1;
    } else {
      RequestsSentComplete(batches, count - 1, b);
      var j :| 0 <= j < |prefix| && prefix[j].batchNumber == b + 1;
      assert sent[j] == prefix[j];
    }
  }

  /**
   * After the first `count` batches: only per-email results, counters and
   * the snapshot have changed, only the positions of those batches, and
   * each of them holds its batch's outcome.
   */
  predicate Progress(job: Job, current: Job, batches: seq<seq<string>>, count: nat, oracle: Oracle)
  {
    && SameJob(job, current)
    && SameOutside(job, current, 0, count * BatchSize)
    && Done(current, batches, count, oracle)
  }

  /** Processing batch `i` extends the progress of the first `i` batches to `i + 1`. */
  lemma ProcessBatchAdvances(job: Job, current: Job, batches: seq<seq<string>>, i: nat, oracle: Oracle, now: int)
    requires FitsBatches(batches, |job.emails|) && i < |batches|
    requires Progress(job, current, batches, i, oracle)
    ensures Progress(job, ProcessBatch(current, batches[i], i * BatchSize, i + 1, |batches|, oracle, now).job, batches, i + 1, oracle)
  {
    var step := ProcessBatch(current, batches[i], i * BatchSize, i + 1, |batches|, oracle, now);
    ProgressExtends(job, current, step.job, batches, i, oracle);
  }

  /** The records of `job` from `start` on hold the outcomes of `batch`. */
  predicate Settled(job: Job, batch: seq<string>, start: nat, number: nat, oracle: Oracle)
  {
    forall p :: 0 <= p < |batch| && start + p < |job.emails| ==>
      job.emails[start + p].status == Outcome(batch, number, oracle, p)
  }

  /**
   * A job that agrees with `current` outside batch `i` and holds the outcomes
   * of batch `i` inside it has the progress of the first `i + 1` batches.
   */
  lemma ProgressExtends(job: Job, current: Job, next: Job, batches: seq<seq<string>>, i: nat, oracle: Oracle)
    requires FitsBatches(batches, |job.emails|) && i < |batches|
    requires Progress(job, current, batches, i, oracle)
    requires SameJob(current, next) && SameOutside(current, next, i * BatchSize, i * BatchSize + |batches[i]|)
    requires Settled(next, batches[i], i * BatchSize, i + 1, oracle)
    ensures Progress(job, next, batches, i + 1, oracle)
  {
    BatchesDisjoint(batches, i, |job.emails|);
    forall b, p | 0 <= b < i + 1 && b < |batches| && 0 <= p < |batches[b]|
      ensures b * BatchSize + p < |next.emails|
        && next.emails[b * BatchSize + p].status == BatchOutcome(batches, b, oracle, p)
    {
      if b < i {
        assert next.emails[b * BatchSize + p] == current.emails[b * BatchSize + p];
      }
    }
  }

  /** A run over PENDING records keeps the counters consistent batch after batch. */
  lemma ProcessBatchAdvancesWellFormed(job: Job, current: Job, batches: seq<seq<string>>, i: nat, oracle: Oracle, now: int)
    requires FitsBatches(batches, |job.emails|) && i < |batches|
    requires Progress(job, current, batches, i, oracle)
    requires AllPending(job.emails) && WellFormed(current)
    ensures WellFormed(ProcessBatch(current, batches[i], i * BatchSize, i + 1, |batches|, oracle, now).job)
  {
    BatchesDisjoint(batches, i, |job.emails|);
    assert forall j :: i * BatchSize <= j < |current.emails| ==> current.emails[j] == job.emails[j];
    ProcessBatchKeepsWellFormed(current, batches[i], i * BatchSize, i + 1, |batches|, oracle, now);
  }

  /**
   * The state of the loop of startVerification after its first `count`
   * batches: their progress, the last snapshot, the snapshots published so
   * far and the requests sent so far.
   */
  predicate RunState(job: Job, batches: seq<seq<string>>, oracle: Oracle, count: nat, log: RunLog)
    requires count <= |batches|
  {
    && Progress(job, log.job, batches, count, oracle)
    && (count == 0 ==> log.job.currentBatch == job.currentBatch)
    && (count > 0 ==> log.job.currentBatch == Some(Snapshot(batches, count - 1)))
    && |log.published| == count
    && (forall b :: 0 <= b < count ==> log.published[b] == Snapshot(batches, b))
    && log.requests == RequestsSent(batches, count)
  }

  /** The requests of the first `i + 1` batches: those of the first `i`, then batch `i`'s if it sends one. */
  lemma RequestsSentStep(batches: seq<seq<string>>, i: nat)
    requires i < |batches|
    ensures RequestsSent(batches, i + 1) == RequestsSent(batches, i) +
      (if |ValidEmails(batches[i])| > 0 then [Request(i + 1, ValidEmails(batches[i]))] else [])
  {
  }

  /** One turn of the loop: process batch `i`, publish its snapshot and record its request, if any. */
  method Advance(job: Job, batches: seq<seq<string>>, oracle: Oracle, i: nat, log: RunLog, now: int) returns (r: RunLog)
    requires FitsBatches(batches, |job.emails|) && i < |batches|
    requires RunState(job, batches, oracle, i, log)
    ensures RunState(job, batches, oracle, i + 1, r)
    ensures WellFormed(job) && AllPending(job.emails) && WellFormed(log.job) ==> WellFormed(r.job)
  {
    var step := ProcessBatch(log.job, batches[i], i * BatchSize, i + 1, |batches|, oracle, now);
    r := RunLog(step.job, log.published + [Snapshot(batches, i)],
                log.requests + (if step.request.Some? then [Request(i + 1, step.request.value)] else []));
    AdvanceStep(job, batches, oracle, i, log, now);
  }

  /**
   * The loop state after batch `i`: the job has the progress of `i + 1`
   * batches and shows batch `i`'s snapshot, which is published, and the
   * batch's request, if any, is appended to those sent.
   */
  lemma RunStateExtends(job: Job, batches: seq<seq<string>>, oracle: Oracle, i: nat, log: RunLog,
                        next: Job, sent: Option<seq<string>>)
    requires i < |batches| && RunState(job, batches, oracle, i, log)
    requires Progress(job, next, batches, i + 1, oracle)
    requires next.currentBatch == Some(BatchDescriptor(i * BatchSize, |batches[i]|, i + 1, |batches|))
    requires sent.Some? <==> |ValidEmails(batches[i])| > 0
    requires sent.Some? ==> sent.value == ValidEmails(batches[i])
    ensures RunState(job, batches, oracle, i + 1,
      RunLog(next, log.published + [Snapshot(batches, i)],
             log.requests + (if sent.Some? then [Request(i + 1, sent.value)] else [])))
  {
    RequestsSentStep(batches, i);
  }

  /** One turn of the loop keeps the loop state and well-formedness. */
  lemma AdvanceStep(job: Job, batches: seq<seq<string>>, oracle: Oracle, i: nat, log: RunLog, now: int)
    requires FitsBatches(batches, |job.emails|) && i < |batches|
    requires RunState(job, batches, oracle, i, log)
    ensures var step := ProcessBatch(log.job, batches[i], i * BatchSize, i + 1, |batches|, oracle, now);
      var r := RunLog(step.job, log.published + [Snapshot(batches, i)],
                      log.requests + (if step.request.Some? then [Request(i + 1, step.request.value)] else []));
      && RunState(job, batches, oracle, i + 1, r)
      && (WellFormed(job) && AllPending(job.emails) && WellFormed(log.job) ==> WellFormed(r.job))
  {
    var step := ProcessBatch(log.job, batches[i], i * BatchSize, i + 1, |batches|, oracle, now);
    ProcessBatchAdvances(job, log.job, batches, i, oracle, now);
    RunStateExtends(job, batches, oracle, i, log, step.job, step.request);
    if WellFormed(job) && AllPending(job.emails) && WellFormed(log.job) {
      ProcessBatchAdvancesWellFormed(job, log.job, batches, i, oracle, now);
    }
  }

  /**
   * The loop of startVerification. An exception escaping the loop is
   * modelled by `faultAt`: the index of the batch at whose start it is
   * raised.
   */
  method RunBatches(job: Job, batches: seq<seq<string>>, oracle: Oracle, faultAt: Option<nat>, now: int) returns (log: RunLog, aborted: bool)
    requires FitsBatches(batches, |job.emails|)
    ensures aborted <==> HaltAt(|batches|, faultAt) < |batches|
    ensures RunState(job, batches, oracle, HaltAt(|batches|, faultAt), log)
    ensures WellFormed(job) && AllPending(job.emails) ==> WellFormed(log.job)
  {
    var halt := HaltAt(|batches|, faultAt);
    log := RunLog(job, [], []);
    var i := 0;
    while i < halt
      invariant i <= halt
      invariant RunState(job, batches, oracle, i, log)
      invariant WellFormed(job) && AllPending(job.emails) ==> WellFormed(log.job)
    {
      log := Advance(job, batches, oracle, i, log, now);
      i := i + 1;
    }
    aborted := halt < |batches|;
  }

  /** Why startVerification threw. */
  datatype DriverError = JobMissing | JobNotPending | RunAborted

  /**
   * The effect of one startVerification call: the store afterwards, the
   * error it threw, if any, and the snapshots and requests of its run.
   */
  datatype Started = Started(store: Store, error: Option<DriverError>, published: seq<BatchInfo>, requests: seq<Request>)

  /** The batches of a job's addresses. */
  function Batches(job: Job): seq<seq<string>>
  {
    ChunkArray(Addresses(job.emails), BatchSize)
  }

  /** The batch index at which a run of `job` stops. */
  function Halt(job: Job, faultAt: Option<nat>): nat
  {
    HaltAt(|Batches(job)|, faultAt)
  }

  /** startVerification goes past its guards: the job exists and is PENDING. */
  predicate Startable(store: Store, id: JobId)
  {
    id in store && store[id].status == JobPending
  }

  /** No reply of the service carries PENDING. */
  ghost predicate NeverPending(oracle: Oracle)
  {
    forall k, emails :: NeverPendingReply(oracle(k, emails))
  }

  /**
   * The reference status of position `i` after a run, read off the input
   * without the batching loop: the outcome of its place in the slice of
   * positions `(i / 100) * 100` to `(i / 100) * 100 + 99`, sent as batch
   * number `i / 100 + 1`. That is INVALID_FORMAT for a malformed address,
   * and otherwise the verdict of the reply to the request carrying the
   * slice's well-formed addresses.
   */
  function EmailOutcome(addresses: seq<string>, oracle: Oracle, i: nat): VerificationStatus
    requires i < |addresses|
  {
    FloorBelow(i, BatchSize);
    var b := i / BatchSize;
    var batch := addresses[b * BatchSize .. Min(b * BatchSize + BatchSize, |addresses|)];
    Outcome(batch, b + 1, oracle, i - b * BatchSize)
  }

  /** Position `i` is position `i - k * 100` of batch `k = i / 100`, whose outcome is the reference status. */
  lemma BatchOutcomeIsEmailOutcome(addresses: seq<string>, oracle: Oracle, i: nat)
    requires i < |addresses|
    ensures var batches := ChunkArray(addresses, BatchSize); var k := i / BatchSize;
      && k < |batches| && k * BatchSize <= i < k * BatchSize + |batches[k]|
      && BatchOutcome(batches, k, oracle, i - k * BatchSize) == EmailOutcome(addresses, oracle, i)
  {
    ChunkOfIndex(addresses, BatchSize, i);
    BatchIsSlice(addresses, i / BatchSize);
  }

  /** Batch `k` is the slice of positions `k * 100` up to `k * 100 + 99`, clamped to the end. */
  lemma BatchIsSlice(addresses: seq<string>, k: nat)
    requires k < |ChunkArray(addresses, BatchSize)|
    ensures k * BatchSize <= Min(k * BatchSize + BatchSize, |addresses|) <= |addresses|
    ensures ChunkArray(addresses, BatchSize)[k] == addresses[k * BatchSize .. Min(k * BatchSize + BatchSize, |addresses|)]
  {
    MulSucc(k, BatchSize);
  }

  /** The per-batch outcomes of the first `h` batches are the reference statuses of their positions. */
  lemma DoneMeansEmailOutcome(final: Job, addresses: seq<string>, h: nat, oracle: Oracle)
    requires |final.emails| == |addresses|
    requires h <= |ChunkArray(addresses, BatchSize)|
    requires Done(final, ChunkArray(addresses, BatchSize), h, oracle)
    ensures forall i :: 0 <= i < |addresses| && i < h * BatchSize ==>
      final.emails[i].status == EmailOutcome(addresses, oracle, i)
  {
    forall i | 0 <= i < |addresses| && i < h * BatchSize
      ensures final.emails[i].status == EmailOutcome(addresses, oracle, i)
    {
      DoneAt(final, addresses, h, oracle, i);
    }
  }

  /** Position `i` of one of the first `h` batches holds its reference status. */
  lemma DoneAt(final: Job, addresses: seq<string>, h: nat, oracle: Oracle, i: nat)
    requires |final.emails| == |addresses| && i < |addresses| && i < h * BatchSize
    requires h <= |ChunkArray(addresses, BatchSize)|
    requires Done(final, ChunkArray(addresses, BatchSize), h, oracle)
    ensures final.emails[i].status == EmailOutcome(addresses, oracle, i)
  {
    var batches := ChunkArray(addresses, BatchSize);
    BatchOutcomeIsEmailOutcome(addresses, oracle, i);
    QuotientInRange(i, BatchSize, h);
    var k := i / BatchSize;
    var p := i - k * BatchSize;
    DoneInstance(final, batches, h, oracle, k, p);
    assert k * BatchSize + p == i;
  }

  /** One position of one of the first `count` batches holds its outcome. */
  lemma DoneInstance(job: Job, batches: seq<seq<string>>, count: nat, oracle: Oracle, b: nat, p: nat)
    requires Done(job, batches, count, oracle)
    requires b < count && b < |batches| && p < |batches[b]|
    ensures b * BatchSize + p < |job.emails|
    ensures job.emails[b * BatchSize + p].status == BatchOutcome(batches, b, oracle, p)
  {
  }

  /** A run that never answers PENDING leaves no position PENDING, so every address is counted. */
  lemma FullRunProcessesAll(addresses: seq<string>, final: Job, oracle: Oracle)
    requires WellFormed(final) && |final.emails| == |addresses|
    requires forall i :: 0 <= i < |addresses| ==> final.emails[i].status == EmailOutcome(addresses, oracle, i)
    requires NeverPending(oracle)
    ensures final.processedCount == final.totalEmails
    ensures final.statusCounts.valid + final.statusCounts.invalid == final.processedCount
  {
    forall i | 0 <= i < |addresses|
      ensures final.emails[i].status != Pending
    {
      EmailOutcomeSettled(addresses, oracle, i);
    }
    WellFormedFinished(final);
    WellFormedCounters(final);
  }

  /** A service that never answers PENDING leaves no reference status PENDING. */
  lemma EmailOutcomeSettled(addresses: seq<string>, oracle: Oracle, i: nat)
    requires i < |addresses| && NeverPending(oracle)
    ensures EmailOutcome(addresses, oracle, i) != Pending
  {
    FloorBelow(i, BatchSize);
    var b := i / BatchSize;
    var batch := addresses[b * BatchSize .. Min(b * BatchSize + BatchSize, |addresses|)];
    assert NeverPendingReply(oracle(b + 1, ValidEmails(batch)));
    AnsweredStatusSettles(oracle(b + 1, ValidEmails(batch)), batch[i - b * BatchSize]);
  }

  /**
   * What a run that stopped at batch `h` leaves in the records of the job
   * it started from: reference statuses before `h * 100`, the original
   * records from there on, and every status settled when no fault escaped.
   */
  lemma {:induction false} RunSettles(original: Job, run: Job, final: Job, h: nat, oracle: Oracle, faultAt: Option<nat>)
    requires h == Halt(original, faultAt) && final.emails == run.emails
    requires |run.emails| == |original.emails|
    requires SameOutside(original, run, 0, h * BatchSize)
    requires Done(run, Batches(original), h, oracle)
    ensures forall i :: 0 <= i < |original.emails| && i < h * BatchSize ==>
      final.emails[i].status == EmailOutcome(Addresses(original.emails), oracle, i)
    ensures forall i :: h * BatchSize <= i < |original.emails| ==> final.emails[i] == original.emails[i]
    ensures faultAt.None? ==> forall i :: 0 <= i < |original.emails| ==>
      final.emails[i].status == EmailOutcome(Addresses(original.emails), oracle, i)
    ensures faultAt.None? && WellFormed(final) && NeverPending(oracle) ==> final.processedCount == final.totalEmails
  {
    var addresses := Addresses(original.emails);
    DoneMeansEmailOutcome(run, addresses, h, oracle);
    if faultAt.None? {
      ChunkArrayCount(addresses, BatchSize);
      assert |original.emails| <= h * BatchSize;
      if WellFormed(final) && NeverPending(oracle) {
        FullRunProcessesAll(addresses, final, oracle);
      }
    }
  }

  /**
   * The end of startVerification: the run's job written back, its final
   * status set and its batch snapshot cleared.
   */
  function Finish(store: Store, id: JobId, run: Job, status: JobStatus, now: int): (r: Store)
    ensures r.Keys == store.Keys + {id}
    ensures forall other :: other in store && other != id ==> r[other] == store[other]
    ensures r[id] == run.(status := status, currentBatch := None, updatedAt := now)
  {
    UpdateBatchInfo(UpdateJobStatus(store[id := run], id, status, now), id, None, now)
  }

  /** The part of startVerification past its guards, on a PENDING job. */
  method Launch(store: Store, id: JobId, oracle: Oracle, faultAt: Option<nat>, now: int) returns (r: Started)
    requires Startable(store, id)
    ensures r.store.Keys == store.Keys
    ensures forall other :: other in store && other != id ==> r.store[other] == store[other]
    ensures r.error == (if Halt(store[id], faultAt) < |Batches(store[id])| then Some(RunAborted) else None)
    ensures r.store[id].status == (if r.error.None? then JobCompleted else JobFailed)
    ensures SameRecords(store[id], r.store[id]) && r.store[id].currentBatch == None && r.store[id].updatedAt == now
    ensures forall i :: 0 <= i < |store[id].emails| && i < Halt(store[id], faultAt) * BatchSize ==>
      r.store[id].emails[i].status == EmailOutcome(Addresses(store[id].emails), oracle, i)
    ensures forall i :: Halt(store[id], faultAt) * BatchSize <= i < |store[id].emails| ==>
      r.store[id].emails[i] == store[id].emails[i]
    ensures |r.published| == Halt(store[id], faultAt)
    ensures forall b :: 0 <= b < |r.published| ==> r.published[b] == Snapshot(Batches(store[id]), b)
    ensures r.requests == RequestsSent(Batches(store[id]), Halt(store[id], faultAt))
    ensures WellFormed(store[id]) && AllPending(store[id].emails) ==> WellFormed(r.store[id])
    ensures faultAt.None? ==> forall i :: 0 <= i < |store[id].emails| ==>
      r.store[id].emails[i].status == EmailOutcome(Addresses(store[id].emails), oracle, i)
    ensures faultAt.None? && WellFormed(store[id]) && AllPending(store[id].emails) && NeverPending(oracle) ==>
      r.store[id].processedCount == r.store[id].totalEmails
  {
    var processing := UpdateJobStatus(store, id, JobProcessing, now);
    var job := processing[id];
    assert Addresses(job.emails) == Addresses(store[id].emails);
    var batches := ChunkArray(Addresses(job.emails), BatchSize);
    ChunksFit(Addresses(job.emails));
    var log, aborted := RunBatches(job, batches, oracle, faultAt, now);
    var final := if aborted then JobFailed else JobCompleted;
    var settled := Finish(processing, id, log.job, final, now);
    assert job.emails == store[id].emails;
    assert SameOutside(store[id], log.job, 0, Halt(store[id], faultAt) * BatchSize);
    if WellFormed(store[id]) && AllPending(store[id].emails) {
      var closed := log.job.(status := final, updatedAt := now);
      SettersKeepWellFormed(log.job, final, None, now);
      SettersKeepWellFormed(closed, final, None, now);
      assert settled[id] == closed.(currentBatch := None, updatedAt := now);
    }
    RunSettles(store[id], log.job, settled[id], Halt(store[id], faultAt), oracle, faultAt);
    r := Started(settled, if aborted then Some(RunAborted) else None, log.published, log.requests);
  }

  /**
   * startVerification(jobId): refuse a missing or non-PENDING job; set
   * PROCESSING; run the batches; then COMPLETED, or FAILED and rethrow when
   * an exception escaped the loop; and clear the snapshot either way.
   */
  method StartVerification(store: Store, id: JobId, oracle: Oracle, faultAt: Option<nat>, now: int) returns (r: Started)
    ensures id !in store ==> r == Started(store, Some(JobMissing), [], [])
    ensures id in store && store[id].status != JobPending ==> r == Started(store, Some(JobNotPending), [], [])
    ensures Startable(store, id) ==> r.store.Keys == store.Keys
    ensures Startable(store, id) ==> forall other :: other in store && other != id ==> r.store[other] == store[other]
    ensures Startable(store, id) ==>
      r.error == (if Halt(store[id], faultAt) < |Batches(store[id])| then Some(RunAborted) else None)
    ensures Startable(store, id) ==> r.store[id].status == (if r.error.None? then JobCompleted else JobFailed)
    ensures Startable(store, id) ==>
      SameRecords(store[id], r.store[id]) && r.store[id].currentBatch == None && r.store[id].updatedAt == now
    ensures Startable(store, id) ==> forall i :: 0 <= i < |store[id].emails| && i < Halt(store[id], faultAt) * BatchSize ==>
      r.store[id].emails[i].status == EmailOutcome(Addresses(store[id].emails), oracle, i)
    ensures Startable(store, id) ==> forall i :: Halt(store[id], faultAt) * BatchSize <= i < |store[id].emails| ==>
      r.store[id].emails[i] == store[id].emails[i]
    ensures Startable(store, id) ==> |r.published| == Halt(store[id], faultAt)
    ensures Startable(store, id) ==> forall b :: 0 <= b < |r.published| ==> r.published[b] == Snapshot(Batches(store[id]), b)
    ensures Startable(store, id) ==> r.requests == RequestsSent(Batches(store[id]), Halt(store[id], faultAt))
    ensures Startable(store, id) && WellFormed(store[id]) && AllPending(store[id].emails) ==> WellFormed(r.store[id])
    ensures Startable(store, id) && faultAt.None? ==> forall i :: 0 <= i < |store[id].emails| ==>
      r.store[id].emails[i].status == EmailOutcome(Addresses(store[id].emails), oracle, i)
    ensures Startable(store, id) && faultAt.None? && WellFormed(store[id]) && AllPending(store[id].emails) && NeverPending(oracle) ==>
      r.store[id].processedCount == r.store[id].totalEmails
  {
    if id !in store {
      return Started(store, Some(JobMissing), [], []);
    }
    if store[id].status != JobPending {
      return Started(store, Some(JobNotPending), [], []);
    }
    r := Launch(store, id, oracle, faultAt, now);
  }

  /**
   * Batch `b` (0-based) of `n` addresses is published as batch `b + 1` of
   * `ceil(n / 100)`, covering positions `b * 100 + 1` to
   * `b * 100 + min(100, n - b * 100)`, counted from 1.
   */
  lemma PublishedLayout(job: Job, b: nat)
    requires b < |Batches(job)|
    ensures var n := |job.emails|;
      Snapshot(Batches(job), b) == BatchInfo(b + 1, (n + BatchSize - 1) / BatchSize, b * BatchSize + 1, b * BatchSize + Min(BatchSize, n - b * BatchSize))
  {
    var addresses := Addresses(job.emails);
    ChunkArrayCount(addresses, BatchSize);
    var batches := ChunkArray(addresses, BatchSize);
    MulSucc(b, BatchSize);
    assert batches[b] == addresses[b * BatchSize .. Min((b + 1) * BatchSize, |addresses|)];
  }

  /** A failed request makes every well-formed address of its batch API_ERROR. */
  lemma FailedRequestMeansApiError(addresses: seq<string>, oracle: Oracle, i: nat)
    requires i < |addresses|
    requires var b := i / BatchSize;
      b * BatchSize <= |addresses| &&
      oracle(b + 1, ValidEmails(addresses[b * BatchSize .. Min(b * BatchSize + BatchSize, |addresses|)])).None?
    ensures EmailOutcome(addresses, oracle, i) == (if IsValidEmailFormat(addresses[i]) then ApiError else InvalidFormat)
  {
  }

  /** A position's status depends only on the reply to its own batch's request. */
  lemma OutcomeIsolated(addresses: seq<string>, oracle: Oracle, other: Oracle, i: nat)
    requires i < |addresses|
    requires var b := i / BatchSize;
      b * BatchSize <= |addresses| &&
      var body := ValidEmails(addresses[b * BatchSize .. Min(b * BatchSize + BatchSize, |addresses|)]);
      oracle(b + 1, body) == other(b + 1, body)
    ensures EmailOutcome(addresses, oracle, i) == EmailOutcome(addresses, other, i)
  {
  }

  /** Equal addresses in one batch get the same status. */
  lemma DuplicatesAgree(addresses: seq<string>, oracle: Oracle, i: nat, j: nat)
    requires i < |addresses| && j < |addresses|
    requires i / BatchSize == j / BatchSize && addresses[i] == addresses[j]
    ensures EmailOutcome(addresses, oracle, i) == EmailOutcome(addresses, oracle, j)
  {
  }

  // ---------------------------------------------------------------------
  // generateResultsCSV
  // ---------------------------------------------------------------------

  const ResultColumns: seq<string> := ["email", "verification_status"]

  /** The two-column rows of the export, one per record, in the job's order. */
  function ResultRows(records: seq<EmailRecord>): (rows: seq<Row>)
    ensures |rows| == |records|
    ensures forall i :: 0 <= i < |records| ==>
      rows[i] == [("email", records[i].email), ("verification_status", StatusName(records[i].status))]
  {
    seq(|records|, i requires 0 <= i < |records| =>
      [("email", records[i].email), ("verification_status", StatusName(records[i].status))])
  }

  /** `generateResultsCSV(jobId)`: fails for a missing job; does not look at the job's status. */
  function GenerateResultsCsv(store: Store, id: JobId): (r: Result<CsvText, DriverError>)
    ensures id !in store <==> r == Err(JobMissing)
    ensures r.Err? ==> r == Err(JobMissing)
    ensures id in store && |store[id].emails| == 0 ==> r == Ok(EmptyText)
    ensures id in store && |store[id].emails| > 0 ==>
      && r.Ok? && r.value.Table?
      && r.value.header == ResultColumns
      && |r.value.body| == |store[id].emails|
      && forall i :: 0 <= i < |store[id].emails| ==>
           r.value.body[i] == [store[id].emails[i].email, StatusName(store[id].emails[i].status)]
  {
    if id !in store then Err(JobMissing)
    else
      var rows := ResultRows(store[id].emails);
      var text := GenerateCsv(rows, ResultColumns);
      assert forall i :: 0 <= i < |rows| ==>
        Fields(rows[i], ResultColumns) == [store[id].emails[i].email, StatusName(store[id].emails[i].status)] by {
        forall i | 0 <= i < |rows|
          ensures Fields(rows[i], ResultColumns) == [store[id].emails[i].email, StatusName(store[id].emails[i].status)]
        {
          assert "email" != "verification_status";
          assert Lookup(rows[i], "email") == Some(store[id].emails[i].email);
          assert Lookup(rows[i], "verification_status") == Some(StatusName(store[id].emails[i].status));
        }
      }
      Ok(text)
  }
}
