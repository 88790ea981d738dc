/**
 * The in-memory job store of lib/services/jobStore.ts: a map from job id to
 * job, with creation, lookup, field setters, the per-email result update
 * that keeps the aggregate counters, deletion and the age-based sweep.
 */
module JobStore {
  import opened Wrappers
  import opened Types

  type Store = map<JobId, Job>

  /** The sweep removes jobs created more than one hour ago. */
  const RetentionMs: int := 60 * 60 * 1000

  // ---------------------------------------------------------------------
  // Counting per-email statuses
  // ---------------------------------------------------------------------

  /** The VALID bucket. */
  predicate CountsAsValid(s: VerificationStatus)
  {
    s == Valid
  }

  /** The INVALID bucket: every final status other than VALID. */
  predicate CountsAsInvalid(s: VerificationStatus)
  {
    s != Pending && s != Valid
  }

  /** A record has been processed once it has left PENDING. */
  predicate IsProcessed(s: VerificationStatus)
  {
    s != Pending
  }

  /** The number of records whose status satisfies `counted`. */
  function Tally(records: seq<EmailRecord>, counted: VerificationStatus -> bool): (n: nat)
    ensures n <= |records|
  {
    if |records| == 0 then 0
    else (if counted(records[0].status) then 1 else 0) + Tally(records[1..], counted)
  }

  /** Changing one record's status moves the tally by that record's change alone. */
  lemma {:induction false} TallyUpdate(records: seq<EmailRecord>, i: int, status: VerificationStatus, counted: VerificationStatus -> bool)
    requires 0 <= i < |records|
    ensures Tally(records[i := records[i].(status := status)], counted)
         == Tally(records, counted) - (if counted(records[i].status) then 1 else 0) + (if counted(status) then 1 else 0)
  {
    var updated := records[i := records[i].(status := status)];
    if i == 0 {
      assert updated[1..] == records[1..];
    } else {
      assert updated[1..] == records[1..][i - 1 := records[i].(status := status)];
      TallyUpdate(records[1..], i - 1, status, counted);
    }
  }

  /** The two buckets split the processed records. */
  lemma {:induction false} TallyPartition(records: seq<EmailRecord>)
    ensures Tally(records, CountsAsValid) + Tally(records, CountsAsInvalid) == Tally(records, IsProcessed)
  {
    if |records| > 0 {
      TallyPartition(records[1..]);
    }
  }

  /** A tally counts every record exactly when every record satisfies the predicate. */
  lemma {:induction false} TallyFull(records: seq<EmailRecord>, counted: VerificationStatus -> bool)
    ensures Tally(records, counted) == |records| <==> forall i :: 0 <= i < |records| ==> counted(records[i].status)
  {
    if |records| > 0 {
      TallyFull(records[1..], counted);
      assert forall i :: 1 <= i < |records| ==> records[i] == records[1..][i - 1];
    }
  }

  /** A tally is zero exactly when no record satisfies the predicate. */
  lemma {:induction false} TallyEmpty(records: seq<EmailRecord>, counted: VerificationStatus -> bool)
    ensures Tally(records, counted) == 0 <==> forall i :: 0 <= i < |records| ==> !counted(records[i].status)
  {
    if |records| > 0 {
      TallyEmpty(records[1..], counted);
      assert forall i :: 1 <= i < |records| ==> records[i] == records[1..][i - 1];
    }
  }

  predicate AllPending(records: seq<EmailRecord>)
  {
    forall i :: 0 <= i < |records| ==> records[i].status == Pending
  }

  /** The aggregate buckets agree with the per-email statuses. */
  predicate BucketsMatch(job: Job)
  {
    && job.statusCounts.valid == Tally(job.emails, CountsAsValid)
    && job.statusCounts.invalid == Tally(job.emails, CountsAsInvalid)
  }

  /** `processedCount` is the number of records that have left PENDING. */
  predicate ProcessedMatches(job: Job)
  {
    job.processedCount == Tally(job.emails, IsProcessed)
  }

  /** The counter invariant of a job. */
  predicate WellFormed(job: Job)
  {
    job.totalEmails == |job.emails| && BucketsMatch(job) && ProcessedMatches(job)
  }

  /** A well-formed job has VALID + INVALID == processedCount <= totalEmails. */
  lemma WellFormedCounters(job: Job)
    requires WellFormed(job)
    ensures job.statusCounts.valid + job.statusCounts.invalid == job.processedCount <= job.totalEmails
    ensures job.statusCounts.valid >= 0 && job.statusCounts.invalid >= 0
  {
    TallyPartition(job.emails);
  }

  /** A job whose counters agree with its records has processed every email exactly when no record is PENDING. */
  lemma {:induction false} WellFormedFinished(job: Job)
    requires WellFormed(job)
    ensures job.processedCount == job.totalEmails <==> forall i :: 0 <= i < |job.emails| ==> job.emails[i].status != Pending
  {
    TallyFull(job.emails, IsProcessed);
  }

  // ---------------------------------------------------------------------
  // createJob, getJob, getJobCount
  // ---------------------------------------------------------------------

  /** One PENDING record per address, carrying the row at the same index, or an empty row when the rows run short. */
  function InitialRecords(emails: seq<string>, rows: seq<Row>): (records: seq<EmailRecord>)
    ensures |records| == |emails|
    ensures forall i :: 0 <= i < |emails| ==>
      records[i] == EmailRecord(emails[i], Pending, if i < |rows| then rows[i] else [])
  {
    if |emails| == 0 then []
    else
      var rest := InitialRecords(emails[1..], if |rows| > 0 then rows[1..] else []);
      var records := [EmailRecord(emails[0], Pending, if |rows| > 0 then rows[0] else [])] + rest;
      assert forall i :: 1 <= i < |emails| ==> records[i] == rest[i - 1];
      records
  }

  datatype Created = Created(store: Store, job: Job)

  /** `getJobCount()`: the number of jobs held, zero exactly when the store holds none. */
  function GetJobCount(store: Store): (count: nat)
    ensures count == |store.Keys|
    ensures count == 0 <==> store == map[]
  {
    |store|
  }

  /**
   * `createJob(emails, rows, emailColumnName)` under the fresh identifier
   * `id` (a UUID in the service) at time `now`.
   */
  function CreateJob(store: Store, emails: seq<string>, rows: seq<Row>, emailColumnName: string, id: JobId, now: int): (r: Created)
    requires id !in store
    ensures r.store == store[id := r.job]
    ensures GetJobCount(r.store) == GetJobCount(store) + 1
    ensures && r.job.jobId == id
            && r.job.status == JobPending
            && r.job.totalEmails == |emails|
            && r.job.processedCount == 0
            && r.job.statusCounts == StatusCounts(0, 0)
            && r.job.currentBatch == None
            && r.job.emailColumnName == emailColumnName
            && r.job.createdAt == now && r.job.updatedAt == now
    ensures |r.job.emails| == |emails|
    ensures forall i :: 0 <= i < |emails| ==>
      && r.job.emails[i].email == emails[i]
      && r.job.emails[i].status == Pending
      && r.job.emails[i].originalRow == (if i < |rows| then rows[i] else [])
  {
    var job := Job(id, JobPending, |emails|, 0, StatusCounts(0, 0), InitialRecords(emails, rows),
                   emailColumnName, now, now, None);
    Created(store[id := job], job)
  }

  /** `getJob(jobId)`. */
  function GetJob(store: Store, id: JobId): (r: Option<Job>)
    ensures r.Some? <==> id in store
    ensures r.Some? ==> r.value == store[id]
  {
    if id in store then Some(store[id]) else None
  }

  // ---------------------------------------------------------------------
  // updateJobStatus, updateBatchInfo
  // ---------------------------------------------------------------------

  /** `updateJobStatus(jobId, status)`: no check that the transition is legal. */
  function UpdateJobStatus(store: Store, id: JobId, status: JobStatus, now: int): (r: Store)
    ensures r.Keys == store.Keys
    ensures forall other :: other in store && other != id ==> r[other] == store[other]
    ensures id in store ==> r[id] == store[id].(status := status, updatedAt := now)
  {
    if id in store then store[id := store[id].(status := status, updatedAt := now)] else store
  }

  /** `updateBatchInfo(jobId, batchInfo)`. */
  function UpdateBatchInfo(store: Store, id: JobId, info: Option<BatchInfo>, now: int): (r: Store)
    ensures r.Keys == store.Keys
    ensures forall other :: other in store && other != id ==> r[other] == store[other]
    ensures id in store ==> r[id] == store[id].(currentBatch := info, updatedAt := now)
  {
    if id in store then store[id := store[id].(currentBatch := info, updatedAt := now)] else store
  }

  /** Setting the status or the batch snapshot leaves the counters agreeing with the records. */
  lemma SettersKeepWellFormed(job: Job, status: JobStatus, info: Option<BatchInfo>, now: int)
    requires WellFormed(job)
    ensures WellFormed(job.(status := status, updatedAt := now))
    ensures WellFormed(job.(currentBatch := info, updatedAt := now))
  {
  }

  // ---------------------------------------------------------------------
  // updateEmailResult
  // ---------------------------------------------------------------------

  /** The VALID/INVALID buckets after the old status stops being counted. */
  function Uncount(counts: StatusCounts, previous: VerificationStatus): StatusCounts
  {
    if previous == Valid then counts.(valid := counts.valid - 1)
    else if previous != Pending then counts.(invalid := counts.invalid - 1)
    else counts
  }

  /** The VALID/INVALID buckets after the new status is counted. */
  function Count(counts: StatusCounts, next: VerificationStatus): StatusCounts
  {
    if next == Valid then counts.(valid := counts.valid + 1)
    else if next != Pending then counts.(invalid := counts.invalid + 1)
    else counts
  }

  /**
   * The effect of `updateEmailResult` on the job it finds: nothing when the
   * index is out of range or the status is unchanged; otherwise the record
   * takes the new status, the buckets move from the old status to the new
   * one, and `processedCount` is incremented, whatever the old status was.
   */
  function RecordResult(job: Job, index: int, status: VerificationStatus, now: int): (r: Job)
    ensures !(0 <= index < |job.emails|) || job.emails[index].status == status ==> r == job
    ensures && r.jobId == job.jobId && r.status == job.status && r.totalEmails == job.totalEmails
            && r.emailColumnName == job.emailColumnName && r.createdAt == job.createdAt
            && r.currentBatch == job.currentBatch
    ensures |r.emails| == |job.emails|
    ensures forall j :: 0 <= j < |job.emails| && j != index ==> r.emails[j] == job.emails[j]
    ensures 0 <= index < |job.emails| ==> r.emails[index] == job.emails[index].(status := status)
    ensures 0 <= index < |job.emails| && job.emails[index].status != status ==>
      r.processedCount == job.processedCount + 1 && r.updatedAt == now
    ensures 0 <= index < |job.emails| && job.emails[index].status == Pending && status != Pending ==>
      r.statusCounts == (if status == Valid then job.statusCounts.(valid := job.statusCounts.valid + 1)
                         else job.statusCounts.(invalid := job.statusCounts.invalid + 1))
    ensures 0 <= index < |job.emails| && job.emails[index].status != Pending && status != Pending ==>
      r.statusCounts.valid + r.statusCounts.invalid == job.statusCounts.valid + job.statusCounts.invalid
  {
    if !(0 <= index < |job.emails|) then job
    else
      var previous := job.emails[index].status;
      if previous == status then job
      else
        job.(emails := job.emails[index := job.emails[index].(status := status)],
             statusCounts := Count(Uncount(job.statusCounts, previous), status),
             processedCount := job.processedCount + 1,
             updatedAt := now)
  }

  /** `updateEmailResult(jobId, emailIndex, status)`: a silent no-op for an unknown job. */
  function UpdateEmailResult(store: Store, id: JobId, index: int, status: VerificationStatus, now: int): (r: Store)
    ensures id !in store ==> r == store
    ensures id in store && !(0 <= index < |store[id].emails|) ==> r == store
    ensures id in store && 0 <= index < |store[id].emails| && store[id].emails[index].status == status ==> r == store
    ensures r.Keys == store.Keys
    ensures forall other :: other in store && other != id ==> r[other] == store[other]
    ensures id in store ==> r[id] == RecordResult(store[id], index, status, now)
  {
    if id !in store then store
    else
      var job := store[id];
      if !(0 <= index < |job.emails|) || job.emails[index].status == status then store
      else store[id := RecordResult(job, index, status, now)]
  }

  /** The buckets stay equal to the census of statuses under every update, whatever the old status. */
  lemma RecordResultKeepsBuckets(job: Job, index: int, status: VerificationStatus, now: int)
    requires BucketsMatch(job)
    ensures BucketsMatch(RecordResult(job, index, status, now))
  {
    if 0 <= index < |job.emails| && job.emails[index].status != status {
      TallyUpdate(job.emails, index, status, CountsAsValid);
      TallyUpdate(job.emails, index, status, CountsAsInvalid);
    }
  }

  /**
   * The counter invariant survives an update that takes a record out of
   * PENDING (or re-applies its status): each record may leave PENDING once.
   */
  lemma RecordResultKeepsWellFormed(job: Job, index: int, status: VerificationStatus, now: int)
    requires WellFormed(job)
    requires 0 <= index < |job.emails| ==> job.emails[index].status == Pending || job.emails[index].status == status
    ensures WellFormed(RecordResult(job, index, status, now))
  {
    RecordResultKeepsBuckets(job, index, status, now);
    if 0 <= index < |job.emails| && job.emails[index].status != status {
      TallyUpdate(job.emails, index, status, IsProcessed);
    }
  }

  /**
   * Any other update breaks the counter invariant: a record that changes
   * status a second time is counted again in `processedCount`, while the
   * buckets only move between themselves.
   */
  lemma RecordResultRecounts(job: Job, index: int, status: VerificationStatus, now: int)
    requires WellFormed(job)
    requires 0 <= index < |job.emails| && job.emails[index].status != Pending && job.emails[index].status != status
    ensures var r := RecordResult(job, index, status, now);
      && BucketsMatch(r)
      && r.processedCount > Tally(r.emails, IsProcessed)
      && r.statusCounts.valid + r.statusCounts.invalid < r.processedCount
  {
    var r := RecordResult(job, index, status, now);
    RecordResultKeepsBuckets(job, index, status, now);
    TallyUpdate(job.emails, index, status, IsProcessed);
    TallyPartition(r.emails);
  }

  // ---------------------------------------------------------------------
  // deleteJob, cleanupOldJobs
  // ---------------------------------------------------------------------

  datatype Deleted = Deleted(store: Store, existed: bool)

  /** `deleteJob(jobId)`: removes the job and reports whether it was there. */
  function DeleteJob(store: Store, id: JobId): (r: Deleted)
    ensures r.existed <==> id in store
    ensures r.store.Keys == store.Keys - {id}
    ensures forall other :: other in r.store ==> r.store[other] == store[other]
    ensures GetJobCount(r.store) == GetJobCount(store) - (if r.existed then 1 else 0)
  {
    var kept := store - {id};
    assert kept.Keys == store.Keys - {id};
    Deleted(kept, id in store)
  }

  /** The job was created more than one hour before `now`. */
  predicate Expired(job: Job, now: int)
  {
    job.createdAt < now - RetentionMs
  }

  function ExpiredIds(store: Store, now: int): set<JobId>
  {
    set id | id in store && Expired(store[id], now)
  }

  /** The store without its expired jobs; every remaining job is unchanged. */
  function SweepExpired(store: Store, now: int): (kept: Store)
    ensures kept.Keys == store.Keys - ExpiredIds(store, now)
    ensures forall id :: id in kept ==> kept[id] == store[id]
  {
    map id | id in store && !Expired(store[id], now) :: store[id]
  }

  /** Removing a present key shrinks a map by one. */
  lemma RemoveKeyCardinality(m: Store, id: JobId)
    requires id in m
    ensures (m - {id}).Keys == m.Keys - {id}
    ensures |m - {id}| == |m| - 1
  {
    var r := m - {id};
    assert r.Keys == m.Keys - {id};
    assert |r.Keys| == |m.Keys| - 1;
  }

  /** `removed` holds exactly the expired jobs among those already visited. */
  ghost predicate SweptSoFar(store: Store, now: int, unvisited: set<JobId>, removed: set<JobId>)
  {
    forall id :: id in removed <==> id in store && id !in unvisited && Expired(store[id], now)
  }

  /** Visiting one more job keeps `removed` exact. */
  lemma VisitKeepsSwept(store: Store, now: int, unvisited: set<JobId>, removed: set<JobId>, id: JobId)
    requires SweptSoFar(store, now, unvisited, removed) && id in unvisited && unvisited <= store.Keys
    ensures SweptSoFar(store, now, unvisited - {id}, if Expired(store[id], now) then removed + {id} else removed)
  {
  }

  /**
   * `cleanupOldJobs()` at time `now`: visits every job once, deletes the
   * expired ones, and returns how many it deleted.
   */
  method CleanupOldJobs(store: Store, now: int) returns (kept: Store, deleted: nat)
    ensures kept == SweepExpired(store, now)
    ensures deleted == |ExpiredIds(store, now)|
    ensures deleted + |kept| == |store|
  {
    kept := store;
    deleted := 0;
    var unvisited := store.Keys;
    ghost var removed: set<JobId> := {};
    while unvisited != {}
      invariant unvisited <= store.Keys
      invariant SweptSoFar(store, now, unvisited, removed)
      invariant kept.Keys == store.Keys - removed
      invariant forall id :: id in kept ==> kept[id] == store[id]
      invariant deleted == |removed|
      invariant deleted + |kept| == |store|
      decreases unvisited
    {
      var id :| id in unvisited;
      assert id in kept && kept[id] == store[id];
      VisitKeepsSwept(store, now, unvisited, removed, id);
      if Expired(kept[id], now) {
        RemoveKeyCardinality(kept, id);
        assert kept.Keys - {id} == store.Keys - (removed + {id});
        kept := kept - {id};
        removed := removed + {id};
        deleted := deleted + 1;
      }
      unvisited := unvisited - {id};
    }
    assert removed == ExpiredIds(store, now);
    var sweep := SweepExpired(store, now);
    assert kept.Keys == sweep.Keys;
    assert forall id :: id in kept ==> kept[id] == sweep[id];
  }

  // ---------------------------------------------------------------------
  // The store invariant
  // ---------------------------------------------------------------------

  /**
   * What every job reached through the public operations satisfies: it is
   * filed under its own id, its counters agree with its records, a job not
   * yet started has only PENDING records, and only a job being processed
   * has a batch snapshot.
   */
  predicate JobInvariant(id: JobId, job: Job)
  {
    && job.jobId == id
    && WellFormed(job)
    && (job.status == JobPending ==> AllPending(job.emails))
    && (job.status != JobProcessing ==> job.currentBatch == None)
  }

  predicate StoreInvariant(store: Store)
  {
    forall id :: id in store ==> JobInvariant(id, store[id])
  }

  /** A newly created job satisfies the invariant and leaves the others alone. */
  lemma CreateJobKeepsInvariant(store: Store, emails: seq<string>, rows: seq<Row>, emailColumnName: string, id: JobId, now: int)
    requires id !in store && StoreInvariant(store)
    ensures StoreInvariant(CreateJob(store, emails, rows, emailColumnName, id, now).store)
  {
    var job := CreateJob(store, emails, rows, emailColumnName, id, now).job;
    TallyEmpty(job.emails, CountsAsValid);
    TallyEmpty(job.emails, CountsAsInvalid);
    TallyEmpty(job.emails, IsProcessed);
  }

  /** Removing jobs keeps the invariant of the remaining ones. */
  lemma RemovalKeepsInvariant(store: Store, id: JobId, now: int)
    requires StoreInvariant(store)
    ensures StoreInvariant(DeleteJob(store, id).store)
    ensures StoreInvariant(SweepExpired(store, now))
  {
  }
}
