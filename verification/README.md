# verifyflow: the job store and the batch verification driver

verifyflow takes a CSV upload of email addresses and files it as a job. The
job is checked in batches of 100 against an external verification service.
Progress can be polled while it runs, and the verdicts are downloaded as a
CSV. This project models the core of that system in Dafny:

- **the in-memory job store.** A map from job id to job. Each job holds one
  record per address, a VALID bucket and an INVALID bucket, a processed
  count, and the snapshot of the batch in flight. The store supports:
  - create and lookup;
  - the status and batch setters;
  - the per-record update that keeps the counters;
  - deletion and the one-hour sweep.
- **the verification driver.** It runs these steps:
  1. Refuse a missing job or one that is not PENDING.
  2. Mark the job PROCESSING and chunk its addresses into batches of 100.
  3. For every batch:
     - publish the batch snapshot;
     - mark each badly formatted address INVALID_FORMAT;
     - send the well-formed ones in one request;
     - write back the verdicts. An address without an answer, and every
       address of a failed request, becomes API_ERROR.
  4. Close the job as COMPLETED, or as FAILED if an exception escapes the
     loop.
- **the pure helpers.**
  - chunking;
  - the post-parser part of CSV reading: the column choice, and the
    trimmed, lower-cased addresses of the filled rows;
  - the shape of CSV output, including the empty export;
  - the email-format check;
  - the file-name sanitiser;
  - the percentage guard.
- **the four HTTP handlers** (upload, start, download, progress). Each is
  modelled with every guard and every error response it can reach; the
  catch-all 500 of the download and progress handlers is left out. They are
  written as functions from the store and the request to a response and the
  new store.

Strings are sequences of Unicode characters. Where JavaScript's UTF-16
code units make a difference, in the file-name sanitiser, they are counted
explicitly.

Two things are parameters of the model:

- The external service is an **oracle**. It maps a batch number and the
  addresses sent to the list of answers, or to None when the request
  fails.
- The clock (`now`) and the fresh job id.

An unexpected exception escaping the batch loop is the parameter `faultAt`:
the batch index at which the loop stops. No modelled code raises one.

The main results:

- **Per-address outcome.** After a run, every address holds exactly the
  outcome of its own batch. That outcome is stated by an independent
  reference, `EmailOutcome`, which is defined on the slice of 100 addresses
  around the position and not on the loop.
- **Untouched positions.** Positions past the point where the loop stopped
  are unchanged.
- **Snapshots.** The published batch snapshots are
  `(b+1, ceil(n/100), 100b+1, 100b+min(100, n-100b))`.
- **Requests.** Requests go out in batch order, one per batch that holds a
  well-formed address, and each carries exactly that batch's well-formed
  addresses.
- **Counters.** The counters stay consistent with the records
  (VALID + INVALID == processedCount <= totalEmails) as long as each record
  changes status at most once. A run over a fresh job, against a service
  that never answers PENDING, ends with processedCount == totalEmails.
- **Double counting.** The counter update is modelled as written. A second
  status change to the same record keeps the buckets right but counts the
  record twice in processedCount (`RecordResultRecounts`).

## Model

| member | source | states |
|---|---|---|
| `Helpers.ChunkArray` | lib/utils/helpers.ts:11-17 | Concatenating the chunks gives back the input. There are no chunks exactly when the input is empty. Chunk k is the slice from k*size up to (k+1)*size, clamped to the end. |
| `Helpers.ChunkArrayCount` | lib/utils/helpers.ts:13 | The number of chunks is ceil(n/size), both as (n+size-1)/size and as the bracket (count-1)*size < n <= count*size. |
| `Helpers.ChunkArrayShape` | lib/utils/helpers.ts:13-15 | Every chunk holds 1 to size elements, and every chunk except the last holds exactly size. |
| `Helpers.ChunkOfIndex` | lib/utils/helpers.ts:13-14 | Every position i of the input lies in chunk i/size at offset i - (i/size)*size (coverage). |
| `Helpers.ChunkIndexUnique` | lib/utils/helpers.ts:13-14 | No other chunk covers position i, so the chunks are disjoint. |
| `Csv.TrimStart` | lib/utils/csv.ts:43 | The result is a suffix of the input, everything dropped is JavaScript white space, and the result does not start with white space. |
| `Csv.TrimEnd` | lib/utils/csv.ts:43 | The result is a prefix of the input, everything dropped is JavaScript white space, and the result does not end with white space. |
| `Csv.TrimOfTrimmed` | lib/utils/csv.ts:43 | Trimming a string with no white space at either end changes nothing. |
| `Csv.ToLower` | lib/utils/csv.ts:43 | The length is kept, and each character is lower-cased on its own. |
| `Csv.NormalizeIdempotent` | lib/utils/csv.ts:43 | Trimming and lower-casing an address that is already normalised changes nothing. |
| `Csv.FormatHasShape` | lib/utils/csv.ts:75-77 | An address the pattern accepts has no white space, exactly one '@' with a non-empty local part before it, and a '.' in the domain with a character on each side. |
| `Csv.ShapeHasFormat` | lib/utils/csv.ts:75-77 | Every address of that shape is accepted by the pattern. |
| `Csv.EmailFormatCharacterization` | lib/utils/csv.ts:75-77 | `IsValidEmailFormat`, the pattern read literally, accepts an address if and only if it has that shape. |
| `Csv.SanitizeFilename` | lib/utils/csv.ts:83-85 | The result is as long as the name in UTF-16 code units, the length JavaScript reports, and every character of it is in [A-Za-z0-9._-]. |
| `Csv.SanitizeAppend` | lib/utils/csv.ts:83-85 | The replacement works character by character: sanitising a concatenation sanitises each part. |
| `Csv.SanitizeBasicPlane` | lib/utils/csv.ts:83-85 | For a name inside the Basic Multilingual Plane the length is kept, and each character outside [A-Za-z0-9._-] becomes one '_' while the others are kept. |
| `Csv.SanitizeAstralExample` | lib/utils/csv.ts:84 | A character outside the Basic Multilingual Plane is two UTF-16 code units, and the pattern has no `u` flag, so it becomes two '_'. |
| `Csv.SanitizeIdempotent` | lib/utils/csv.ts:83-85 | Sanitising twice is the same as sanitising once. |
| `Csv.SanitizeKeepsSafeNames` | lib/utils/csv.ts:83-85 | A name is left unchanged if and only if every character of it is allowed. |
| `Csv.RowEmails` | lib/utils/csv.ts:40-45 | A row contributes at most one address. |
| `Csv.ExtractEmails` | lib/utils/csv.ts:38-45 | There are never more addresses than rows. |
| `Csv.ExtractEmailsAppend` | lib/utils/csv.ts:40-45 | The addresses of two runs of rows are those of the first, then those of the second, so file order is kept. |
| `Csv.ExtractEmailsAligned` | lib/utils/csv.ts:40-45 | When every row has a non-empty email cell, address i is the normalised cell of row i. |
| `Csv.ExtractEmailsComplete` | lib/utils/csv.ts:40-45 | There are as many addresses as rows if and only if every row has a non-empty email cell. |
| `Csv.ExtractEmailsSource` | lib/utils/csv.ts:40-45 | Every address is the normalised, non-empty cell of some row, and it is already normalised. |
| `Csv.EmailColumn` | lib/utils/csv.ts:37 | The email column is one of the headers: the one at the requested index when that exists and is named, and the first header otherwise. |
| `Csv.ParseCsv` | lib/utils/csv.ts:27-52 | It fails with NoRecords exactly when there are no records, and with NoColumns exactly when the first record has no keys. Otherwise it returns the records unchanged, the first record's keys as headers, and the column at the given index, or the first one when that is absent or unnamed. The addresses are those extracted from that column, and there are no more of them than rows. |
| `Csv.Fields` | lib/utils/csv.ts:66-69 | A record's fields are its cells in column order, with an empty field for a missing cell. |
| `Csv.Lines` | lib/utils/csv.ts:66-69 | There is one line of fields per record, in record order. |
| `Csv.GenerateCsv` | lib/utils/csv.ts:58-70 | The output is empty, with not even a header, exactly when there are no records. Otherwise the header is the given columns and the body is one line of fields per record. |
| `Csv.CalculatePercentage` | lib/utils/csv.ts:110-113 | The result is 0 for a zero total. Otherwise it is the integer nearest 100*current/total, with halves rounded up. It lies in 0..100 whenever current <= total. |
| `JobStore.TallyPartition` | lib/services/jobStore.ts:107-121 | The records counted VALID plus those counted INVALID are exactly the records no longer PENDING. |
| `JobStore.WellFormedCounters` | lib/services/jobStore.ts:107-124 | When the counters agree with the records, VALID + INVALID == processedCount <= totalEmails, and both buckets are non-negative. |
| `JobStore.WellFormedFinished` | lib/services/jobStore.ts:123-124 | When the counters agree with the records, processedCount == totalEmails if and only if no record is PENDING. |
| `JobStore.InitialRecords` | lib/services/jobStore.ts:26-30 | Record i is email i, PENDING, with row i as its original row, or the empty row when the rows run short. |
| `JobStore.CreateJob` | lib/services/jobStore.ts:18-51 | The store gains exactly the new job under the fresh id, so the job count grows by one. The job is PENDING, with zero counters, no batch, the given column, created and updated now, and one PENDING record per address. |
| `JobStore.GetJob` | lib/services/jobStore.ts:56-60 | It returns the job if and only if the id is in the store. |
| `JobStore.GetJobCount` | lib/services/jobStore.ts:161-163 | The count is the number of jobs held, and it is zero exactly when the store is empty. |
| `JobStore.UpdateJobStatus` | lib/services/jobStore.ts:65-71 | The same ids stay in the store and the other jobs are unchanged. The job's status and updatedAt are set, and a missing id changes nothing. |
| `JobStore.UpdateBatchInfo` | lib/services/jobStore.ts:76-82 | The same ids stay in the store and the other jobs are unchanged. The job's snapshot and updatedAt are set, and a missing id changes nothing. |
| `JobStore.SettersKeepWellFormed` | lib/services/jobStore.ts:65-82 | Neither setter breaks the agreement between counters and records. |
| `JobStore.RecordResult` | lib/services/jobStore.ts:92-124 | A bad index or an unchanged status is a no-op. Otherwise only that record's status changes and processedCount grows by one. Leaving PENDING adds one to a bucket. A change between two settled statuses keeps VALID + INVALID. |
| `JobStore.UpdateEmailResult` | lib/services/jobStore.ts:87-125 | A missing job, an out-of-range index or the same status leaves the store as it was. No other job changes. |
| `JobStore.RecordResultKeepsBuckets` | lib/services/jobStore.ts:105-121 | After any update, the buckets still equal the numbers of VALID and non-VALID settled records. |
| `JobStore.RecordResultKeepsWellFormed` | lib/services/jobStore.ts:105-124 | An update that moves a record out of PENDING keeps the counters in agreement with the records. So does one that leaves the status as it is. |
| `JobStore.RecordResultRecounts` | lib/services/jobStore.ts:109-124 | A second change to a settled record keeps the buckets right. But processedCount then exceeds the number of settled records, and VALID + INVALID < processedCount. |
| `JobStore.DeleteJob` | lib/services/jobStore.ts:130-132 | It reports true if and only if the id was present. Exactly that id is removed, the rest are unchanged, and the count drops accordingly. |
| `JobStore.SweepExpired` | lib/services/jobStore.ts:144-156 | It keeps exactly the jobs created no earlier than one hour before now, unchanged. |
| `JobStore.CleanupOldJobs` | lib/services/jobStore.ts:144-156 | The loop leaves exactly the swept store and returns the number of expired jobs. Deleted plus kept equals the original size. |
| `JobStore.CreateJobKeepsInvariant` | lib/services/jobStore.ts:18-51 | A created job satisfies the store invariant: it is filed under its id, its counters agree, a PENDING job has only PENDING records, and only a PROCESSING job has a snapshot. |
| `JobStore.RemovalKeepsInvariant` | lib/services/jobStore.ts:130-156 | Deleting a job or sweeping the store keeps the invariant. |
| `Verification.MarkAllFailedLookup` | lib/services/verificationService.ts:41-46 | After a failed request, every requested address is API_ERROR, and nothing else is in the map. |
| `Verification.CollectLookup` | lib/services/verificationService.ts:33-40 | A key is in the result map if and only if some answer names it. Its value is the status of the last such answer. |
| `Verification.LastAnswerIsLast` | lib/services/verificationService.ts:36-40 | The recorded answer for a key is the status of an answer for that key with no later answer for the same key. |
| `Verification.VerifyBatch` | lib/services/verificationService.ts:15-73 | In the map it builds, looked up by the lower-cased address with API_ERROR as the fallback, every requested address holds its answered verdict: API_ERROR when the request failed, otherwise the last answer for its lower-cased form, or API_ERROR when there is none or it is empty. |
| `Verification.AnsweredStatusSettles` | lib/services/verificationService.ts:112-116 | A service that never answers PENDING never leaves a requested address PENDING. |
| `Verification.ValidEmails` | lib/services/verificationService.ts:94-102 | An address is in the request body if and only if it is in the batch and passes the format check, and the body is no longer than the batch. |
| `Verification.ValidEmailsAppend` | lib/services/verificationService.ts:96-102 | The body of a concatenation is the body of each part in turn, so the request keeps the batch's order and its repeated addresses. |
| `Verification.ValidEmailsCount` | lib/services/verificationService.ts:96-102 | The body holds exactly one entry per position of the batch that passes the format check. |
| `Verification.MarkInvalidFormats` | lib/services/verificationService.ts:94-102 | Only the statuses of the batch's positions change. Addresses that fail the check become INVALID_FORMAT and the others keep their status. |
| `Verification.WriteResults` | lib/services/verificationService.ts:112-123 | Each address that passes the check gets its looked-up verdict. Every other record is unchanged. |
| `Verification.ProcessBatch` | lib/services/verificationService.ts:78-125 | The batch snapshot is published and only the batch's positions change, each to its outcome. A request is sent if and only if some address passes the check, and it carries exactly those addresses. |
| `Verification.MarkKeepsWellFormed` | lib/services/verificationService.ts:94-102 | Marking PENDING records INVALID_FORMAT keeps the counters in agreement. |
| `Verification.WriteKeepsWellFormed` | lib/services/verificationService.ts:112-123 | Writing verdicts into PENDING records keeps the counters in agreement. |
| `Verification.ProcessBatchKeepsWellFormed` | lib/services/verificationService.ts:78-125 | A batch over PENDING records keeps the counters in agreement. |
| `Verification.BatchBounds` | lib/services/verificationService.ts:147-153 | Batch k holds 1 to 100 addresses, and its position p is address 100k+p. |
| `Verification.ChunksFit` | lib/services/verificationService.ts:147 | All the batches lie within the job's addresses. |
| `Verification.BatchesDisjoint` | lib/services/verificationService.ts:151-155 | The batches before batch i lie below position 100i, where batch i starts, so no batch writes over another's positions. |
| `Verification.RequestsSentCarry` | lib/services/verificationService.ts:105-106 | Every request sent belongs to a processed batch, is non-empty, and carries exactly that batch's well-formed addresses. |
| `Verification.RequestsSentOrdered` | lib/services/verificationService.ts:151-155 | Batch numbers strictly increase along the requests, so no batch sends two. |
| `Verification.RequestsSentComplete` | lib/services/verificationService.ts:105-106 | Every processed batch that holds a well-formed address has sent its request. |
| `Verification.ProcessBatchAdvances` | lib/services/verificationService.ts:151-155 | Processing batch i extends the progress of the first i batches to i+1: those positions hold their outcomes, the others are untouched, and the job's other fields are kept. |
| `Verification.Advance` | lib/services/verificationService.ts:151-155 | One turn of the loop carries the loop state from i batches to i+1, and it keeps the counters in agreement for a fresh job. |
| `Verification.RunBatches` | lib/services/verificationService.ts:145-161 | The loop aborts if and only if the fault falls before the last batch. When it stops, the processed batches' positions hold their outcomes and every other position is unchanged. The job shows the last processed batch's snapshot, every processed batch's snapshot has been published, and the requests are those of the processed batches. |
| `Verification.BatchOutcomeIsEmailOutcome` | lib/services/verificationService.ts:147-155 | The outcome of position p of batch k equals the reference outcome of address 100k+p. |
| `Verification.BatchIsSlice` | lib/utils/helpers.ts:13-14 | Batch k is the slice of addresses 100k up to min(100k+100, n). |
| `Verification.DoneMeansEmailOutcome` | lib/services/verificationService.ts:151-155 | Once h batches have been processed, each of the first 100h positions holds its reference outcome. |
| `Verification.FullRunProcessesAll` | lib/services/verificationService.ts:112-124 | A job whose records all hold their reference outcome, from a service that never answers PENDING, has processedCount == totalEmails == VALID + INVALID. |
| `Verification.EmailOutcomeSettled` | lib/services/verificationService.ts:112-116 | A service that never answers PENDING leaves no reference outcome PENDING. |
| `Verification.RunSettles` | lib/services/verificationService.ts:145-165 | After a run stopped at batch h, the first 100h positions hold their reference outcomes and the rest are unchanged. A run without a fault covers every position, and it leaves nothing unprocessed when the service never answers PENDING. |
| `Verification.Finish` | lib/services/verificationService.ts:163-175 | The run's job is written back under its id with its final status, its batch snapshot cleared and updatedAt set, and no other job changes. |
| `Verification.Launch` | lib/services/verificationService.ts:142-177 | For a PENDING job: COMPLETED without a fault and FAILED with one, no snapshot left, and the other jobs unchanged. Records, snapshots and requests are as in RunBatches. For a fresh job the counters stay in agreement and a full run processes every record. |
| `Verification.StartVerification` | lib/services/verificationService.ts:131-178 | A missing job or a job that is not PENDING is refused and the store is left unchanged. Otherwise the job is launched as in Launch. |
| `Verification.PublishedLayout` | lib/services/verificationService.ts:86-91 | Snapshot b of a job with n addresses is (b+1, ceil(n/100), 100b+1, 100b+min(100, n-100b)). |
| `Verification.FailedRequestMeansApiError` | lib/services/verificationService.ts:41-46 | When a batch's request fails, its well-formed addresses become API_ERROR and the others INVALID_FORMAT. |
| `Verification.OutcomeIsolated` | lib/services/verificationService.ts:151-161 | An address's outcome depends only on the service's answer to its own batch's request. |
| `Verification.DuplicatesAgree` | lib/services/verificationService.ts:112-116 | Two copies of one address in the same batch get the same verdict. |
| `Verification.GenerateResultsCsv` | lib/services/verificationService.ts:183-202 | It fails if and only if the job is missing, whatever the job's status. A job without records exports empty text. Otherwise the header is email, verification_status, with one row per record in order holding its address and its status name. |
| `UploadRoute.Upload` | app/api/verify/upload/route.ts:11-107 | It returns 200 if and only if the request carries a .csv file of at most 5 MiB that parses to at least one address, and only then does the store change, by exactly that job. Each error code has its own if-and-only-if: NO_FILE, INVALID_FILE_TYPE, FILE_TOO_LARGE, NO_EMAILS and PROCESSING_ERROR. |
| `UploadRoute.UploadCreatesJob` | app/api/verify/upload/route.ts:55-73 | An accepted upload files one new PENDING job under the fresh id. Its column is the first header, and its addresses are those of that column in file order. |
| `UploadRoute.UploadKeepsInvariant` | app/api/verify/upload/route.ts:69-73 | The handler keeps the store invariant. |
| `StartRoute.RequestedId` | app/api/verify/start/route.ts:10-24 | The handler goes on if and only if the body's jobId is a non-empty string, and it uses that string as the id. |
| `StartRoute.Start` | app/api/verify/start/route.ts:6-80 | It returns 202 if and only if the id is given and its job is PENDING, and otherwise the store is unchanged. Each refusal has its own code: START_ERROR, INVALID_JOB_ID, JOB_NOT_FOUND or JOB_ALREADY_STARTED. A launched job ends COMPLETED, or FAILED when the run is aborted, with no snapshot. The store invariant is kept. |
| `DownloadRoute.Download` | app/api/verify/download/route.ts:9-58 | It returns 200 if and only if the id is given, non-empty, known and COMPLETED, with each refusal under its own code. The attachment is named verified-emails-<id>.csv, and its rows are the job's records with their status names. |
| `DownloadRoute.DownloadedRowsSettled` | app/api/verify/download/route.ts:48-58 | In a store that keeps the invariant, a completed job that counts every record exports no PENDING row. |
| `ProgressRoute.Progress` | app/api/verify/progress/route.ts:8-46 | It returns 200 if and only if the id is given, non-empty and known, with each refusal under its own code. The report carries the job's status, counters and snapshot as they are. |
| `ProgressRoute.ProgressConsistent` | app/api/verify/progress/route.ts:36-46 | In a store that keeps the invariant, the report's buckets add up to its processed count, which never exceeds the total, and only a PROCESSING job reports a batch. |

## Left out

- The HTTP transport to the external service is the oracle. This covers the axios call, its headers and its 30-second timeout. A request either yields its list of answers or fails, and which error it raised is not modelled.
- Logging and the human-readable messages of error responses are not modelled. Each error is identified by its code and HTTP status.
- Verification.ApiResult: statuses the service returns outside the enumeration are not modelled. The source casts them unchecked, so the model keeps the enumeration and `None` for a missing or empty status.
- The 100 ms delay between batches is not modelled, because it changes no state.
- Fire-and-forget concurrency is not modelled. This covers the start route not awaiting the run, and progress reads interleaved with a run.
- StartRoute.Start: the store it returns is the store after the run has finished. The store at the moment the 202 is sent is not modelled.
- Verification.RunBatches: an exception escaping the loop is modelled only at the start of a batch. No modelled operation throws inside a batch.
- Verification.Launch: the whole run uses one clock value `now`.
- The clock, `uuidv4` and `generateId` are not modelled. The job id and `now` are parameters, and the id is required to be fresh.
- The CSV library is not modelled: `csv-parse` (quoting, trimming, skipping empty lines) and `csv-stringify` (text encoding). Parsing starts from the records the library yields, or their absence. The output is the table the writer serialises.
- Csv.ToLower: only ASCII letters are lower-cased. JavaScript's `toLowerCase` also maps non-ASCII letters.
- Csv.ParseCsv: the order of a record's keys is the CSV library's and is taken as given. JavaScript lists array-index names such as `2024` before all other keys, so `headers[0]`, and with it the upload's email column, need not be the file's first column; the model does not derive that order from the header line.
- Csv.CalculatePercentage: the rounding is done on exact rationals, with halves rounded up. The source rounds a floating-point quotient, which can differ at exact halves.
- Helpers.ChunkArray: a chunk size of 0 or less with a non-empty input is excluded by its precondition, because the source loop never advances on it and does not terminate.
- JobStore.RecordResultKeepsWellFormed: it requires that the record is PENDING or keeps its status. A second change breaks the counters, as `RecordResultRecounts` shows.
- The catch branches for DOWNLOAD_ERROR and PROGRESS_ERROR are not modelled. Nothing in their try blocks throws in the model.
- The `setInterval` timer that runs the sweep every 15 minutes, and the hot-reload guard around it, are not modelled. The sweep itself, with its one-hour retention, is `CleanupOldJobs`.
- `formatFileSize`, `formatNumber`, `safeJSONParse` and `getAllJobIds` are not modelled. They are display or debugging aids that no modelled operation uses.
