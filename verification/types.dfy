/**
 * The entities of the verification service (lib/types/index.ts): per-email
 * verification status, job lifecycle status, email records, aggregate
 * counters, batch descriptors and the verification job itself.
 */
module Types {
  import opened Wrappers

  /** Job identifiers are opaque strings. */
  type JobId = string

  /**
   * A parsed CSV row (`Record<string, string>`): column name to cell text,
   * in the record's own-property order, which is the order `Object.keys`
   * reports: names that are array indices first, in ascending numeric
   * order, then the other names in the order the file gives them. That
   * order is the CSV library's, so it is taken as given here. The keys of a
   * JavaScript record are distinct.
   */
  type Row = seq<(string, string)>

  /** Property access `row[key]`: the cell stored under `key`, if any. */
  function Lookup(row: Row, key: string): (r: Option<string>)
    ensures r.None? <==> forall i :: 0 <= i < |row| ==> row[i].0 != key
    ensures r.Some? ==> exists i :: 0 <= i < |row| && row[i] == (key, r.value)
  {
    if |row| == 0 then None
    else if row[0].0 == key then Some(row[0].1)
    else
      var rest := Lookup(row[1..], key);
      assert forall i :: 1 <= i < |row| ==> row[i] == row[1..][i - 1];
      rest
  }

  /** `Object.keys(row)`: the column names in order. */
  function Keys(row: Row): (ks: seq<string>)
    ensures |ks| == |row|
    ensures forall i :: 0 <= i < |row| ==> ks[i] == row[i].0
  {
    seq(|row|, i requires 0 <= i < |row| => row[i].0)
  }

  /** The seven per-email outcomes; all but PENDING are final verdicts. */
  datatype VerificationStatus =
    | Pending
    | Valid
    | InvalidDomain
    | NoMxRecords
    | InvalidFormat
    | MailboxNotFound
    | ApiError

  /** The wire spelling of a verification status, as exported to CSV. */
  function StatusName(s: VerificationStatus): string
  {
    match s
    case Pending => "PENDING"
    case Valid => "VALID"
    case InvalidDomain => "INVALID_DOMAIN"
    case NoMxRecords => "NO_MX_RECORDS"
    case InvalidFormat => "INVALID_FORMAT"
    case MailboxNotFound => "MAILBOX_NOT_FOUND"
    case ApiError => "API_ERROR"
  }

  /** Lifecycle of a job: PENDING, then PROCESSING, then COMPLETED or FAILED. */
  datatype JobStatus = JobPending | JobProcessing | JobCompleted | JobFailed

  /** One row's address and its verification outcome. */
  datatype EmailRecord = EmailRecord(email: string, status: VerificationStatus, originalRow: Row)

  /** The two aggregate buckets: VALID, and every other non-PENDING status. */
  datatype StatusCounts = StatusCounts(valid: int, invalid: int)

  /** The batch in flight; batch numbers and email positions are 1-indexed, end inclusive. */
  datatype BatchInfo = BatchInfo(currentBatch: nat, totalBatches: nat, startEmail: nat, endEmail: nat)

  /** A verification job; times are milliseconds since the epoch. */
  datatype Job = Job(
    jobId: JobId,
    status: JobStatus,
    totalEmails: nat,
    processedCount: nat,
    statusCounts: StatusCounts,
    emails: seq<EmailRecord>,
    emailColumnName: string,
    createdAt: int,
    updatedAt: int,
    currentBatch: Option<BatchInfo>)
}
