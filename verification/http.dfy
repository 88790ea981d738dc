/**
 * The JSON error codes, HTTP statuses and response bodies shared by the
 * route handlers under app/api/verify/.
 */
module Http {
  import opened Types
  import opened Csv
  import opened JobStore

  /** The `error` field of an error response. */
  datatype ErrorCode =
    | NoFile | InvalidFileType | FileTooLarge | NoEmails | ProcessingError
    | InvalidJobId | JobNotFound | JobAlreadyStarted | StartError | JobNotCompleted

  function ErrorName(code: ErrorCode): string
  {
    match code
    case NoFile => "NO_FILE"
    case InvalidFileType => "INVALID_FILE_TYPE"
    case FileTooLarge => "FILE_TOO_LARGE"
    case NoEmails => "NO_EMAILS"
    case ProcessingError => "PROCESSING_ERROR"
    case InvalidJobId => "INVALID_JOB_ID"
    case JobNotFound => "JOB_NOT_FOUND"
    case JobAlreadyStarted => "JOB_ALREADY_STARTED"
    case StartError => "START_ERROR"
    case JobNotCompleted => "JOB_NOT_COMPLETED"
  }

  /** The HTTP status each handler sends with an error code. */
  function ErrorStatus(code: ErrorCode): nat
  {
    match code
    case ProcessingError => 500
    case StartError => 500
    case JobNotFound => 404
    case _ => 400
  }

  /** A response body: an error, or the success payload of one of the handlers. */
  datatype Body =
    | Failure(code: ErrorCode)
    | UploadAccepted(jobId: JobId, totalEmails: nat, emailColumnName: string)
    | StartAccepted
    | ProgressReport(jobId: JobId, status: JobStatus, totalEmails: nat, processedCount: nat,
                     statusCounts: StatusCounts, currentBatch: Wrappers.Option<BatchInfo>)
    | CsvAttachment(contentType: string, fileName: string, csv: CsvText)

  datatype Response = Response(status: nat, body: Body)

  /** The error response for `code`. */
  function Fail(code: ErrorCode): (r: Response)
    ensures r.body == Failure(code) && r.status == ErrorStatus(code)
  {
    Response(ErrorStatus(code), Failure(code))
  }

  /** A handler's effect: the store afterwards and the response. */
  datatype Handled = Handled(store: Store, response: Response)
}
