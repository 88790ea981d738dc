/**
 * POST /api/verify/upload (app/api/verify/upload/route.ts): read the form's
 * `file` entry, check its name and size, parse it with the email column at
 * index 0 and file the addresses as a new PENDING job.
 */
module UploadRoute {
  import opened Wrappers
  import opened Types
  import opened Csv
  import opened JobStore
  import opened Http
  import Verification

  /** 5 MiB. */
  const MaxFileSize: nat := 5 * 1024 * 1024

  /**
   * An uploaded file: its name, its size in bytes, and the records the CSV
   * parser reads from its contents, or None when the parser throws.
   */
  datatype UploadedFile = UploadedFile(name: string, size: nat, records: Option<seq<Row>>)

  /** The `file` entry of the form: absent, a plain text value, or a file. */
  datatype FormField = NoField | TextField(text: string) | FileField(file: UploadedFile)

  /** A request whose body is not multipart form data cannot be read. */
  datatype UploadRequest = UnreadableForm | Form(field: FormField)

  /** `s.endsWith(suffix)`: case-sensitive. */
  predicate EndsWith(s: string, suffix: string)
  {
    |suffix| <= |s| && s[|s| - |suffix|..] == suffix
  }

  /** The request carries a file named `*.csv` of at most 5 MiB. */
  predicate Admissible(request: UploadRequest)
  {
    && request.Form? && request.field.FileField?
    && EndsWith(request.field.file.name, ".csv")
    && request.field.file.size <= MaxFileSize
  }

  /** parseCSV(buffer, 0) on the file: None when the parser or parseCSV throws. */
  function Parsed(file: UploadedFile): Option<ParsedCsv>
  {
    match file.records
    case None => None
    case Some(records) =>
      match ParseCsv(records, 0)
      case Ok(parsed) => Some(parsed)
      case Err(_) => None
  }

  /** The request is accepted: an admissible file with at least one address. */
  predicate Accepted(request: UploadRequest)
  {
    Admissible(request) && Parsed(request.field.file).Some? && |Parsed(request.field.file).value.emails| > 0
  }

  /**
   * The handler, with `id` the fresh identifier the store would draw and
   * `now` the clock. A text value in place of a file has no `name`: an empty
   * one is falsy and reads as no file, any other makes the name check throw.
   */
  function Upload(store: Store, request: UploadRequest, id: JobId, now: int): (h: Handled)
    requires id !in store
    ensures h.response.status == 200 <==> Accepted(request)
    ensures h.store != store <==> Accepted(request)
    ensures Accepted(request) ==>
      && h.store == CreateJob(store, Parsed(request.field.file).value.emails, request.field.file.records.value, Parsed(request.field.file).value.emailColumnName, id, now).store
      && h.response.body == UploadAccepted(id, |Parsed(request.field.file).value.emails|, Parsed(request.field.file).value.emailColumnName)
    ensures !Accepted(request) ==> h.store == store
    ensures h.response == Fail(NoFile) <==> request == Form(NoField) || request == Form(TextField(""))
    ensures h.response == Fail(InvalidFileType) <==>
      request.Form? && request.field.FileField? && !EndsWith(request.field.file.name, ".csv")
    ensures h.response == Fail(FileTooLarge) <==>
      && request.Form? && request.field.FileField? && EndsWith(request.field.file.name, ".csv")
      && request.field.file.size > MaxFileSize
    ensures h.response == Fail(NoEmails) <==>
      Admissible(request) && Parsed(request.field.file).Some? && |Parsed(request.field.file).value.emails| == 0
    ensures h.response == Fail(ProcessingError) <==>
      || request.UnreadableForm?
      || (request.Form? && request.field.TextField? && request.field.text != "")
      || (Admissible(request) && Parsed(request.field.file).None?)
  {
    match request
    case UnreadableForm => Handled(store, Fail(ProcessingError))
    case Form(NoField) => Handled(store, Fail(NoFile))
    case Form(TextField(text)) => Handled(store, Fail(if text == "" then NoFile else ProcessingError))
    case Form(FileField(file)) =>
      if !EndsWith(file.name, ".csv") then Handled(store, Fail(InvalidFileType))
      else if file.size > MaxFileSize then Handled(store, Fail(FileTooLarge))
      else match Parsed(file)
        case None => Handled(store, Fail(ProcessingError))
        case Some(parsed) =>
          if |parsed.emails| == 0 then Handled(store, Fail(NoEmails))
          else
            var created := CreateJob(store, parsed.emails, parsed.rows, parsed.emailColumnName, id, now);
            assert created.store[id] == created.job && id !in store;
            Handled(created.store, Response(200, UploadAccepted(created.job.jobId, created.job.totalEmails, created.job.emailColumnName)))
  }

  /**
   * An accepted upload files exactly one new PENDING job under `id` whose
   * records are the addresses of the first column, in file order, each with
   * its row, and whose column is the first header.
   */
  lemma UploadCreatesJob(store: Store, request: UploadRequest, id: JobId, now: int)
    requires id !in store && Accepted(request)
    ensures Upload(store, request, id, now).store.Keys == store.Keys + {id}
    ensures var job := Upload(store, request, id, now).store[id];
      && job.status == JobPending && job.jobId == id && AllPending(job.emails)
      && job.emailColumnName == Keys(request.field.file.records.value[0])[0]
      && Verification.Addresses(job.emails) == ExtractEmails(request.field.file.records.value, job.emailColumnName)
      && job.totalEmails == |job.emails| > 0
  {
  }

  /** The handler keeps every job of the store well formed. */
  lemma UploadKeepsInvariant(store: Store, request: UploadRequest, id: JobId, now: int)
    requires id !in store && StoreInvariant(store)
    ensures StoreInvariant(Upload(store, request, id, now).store)
  {
    if Accepted(request) {
      var parsed := Parsed(request.field.file).value;
      CreateJobKeepsInvariant(store, parsed.emails, request.field.file.records.value, parsed.emailColumnName, id, now);
    }
  }
}
