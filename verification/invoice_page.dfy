/**
 * The upload controller of frontend/src/app/page.js. The page keeps four
 * state cells (the selected file, the extracted data, the status and the
 * status text); besides them the model keeps what the file-picker element
 * holds and the messages shown with `alert`, because the handlers change
 * both. The remote call is not made here: each outcome it can have is a
 * `Response` value handed to the continuation.
 *
 * `PageState` and the step functions state what each handler does to the
 * whole state; `Page` is the component itself, whose handlers update its
 * fields one assignment at a time and are proved to follow the step
 * functions.
 */
module InvoicePage {
  import opened Wrappers
  import opened Json
  import CsvExport

  const PdfType := "application/pdf"
  const InvalidFileAlert := "Please upload a valid PDF file."
  const NoFileAlert := "Please select a file first."
  const SendingText := "Sending to server for analysis..."
  const ServerErrorText := "An error occurred on the server."
  const UnknownErrorText := "An unknown error occurred."

  datatype Status = Idle | Processing | Success | Error

  /** A file handle as the browser reports it (its contents play no part here). */
  datatype File = File(name: string, mimeType: string)

  /** The ways the `fetch` call and the reading of its body can end. */
  datatype Response =
    | Ok(body: Record)                  // 2xx status, body parses as a JSON object
    | OkMalformed(message: string)      // 2xx status, `response.json()` throws this message
    | NotOk(errorField: Value)          // other status, body parses; its `error` member (Null when absent)
    | NotOkMalformed(message: string)   // other status, `response.json()` throws this message
    | Transport(message: string)        // `fetch` itself rejects with this message

  datatype PageState = PageState(
    uploadedFile: Option<File>,
    extractedData: Option<Record>,
    status: Status,
    statusText: string,
    inputFiles: seq<File>,    // the file-picker element's current selection
    alerts: seq<string>)      // every message shown with `alert`, oldest first

  const Initial := PageState(None, None, Idle, "", [], [])

  /** What holds between handlers, whatever order they run in: the success
      state has data, the idle and processing states have none, an error
      always has a description, and a request in flight shows the sending
      message. */
  ghost predicate Consistent(s: PageState)
  {
    && (s.status == Success ==> s.extractedData.Some?)
    && (s.status == Idle || s.status == Processing ==> s.extractedData.None?)
    && (s.status == Error ==> s.statusText != "")
    && (s.status == Processing ==> s.statusText == SendingText)
  }

  /** Data is present exactly in the success state. */
  ghost predicate DataOnlyOnSuccess(s: PageState)
  {
    s.extractedData.Some? <==> s.status == Success
  }

  predicate IsPdf(f: File)
  {
    f.mimeType == PdfType
  }

  /** `handleFileChange(file)`. An accepted PDF replaces the selection and
      returns the page to idle; anything else clears the selection, and an
      alert is shown only when a file was actually given. */
  function FileChangeStep(s: PageState, file: Option<File>): (t: PageState)
    ensures file.Some? && IsPdf(file.value) ==>
              t.uploadedFile == file && t.extractedData == None && t.status == Idle
    ensures !(file.Some? && IsPdf(file.value)) ==>
              t.uploadedFile == None && t.extractedData == s.extractedData && t.status == s.status
    ensures t.alerts == if file.Some? && !IsPdf(file.value) then s.alerts + [InvalidFileAlert] else s.alerts
    ensures t.statusText == s.statusText && t.inputFiles == s.inputFiles
  {
    if file.Some? && IsPdf(file.value) then
      s.(uploadedFile := file, extractedData := None, status := Idle)
    else
      s.(uploadedFile := None,
         alerts := if file.Some? then s.alerts + [InvalidFileAlert] else s.alerts)
  }

  /** `handleDrop`: only the first dropped file is considered, and a drop
      without files changes nothing. */
  function DropStep(s: PageState, files: seq<File>): (t: PageState)
    ensures files == [] ==> t == s
    ensures files != [] ==> t == FileChangeStep(s, Some(files[0]))
  {
    if files != [] then FileChangeStep(s, Some(files[0])) else s
  }

  /** The file input's `onChange`: the picker now holds `files`, and its first
      file, or nothing, goes to `handleFileChange`. */
  function InputChangeStep(s: PageState, files: seq<File>): (t: PageState)
    ensures t.inputFiles == files
    ensures files != [] ==> t == FileChangeStep(s.(inputFiles := files), Some(files[0]))
    ensures files == [] ==> t == s.(inputFiles := [], uploadedFile := None)
  {
    FileChangeStep(s.(inputFiles := files), if files != [] then Some(files[0]) else None)
  }

  /** The "Extract Data" button is enabled when a file is selected and no
      request is being processed. */
  predicate SubmitEnabled(s: PageState)
  {
    s.uploadedFile.Some? && s.status != Processing
  }

  /** `processFile` up to the `fetch` call. Without a selected file it only
      raises an alert; otherwise it enters processing with the sending
      message and no data. */
  function SubmitStep(s: PageState): (t: PageState)
    ensures s.uploadedFile.None? ==> t == s.(alerts := s.alerts + [NoFileAlert])
    ensures s.uploadedFile.Some? ==>
              t.status == Processing && t.statusText == SendingText && t.extractedData == None &&
              t.uploadedFile == s.uploadedFile && t.alerts == s.alerts && t.inputFiles == s.inputFiles
  {
    if s.uploadedFile.None? then s.(alerts := s.alerts + [NoFileAlert])
    else s.(status := Processing, statusText := SendingText, extractedData := None)
  }

  /** The text the `catch` block shows for a failed response: the server's
      `error` member when it is truthy, otherwise the server default; for a
      thrown error its message, or the unknown-error default when that is empty. */
  function ErrorText(r: Response): (text: string)
    requires !r.Ok?
    ensures text != ""
    ensures r.NotOk? && Truthy(r.errorField) ==> text == r.errorField.s
    ensures r.NotOk? && !Truthy(r.errorField) ==> text == ServerErrorText
    ensures !r.NotOk? && r.message != "" ==> text == r.message
    ensures !r.NotOk? && r.message == "" ==> text == UnknownErrorText
  {
    var thrown := if r.NotOk? then (if Truthy(r.errorField) then r.errorField.s else ServerErrorText)
                  else r.message;
    if thrown != "" then thrown else UnknownErrorText
  }

  /** `processFile` after the `fetch` call resolves: a parsed success body
      becomes the data, any failure the error state with its description. */
  function SettleStep(s: PageState, r: Response): (t: PageState)
    ensures r.Ok? ==> t.status == Success && t.extractedData == Some(r.body) && t.statusText == s.statusText
    ensures !r.Ok? ==> t.status == Error && t.statusText == ErrorText(r) && t.extractedData == s.extractedData
    ensures t.uploadedFile == s.uploadedFile && t.inputFiles == s.inputFiles && t.alerts == s.alerts
  {
    if r.Ok? then s.(extractedData := Some(r.body), status := Success)
    else s.(status := Error, statusText := ErrorText(r))
  }

  /** The whole of `processFile` when no other handler runs while the
      request is in flight. Without a file only the alert is added; with one,
      the request never leaves the page processing or idle: it ends in
      success exactly for a parsed success body, which becomes the data, and
      otherwise in error with no data and a description. */
  function ProcessFileStep(s: PageState, r: Response): (t: PageState)
    ensures s.uploadedFile.None? ==> t == s.(alerts := s.alerts + [NoFileAlert])
    ensures s.uploadedFile.Some? ==>
              && t.status != Processing && t.status != Idle
              && (t.status == Success <==> r.Ok?)
              && (r.Ok? ==> t.extractedData == Some(r.body))
              && (!r.Ok? ==> t.extractedData == None && t.statusText != "")
              && t.uploadedFile == s.uploadedFile && t.alerts == s.alerts && t.inputFiles == s.inputFiles
  {
    if s.uploadedFile.None? then SubmitStep(s) else SettleStep(SubmitStep(s), r)
  }

  /** `reset`: back to idle with no file, no data and an empty file picker;
      the status text is left as it was. */
  function ResetStep(s: PageState): (t: PageState)
    ensures t.status == Idle && t.uploadedFile == None && t.extractedData == None && t.inputFiles == []
    ensures t.statusText == s.statusText && t.alerts == s.alerts
  {
    s.(uploadedFile := None, extractedData := None, status := Idle, inputFiles := [])
  }

  /** The file-selection handlers keep the page consistent. */
  lemma SelectionKeepsConsistent(s: PageState, file: Option<File>, files: seq<File>)
    requires Consistent(s)
    ensures Consistent(FileChangeStep(s, file)) && Consistent(DropStep(s, files)) && Consistent(InputChangeStep(s, files))
  {
  }

  /** Submitting, settling a response (whatever the page did meanwhile) and
      resetting keep the page consistent. */
  lemma RequestKeepsConsistent(s: PageState, r: Response)
    requires Consistent(s)
    ensures Consistent(SubmitStep(s)) && Consistent(SettleStep(s, r)) && Consistent(ResetStep(s))
  {
  }

  lemma InitialConsistent()
    ensures Consistent(Initial) && DataOnlyOnSuccess(Initial)
  {
  }

  /** When each request completes before the next handler runs, data is
      present exactly in the success state. */
  lemma SequentialHandlersKeepDataOnlyOnSuccess(s: PageState, file: Option<File>, files: seq<File>, r: Response)
    requires Consistent(s) && DataOnlyOnSuccess(s)
    ensures DataOnlyOnSuccess(FileChangeStep(s, file)) && DataOnlyOnSuccess(DropStep(s, files))
    ensures DataOnlyOnSuccess(InputChangeStep(s, files)) && DataOnlyOnSuccess(ProcessFileStep(s, r))
    ensures DataOnlyOnSuccess(ResetStep(s))
  {
  }

  /** Nothing stops a second request while the first is in flight: selecting
      another PDF returns the page to idle and enables the button again.
      The first response, arriving late, is then shown as the result while
      the second file is selected, and a failing second response leaves the
      error state holding that stale data. */
  lemma OverlappingRequests(a: File, b: File, body: Record)
    requires IsPdf(a) && IsPdf(b) && a != b
    ensures var s1 := SubmitStep(InputChangeStep(Initial, [a]));
            var s2 := SubmitStep(InputChangeStep(s1, [b]));
            var s3 := SettleStep(s2, Ok(body));
            var s4 := SettleStep(s3, Transport("Failed to fetch"));
            && s1.status == Processing && s1.uploadedFile == Some(a)
            && SubmitEnabled(InputChangeStep(s1, [b]))
            && s3.status == Success && s3.extractedData == Some(body) && s3.uploadedFile == Some(b)
            && s4.status == Error && s4.extractedData == Some(body)
  {
  }

  /** Submitting without a file changes none of the four state cells. */
  lemma SubmitWithoutFileKeepsState(s: PageState)
    requires s.uploadedFile.None?
    ensures var t := SubmitStep(s);
            t.uploadedFile == s.uploadedFile && t.extractedData == s.extractedData &&
            t.status == s.status && t.statusText == s.statusText
  {
  }

  /** An enabled button never reaches the early return of `processFile`. */
  lemma EnabledSubmitSendsRequest(s: PageState)
    requires SubmitEnabled(s)
    ensures SubmitStep(s).status == Processing && SubmitStep(s).alerts == s.alerts
  {
  }

  /** Reset is idempotent. */
  lemma ResetIdempotent(s: PageState)
    ensures ResetStep(ResetStep(s)) == ResetStep(s)
  {
  }

  /** The page component. */
  class Page {
    var uploadedFile: Option<File>
    var extractedData: Option<Record>
    var status: Status
    var statusText: string
    var inputFiles: seq<File>
    var alerts: seq<string>

    ghost function Snapshot(): PageState
      reads this
    {
      PageState(uploadedFile, extractedData, status, statusText, inputFiles, alerts)
    }

    ghost predicate Valid()
      reads this
    {
      Consistent(Snapshot())
    }

    constructor ()
      ensures Valid() && Snapshot() == Initial
    {
      uploadedFile := None;
      extractedData := None;
      status := Idle;
      statusText := "";
      inputFiles := [];
      alerts := [];
    }

    method HandleFileChange(file: Option<File>)
      requires Valid()
      modifies this
      ensures Valid()
      ensures Snapshot() == FileChangeStep(old(Snapshot()), file)
    {
      if file.Some? && file.value.mimeType == PdfType {
        uploadedFile := file;
        extractedData := None;
        status := Idle;
      } else {
        uploadedFile := None;
        if file.Some? {
          alerts := alerts + [InvalidFileAlert];
        }
      }
    }

    method HandleDrop(files: seq<File>)
      requires Valid()
      modifies this
      ensures Valid()
      ensures Snapshot() == DropStep(old(Snapshot()), files)
    {
      if |files| > 0 {
        HandleFileChange(Some(files[0]));
      }
    }

    method OnInputChange(files: seq<File>)
      requires Valid()
      modifies this
      ensures Valid()
      ensures Snapshot() == InputChangeStep(old(Snapshot()), files)
    {
      inputFiles := files;
      HandleFileChange(if |files| > 0 then Some(files[0]) else None);
    }

    /** The synchronous part of `processFile`; `request` is the file put in
        the form data, or None when the handler returned early. */
    method Submit() returns (request: Option<File>)
      requires Valid()
      modifies this
      ensures Valid()
      ensures request == old(uploadedFile)
      ensures Snapshot() == SubmitStep(old(Snapshot()))
    {
      if uploadedFile.None? {
        alerts := alerts + [NoFileAlert];
        return None;
      }
      status := Processing;
      statusText := SendingText;
      extractedData := None;
      request := uploadedFile;
    }

    /** The continuation of `processFile` once the response is known. */
    method Settle(response: Response)
      requires Valid()
      modifies this
      ensures Valid()
      ensures Snapshot() == SettleStep(old(Snapshot()), response)
    {
      if response.Ok? {
        extractedData := Some(response.body);
        status := Success;
      } else {
        var thrown: string;
        if response.NotOk? {
          thrown := if Truthy(response.errorField) then response.errorField.s else ServerErrorText;
        } else {
          thrown := response.message;
        }
        status := Error;
        statusText := if thrown != "" then thrown else UnknownErrorText;
      }
    }

    /** `processFile` as a whole, with `response` the outcome of its request. */
    method ProcessFile(response: Response) returns (request: Option<File>)
      requires Valid()
      modifies this
      ensures Valid()
      ensures request == old(uploadedFile)
      ensures Snapshot() == ProcessFileStep(old(Snapshot()), response)
    {
      request := Submit();
      if request.Some? {
        Settle(response);
      }
    }

    /** `downloadCSV`. */
    method DownloadCsv() returns (link: Option<CsvExport.DownloadLink>)
      ensures link == CsvExport.Download(extractedData)
    {
      if extractedData.None? {
        return None;
      }
      var csv := CsvExport.CsvText(extractedData.value);
      link := Some(CsvExport.DownloadLink(CsvExport.FileName, CsvExport.DataUriPrefix + csv));
    }

    method Reset()
      requires Valid()
      modifies this
      ensures Valid()
      ensures Snapshot() == ResetStep(old(Snapshot()))
    {
      uploadedFile := None;
      extractedData := None;
      status := Idle;
      inputFiles := [];
    }
  }

  /** Dropping a file that is not a PDF on a fresh page raises the alert,
      keeps the page idle and selects nothing, so no request can follow. */
  method DropNonPdfScenario()
  {
    var page := new Page();
    page.HandleDrop([File("notes.txt", "text/plain")]);
    assert page.status == Idle && page.uploadedFile == None && page.alerts == [InvalidFileAlert];
    var request := page.ProcessFile(Transport("unreachable"));
    assert request == None && page.status == Idle;
  }

  /** A server answer of status 500 with `{"error": "quota exceeded"}` ends
      in the error state showing that message; reset then returns to idle. */
  method QuotaExceededScenario()
  {
    var page := new Page();
    page.OnInputChange([File("invoice.pdf", PdfType)]);
    var request := page.ProcessFile(NotOk(Str("quota exceeded")));
    assert request == Some(File("invoice.pdf", PdfType));
    assert page.status == Error && page.statusText == "quota exceeded";
    page.Reset();
    assert page.status == Idle && page.uploadedFile == None && page.inputFiles == [];
  }
}
