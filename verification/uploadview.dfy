/** The upload view (frontend/src/pages/Upload.jsx) as a pure state
    machine: choosing a file (picker or drop), submitting, and the upload
    request's reply. */
module UploadView {
  import opened Prelude
  import opened AudioValidation

  /** A file the browser hands over: its name and byte size. */
  datatype LocalFile = LocalFile(name: string, size: nat)

  datatype UploadState = UploadState(
    file: Option<LocalFile>,
    error: string,
    loading: bool,
    navigatedTo: Option<string>)

  const Initial: UploadState := UploadState(None, "", false, None)

  const UploadFailedMessage: string := "Upload failed. Is the backend running?"

  /** A selected file always passed validation. */
  predicate SelectionValid(s: UploadState) {
    s.file.Some? ==> Validate(s.file.value.name, s.file.value.size) == ""
  }

  /** `handleFile(f)`: keep a valid file and clear the error, or drop the
      selection and show why. */
  function HandleFile(s: UploadState, f: LocalFile): (t: UploadState)
    ensures Validate(f.name, f.size) != "" ==>
              t.file == None && t.error == Validate(f.name, f.size)
    ensures Validate(f.name, f.size) == "" ==> t.file == Some(f) && t.error == ""
    ensures t.error == "" <==> t.file.Some?
    ensures SelectionValid(t)
    ensures t.loading == s.loading && t.navigatedTo == s.navigatedTo
  {
    var err := Validate(f.name, f.size);
    if err != "" then s.(error := err, file := None)
    else s.(error := "", file := Some(f))
  }

  /** `handleDrop` and the picker's `onChange`: only the first file counts,
      and an empty list does nothing. */
  function HandleFiles(s: UploadState, files: seq<LocalFile>): (t: UploadState)
    ensures |files| == 0 ==> t == s
    ensures |files| > 0 ==> t == HandleFile(s, files[0])
  {
    if |files| == 0 then s else HandleFile(s, files[0])
  }

  /** `disabled={!file || loading}`. */
  predicate SubmitEnabled(s: UploadState) {
    s.file.Some? && !s.loading
  }

  /** `handleSubmit`: without a file nothing happens; otherwise the view
      enters the loading state and sends the selected file. */
  function Submit(s: UploadState): (r: (UploadState, Option<LocalFile>))
    ensures s.file.None? ==> r == (s, None)
    ensures s.file.Some? ==> r.1 == s.file && r.0 == s.(loading := true)
    ensures SelectionValid(s) ==> SelectionValid(r.0)
    ensures !SubmitEnabled(r.0)
  {
    if s.file.None? then (s, None)
    else (s.(loading := true), s.file)
  }

  /** The upload request's outcome: the new job id, or an error whose
      response may carry a `detail`. */
  datatype UploadReply = Accepted(jobId: string) | Rejected(detail: Option<string>)

  /** The rest of `handleSubmit`: navigate to the job, or show the server's
      detail (or a generic message) and re-enable the button. */
  function Settle(s: UploadState, reply: UploadReply): (t: UploadState)
    ensures reply.Accepted? ==> t.navigatedTo == Some("/processing/" + reply.jobId)
    ensures reply.Rejected? ==> !t.loading && t.navigatedTo == s.navigatedTo
    ensures reply.Rejected? ==> t.error == OrElse(reply.detail, UploadFailedMessage) && t.error != ""
    ensures t.file == s.file
  {
    match reply
    case Accepted(jobId) => s.(navigatedTo := Some("/processing/" + jobId))
    case Rejected(detail) => s.(error := OrElse(detail, UploadFailedMessage), loading := false)
  }

  /** A rejected upload leaves the file selected and the button usable, so
      the user can retry. */
  lemma RetryAfterRejection(s: UploadState, detail: Option<string>)
    requires s.file.Some?
    ensures SubmitEnabled(Settle(Submit(s).0, Rejected(detail)))
  {
  }

  /** The button is enabled exactly when pressing it sends a request. */
  lemma EnabledIffSubmitSends(s: UploadState)
    requires !s.loading
    ensures SubmitEnabled(s) <==> Submit(s).1.Some?
  {
  }

  /** Events reaching the view. */
  datatype Event = Choose(files: seq<LocalFile>) | Press | Reply(reply: UploadReply)

  function Apply(s: UploadState, e: Event): UploadState {
    match e
    case Choose(files) => HandleFiles(s, files)
    case Press => Submit(s).0
    case Reply(reply) => Settle(s, reply)
  }

  function Run(s: UploadState, events: seq<Event>): UploadState
    decreases |events|
  {
    if |events| == 0 then s else Run(Apply(s, events[0]), events[1..])
  }

  /** Whatever the user does, a file the view holds passed validation, so
      every request it sends carries a file the server also accepts. */
  lemma {:induction false} RunKeepsSelectionValid(s: UploadState, events: seq<Event>)
    requires SelectionValid(s)
    ensures SelectionValid(Run(s, events))
    decreases |events|
  {
    if |events| > 0 {
      var next := Apply(s, events[0]);
      assert SelectionValid(next);
      RunKeepsSelectionValid(next, events[1..]);
    }
  }

  /** From page load on (no file, no error, not loading), whatever the user
      does, a selected file has passed validation. */
  lemma SelectionValidFromLoad(events: seq<Event>)
    ensures SelectionValid(Run(Initial, events))
  {
    RunKeepsSelectionValid(Initial, events);
  }

  /** The client only ever sends a file the server will accept. */
  lemma SentFileIsAcceptedByServer(s: UploadState, order: seq<string>)
    requires SelectionValid(s)
    requires IsSetOrder(order)
    requires Submit(s).1.Some?
    ensures ValidateAudioFile(Submit(s).1.value.name, Submit(s).1.value.size, order).0
  {
    ClientServerAgree(Submit(s).1.value.name, Submit(s).1.value.size, order);
  }
}
