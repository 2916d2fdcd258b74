/** The server's job lifecycle and endpoints (backend/main.py), with the
    database reduced to two maps keyed by job id: the `jobs` table and the
    `results` table (the one result row per job). External services, the
    uploaded bytes on disk and JSON (de)serialisation are not modelled: the
    transcription and language-model pipeline is an input that either
    produces its data or raises. */
module Jobs {
  import opened Prelude
  import opened Minutes
  import opened AudioValidation
  import opened MarkdownExport

  datatype JobStatus = Pending | Processing | Completed | Failed {
    /** The string stored in the `status` column. */
    function Name(): string {
      match this
      case Pending => "pending"
      case Processing => "processing"
      case Completed => "completed"
      case Failed => "failed"
    }
  }

  datatype Job = Job(filename: string, status: JobStatus, errorMsg: Option<string>)

  datatype Store = Store(jobs: map<string, Job>, results: map<string, MeetingResult>)

  datatype HttpError = HttpError(code: nat, detail: string)

  datatype Reply<T> = Ok(value: T) | Error(err: HttpError)

  /** The dictionary returned by `summarize_transcript`. `None` stands for a
      key missing from the model's JSON; a key present with the value `null`,
      for which `.get` returns `None` rather than the default, is outside
      the model. */
  datatype Summary = Summary(
    overview: Option<string>,
    keyPoints: Option<seq<string>>,
    decisions: Option<seq<string>>,
    openQuestions: Option<seq<string>>)

  /** What the three external stages of `process_meeting` yield: their data,
      or an exception whose `str(e)` is `message`. */
  datatype PipelineOutcome =
    | Produced(transcript: string, summary: Summary, actionItems: seq<ActionItem>)
    | Raised(message: string)

  /** Store invariant: a completed job has its result row, a failed job has
      an error message, and result rows belong to known jobs. */
  ghost predicate WellFormed(s: Store) {
    && (forall id :: id in s.jobs && s.jobs[id].status == Completed ==> id in s.results)
    && (forall id :: id in s.jobs && s.jobs[id].status == Failed ==> s.jobs[id].errorMsg.Some?)
    && (forall id :: id in s.results ==> id in s.jobs)
  }

  /** Legal status changes: pending → processing → completed | failed. */
  predicate Step(from: JobStatus, to: JobStatus) {
    || (from == Pending && to == Processing)
    || (from == Processing && to == Completed)
    || (from == Processing && to == Failed)
  }

  datatype UploadAck = UploadAck(jobId: string, status: string)

  /** `upload_audio`: validate, then create a pending job under the fresh id
      the database assigns (`freshId`). `order` is the iteration order of
      the supported-format set used in the rejection message. */
  function UploadAudio(s: Store, freshId: string, filename: string, size: nat, order: seq<string>)
    : (r: (Reply<UploadAck>, Store))
    requires IsSetOrder(order)
    requires freshId !in s.jobs
    ensures !ValidateAudioFile(filename, size, order).0 ==>
              r.0 == Error(HttpError(400, ValidateAudioFile(filename, size, order).1)) && r.1 == s
    ensures ValidateAudioFile(filename, size, order).0 ==>
              && r.0 == Ok(UploadAck(freshId, "pending"))
              && r.1.jobs == s.jobs[freshId := Job(filename, Pending, None)]
              && r.1.results == s.results
  {
    var (valid, error) := ValidateAudioFile(filename, size, order);
    if !valid then (Error(HttpError(400, error)), s)
    else
      var job := Job(filename, Pending, None);
      (Ok(UploadAck(freshId, Pending.Name())), s.(jobs := s.jobs[freshId := job]))
  }

  /** First step of `process_meeting`: mark the job as processing. A missing
      job makes `process_meeting` fail before any write. */
  function BeginProcessing(s: Store, id: string): (t: Store)
    ensures id in s.jobs ==> t.jobs == s.jobs[id := s.jobs[id].(status := Processing)]
    ensures id !in s.jobs ==> t == s
    ensures t.results == s.results
  {
    if id in s.jobs then s.(jobs := s.jobs[id := s.jobs[id].(status := Processing)]) else s
  }

  /** The result row built from the pipeline output, with `.get` defaults. */
  function BuildResult(transcript: string, summary: Summary, actions: seq<ActionItem>): (r: MeetingResult)
    ensures r.transcript == transcript && r.actionItems == actions
    ensures r.overview == summary.overview.GetOr("")
    ensures r.keyPoints == summary.keyPoints.GetOr([])
    ensures r.decisions == summary.decisions.GetOr([])
    ensures r.openQuestions == summary.openQuestions.GetOr([])
  {
    MeetingResult(summary.overview.GetOr(""), summary.keyPoints.GetOr([]),
                  summary.decisions.GetOr([]), summary.openQuestions.GetOr([]),
                  actions, transcript)
  }

  /** Rest of `process_meeting`: store the result and complete the job, or
      fail it with the exception text. */
  function FinishProcessing(s: Store, id: string, outcome: PipelineOutcome): (t: Store)
    ensures id !in s.jobs ==> t == s
    ensures id in s.jobs && outcome.Produced? ==>
              && t.jobs == s.jobs[id := s.jobs[id].(status := Completed)]
              && t.results == s.results[id := BuildResult(outcome.transcript, outcome.summary, outcome.actionItems)]
    ensures id in s.jobs && outcome.Raised? ==>
              && t.jobs == s.jobs[id := s.jobs[id].(status := Failed, errorMsg := Some(outcome.message))]
              && t.results == s.results
  {
    if id !in s.jobs then s
    else match outcome
      case Produced(transcript, summary, actions) =>
        var result := BuildResult(transcript, summary, actions);
        Store(s.jobs[id := s.jobs[id].(status := Completed)], s.results[id := result])
      case Raised(message) =>
        s.(jobs := s.jobs[id := s.jobs[id].(status := Failed, errorMsg := Some(message))])
  }

  /** The whole background task. */
  function ProcessMeeting(s: Store, id: string, outcome: PipelineOutcome): Store {
    FinishProcessing(BeginProcessing(s, id), id, outcome)
  }

  /** The job as `get_job` reports it. `created_at` is not modelled. */
  datatype JobView = JobView(
    jobId: string,
    status: string,
    filename: string,
    errorMsg: Option<string>,
    result: Option<MeetingResult>)

  function GetJob(s: Store, id: string): (r: Reply<JobView>)
    ensures id !in s.jobs <==> r == Error(HttpError(404, "Job not found"))
    ensures r.Ok? ==> r.value.jobId == id && r.value.status == s.jobs[id].status.Name()
    ensures r.Ok? ==> r.value.filename == s.jobs[id].filename && r.value.errorMsg == s.jobs[id].errorMsg
    ensures r.Ok? ==> (r.value.result.Some? <==> s.jobs[id].status == Completed && id in s.results)
    ensures r.Ok? && r.value.result.Some? ==> r.value.result.value == s.results[id]
  {
    if id !in s.jobs then Error(HttpError(404, "Job not found"))
    else
      var job := s.jobs[id];
      var result := if job.status == Completed && id in s.results then Some(s.results[id]) else None;
      Ok(JobView(id, job.status.Name(), job.filename, job.errorMsg, result))
  }

  datatype ExportFile = ExportFile(content: string, attachmentName: string)

  /** `export_job`. A completed job without a result row would make the
      handler raise, which the framework reports as 500. */
  function ExportJob(s: Store, id: string): (r: Reply<ExportFile>)
    ensures (id !in s.jobs || s.jobs[id].status != Completed) <==>
              r == Error(HttpError(404, "Job not found or not completed"))
    ensures r.Ok? ==>
              && id in s.results
              && r.value.content == ExportDocument(s.jobs[id].filename, s.results[id])
              && r.value.attachmentName == AttachmentName(id)
  {
    if id !in s.jobs || s.jobs[id].status != Completed then
      Error(HttpError(404, "Job not found or not completed"))
    else if id !in s.results then
      Error(HttpError(500, "Internal Server Error"))
    else
      Ok(ExportFile(ExportDocument(s.jobs[id].filename, s.results[id]), AttachmentName(id)))
  }

  lemma UploadKeepsWellFormed(s: Store, freshId: string, filename: string, size: nat, order: seq<string>)
    requires IsSetOrder(order)
    requires freshId !in s.jobs
    requires WellFormed(s)
    ensures WellFormed(UploadAudio(s, freshId, filename, size, order).1)
  {
  }

  lemma ProcessingKeepsWellFormed(s: Store, id: string, outcome: PipelineOutcome)
    requires WellFormed(s)
    ensures WellFormed(BeginProcessing(s, id))
    ensures WellFormed(FinishProcessing(s, id, outcome))
    ensures WellFormed(ProcessMeeting(s, id, outcome))
  {
    var b := BeginProcessing(s, id);
    assert WellFormed(b);
  }

  /** In a well-formed store an export never hits the missing-row error. */
  lemma ExportNeverFailsInternally(s: Store, id: string)
    requires WellFormed(s)
    ensures ExportJob(s, id).Ok? <==> id in s.jobs && s.jobs[id].status == Completed
  {
  }

  /** In a well-formed store `get_job` returns a result exactly for
      completed jobs. */
  lemma ResultExactlyWhenCompleted(s: Store, id: string)
    requires WellFormed(s)
    requires id in s.jobs
    ensures GetJob(s, id).Ok?
    ensures GetJob(s, id).value.result.Some? <==> s.jobs[id].status == Completed
  {
  }

  /** A freshly uploaded job walks the lifecycle pending → processing →
      completed or failed, one legal step at a time, and a failure carries
      the exception text. */
  lemma LifecycleFollowsSteps(s: Store, id: string, outcome: PipelineOutcome)
    requires id in s.jobs && s.jobs[id].status == Pending
    ensures var b := BeginProcessing(s, id);
            var f := FinishProcessing(b, id, outcome);
            && Step(s.jobs[id].status, b.jobs[id].status)
            && Step(b.jobs[id].status, f.jobs[id].status)
            && (outcome.Produced? <==> f.jobs[id].status == Completed)
            && (outcome.Raised? ==> f.jobs[id].errorMsg == Some(outcome.message))
            && (forall other :: other in s.jobs && other != id ==> f.jobs[other] == s.jobs[other])
  {
  }

  /** An upload the validator rejects leaves no trace in the store. */
  lemma RejectedUploadCreatesNoJob(s: Store, freshId: string, filename: string, size: nat, order: seq<string>)
    requires IsSetOrder(order)
    requires freshId !in s.jobs
    requires !ValidateAudioFile(filename, size, order).0
    ensures UploadAudio(s, freshId, filename, size, order).1 == s
    ensures UploadAudio(s, freshId, filename, size, order).0.Error?
    ensures UploadAudio(s, freshId, filename, size, order).0.err.code == 400
  {
  }
}
