/** The processing view (frontend/src/pages/Processing.jsx) as a pure state
    machine over timer ticks. Two interval timers run while the view polls:
    a cosmetic step counter and the status poll. Each tick of a running
    timer is an event; a cleared timer never fires again, so its ticks are
    no-ops. */
module ProcessingView {
  import opened Prelude

  /** The four step labels; the counter saturates at the last index. */
  const StepCount: nat := 4
  const LastStep: nat := StepCount - 1

  const FailedDefault: string := "Processing failed."
  const UnreachableMessage: string := "Could not reach the server."

  /** One poll tick's outcome: the job's status with its `error_msg`, or a
      failed request. axios rejects on a transport error and on any non-2xx
      reply alike (the 404 "Job not found" of `get_job` among them), and the
      same `catch` handles both. */
  datatype PollReply = Status(status: string, errorMsg: Option<string>) | RequestFailed

  datatype Event = StepTick | PollTick(reply: PollReply) | Teardown

  datatype ViewState = ViewState(
    status: string,
    step: nat,
    error: string,
    pollTimer: bool,
    stepTimer: bool,
    navigations: seq<string>)

  const Initial: ViewState := ViewState("processing", 0, "", true, true, [])

  /** The updater `(s) => (s < steps.length - 1 ? s + 1 : s)`. */
  function AdvanceStep(s: nat): (t: nat)
    ensures s <= LastStep ==> t <= LastStep
    ensures s <= t <= s + 1
    ensures t == s <==> s >= LastStep
  {
    if s < StepCount - 1 then s + 1 else s
  }

  /** The poll callback for one reply. */
  function OnPoll(s: ViewState, jobId: string, reply: PollReply): (t: ViewState)
    ensures reply.RequestFailed? ==>
              t == s.(error := UnreachableMessage, pollTimer := false, stepTimer := false)
    ensures reply.Status? && reply.status == "completed" ==>
              t == s.(status := "completed", pollTimer := false, stepTimer := false,
                      navigations := s.navigations + ["/results/" + jobId])
    ensures reply.Status? && reply.status == "failed" ==>
              t == s.(status := "failed", pollTimer := false, stepTimer := false,
                      error := OrElse(reply.errorMsg, FailedDefault))
    ensures reply.Status? && reply.status != "completed" && reply.status != "failed" ==>
              t == s.(status := reply.status)
  {
    match reply
    case RequestFailed =>
      s.(error := UnreachableMessage, pollTimer := false, stepTimer := false)
    case Status(status, errorMsg) =>
      var t := s.(status := status);
      var t := if status == "completed" then
                 t.(pollTimer := false, stepTimer := false, navigations := t.navigations + ["/results/" + jobId])
               else t;
      if status == "failed" then
        t.(pollTimer := false, stepTimer := false, error := OrElse(errorMsg, FailedDefault))
      else t
  }

  function Apply(s: ViewState, jobId: string, e: Event): ViewState {
    match e
    case StepTick => if s.stepTimer then s.(step := AdvanceStep(s.step)) else s
    case PollTick(reply) => if s.pollTimer then OnPoll(s, jobId, reply) else s
    case Teardown => s.(pollTimer := false, stepTimer := false)
  }

  function Run(s: ViewState, jobId: string, events: seq<Event>): ViewState
    decreases |events|
  {
    if |events| == 0 then s else Run(Apply(s, jobId, events[0]), jobId, events[1..])
  }

  /** What every reachable state satisfies: the timers run and stop
      together; while they run there is no error and no navigation; at most
      one navigation ever happens; the step stays within the labels. */
  predicate Consistent(s: ViewState) {
    && s.pollTimer == s.stepTimer
    && s.step <= LastStep
    && |s.navigations| <= 1
    && (s.pollTimer ==> s.error == "" && s.navigations == [])
  }

  lemma ApplyKeepsConsistent(s: ViewState, jobId: string, e: Event)
    requires Consistent(s)
    ensures Consistent(Apply(s, jobId, e))
    ensures Apply(s, jobId, e).step >= s.step
  {
  }

  /** Every run from the initial state stays consistent, and the step
      counter never moves backwards. */
  lemma {:induction false} RunKeepsConsistent(s: ViewState, jobId: string, events: seq<Event>)
    requires Consistent(s)
    ensures Consistent(Run(s, jobId, events))
    ensures Run(s, jobId, events).step >= s.step
    decreases |events|
  {
    if |events| > 0 {
      ApplyKeepsConsistent(s, jobId, events[0]);
      RunKeepsConsistent(Apply(s, jobId, events[0]), jobId, events[1..]);
    }
  }

  /** Once the timers are stopped, nothing further changes what the user
      sees: no new error, no new navigation, no step movement. */
  lemma {:induction false} StoppedIsFinal(s: ViewState, jobId: string, events: seq<Event>)
    requires !s.pollTimer && !s.stepTimer
    ensures Run(s, jobId, events) == s
    decreases |events|
  {
    if |events| > 0 {
      assert Apply(s, jobId, events[0]) == s;
      StoppedIsFinal(s, jobId, events[1..]);
    }
  }

  /** Leaving the view stops both timers whatever state it was in, and no
      later tick has any effect. */
  lemma TeardownStopsEverything(s: ViewState, jobId: string, after: seq<Event>)
    ensures Run(s, jobId, [Teardown] + after) == s.(pollTimer := false, stepTimer := false)
  {
    var stopped := s.(pollTimer := false, stepTimer := false);
    assert ([Teardown] + after)[1..] == after;
    StoppedIsFinal(stopped, jobId, after);
  }

  /** An event that neither ends polling nor stops the timers. */
  predicate Quiet(e: Event) {
    || e.StepTick?
    || (e.PollTick? && e.reply.Status? && e.reply.status != "completed" && e.reply.status != "failed")
  }

  /** Quiet events keep the view polling with no error. */
  lemma {:induction false} QuietKeepsPolling(s: ViewState, jobId: string, events: seq<Event>)
    requires Consistent(s) && s.pollTimer
    requires forall k :: 0 <= k < |events| ==> Quiet(events[k])
    ensures Run(s, jobId, events).pollTimer && Run(s, jobId, events).stepTimer
    ensures Run(s, jobId, events).error == ""
    ensures Run(s, jobId, events).navigations == []
    decreases |events|
  {
    if |events| > 0 {
      ApplyKeepsConsistent(s, jobId, events[0]);
      QuietKeepsPolling(Apply(s, jobId, events[0]), jobId, events[1..]);
    }
  }

  lemma RunAppend(s: ViewState, jobId: string, xs: seq<Event>, ys: seq<Event>)
    ensures Run(s, jobId, xs + ys) == Run(Run(s, jobId, xs), jobId, ys)
    decreases |xs|
  {
    if |xs| > 0 {
      assert (xs + ys)[1..] == xs[1..] + ys;
      RunAppend(Apply(s, jobId, xs[0]), jobId, xs[1..], ys);
    } else {
      assert xs + ys == ys;
    }
  }

  /** However many "processing" replies came first, a failed request
      stops both timers and shows the unreachable message, for good. */
  lemma FailedRequestIsTerminal(jobId: string, before: seq<Event>, after: seq<Event>)
    requires forall k :: 0 <= k < |before| ==> Quiet(before[k])
    ensures var s := Run(Initial, jobId, before + [PollTick(RequestFailed)] + after);
            s.error == UnreachableMessage && !s.pollTimer && !s.stepTimer && s.navigations == []
  {
    QuietKeepsPolling(Initial, jobId, before);
    var mid := Run(Initial, jobId, before + [PollTick(RequestFailed)]);
    RunAppend(Initial, jobId, before, [PollTick(RequestFailed)]);
    RunAppend(Initial, jobId, before + [PollTick(RequestFailed)], after);
    StoppedIsFinal(mid, jobId, after);
  }

  /** A "completed" reply navigates to the results exactly once and stops
      both timers, whatever happens afterwards. */
  lemma CompletionNavigatesOnce(jobId: string, before: seq<Event>, errorMsg: Option<string>, after: seq<Event>)
    requires forall k :: 0 <= k < |before| ==> Quiet(before[k])
    ensures var s := Run(Initial, jobId, before + [PollTick(Status("completed", errorMsg))] + after);
            s.navigations == ["/results/" + jobId] && !s.pollTimer && !s.stepTimer && s.error == ""
  {
    QuietKeepsPolling(Initial, jobId, before);
    var e := PollTick(Status("completed", errorMsg));
    var mid := Run(Initial, jobId, before + [e]);
    RunAppend(Initial, jobId, before, [e]);
    RunAppend(Initial, jobId, before + [e], after);
    StoppedIsFinal(mid, jobId, after);
  }

  /** A "failed" reply shows the job's message, or the default when it is
      absent or empty, and stops polling. */
  lemma FailureShowsMessage(jobId: string, before: seq<Event>, errorMsg: Option<string>, after: seq<Event>)
    requires forall k :: 0 <= k < |before| ==> Quiet(before[k])
    ensures var s := Run(Initial, jobId, before + [PollTick(Status("failed", errorMsg))] + after);
            && s.error == (if Truthy(errorMsg) then errorMsg.value else FailedDefault)
            && !s.pollTimer && !s.stepTimer && s.navigations == []
  {
    QuietKeepsPolling(Initial, jobId, before);
    var e := PollTick(Status("failed", errorMsg));
    var mid := Run(Initial, jobId, before + [e]);
    RunAppend(Initial, jobId, before, [e]);
    RunAppend(Initial, jobId, before + [e], after);
    StoppedIsFinal(mid, jobId, after);
  }

  function StepTicks(n: nat): (ticks: seq<Event>)
    ensures |ticks| == n
    ensures forall k :: 0 <= k < n ==> ticks[k] == StepTick
  {
    seq(n, k => StepTick)
  }

  /** After n step ticks the counter shows min(n, 3). */
  lemma {:induction false} StepCounterSaturates(jobId: string, n: nat)
    ensures Run(Initial, jobId, StepTicks(n)).step == if n < LastStep then n else LastStep
  {
    if n > 0 {
      StepCounterSaturates(jobId, n - 1);
      assert StepTicks(n) == StepTicks(n - 1) + [StepTick];
      RunAppend(Initial, jobId, StepTicks(n - 1), [StepTick]);
      QuietKeepsPolling(Initial, jobId, StepTicks(n - 1));
    }
  }

  /** How step i is drawn against the counter. */
  datatype StepLook = Done | Current | Upcoming

  function StepAppearance(i: nat, step: nat): (look: StepLook)
    ensures look == Done <==> i < step
    ensures look == Current <==> i == step
    ensures look == Upcoming <==> i > step
  {
    if i < step then Done else if i == step then Current else Upcoming
  }

  /** The screen: the error panel whenever the error is non-empty, else the
      progress list. */
  datatype Screen = ErrorPanel(message: string) | Progress(step: nat)

  function Render(s: ViewState): (screen: Screen)
    ensures screen.ErrorPanel? <==> s.error != ""
    ensures screen.ErrorPanel? ==> screen.message == s.error
    ensures screen.Progress? ==> screen.step == s.step
  {
    if s.error != "" then ErrorPanel(s.error) else Progress(s.step)
  }
}
