/** The Markdown export rendered by `export_job` in backend/main.py. Same
    section order as the copied text, with Markdown headings, `- ` bullets and
    `- [ ] ` check boxes; decisions and open questions fall back to
    `- None recorded`, while key points and action items have no fallback.
    The transcript closes the document under a rule. */
module MarkdownExport {
  import opened Prelude
  import opened Text
  import opened Minutes

  const Dash: string := "- "
  const Box: string := "- [ ] "
  const HeaderPrefix: string := "# Meeting Minutes — "
  const Placeholder: string := "None recorded"

  /** The check-box line body: task, then ` — Assignee: X` if an assignee
      is set, then ` — Deadline: Y` if a deadline is set. */
  function ExportActionBody(a: ActionItem): string {
    a.task
    + (if Truthy(a.assignee) then " — Assignee: " + a.assignee.value else "")
    + (if Truthy(a.deadline) then " — Deadline: " + a.deadline.value else "")
  }

  function ExportActionBodies(items: seq<ActionItem>): (bodies: seq<string>)
    ensures |bodies| == |items|
    ensures forall i :: 0 <= i < |items| ==> bodies[i] == ExportActionBody(items[i])
  {
    seq(|items|, i requires 0 <= i < |items| => ExportActionBody(items[i]))
  }

  /** `decisions_lines` / `questions_lines`: one dash line per item, or the
      single placeholder line. */
  function ListLines(items: seq<string>): seq<string> {
    if |items| > 0 then Prefixed(Dash, items) else [Dash + Placeholder]
  }

  /** The items a reader sees under a placeholder-capable heading. */
  function Shown(items: seq<string>): (shown: seq<string>)
    ensures |shown| > 0
    ensures ListLines(items) == Prefixed(Dash, shown)
  {
    var shown := if |items| > 0 then items else [Placeholder];
    assert Prefixed(Dash, [Placeholder]) == [Dash + Placeholder];
    shown
  }

  function Footer(transcript: string): seq<string> {
    ["", "---", "## Full Transcript", "", transcript]
  }

  function ActionsTail(actions: seq<ActionItem>, transcript: string): seq<string> {
    ["", "## Action Items"] + Prefixed(Box, ExportActionBodies(actions)) + Footer(transcript)
  }

  function QuestionsTail(questions: seq<string>, actions: seq<ActionItem>, transcript: string): seq<string> {
    ["", "## Open Questions"] + ListLines(questions) + ActionsTail(actions, transcript)
  }

  function DecisionsTail(r: MeetingResult): seq<string> {
    ["", "## Decisions Made"] + ListLines(r.decisions)
    + QuestionsTail(r.openQuestions, r.actionItems, r.transcript)
  }

  function Head(filename: string, overview: string): seq<string> {
    [HeaderPrefix + filename, "", "## Overview", overview, "", "## Key Discussion Points"]
  }

  /** The `lines` list `export_job` builds. */
  function ExportLines(filename: string, r: MeetingResult): (lines: seq<string>)
    ensures |lines| == 6 + |r.keyPoints| + 2 + |Shown(r.decisions)| + 2
                     + |Shown(r.openQuestions)| + 2 + |r.actionItems| + 5
    ensures lines[..6] == [HeaderPrefix + filename, "", "## Overview", r.overview, "", "## Key Discussion Points"]
    ensures lines[|lines| - 5..] == ["", "---", "## Full Transcript", "", r.transcript]
    ensures forall i :: 0 <= i < |r.keyPoints| ==> lines[6 + i] == Dash + r.keyPoints[i]
  {
    var lines := Head(filename, r.overview) + Prefixed(Dash, r.keyPoints) + DecisionsTail(r);
    assert lines[..6] == Head(filename, r.overview);
    assert lines[|lines| - 5..] == Footer(r.transcript);
    lines
  }

  /** The response body: the lines joined with `\n`. */
  function ExportDocument(filename: string, r: MeetingResult): string {
    Join(ExportLines(filename, r), "\n")
  }

  /** The download name, `minutes_{job_id[:8]}.md`. */
  function AttachmentName(jobId: string): (name: string)
    ensures StartsWith(name, "minutes_")
    ensures |jobId| >= 8 ==> name == "minutes_" + jobId[..8] + ".md"
    ensures |jobId| < 8 ==> name == "minutes_" + jobId + ".md"
  {
    var n := "minutes_" + (if |jobId| < 8 then jobId else jobId[..8]) + ".md";
    assert n[..8] == "minutes_";
    n
  }

  /** What a reader of the export can recover. Decisions and open questions
      are recovered as shown, placeholder included. */
  datatype ExportFields = ExportFields(
    filename: string,
    overview: string,
    keyPoints: seq<string>,
    decisionsShown: seq<string>,
    questionsShown: seq<string>,
    actionBodies: seq<string>,
    transcript: string)

  /** Reads one section: the blank line, the expected heading, then the run
      of lines carrying `marker`, and whatever follows. */
  function ParseRun(heading: string, marker: string, lines: seq<string>): Option<(seq<string>, seq<string>)> {
    if |lines| < 2 || lines[0] != "" || lines[1] != heading then None
    else Some(TakePrefixed(lines[2..], marker))
  }

  function ParseActionsTail(lines: seq<string>): Option<(seq<string>, string)> {
    match ParseRun("## Action Items", Box, lines)
    case None => None
    case Some(run) =>
      if |run.1| == 5 && run.1[..4] == ["", "---", "## Full Transcript", ""] then Some((run.0, run.1[4]))
      else None
  }

  function ParseQuestionsTail(lines: seq<string>): Option<(seq<string>, seq<string>, string)> {
    match ParseRun("## Open Questions", Dash, lines)
    case None => None
    case Some(run) =>
      if |run.0| == 0 then None
      else match ParseActionsTail(run.1)
        case None => None
        case Some(rest) => Some((run.0, rest.0, rest.1))
  }

  function ParseDecisionsTail(lines: seq<string>): Option<(seq<string>, seq<string>, seq<string>, string)> {
    match ParseRun("## Decisions Made", Dash, lines)
    case None => None
    case Some(run) =>
      if |run.0| == 0 then None
      else match ParseQuestionsTail(run.1)
        case None => None
        case Some(rest) => Some((run.0, rest.0, rest.1, rest.2))
  }

  /** Reads an export back into its fields; `None` for anything
      `ExportLines` cannot have produced. */
  function ParseExport(lines: seq<string>): Option<ExportFields> {
    if |lines| < 6 || !StartsWith(lines[0], HeaderPrefix)
       || lines[1..6] != ["", "## Overview", lines[3], "", "## Key Discussion Points"] then None
    else
      var run := TakePrefixed(lines[6..], Dash);
      match ParseDecisionsTail(run.1)
      case None => None
      case Some(t) =>
        Some(ExportFields(lines[0][|HeaderPrefix|..], lines[3], run.0, t.0, t.1, t.2, t.3))
  }

  lemma ParseRunOf(heading: string, marker: string, items: seq<string>, rest: seq<string>)
    requires rest == [] || !StartsWith(rest[0], marker)
    ensures ParseRun(heading, marker, ["", heading] + Prefixed(marker, items) + rest) == Some((items, rest))
  {
    var lines := ["", heading] + Prefixed(marker, items) + rest;
    assert lines[2..] == Prefixed(marker, items) + rest;
    TakePrefixedOfPrefixed(marker, items, rest);
  }

  lemma ParseActionsTailOf(actions: seq<ActionItem>, transcript: string)
    ensures ParseActionsTail(ActionsTail(actions, transcript))
            == Some((ExportActionBodies(actions), transcript))
  {
    var footer := Footer(transcript);
    assert footer[0] == "";
    ParseRunOf("## Action Items", Box, ExportActionBodies(actions), footer);
    assert footer[..4] == ["", "---", "## Full Transcript", ""];
  }

  lemma ParseQuestionsTailOf(questions: seq<string>, actions: seq<ActionItem>, transcript: string)
    ensures ParseQuestionsTail(QuestionsTail(questions, actions, transcript))
            == Some((Shown(questions), ExportActionBodies(actions), transcript))
  {
    var tail := ActionsTail(actions, transcript);
    assert tail[0] == "";
    ParseRunOf("## Open Questions", Dash, Shown(questions), tail);
    ParseActionsTailOf(actions, transcript);
  }

  lemma ParseDecisionsTailOf(r: MeetingResult)
    ensures ParseDecisionsTail(DecisionsTail(r))
            == Some((Shown(r.decisions), Shown(r.openQuestions), ExportActionBodies(r.actionItems), r.transcript))
  {
    var tail := QuestionsTail(r.openQuestions, r.actionItems, r.transcript);
    assert tail[0] == "";
    ParseRunOf("## Decisions Made", Dash, Shown(r.decisions), tail);
    ParseQuestionsTailOf(r.openQuestions, r.actionItems, r.transcript);
  }

  /** The export is readable back into every field, in order; decisions and
      open questions come back as shown, so an empty list reads as the
      placeholder. */
  lemma ParseExportLines(filename: string, r: MeetingResult)
    ensures ParseExport(ExportLines(filename, r))
            == Some(ExportFields(filename, r.overview, r.keyPoints, Shown(r.decisions),
                                 Shown(r.openQuestions), ExportActionBodies(r.actionItems), r.transcript))
  {
    var tail := DecisionsTail(r);
    assert tail[0] == "";
    ParseDecisionsTailOf(r);
    ParseExportOf(filename, r.overview, r.keyPoints, tail,
                  (Shown(r.decisions), Shown(r.openQuestions), ExportActionBodies(r.actionItems), r.transcript));
  }

  /** The header and key points read back, given that the rest parses. */
  lemma ParseExportOf(filename: string, overview: string, keyPoints: seq<string>, tail: seq<string>,
                      fields: (seq<string>, seq<string>, seq<string>, string))
    requires tail == [] || !StartsWith(tail[0], Dash)
    requires ParseDecisionsTail(tail) == Some(fields)
    ensures ParseExport(Head(filename, overview) + Prefixed(Dash, keyPoints) + tail)
            == Some(ExportFields(filename, overview, keyPoints, fields.0, fields.1, fields.2, fields.3))
  {
    var lines := Head(filename, overview) + Prefixed(Dash, keyPoints) + tail;
    assert lines[6..] == Prefixed(Dash, keyPoints) + tail;
    TakePrefixedOfPrefixed(Dash, keyPoints, tail);
    assert StartsWith(lines[0], HeaderPrefix) && lines[0][|HeaderPrefix|..] == filename by {
      assert lines[0] == HeaderPrefix + filename;
    }
  }

  /** Unlike the copied text, the export cannot tell an empty decision list
      from a single decision that reads "None recorded"; the same holds for
      open questions. */
  lemma ExportPlaceholderIsAmbiguous(filename: string, r: MeetingResult)
    ensures ExportLines(filename, r.(decisions := [])) == ExportLines(filename, r.(decisions := [Placeholder]))
    ensures ExportLines(filename, r.(openQuestions := [])) == ExportLines(filename, r.(openQuestions := [Placeholder]))
  {
    assert ListLines([]) == ListLines([Placeholder]) by {
      assert Prefixed(Dash, [Placeholder]) == [Dash + Placeholder];
    }
  }

  /** With no action items, the `## Action Items` heading is followed
      directly by the transcript footer. */
  lemma EmptyActionsHaveNoPlaceholder(filename: string, r: MeetingResult)
    requires r.actionItems == []
    ensures var lines := ExportLines(filename, r);
            lines[|lines| - 7..] == ["", "## Action Items", "", "---", "## Full Transcript", "", r.transcript]
  {
    var lines := ExportLines(filename, r);
    var tail := ActionsTail(r.actionItems, r.transcript);
    assert tail == ["", "## Action Items"] + Footer(r.transcript);
    assert lines == Head(filename, r.overview) + Prefixed(Dash, r.keyPoints)
                    + (["", "## Decisions Made"] + ListLines(r.decisions)
                    + (["", "## Open Questions"] + ListLines(r.openQuestions) + tail));
  }

  /** When no field contains a newline, the exported document splits back
      into exactly its lines. */
  lemma ExportDocumentSplitsIntoLines(filename: string, r: MeetingResult)
    requires forall k :: 0 <= k < |ExportLines(filename, r)| ==> '\n' !in ExportLines(filename, r)[k]
    ensures Split(ExportDocument(filename, r), "\n") == ExportLines(filename, r)
  {
    SplitJoin(ExportLines(filename, r), '\n');
  }
}
