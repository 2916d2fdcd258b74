/** "Copy as Text" in the results view (frontend/src/pages/Results.jsx):
    the minutes rendered as plain lines joined with `\n`. Header, then the
    sections OVERVIEW, KEY POINTS, DECISIONS, OPEN QUESTIONS, ACTION ITEMS,
    each preceded by an empty line. Decisions, open questions and action
    items fall back to a single `None recorded` line when empty; key points
    have no fallback. */
module CopyText {
  import opened Prelude
  import opened Text
  import opened Minutes

  const Bullet: string := "• "
  const NoneRecorded: string := "None recorded"
  const HeaderPrefix: string := "MEETING MINUTES — "

  /** `• task`, then ` (assignee)` if an assignee is set, then ` — deadline`
      if a deadline is set; this is the text after the bullet. */
  function ActionBody(a: ActionItem): string {
    a.task
    + (if Truthy(a.assignee) then " (" + a.assignee.value + ")" else "")
    + (if Truthy(a.deadline) then " — " + a.deadline.value else "")
  }

  function ActionBodies(items: seq<ActionItem>): (bodies: seq<string>)
    ensures |bodies| == |items|
    ensures forall i :: 0 <= i < |items| ==> bodies[i] == ActionBody(items[i])
  {
    seq(|items|, i requires 0 <= i < |items| => ActionBody(items[i]))
  }

  /** A bulleted list, or the single placeholder line when there are no items. */
  function Block(items: seq<string>): seq<string> {
    if |items| > 0 then Prefixed(Bullet, items) else [NoneRecorded]
  }

  /** A blank line, a heading, then the heading's block. */
  function Section(heading: string, items: seq<string>): seq<string> {
    ["", heading] + Block(items)
  }

  function ActionsTail(actions: seq<ActionItem>): seq<string> {
    Section("ACTION ITEMS", ActionBodies(actions))
  }

  function QuestionsTail(questions: seq<string>, actions: seq<ActionItem>): seq<string> {
    Section("OPEN QUESTIONS", questions) + ActionsTail(actions)
  }

  function DecisionsTail(decisions: seq<string>, questions: seq<string>, actions: seq<ActionItem>): seq<string> {
    Section("DECISIONS", decisions) + QuestionsTail(questions, actions)
  }

  function Head(filename: string, overview: string): seq<string> {
    [HeaderPrefix + filename, "", "OVERVIEW", overview, "", "KEY POINTS"]
  }

  /** The list of lines `copyToClipboard` assembles before joining. */
  function CopyLines(filename: string, r: MeetingResult): (lines: seq<string>)
    ensures |lines| == 6 + |r.keyPoints| + 2 + |Block(r.decisions)| + 2
                     + |Block(r.openQuestions)| + 2 + |Block(ActionBodies(r.actionItems))|
    ensures lines[..6] == [HeaderPrefix + filename, "", "OVERVIEW", r.overview, "", "KEY POINTS"]
    ensures forall i :: 0 <= i < |r.keyPoints| ==> lines[6 + i] == Bullet + r.keyPoints[i]
    ensures lines[6 + |r.keyPoints|] == "" && lines[7 + |r.keyPoints|] == "DECISIONS"
  {
    var lines := Head(filename, r.overview) + Prefixed(Bullet, r.keyPoints)
      + DecisionsTail(r.decisions, r.openQuestions, r.actionItems);
    assert lines[..6] == Head(filename, r.overview);
    lines
  }

  /** The clipboard text. */
  function CopyToClipboardText(filename: string, r: MeetingResult): string {
    Join(CopyLines(filename, r), "\n")
  }

  /** What a reader of the copied text can recover: every field except the
      transcript (which is not copied), with each action item as its
      rendered line body. */
  datatype CopyFields = CopyFields(
    filename: string,
    overview: string,
    keyPoints: seq<string>,
    decisions: seq<string>,
    openQuestions: seq<string>,
    actionBodies: seq<string>)

  /** Reads one block: the placeholder, or a non-empty bulleted run. */
  function ParseBlock(lines: seq<string>): Option<(seq<string>, seq<string>)> {
    if |lines| > 0 && lines[0] == NoneRecorded then Some(([], lines[1..]))
    else
      var run := TakePrefixed(lines, Bullet);
      if |run.0| == 0 then None else Some(run)
  }

  /** Reads one section: the blank line, the expected heading, the block. */
  function ParseSection(heading: string, lines: seq<string>): Option<(seq<string>, seq<string>)> {
    if |lines| < 2 || lines[0] != "" || lines[1] != heading then None
    else ParseBlock(lines[2..])
  }

  function ParseActionsTail(lines: seq<string>): Option<seq<string>> {
    match ParseSection("ACTION ITEMS", lines)
    case None => None
    case Some(actions) => if actions.1 == [] then Some(actions.0) else None
  }

  function ParseQuestionsTail(lines: seq<string>): Option<(seq<string>, seq<string>)> {
    match ParseSection("OPEN QUESTIONS", lines)
    case None => None
    case Some(questions) =>
      match ParseActionsTail(questions.1)
      case None => None
      case Some(actions) => Some((questions.0, actions))
  }

  function ParseDecisionsTail(lines: seq<string>): Option<(seq<string>, seq<string>, seq<string>)> {
    match ParseSection("DECISIONS", lines)
    case None => None
    case Some(decisions) =>
      match ParseQuestionsTail(decisions.1)
      case None => None
      case Some(rest) => Some((decisions.0, rest.0, rest.1))
  }

  /** Reads copied lines back into their fields; `None` for anything
      `CopyLines` cannot have produced. */
  function ParseCopy(lines: seq<string>): Option<CopyFields> {
    if |lines| < 6 || !StartsWith(lines[0], HeaderPrefix)
       || lines[1..6] != ["", "OVERVIEW", lines[3], "", "KEY POINTS"] then None
    else
      var run := TakePrefixed(lines[6..], Bullet);
      match ParseDecisionsTail(run.1)
      case None => None
      case Some(tail) =>
        Some(CopyFields(lines[0][|HeaderPrefix|..], lines[3], run.0, tail.0, tail.1, tail.2))
  }

  lemma ParseBlockOfBlock(items: seq<string>, rest: seq<string>)
    requires rest == [] || !StartsWith(rest[0], Bullet)
    ensures ParseBlock(Block(items) + rest) == Some((items, rest))
  {
    if |items| > 0 {
      var lines := Block(items) + rest;
      assert lines[0] == Bullet + items[0];
      assert lines[0][0] != NoneRecorded[0];
      TakePrefixedOfPrefixed(Bullet, items, rest);
    } else {
      assert (Block(items) + rest)[1..] == rest;
    }
  }

  lemma ParseSectionOf(heading: string, items: seq<string>, rest: seq<string>)
    requires rest == [] || !StartsWith(rest[0], Bullet)
    ensures ParseSection(heading, Section(heading, items) + rest) == Some((items, rest))
  {
    var lines := Section(heading, items) + rest;
    assert lines[2..] == Block(items) + rest;
    ParseBlockOfBlock(items, rest);
  }

  lemma ParseActionsTailOf(actions: seq<ActionItem>)
    ensures ParseActionsTail(ActionsTail(actions)) == Some(ActionBodies(actions))
  {
    assert ActionsTail(actions) + [] == ActionsTail(actions);
    ParseSectionOf("ACTION ITEMS", ActionBodies(actions), []);
  }

  lemma ParseQuestionsTailOf(questions: seq<string>, actions: seq<ActionItem>)
    ensures ParseQuestionsTail(QuestionsTail(questions, actions)) == Some((questions, ActionBodies(actions)))
  {
    var tail := ActionsTail(actions);
    assert tail[0] == "";
    ParseSectionOf("OPEN QUESTIONS", questions, tail);
    ParseActionsTailOf(actions);
  }

  lemma ParseDecisionsTailOf(decisions: seq<string>, questions: seq<string>, actions: seq<ActionItem>)
    ensures ParseDecisionsTail(DecisionsTail(decisions, questions, actions))
            == Some((decisions, questions, ActionBodies(actions)))
  {
    var tail := QuestionsTail(questions, actions);
    assert tail[0] == "";
    ParseSectionOf("DECISIONS", decisions, tail);
    ParseQuestionsTailOf(questions, actions);
  }

  /** The header and key points read back, given that the rest parses. */
  lemma ParseCopyOf(filename: string, overview: string, keyPoints: seq<string>, tail: seq<string>,
                    fields: (seq<string>, seq<string>, seq<string>))
    requires tail == [] || !StartsWith(tail[0], Bullet)
    requires ParseDecisionsTail(tail) == Some(fields)
    ensures ParseCopy(Head(filename, overview) + Prefixed(Bullet, keyPoints) + tail)
            == Some(CopyFields(filename, overview, keyPoints, fields.0, fields.1, fields.2))
  {
    var lines := Head(filename, overview) + Prefixed(Bullet, keyPoints) + tail;
    assert lines[6..] == Prefixed(Bullet, keyPoints) + tail;
    TakePrefixedOfPrefixed(Bullet, keyPoints, tail);
    assert StartsWith(lines[0], HeaderPrefix) && lines[0][|HeaderPrefix|..] == filename by {
      assert lines[0] == HeaderPrefix + filename;
    }
  }

  /** The copied layout is unambiguous: every field it carries (all but the
      transcript) can be read back, in order, from the lines. */
  lemma ParseCopyLines(filename: string, r: MeetingResult)
    ensures ParseCopy(CopyLines(filename, r))
            == Some(CopyFields(filename, r.overview, r.keyPoints, r.decisions,
                               r.openQuestions, ActionBodies(r.actionItems)))
  {
    var tail := DecisionsTail(r.decisions, r.openQuestions, r.actionItems);
    assert tail[0] == "";
    ParseDecisionsTailOf(r.decisions, r.openQuestions, r.actionItems);
    ParseCopyOf(filename, r.overview, r.keyPoints, tail, (r.decisions, r.openQuestions, ActionBodies(r.actionItems)));
  }

  /** An empty decision list and a decision that reads "None recorded" copy
      differently: the placeholder carries no bullet. */
  lemma CopyDistinguishesPlaceholder(filename: string, r: MeetingResult)
    ensures CopyLines(filename, r.(decisions := []))
            != CopyLines(filename, r.(decisions := [NoneRecorded]))
  {
    ParseCopyLines(filename, r.(decisions := []));
    ParseCopyLines(filename, r.(decisions := [NoneRecorded]));
  }

  /** Key points have no placeholder: with none, the KEY POINTS heading is
      followed directly by the empty line before DECISIONS. */
  lemma KeyPointsWithoutPlaceholder(filename: string, r: MeetingResult)
    requires r.keyPoints == []
    ensures CopyLines(filename, r)[5..8] == ["KEY POINTS", "", "DECISIONS"]
  {
  }

  /** When no field contains a newline, the copied text splits back into
      exactly the assembled lines. */
  lemma CopyTextSplitsIntoLines(filename: string, r: MeetingResult)
    requires forall k :: 0 <= k < |CopyLines(filename, r)| ==> '\n' !in CopyLines(filename, r)[k]
    ensures Split(CopyToClipboardText(filename, r), "\n") == CopyLines(filename, r)
  {
    SplitJoin(CopyLines(filename, r), '\n');
  }

  /** A sample result: overview "Q3 planning", one key
      point, no decisions or questions, one high-confidence action item with
      an assignee and an empty deadline. */
  lemma ExampleCopy()
    ensures CopyLines("standup.mp3", MeetingResult(
              "Q3 planning", ["Budget approved"], [], [],
              [ActionItem("Send invoice", Some("Sam"), Some(""), None, "high")], ""))
            == ["MEETING MINUTES — standup.mp3", "", "OVERVIEW", "Q3 planning", "", "KEY POINTS",
                "• Budget approved", "", "DECISIONS", "None recorded", "", "OPEN QUESTIONS",
                "None recorded", "", "ACTION ITEMS", "• Send invoice (Sam)"]
  {
    var a := ActionItem("Send invoice", Some("Sam"), Some(""), None, "high");
    assert ActionBody(a) == "Send invoice (Sam)";
    assert Bullet + "Budget approved" == "• Budget approved";
    assert Bullet + "Send invoice (Sam)" == "• Send invoice (Sam)";
    assert HeaderPrefix + "standup.mp3" == "MEETING MINUTES — standup.mp3";
    var kp := Prefixed(Bullet, ["Budget approved"]);
    assert kp == ["• Budget approved"] by { assert kp[0] == "• Budget approved"; }
    var acts := Block(ActionBodies([a]));
    assert acts == ["• Send invoice (Sam)"] by { assert acts[0] == "• Send invoice (Sam)"; }
  }
}
