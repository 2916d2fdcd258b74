/** The structured minutes of a completed job (the `Result` row of
    backend/models.py, after its JSON columns are decoded) and the
    line-list vocabulary both text renderers are built from. */
module Minutes {
  import opened Prelude
  import opened Text

  /** One extracted task. `confidence` is kept as the raw string the
      language model returned; only the value "low" is ever inspected. */
  datatype ActionItem = ActionItem(
    task: string,
    assignee: Option<string>,
    deadline: Option<string>,
    evidence: Option<string>,
    confidence: string)

  datatype MeetingResult = MeetingResult(
    overview: string,
    keyPoints: seq<string>,
    decisions: seq<string>,
    openQuestions: seq<string>,
    actionItems: seq<ActionItem>,
    transcript: string)

  /** One line per item, each item behind the same marker (`• `, `- `, `- [ ] `). */
  function Prefixed(prefix: string, items: seq<string>): seq<string> {
    seq(|items|, i requires 0 <= i < |items| => prefix + items[i])
  }

  /** The longest run of leading lines that carry `prefix`, with the marker
      removed, and whatever follows the run. */
  function TakePrefixed(lines: seq<string>, prefix: string): (seq<string>, seq<string>)
    decreases |lines|
  {
    if |lines| > 0 && StartsWith(lines[0], prefix) then
      var tail := TakePrefixed(lines[1..], prefix);
      ([lines[0][|prefix|..]] + tail.0, tail.1)
    else
      ([], lines)
  }

  /** Reading back a marked run recovers exactly the items that were marked,
      provided the line after the run does not carry the marker. */
  lemma {:induction false} TakePrefixedOfPrefixed(prefix: string, items: seq<string>, rest: seq<string>)
    requires rest == [] || !StartsWith(rest[0], prefix)
    ensures TakePrefixed(Prefixed(prefix, items) + rest, prefix) == (items, rest)
    decreases |items|
  {
    var lines := Prefixed(prefix, items) + rest;
    if |items| > 0 {
      assert lines[0] == prefix + items[0];
      assert lines[0][..|prefix|] == prefix;
      assert lines[0][|prefix|..] == items[0];
      assert lines[1..] == Prefixed(prefix, items[1..]) + rest;
      TakePrefixedOfPrefixed(prefix, items[1..], rest);
      assert items == [items[0]] + items[1..];
    } else {
      assert lines == rest;
    }
  }
}
