/** What the results view shows of the minutes
    (frontend/src/pages/Results.jsx): list sections with their "None
    recorded" fallback, and the action items, of which low-confidence ones
    are hidden until the user asks for them. */
module ActionView {
  import opened Minutes

  predicate IsLow(a: ActionItem) {
    a.confidence == "low"
  }

  /** `result.action_items.filter((a) => showLowConf || a.confidence !== "low")`. */
  function VisibleActions(items: seq<ActionItem>, showLow: bool): (shown: seq<ActionItem>)
    ensures |shown| <= |items|
    ensures forall a :: a in shown <==> a in items && (showLow || !IsLow(a))
    decreases |items|
  {
    if |items| == 0 then []
    else
      var rest := VisibleActions(items[1..], showLow);
      assert forall a :: a in items <==> a == items[0] || a in items[1..];
      if showLow || !IsLow(items[0]) then [items[0]] + rest else rest
  }

  /** The toggle button is rendered when some item is low-confidence
      (`result.action_items.some((a) => a.confidence === "low")`). */
  predicate LowToggleOffered(items: seq<ActionItem>) {
    exists i :: 0 <= i < |items| && IsLow(items[i])
  }

  /** Filtering distributes over concatenation, so the filter keeps the
      relative order of the items it keeps. */
  lemma {:induction false} VisibleActionsAppend(xs: seq<ActionItem>, ys: seq<ActionItem>, showLow: bool)
    ensures VisibleActions(xs + ys, showLow) == VisibleActions(xs, showLow) + VisibleActions(ys, showLow)
    decreases |xs|
  {
    if |xs| > 0 {
      assert (xs + ys)[1..] == xs[1..] + ys;
      VisibleActionsAppend(xs[1..], ys, showLow);
    } else {
      assert xs + ys == ys;
    }
  }

  /** With the toggle on, every item is shown, in order. */
  lemma {:induction false} ShowAllIsIdentity(items: seq<ActionItem>)
    ensures VisibleActions(items, true) == items
    decreases |items|
  {
    if |items| > 0 {
      ShowAllIsIdentity(items[1..]);
      assert items == [items[0]] + items[1..];
    }
  }

  /** With the toggle off, exactly the low-confidence items disappear. */
  lemma {:induction false} HiddenAreExactlyLow(items: seq<ActionItem>)
    ensures |VisibleActions(items, false)| == |items| <==> !LowToggleOffered(items)
    ensures !LowToggleOffered(items) ==> VisibleActions(items, false) == items
    decreases |items|
  {
    if |items| > 0 {
      HiddenAreExactlyLow(items[1..]);
      assert items == [items[0]] + items[1..];
      assert LowToggleOffered(items) <==> IsLow(items[0]) || LowToggleOffered(items[1..]) by {
        if LowToggleOffered(items[1..]) {
          var i :| 0 <= i < |items[1..]| && IsLow(items[1..][i]);
          assert IsLow(items[i + 1]);
        }
        if LowToggleOffered(items) && !IsLow(items[0]) {
          var i :| 0 <= i < |items| && IsLow(items[i]);
          assert IsLow(items[1..][i - 1]);
        }
      }
    }
  }

  /** The toggle is offered exactly when pressing it changes what is shown. */
  lemma ToggleOfferedIffItMatters(items: seq<ActionItem>)
    ensures LowToggleOffered(items) <==> VisibleActions(items, false) != VisibleActions(items, true)
  {
    ShowAllIsIdentity(items);
    HiddenAreExactlyLow(items);
  }

  /** The action-item section of the view. */
  datatype ActionSection =
    | NoActionItemsFound
    | ActionList(shown: seq<ActionItem>, toggleOffered: bool)

  function RenderActions(items: seq<ActionItem>, showLow: bool): (s: ActionSection)
    ensures s.NoActionItemsFound? <==> |items| == 0
    ensures s.ActionList? ==> s.toggleOffered == LowToggleOffered(items)
    ensures s.ActionList? ==> forall a :: a in s.shown <==> a in items && (showLow || !IsLow(a))
    ensures s.ActionList? ==> s.shown == VisibleActions(items, showLow)
  {
    if |items| == 0 then NoActionItemsFound
    else ActionList(VisibleActions(items, showLow), LowToggleOffered(items))
  }

  /** A key-point, decision or open-question section of the view. */
  datatype ListSection = NoneRecorded | Listed(items: seq<string>)

  function RenderList(items: seq<string>): (s: ListSection)
    ensures s.NoneRecorded? <==> |items| == 0
    ensures s.Listed? ==> s.items == items
  {
    if |items| > 0 then Listed(items) else NoneRecorded
  }
}
