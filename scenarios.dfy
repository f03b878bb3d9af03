/**
 * Whole interactions, replayed against the views' contracts: the list is seeded, rows
 * report their frames, a row is tapped, the highlighted copy is created for the collected
 * entry of the selected message, and the events of the interaction follow. Each method
 * allocates its own objects and changes nothing that exists before it runs.
 */
module Scenarios {
  import opened Optional
  import opened Geometry
  import opened Messages
  import opened Preferences
  import opened Overlay
  import opened Views

  /** Row i is laid out 60 points below row i - 1; message 1 starts at the top, at y = 50. */
  function RowFrames(n: nat): (frames: seq<Rect>)
    ensures |frames| == n
  {
    seq(n, i requires 0 <= i < n => Rect(0.0, 50.0 + 60.0 * (i as real), 320.0, 44.0))
  }

  /** Seeds a list, lays out every row and taps row k; returns the highlighted copy created for it. */
  method SelectRow(k: nat) returns (list: MessageListView, view: MessageWithActionView)
    requires k < SeedCount
    ensures fresh(list) && fresh(view) && list.Valid() && view.Valid()
    ensures |list.messages| == SeedCount
    ensures forall i :: 0 <= i < |list.messages| ==>
              fresh(list.messages[i]) && list.messages[i].id == i + 1 && list.messages[i].action == None
    ensures list.selectedId == Some(k + 1)
    ensures view.messageWithGeo.message == list.messages[k] && view.frame == RowFrames(SeedCount)[k]
    ensures view.selection == list && view.State() == Appeared
  {
    list := new MessageListView();
    list.Populate();
    var row := new MessageView(list.messages[k], list);
    row.Tap();
    var frames := RowFrames(SeedCount);
    var shown := OverlayEntries(Collect(RowReports(list.messages, frames)), list.selectedId);
    SelectedRowOverlay(list.messages, frames, k);
    view := new MessageWithActionView(shown[0], list);
  }

  /** Selecting message 5 and tapping the backdrop before the first sleep ends commits nothing. */
  method DismissBeforeShift() returns (action: Option<string>, selected: Option<int>, state: OverlayState)
    ensures action == None && selected == None && state == Dismissed
  {
    var list, view := SelectRow(4);
    list.TapBackdrop();
    view.OnDisappear();
    view.ResumeTask();
    action, selected, state := list.messages[4].action, list.selectedId, view.State();
  }

  /**
   * Selecting message 1 (top at 50, so it shifts down), picking before the reveal does nothing;
   * after the second sleep the heart is committed to message 1 alone and the selection clears.
   */
  method PickAfterReveal() returns (earlyPick: bool, shifted: Point, action: Option<string>, others: seq<Option<string>>, selected: Option<int>)
    ensures !earlyPick
    ensures shifted == Point(160.0, 122.0)
    ensures action == Some(Heart) && selected == None
    ensures |others| == SeedCount - 1 && forall i :: 0 <= i < |others| ==> others[i] == None
  {
    var list, view := SelectRow(0);
    view.ResumeTask();
    earlyPick := view.PickReaction(Heart);
    view.ResumeTask();
    shifted := view.Position();
    var picked := view.PickReaction(Heart);
    view.OnDisappear();
    action, others, selected := list.messages[0].action, Actions(list.messages[1..]), list.selectedId;
  }

  /** A committed reaction survives selecting the same message again and dismissing it. */
  method ReselectKeepsReaction() returns (action: Option<string>, selected: Option<int>)
    ensures action == Some(Heart) && selected == None
  {
    var list, view := SelectRow(4);
    view.ResumeTask();
    view.ResumeTask();
    var picked := view.PickReaction(Heart);
    view.OnDisappear();
    var row := new MessageView(list.messages[4], list);
    row.Tap();
    var again := new MessageWithActionView(view.messageWithGeo, list);
    again.ResumeTask();
    again.ResumeTask();
    again.TapMessage();
    again.OnDisappear();
    action, selected := list.messages[4].action, list.selectedId;
  }

  /**
   * A row tap moves the selection straight from message 1 to message 2; the first copy's
   * task, resuming after it disappeared, changes neither copy.
   */
  method StaleTaskIgnored() returns (selected: Option<int>, first: OverlayState, second: OverlayState)
    ensures selected == Some(2) && first == Dismissed && second == Appeared
  {
    var list, view := SelectRow(0);
    var row := new MessageView(list.messages[1], list);
    row.Tap();
    view.OnDisappear();
    var frames := RowFrames(SeedCount);
    SelectedRowOverlay(list.messages, frames, 1);
    var shown := OverlayEntries(Collect(RowReports(list.messages, frames)), list.selectedId);
    var next := new MessageWithActionView(shown[0], list);
    view.ResumeTask();
    view.ResumeTask();
    selected, first, second := list.selectedId, view.State(), next.State();
  }
}
