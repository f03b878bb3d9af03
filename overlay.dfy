/**
 * The two-phase reveal of the highlighted message, as a state machine over the
 * flags of `MessageWithActionView` and the progress of its `.task`.
 * Each sleep ending is one `Resume`; the view leaving the hierarchy is one `Disappear`,
 * which runs `onDisappear` and cancels the task.
 */
module Overlay {

  /** Where the `.task` is suspended; `Finished` once it has run or has been cancelled. */
  datatype TaskStage = AwaitingShift | AwaitingReveal | Finished

  datatype OverlayState = OverlayState(overlayAnimating: bool, showActions: bool, task: TaskStage)

  datatype OverlayEvent = Resume | Disappear

  /** A freshly created view: both flags false, the task in its first sleep. */
  const Appeared: OverlayState := OverlayState(false, false, AwaitingShift)

  /** A view that has disappeared: both flags reset, nothing left to run. */
  const Dismissed: OverlayState := OverlayState(false, false, Finished)

  function Step(s: OverlayState, e: OverlayEvent): OverlayState
  {
    match e
    case Resume =>
      (match s.task
       case AwaitingShift => s.(overlayAnimating := true, task := AwaitingReveal)
       case AwaitingReveal => s.(showActions := true, task := Finished)
       case Finished => s)
    case Disappear => Dismissed
  }

  function Run(s: OverlayState, events: seq<OverlayEvent>): OverlayState
    decreases |events|
  {
    if events == [] then s else Run(Step(s, events[0]), events[1..])
  }

  /** The state after k sleeps have ended without the view disappearing. */
  function AfterResumes(k: nat): OverlayState
  {
    if k == 0 then Appeared
    else if k == 1 then OverlayState(true, false, AwaitingReveal)
    else OverlayState(true, true, Finished)
  }

  /** The states a view can be in: the reaction buttons only ever show on a shifted message. */
  predicate Consistent(s: OverlayState)
  {
    match s.task
    case AwaitingShift => !s.overlayAnimating && !s.showActions
    case AwaitingReveal => s.overlayAnimating && !s.showActions
    case Finished => s.showActions == s.overlayAnimating
  }

  /** Every event keeps a view consistent. */
  lemma StepKeepsConsistent(s: OverlayState, e: OverlayEvent)
    requires Consistent(s)
    ensures Consistent(Step(s, e))
    ensures Step(s, e).showActions ==> Step(s, e).overlayAnimating
  {
  }

  /** Nothing resurrects a dismissed view. */
  lemma {:induction false} DismissedIsFinal(events: seq<OverlayEvent>)
    ensures Run(Dismissed, events) == Dismissed
    decreases |events|
  {
    if events != [] {
      DismissedIsFinal(events[1..]);
    }
  }

  /**
   * From the moment of appearing: a view that has disappeared stays dismissed; otherwise
   * it has taken one step per resumption, shift first, reveal second.
   */
  lemma {:induction false} RunAfterResumes(k: nat, events: seq<OverlayEvent>)
    ensures Run(AfterResumes(k), events) ==
              if Disappear in events then Dismissed else AfterResumes(k + |events|)
    decreases |events|
  {
    if events != [] {
      if events[0] == Disappear {
        DismissedIsFinal(events[1..]);
      } else {
        assert Step(AfterResumes(k), Resume) == AfterResumes(k + 1);
        assert Disappear in events <==> Disappear in events[1..];
        RunAfterResumes(k + 1, events[1..]);
      }
    }
  }

  /**
   * The reveal happens exactly after both sleeps, and the shift exactly after the first,
   * unless the view disappeared; so the buttons never show before the shift.
   */
  lemma RevealOrder(events: seq<OverlayEvent>)
    ensures Run(Appeared, events).overlayAnimating <==> Disappear !in events && |events| >= 1
    ensures Run(Appeared, events).showActions <==> Disappear !in events && |events| >= 2
    ensures Run(Appeared, events).showActions ==> Run(Appeared, events).overlayAnimating
    ensures Consistent(Run(Appeared, events))
  {
    RunAfterResumes(0, events);
  }

  /** A sequence cancelled by disappearing never reaches the reveal and ends with both flags reset. */
  lemma CancelledNeverReveals(before: seq<OverlayEvent>, after: seq<OverlayEvent>)
    ensures Run(Appeared, before + [Disappear] + after) == Dismissed
    ensures !Run(Appeared, before + [Disappear] + after).showActions
  {
    var events := before + [Disappear] + after;
    assert events[|before|] == Disappear;
    RunAfterResumes(0, events);
  }
}
