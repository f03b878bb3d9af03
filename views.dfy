/**
 * The views' state and event handlers, stripped of rendering: the list owns the
 * selection and the messages; a row and the highlighted copy write the selection
 * through their binding; the highlighted copy owns the two reveal flags.
 */
module Views {
  import opened Optional
  import opened Geometry
  import opened Messages
  import opened Preferences
  import opened Overlay

  /** `MessageListView`: its `@State` selection and messages. */
  class MessageListView {
    var selectedId: Option<int>
    var messages: seq<MessageModel>

    /** Every message has its own id, so the selection names at most one of them. */
    ghost predicate Valid()
      reads this
    {
      UniqueIds(Ids(messages))
    }

    constructor ()
      ensures selectedId == None && messages == [] && Valid()
    {
      selectedId := None;
      messages := [];
    }

    /** The list's `.task`: seeds messages 1 to 100, with no reaction yet. */
    method Populate()
      modifies this`messages
      ensures Valid() && |messages| == SeedCount
      ensures forall i :: 0 <= i < |messages| ==>
                fresh(messages[i]) && messages[i].id == i + 1 &&
                messages[i].text == MessageText(i + 1) && messages[i].action == None
      ensures selectedId == old(selectedId)
    {
      messages := MakeMessages(SeedCount);
      SeededIdsUnique(messages);
    }

    /** A tap on the dimmed backdrop clears the selection and changes no message. */
    method TapBackdrop()
      modifies this`selectedId
      ensures selectedId == None
      ensures messages == old(messages) && Actions(messages) == old(Actions(messages))
    {
      selectedId := None;
    }
  }

  /** `MessageView`: one row, writing the list's selection through its binding. */
  class MessageView {
    const message: MessageModel
    const selection: MessageListView

    constructor (message: MessageModel, selection: MessageListView)
      ensures this.message == message && this.selection == selection
    {
      this.message := message;
      this.selection := selection;
    }

    /** A tap on the row selects its message, whatever was selected before. */
    method Tap()
      modifies selection`selectedId
      ensures selection.selectedId == Some(message.id)
      ensures selection.messages == old(selection.messages)
      ensures Actions(selection.messages) == old(Actions(selection.messages))
    {
      selection.selectedId := Some(message.id);
    }
  }

  /** `MessageWithActionView`: the highlighted copy of the selected message and its reaction bar. */
  class MessageWithActionView {
    const messageWithGeo: MessageGeometryData
    var frame: Rect
    const selection: MessageListView
    var overlayAnimating: bool
    var showActions: bool
    var task: TaskStage

    function State(): OverlayState
      reads this
    {
      OverlayState(overlayAnimating, showActions, task)
    }

    ghost predicate Valid()
      reads this
    {
      Consistent(State())
    }

    /** The view appears with both flags false and its `.task` started. */
    constructor (messageWithGeo: MessageGeometryData, selection: MessageListView)
      ensures this.messageWithGeo == messageWithGeo && frame == messageWithGeo.frame
      ensures this.selection == selection
      ensures State() == Appeared && Valid()
    {
      this.messageWithGeo := messageWithGeo;
      this.frame := messageWithGeo.frame;
      this.selection := selection;
      overlayAnimating := false;
      showActions := false;
      task := AwaitingShift;
    }

    /** The `.position` of the highlighted copy; once the buttons show, it has left its row's centre. */
    function Position(): (p: Point)
      reads this
      ensures p.x == MidX(frame)
      ensures Valid() && showActions ==> p.y != MidY(frame)
    {
      OverlayPosition(frame, overlayAnimating)
    }

    /** The reaction buttons on screen: all seven while `showActions` holds, none otherwise. */
    function ReactionButtons(): (buttons: seq<string>)
      reads this
      ensures buttons != [] <==> showActions
      ensures showActions ==> buttons == Reactions
      ensures forall e :: e in buttons ==> e in Reactions
    {
      if showActions then Reactions else []
    }

    /**
     * The list is laid out again while the copy is shown: the overlay closure resolves the
     * anchor anew and rebuilds the copy with the new frame. The copy keeps its identity, so
     * its flags and its running task stay as they were; its position follows the new frame.
     */
    method Relayout(f: Rect)
      requires Valid()
      modifies this`frame
      ensures frame == f && Valid() && State() == old(State())
      ensures Position() == OverlayPosition(f, overlayAnimating)
    {
      frame := f;
    }

    /** One sleep of the `.task` ends: the first sets `overlayAnimating`, the second `showActions`. */
    method ResumeTask()
      requires Valid()
      modifies this`overlayAnimating, this`showActions, this`task
      ensures Valid() && State() == Step(old(State()), Resume)
      ensures showActions ==> overlayAnimating
    {
      match task
      case AwaitingShift =>
        overlayAnimating := true;
        task := AwaitingReveal;
      case AwaitingReveal =>
        showActions := true;
        task := Finished;
      case Finished =>
    }

    /** `onDisappear` resets both flags; the `.task` is cancelled at the same time. */
    method OnDisappear()
      modifies this`overlayAnimating, this`showActions, this`task
      ensures Valid() && State() == Step(old(State()), Disappear)
      ensures !overlayAnimating && !showActions
    {
      overlayAnimating := false;
      showActions := false;
      task := Finished;
    }

    /** A tap on the highlighted copy clears the selection and changes no message. */
    method TapMessage()
      modifies selection`selectedId
      ensures selection.selectedId == None
      ensures selection.messages == old(selection.messages)
      ensures Actions(selection.messages) == old(Actions(selection.messages))
    {
      selection.selectedId := None;
    }

    /**
     * A tap on reaction `emoji`: writes it to the highlighted message object and clears the
     * selection. The buttons exist only while `showActions` holds; before that nothing happens.
     */
    method PickReaction(emoji: string) returns (picked: bool)
      requires emoji in Reactions
      modifies messageWithGeo.message`action, selection`selectedId
      ensures picked == showActions
      ensures picked ==> messageWithGeo.message.action == Some(emoji) && selection.selectedId == None
      ensures !picked ==> messageWithGeo.message.action == old(messageWithGeo.message.action) &&
                          selection.selectedId == old(selection.selectedId)
      ensures selection.messages == old(selection.messages)
      ensures forall m :: m in selection.messages && m != messageWithGeo.message ==> m.action == old(m.action)
      ensures picked && selection.Valid() && messageWithGeo.message in selection.messages ==>
                Actions(selection.messages) ==
                CommitReaction(old(Actions(selection.messages)), Ids(selection.messages), messageWithGeo.message.id, emoji)
    {
      ghost var before := Actions(selection.messages);
      picked := showActions;
      if picked {
        messageWithGeo.message.action := Some(emoji);
        selection.selectedId := None;
        var ms := selection.messages;
        if selection.Valid() && messageWithGeo.message in ms {
          var k :| 0 <= k < |ms| && ms[k] == messageWithGeo.message;
          CommitTouchesOnlyTarget(before, Ids(ms), k, emoji);
          forall i | 0 <= i < |ms| ensures Actions(ms)[i] == before[k := Some(emoji)][i] {
            if i != k {
              assert Ids(ms)[i] != Ids(ms)[k];
            }
          }
        }
      }
    }
  }
}
