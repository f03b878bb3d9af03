# Chat message reactions: selection and overlay model

A Dafny model of the interaction logic of a SwiftUI chat list (`ContentView.swift`):
a list of 100 seeded messages; tapping a message selects it; the selected message is
redrawn as a highlighted copy over a dimmed backdrop, shifted 50 points down when its
top is above y = 100 and 50 points up otherwise and, in a second step, topped with a bar of seven reactions; picking a
reaction writes it to the message and clears the selection; tapping the backdrop or the
highlighted copy clears the selection without writing anything.

Modules, one per concern of the source file:

- `Optional`: Swift's `Optional`.
- `Geometry`: the resolved frame (`CGRect` with `real` coordinates), `minY`/`midX`/`midY`,
  `shouldMoveDown` and the `.position` expression of the highlighted copy.
- `Messages`: the `MessageModel` class (its `action` is updated in place), seeding of
  messages 1 to 100 with the text "Message n", the seven reactions, and `CommitReaction`,
  the effect of a pick on the reactions of the whole store, keyed by id.
- `Preferences`: `MessageGeometryData`, the preference value with its in-place `reduce`,
  the value collected from every row's report, and the filter that decides for which
  collected entries the overlay draws a highlighted copy.
- `Overlay`: the two-phase reveal as a state machine over `overlayAnimating`,
  `showActions` and the progress of the `.task` (`Resume` = one sleep ends,
  `Disappear` = `onDisappear` plus cancellation of the task).
- `Views`: the classes `MessageListView` (selection and messages), `MessageView` (a row)
  and `MessageWithActionView` (the highlighted copy); one method per event, each proved
  against the specification functions above.
- `Scenarios`: whole interactions (select then dismiss, pick after reveal, re-select,
  stale task) replayed from the views' contracts.

The `@Binding var selectedId` of a row and of the highlighted copy is modelled as a
reference to the owning `MessageListView`, whose `selectedId` field the methods modify.
The frame a row reports through its anchor is taken as already resolved in the list's
coordinate space. The highlighted copy's frame is resolved again on every layout pass;
`Views.MessageWithActionView.Relayout` gives it the new frame while its flags and task
carry on, so a re-layout during the reveal can move the copy and flip its shift direction.

Behaviour of the code worth noting:

- `reduce` appends every batch (`value += nextValue()`); it keeps no latest-per-id map.
  `Preferences.DuplicateReportsAreKept` shows that an id reported twice is collected twice
  and kept twice by the overlay filter. With one report per row and unique ids the overlay draws exactly one
  copy (`Preferences.SelectedRowOverlay`).
- A row tap assigns the selection unconditionally, so it can move straight from one id to
  another (`Scenarios.StaleTaskIgnored`). In the running app the backdrop covers the list
  while a message is selected, which keeps such a tap from reaching a row.
- A pick writes to the `MessageModel` object held by the geometry entry, not to a message
  looked up by id. `Views.MessageWithActionView.PickReaction` states the object-level
  effect and, for a store with unique ids that holds that object, its equality with the
  id-keyed `Messages.CommitReaction`.
- When the selected message has no collected frame, no highlighted copy is drawn at all
  (`Preferences.UnknownIdNoOverlay`); there is no fallback placement.
- The phase is two booleans, not a three-valued enum; `Overlay.Consistent` lists the
  combinations that can occur.

## Model

| member | source | states |
|---|---|---|
| `Geometry.MinY` | swiftui-chat-message-action/ContentView.swift:119-121 | `minY` is the upper edge of the frame whether its height is positive or negative |
| `Geometry.MidX` | swiftui-chat-message-action/ContentView.swift:142-143 | `midX` is equally far from both vertical edges |
| `Geometry.MidY` | swiftui-chat-message-action/ContentView.swift:142-144 | `midY` is equally far from both horizontal edges and never above `minY` |
| `Geometry.ShouldMoveDown` | swiftui-chat-message-action/ContentView.swift:119-121 | the copy moves down exactly when an edge of the frame lies above y = 100 |
| `Geometry.Displacement` | swiftui-chat-message-action/ContentView.swift:144 | the vertical shift is one of 0, 50, -50; it is 0 exactly when not animating; when animating it is downward exactly when `minY < 100` |
| `Geometry.OverlayPlacement` | swiftui-chat-message-action/ContentView.swift:142-145 | x is always `midX`; y is `midY` before the shift, `midY + 50` after it when `minY < 100`, `midY - 50` otherwise |
| `Geometry.ShiftDirection` | swiftui-chat-message-action/ContentView.swift:119-121 | the shift never moves the copy sideways, and moves it down exactly when `shouldMoveDown`, up exactly otherwise |
| `Geometry.ReactionBarPlacement` | swiftui-chat-message-action/ContentView.swift:135-145 | the reaction bar is centred on `midX`, above the shifted copy: 10 above `midY` after a downward shift, 110 above after an upward one |
| `Geometry.ThresholdExamples` | swiftui-chat-message-action/ContentView.swift:119-121 | a frame with top 50 moves down, one with top 200 moves up, a flipped frame is judged by its upper edge |
| `Messages.MessageModel.constructor` | swiftui-chat-message-action/ContentView.swift:9-13 | a message is created with the given id, text and action |
| `Messages.ReactionsFixed` | swiftui-chat-message-action/ContentView.swift:165 | there are seven distinct reactions, the heart first |
| `Messages.Decimal` | swiftui-chat-message-action/ContentView.swift:69 | the interpolated number is a non-empty string of decimal digits without a leading zero |
| `Messages.DecimalRoundTrip` | swiftui-chat-message-action/ContentView.swift:69 | reading the interpolated digits back gives the number |
| `Messages.MessageTextNamesId` | swiftui-chat-message-action/ContentView.swift:69 | a seeded text is "Message " followed by digits that read back as the id, so distinct ids have distinct texts |
| `Messages.MakeMessages` | swiftui-chat-message-action/ContentView.swift:68-70 | n new messages with ids 1 to n in order, text "Message i", no action |
| `Messages.SeededIdsUnique` | swiftui-chat-message-action/ContentView.swift:67-71 | messages numbered 1 to n have unique ids, exactly the numbers 1 to n |
| `Messages.CommitReaction` | swiftui-chat-message-action/ContentView.swift:166-170 | committing keeps the number of messages |
| `Messages.CommitAt` | swiftui-chat-message-action/ContentView.swift:168 | after a commit, a message with the target id holds the reaction and every other message keeps its own |
| `Messages.CommitTouchesOnlyTarget` | swiftui-chat-message-action/ContentView.swift:166-170 | with unique ids, a commit for the message at position k changes position k alone |
| `Messages.CommitUnknownIdIsNoOp` | swiftui-chat-message-action/ContentView.swift:168 | a commit for an id that no message has changes nothing |
| `Messages.CommitKeepsReactions` | swiftui-chat-message-action/ContentView.swift:168 | a reaction once set is never cleared by a later commit |
| `Preferences.PreferenceValue.constructor` | swiftui-chat-message-action/ContentView.swift:22 | the preference value starts empty |
| `Preferences.PreferenceValue.Reduce` | swiftui-chat-message-action/ContentView.swift:24-26 | reduce appends the next batch in place: lengths add and the old value stays a prefix |
| `Preferences.ReduceAll` | swiftui-chat-message-action/ContentView.swift:21-26 | reducing `defaultValue` with each batch in turn builds exactly the collected value that the `Collect` lemmas describe |
| `Preferences.CollectLength` | swiftui-chat-message-action/ContentView.swift:24-26 | the collected length is the sum of the batch lengths: nothing is merged or dropped |
| `Preferences.CollectKeepsPrefix` | swiftui-chat-message-action/ContentView.swift:24-26 | what the first k batches gave stays a prefix of the whole, so arrival order is kept |
| `Preferences.CollectMembers` | swiftui-chat-message-action/ContentView.swift:24-26 | an entry is collected exactly when some batch reported it |
| `Preferences.RowReports` | swiftui-chat-message-action/ContentView.swift:101-103 | the rows publish one batch each |
| `Preferences.CollectRowReports` | swiftui-chat-message-action/ContentView.swift:101-103 | collecting one report per row gives every row once, with its frame, in list order |
| `Preferences.OverlayEntries` | swiftui-chat-message-action/ContentView.swift:42-43 | the overlay draws a copy for exactly the collected entries of the selected id, none when nothing is selected or nothing matches |
| `Preferences.OverlayEmptyExactly` | swiftui-chat-message-action/ContentView.swift:42-43 | no copy is drawn exactly when no collected entry has the selected id |
| `Preferences.OverlayEntriesAppend` | swiftui-chat-message-action/ContentView.swift:42-43 | the entries drawn for a concatenation are those of each part, in order |
| `Preferences.DuplicateReportsAreKept` | swiftui-chat-message-action/ContentView.swift:24-26 | a message reported in two batches is collected twice and kept twice by the overlay filter |
| `Preferences.OverlayOfSoleMatch` | swiftui-chat-message-action/ContentView.swift:42-43 | when a single collected entry has the selected id, exactly that entry is drawn |
| `Preferences.SelectedRowOverlay` | swiftui-chat-message-action/ContentView.swift:40-44 | with unique ids, selecting a row's message draws exactly one copy, at that row's frame |
| `Preferences.UnknownIdNoOverlay` | swiftui-chat-message-action/ContentView.swift:42-43 | an id with no collected frame draws no copy |
| `Overlay.StepKeepsConsistent` | swiftui-chat-message-action/ContentView.swift:146-160 | every task step and every disappearance keeps the flags consistent, so `showActions` implies `overlayAnimating` |
| `Overlay.DismissedIsFinal` | swiftui-chat-message-action/ContentView.swift:157-160 | once disappeared, no later step sets a flag again |
| `Overlay.RunAfterResumes` | swiftui-chat-message-action/ContentView.swift:146-160 | after any events the view is dismissed if it disappeared, otherwise it is at the state of one step per ended sleep |
| `Overlay.RevealOrder` | swiftui-chat-message-action/ContentView.swift:146-155 | `overlayAnimating` holds exactly after the first sleep, `showActions` exactly after the second, neither after a disappearance |
| `Overlay.CancelledNeverReveals` | swiftui-chat-message-action/ContentView.swift:157-160 | a disappearance at any point leaves both flags false for good |
| `Views.MessageListView.constructor` | swiftui-chat-message-action/ContentView.swift:30-32 | the list starts with no selection and no messages |
| `Views.MessageListView.Populate` | swiftui-chat-message-action/ContentView.swift:67-71 | the list holds 100 new messages numbered 1 to 100 with unique ids and no action; the selection is untouched |
| `Views.MessageListView.TapBackdrop` | swiftui-chat-message-action/ContentView.swift:50-53 | a backdrop tap clears the selection and changes no message or action |
| `Views.MessageView.constructor` | swiftui-chat-message-action/ContentView.swift:75-78 | a row holds its message and the list's selection |
| `Views.MessageView.Tap` | swiftui-chat-message-action/ContentView.swift:88-90 | a row tap selects that row's id whatever was selected before, and changes no action |
| `Views.MessageWithActionView.constructor` | swiftui-chat-message-action/ContentView.swift:110-117 | the copy starts at its entry's frame with both flags false and its task at the first sleep |
| `Views.MessageWithActionView.Position` | swiftui-chat-message-action/ContentView.swift:142-145 | the copy is centred on `midX`, and once the buttons show it is off its row's centre |
| `Views.MessageWithActionView.ReactionButtons` | swiftui-chat-message-action/ContentView.swift:136-137 | buttons exist exactly while `showActions` holds, and then they are the seven reactions in order |
| `Views.MessageWithActionView.Relayout` | swiftui-chat-message-action/ContentView.swift:41-44 | a re-layout gives the copy the newly resolved frame, keeps its flags and task, and moves its position to the new frame |
| `Views.MessageWithActionView.ResumeTask` | swiftui-chat-message-action/ContentView.swift:146-155 | an ended sleep performs the task's next step and keeps `showActions` implying `overlayAnimating` |
| `Views.MessageWithActionView.OnDisappear` | swiftui-chat-message-action/ContentView.swift:157-160 | disappearing resets both flags and ends the task |
| `Views.MessageWithActionView.TapMessage` | swiftui-chat-message-action/ContentView.swift:130-133 | a tap on the copy clears the selection and changes no message or action |
| `Views.MessageWithActionView.PickReaction` | swiftui-chat-message-action/ContentView.swift:165-170 | while the buttons show, a pick sets the reaction on the highlighted message only and clears the selection; with unique ids this is the id-keyed commit; before the reveal nothing changes |
| `Scenarios.SelectRow` | swiftui-chat-message-action/ContentView.swift:40-61 | after seeding, layout and a row tap, the copy created from the collected entry is that row's message at that row's frame, just appeared |
| `Scenarios.DismissBeforeShift` | swiftui-chat-message-action/ContentView.swift:50-53 | a backdrop tap before the first sleep ends leaves no action, no selection and both flags false, even if the task resumes |
| `Scenarios.PickAfterReveal` | swiftui-chat-message-action/ContentView.swift:142-170 | a pick after the first sleep only does nothing; after the second the copy of the top row sits 50 lower, the heart lands on message 1 alone and the selection clears |
| `Scenarios.ReselectKeepsReaction` | swiftui-chat-message-action/ContentView.swift:130-133 | selecting a message again and dismissing it keeps its committed reaction |
| `Scenarios.StaleTaskIgnored` | swiftui-chat-message-action/ContentView.swift:88-90 | a row tap moves the selection straight to another id, and the old copy's task resuming changes neither copy |

## Left out

- Rendering: list layout, colours, blur, padding, corner radii, `matchedGeometryEffect`, `contentShape`, the preview.
- Anchor resolution (`proxy[anchor]`): every frame is taken as already resolved in the list's coordinate space.
- Timing and animation curves: the 100 ms and 400 ms sleeps and the ease-in/ease-out and scale/opacity transitions; each sleep ending is one discrete `Resume` step.
- Task cancellation: `try?` swallows the cancellation error, so a cancelled task still performs its writes, but on the state of a view that has left the hierarchy; the model ends the task on disappearance, so those writes are not modelled.
- Floating point: `CGFloat` arithmetic is modelled with exact `real` numbers.
- Reactivity plumbing (`@Observable`, `@State`, `@Binding`, `withAnimation`): state is plain fields, a binding a reference to the list that owns the state.
- Framework reconciliation: creating the highlighted copy when an entry of the selected id appears and calling its disappearance when it goes are done by the callers (the scenario methods), not by a modelled renderer.
- `ForEach` over entries with a repeated id is left undefined by the framework; the model only shows that such entries are all kept and drawn.
- Lazy list rows: which rows report a frame is an input of the model.
- Messages.Decimal: models the interpolation of non-negative integers only (no minus sign); the seeded ids are 1 to 100.
