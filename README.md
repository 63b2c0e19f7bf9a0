# Palladium core, modelled in Dafny

Palladium is a Windows desktop launcher built with Avalonia and ReactiveUI. Its actions open in tabs, can replace the Windows+S search shortcut, and keep their settings in an XML file. An Azure DevOps extension draws a roadmap of iterations and work items. This project models the sequential logic at the heart of these features and proves what it promises.

- **Roadmap grid** (`RoadmapOrder`, `RoadmapGridAlgorithms`, `RoadmapEntries`)
  - Each iteration is split into a start and an end event, and the events are sorted by date, then starts before ends, then level, then name.
  - A first sweep counts the overlaps per hierarchy level.
  - Each level gets a band of rows, as high as its largest overlap. As written, the grid itself gets only one row per level; a corrected version gets one row per band row (see Findings).
  - A second sweep gives every iteration a column span (the ranks of its dates among the distinct dates) and a row in its level's band.
  - Dates are whole days, so column widths are integer day gaps.
- **Azure DevOps queries** (`AzureQueries`)
  - the automatic choice of work item types;
  - the WIQL query text;
  - cutting the work item IDs into batches of 200;
  - turning dated iterations into columns;
  - matching a work item to the column with the longest matching iteration path.
- **Keyboard shortcut recognisers** (`BuiltinKeyboard`, `BuiltinActionsKeyboard`)
  - Two state machines decide for each low-level keyboard event whether it propagates, and whether the shortcut's callback is scheduled.
  - The first works over modifier groups and decides before it updates its state.
  - The second works over two flags.
- **Reactive helpers** (`Rx`, `ReplayFirstValues`, `ObservableExtensions`)
  - a subject that replays its first values to late subscribers, over a fixed array;
  - `PairWithPrevious`;
  - `BufferWithToggle`, a gate that queues values while locked.
  - An observer is the sequence of notifications it has received.
- **Mini log control** (`MiniLog`)
  - Inlines arrive through the gate once the control's template is applied.
  - Trailing smart line breaks are held back until a real inline follows.
  - It also covers the lazily created `Inlines` collection and rebinding the text stream.
- **Lifecycle activator** (`Lifecycle`): blocks registered with `WhenAttached` run once on attach, and everything they hand to `WhenDetached` is disposed on detach.
- **Tabs** (`Tabs`, `LegacyTabs`): single-instance and multi-instance tabs for started actions, in the current GUID-keyed service and in the older delegate-keyed one.
- **Settings** (`SettingsDocument`, `Settings`, `LegacySettings`, `XExtensions`)
  - the registry of settings serializers;
  - writing the settings file: recognised entries are dropped, one entry per registered GUID is appended, and an unreadable file is backed up; an existing file that cannot be opened for reading makes the write fail at once. As written, the lazily enumerated removal drops only the first recognised entry; a corrected version drops them all (see Findings);
  - reading a GUID's entry back, with its bounded open retry;
  - the write command's `canExecute` value turning false after a failure, while `Execute()` still runs the write.
  - Both the current and the older settings services are modelled.

Objects whose fields the program updates in place are classes here. Each method's `ensures` ties its new state to a function of the old state, and the lemmas beside those functions state the properties. File access, the XML serializer, `Guid.TryParse` and the keyboard hook are parameters of the model.

## Model

| member | source | states |
|---|---|---|
| AzureQueries.Occurrences | AppExtensions/AzureDevOpsTools/AzureQueries.cs:37-46 | the count of work item types with a name is at most the number of types, and positive exactly when the name occurs |
| AzureQueries.GetAutomaticRoadmapTypes | AppExtensions/AzureDevOpsTools/AzureQueries.cs:29-52 | "User Story" is chosen iff exactly one type has that name; "Product Backlog Item" iff no unique User Story and exactly one PBI; "Bug" iff exactly one Bug, and then last; at most two types, no repetition, each one of these three names and present in the process |
| AzureQueries.QuoteAll | AppExtensions/AzureDevOpsTools/AzureQueries.cs:133-136 | every value is wrapped in single quotes, position by position |
| AzureQueries.Flatten | AppExtensions/AzureDevOpsTools/AzureQueries.cs:131-132 | `SelectMany` yields exactly the values found in some team's area list |
| AzureQueries.FlattenAppend | AppExtensions/AzureDevOpsTools/AzureQueries.cs:131-132 | flattening keeps the order of the teams' lists |
| AzureQueries.Distinct | AppExtensions/AzureDevOpsTools/AzureQueries.cs:134 | `Distinct` keeps the same set of values, each once, and is no longer than its input |
| AzureQueries.DistinctOfDistinct | AppExtensions/AzureDevOpsTools/AzureQueries.cs:134 | a list without repetitions is left unchanged |
| AzureQueries.DistinctIdempotent | AppExtensions/AzureDevOpsTools/AzureQueries.cs:134 | removing repetitions twice is removing them once |
| AzureQueries.DistinctQuoted | AppExtensions/AzureDevOpsTools/AzureQueries.cs:133-134 | quoting the areas before `Distinct` gives the quoted distinct areas |
| AzureQueries.QuotedListRoundTrip | AppExtensions/AzureDevOpsTools/AzureQueries.cs:139-140 | a list joined with ", " after quoting is read back unchanged when no value holds a quote |
| AzureQueries.QueryListsTypesAndAreas | AppExtensions/AzureDevOpsTools/AzureQueries.cs:131-140 | the WIQL query lists exactly the requested types and each distinct area of every team, in order |
| AzureQueries.WiqlQuery | AppExtensions/AzureDevOpsTools/AzureQueries.cs:131-140 | the query text starts with the fixed SELECT ... IN ( head and ends with the fixed closing text |
| AzureQueries.BatchIds | AppExtensions/AzureDevOpsTools/AzureQueries.cs:144-152 | the IDs are cut into consecutive batches whose concatenation is the ID list, every batch non-empty and at most 200, all but the last full, ceil(n/200) of them |
| AzureQueries.CalculateColumns | AppExtensions/AzureDevOpsTools/AzureQueries.cs:194-206 | the columns are exactly the iterations with both dates set, converted |
| AzureQueries.CalculateColumnsAppend | AppExtensions/AzureDevOpsTools/AzureQueries.cs:194-206 | the columns keep the order of the iterations |
| AzureQueries.CalculateColumnsAllDated | AppExtensions/AzureDevOpsTools/AzureQueries.cs:194-206 | when every iteration is dated, column i is iteration i |
| AzureQueries.BestCandidateUnique | AppExtensions/AzureDevOpsTools/AzureQueries.cs:183-189 | at most one column is the longest-prefix candidate |
| AzureQueries.FindColumnForWorkItem | AppExtensions/AzureDevOpsTools/AzureQueries.cs:174-192 | fails (`First` on an empty list) iff there are no columns; no iteration path or no prefix column gives the first column; otherwise the column whose path is the longest prefix of the item's path, the earliest of equally long ones |
| BuiltinKeyboard.ModifierGroup | AppSource/Palladium.Builtin/SearchOverride/WindowsKeyboard.cs:264-285 | a key code has a group bit exactly when it is one of the eight modifier keys, and the bit is one of the four groups |
| BuiltinKeyboard.LeftAndRightShareGroup | AppSource/Palladium.Builtin/SearchOverride/WindowsKeyboard.cs:264-285 | the left and right key of each pair map to the same group: Windows, Shift, Control, Alt |
| BuiltinKeyboard.IsSingleModifierPressed | AppSource/Palladium.Builtin/SearchOverride/WindowsKeyboard.cs:243-262 | true exactly when the code is a modifier key and the modifiers down are exactly its group |
| BuiltinKeyboard.DecideAction | AppSource/Palladium.Builtin/SearchOverride/WindowsKeyboard.cs:147-193 | the callback is scheduled iff the key goes down, is not held, and only the modifier's group is down; an event is blocked iff it is a key-down of the modifier while only its group is down, or of the key while held or while only that group is down; a reserved key press is simulated iff the modifier goes up while the key is held, and that event propagates; other codes always propagate |
| BuiltinKeyboard.Updated | AppSource/Palladium.Builtin/SearchOverride/WindowsKeyboard.cs:118-145 | the key becomes held only on its own key-down while exactly the modifier's group is down |
| BuiltinKeyboard.UpdatedFrame | AppSource/Palladium.Builtin/SearchOverride/WindowsKeyboard.cs:118-145 | events of the key never change the modifiers; other events change only their own group bit and never the key flag |
| BuiltinKeyboard.HeldUntilKeyUp | AppSource/Palladium.Builtin/SearchOverride/WindowsKeyboard.cs:118-145 | once held, the key stays held until its own key-up |
| BuiltinKeyboard.FiringHoldsKey | AppSource/Palladium.Builtin/SearchOverride/WindowsKeyboard.cs:111-128 | the event that schedules the callback leaves the key held |
| BuiltinKeyboard.NoRefireWhileHeld | AppSource/Palladium.Builtin/SearchOverride/WindowsKeyboard.cs:159-165 | while the key is held, no run of events without its key-up schedules another callback |
| BuiltinKeyboard.UnknownModifierNeverFires | AppSource/Palladium.Builtin/SearchOverride/WindowsKeyboard.cs:243-262 | a shortcut whose modifier is not a modifier key never fires |
| BuiltinKeyboard.OtherCodesPropagate | AppSource/Palladium.Builtin/SearchOverride/WindowsKeyboard.cs:191-192 | events of other codes all propagate and schedule nothing |
| BuiltinKeyboard.WindowsSScenario | AppSource/Palladium.Builtin/SearchOverride/WindowsKeyboard.cs:111-193 | Win, S, S held, S up, S, Win up: two callbacks, the decisions block the S presses and simulate a key press on the Win release |
| BuiltinKeyboard.WindowsKeyboard.constructor | AppSource/Palladium.Builtin/SearchOverride/WindowsKeyboard.cs:237-241 | no key held, no modifier down, nothing scheduled |
| BuiltinKeyboard.WindowsKeyboard.SetModifierPressed | AppSource/Palladium.Builtin/SearchOverride/WindowsKeyboard.cs:264-285 | the code's group bit is set; nothing else changes |
| BuiltinKeyboard.WindowsKeyboard.SetModifierUnpressed | AppSource/Palladium.Builtin/SearchOverride/WindowsKeyboard.cs:287-308 | the code's group bit is cleared; nothing else changes |
| BuiltinKeyboard.WindowsKeyboard.UpdateState | AppSource/Palladium.Builtin/SearchOverride/WindowsKeyboard.cs:118-145 | the new state is the event folded into the old one |
| BuiltinKeyboard.WindowsKeyboard.ProcessKey | AppSource/Palladium.Builtin/SearchOverride/WindowsKeyboard.cs:111-116 | the decision is taken on the state before the event, the callback counter grows by one iff scheduled, then the state is updated |
| BuiltinKeyboard.WindowsKeyboard.UnsetHook | AppSource/Palladium.Builtin/SearchOverride/WindowsKeyboard.cs:204-212 | removing the hook resets the key and modifier state |
| BuiltinActionsKeyboard.UnrelatedCodesPropagate | AppSource/Palladium.BuiltinActions/SearchOverride/WindowsKeyboard.cs:81-133 | codes other than the key and the modifier propagate and change no flag |
| BuiltinActionsKeyboard.Step | AppSource/Palladium.BuiltinActions/SearchOverride/WindowsKeyboard.cs:81-133 | only a key-down is ever blocked, and an event that marks the key held schedules the callback |
| BuiltinActionsKeyboard.ScheduleExactly | AppSource/Palladium.BuiltinActions/SearchOverride/WindowsKeyboard.cs:97-110 | the callback is scheduled iff the key (distinct from the modifier) goes down while the modifier is held and the key is not; that event is blocked and marks the key held |
| BuiltinActionsKeyboard.RepeatsBlocked | AppSource/Palladium.BuiltinActions/SearchOverride/WindowsKeyboard.cs:87-103 | repeated key-downs of the held modifier or the held key are blocked and change nothing |
| BuiltinActionsKeyboard.KeyWithoutModifier | AppSource/Palladium.BuiltinActions/SearchOverride/WindowsKeyboard.cs:97-111 | the key pressed without the modifier propagates and is not marked held |
| BuiltinActionsKeyboard.KeyUpsPropagate | AppSource/Palladium.BuiltinActions/SearchOverride/WindowsKeyboard.cs:113-132 | every key-up propagates and clears its code's flag, the key's before the modifier's |
| BuiltinActionsKeyboard.Results | AppSource/Palladium.BuiltinActions/SearchOverride/WindowsKeyboard.cs:81-133 | one propagate-or-block answer per event |
| BuiltinActionsKeyboard.NoRefireWhileHeld | AppSource/Palladium.BuiltinActions/SearchOverride/WindowsKeyboard.cs:99-103 | while the key is held nothing fires again before its key-up, and it stays held |
| BuiltinActionsKeyboard.KeyAsModifierNeverFires | AppSource/Palladium.BuiltinActions/SearchOverride/WindowsKeyboard.cs:87-97 | a shortcut whose key is its own modifier never fires; once the modifier is held it stays held and its key-downs are blocked |
| BuiltinActionsKeyboard.HoldReleaseAndPressAgain | AppSource/Palladium.BuiltinActions/SearchOverride/WindowsKeyboard.cs:81-133 | modifier, key, both repeated, key up, key again, key up: two callbacks with the answers true, false, false, false, true, false, true |
| BuiltinActionsKeyboard.WindowsKeyboard.constructor | AppSource/Palladium.BuiltinActions/SearchOverride/WindowsKeyboard.cs:154-161 | both flags clear, nothing scheduled |
| BuiltinActionsKeyboard.WindowsKeyboard.ProcessKeyBlocking | AppSource/Palladium.BuiltinActions/SearchOverride/WindowsKeyboard.cs:81-133 | answers and updates the flags as `Step` says, counting one callback per scheduling |
| BuiltinActionsKeyboard.WindowsKeyboard.UnsetHook | AppSource/Palladium.BuiltinActions/SearchOverride/WindowsKeyboard.cs:144-152 | removing the hook clears both flags |
| ReplayFirstValues.ReplayFirstValuesSubject.constructor | AppSource/Palladium.ExtensionFunctions/ReplayFirstValuesSubject.cs:11-21 | a live subject with an empty buffer of `repeatCount` slots and no observer |
| ReplayFirstValues.ReplayFirstValuesSubject.SubjectNotify | AppSource/Palladium.ExtensionFunctions/ReplayFirstValuesSubject.cs:13-49 | the inner subject forwards a notification to every observer until it has stopped, and remembers its first stop |
| ReplayFirstValues.ReplayFirstValuesSubject.OnCompleted | AppSource/Palladium.ExtensionFunctions/ReplayFirstValuesSubject.cs:24-28 | the subject is terminated, the buffer is kept, and observers get `OnCompleted` unless it had already stopped |
| ReplayFirstValues.ReplayFirstValuesSubject.OnError | AppSource/Palladium.ExtensionFunctions/ReplayFirstValuesSubject.cs:31-35 | the subject is terminated, the buffer is kept, and observers get the error unless it had already stopped |
| ReplayFirstValues.ReplayFirstValuesSubject.OnNext | AppSource/Palladium.ExtensionFunctions/ReplayFirstValuesSubject.cs:38-50 | a value pushed while live is buffered exactly when the buffer has room, and forwarded to every current observer |
| ReplayFirstValues.ReplayFirstValuesSubject.Subscribe | AppSource/Palladium.ExtensionFunctions/ReplayFirstValuesSubject.cs:53-60 | a new observer first receives the buffered values in order, then the stop if the subject has stopped; earlier observers are unaffected |
| ReplayFirstValues.BufferIsFirstValues | AppSource/Palladium.ExtensionFunctions/ReplayFirstValuesSubject.cs:43-48 | the buffer holds at most `repeatCount` values and is exactly the first values pushed before termination |
| ReplayFirstValues.EarlyAndLateSubscribers | AppSource/Palladium.ExtensionFunctions/ReplayFirstValuesSubject.cs:38-60 | an observer subscribed before the first push and one subscribed after it both receive that value once |
| ReplayFirstValues.SubscriberAfterCompletion | AppSource/Palladium.ExtensionFunctions/ReplayFirstValuesSubject.cs:24-60 | an observer arriving after completion receives the first value and then the completion; a value sent after completion is ignored |
| ReplayFirstValues.SubscriberAfterError | AppSource/Palladium.ExtensionFunctions/ReplayFirstValuesSubject.cs:24-60 | an observer arriving after an error receives the first value and then the error |
| ObservableExtensions.Scan | AppSource/Palladium.ExtensionFunctions/ObservableExtensions.cs:13-15 | `Scan` emits one accumulation per input |
| ObservableExtensions.PairWithPreviousPairs | AppSource/Palladium.ExtensionFunctions/ObservableExtensions.cs:11-16 | one pair per input: the first pairs the default with the first input, every later pair carries the input before it |
| ObservableExtensions.FlushAppend | AppSource/Palladium.ExtensionFunctions/ObservableExtensions.cs:97-108 | releasing a queue releases its items one after another |
| ObservableExtensions.Released | AppSource/Palladium.ExtensionFunctions/ObservableExtensions.cs:99-107 | a released item always ends with its value, preceded by its completion or error exactly when it holds one |
| ObservableExtensions.Flush | AppSource/Palladium.ExtensionFunctions/ObservableExtensions.cs:97-108 | a released queue sends at least one and at most two notifications per item |
| ObservableExtensions.Feed | AppSource/Palladium.ExtensionFunctions/ObservableExtensions.cs:28-122 | one input only appends to what was sent, a toggle sets the lock state and other inputs keep it, and an unlocked gate keeps an empty queue |
| ObservableExtensions.QueuedValues | AppSource/Palladium.ExtensionFunctions/ObservableExtensions.cs:25-36 | the values of the queued items, in arrival order |
| ObservableExtensions.FlushOfValues | AppSource/Palladium.ExtensionFunctions/ObservableExtensions.cs:97-108 | a queue of plain values is released as exactly those values, in arrival order |
| ObservableExtensions.ReleasedStopQuirk | AppSource/Palladium.ExtensionFunctions/ObservableExtensions.cs:99-107 | a queued completion is released as the completion followed by the default value, a queued error as the error followed by the default value |
| ObservableExtensions.OpenGateIsEmpty | AppSource/Palladium.ExtensionFunctions/ObservableExtensions.cs:95-111 | while the gate is unlocked its queue is empty |
| ObservableExtensions.FeedKeepsOrder | AppSource/Palladium.ExtensionFunctions/ObservableExtensions.cs:28-122 | without stops, one input keeps "sent, then queued" equal to the source values so far |
| ObservableExtensions.NothingLostOrReordered | AppSource/Palladium.ExtensionFunctions/ObservableExtensions.cs:28-122 | without completions or errors the gate loses, duplicates and reorders nothing: what it has sent followed by what it holds is what the source sent |
| ObservableExtensions.RelockScenario | AppSource/Palladium.ExtensionFunctions/ObservableExtensions.cs:93-116 | for any two values: the first queued, unlock, lock, the second queued: only the first is sent; the next unlock sends the second after it |
| ObservableExtensions.BufferWithToggle.constructor | AppSource/Palladium.ExtensionFunctions/ObservableExtensions.cs:24-25 | a new subscription starts locked with an empty queue and nothing sent |
| ObservableExtensions.BufferWithToggle.OnNext | AppSource/Palladium.ExtensionFunctions/ObservableExtensions.cs:29-47 | locked, the value is queued and nothing is sent; unlocked, it is sent straight through |
| ObservableExtensions.BufferWithToggle.OnError | AppSource/Palladium.ExtensionFunctions/ObservableExtensions.cs:48-66 | locked, the error is queued with the default value; unlocked, it is sent |
| ObservableExtensions.BufferWithToggle.OnCompleted | AppSource/Palladium.ExtensionFunctions/ObservableExtensions.cs:67-85 | locked, the completion is queued with the default value; unlocked, it is sent |
| ObservableExtensions.BufferWithToggle.Toggle | AppSource/Palladium.ExtensionFunctions/ObservableExtensions.cs:88-122 | a toggle to the current state changes nothing; unlocking releases the queue in order, empties it and opens the gate; locking closes it and keeps sending nothing |
| MiniLog.ShownLengthUpTo | AppSource/Palladium.Controls/MiniLog.axaml.cs:126-143 | the number of the first j inlines that reach the text block is at most j |
| MiniLog.TrailingSplit | AppSource/Palladium.Controls/MiniLog.axaml.cs:126-143 | the stream splits into the shown part, empty or ending in a real inline, followed by the withheld smart line breaks |
| MiniLog.TrailingSplitUnique | AppSource/Palladium.Controls/MiniLog.axaml.cs:126-143 | that split is the only one: exactly the trailing run of smart line breaks is held back |
| MiniLog.ShownLengthAppend | AppSource/Palladium.Controls/MiniLog.axaml.cs:128-142 | a smart line break is held back; a real inline releases everything before it |
| MiniLog.DropAfterAppend | AppSource/Palladium.Controls/MiniLog.axaml.cs:128-142 | after a break the shown part is unchanged and the break joins the withheld ones; after a real inline everything is shown and nothing is withheld |
| MiniLog.ShowsDropsTrailingBreaks | AppSource/Palladium.Controls/MiniLog.axaml.cs:123-143 | the text block shows the delivered stream without its trailing smart line breaks, which are exactly the queue |
| MiniLog.HoldBreakKeepsShowing | AppSource/Palladium.Controls/MiniLog.axaml.cs:128-133 | queuing one more break keeps that correspondence |
| MiniLog.ShowInlineKeepsShowing | AppSource/Palladium.Controls/MiniLog.axaml.cs:135-142 | showing a real inline after the queued breaks keeps that correspondence |
| MiniLog.MiniLogControl.constructor | AppSource/Palladium.Controls/MiniLog.axaml.cs:21-26 | the text stream is the never-emitting stream, nothing is subscribed, no collection, no template, empty text block |
| MiniLog.MiniLogControl.Deliver | AppSource/Palladium.Controls/MiniLog.axaml.cs:126-143 | a smart line break is queued; any other inline first adds the queued breaks in order, then itself, and the queue is emptied |
| MiniLog.MiniLogControl.ShowInline | AppSource/Palladium.Controls/MiniLog.axaml.cs:135-142 | a real inline adds the queued breaks, then itself, and the text block still shows the stream without its trailing breaks |
| MiniLog.MiniLogControl.FlushLineBreaks | AppSource/Palladium.Controls/MiniLog.axaml.cs:136-140 | the queued breaks are added to the text block in order and forgotten |
| MiniLog.MiniLogControl.Push | AppSource/Palladium.Controls/MiniLog.axaml.cs:124-126 | only the subscribed stream's inlines arrive; they are queued by the readiness gate while it is locked and handled at once while it is open |
| MiniLog.MiniLogControl.UpdateTextBlockInlines | AppSource/Palladium.Controls/MiniLog.axaml.cs:113-145 | the collection is dropped, the text block cleared, the old subscription replaced by one to the current stream with an empty break queue, behind a gate that opens only if the readiness signal is still to come or replays |
| MiniLog.MiniLogControl.SetTextStream | AppSource/Palladium.Controls/MiniLog.axaml.cs:66-70 | setting the stream re-subscribes only when the value changes, with the effects of `UpdateTextBlockInlines` |
| MiniLog.MiniLogControl.OnApplyTemplate | AppSource/Palladium.Controls/MiniLog.axaml.cs:104-111 | the text block is looked up; the first time, the readiness signal opens the gate, which hands on what it queued, in order |
| MiniLog.MiniLogControl.OpenGate | AppSource/Palladium.Controls/MiniLog.axaml.cs:109-125 | the readiness signal reaching a locked gate hands its queue to the handler in arrival order and leaves it open |
| MiniLogGate.GateIsBufferWithToggle | AppSource/Palladium.Controls/MiniLog.axaml.cs:124-126 | the control's gate fields change as the `BufferWithToggle` gate does: an inline is queued while locked and passed on while open, and unlocking passes the queue on in order and empties it |
| MiniLog.MiniLogControl.DeliverAll | AppSource/Palladium.ExtensionFunctions/ObservableExtensions.cs:97-108 | every queued inline is handed to the handler, in order |
| MiniLog.MiniLogControl.GetInlines | AppSource/Palladium.Controls/MiniLog.axaml.cs:77-101 | the first access binds a new subject as the text stream and creates the collection; every later access returns the same collection and changes nothing |
| MiniLog.MiniLogControl.AddToInlines | AppSource/Palladium.Controls/MiniLog.axaml.cs:90-98 | adding to the collection emits the inline on the collection's subject |
| MiniLog.StreamBeforeTemplate | AppSource/Palladium.Controls/MiniLog.axaml.cs:104-143 | a stream bound before the template is shown once the template is applied, without its trailing smart line break |
| MiniLog.LateTextStreamNeverShown | AppSource/Palladium.Controls/MiniLog.axaml.cs:109-125 | as written, a stream bound after the template was applied is never shown |
| MiniLog.LateTextStreamShownWhenReadyReplays | AppSource/Palladium.Controls/MiniLog.axaml.cs:109-125 | with a readiness signal that replays itself, the same late stream is shown |
| MiniLog.InlinesBeforeTemplate | AppSource/Palladium.Controls/MiniLog.axaml.cs:77-111 | content added through `Inlines` before the template is shown after it, and the getter returns the same collection |
| Lifecycle.AddAllEffect | AppSource/Palladium.ExtensionFunctions/Lifecycle/ILifecycleAwareViewModel.cs:43-49 | disposables added to a live composite are kept in order; added to a disposed one they are disposed at once, in order |
| Lifecycle.RunBlocksEffect | AppSource/Palladium.ExtensionFunctions/Lifecycle/ILifecycleAwareViewModel.cs:47-50 | running blocks invokes each once, in order, and the composite receives (or at once disposes) everything they hand over, in order |
| Lifecycle.Attach | AppSource/Palladium.ExtensionFunctions/Lifecycle/ILifecycleAwareViewModel.cs:45-52 | attaching clears the registered blocks and does not change whether the composite is disposed |
| Lifecycle.Detach | AppSource/Palladium.ExtensionFunctions/Lifecycle/ILifecycleAwareViewModel.cs:54-58 | detaching empties and disposes the composite and keeps the registered blocks |
| Lifecycle.Register | AppSource/Palladium.ExtensionFunctions/Lifecycle/ILifecycleAwareViewModel.cs:86-89 | registering appends the block and changes nothing else |
| Lifecycle.AttachRunsEachBlockOnce | AppSource/Palladium.ExtensionFunctions/Lifecycle/ILifecycleAwareViewModel.cs:45-52 | `RunWhenAttached` invokes every registered block exactly once in registration order and leaves none registered |
| Lifecycle.AttachAgainRunsNothing | AppSource/Palladium.ExtensionFunctions/Lifecycle/ILifecycleAwareViewModel.cs:47-51 | a second `RunWhenAttached` without new registrations changes nothing |
| Lifecycle.LateBlockRunsAtNextAttach | AppSource/Palladium.ExtensionFunctions/Lifecycle/ILifecycleAwareViewModel.cs:45-52 | a block registered after attaching runs, alone, at the next attach |
| Lifecycle.AttachKeepsAccounted | AppSource/Palladium.ExtensionFunctions/Lifecycle/ILifecycleAwareViewModel.cs:45-52 | attaching keeps every handed-over disposable either held or disposed |
| Lifecycle.ReplayKeepsAccounted | AppSource/Palladium.ExtensionFunctions/Lifecycle/ILifecycleAwareViewModel.cs:40-58 | whatever happens to a new activator, every disposable handed over is held or has been disposed, once, in order |
| Lifecycle.EverythingDisposedOnRemoval | AppSource/Palladium.ExtensionFunctions/Lifecycle/ILifecycleAwareViewModel.cs:54-58 | removing the view model disposes everything its blocks ever handed over, each once and in order, and holds nothing |
| Lifecycle.DetachDisposesEverything | AppSource/Palladium.ExtensionFunctions/Lifecycle/ILifecycleAwareViewModel.cs:54-58 | `RunWhenDetached` disposes every collected disposable and leaves the composite empty; doing it again disposes nothing more |
| Lifecycle.AddedAfterDetachDisposedAtOnce | AppSource/Palladium.ExtensionFunctions/Lifecycle/ILifecycleAwareViewModel.cs:43-56 | after a detach the composite stays disposed, so what a later block hands over is disposed at once |
| Lifecycle.LifecycleActivator.constructor | AppSource/Palladium.ExtensionFunctions/Lifecycle/ILifecycleAwareViewModel.cs:42-43 | no block registered, an empty live composite, nothing invoked or disposed |
| Lifecycle.LifecycleActivator.WhenAttached | AppSource/Palladium.ExtensionFunctions/Lifecycle/ILifecycleAwareViewModel.cs:86-89 | the block is appended to the registered blocks |
| Lifecycle.LifecycleActivator.AddToWhenDetached | AppSource/Palladium.ExtensionFunctions/Lifecycle/ILifecycleAwareViewModel.cs:43 | `CompositeDisposable.Add`: kept while live, disposed at once after disposal |
| Lifecycle.LifecycleActivator.InvokeBlock | AppSource/Palladium.ExtensionFunctions/Lifecycle/ILifecycleAwareViewModel.cs:49 | the block is recorded as invoked and adds its disposables in order |
| Lifecycle.LifecycleActivator.RunWhenAttached | AppSource/Palladium.ExtensionFunctions/Lifecycle/ILifecycleAwareViewModel.cs:45-52 | the new state is `Attach` of the old |
| Lifecycle.LifecycleActivator.DisposeItems | AppSource/Palladium.ExtensionFunctions/Lifecycle/ILifecycleAwareViewModel.cs:57 | the composite's items are disposed in order and removed |
| Lifecycle.LifecycleActivator.RunWhenDetached | AppSource/Palladium.ExtensionFunctions/Lifecycle/ILifecycleAwareViewModel.cs:54-58 | the new state is `Detach` of the old |
| Lifecycle.OnViewModelChanged | AppSource/Palladium.ExtensionFunctions/Lifecycle/ILifecycleAwareViewModel.cs:124-128 | the previous view model is detached before the current one is attached; a null side is skipped |
| Lifecycle.ReattachScenario | AppSource/Palladium.ExtensionFunctions/Lifecycle/ILifecycleAwareViewModel.cs:40-58 | a block run on the first attach is not run again on a re-attach, and its disposables are disposed once |
| Tabs.Header | AppSource/Palladium.Actions/TabsService.cs:33 | the header is the emoji, a space, then the title, null parts shown as nothing |
| Tabs.InitialIsValid | AppSource/Palladium.Actions/TabsService.cs:12-15 | a new service has no tabs and no registration, and satisfies the invariant |
| Tabs.RemoveFirstMembers | AppSource/Palladium.Actions/TabsService.cs:56 | `Collection.Remove` of a tab keeps exactly the other tabs |
| Tabs.RemoveFirstLength | AppSource/Palladium.Actions/TabsService.cs:56 | removal takes one tab away when the tab is open and none otherwise |
| Tabs.RemoveFirstUnique | AppSource/Palladium.Actions/TabsService.cs:56 | removal keeps tab identities unique |
| Tabs.RemoveAppendedLast | AppSource/Palladium.Actions/TabsService.cs:36-56 | removing the tab just appended restores the previous list |
| Tabs.Start | AppSource/Palladium.Actions/TabsService.cs:19-46 | starting selects one tab, keeps the open tabs in order, adds at most one, and disposes nothing |
| Tabs.Close | AppSource/Palladium.Actions/TabsService.cs:48-59 | closing forgets the action's registration and changes no selection, creation or start |
| Tabs.StartRegisteredOnlySelects | AppSource/Palladium.Actions/TabsService.cs:21-25 | starting a registered single-instance action only re-selects its tab: no tab is added and `OnStart` is not called |
| Tabs.StartOpensOneTab | AppSource/Palladium.Actions/TabsService.cs:26-45 | otherwise exactly one new tab is appended and selected, `OnStart` runs once with its content, and only a single-instance action is registered |
| Tabs.StartKeepsValid | AppSource/Palladium.Actions/TabsService.cs:19-46 | starting keeps every registered tab open and belonging to its action, and tab identities unique |
| Tabs.CloseKeepsValid | AppSource/Palladium.Actions/TabsService.cs:48-59 | closing keeps every registered tab open |
| Tabs.CloseRemovesTab | AppSource/Palladium.Actions/TabsService.cs:48-59 | closing disposes disposable content, removes the tab, forgets the action's registration and keeps the other tabs |
| Tabs.SingleInstance | AppSource/Palladium.Actions/TabsService.cs:21-41 | a single-instance action started twice has one tab, selected the second time |
| Tabs.StartThenClose | AppSource/Palladium.Actions/TabsService.cs:19-59 | opening a tab for an unregistered action and closing it restores the tabs and the registry |
| Tabs.TabsService.constructor | AppSource/Palladium.Actions/TabsService.cs:12-15 | no tab, no registration, nothing selected |
| Tabs.TabsService.HandleStartAction | AppSource/Palladium.Actions/TabsService.cs:19-46 | the new state is `Start` of the old |
| Tabs.TabsService.CloseTab | AppSource/Palladium.Actions/TabsService.cs:48-59 | the new state is `Close` of the old |
| Tabs.AddAndRemove | AppSource/Palladium.Actions.Tests/TabsServiceTests.cs:8-33 | opening a tab with disposable content and closing it disposes the content and leaves no tab |
| LegacyTabs.NoTargetChangesNothing | AppSource/Palladium.Actions/TabService.cs:13 | without a target the call fails and changes nothing |
| LegacyTabs.NullKeyChangesNothing | AppSource/Palladium.Actions/TabService.cs:15 | a single-instance action without `OnStart` fails on the registry lookup before any change |
| LegacyTabs.RegisteredOnlySelects | AppSource/Palladium.Actions/TabService.cs:15-19 | an action registered under the same delegate only changes the selected item |
| LegacyTabs.OpensOneTab | AppSource/Palladium.Actions/TabService.cs:21-38 | otherwise one new item is appended and selected, then `OnStart` is invoked with it; a single-instance tab is registered under its delegate |
| LegacyTabs.NullStartFailsAfterAdding | AppSource/Palladium.Actions/TabService.cs:29-37 | a multi-instance action without `OnStart` gets its tab added and selected, then fails invoking it |
| LegacyTabs.StartKeepsValid | AppSource/Palladium.Actions/TabService.cs:11-39 | every registered tab stays among the target's items |
| LegacyTabs.SingleInstance | AppSource/Palladium.Actions/TabService.cs:15-34 | a single-instance action started twice has one tab |
| LegacyTabs.TabControl.constructor | AppSource/Palladium.Actions/TabService.cs:9 | a target control starts with no items and nothing selected |
| LegacyTabs.LegacyTabsService.constructor | AppSource/Palladium.Actions/TabService.cs:7-9 | no target, no registration, nothing started |
| LegacyTabs.LegacyTabsService.HandleStartAction | AppSource/Palladium.Actions/TabService.cs:11-39 | the target stays, and the new state and error are `LegacyStart` of the old |
| LegacyTabs.LegacyStart | AppSource/Palladium.Actions/TabService.cs:11-39 | every failure other than a null `OnStart` changes nothing; success leaves a tab selected; at most one `OnStart` is invoked |
| LegacyTabs.StartTwice | AppSource/Palladium.Actions/TabService.cs:11-39 | a single-instance action started twice on a target: one tab, selected, the delegate invoked once |
| RoadmapOrder.CalculateIterationLevel | AppExtensions/Palladium.AzureDevOps/RoadmapGridAlgorithms.cs:145-148 | the level is 0 exactly when the path has no '\', and never more than the path's length |
| RoadmapOrder.LevelOfConcat | AppExtensions/Palladium.AzureDevOps/RoadmapGridAlgorithms.cs:145-148 | the count of '\' is additive over concatenation |
| RoadmapOrder.LevelOfChild | AppExtensions/Palladium.AzureDevOps/RoadmapGridAlgorithms.cs:145-148 | a child path `parent\name` is exactly one level below its parent |
| RoadmapOrder.Changes | AppExtensions/Palladium.AzureDevOps/RoadmapGridAlgorithms.cs:30-49 | each iteration gives a start event at its start date and an end event at its end date, in input order |
| RoadmapOrder.ChangesMembers | AppExtensions/Palladium.AzureDevOps/RoadmapGridAlgorithms.cs:30-49 | the events are exactly the start and end events of the input iterations |
| RoadmapOrder.NameLeTotal | AppExtensions/Palladium.AzureDevOps/RoadmapGridAlgorithms.cs:56 | the name order used as the last sort key is total, so any two events can be compared |
| RoadmapOrder.ChangeLeTotal | AppExtensions/Palladium.AzureDevOps/RoadmapGridAlgorithms.cs:52-57 | the four-key order (date, start before end, level, name) is total |
| RoadmapOrder.Insert | AppExtensions/Palladium.AzureDevOps/RoadmapGridAlgorithms.cs:52-57 | insertion adds the event to the list, as a permutation |
| RoadmapOrder.OrderChanges | AppExtensions/Palladium.AzureDevOps/RoadmapGridAlgorithms.cs:52-57 | the sort returns the same events, as a permutation, ordered by date, then starts before ends, then level, then name |
| RoadmapOrder.InsertOrdered | AppExtensions/Palladium.AzureDevOps/RoadmapGridAlgorithms.cs:52-57 | inserting into an ordered list keeps it ordered |
| RoadmapOrder.OrderChangesOrdered | AppExtensions/Palladium.AzureDevOps/RoadmapGridAlgorithms.cs:52-57 | the sorted events are ordered by date, then starts before ends, then level, then name |
| RoadmapOrder.InsertWithKey | AppExtensions/Palladium.AzureDevOps/RoadmapGridAlgorithms.cs:52-57 | insertion goes in front of the events with the same four keys, keeping their order |
| RoadmapOrder.OrderChangesStable | AppExtensions/Palladium.AzureDevOps/RoadmapGridAlgorithms.cs:52-57 | the sort is stable, as `OrderBy(...).ThenBy(...)` is: events whose four keys are equal keep their input order |
| RoadmapOrder.OrderedIsRankSorted | AppExtensions/Palladium.AzureDevOps/RoadmapGridAlgorithms.cs:53-54 | an ordered list is sorted by date and, on one date, starts before ends |
| RoadmapOrder.SortedChangesFacts | AppExtensions/Palladium.AzureDevOps/RoadmapGridAlgorithms.cs:30-57 | the sorted events are ordered and are exactly the start and end events of the input |
| RoadmapOrder.StartBeforeEndOnSameDay | AppExtensions/Palladium.AzureDevOps/RoadmapGridAlgorithms.cs:53-54 | a start is sorted before any end on the same or a later day, so an iteration starting on another's end date overlaps it |
| RoadmapOrder.CountAppend | AppExtensions/Palladium.AzureDevOps/RoadmapGridAlgorithms.cs:63-80 | counting events of a kind is additive over concatenation |
| RoadmapOrder.CountOrderChanges | AppExtensions/Palladium.AzureDevOps/RoadmapGridAlgorithms.cs:52-57 | sorting does not change how many events of any kind there are |
| RoadmapOrder.EndsBeforeAtMostStartsBefore | AppExtensions/Palladium.AzureDevOps/RoadmapGridAlgorithms.cs:30-49 | when no iteration ends before it starts, fewer iterations of a level end before any day than start before it |
| RoadmapOrder.OverlapAtStartPositive | AppExtensions/Palladium.AzureDevOps/RoadmapGridAlgorithms.cs:63-75 | at every start event the count of open iterations of its level, this one included, is at least one |
| RoadmapGridAlgorithms.DistinctDates | AppExtensions/Palladium.AzureDevOps/RoadmapGridAlgorithms.cs:102-114 | the distinct change dates are no more than the events, and the last one is the last event's date |
| RoadmapGridAlgorithms.Gaps | AppExtensions/Palladium.AzureDevOps/RoadmapGridAlgorithms.cs:104-111 | one column per gap between consecutive distinct dates |
| RoadmapGridAlgorithms.DistinctDatesSorted | AppExtensions/Palladium.AzureDevOps/RoadmapGridAlgorithms.cs:102-114 | on sorted events the distinct dates increase strictly and are exactly the event dates |
| RoadmapGridAlgorithms.ColumnWidthsPositive | AppExtensions/Palladium.AzureDevOps/RoadmapGridAlgorithms.cs:109-110 | every column is a star column of positive width |
| RoadmapGridAlgorithms.MaxOverlapBounds | AppExtensions/Palladium.AzureDevOps/RoadmapGridAlgorithms.cs:70-74 | the maximum overlap of a level bounds the overlap at every start of that level |
| RoadmapGridAlgorithms.MaxOverlapsPositive | AppExtensions/Palladium.AzureDevOps/RoadmapGridAlgorithms.cs:60-81 | every level with a start has a band of at least one row |
| RoadmapGridAlgorithms.BandLevels | AppExtensions/Palladium.AzureDevOps/RoadmapGridAlgorithms.cs:65-68 | the levels that get a band are exactly the levels of the input iterations |
| RoadmapGridAlgorithms.BandsOrdered | AppExtensions/Palladium.AzureDevOps/RoadmapGridAlgorithms.cs:84-94 | the band of a shallower level lies wholly above the band of a deeper one |
| RoadmapGridAlgorithms.BandsConsecutive | AppExtensions/Palladium.AzureDevOps/RoadmapGridAlgorithms.cs:87-92 | each band starts where the band of the next shallower level ends |
| RoadmapGridAlgorithms.SpanPositive | AppExtensions/Palladium.AzureDevOps/RoadmapGridAlgorithms.cs:116-133 | an iteration that ends after it starts spans at least one column |
| RoadmapGridAlgorithms.ShallowerRowsFirst | AppExtensions/Palladium.AzureDevOps/RoadmapGridAlgorithms.cs:120 | every row of a shallower iteration is above every row of a deeper one |
| RoadmapGridAlgorithms.SplitIterations | AppExtensions/Palladium.AzureDevOps/RoadmapGridAlgorithms.cs:30-49 | the loop builds exactly the event list of the input |
| RoadmapGridAlgorithms.ChangesAppend | AppExtensions/Palladium.AzureDevOps/RoadmapGridAlgorithms.cs:32-49 | one more iteration appends its start and end events |
| RoadmapGridAlgorithms.ComputeMaxOverlaps | AppExtensions/Palladium.AzureDevOps/RoadmapGridAlgorithms.cs:59-81 | the first sweep fails (the decrement's key lookup) iff an end precedes every start of its level; otherwise it yields the largest overlap of each level |
| RoadmapGridAlgorithms.CountChange | AppExtensions/Palladium.AzureDevOps/RoadmapGridAlgorithms.cs:64-79 | one event of the first sweep fails exactly on an end whose level has not started; otherwise the running and largest counts stay equal to their definitions over the events so far |
| RoadmapGridAlgorithms.AscendingLevels | AppExtensions/Palladium.AzureDevOps/RoadmapGridAlgorithms.cs:88 | the levels are visited in strictly increasing order, each once |
| RoadmapGridAlgorithms.EnumerationSize | AppExtensions/Palladium.AzureDevOps/RoadmapGridAlgorithms.cs:88-93 | visiting each level once visits as many as there are |
| RoadmapGridAlgorithms.AssignLevelOffsets | AppExtensions/Palladium.AzureDevOps/RoadmapGridAlgorithms.cs:84-94 | the levels are visited in ascending order, each level's offset is the total band height of all shallower levels, and the final total is the height of all bands |
| RoadmapGridAlgorithms.ComputeLevelOffsets | AppExtensions/Palladium.AzureDevOps/RoadmapGridAlgorithms.cs:83-94 | as written: each level's offset is the sum of the bands of the shallower levels, and the grid gets one Auto row per level |
| RoadmapGridAlgorithms.ComputeLevelOffsetsWithBandRows | AppExtensions/Palladium.AzureDevOps/RoadmapGridAlgorithms.cs:83-94 | corrected: the same offsets, and as many Auto rows as all bands together |
| RoadmapGridAlgorithms.AsWrittenRowsTooFew | AppExtensions/Palladium.AzureDevOps/RoadmapGridAlgorithms.cs:84-94 | with one row per level, a band two rows high leaves the grid with fewer rows than its cells use |
| RoadmapGridAlgorithms.AdvanceColumn | AppExtensions/Palladium.AzureDevOps/RoadmapGridAlgorithms.cs:104-114 | a new date opens a new column, and the gap to the previous date becomes a column as wide as the gap |
| RoadmapGridAlgorithms.OpenCell | AppExtensions/Palladium.AzureDevOps/RoadmapGridAlgorithms.cs:116-127 | a start event raises its level's open count by one (from zero for a new level), sets its view model in the current column on row offset + count - 1, lists a new iteration once, and leaves the columns unchanged |
| RoadmapGridAlgorithms.OpenedCell | AppExtensions/Palladium.AzureDevOps/RoadmapGridAlgorithms.cs:116-127 | the state after a start keeps the sweep's invariant: counts equal the open iterations per level, one view model per started iteration, each in its columns, and rows inside their level's band |
| RoadmapGridAlgorithms.CloseCell | AppExtensions/Palladium.AzureDevOps/RoadmapGridAlgorithms.cs:128-133 | an end event closes its iteration's view model in the current column; it fails only when some iteration ends before it starts, and always when this one does |
| RoadmapGridAlgorithms.SweepStep | AppExtensions/Palladium.AzureDevOps/RoadmapGridAlgorithms.cs:102-134 | one pass of the second sweep keeps the sweep's invariant, or fails only on an iteration ending before it starts |
| RoadmapGridAlgorithms.Sweep | AppExtensions/Palladium.AzureDevOps/RoadmapGridAlgorithms.cs:100-134 | the second sweep fails only when some iteration ends before it starts; on success its invariant holds after every event and no iteration ends before it starts |
| RoadmapGridAlgorithms.AssignCells | AppExtensions/Palladium.AzureDevOps/RoadmapGridAlgorithms.cs:96-135 | the second sweep fails iff some iteration ends before it starts; otherwise the columns are the date gaps and there is one placed view model per distinct iteration |
| RoadmapGridAlgorithms.CollectViewModels | AppExtensions/Palladium.AzureDevOps/RoadmapGridAlgorithms.cs:139 | the dictionary's values: one view model per distinct iteration, each placed in the grid |
| RoadmapGridAlgorithms.AllEndsInOrder | AppExtensions/Palladium.AzureDevOps/RoadmapGridAlgorithms.cs:128-133 | a sweep that reaches every end without failing has no iteration ending before it starts |
| RoadmapGridAlgorithms.FinishedCells | AppExtensions/Palladium.AzureDevOps/RoadmapGridAlgorithms.cs:96-135 | after the sweep every input iteration has its view model, with both columns and its row |
| RoadmapGridAlgorithms.BadEndIsNotOpen | AppExtensions/Palladium.AzureDevOps/RoadmapGridAlgorithms.cs:131 | an iteration that ends before it starts has not been opened when its end is reached |
| RoadmapGridAlgorithms.GoodEndIsOpen | AppExtensions/Palladium.AzureDevOps/RoadmapGridAlgorithms.cs:128-131 | when no iteration ends before it starts, an end finds its level and its iteration open |
| RoadmapGridAlgorithms.GoodSweepHasNoEarlyEnd | AppExtensions/Palladium.AzureDevOps/RoadmapGridAlgorithms.cs:78 | when no iteration ends before it starts, the first sweep never fails |
| RoadmapGridAlgorithms.CreateIterationsGrid | AppExtensions/Palladium.AzureDevOps/RoadmapGridAlgorithms.cs:28-143 | as written: fails (KeyNotFoundException) iff some iteration ends before it starts; otherwise the columns are the date gaps, there is one Auto row per level, one view model per distinct iteration, with columns at its dates' ranks and its row in its level's band |
| RoadmapGridAlgorithms.CreateIterationsGridWithBandRows | AppExtensions/Palladium.AzureDevOps/RoadmapGridAlgorithms.cs:28-143 | corrected: the same failure and the same cells, and as many Auto rows as all bands together |
| RoadmapGridAlgorithms.CellsInsideGrid | AppExtensions/Palladium.AzureDevOps/RoadmapGridAlgorithms.cs:28-143 | in the grid with band rows, every cell's columns are column lines of the grid and its row is a row of the grid |
| RoadmapGridAlgorithms.AsWrittenGridRowsTooFew | AppExtensions/Palladium.AzureDevOps/RoadmapGridAlgorithms.cs:84-94 | as written, when some level needs two or more rows the grid has fewer rows than the bands its cells are placed in |
| RoadmapGridAlgorithms.ColumnsAndSpans | AppExtensions/Palladium.AzureDevOps/RoadmapGridAlgorithms.cs:102-133 | columns have positive widths, and an iteration that ends after it starts spans at least one |
| RoadmapGridAlgorithms.LevelsStackTopDown | AppExtensions/Palladium.AzureDevOps/RoadmapGridAlgorithms.cs:84-120 | inside one grid, shallower iterations sit on rows above deeper ones |
| RoadmapGridAlgorithms.OneCellPerIteration | AppExtensions/Palladium.AzureDevOps/RoadmapGridAlgorithms.cs:116-139 | the grid has exactly one view model per distinct iteration |
| RoadmapGridAlgorithms.EmptyGrid | AppExtensions/Palladium.AzureDevOps/RoadmapGridAlgorithms.cs:28-143 | no iterations: no cells, no columns and no rows |
| RoadmapGridAlgorithms.SingleIterationOneColumn | AppExtensions/Palladium.AzureDevOps/RoadmapGridAlgorithms.cs:102-133 | one iteration gives one column as wide as its length in days, spanned by its cell |
| XExtensions.FirstNamed | AppSource/Palladium.Settings/XExtensions.cs:9 | the index found is the first child with the name; None exactly when no child has it |
| XExtensions.FirstNamedAppend | AppSource/Palladium.Settings/XExtensions.cs:9 | adding a child never moves a match already found, and a first match at the end is found there |
| XExtensions.XElement.constructor | AppSource/Palladium.Settings/XExtensions.cs:14 | a new element has the name, no attributes and no children |
| XExtensions.XElement.GetElementOrCreate | AppSource/Palladium.Settings/XExtensions.cs:7-17 | an existing child with the name is returned and nothing changes; otherwise a fresh empty child with the name is appended and returned |
| XExtensions.GetElementOrCreateTwice | AppSource/Palladium.Settings/XExtensions.cs:7-17 | two calls return the same element and add at most one child between them |
| XExtensions.TryGetGuidAttribute | AppSource/Palladium.Settings/XExtensions.cs:19-25 | true exactly when the Guid attribute exists and parses, with the parsed GUID; otherwise the empty GUID |
| SettingsDocument.FirstWithGuid | AppSource/Palladium.Settings/SettingsService.cs:253-257 | the first entry whose GUID attribute parses to the GUID, or None exactly when no entry has it |
| SettingsDocument.FirstOpen | AppSource/Palladium.Settings/SettingsService.cs:220-232 | the first attempt below the limit of five that opens the file, or None exactly when every one fails |
| SettingsDocument.OpenWithRetry | AppSource/Palladium.Settings/SettingsService.cs:214-232 | the loop stops at the first attempt that opens, after at most five attempts, and counts one failure per attempt before it |
| SettingsDocument.RemoveRecognised | AppSource/Palladium.Settings/SettingsService.cs:192-202 | the intended removal keeps no recognised entry and never adds one |
| SettingsDocument.RemoveFirstRecognised | AppSource/Palladium.Settings/SettingsService.cs:192-202 | as written, the removal is one entry shorter exactly when some entry is recognised |
| SettingsDocument.ReadExisting | AppSource/Palladium.Settings/SettingsService.cs:180-205 | no document exactly for a file that is not XML, and a document without root exactly for a file without the settings root |
| SettingsDocument.WriteSettings | AppSource/Palladium.Settings/SettingsService.cs:102-166 | an existing file that cannot be opened for reading throws first, leaving file and backup alone and logging nothing; else a file without the settings root throws, else a failed write throws; a write that does not throw leaves a settings file; any other throw leaves the file as it was (or none, if it was unreadable); an unreadable file becomes the backup |
| SettingsDocument.ReadValue | AppSource/Palladium.Settings/SettingsService.cs:250-268 | a file that is not XML fails, the only other failure is content that does not deserialize, and a file without root or without a matching entry gives no value |
| SettingsDocument.Deserialize | AppSource/Palladium.Settings/SettingsService.cs:207-248 | no file gives no value; the open fails only when there is a file and its first attempt fails |
| SettingsDocument.RemoveRecognisedEntries | AppSource/Palladium.Settings/SettingsService.cs:192-202 | the loop removes what the specification function of the removal removes: as written only the first recognised entry, or with the intended full removal every recognised entry |
| SettingsDocument.ReadExistingSettings | AppSource/Palladium.Settings/SettingsService.cs:180-205 | a file that is not XML gives null; a document without the settings root is returned as it is; otherwise the document with its recognised entries removed, as written or with the intended full removal |
| SettingsDocument.SerializeAll | AppSource/Palladium.Settings/SettingsService.cs:134-149 | one new entry per registered GUID in enumeration order, and one error logged per serializer that throws |
| SettingsDocument.WriteFile | AppSource/Palladium.Settings/SettingsService.cs:102-166 | the file, backup, log and exception Write leaves, as the specification function of the whole write describes them, with the removal as written or the intended one |
| SettingsDocument.DeserializeAsync | AppSource/Palladium.Settings/SettingsService.cs:207-248 | no file gives nothing; otherwise the retried open, then the read of the stream |
| SettingsDocument.RemoveRecognisedAppend | AppSource/Palladium.Settings/SettingsService.cs:193-202 | removal works entry by entry: removing from a concatenation is concatenating the removals |
| SettingsDocument.RemoveRecognisedMembers | AppSource/Palladium.Settings/SettingsService.cs:193-202 | an entry survives removal exactly when it was there and is not recognised |
| SettingsDocument.RemovedHasNoRegisteredGuid | AppSource/Palladium.Settings/SettingsService.cs:193-202 | after removal no entry carries a registered GUID |
| SettingsDocument.CountAppend | AppSource/Palladium.Settings/SettingsService.cs:134-149 | the number of entries with a GUID is additive over concatenation |
| SettingsDocument.NewEntryHasGuid | AppSource/Palladium.Settings/SettingsService.cs:136-138 | with a codec that reads back what it writes, the entry made for a GUID carries that GUID and no other |
| SettingsDocument.NewEntriesCount | AppSource/Palladium.Settings/SettingsService.cs:134-149 | the new entries carry each registered GUID exactly once and no other GUID |
| SettingsDocument.CountZero | AppSource/Palladium.Settings/SettingsService.cs:253-257 | the count is zero exactly when no entry matches |
| SettingsDocument.FirstWithGuidAfter | AppSource/Palladium.Settings/SettingsService.cs:253-257 | entries without a match in front only shift where the first match is found |
| SettingsDocument.FirstWithGuidAppend | AppSource/Palladium.Settings/SettingsService.cs:253-257 | appending an entry does not move a match already found |
| SettingsDocument.NewEntriesFirst | AppSource/Palladium.Settings/SettingsService.cs:134-149 | the first new entry for a registered GUID is the one made for it, holding what its serializer produced |
| SettingsDocument.WriteEachGuidOnce | AppSource/Palladium.Settings/SettingsService.cs:102-166 | after a Write that does not throw, every registered GUID is in exactly one entry of the file |
| SettingsDocument.WriteKeepsOtherEntries | AppSource/Palladium.Settings/SettingsService.cs:102-166 | unrecognised entries survive a Write, in order and ahead of the new entries; the backup is untouched |
| SettingsDocument.UnparsableFileBackedUp | AppSource/Palladium.Settings/SettingsService.cs:105-128 | a file that is not XML becomes the backup, and a write that succeeds leaves only the new entries; a file that cannot be opened stays where it is, with nothing logged |
| SettingsDocument.ForeignRootThrows | AppSource/Palladium.Settings/SettingsService.cs:105-131 | a well-formed file whose root is not PalladiumSettings makes Write throw (at the open if the file cannot be opened, else at the root) and leaves file and backup alone |
| SettingsDocument.SerializeFailureLogged | AppSource/Palladium.Settings/SettingsService.cs:140-148 | a serializer that throws is logged, and its entry is still written, without content |
| SettingsDocument.ReadAfterWrite | AppSource/Palladium.Settings/SettingsService.cs:250-268 | reading a GUID back after a successful Write decodes the content its serializer produced |
| SettingsDocument.ChildlessEntryGivesNothing | AppSource/Palladium.Settings/SettingsService.cs:258 | a first matching entry without content gives no value |
| SettingsDocument.FirstMatchWins | AppSource/Palladium.Settings/SettingsService.cs:253-258 | only the first matching entry is read; a later one with the same GUID is ignored |
| SettingsDocument.FirstOpenFindsAnySuccess | AppSource/Palladium.Settings/SettingsService.cs:220-232 | if any of the five attempts opens the file, the loop finds an attempt no later than it |
| SettingsDocument.AsWrittenRetryNeverRecovers | AppSource/Palladium.Settings/SettingsService.cs:234-237 | as written, a failed first attempt makes the read throw even when a later attempt opens the file; a first attempt that opens gives the stream read |
| SettingsDocument.RetryRecoversWhenLaterAttemptOpens | AppSource/Palladium.Settings/SettingsService.cs:214-239 | with the intended check, a file that opens on any of the five attempts is read |
| SettingsDocument.RetryGivesUpAfterMaxAttempts | AppSource/Palladium.Settings/SettingsService.cs:234-237 | when all five attempts fail, the read throws, as written and as intended |
| SettingsDocument.RemoveFirstRecognisedDropsFirst | AppSource/Palladium.Settings/SettingsService.cs:192-202 | as written, the removal drops the first recognised entry and keeps the rest in order |
| SettingsDocument.RemoveFirstRecognisedKeepsUnrecognised | AppSource/Palladium.Settings/SettingsService.cs:192-202 | as written, a document without recognised entries is kept as it is |
| SettingsDocument.LaterRecognisedEntrySurvives | AppSource/Palladium.Settings/SettingsService.cs:192-202 | as written, a recognised entry that follows another recognised entry survives the removal |
| SettingsDocument.AsWrittenSecondEntryReadStale | AppSource/Palladium.Settings/SettingsService.cs:192-202 | as written, a write over a recognised entry followed by the entry of `g` keeps the old entry of `g` ahead of the new one, so reading `g` gives the old value |
| Settings.InitialIsValid | AppSource/Palladium.Settings/SettingsService.cs:20-35 | a new service has no serializers or views, and its write command is enabled |
| Settings.Install | AppSource/Palladium.Settings/SettingsService.cs:70-100 | installing registers the GUID, leaves file, backup and the command's state alone, and for a GUID already installed changes no view |
| Settings.ExecuteWrite | AppSource/Palladium.Settings/SettingsService.cs:24-30 | executing the command writes whatever the command's state, keeps the registry and views, and can only turn the command's state false |
| Settings.InstallKeepsValid | AppSource/Palladium.Settings/SettingsService.cs:70-100 | installing keeps every serializer listed once and every view backed by a serializer |
| Settings.DuplicateInstallOnlyWarns | AppSource/Palladium.Settings/SettingsService.cs:73-77 | a GUID installed twice logs a warning and changes nothing else |
| Settings.InstallAddsView | AppSource/Palladium.Settings/SettingsService.cs:79-99 | a new GUID whose read succeeds, or is not asked for, gets its serializer, its view and its subject, and nothing is logged |
| Settings.FailedReadAddsNoView | AppSource/Palladium.Settings/SettingsService.cs:81-92 | a failed read leaves the serializer installed, logs a warning, and adds no view and no subject |
| Settings.FailedWriteDisablesCommand | AppSource/Palladium.Settings/SettingsService.cs:24-30 | a Write that throws logs an error and turns the command's `canExecute` false; a later `Execute()` still writes, and the state stays false |
| Settings.SuccessfulWriteKeepsCommandState | AppSource/Palladium.Settings/SettingsService.cs:24-30 | a Write that does not throw keeps the command's state, stores the written file, and logs only the serializer errors |
| Settings.LockedFileFailsBeforeAnything | AppSource/Palladium.Settings/SettingsService.cs:105-109 | an existing file that cannot be opened for reading fails the command before anything is moved or serialized: file and backup stay, only the command's failure is logged, and `canExecute` turns false |
| Settings.ExecuteWriteStoresEachGuidOnce | AppSource/Palladium.Settings/SettingsService.cs:102-166 | after a write that succeeds, each installed GUID is in exactly one entry of the file |
| Settings.InstallReadsWhatWasWritten | AppSource/Palladium.Settings/SettingsService.cs:70-100 | a service started on the file a successful write left emits the value written for the GUID it installs |
| Settings.SettingsService.constructor | AppSource/Palladium.Settings/SettingsService.cs:20-31 | a new service is in the initial state, with the command enabled |
| Settings.SettingsService.InstallImplementation | AppSource/Palladium.Settings/SettingsService.cs:70-100 | the new state is the specification function of installing applied to the old one |
| Settings.SettingsService.ExecuteWriteCommand | AppSource/Palladium.Settings/SettingsService.cs:24-30 | the new state is the specification function of executing the write command applied to the old one, which writes whatever `canExecute` holds |
| Settings.ReadFromEmptyFileFails | AppSource/Palladium.Settings.Tests/SettingsServiceTests.cs:13-27 | installing with reading on from a file that is not XML logs exactly one entry and adds no view |
| LegacySettings.InstallKeepsValid | Palladium.Settings/SettingsService.cs:135-151 | installing keeps every serializer listed once |
| LegacySettings.InstallEffect | Palladium.Settings/SettingsService.cs:135-151 | installing faults with a duplicate exactly when the GUID is already registered, registers it, and leaves the file alone |
| LegacySettings.Write | Palladium.Settings/SettingsService.cs:27-89 | writing keeps the registry and the handed-over subjects, and a write that does not throw leaves an XML file |
| LegacySettings.DuplicateInstallThrows | Palladium.Settings/SettingsService.cs:138 | installing a GUID twice throws before anything changes |
| LegacySettings.InstallHandsOverEvenWhenReadFails | Palladium.Settings/SettingsService.cs:135-151 | a new GUID is registered and its view model gets its subject whether or not the read succeeds; the returned `Task` faults, with a warning logged, exactly when a requested read fails |
| LegacySettings.InstallWithoutReading | Palladium.Settings/SettingsService.cs:142-150 | without reading, the returned `Task` completes at once, nothing is emitted or logged, and the subject is handed over |
| LegacySettings.WriteStoresEachGuidOnce | Palladium.Settings/SettingsService.cs:27-89 | after a write that succeeds, each installed GUID is in exactly one entry of the file |
| LegacySettings.LegacySettingsService.constructor | Palladium.Settings/SettingsService.cs:18-23 | a new service has no serializers and holds the given files |
| LegacySettings.LegacySettingsService.Install | Palladium.Settings/SettingsService.cs:135-151 | the new state and the fault are those of the specification function of installing |
| LegacySettings.LegacySettingsService.ExecuteWriteCommand | Palladium.Settings/SettingsService.cs:27-89 | the new state and the exception are those of the specification function of writing |

## Left out

- Native code and the keyboard hook plumbing are not modelled. This covers `SetWindowsHookEx`, `CallNextHookEx`, `SendInput`, `GetKeyState` and marshalling. The hook's decision is the model's output, and a simulated key press is a flag.
- `scheduler.Schedule(callback)` is modelled as a counter of scheduled callbacks. When the callback runs is not modelled.
- Concurrency is not modelled: the locks in `BufferWithToggle`, `Task.Run` in `Install`, and `ConcurrentDictionary`. Every operation runs to completion, one at a time.
- The order in which the settings services enumerate their serializer dictionaries is unspecified. It is modelled as a sequence `order` that lists each registered GUID once.
- `AddTaskCompletion`, `DebugToLogs` and `DebugToConsole` in `ObservableExtensions.cs` are not modelled. They are built on Task continuations, locks and logging.
- File I/O, `XDocument` parsing and `XmlSerializer` are modelled as inputs:
  - a file is well-formed XML (with or without a `PalladiumSettings` root) or unreadable;
  - an entry's content is a sequence of numbers;
  - deserialization is a function parameter;
  - the outcome of each open attempt is a parameter;
  - what the file system does to a write is one parameter: nothing, an existing file that cannot be opened for reading, or a failure to write the file (a cancellation counts as one).
- `Directory.CreateDirectory` and the one-second delay between open attempts are not modelled.
- `Guid.TryParse` and GUID formatting are an abstract codec. The facts about written entries assume it reads back what it writes.
- Culture-sensitive `StartsWith` in `FindColumnForWorkItem` is modelled as an ordinal prefix test.
- HTTP calls to Azure DevOps are not modelled. Their results are parameters of the query functions.
- Iterations are compared by value, not by reference, so two equal iterations are one iteration.
- Dates are whole days after the first representable date. Fractional days and `DateTime` arithmetic are not modelled, and column widths are integer day counts.
- Floating-point layout is not modelled: zooming, clamping and interpolation in the roadmap view.
- `RoadmapGridAlgorithms.CreateIterationsGrid` does not state that overlapping iterations get different rows. The row is the overlap count at the start event minus one, so two overlapping iterations of one level can share a row. The model proves the weaker band bound instead: every row lies inside its level's band.
- Tests that call members the code does not define are not modelled: `CreateWorkItemsGrid`, `HasNoOverlaps`, and a seven-argument `ProcessKey`.
- `ObservableExtensions.Scan` states only that one accumulation is emitted per input. What the accumulations are is stated for the one scan the program uses, by `ObservableExtensions.PairWithPreviousPairs`.
- Some library behaviour is modelled as Rx and Avalonia document it:
  - a completed `Subject` sends only `OnCompleted` to a later subscriber;
  - `SetAndRaise` notifies only when the value changes.
- A view model's `WhenDetached` composite is modelled as part of its activator.
- A tab's content is fixed when the tab is created, and disposing it is an event of the model.
- `ReactiveCommand.Execute()` runs the write whatever the `canExecute` subject holds, and so does the model: `canExecute` is only the value a bound control would read. The exception that a failed write also passes to the caller's `Execute().Subscribe()` is not modelled, nor are the command's `IsExecuting` and `CanExecute` observables.
- SettingsDocument.WriteSettings keeps the old file when the write fails. `File.Open` with `FileMode.Create` truncates the file before anything is written, so a real failure during writing can leave an empty or partial file.
- SettingsDocument.WriteEachGuidOnce is proved for the intended removal of every recognised entry. As written, only the first recognised entry is removed, and a second one survives the write (see Findings).
- SettingsDocument.ReadAfterWrite is proved for the intended removal of every recognised entry. As written, an older entry for the GUID can survive ahead of the new one, and reading gives the old value (see Findings).
- SettingsDocument.RemoveRecognisedMembers states the intended removal of every recognised entry. The removal as written is stated by `SettingsDocument.RemoveFirstRecognisedDropsFirst`.
- SettingsDocument.RemovedHasNoRegisteredGuid holds for the intended removal only. As written, a second recognised entry survives (`SettingsDocument.LaterRecognisedEntrySurvives`).
- Settings.ExecuteWriteStoresEachGuidOnce is proved for the intended removal of every recognised entry. As written, a second recognised entry survives the write (see Findings).
- Settings.InstallReadsWhatWasWritten is proved for the intended removal of every recognised entry. As written, a stale entry can be read instead (see Findings).
- LegacySettings.WriteStoresEachGuidOnce is proved for the intended removal of every recognised entry. The older service has the same lazily enumerated removal, so as written a second recognised entry survives (see Findings).
- RoadmapOrder.NameLeTotal is an ordinal comparison of the names. `ThenBy(DisplayName)` uses the current culture's comparer, which can order names differently, and can tie two different names; the stable sort then keeps their input order. The proofs use only that the order is total.
- RoadmapOrder.OrderChanges sorts names ordinally, so for names the culture's comparer orders differently, the model's order differs from the program's. Being a permutation, and the date, kind and level keys, do not depend on this.
- The mini log's text stream carries only inlines. The control subscribes with an `OnNext` handler alone, so Rx rethrows an error of the stream, on the producer or, if the error was queued, out of `OnApplyTemplate` when the gate opens. Errors and completion of the text stream are not modelled.
- `ReplayFirstValuesSubject` with a negative `repeatCount` throws in its constructor. The model takes `repeatCount` as a `nat`.

## Findings

| source | as written | input that shows it | evidently intended | confidence | as-written member | corrected member |
|---|---|---|---|---|---|---|
| AppExtensions/Palladium.AzureDevOps/RoadmapGridAlgorithms.cs:84-94 | one `Auto` row is added per level, while the row offsets advance by each level's maximum overlap | two overlapping iterations on one level: the second gets row 1, but only one row exists (the test at AppExtensions/Palladium.AzureDevOps.Tests/RoadmapGridAlgorithmsTests.cs:144 expects 2) | one row per slot of each level's band, so every row index has a row | not executed | RoadmapGridAlgorithms.AsWrittenGridRowsTooFew | RoadmapGridAlgorithms.CellsInsideGrid |
| AppSource/Palladium.Controls/MiniLog.axaml.cs:26,109-110,124-125 | the readiness signal is a plain subject that completes when the template is applied, so a gate subscribed later never opens | apply the template, then set `TextStream` and push an inline: nothing is shown | the readiness signal replays its value, so a stream bound after the template is applied is shown | not executed | MiniLog.LateTextStreamNeverShown | MiniLog.LateTextStreamShownWhenReadyReplays |
| AppSource/Palladium.Settings/SettingsService.cs:234-237 | the read throws when any open attempt failed, even when a later attempt opened the file | attempt 0 fails and attempt 1 opens the file: the read throws and the view is not installed | retries are meant to recover: throw only when no attempt opened the file | not executed | SettingsDocument.AsWrittenRetryNeverRecovers | SettingsDocument.RetryRecoversWhenLaterAttemptOpens |
| AppSource/Palladium.Settings/SettingsService.cs:193-202 | the recognised entries are removed while the lazy `Where` over the parent's children is still being enumerated; removing the first one ends the enumeration, so only the first recognised entry is removed (`Palladium.Settings/SettingsService.cs` has the same loop) | a file holding entries for registered GUIDs A and then B: after a write the file holds B's old entry, then the new entries for A and B, and reading B gives the old value | every recognised entry is removed, as the comment on line 192 says; `ToList()` before the loop would do it | not executed | SettingsDocument.AsWrittenSecondEntryReadStale | SettingsDocument.ReadAfterWrite |
