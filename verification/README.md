# Verification of the renderer's state machines

A Dafny model of the stateful renderer modules of the terminal client, with proofs of
what they promise. Run `dafny verify dfyconfig.toml`.

- **Conversation store** (`src/aiConversationState.ts`). The bounded store of AI
  conversations per terminal scope: seven calls, each ending in a pass that enforces
  six limits at once. `ConversationModel` has the data and the invariant,
  `ConversationBounds` the five phases of the pass on values, `ConversationEviction`,
  `ConversationPasses` and `ConversationPass` what the phases and the whole pass
  guarantee, `ConversationBudget` how much the caps and the budget take,
  `ConversationStore` and `ConversationRuns` the calls and the drafts they build,
  `ConversationHistory` the theorems over all calls and runs, `ConversationDiscipline`
  what a call may evict, `ConversationThrow` the way to the bound error,
  `ConversationExact` and `ConversationIdle` what each phase takes exactly,
  `ConversationEffects`, `ConversationEdits` and `ConversationSelection` what each call
  does to the store, `ConversationTitles` the derived title, and
  `ConversationDraft` the mutable draft edited in place, proved to do what the values do.
- **Known hosts** (`src/knownHostsUi.ts`). The merge with two first-index maps against
  repeated upserts; `KnownHostRecords` tells what each record holds afterwards.
- **Three protocols against a revision-checked server**: the settings save queue with
  its reloads and the model writer (`SettingsSync`), the connection-log retry
  (`ConnectionLogs`, with what it shows in `ShownCatalog`), and the two crossing selection
  queues (`SelectionQueues`). Each is a transition system over client refs, requests on
  the way and the server, where requests and responses may be delayed, reordered or lost,
  and the refs are also an object whose methods extend such a run.
- **Groups** (`src/groupTree.ts`, `src/groupConfigUi.ts`): path planning (`GroupPaths`),
  what the planners answer (`GroupPlans`), the tree on values (`GroupTree`) and its order
  (`GroupOrder`), the mutable trie that builds it (`GroupTrie`), and inherited defaults
  (`GroupConfig`).
- **Streaming transport, key envelope, command proposals** (`StreamTransport`,
  `KeyBundle`, `CommandProposals`); `CommandFences` tells on characters which lines fence
  a block and which commands are acceptable.

Strings are sequences of Unicode scalar values; byte lengths follow section 3 of
RFC 3629. What the source throws is an error value or a missing result.

Points where the code is narrower than its intent, each with its exact condition:

- The bound error of the conversation store was meant to be unreachable. It is reached
  by an activation that adds a thirteenth scope while the in-flight targets name all
  twelve existing ones, and in no other case (`ActivationThrows`, `OthersNeverThrow`).
  Ordinary calls get there (`ThrowReached`).
- The known-hosts merge was meant to be the fold of upserts. It is, on all catalogues over
  given selectors, if and only if no two of them share a key (`MergeExact`). NUL-free host
  names are enough (`NulFreeIsFaithful`); `NulCollides` and `UnfaithfulKeysMislead` show a
  collision and its result.
- A rename or move was meant to be undone by mapping back. It is if and only if nothing
  outside the source is at or below the new path (`UndoExact`), which holds on sets with
  all their ancestors (`ChangeUndone`) and may fail otherwise (`OpenSetsLoseUndo`).
- The shown connection-log revision was meant to move forward only. It does over every run
  in which no refresh begins while a mutation may still install a list (`QuietIsForward`),
  for which it is enough that no refresh begins under the mutation lock
  (`UnlockedRefreshesForward`). Any other refresh, such as a remount under another
  `refreshKey` can begin, may be followed by a fall (`ExposedFalls`, and both directions in
  `ForwardExactly`): a list, a commit's answer or the refresh itself arrives over something
  newer (`ShownGoesBack`, `SecondListOvertaken`, `FirstListOvertaken`, `AnswerOvertaken`).
  `GoesBackFromTheStart` is one such run.

## Model

| member | source | states |
|---|---|---|
| `ConversationKeys.ScopeKeyInjective` | src/aiConversationState.ts:469-479 | Terminal scopes never share a history: two accepted scopes (none, or route and generation) have the same key exactly when they are equal, even when routes contain colons. |
| `ConversationKeys.TargetKeyInjective` | src/aiConversationState.ts:302-304 | A target key names one scope and one conversation. |
| `ConversationKeys.ProtectionPrefixExact` | src/aiConversationState.ts:409-413 | The `startsWith` test of the scope cap holds for a protected target exactly when the scope is the one it names. |
| `ConversationKeys.TakeUtf8Prefix` | src/aiConversationState.ts:180-191 | The loop returns the longest prefix within the byte budget, the one whose extension by a character would not fit. |
| `ConversationKeys.LongestPrefix` | src/aiConversationState.ts:180-191 | A prefix that fits and cannot grow by one character is the longest one. |
| `ConversationKeys.DerivedTitleIsTitle` | src/aiConversationState.ts:481-496 | A derived title fits 96 bytes, has no outer space and no markup, control or format character, whatever the message and however it normalises. |
| `ConversationTitles.TitleExactly` | src/aiConversationState.ts:481-496 | The title is the words of the message (what stands between white space and markup, without other control and format characters) with single spaces if that fits 96 bytes, and else its longest part that leaves room for an ellipsis. |
| `ConversationEdits.ScopeKeyExactly` | src/aiConversationState.ts:469-479 | A terminal has a key if and only if its route is opaque, its generation a safe integer and the key opaque; the key is route, colon and decimal generation. |
| `ConversationBounds.RemovalMembers` | src/aiConversationState.ts:318-332 | Removing a conversation touches only its scope, and drops that scope when it was the last one in it. |
| `ConversationBounds.BodiesDrop` | src/aiConversationState.ts:456-459 | Deleting one attachment body from the store removes exactly that body from its list of bodies. |
| `ConversationDiscipline.CapTakesOldest` | src/aiConversationState.ts:392-406 | The per-scope cap removes from an overfull scope only conversations that are neither active nor protected, each older than every such one that stays. |
| `ConversationDiscipline.CapTakesOldestScope` | src/aiConversationState.ts:408-421 | The scope cap removes from an overfull store only scopes that are neither active nor protected, each older than every such one that stays. |
| `ConversationEviction.EvictFrom` | src/aiConversationState.ts:425-429 | Text eviction leaves only parts of what was there. |
| `ConversationEviction.EvictSpares` | src/aiConversationState.ts:313-350 | Text eviction keeps the active conversation and every protected target exactly as it was. |
| `ConversationEviction.EvictSettles` | src/aiConversationState.ts:425-429 | Text eviction ends within the budget or with nothing removable, and never changes the active target. |
| `ConversationBudget.EvictExactly` | src/aiConversationState.ts:425-429 | Text eviction takes a removable conversation if and only if the kept text and that of all removable conversations not older than it exceed the budget. |
| `ConversationBudget.CapLeavesEight` | src/aiConversationState.ts:392-405 | The per-scope cap leaves exactly eight of more conversations, and all of fewer. |
| `ConversationBudget.CapLeavesTwelve` | src/aiConversationState.ts:408-421 | The scope cap leaves exactly twelve of more scopes, and all of fewer. |
| `ConversationEviction.EvictOldestFirst` | src/aiConversationState.ts:334-350 | Whole conversations go in increasing `updatedOrder`: an evicted one was removable and older than every removable one that stays. |
| `ConversationEviction.TruncateFits` | src/aiConversationState.ts:434-446 | After truncation the text fits the budget, so the second throw of the pass is unreachable. |
| `ConversationPasses.LeastIsGlobal` | src/aiConversationState.ts:435-441 | The oldest first message of any conversation is the oldest message of the whole store. |
| `ConversationPasses.TruncateOldestFirst` | src/aiConversationState.ts:434-442 | Each truncated message is older than every message that stays, in any conversation. |
| `ConversationExact.TruncateExactly` | src/aiConversationState.ts:434-442 | Truncation takes a message if and only if all titles and all messages not older than it exceed 384 KiB. |
| `ConversationExact.NewestMessagesStay` | src/aiConversationState.ts:384-391 | A conversation keeps its newest 63 messages, or all of fewer. |
| `ConversationPasses.TruncateKeepsNewest` | src/aiConversationState.ts:431-442 | A last message with the newest order is never truncated, however full the store. |
| `ConversationPasses.DropImagesFrame` | src/aiConversationState.ts:448-461 | The image pass changes no message, attachment record or byte of text; only bodies vanish. |
| `ConversationPasses.DropImagesBodies` | src/aiConversationState.ts:451-461 | The image pass on the store is the pass on the list of bodies, and ends within both image limits. |
| `ConversationExact.ImagesExactly` | src/aiConversationState.ts:448-461 | The image pass takes a body if and only if it, the later ones of its message and those of newer messages are more than four or more than 10 MiB. |
| `ConversationExact.ImagesWithinLimits` | src/aiConversationState.ts:452-455 | Up to four bodies of together at most 10 MiB all stay. |
| `ConversationIdle.PassIdle` | src/aiConversationState.ts:382-462 | A store within all limits passes unchanged. |
| `ConversationIdle.PassOnlyCaps` | src/aiConversationState.ts:382-462 | In a store within the message, text and image limits the pass takes what the two caps take and nothing else. |
| `ConversationSelection.PassSelected` | src/aiConversationState.ts:328-331 | Through the whole pass a scope keeps its active conversation while that is there, and then has one used as lately as any. |
| `ConversationPasses.ImagesConserved` | src/aiConversationState.ts:451-461 | Every image body is either retained or discarded, with multiplicity. |
| `ConversationPasses.ImagesOldestFirst` | src/aiConversationState.ts:456-458 | No discarded body belongs to a newer message than a retained one. |
| `ConversationPasses.TwoNewestStay` | src/aiConversationState.ts:448-461 | At least two bodies stay whenever two exist, since each is at most half the total. |
| `ConversationPass.PassDefined` | src/aiConversationState.ts:382-462 | The bound pass throws exactly when there is a thirteenth scope and every scope is active or protected. |
| `ConversationPass.PassBounds` | src/aiConversationState.ts:382-462 | One pass meets all six limits at once, keeps the shape of the store, and leaves only suffixes of histories. |
| `ConversationPass.PassSpares` | src/aiConversationState.ts:382-462 | The active conversation and every protected target survive the whole pass. |
| `ConversationPass.PassKeepsActive` | src/aiConversationState.ts:382-462 | The active scope stays, with the same active conversation. |
| `ConversationPass.PassKeepsNewest` | src/aiConversationState.ts:425-446 | A protected conversation that ends with the newest message of all still ends with it. |
| `ConversationPass.TruncationIsLastResort` | src/aiConversationState.ts:423-442 | Between the phases of a given pass: messages are truncated only once every conversation left by eviction is active or protected. |
| `ConversationDraft.Draft.CapScope` | src/aiConversationState.ts:392-406 | The splice and the loop over one scope are the per-scope cap on values, throw included. |
| `ConversationDraft.Draft.CapConversationLists` | src/aiConversationState.ts:383-406 | The loop over all scopes caps each of them. |
| `ConversationDraft.Draft.CapScopeList` | src/aiConversationState.ts:408-421 | The loop that filters scopes is the scope cap on values, throw included. |
| `ConversationDraft.Draft.EvictConversations` | src/aiConversationState.ts:425-429 | The eviction loop on the draft is text eviction on values. |
| `ConversationDraft.Draft.TruncateMessages` | src/aiConversationState.ts:434-442 | The shifting loop on the draft is truncation on values. |
| `ConversationDraft.Draft.DropImageBodies` | src/aiConversationState.ts:451-461 | The deleting loop on the draft is the image pass on values. |
| `ConversationDraft.Draft.EnforceBounds` | src/aiConversationState.ts:382-462 | The bound pass, run phase by phase on the draft, throws exactly when the pass on values does and otherwise leaves its result. |
| `ConversationDraft.Draft.Finish` | src/aiConversationState.ts:464-467 | Bounding and freezing the draft gives the published state or the throw. |
| `ConversationDraft.Activate` | src/aiConversationState.ts:504-530 | Activation on a draft is the `Activate` call of the store. |
| `ConversationDraft.Create` | src/aiConversationState.ts:532-562 | Creation on a draft is the `Create` call of the store. |
| `ConversationDraft.Switch` | src/aiConversationState.ts:564-587 | Switching on a draft is the `Switch` call of the store. |
| `ConversationDraft.Delete` | src/aiConversationState.ts:589-619 | Deletion on a draft is the `Delete` call of the store. |
| `ConversationDraft.Publish` | src/aiConversationState.ts:708-713 | Stamping, putting back and finishing a rewritten conversation is the commit of that conversation, protected from eviction. |
| `ConversationDraft.Append` | src/aiConversationState.ts:632-714 | Appending on a draft is the `Append` call of the store, validation errors included. |
| `ConversationDraft.Update` | src/aiConversationState.ts:719-771 | Checking and editing one message step by step on a draft is the `Update` call of the store, errors and unchanged messages included. |
| `ConversationDraft.DeleteMessage` | src/aiConversationState.ts:773-799 | Deleting a message on a draft is the `DeleteMessage` call of the store. |
| `ConversationHistory.ApplyInv` | src/aiConversationState.ts:498-799 | Every call that does not throw keeps the invariant: all six limits, unique ids, a resolvable active conversation in every non-empty scope, the active scope present, pairwise distinct orders, and the recorded text size. |
| `ConversationHistory.EveryCallReady` | src/aiConversationState.ts:504-799 | The draft of every call has the shape the bound pass needs: fresh orders, one scope too many at most, caps that can be met, and untouched conversations as they were. |
| `ConversationHistory.FinishInv` | src/aiConversationState.ts:464-467 | A ready draft that finishes without a throw is a state with the full invariant. |
| `ConversationHistory.Run` | src/aiConversationState.ts:498-799 | The invariant holds after any sequence of calls from the empty store. |
| `ConversationHistory.ActivationThrows` | src/aiConversationState.ts:504-530 | Activation reaches the bound error if and only if a new scope would be the thirteenth while the in-flight targets name all twelve existing ones. |
| `ConversationThrow.OpeningAdds` | src/aiConversationState.ts:504-530 | Below the cap, activating a new terminal while every scope has a request in flight adds its scope and evicts none. |
| `ConversationThrow.ThrowReached` | src/aiConversationState.ts:504-530 | A run of calls from the empty store reaches a state and an activation that throws the bound error. |
| `ConversationHistory.OthersNeverThrow` | src/aiConversationState.ts:532-799 | No other call ever reaches the bound error. |
| `ConversationHistory.FewInFlightNeverThrow` | src/aiConversationState.ts:306-311 | While the in-flight targets name fewer than twelve scopes other than the one being activated, no call reaches the bound error. |
| `ConversationHistory.HistoriesOnlyShrink` | src/aiConversationState.ts:382-462 | After a call, every conversation but the one it creates or rewrites in that state was there before, and its messages are a suffix of what they were up to image bodies. |
| `ConversationHistory.DeletedIsGone` | src/aiConversationState.ts:589-619 | A deleted conversation is gone from the result. |
| `ConversationDiscipline.GoneWasOldest` | src/aiConversationState.ts:392-429 | A conversation gone after the whole pass was removable and older than everything removable that stays: in its overfull scope, as part of the oldest removable scope of an overfull store, or in the whole store, where it and all newer text exceed the budget after both caps. |
| `ConversationDiscipline.EvictionTakesOldest` | src/aiConversationState.ts:498-799 | The same from the draft of any accepted call to its result. |
| `ConversationDiscipline.TruncationComesLast` | src/aiConversationState.ts:431-442 | If a call cut messages, beyond those over 63, off a conversation that stays, then every conversation that stays is the active one or protected. |
| `ConversationDiscipline.ImageLossLeavesTwo` | src/aiConversationState.ts:448-461 | If a call took an image body out of a message that stays, at least two bodies stay. |
| `ConversationHistory.AppendKeepsMessage` | src/aiConversationState.ts:690-713 | An accepted append succeeds however full the store was, and the target conversation then ends with that message. |
| `ConversationEffects.ActivateExisting` | src/aiConversationState.ts:504-530 | Activating the active scope changes nothing; activating another existing one makes it active, marks it as used and changes nothing else. |
| `ConversationEffects.ActivateNewEffect` | src/aiConversationState.ts:504-530 | Activating a new scope adds it, active, with one unused conversation; of twelve scopes the oldest without a request in flight goes; nothing else changes. |
| `ConversationEffects.ActivateRefused` | src/aiConversationState.ts:504-530 | An invalid terminal, new conversation id or target in flight throws. |
| `ConversationEffects.CreateNewEffect` | src/aiConversationState.ts:532-562 | Creating in a new scope adds it, active, with the one new conversation; of twelve scopes the oldest goes; nothing else changes. |
| `ConversationEffects.CreateInEffect` | src/aiConversationState.ts:532-562 | Creating in an existing scope adds the conversation and makes both active; of eight conversations the oldest goes; nothing else changes. |
| `ConversationEffects.CreateRefused` | src/aiConversationState.ts:532-562 | An invalid scope key or id, or an id the scope has already, throws. |
| `ConversationEffects.SwitchEffect` | src/aiConversationState.ts:564-587 | Switching makes the conversation and its scope active and marks both as used, or changes nothing if there is no such conversation or it is active already; only a malformed target throws. |
| `ConversationEffects.DeleteEffect` | src/aiConversationState.ts:589-619 | Deleting a conversation next to others takes it out; if it was its scope's active one, one used as lately as any becomes active; nothing else changes. |
| `ConversationEffects.DeleteLastEffect` | src/aiConversationState.ts:589-619 | Deleting the last conversation drops a scope that is not active, and in the active one leaves an unused conversation, for which an invalid id throws. |
| `ConversationEffects.DeleteElse` | src/aiConversationState.ts:589-619 | Deleting a conversation that is not there changes nothing; a malformed target throws. |
| `ConversationEffects.DeleteMessageEffect` | src/aiConversationState.ts:773-799 | Deleting a message takes it out of its conversation; nothing else changes. |
| `ConversationEffects.DeleteMessageElse` | src/aiConversationState.ts:773-799 | Deleting a message that is not there changes nothing; malformed ids throw. |
| `ConversationEdits.InputExactly` | src/aiConversationState.ts:646-688 | Which messages are accepted, told on roles, ids, attachments and tool activity; attachments are stored as given. |
| `ConversationEdits.AppendEffect` | src/aiConversationState.ts:632-714 | Appending a valid message ends its conversation with it and names the conversation after its first user message; within the limits exactly that is published, and beyond them only oldest messages and image bodies of that conversation may go. |
| `ConversationEdits.AppendElse` | src/aiConversationState.ts:632-714 | Appending to no conversation, or a message whose id is known there, changes nothing; an invalid target or message throws. |
| `ConversationEdits.UpdateEffect` | src/aiConversationState.ts:719-770 | A valid update that changes a message puts role, content and tool where given in its place and keeps the rest, its order and every other message; one that changes nothing leaves the store as it is. |
| `ConversationEdits.UpdateShows` | src/aiConversationState.ts:719-770 | After an update every message shown under that id is the edited one, and every other message was there before, up to image bodies. |
| `ConversationEdits.UpdateElse` | src/aiConversationState.ts:719-770 | Updating no message changes nothing; an invalid target, id or change throws. |
| `ConversationEdits.CallImages` | src/aiConversationState.ts:448-461 | Of the messages a call leaves, with the bodies they had, exactly the bodies not in excess stay. |
| `ConversationSelection.EditKeepsSelection` | src/aiConversationState.ts:632-799 | Appending, updating and deleting messages leave every scope its active conversation while that is there, and the store its active scope. |
| `ConversationHistory.ActivationSparesInFlight` | src/aiConversationState.ts:504-530 | Activation keeps every conversation with a request in flight. |
| `KnownHosts.KeyInjective` | src/knownHostsUi.ts:36-37 | Selector keys of NUL-free host names are equal only for equal selectors. |
| `KnownHosts.NulCollides` | src/knownHostsUi.ts:36-37 | With a NUL in a host name two different selectors share a key. |
| `KnownHosts.NulFreeIsFaithful` | src/knownHostsUi.ts:36-37 | NUL-free host names make the selector keys of a catalogue injective, which is all the merge needs. |
| `KnownHosts.UnfaithfulKeysMislead` | src/knownHostsUi.ts:42-48 | Where two selectors differ and their keys collide, merging two such records gives one, and upserting them gives two. |
| `KnownHosts.MergeExact` | src/knownHostsUi.ts:76-131 | The merge and the fold of upserts agree on all catalogues over the selectors of a catalogue if and only if no two of these selectors share a key. |
| `KnownHosts.KeyIndexReplace` | src/knownHostsUi.ts:106-128 | After an id match rewrote a selector, the repair leaves the map holding the least index of every key. |
| `KnownHosts.RepairIndex` | src/knownHostsUi.ts:118-128 | The delete, rescan and lower-index steps turn an index of least positions into one for the changed list. |
| `KnownHosts.IndexesMatch` | src/knownHostsUi.ts:94-97 | Looking in the id map and then in the selector map finds the first record with the id, else the first with the selector key, whatever the keys. |
| `KnownHosts.MatchesAgree` | src/knownHostsUi.ts:50-57 | Over faithful selectors that is exactly the record an upsert refreshes. |
| `KnownHosts.BuildIndexes` | src/knownHostsUi.ts:83-91 | Both maps start with the least index of each id and selector. |
| `KnownHosts.Merge` | src/knownHostsUi.ts:76-131 | On any records the indexed merge is the fold that goes by id and selector key, and throws exactly when that fold exceeds 10,000 entries. |
| `KnownHostRecords.MergeReaches` | src/knownHostsUi.ts:91-95 | An incoming record reaches the first record with its id, else the first with its selector key. |
| `KnownHostRecords.UpsertReaches` | src/knownHostsUi.ts:44-59 | An upsert reaches the first record with its id, else the first with its selector. |
| `KnownHostRecords.MergeTells` | src/knownHostsUi.ts:107-128 | After a merge a record keeps identity and discovery, has host, port, key type, key and sighting of the last record that reached it, the newest fingerprint and order there were, and the oldest conversion. |
| `KnownHostRecords.FoldTells` | src/knownHostsUi.ts:61-73 | So it does after a fold of upserts. |
| `KnownHostRecords.MergeAdds` | src/knownHostsUi.ts:96-105 | A record beyond those that were there is the incoming one that reached none, and tells itself and the records that reached it afterwards. |
| `KnownHosts.FoldsAgree` | src/knownHostsUi.ts:76-131 | Over faithful selectors that fold is the fold of upserts. |
| `KnownHosts.FoldKeepsRecords` | src/knownHostsUi.ts:59-68 | Upserts never move, rename or re-date a record that was there, and never drop a conversion. |
| `KnownHosts.MergeKeepsRecords` | src/knownHostsUi.ts:107-116 | Neither does a merge, whatever the keys. |
| `KnownHosts.FoldKeepsUniqueIds` | src/knownHostsUi.ts:50-57 | Upserts into a catalogue with unique ids keep ids unique. |
| `KnownHosts.MergeKeepsUniqueIds` | src/knownHostsUi.ts:93-104 | So does a merge, whatever the keys. |
| `KnownHosts.SelfMergeAddsNothing` | src/knownHostsUi.ts:50-74 | Importing records whose ids are all known adds nothing, and merge and upserts agree there without any condition on keys. |
| `SettingsSync.SettingsRefs.Patch` | src/SettingsWorkspace.tsx:1591-1600 | Within any run, a patch shows what its save will send, keeps everything queued an extension of what the held revision holds, and leaves no load on its way that could install. |
| `SettingsSync.SettingsRefs.StartSave` | src/SettingsWorkspace.tsx:1600-1605 | The replace a queued save sends extends the content of the revision it expects. |
| `SettingsSync.SettingsRefs.SaveResolved` | src/SettingsWorkspace.tsx:1602-1612 | The snapshot of an accepted save is what was sent, so the shown settings do not change, and the server holds an extension of it. |
| `SettingsSync.SettingsRefs.BeginLoad` | src/SettingsWorkspace.tsx:1543-1546 | A load that begins is newer than every load on its way. |
| `SettingsSync.SettingsRefs.FinishLoad` | src/SettingsWorkspace.tsx:1554-1564 | A load installs if and only if no patch, later load or unmount came since the event that began it; it then extends what was shown with nothing queued or running, and otherwise changes nothing. |
| `SettingsSync.SettingsRefs.ResumeWait` | src/SettingsWorkspace.tsx:1623-1627 | One turn of the waiting loop returns the outcome of the last patch with everything settled, or goes on to a strictly newer tail. |
| `SettingsSync.WaitReturnsSettled` | src/SettingsWorkspace.tsx:1622-1628 | Over every run, a waiter that is back came back at a moment when every patch issued so far had settled, with the outcome of the last of them. |
| `SettingsSync.WaitAdvances` | src/SettingsWorkspace.tsx:1623-1627 | Each further turn awaits a strictly newer tail, the newest there is. |
| `SettingsSync.NextTurnReturns` | src/SettingsWorkspace.tsx:1623-1627 | Waiting ends once patches stop: the turn after a turn returns, whatever else happened in between. |
| `SettingsSync.EveryWaitCanEnd` | src/SettingsWorkspace.tsx:1622-1628 | No waiter is stuck: without a further patch some schedule settles the queue and brings it back. |
| `SettingsSync.StepInv` | src/SettingsWorkspace.tsx:1538-1628 | Every event of client, network, server and second writer keeps the protocol invariant. |
| `SettingsSync.StepExtends` | src/aiModelsApi.ts:114-134 | An accepted replace of either writer extends the mutation history of the content it overwrites. |
| `SettingsSync.NoLostUpdate` | src/SettingsWorkspace.tsx:1591-1620 | Over every interleaving, with lost requests and responses, what the server ever held stays part of what it holds. |
| `SettingsSync.AcknowledgedSavesStay` | src/SettingsWorkspace.tsx:1602-1620 | A save reported as succeeded is in the history of the server ever after. |
| `SettingsSync.LoadInstallsExactly` | src/SettingsWorkspace.tsx:1538-1564 | Over every run, a load that returned installs when it ends if and only if no patch, later load or unmount came since it began; it then shows what the server held when it was read, after it began, and otherwise changes nothing. |
| `SettingsSync.UndisturbedLoadInstalls` | src/SettingsWorkspace.tsx:1538-1564 | A load nothing disturbed can install: with every patch settled and the last one successful, its remaining phases show what the server holds. |
| `SettingsSync.InstallMeansSettled` | src/SettingsWorkspace.tsx:1547-1559 | A load whose end changes anything ends with every patch settled and the last one successful, and drops no mutation that was shown. |
| `SettingsSync.SaveCommits` | src/SettingsWorkspace.tsx:1600-1612 | With nobody in between a save that expects the current revision is committed and settles as succeeded. |
| `SettingsSync.StaleSaveRefused` | src/SettingsWorkspace.tsx:1600-1620 | A save that expects another revision, or none, leaves the server as it is. |
| `SettingsSync.ModelWriterCommits` | src/aiModelsApi.ts:114-134 | With nobody in between the other writer's mutation is committed on top of what the server holds. |
| `ConnectionLogs.CatalogRefs.BeginMutation` | src/ConnectionLogsWorkspace.tsx:675-706 | Within any run, a mutation that gets the lock outdates every refresh on its way, and what it sends at once is its mutation of the revision it expects. |
| `ConnectionLogs.CatalogRefs.ListReturned` | src/ConnectionLogsWorkspace.tsx:691-716 | An awaited list, read when it was asked for or later and returned any time after, is mutated and sent exactly as read, or nothing is sent and the lock is free; a second list is shown if the workspace is there, a first one if nothing was shown. |
| `ConnectionLogs.CatalogRefs.CommitAccepted` | src/ConnectionLogsWorkspace.tsx:703-710 | After an accepted commit the lock is free and the shown list is the mutation of the call on the list before it. |
| `ConnectionLogs.CatalogRefs.BeginRefresh` | src/ConnectionLogsWorkspace.tsx:576-577 | A refresh that begins outdates every earlier one. |
| `ConnectionLogs.CatalogRefs.EndRefresh` | src/ConnectionLogsWorkspace.tsx:588-590 | A refresh installs if and only if the workspace was there and no later refresh, mutation that took the lock or end of the workspace came since the event that began it; it then shows a list the server held, and otherwise changes nothing. |
| `ConnectionLogs.StepInv` | src/ConnectionLogsWorkspace.tsx:669-730 | Every event keeps the protocol invariant. |
| `ConnectionLogs.CommitsAtMostOnce` | src/ConnectionLogsWorkspace.tsx:696-718 | One mutation call writes at most one revision, even when responses are lost or a commit lands after the call gave up. |
| `ConnectionLogs.RefreshInstallsExactly` | src/ConnectionLogsWorkspace.tsx:576-602 | Over every run, a refresh that returned installs when it ends exactly in that case, and then shows what the server held when it was read, after it began. |
| `ConnectionLogs.MutationCommits` | src/ConnectionLogsWorkspace.tsx:675-710 | With nobody in between a mutation of the shown list is committed and shown. |
| `ConnectionLogs.IdleMutation` | src/ConnectionLogsWorkspace.tsx:696-701 | A mutation that changes nothing sends nothing and frees the lock. |
| `ConnectionLogs.MutationRetries` | src/ConnectionLogsWorkspace.tsx:696-717 | If another writer comes first, the refused mutation is applied to that writer's list and committed on top of it. |
| `ConnectionLogs.MutationLists` | src/ConnectionLogsWorkspace.tsx:691-710 | A mutation of a workspace that shows nothing yet is applied to the list it awaits, committed and shown. |
| `ConnectionLogs.CommitsExactMutation` | src/ConnectionLogsWorkspace.tsx:696-706 | What a call writes is its mutation of exactly the list it overwrites. |
| `ConnectionLogs.StaleRefreshNeverInstalls` | src/ConnectionLogsWorkspace.tsx:576-590 | A refresh on its way when a mutation takes the lock never installs its list. |
| `ConnectionLogs.AcceptedIsAuthored` | src/ConnectionLogsWorkspace.tsx:703-708 | The revision an accepted commit reports was written by that call. |
| `ShownCatalog.ShownGoesBack` | src/ConnectionLogsWorkspace.tsx:576-717 | One event takes the shown revision back in three cases and no other: a refresh that nothing newer outdated ends with an older list, an accepted commit is answered over a newer list, or the list a mutation awaited is applied over a newer one. |
| `ShownCatalog.QuietIsForward` | src/ConnectionLogsWorkspace.tsx:576-717 | Over every run in which no refresh begins while a mutation may still install a list, the shown revision never goes back. |
| `ShownCatalog.UnlockedRefreshesForward` | src/ConnectionLogsWorkspace.tsx:576-717 | In particular it never goes back over a run in which no refresh begins under the mutation lock. |
| `ShownCatalog.ExposedFalls` | src/ConnectionLogsWorkspace.tsx:576-717 | From every reachable state in which a mutation may still install a list, a refresh that begins can be followed, with no further refresh beginning, by a fall of the shown revision. |
| `ShownCatalog.ForwardExactly` | src/ConnectionLogsWorkspace.tsx:576-717 | A run is such that no part of it, however it goes on without another refresh, ever takes the shown revision back, if and only if no refresh in it begins while a mutation may still install a list. |
| `ShownCatalog.SecondListOvertaken` | src/ConnectionLogsWorkspace.tsx:714-716 | Wherever a mutation lists again, a refresh begun meanwhile may show a newer list, which the awaited one then replaces. |
| `ShownCatalog.FirstListOvertaken` | src/ConnectionLogsWorkspace.tsx:691-701 | The same of a first list in which the mutation changes nothing. |
| `ShownCatalog.AnswerOvertaken` | src/ConnectionLogsWorkspace.tsx:703-708 | The same of an accepted commit. |
| `ShownCatalog.GoesBackFromTheStart` | src/ConnectionLogsWorkspace.tsx:576-717 | Twelve events from the start after which revision 2 and then revision 1 is shown. |
| `SelectionQueues.SelectionRefs.SelectProvider` | src/aiWorkspace.tsx:1385-1406 | Within any run, a provider selection waits for the last provider selection before it and then for the last model selection before it. |
| `SelectionQueues.SelectionRefs.SelectProviderModel` | src/aiWorkspace.tsx:1424-1447 | A model selection waits for the last model selection before it and then for the last provider selection before it. |
| `SelectionQueues.SelectionRefs.BeginWrite` | src/aiWorkspace.tsx:1389-1391 | When a write begins past its captured tail, everything issued before has settled, nothing issued after has begun, and no other write is under way. |
| `SelectionQueues.SelectionRefs.Settled` | src/aiWorkspace.tsx:1390-1403 | When a write settles, it and everything issued before has settled and no write is under way. |
| `SelectionQueues.CapturedTailsCover` | src/aiWorkspace.tsx:1388-1404 | Once both captured tails have resolved, every selection issued earlier has settled. |
| `SelectionQueues.StepInv` | src/aiWorkspace.tsx:1380-1447 | Every event keeps the invariant: what each selection captured covers what was issued before it. |
| `SelectionQueues.WritesInIssueOrder` | src/aiWorkspace.tsx:1380-1447 | A write of either kind begins only when every selection issued before it has settled. |
| `SelectionQueues.OneWriteAtATime` | src/aiWorkspace.tsx:1380-1447 | No two writes overlap. |
| `SelectionQueues.EveryoneSettles` | src/aiWorkspace.tsx:1380-1447 | From every reachable state some schedule without new selections settles everyone. |
| `SelectionQueues.EveryStepCounts` | src/aiWorkspace.tsx:1380-1447 | Every step but a new selection does one unit of the remaining work, so every such schedule ends. |
| `SelectionQueues.OnlyDoneIsStuck` | src/aiWorkspace.tsx:1380-1447 | No deadlock: a state where nothing but a new selection can happen has everyone settled. |
| `GroupPaths.SegmentsOfJoin` | src/groupTree.ts:63-67 | Joining segments and projecting again gives the segments back. |
| `GroupPlans.SegmentsExactly` | src/groupTree.ts:63-64 | A slash separates, empty parts vanish, and nothing else is interpreted. |
| `GroupPaths.AtOrBelowIsPrefix` | src/groupTree.ts:79-80 | The string prefix test on projected paths is the prefix test on segments. |
| `GroupPaths.RenameIsAccepted` | src/groupTree.ts:214-230 | A successful rename hangs a leaf under the parent of its source, differs from it and collides with nothing. |
| `GroupPaths.MoveIsAccepted` | src/groupTree.ts:232-250 | So does a successful move to the root or an existing parent, which is outside the source. |
| `GroupPaths.ChangeInjective` | src/groupTree.ts:186-197 | A change without collision maps any set of existing paths injectively. |
| `GroupPaths.ChangeLeavesSource` | src/groupTree.ts:186-197 | Nothing is left at or below the old path. |
| `GroupPaths.UndoExact` | src/groupTree.ts:186-197 | Mapping the new path back to the old undoes a change of any set of paths if and only if nothing outside the source is at or below the new path. |
| `GroupPaths.ChangeUndone` | src/groupTree.ts:186-250 | On a set with all its ancestors an accepted change can always be undone. |
| `GroupPaths.ChangeKeepsClosed` | src/groupTree.ts:186-250 | The changed set of paths contains every ancestor again. |
| `GroupPaths.OpenSetsLoseUndo` | src/groupTree.ts:214-230 | On a set without all its ancestors a rename may be accepted that cannot be undone: a family of examples. |
| `GroupPaths.CreationIsNew` | src/groupTree.ts:199-212 | A created path is new, projected, and one leaf under its parent. |
| `GroupPlans.CreationExactly` | src/groupTree.ts:177-212 | Which creations are refused, and why, and where an accepted one comes to, told on segments. |
| `GroupPlans.RenameExactly` | src/groupTree.ts:186-230 | The same of a rename: no source, a bad name, no change, or something at or below the source would come to something existing outside it. |
| `GroupPlans.MoveExactly` | src/groupTree.ts:232-250 | The same of a move: no source, into itself, no change, or such a clash. |
| `GroupTree.InsertAt` | src/groupTree.ts:98-126 | On values, an insertion creates exactly the missing prefixes of its path and marks only its end. |
| `GroupTrie.Trie.Descend` | src/groupTree.ts:102-119 | The loop with its running `children` and `currentPath` creates exactly the missing nodes of the path and ends at its leaf. |
| `GroupTrie.Trie.InsertPath` | src/groupTree.ts:98-126 | The insertion in place changes the trie at every path as the insertion on values does. |
| `GroupTrie.ValuesHold` | src/groupTree.ts:141-158 | Reading the nodes from the roots down finds at every path what the trie holds there. |
| `GroupTrie.OrderByPath` | src/groupTree.ts:137-141 | The loop keeps the last finite order of each projected path. |
| `GroupTrie.BuildGroupTree` | src/groupTree.ts:91-175 | Building through the mutable trie gives the tree that the value definition gives. |
| `GroupTrie.SameFinish` | src/groupTree.ts:141-175 | Two tries that hold the same at every path finish as the same tree, whatever their insertion order. |
| `GroupTree.HostsConserved` | src/groupTree.ts:130-135 | Every host is in exactly one node or in the ungrouped list, which is in input order. |
| `GroupTree.TrieAt` | src/groupTree.ts:98-135 | The trie on values holds exactly the non-empty prefixes of the input, with their marks and hosts. |
| `GroupTree.TrieBelow` | src/groupTree.ts:98-135 | Below every path of the trie are exactly the hosts whose group is at or below it. |
| `GroupTree.FinalizeTotals` | src/groupTree.ts:141-150 | Finalising keeps every host, and the recursive totals count them all. |
| `GroupTree.NodesAreInputPrefixes` | src/groupTree.ts:91-160 | The nodes are exactly the non-empty prefixes of the input paths, each with its name, path, explicit mark, hosts in input order, and the number of hosts at or below it. |
| `GroupTree.LessTrichotomy` | src/groupTree.ts:82-86 | The comparator totally orders siblings. |
| `GroupTree.LessTransitive` | src/groupTree.ts:160-170 | The comparator is transitive. |
| `GroupTree.SiblingsSorted` | src/groupTree.ts:141-170 | At every level siblings are strictly sorted and totals add up. |
| `GroupOrder.SiblingOrder` | src/groupTree.ts:159-170 | At every level ordered siblings come first and by order, and siblings of one order or of none by the UTF-16 code units of their names. |
| `GroupOrder.OrderExactly` | src/groupTree.ts:137-141 | Of several configs that give a path a finite order the last one counts. |
| `GroupTree.TreeUnique` | src/groupTree.ts:141-175 | A finished forest is determined by what it holds at each path. |
| `GroupTree.GroupOrderIrrelevant` | src/groupTree.ts:128-128 | The tree depends on the set of projected explicit groups only; permuting or repeating them gives the identical tree. |
| `GroupConfig.ResolveEffectiveGroupDefaults` | src/groupConfigUi.ts:129-162 | The nested loops leave under every key what the leaf-most override that does not inherit says: absent for clear, the value for set, a hint for a stored secret. |
| `GroupConfig.LeafMostDecides` | src/groupConfigUi.ts:135-160 | An override decides when it does not inherit and every longer prefix of the path does. |
| `GroupConfig.InheritedThroughout` | src/groupConfigUi.ts:135-160 | A key is untouched exactly when every prefix inherits it. |
| `GroupConfig.ParentThenOwn` | src/groupConfigUi.ts:128-162 | A path resolves to the result of its parent changed by its own overrides. |
| `GroupConfig.ResolvesUnique` | src/groupConfigUi.ts:129-162 | The resolution is determined by these decisions. |
| `GroupConfig.EffectExactly` | src/groupConfigUi.ts:142-158 | What an override says: secrets by a word, the proxy and every other default by its state; a proxy is taken whole, another default by its payload. |
| `GroupConfig.LookupExactly` | src/groupConfigUi.ts:133-136 | Of several groups stored under a path the last one counts. |
| `GroupConfig.NormalizeKeepsResolution` | src/groupConfigUi.ts:113-124 | Normalising a path never changes what it resolves to, and is idempotent. |
| `GroupConfig.NormalizeRefuses` | src/groupConfigUi.ts:114-119 | Normalisation refuses exactly the paths without segments and those over 32 KiB. |
| `GroupConfig.OtherGroupsIgnored` | src/groupConfigUi.ts:133-137 | A group stored under a path that is no prefix, or is not normalised, has no effect. |
| `StreamTransport.Transport.OnMessage` | src/aiApi.ts:136-150 | After any events, what was delivered is what was heard before anything ended the stream; a message never answers, and only a malformed one can send the cancel. |
| `StreamTransport.Transport.OnAbort` | src/aiApi.ts:151-151 | After an abort of a pending request exactly one cancel has been sent; after the answer an abort sends none, and it never delivers or answers. |
| `StreamTransport.Transport.OnSettled` | src/aiApi.ts:153-177 | A settlement answers a pending request as the events before it demand, and changes no earlier answer, delivery or cancel. |
| `StreamTransport.Standing` | src/aiApi.ts:112-177 | While a request is pending its flags say what its events say; once answered it is detached. |
| `StreamTransport.EveryRun` | src/aiApi.ts:112-177 | Over every interleaving a request delivers exactly the deltas before any other event, sends one cancel command if and only if it was aborted or broken before it settled, and ends as its trace up to the settlement says. |
| `StreamTransport.AtMostOneCancel` | src/aiApi.ts:129-135 | At most one cancel command is ever sent. |
| `StreamTransport.SettledIsFinal` | src/aiApi.ts:171-176 | Once settled nothing is cancelled, delivered or answered again. |
| `StreamTransport.SilentAfterEnd` | src/aiApi.ts:136-150 | No delta is delivered after a done or malformed message, an abort or the settlement. |
| `StreamTransport.NeverStarted` | src/aiApi.ts:187-198 | A transport that is unavailable or aborted from the start sends and delivers nothing. |
| `KeyBundle.DecodeEncode` | src/managedSshKeyBundle.ts:38-92 | Reading the four lengths and slicing the payload recovers every field, absent and empty optional fields identified. |
| `KeyBundle.EncodeInjective` | src/managedSshKeyBundle.ts:38-92 | Two valid bundles have the same envelope exactly when they differ at most in that identification. |
| `KeyBundle.BigEndianRead` | src/managedSshKeyBundle.ts:74-77 | A length written big-endian anywhere in a buffer reads back as itself. |
| `KeyBundle.EnvelopeLayout` | src/managedSshKeyBundle.ts:65-78 | Magic, version, reserved zeros, flag bits that match their lengths, and fields that tile the envelope. |
| `KeyBundle.WriteHeader` | src/managedSshKeyBundle.ts:62-77 | The header bytes are written at their offsets. |
| `KeyBundle.WriteLengths` | src/managedSshKeyBundle.ts:74-77 | The four lengths are written at 12, 16, 20 and 24. |
| `KeyBundle.WritePayload` | src/managedSshKeyBundle.ts:79-90 | The loop writes the non-empty fields end to end at a moving offset. |
| `KeyBundle.EncodeEnvelope` | src/managedSshKeyBundle.ts:21-92 | The encoder returns the envelope in a fresh buffer, or refuses exactly an empty private key and fields over 4 MiB, 1 MiB, 1 MiB and 64 KiB. |
| `KeyBundle.WithZeroizedBundle` | src/managedSshKeyBundle.ts:99-114 | Staging sees the envelope, its outcome is passed on, and all inputs and the envelope are zero on success and on failure. |
| `KeyBundle.Zeroize` | src/managedSshKeyBundle.ts:108-112 | Every byte of a supplied buffer becomes zero. |
| `CommandProposals.ExtractFindsBlocks` | src/aiCommandProposal.ts:98-139 | The proposals are the first eight acceptable shell-labelled blocks of the text, each from an opening line outside other blocks to the first line that closes it. |
| `CommandProposals.ParseFindsBlocks` | src/aiCommandProposal.ts:106-136 | From any point outside a fence, reading line by line finds the blocks of the remaining lines. |
| `CommandProposals.CommandsAreBlocks` | src/aiCommandProposal.ts:117-124 | A command is the exact lines of such a block and is acceptable: visible, safe and within the byte limit. |
| `CommandProposals.OpeningFound` | src/aiCommandProposal.ts:105-109 | A block starts at the first opening line. |
| `CommandProposals.ClosingFound` | src/aiCommandProposal.ts:111-114 | A block ends at the first line that closes its fence. |
| `CommandProposals.LinesOfJoin` | src/aiCommandProposal.ts:117-117 | Joining the lines of a command loses nothing. |
| `CommandProposals.ProposalFingerprint` | src/aiCommandProposal.ts:77-86 | The loop computes the 32-bit FNV-1a hash of language and command. |
| `CommandProposals.ExtractAiCommandProposals` | src/aiCommandProposal.ts:98-139 | The loop with its fence, its lines, its occurrence map and its early exit computes that extraction. |
| `CommandFences.OpeningExactly` | src/aiCommandProposal.ts:57-68 | A line opens a fence if and only if it is at most three spaces, a maximal run of at least three backticks or tildes, and an info string without a backtick; the fence has that run and the language the info string names. |
| `CommandFences.ClosesExactly` | src/aiCommandProposal.ts:70-75 | A line closes a fence if and only if it is at most three spaces, at least as many copies of the fence's marker as the fence has, and white space. |
| `CommandFences.LanguageExactly` | src/aiCommandProposal.ts:52-55 | The language is the trimmed info string in lower case if that is one of the ten words. |
| `CommandFences.AcceptableExactly` | src/aiCommandProposal.ts:119-122 | A command is acceptable if and only if something in it is visible, no control or format character but tab and line ends is in it, and it fits. |
| `CommandFences.NormalizedExactly` | src/aiCommandProposal.ts:101-101 | No carriage return is left, and a text without one is as it was. |
| `CommandFences.NormalizedReturns` | src/aiCommandProposal.ts:101-101 | A carriage return with or without a line feed becomes one line feed. |
| `CommandFences.JoinOfLines` | src/aiCommandProposal.ts:101-101 | Splitting into lines loses nothing. |
| `CommandFences.FnvVectors` | src/aiCommandProposal.ts:77-86 | The hash has the values published with the algorithm. |
| `CommandFences.HexExactly` | src/aiCommandProposal.ts:85-86 | The digits spell the number, in lower-case hexadecimal. |
| `CommandProposals.StableUnderStreaming` | src/aiCommandProposal.ts:98-139 | The proposals of a text, ids included, are a prefix of those of the text followed by a line feed and anything, even when the text ends in a carriage return. |
| `CommandProposals.NormalizedConcat` | src/aiCommandProposal.ts:101-101 | Line-ending normalisation commutes with a line feed between two texts, absorbing a carriage return before it. |
| `CommandProposals.DistinctIds` | src/aiCommandProposal.ts:124-131 | Ids are pairwise distinct even where fingerprints collide. |
| `CommandProposals.Approvals.Begin` | src/aiCommandProposal.ts:160-161 | The command is sent exactly when no send of the approval is under way or succeeded; otherwise the call is refused. |
| `CommandProposals.Approvals.Settle` | src/aiCommandProposal.ts:163-168 | After a success the approval counts as sent for good; after a failure it may be sent again; other approvals are untouched. |
| `CommandProposals.AtMostOneSend` | src/aiCommandProposal.ts:156-169 | Over every run an approval has at most one send under way or succeeded, and is claimed exactly then. |

## Left out

- User interface: rendering, effects, focus, translation, loading flags and notices.
- Unicode normalisation of titles and locale lower-casing of host names are parameters of
  the functions that use them; fence languages are lower-cased on ASCII, which suffices for
  the ten names.
- Strings with lone UTF-16 surrogates are not represented.
- Random ids (conversations, requests) are arguments of the calls.
- Frozen copies and object identity of states: a call that changes nothing returns an equal
  state, not the same object.
- ConversationDraft.Draft: the draft's fields are reassigned with values; the nested
  conversation and message objects are values, so aliasing between them is not captured.
- GroupTrie.Trie: nodes are cells of one list and refer to each other by position, in place
  of separate heap objects with maps; the list of a node's children is its map's order.
- `sort` is any sort: the comparators are strict total orders on what is sorted, so insertion
  sort and the engine's sort agree. Orders of groups are real numbers.
- Image data is judged by length and alphabet as in section 4 of RFC 4648, not decoded.
- General category Cf is a fixed table of one Unicode version.
- SettingsSync.NoLostUpdate: after a revision conflict the queue may keep failing; the source
  does not promise that it recovers, and no such claim is made.
- `persistAiProviderModel` returning early when the model is unchanged, which sends nothing.
- Rollback of failed optimistic model selections in the workspace.
- ConnectionLogs.CommitsExactMutation: covers the default `replace` commit; clearing unsaved logs
  through its own command is not part of this model.
- StreamTransport.EveryRun: the request payload and errors thrown by the delta callback are not
  modelled; the callback's own actions are events that follow.
- KeyBundle.WithZeroizedBundle: staging is a function of the envelope's bytes, and typed-array views
  that share a buffer are not represented.
- Staging an approval, which only freezes a copy.
- Parsing known-hosts files, key fingerprints, search and display ordering.
- Native commands: vault, keyring, SSH, SFTP and terminal sessions.
