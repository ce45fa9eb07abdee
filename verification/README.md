# A verified model of the s2script core

s2script hosts plugins inside a game server. Under its V8 and engine glue lies bookkeeping that has to be exactly right:
timers, the copying of values between plugins, admission of asynchronous work, subscriptions, entity identity, query
results, configuration files, and the judging of acceptance evidence. This project models that bookkeeping in Dafny and
proves what it is for. Code that changes state step by step is modelled as classes and loops over the same fields, each
proved against a specification function; what the source promises is then proved about the specification, over all
inputs and whole runs.

The components, and what is proved of each:

- **Timers** (`TimerSpec` … `TimerChurn`). `TimerQueue` has all seven of the source's structures: the indexed heap, the target
  multiset, the frame buckets, the ready map, the one-or-many id index, the location map and the sequence counter. Each
  operation is proved to act on `Pending()`, the plain list of the entries in order of insertion. `TimerChurn.MatchesList`
  runs the real queue through any sequence of operations: under a clock that never runs backwards its answers are those of
  the linear list, until the sequence counter is exhausted, and the entries examined are at most the pushes plus the
  drains. `BackwardsClockParts` shows that the condition on the clock is needed once `due_limited` is used, and
  `RunAgreesExactly` says exactly when the two stay in step without it.
- **Strict-copy facade** (`JsValues`, `Contract`, `ContractLaws`, `Accepts`, `Presence`, `Facade`, `FacadeCalls`). `Compile` builds a tree
  of plan nodes, each record node with its own scratch buffer, and the copy that fills those buffers equals a pure copy
  whatever they held before. The pure copy succeeds exactly on the values that conform to the schema, its result is the
  same tree, and copying it again gives it back. That needs the field names of a record to differ, as those
  of a host contract do; `DuplicateKeysLoseAProperty` shows what happens otherwise.
- **Channels and multiplexers** (`Multiplexer`, `ChannelSpec`, `Channels`, `MuxScript`, `Mux`, `Mirror`, `Fanout`,
  `MirrorRuns`). `Channels` refines one flat list of subscriptions. The JavaScript dispatch, for handlers that re-enter it in
  any way, is a fold over the array captured on entry. The version-keyed cache between the two is transparent: over any run
  of mutations and events, with handlers that change the store and raise further events, subscribers see exactly a fan-out
  from the flat list.
- **Admission** (`Ledger`, `Admission`, `LeaseRuns`, `Jobs`, `JobRuns`, `FrameTurns`). Gauges are the sums over a book of live
  leases, and over any run of leases, and of jobs with their two leases each, admission answers as adding them up would;
  jobs are all-or-nothing and keep their failure reservation; frames alternate between the two kinds of work. A lease keeps
  its owner's entry exactly if it has an item (`LeaseRuns.KeptExactly`); the leases of a job have one.
- **Entity books** (`EntitySpec`, `EntityBooks`). A flat array mirrors a map, and no (index, host id) pair that stopped being
  live is ever live again.
- **Results and text** (`Utf8`, `DbResults`). The size of a lossy conversion is known before it is made, and the memory a query
  result holds never exceeds what has been charged for it, at any moment. Exactly when a query is answered in full is stated too.
- **Convar queries** (`ConvarSpec`, `Convars`, `ConvarTrace`, `ConvarRuns`). Pending queries and their subscriptions stay paired.
  What every operation does is stated exactly, and of any run of them: how a query can leave, that an answer called back is
  that of a matching reply, and that such a reply is never replaced by another outcome.
- **Configuration** (`Decimals`, `Floats`, `Json`, `JsonRoundTrip`, `ConfigText`, `Config`, `ConfigRoundTrip`). A JSON printer and parser,
  the comment stripper, the merger and the generator; the generated file read back as the override changes nothing.
- **Acceptance judge** (`JudgeSpec`, `Judge`, `JudgeReading`). The judge over a sequence of records computes a verdict of their
  set, with its laws of permanence, and a suite passes exactly if each required check is proved.

`Options` and `OrderedMap` are shared helpers.

## Model

| member | source | states |
|---|---|---|
| TimerQueues.TimerQueue.constructor | core/src/async_rt.rs:138-148 | A new queue is valid and has nothing pending. |
| TimerQueues.TimerQueue.Push | core/src/async_rt.rs:150-195 | The entry is appended to the pending list under a sequence number of its own; refused exactly when the 64-bit sequence counter is exhausted, and then nothing changes. |
| TimerQueues.TimerQueue.Len | core/src/async_rt.rs:197-199 | The number of locations is the number of pending entries. |
| TimerQueues.TimerQueue.Remove | core/src/async_rt.rs:207-230 | Every entry of the id goes and no other, in whichever structure it is stored; the answer says whether there was one. No lookup in the location index fails. |
| TimerQueues.TimerQueue.Due | core/src/async_rt.rs:232-268 | Returns the ids of exactly the ready and due entries in order of insertion, keeps exactly the others, and examines the entries it moves plus one look at a deadline ahead. |
| TimerQueues.TimerQueue.DueLimited | core/src/async_rt.rs:275-303 | Marks everything due as ready, returns the first `limit` ready entries in order of insertion and keeps the rest; a limit of zero changes nothing. |
| TimerQueues.TimerQueue.CollectEligible | core/src/async_rt.rs:233-249 | Takes exactly the eligible entries out of heap, buckets and ready map, each once. |
| TimerQueues.TimerQueue.Release | core/src/async_rt.rs:254-267 | Forgets the locations and ids of the drained entries, wholesale when everything was drained, and answers their ids in the order given. |
| TimerQueues.TimerQueue.MarkEligible | core/src/async_rt.rs:280-292 | Moves exactly the due entries to the ready map with their locations. |
| TimerQueues.TimerQueue.PopReadyTimers | core/src/async_rt.rs:294-303 | Takes the first ready entries in order of insertion, at most the limit, from the ready map, the locations and the id index. |
| TimerQueues.TimerQueue.RemoveFromLocation | core/src/async_rt.rs:305-328 | The entry leaves the structure its location names; the heap, targets, buckets, ready map and locations stay exact for the others. |
| TimerQueues.TimerQueue.UnlinkIdSequence | core/src/async_rt.rs:329-348 | The id index stays exact for the remaining entries, with one, many or no sequences left. |
| TimerQueues.TimerQueue.TakeDueDeadlines | core/src/async_rt.rs:349-370 | Takes exactly the due deadlines, by the bulk path or one root at a time, and counts one look at a deadline ahead. |
| TimerQueues.TimerQueue.TakeDueFrames | core/src/async_rt.rs:372-390 | Takes exactly the entries of the frame buckets at or before the frame. |
| TimerQueues.TimerQueue.SwapDeadlines | core/src/async_rt.rs:396-405 | Exchanges two heap entries and their locations and leaves every other location alone. |
| TimerQueues.TimerQueue.SiftDeadlineUp | core/src/async_rt.rs:406-416 | Restores heap order when one entry may precede its parent; the same entries, with their locations. |
| TimerQueues.TimerQueue.SiftDeadlineDown | core/src/async_rt.rs:417-438 | Restores heap order when one entry may follow its children; the same entries, with their locations. |
| TimerQueues.TimerQueue.RemoveDeadlineAt | core/src/async_rt.rs:439-476 | Removes exactly the entry at an arbitrary index; order, target multiset and locations hold for the rest. |
| TimerHeap.RootIsLeast | core/src/async_rt.rs:360-369 | In a heap-ordered sequence no entry precedes the root. |
| TimerHeap.SwapUp | core/src/async_rt.rs:406-416 | One step of sifting up moves the only possible violation to the parent. |
| TimerHeap.SwapDown | core/src/async_rt.rs:417-438 | One step of sifting down, with the lesser child, moves the only possible violation to that child. |
| TimerHeap.HoldsPlucked | core/src/async_rt.rs:439-476 | After the last entry fills the gap, every remaining entry is still stored exactly where its location says. |
| TimerHeap.CountedPermuted | core/src/async_rt.rs:396-405 | The target multiset does not depend on the order of the heap. |
| TimerHeap.BulkTaken | core/src/async_rt.rs:350-358 | If every target counted is due, the whole heap is exactly the due deadlines: the bulk path is justified. |
| TimerHeap.RestNotDue | core/src/async_rt.rs:360-369 | When the root is not due, or the heap is empty, exactly the due deadlines have been taken. |
| TimerHeap.IndexedUnlink | core/src/async_rt.rs:329-348 | Removing one sequence from the id index gives the index of the remaining entries. |
| TimerListing.SortedUnique | core/src/async_rt.rs:121-135 | Two lists in order of insertion with the same entries are equal, so order is decided by sequence numbers alone. |
| TimerListing.ListingUnique | core/src/async_rt.rs:121-135 | The pending list of a book of entries is the only list of them in order of insertion. |
| TimerListing.PopReady | core/src/async_rt.rs:294-303 | Popping the least ready sequence and going on is taking a prefix of the ready entries. |
| TimerPairs.SortBySequence | core/src/async_rt.rs:250-252 | Sorting the collected pairs gives the same pairs in order of sequence. |
| TimerPairs.CollectedFresh | core/src/async_rt.rs:233-249 | The deadlines and frames collected are together exactly the entries that are due and not yet ready, with no overlap. |
| TimerRuns.StepAgrees | core/src/async_rt.rs:557-596 | One operation of the queue answers as the linear list does and leaves the same timers in the same order, when the clock does not go back. |
| TimerRuns.RunAgrees | core/src/async_rt.rs:684-735 | Over every run with a nondecreasing clock all answers are those of the linear list: ids, order, booleans and length. |
| TimerRuns.StepAgreesExactly | core/src/async_rt.rs:150-303 | For one operation at any time: queue and linear list hold the same timers afterwards exactly when, in the pending list before it, no timer left ready that is no longer due is within the drain's reach; then the answers agree too. |
| TimerRuns.TakenDueExactly | core/src/async_rt.rs:275-303 | A limited drain returns only timers that are due exactly if every ready timer that is no longer due has at least `limit` eligible ones ahead of it. |
| TimerRuns.RunAgreesExactly | core/src/async_rt.rs:557-596 | Over any run, whatever the clock does: the two stay in step exactly when that holds before every drain, and then all answers agree. |
| TimerRuns.BackwardsClockParts | core/src/async_rt.rs:275-303 | Some run with a clock that goes back gets an answer the linear list would not give: entries marked ready stay ready. |
| TimerRuns.LimitedTakesFirst | core/src/async_rt.rs:275-303 | A limited drain returns the first `n` of what an unlimited one would. |
| TimerRuns.LimitSplits | core/src/async_rt.rs:275-303 | Two limited drains at one time give the same ids in the same order, and leave the same queue, as one with the sum of the limits. |
| TimerRuns.NoStarvation | core/src/async_rt.rs:275-303 | An eligible timer with `k` older entries is returned by drain number `k / limit + 1` at the latest, whatever is pushed in between, unless it is cancelled. |
| TimerRuns.WorkBounded | core/src/async_rt.rs:898-906 | Over every run, entries examined plus entries not yet eligible are at most those at the start plus pushes plus drains. |
| TimerRuns.NextCountsPushes | core/src/async_rt.rs:150-155 | The sequence counter counts the pushes. |
| TimerRuns.ScanNext | core/src/async_rt.rs:232-249 | A drain takes a timer exactly if its deadline is not after now or its frame not after the present one; what is taken and what stays both keep their order. |
| TimerRuns.LimitedCount | core/src/async_rt.rs:275-303 | A limited drain takes as many timers as are due, up to the limit. |
| TimerRuns.CancelExactly | core/src/async_rt.rs:207-230 | A cancellation takes the timers of its id and no others, and answers whether there was one. |
| TimerRuns.VisitsNext | core/src/async_rt.rs:349-390 | The entries a drain examines: each that becomes ready now, and one for all the deadlines that are still ahead. |
| TimerChurn.Perform | core/src/async_rt.rs:150-303 | Each operation of the real queue has the answer, the pending list and the work of the specification; only a push with an exhausted counter is refused. |
| TimerChurn.MatchesList | core/src/async_rt.rs:684-735 | The real queue through any run of operations, asking its length included, answers as the linear list; it stops only at a push after 2^64 - 1 others; the entries examined are exactly those of the specified run, and never exceed pushes plus drains. |
| Facade.Compile | core/js/prelude.js:65-88 | Every schema compiles to a plan tree that is its own, with disjoint scratch buffers in its record nodes. |
| Facade.BuildAssembles | core/js/prelude.js:188-196 | Building from the scratch values and the presence mask gives exactly the fields that were present, with the values copied for them. |
| Facade.CopyValue | core/js/prelude.js:120-181 | The copy that writes into scratch buffers returns what the pure copy returns, whatever the buffers held before. |
| Facade.CopyList | core/js/prelude.js:136-149 | The array case of it, element by element. |
| Facade.CopyFieldsOf | core/js/prelude.js:150-172 | The record case of it: earlier contents of the scratch buffer never reach the result, and both mask encodings record the fields present. |
| Facade.CopyOne | core/js/prelude.js:156-169 | One field of it: absent if it may be, copied, or the failure of the record. |
| Presence.MaskAgrees | core/js/prelude.js:154-168 | A bit mask of up to 30 fields and a string mask of more both say of each field whether it was present. |
| ContractLaws.CheckIffConforms | core/js/prelude.js:105-117 | The check of a primitive schema accepts exactly the conforming values. |
| ContractLaws.Accepted | core/js/prelude.js:118-181 | The copy succeeds exactly for the values that conform: exact key set, dense arrays, finite numbers, well-formed strings, entity references in range, own data properties only, depth at most 64. |
| ContractLaws.CopyFaithful | core/js/prelude.js:118-181 | A copy is the same tree as the value, in the prototypes of the copying realm. |
| ContractLaws.CopyByTree | core/js/prelude.js:118-181 | Copying depends on the tree of a value only: two values that are the same tree, each in its own realm, copy alike. |
| ContractLaws.CopyOfCopy | core/js/prelude.js:118-181 | Copying a copy gives what copying the original gives, and into its own realm gives it back. |
| ContractLaws.DuplicateKeysLoseAProperty | core/js/prelude.js:154-171 | With a field declared twice, a value with an undeclared property is accepted and its copy is another tree. |
| Accepts.WellFormedExactly | core/js/prelude.js:110 | A string is well formed exactly if its leading and trailing surrogates are paired. |
| Accepts.BasicExactly | core/js/prelude.js:104-137 | What each basic kind takes, to a depth of 64: finite numbers, well-formed strings, references with an index of 31 bits and an id of 53 and nothing else; a reference is made anew in the destination, anything else is its own copy. |
| Accepts.LiteralExactly | core/js/prelude.js:111 | A literal takes itself alone; the two zeros are one number and NaN is none. |
| Accepts.ArrayCopied | core/js/prelude.js:138-151 | The copy of an array is a plain array that has at each index the copy of what was there, one level down. |
| Accepts.RecordCopied | core/js/prelude.js:152-178 | The copy of a record is a plain object with the same keys, each with the copy of what was there by the schema of that field, one level down. |
| Accepts.UnionCopied | core/js/prelude.js:179-184 | A union copies by its first variant that accepts. |
| FacadeCalls.CopyArgs | core/js/prelude.js:215-257 | The arguments passed on are the copies of the arguments given, one level down, or the call is refused. |
| FacadeCalls.Invoke | core/js/prelude.js:239-271 | Through any nesting of calls the depth counter is restored however the producer ends; exactly the calls that pass the refusals enter a producer, in order, at depth 32 at most and with copied arguments in the declared number; and the answer is that of the pure copies. |
| FacadeCalls.Enter | core/js/prelude.js:241-256 | A call is refused without a plan, at the depth limit, with a wrong number of arguments or with one that does not conform, in that order; otherwise its copied arguments go on. |
| FacadeCalls.LogWellEntered | core/js/prelude.js:245-260 | Whatever the producers call in turn, every producer entered is below the caller in depth, at depth 32 at most, with copies of as many arguments as its method takes. |
| FacadeCalls.Finish | core/js/prelude.js:223-238 | The order of outcomes: producer gone, producer threw, nothing returned, thenable, result that does not conform, copied result. |
| FacadeCalls.ReceivedConforms | core/js/prelude.js:215-220 | Each argument a producer receives is the one sent, as a tree, and conforms to its contract in the producer's realm, as it did in the caller's. |
| FacadeCalls.RefusedExactly | core/js/prelude.js:246-257 | A call is refused exactly without a method, at depth 32, with too few or too many arguments or with one that does not conform, and the caller is told which; nothing is entered. |
| FacadeCalls.AnsweredExactly | core/js/prelude.js:223-238 | The caller of a call let in gets a value exactly if the producer is still bound, did not throw, and returned nothing where nothing is due or a conforming value that is no thenable; otherwise it is told which of the three went wrong. |
| FacadeCalls.ResultConforms | core/js/prelude.js:235-237 | A value the caller gets is the one returned, as a tree, and conforms to the result in the caller's own realm. |
| FacadeCalls.EntersOnce | core/js/prelude.js:259-269 | A producer let in is entered once, one level down with its copied arguments, before the producers it calls in turn. |
| Multiplexer.Descriptor.Subscribe | core/src/multiplexer.rs:98-109 | The subscription is placed by priority and then registration, under an id never used before and a newer version; the detour is asked for by the first. |
| Multiplexer.Descriptor.RemoveByOwner | core/src/multiplexer.rs:113-126 | Exactly the owner's subscriptions go; the detour is given up exactly when the last enabled one does. |
| Multiplexer.Descriptor.Unsubscribe | core/src/multiplexer.rs:128-136 | Exactly the subscription of the id goes, if there is one. |
| Multiplexer.Descriptor.ApplyErrors | core/src/multiplexer.rs:145-162 | Errors are counted on enabled subscriptions, and the limit disables; an unchanged version means unchanged snapshots. |
| Multiplexer.PlaceOrdered | core/src/multiplexer.rs:98-109 | Insertion keeps priority order with registration order within a priority, and ids unique. |
| Multiplexer.ErrorsCounted | core/src/multiplexer.rs:145-162 | After any list of errors each subscription has its old count plus its occurrences, up to the limit, and is enabled exactly below the limit. |
| Multiplexer.NothingDisabled | core/src/multiplexer.rs:145-162 | If the number of enabled subscriptions stays the same, so does every snapshot: the version need not move. |
| Multiplexer.RunChain | core/src/multiplexer.rs:59-79 | The chain calls exactly the subscribers not stopped before, collapses their answers and reports those that failed in order. |
| Multiplexer.CollapsedIsMaximum | core/src/multiplexer.rs:59-79 | The collapsed result is the most severe answer of a called subscriber that is not a monitor, or Continue. |
| Multiplexer.DispatchOrder | core/src/multiplexer.rs:98-109 | High comes before normal, normal before low and low before monitor, and within one priority the earlier registered first. |
| Multiplexer.DetourFollows | core/src/multiplexer.rs:98-162 | The detour is in place exactly while some subscription is enabled, and a change is asked for only when there is one to make. |
| Multiplexer.TenErrorsDisable | core/src/multiplexer.rs:145-162 | A handler without errors is switched off by the tenth report and by no fewer. |
| Multiplexer.SnapshotAppend | core/src/multiplexer.rs:166-171 | A snapshot has the enabled subscriptions of its phase, in order, and no others. |
| Multiplexer.CalledExactly | core/src/multiplexer.rs:59-79 | Called are every monitor, and the others up to the first of them that answers Stop. |
| ChannelSpec.Thinned | core/src/channels.rs:77-133 | Removing by one test from the descriptors and from the reverse index keeps both exact for the thinned flat list. |
| ChannelSpec.Added | core/src/channels.rs:49-60 | Adding to a descriptor and to the reverse index keeps both exact for the list with the entry at its end. |
| ChannelSpec.EmptiedOnce | core/src/channels.rs:77-110 | The channels reported as emptied by a removal are exactly those that lost their last subscription, each once. |
| ChannelStore.Channels.constructor | core/src/channels.rs:42-44 | A new store has no subscription and a version of its own. |
| ChannelStore.Channels.Subscribe | core/src/channels.rs:49-60 | Adds to descriptor, index and flat list; true exactly for the first subscription of the channel; the store goes on representing a list of subscriptions exactly when the id was not live. |
| ChannelStore.ReusedIdLost | core/src/channels.rs:49-60 | After a live id is given away again no list of subscriptions fits the descriptors and the index. |
| ChannelStore.Channels.RemoveByOwner | core/src/channels.rs:77-92 | Removes exactly the owner's subscriptions and returns exactly the channels that became empty, each once. |
| ChannelStore.Channels.RemoveOne | core/src/channels.rs:99-110 | One id of a removal: its subscription and its reverse entry go, and an emptied channel with them. |
| ChannelStore.Channels.RemoveByIds | core/src/channels.rs:96-112 | Removes exactly the listed subscriptions, with unknown and repeated ids ignored, and returns exactly the channels that became empty. |
| ChannelStore.Channels.RemoveByOwnerOn | core/src/channels.rs:115-126 | Removes the owner's subscriptions of one channel; true exactly if the channel became empty. |
| ChannelStore.Channels.RemoveByName | core/src/channels.rs:129-133 | Removes exactly the channel's subscriptions and their reverse entries. |
| ChannelStore.Channels.Rename | core/src/channels.rs:139-157 | Moves the subscriptions behind those of the target, with their ids still disposable; nothing happens for equal names or a missing source. |
| ChannelStore.Channels.SnapshotOn | core/src/channels.rs:64-73 | The owners, generations and handlers of the channel in order of the flat list. |
| ChannelStore.Channels.HasSubscribers | core/src/channels.rs:165-167 | True exactly if the flat list has an entry on the channel. |
| ChannelStore.Channels.IsEmpty | core/src/channels.rs:171-173 | True exactly if the flat list is empty. |
| ChannelStore.OwnerRemoved | core/src/channels.rs:77-92 | The descriptors and index left by an owner's removal represent the list without the owner. |
| ChannelStore.IdRemoved | core/src/channels.rs:99-110 | The descriptor and index left by one disposal represent the list without that id. |
| ChannelStore.RenameAppends | core/src/channels.rs:139-157 | A renamed channel's subscriptions come after the target's own, in order; other channels are unchanged and no subscription is lost. |
| ChannelStore.RenameDone | core/src/channels.rs:144-156 | Rekeying every entry through the remap table equals rekeying one subscription after another, and the final clean-up drops nothing. |
| MuxScript.CodesAreExact | core/js/mux.js:99-104 | A number counts as result code 1 to 3 exactly if it is finite and its integer part is that code modulo 2^32. |
| MuxScript.WalkIsFold | core/js/mux.js:64-107 | From any position, the rest of a walk gives the collapsed result of the positions reached, and at its own depth the turns of the captured array, whatever handlers do to the channels. |
| MuxScript.DispatchIsFold | core/js/mux.js:64-107 | A dispatch offers the event to the array captured on entry, in order, up to the first point where the result cuts it off, and returns the collapsed result. |
| MuxScript.CollapseIsMaximum | core/js/mux.js:60-107 | The result is the maximum of the codes gained, and zero if there is none. |
| MuxScript.ReachExactly | core/js/mux.js:69 | A subscriber is offered the event exactly if no one before it contributed 3, in the mode that stops at Stop, or 2 or 3, in the mode that stops at Handled; in the third mode always. |
| MuxScript.GainExactly | core/js/mux.js:99-104 | A subscriber contributes the code of the number it returned exactly if it was let in and returns count. |
| MuxScript.FrameCodeExactly | core/js/mux.js:133-145 | A frame handler answers the code of its number or of what its value converts to, and 0 for anything else. |
| MuxScript.TurnExactly | core/js/mux.js:71-98 | A subscriber offered the event is called exactly if it is let in, and reported exactly if it then throws. |
| MuxScript.TurnStaysAbove | core/js/mux.js:64-107 | Whatever a handler fires re-entrantly stays below its own dispatch in the log: it cannot add to or remove from the turns of the event being walked. |
| MuxScript.FrameIsChain | core/js/mux.js:109-150 | The frame loop keeps, at every position, the result, the stop and the errors of the Rust chain. |
| MuxScript.FrameRunsChain | core/js/mux.js:109-150 | A game frame has the result and the errored ids of `run_chain` over the array captured on entry. |
| MuxRealm.Mux.Set | core/js/mux.js:30-37 | The channel gets a new array; an array being walked is not touched. |
| MuxRealm.Mux.Drop | core/js/mux.js:39-41 | Exactly the named channels lose their arrays. |
| MuxRealm.Mux.Dispatch | core/js/mux.js:64-107 | The loop over the live heap of arrays, with re-entrant handlers, is the specified walk. |
| MuxRealm.Mux.Act | core/js/mux.js:72-98 | What a handler does re-entrantly, action after action. |
| MuxRealm.Mux.DispatchFrame | core/js/mux.js:113-150 | The frame loop over the live heap is the specified chain. |
| MuxMirror.MutationKeepsCoherent | core/src/jsmux.rs:440-447 | A mutation takes a newer version, so it cannot make a stale array look current. |
| MuxMirror.Mirror.Push | core/src/jsmux.rs:447-494 | The array set shows the store's snapshot, ids and monitors included, with each owner's payload class, and is recorded complete exactly if no live subscriber still lacks its class. |
| MuxMirror.Mirror.Sync | core/src/jsmux.rs:443-496 | On return the channel's array is current and no stale array is left; a complete array at the present version is not rebuilt, and any other is. |
| MuxMirror.Mirror.Prune | core/src/jsmux.rs:505-532 | Drops exactly the arrays pushed at another version. |
| MuxMirror.Mirror.Open | core/src/jsmux.rs:317-341 | An event finds the array of the store's present snapshot; it is put off when the host is busy; with nobody subscribed it only prunes; the cache stays coherent. |
| MuxMirror.FrameRunsSnapshot | core/src/v8host.rs:6223-6234 | A frame over an array pushed from the frame store's snapshot has the result and the errored ids of `run_chain` over that snapshot. |
| MuxMirror.ShowsExactly | core/src/jsmux.rs:462-482 | An array shows a snapshot exactly if it has the same subscribers in the same order, with owner, handler, id and monitor flag. |
| MuxMirror.CompleteExactly | core/src/jsmux.rs:444-461 | An array is complete exactly if no live subscriber is without the payload class it needs. |
| MirrorRuns.Step | core/src/jsmux.rs:440-447 | A mutation of the store leaves the cache coherent without touching it. |
| MirrorRuns.Cross | core/src/jsmux.rs:317-341 | One event, with handlers that change the store and raise further events: result, delivery, log and store are those of a fan-out from the snapshot at its start, and the cache is coherent with the store on return. |
| MirrorRuns.WalkOver | core/js/mux.js:64-107 | The walk over the captured array is the fan-out's, whatever handlers do to store and cache. |
| MirrorRuns.Act | core/src/jsmux.rs:317-341 | What a handler does, mutations and events in any order, is what the fan-out says. |
| Fanout.FanOutIsFold | core/src/jsmux.rs:317-341 | An event goes to the snapshot at its start, in order, up to the first point where the result cuts it off, whatever its handlers do to the store and whatever they raise. |
| Fanout.FanTurnStaysAbove | core/src/jsmux.rs:317-341 | Nothing a handler brings about is logged at or below the depth of its own event. |
| MirrorRuns.Run | core/src/jsmux.rs:317-341 | From new objects, any run of mutations and events nested in any way gives the store, the log and the ids of the fan-out from the flat list, and leaves the cache coherent. |
| Fanout.AppliedBelow | core/src/channels.rs:49-60 | With ids handed out in ascending order, each subscription has a fresh id over every run. |
| Fanout.AppliedExactly | core/src/channels.rs:49-166 | Which subscriptions each operation leaves: those it does not name, plus the new one, or those moved with their id, owner and handler. |
| Fanout.FanOutDeferred | core/src/jsmux.rs:317-341 | An event is put off exactly if somebody is subscribed and the host is busy, and then nothing changes. |
| MirrorRuns.BareExactly | core/src/jsmux.rs:462-482 | Logs are compared by what happened, at what depth and to which subscriber; only the payload class is left aside. |
| Ledger.Granted | core/src/async_limits.rs:58-92 | A grant within the four limits keeps the gauges equal to the sums over the live leases. |
| Ledger.Followed | core/src/async_limits.rs:97-111 | Changing one lease and the gauges with it keeps the books balanced, as long as an owner's entry has a lease. |
| Ledger.LeaseCounted | core/src/async_limits.rs:97-111 | A live lease is covered by its owner's gauge and the total, so no subtraction underflows; one that holds anything has its owner's entry. |
| Ledger.SinglesSums | core/src/async_limits.rs:301-343 | With one item a lease and its bytes within bounds, total bytes are within the same bounds times the total items. |
| Ledger.EntryHasItem | core/src/async_limits.rs:97-111 | With one item a lease, an owner in the table has an item. |
| Ledger.EntryIffLease | core/src/async_limits.rs:97-111 | When every live lease holds an item, the owner table has exactly the owners of live leases. |
| Ledger.RoomExactly | core/src/async_limits.rs:58-82 | A request fits exactly if, by adding up the live leases, all of them with it are within the global limits and the owner's own with it within the owner's limits. |
| Ledger.NewOwner | core/src/async_limits.rs:69-82 | An owner without a live lease is granted what is within its limits while the totals have room, whatever other owners hold. |
| Admission.Budget.Acquire | core/src/async_limits.rs:58-92 | Granted exactly if, by adding up the live leases, the four limits allow, the owner's by its own leases; refused without change except the counter, as too large exactly if the request alone exceeds a limit. |
| Admission.Lease.Entered | core/src/async_limits.rs:97-111 | A live lease is within both gauges, and its owner is in the table if it holds anything. |
| Admission.Lease.Drop | core/src/async_limits.rs:97-111 | Returns exactly what the lease holds; the owner's entry goes when nothing is left of it. |
| Admission.Lease.Shrink | core/src/async_limits.rs:438-445 | Gives back the bytes asked for, at most those held, to lease, owner and total alike. |
| Admission.Lease.Grow | core/src/async_limits.rs:432-437 | Grows exactly if the limits allow the bytes alone; otherwise nothing changes and the error is that of an acquisition. |
| Admission.ZeroItemLease | core/src/async_limits.rs:97-111 | A run of the operations that leaves a live lease of no items whose owner is not in the table. |
| LeaseRuns.KeptExactly | core/src/async_limits.rs:97-111 | Whatever the limits, a lease alone in its budget keeps its owner's entry through every run of its own growing and shrinking exactly if it has an item. |
| LeaseRuns.RunOwn | core/src/async_limits.rs:432-445 | The real lease through any such run has lost the entry exactly when that run says so. |
| LeaseRuns.Perform | core/src/async_limits.rs:58-111 | With leases that hold items, every operation of any lease succeeds in its look-ups and answers as admission by adding up the live leases would. |
| LeaseRuns.Run | core/src/async_limits.rs:58-111 | Over any run of acquiring, growing, shrinking and dropping from an empty budget: all answers, the live leases and the gauges are those of adding up the live leases, and the owner table has exactly their owners. |
| LeaseRuns.GrantedExactly | core/src/async_limits.rs:58-92 | In any state an acquisition is granted, and a lease grows, exactly if there is room by the live leases; each is too large exactly if it exceeds a limit by itself. |
| LeaseRuns.SumsFollow | core/src/async_limits.rs:58-111 | What each operation adds to the sums over the live leases and what it takes from them. |
| Jobs.Domain.constructor | core/src/async_limits.rs:301-343 | Under a validated policy the two job budgets start empty with their limits. |
| Jobs.Domain.Job | core/src/async_limits.rs:344-360 | All or nothing: granted exactly if the item limit, the input budget and the result capacity allow; otherwise both budgets are as before, and the error is too large exactly if no free capacity could help. |
| Jobs.Domain.Complete | core/src/async_limits.rs:348-360 | With the input admitted, the failure reservation completes the job or its refusal gives the input back. |
| Jobs.Domain.ResultRoom | core/src/async_limits.rs:209-262 | The result budget refuses a failure reservation only for want of bytes, and never when no result is above its reservation. |
| Jobs.Domain.NeverRefusedByResults | core/src/async_limits.rs:209-262 | When no result is above its reservation, a job that the input budget admits is never refused for want of result capacity. |
| Jobs.JobLease.Bounds | core/src/async_limits.rs:397-403 | A live job retains at least its failure reservation, its input is within the item limit, and both owners are in their tables. |
| Jobs.JobLease.Grow | core/src/async_limits.rs:406-411 | A result grows exactly if the job is not cancelled and the result capacity allows; otherwise the error says cancelled, too large for an empty budget, or full. |
| Jobs.JobLease.InputGrow | core/src/async_limits.rs:415-425 | Input beyond the item limit is too large before the budget is asked; otherwise the budget decides, and the error is the budget's. |
| Jobs.JobLease.DiscardResult | core/src/async_limits.rs:426-429 | The result is back at exactly the failure reservation. |
| Jobs.JobLease.Drop | core/src/async_limits.rs:397-403 | Both leases are returned and the domain stays valid. |
| JobRuns.OnJob | core/src/async_limits.rs:404-430 | Growing, discarding, cancelling and dropping a job answer and change both budgets as adding up the live leases would. |
| JobRuns.OthersKept | core/src/async_limits.rs:404-430 | An operation on one job leaves both leases and the cancel flag of every other job as they were. |
| JobRuns.SoundStep | core/src/async_limits.rs:344-430 | Every operation keeps two leases for each live job that no other job has, its failure reservation and its item limit. |
| JobRuns.StartsExactly | core/src/async_limits.rs:344-360 | In any state a job is started exactly if its input is of a size allowed, there are fewer jobs than allowed for all and for its owner, and the bytes of inputs, of its owner's inputs and of results have room; it is too large exactly if no empty domain would take it. |
| JobRuns.GrowsExactly | core/src/async_limits.rs:406-425 | A result grows exactly while the job is not cancelled and results have room; an input exactly while it stays of a size allowed and there is room under the input limits; and what each refusal says. |
| JobRuns.Perform | core/src/async_limits.rs:344-445 | Each operation on the real jobs gives the specified answer, books and live jobs. |
| JobRuns.Run | core/src/async_limits.rs:344-445 | Over any run of starting, growing, discarding, cancelling and finishing jobs from a new domain: every answer, both books, and which jobs are live and cancelled are those of adding up the live leases; the gauges are those sums, there are as many items in each budget as live jobs, and every live job has its failure reservation and is within the item limit. |
| FrameTurns.Pacer.BeginFrame | core/src/async_limits.rs:756-772 | A frame starts empty; with callbacks the turn flips and the reserve is the whole frame exactly on a callback's turn. |
| FrameTurns.Pacer.Drain | core/src/async_limits.rs:726-782 | The number of deliveries, items and bytes are the specified ones; delivering while allowed never exceeds the item limit, exceeds the byte limit only with a single delivery, and stops only at a refusal or with nothing left. |
| FrameTurns.Pacer.PlayFrame | core/src/async_limits.rs:756-789 | A frame with callbacks waiting makes the specified deliveries, at least one; earlier work gets any exactly in its turn, and the turn flips. |
| FrameTurns.TurnDecides | core/src/async_limits.rs:756-782 | With callbacks waiting, earlier work gets a delivery exactly in its turn if there is any, and without the turn the callbacks do, whatever the clock does. |
| FrameTurns.EachKindServed | core/src/async_limits.rs:756-782 | With both kinds always waiting, each is served in every second frame, for every positive item limit. |
| FrameTurns.PlayFrames | core/src/async_limits.rs:756-789 | Over any number of frames with callbacks waiting the deliveries of each kind are the totals of the specified frames; with both kinds always waiting each gets at least half as many as there are frames. |
| FrameTurns.DeliveredExactly | core/src/async_limits.rs:726-738 | Deliveries go on exactly while there is an item left and the offer is the first of the frame, or comes in time and fits into the bytes: nothing that may go is held back. |
| FrameTurns.FrameExactly | core/src/async_limits.rs:756-782 | One frame: earlier work is held back without the turn, and the callbacks go on from what the frame has already delivered. |
| EntitySpec.StepKept | core/src/liveness.rs:28-33 | Ids are positive, below the allocator, and differ between indices; the allocator never goes back. |
| EntitySpec.StepRevivesNone | core/src/entity_live.rs:52-168 | One notice makes live no id minted before it that was not live; a pair that stays live keeps its serial. |
| EntitySpec.RunRevivesNone | core/src/entity_live.rs:52-168 | The same over any run of create, spawn, delete, map change and repair. |
| EntitySpec.NoAliasing | core/src/entity_live.rs:52-168 | A pair live at two times was live at every time between, with one engine serial: ids are free of ABA. |
| EntitySpec.StepKeepsExactly | core/src/entity_live.rs:52-168 | A live pair outlives a notice exactly if that is not another create there, a spawn of another serial, a matching delete, a map clear, or a repair that lacks the index or gives it another serial. |
| EntitySpec.RunKeepsExactly | core/src/entity_live.rs:52-168 | Over any run a live pair stays live with its id exactly if no notice is one of these; a spawn of its own serial and a stale delete leave it. |
| EntitySpec.LiveExactly | core/src/entity_live.rs:52-168 | The indices live after a notice are those it reports as present and those whose pair it does not end. |
| EntitySpec.MintedNext | core/src/entity_live.rs:52-81 | A create gives the index the next id and the serial told; a spawn does so exactly if it does not match, and else changes nothing. |
| EntitySpec.UpsertAllExact | core/src/entity_live.rs:154-160 | With distinct indices, the upserts of a repair give each slot its serial, keep matching ids and touch nothing else. |
| EntitySpec.RepairExact | core/src/entity_live.rs:150-168 | With distinct indices, a repair leaves exactly the snapshot's indices and serials, and matching ids unchanged. |
| EntityLive.LiveTable.Insert | core/src/liveness.rs:28-33 | Every insertion takes the next id, which was never used. |
| EntityLive.EntityBooks.Mirror | core/src/entity_live.rs:33-37 | With one slot possibly stale, copying it makes the flat array agree with the map everywhere. |
| EntityLive.EntityBooks.MirrorAll | core/src/entity_live.rs:40-48 | Rebuilding makes the flat array agree with the map whatever it held. |
| EntityLive.EntityBooks.OnCreated | core/src/entity_live.rs:52-62 | The index is live under the returned id, which was not live, and the displaced id is retired. |
| EntityLive.EntityBooks.OnSpawned | core/src/entity_live.rs:67-81 | A matching entry keeps its id; otherwise a new one is minted and a displaced id retired. |
| EntityLive.EntityBooks.OnDeleted | core/src/entity_live.rs:86-100 | Only a matching serial removes the entry, and its id is returned and retired. |
| EntityLive.RetiredExactly | core/src/entity_live.rs:52-106 | The id announced as retired is exactly the one that was live and no longer is. |
| EntityLive.EntityBooks.Adopt | core/src/entity_live.rs:116-119 | Answers the live id exactly when the serial matches, and never another. |
| EntityLive.EntityBooks.EngineSerialFor | core/src/entity_live.rs:123-133 | Through the flat array or the map, for negative and large indices too, the serial of a live pair and nothing for any other. |
| EntityLive.EntityBooks.ClearForMapTransition | core/src/entity_live.rs:136-142 | The books are empty, repair is armed, and the epoch advances or, once exhausted, stays at zero. |
| EntityLive.EntityBooks.RepairReconcile | core/src/entity_live.rs:150-168 | The books after the loops are those of the specified repair, repeated indices included, and the flat array agrees. |
| EntityLive.PlayNotices | core/src/entity_live.rs:52-168 | Any run of notices on the real books gives the books of the specified run. |
| Utf8.Utf8LossyLen | core/src/async_limits.rs:478-490 | The length computed is that of the lossy conversion, saturating at the word size; exact for every input up to a third of it. |
| Utf8.Utf8LossyOwned | core/src/async_limits.rs:452-461 | The output is the lossy conversion, a replacement character for each maximal subpart (section 3.9 of the Unicode Standard). |
| Utf8.LossySplit | core/src/async_limits.rs:478-490 | The conversion is the valid prefix, one replacement if something follows, and the conversion of what is after the ill-formed part. |
| Utf8.LossyIsWellFormed | core/src/async_limits.rs:452-461 | The output is well formed and at most three times as long as the input. |
| Utf8.LossyKeepsWellFormed | core/src/async_limits.rs:452-461 | Well-formed input is unchanged, and is what decoding accepts. |
| Utf8.BadIsMaximal | core/src/async_limits.rs:478-490 | The ill-formed part replaced is the longest that some well-formed sequence could begin with, or one byte. |
| Utf8.SequenceIsScalar | core/src/async_limits.rs:478-490 | A sequence accepted by the table of section 4 of RFC 3629 is the encoding of the scalar value it decodes to. |
| Utf8.ScalarIsSequence | core/src/async_limits.rs:478-490 | The encoding of every scalar value is accepted whole and decodes to it. |
| Utf8.DiagnosticLimit | core/src/async_limits.rs:466-476 | The longest well-formed prefix within the cap. |
| DbResults.CapacityBounds | core/src/db.rs:429-448 | Geometric growth covers every row count with at most twice as many slots, within the row limit. |
| DbResults.ResultSizer.Add | core/src/db.rs:420-427 | Charged exactly if the result limit and the budget have room and the job is not cancelled; lease and counter move together. |
| DbResults.ResultSizer.ReserveRowSlot | core/src/db.rs:429-448 | A full vector is charged for its growth, always grows and then has room, so that a push never reallocates; otherwise nothing is charged. |
| DbResults.ResultSizer.Row | core/src/db.rs:449-466 | A row is counted and charged exactly if it is within the row limit and there is room. |
| DbResults.ReadCell | core/src/db.rs:251-264 | A text is charged the exact length of its lossy decoding; a refusal means there was no room for it. |
| DbResults.ReadRow | core/src/db.rs:248-266 | The values of a row, with all their text charged, or no room for it. |
| DbResults.TakeRow | core/src/db.rs:246-267 | A row is taken whole with its charge, its place and its texts, or one of the limits is reached. |
| DbResults.HeaderBytes | core/src/db.rs:235-238 | The charge of the column names. |
| DbResults.RunQuery | core/src/db.rs:226-273 | After every allocation, memory retained is at most the bytes charged, and those are at most the result limit; all rows are returned exactly if their number, their whole charge and the budget allow it and the job is not cancelled. |
| DbResults.MomentsCovered | core/src/db.rs:226-273 | After every allocation of a query (column names, outer vector, row, text) at least as much has been charged as is retained, headers of strings and rows included. |
| DbResults.ValuesExactly | core/src/db.rs:251-264 | Null, integer and float cells are handed out as they are, a text as its lossy conversion, and a blob as null. |
| DbResults.CapacityIsPower | core/src/db.rs:429-448 | The capacity for some number of rows is the least power of two that holds them, or the row limit if that is less. |
| DbResults.ChargeExactly | core/src/db.rs:226-273 | The whole charge in closed form: 32 bytes and the name for each column, the same and 32 more for each row, 24 for each place, and every byte of text. |
| DbResults.RetainedExactly | core/src/db.rs:226-273 | What is retained in closed form: 24 bytes and the name for each column, 24 for each place and for each value, and every byte of text. |
| ConvarSpec.OneEach | core/src/client.rs:402-405 | Each pending query has one subscription, on a channel of its own. |
| ConvarSpec.PairedAdd | core/src/client.rs:528-532 | Adding a query with its subscription keeps the pairing. |
| ConvarSpec.PairedThin | core/src/client.rs:590-599 | Removing the same queries from both sides keeps the pairing. |
| ConvarSpec.SettlesFollow | core/src/client.rs:448-469 | Settling calls each query back at most once, keeps recorded outcomes and brings nothing back. |
| ConvarSpec.RemovalFollows | core/src/client.rs:592-599 | Teardown removes queries without calling back and changes no other. |
| ConvarSpec.FollowsChain | core/src/client.rs:448-536 | What holds of each step of a run holds of the whole run. |
| Convars.ConvarDesk.Settle | core/src/client.rs:448-469 | A delivered query leaves table and store, with one callback if its owner is live and none if not; one that cannot be delivered stays with its outcome recorded. |
| Convars.ConvarDesk.SettleAll | core/src/client.rs:472-490 | Settling a list settles each of its queries once, with its own outcome. |
| Convars.ConvarDesk.CancelSlot | core/src/client.rs:472-476 | Exactly the slot's queries without an outcome are cancelled. |
| Convars.ConvarDesk.Sweep | core/src/client.rs:480-490 | Exactly the queries with an outcome, past their deadline or without their connection are settled, recorded outcomes unchanged. |
| Convars.ConvarDesk.DispatchResponse | core/src/client.rs:493-503 | An answer settles its query exactly if slot and name (without regard to ASCII case) match and no outcome is recorded, as answered only if the connection still matches; any other answer changes nothing. |
| Convars.ConvarDesk.QueryConvar | core/src/client.rs:510-536 | A query is pending under its cookie exactly if every check passed (the name measured in UTF-8 bytes and without NUL) and it was sent and listened for; there are never more than the limit. |
| Convars.ConvarDesk.TeardownOwner | core/src/client.rs:592-595 | Exactly the owner's queries go, with their subscriptions and without a callback. |
| Convars.ConvarDesk.Dispose | core/src/client.rs:596-599 | Exactly the queries of the disposed subscriptions go. |
| Convars.ConvarDesk.Begin | core/src/client.rs:47-51 | A connection gets a token never used before; no earlier token matches the slot, and the former connection's queries are cancelled. |
| Convars.ConvarDesk.Ensure | core/src/client.rs:52-55 | An existing connection keeps its token; otherwise one is begun, under the next token; no query is touched. |
| Convars.ConvarDesk.End | core/src/client.rs:56-64 | Only a matching token ends the connection, and then its open queries are cancelled. |
| ConvarTrace.LeavesExactly | core/src/client.rs:448-536 | In one operation a pending query goes exactly if it is settled and called back, settled and passed over because its owner is not live, or torn down. |
| ConvarTrace.ChangesExactly | core/src/client.rs:448-599 | A query leaves or changes in an operation exactly if this is a reply about its cookie, slot and name, a sweep when it is past its deadline or its connection is gone, a new connection on its slot or the end of it, or its teardown; with an outcome recorded only a sweep that can deliver and the teardown. |
| ConvarTrace.AskExactly | core/src/client.rs:510-536 | A query is asked exactly under a free cookie, of a connected client, by a name of 1 to 255 bytes without blanks and NUL, with fewer than 1024 pending, and for 15 seconds. |
| ConvarTrace.ConnectionsExactly | core/src/client.rs:47-64 | A slot gets the next token when a client connects or is found unknown, loses it when that very connection ends, and otherwise keeps it. |
| ConvarTrace.LogGrows | core/src/client.rs:448-469 | Every callback of an operation is of a query it settled, with that outcome; the query is then gone, and gets no second one. |
| ConvarTrace.LeavesOnce | core/src/client.rs:448-536 | Over any run: a query pending at one moment and gone at a later one went in one of those ways in some step between them, and was the same query until then. |
| ConvarTrace.SettledInTime | core/src/client.rs:480-490 | No query outlives the first sweep past its deadline that finds the isolate free. |
| ConvarTrace.AnswerIsReply | core/src/client.rs:493-503 | Over any run: an answer that was called back is that of an earlier reply, given when slot and name matched, no outcome was recorded and the connection was still the one asked. |
| ConvarTrace.ReplyKept | core/src/client.rs:448-503 | Over any run: once such a reply was given, the query is settled with that answer and nothing else, however long delivery is put off. |
| ConvarTrace.TraceFollows | core/src/client.rs:448-536 | With distinct cookies: nothing is called back twice, a recorded outcome never changes, and a query that is gone never comes back. |
| ConvarRuns.Step | core/src/client.rs:448-536 | Every operation on the real desk does exactly what is specified: the new query, the queries settled with their outcomes, those torn down, the connections and the subscription counter. |
| ConvarRuns.Play | core/src/client.rs:448-536 | Any run of the real desk is a run of the specification, moment by moment, with table and subscriptions paired throughout; with distinct cookies the law of whole runs holds of it. |
| ConfigText.StripLine | core/src/config.rs:104-124 | A line is cut before the first `//` outside a string, with escapes respected. |
| ConfigText.CutExactly | core/src/config.rs:104-124 | The cut is at the first two slashes in a row outside a string; a single slash and slashes in strings stay. |
| ConfigText.StripLineComments | core/src/config.rs:100-128 | Every line is cut so, whether the file ends with a line break or not. |
| ConfigText.QuotePlain | core/src/config.rs:100-128 | A quoted string, whatever its contents, holds no comment and leaves the scanner outside a string. |
| JsonRoundTrip.ValueBack | core/src/config.rs:202-233 | Parsing a printed value gives the value and the text after it. |
| Config.MaterializeEntries | core/src/config.rs:146-190 | The loop over the declared keys gives the specified values, and no warning exactly if there is nothing to warn about. |
| Floats.NearestIsNearest | core/src/config.rs:81-91 | The 64-bit float of a number is at most half a spacing off, and the even one of two equally near. |
| Floats.SpacingExactly | core/src/config.rs:81-91 | That spacing is the power of two from 2^-1074 to 2^971 at which the number has 53 bits. |
| Config.SmallWholeExact | core/src/config.rs:76-95 | Whole numbers below 2^53 are held to the bounds exactly, although bounds compare as 64-bit floats. |
| Config.MaterializeEntry | core/src/config.rs:159-188 | One entry: the override if it has the type and satisfies the constraints, numbers compared as 64-bit floats, else the default, else the zero of the type; sections recursively. |
| Config.LeafExactly | core/src/config.rs:54-95 | A declared value, type by type: the override if it is of the type and in the list of allowed values, or within the bounds where there is no list; else the default if of the type; else the zero of the type. |
| Config.SectionExactly | core/src/config.rs:146-158 | A section has exactly its keys without a dot, each under the field of that name of an override that is an object. |
| Config.MaterializeConfig | core/src/config.rs:134-144 | The values under the override file, comments stripped; a file that is missing, not an object or not JSON (number grammar included) counts as none. |
| Config.MaterializedDeclared | core/src/config.rs:146-190 | Whatever the override holds, the result has the declared keys and no other, and each value is allowed by its declaration or is its fallback. |
| Config.DeclaredKept | core/src/config.rs:146-190 | Exactly the values of declared shape are left unchanged as overrides, so materializing again changes nothing. |
| Config.GenEntries | core/src/config.rs:202-233 | The lines of every reachable key in order, nested by indentation, commas between entries only. |
| Config.GenerateDefaultJsonc | core/src/config.rs:195-200 | The whole generated file. |
| Config.ExampleLines | core/src/config.rs:195-233 | A generated file line by line: type and description as a comment above each value, two blanks a level, sections as blocks, keys in order, a comma after all but the last. |
| ConfigRoundTrip.GeneratedReads | core/src/config.rs:195-233 | The generated file, comments stripped, parses to exactly the declared defaults, over all nested sections, keys and defaults. |
| ConfigRoundTrip.DefaultsChangeNothing | core/src/config.rs:146-190 | The declared defaults given as the override yield the values of no override. |
| ConfigRoundTrip.GeneratedFileChangesNothing | core/src/config.rs:134-233 | The generated file, stripped, parsed and merged as the override, gives the values of no override, over all nested sections. |
| ConfigRoundTrip.GenerateAndMaterialize | core/src/config.rs:134-233 | Generating the file and then stripping, parsing and merging it yields the very values of no override. |
| JudgeSpec.FailurePersists | scripts/khook_acceptance.py:1009-1197 | A record that is invalid, failed, contradicted or at odds in a join makes every extension of the history fail. |
| JudgeSpec.OnlyMissingClears | scripts/khook_acceptance.py:1009-1197 | A failure that later records clear was of a case without records, and nothing else. |
| JudgeSpec.PendingKeepsPass | scripts/khook_acceptance.py:973-1006 | Adding pending records to a passing history leaves it passing. |
| JudgeSpec.PassNeedsIdentity | scripts/khook_acceptance.py:1009-1197 | A pass has a valid runtime identity, and for every required check a passing record bound to it. |
| JudgeReading.VerdictExactly | scripts/khook_acceptance.py:897-1006 | What a record says of its check, field by field: pass only with the expected outcome, fail with another, pending, or invalid if the result, the older field, the outcomes, the evidence or a person's attestation is not in order. |
| JudgeReading.AdmittedExactly | scripts/khook_acceptance.py:1034-1092 | Which records are filed under which check, field by field, and which stand apart as the report of the process. |
| JudgeReading.FindingExactly | scripts/khook_acceptance.py:1117-1143 | A failure ends a check; a pass ends it exactly with an artifact, a runtime identity and proved game data; what makes a record unusable. |
| JudgeReading.GroupExactly | scripts/khook_acceptance.py:584-592 | A join compares exactly the admitted records of its checks that say "pass" and name an artifact. |
| JudgeReading.PassExactly | scripts/khook_acceptance.py:1009-1197 | A suite passes exactly if everything could be read, a valid runtime identity was supplied, no record was rejected, no join disagrees, and each required check is ended by one passing record while its other reports leave it open. |
| JudgeReading.FailExactly | scripts/khook_acceptance.py:1009-1197 | A suite fails exactly if a file, the identity, a record, a join or a check is bad, or a case has no records; what neither fails nor passes waits. |
| JudgeReading.CaseExactly | scripts/khook_acceptance.py:1105-1160 | A case passes exactly if it has records and its checks are each proved; when it is invalid, and when it has failed. |
| Judge.JudgeHistory | scripts/khook_acceptance.py:1117-1143 | One walk in any order finds exactly whether a check is invalid or contradicted, failed, and settled. |
| Judge.JoinErrors | scripts/khook_acceptance.py:584-603 | An error exactly if in some group both producers reported and two reports differ. |
| Judge.FileRecords | scripts/khook_acceptance.py:1034-1092 | Every admitted record is filed under its case, and a rejection is noted exactly if some record is rejected. |
| Judge.JudgeCase | scripts/khook_acceptance.py:1105-1160 | The status of a case: invalid before failed before pending before passed. |
| Judge.JudgeRecords | scripts/khook_acceptance.py:1009-1197 | The exit code and the status of every case are functions of the set of the records: order and replays do not matter. |

## Left out

Where the code and its comments differ, the model follows the code: a default of the wrong type becomes the zero of its type
(core/src/config.rs:168-174), although the comment above `materialize_config` also names the default itself.

What the source does and the model does not:

- V8 scopes, handles, realms and prototype chains: a JavaScript value is a datatype that says whether it is a proxy, which prototype it has and which own properties are data; that no getter or trap runs is part of how the copier reads, not a theorem.
- The facade's profiler path, the rebinding of a cell when the epoch moves, and the deletion of bootstrap globals: a call says whether its producer is still bound. Probing a result for `then` is a flag of the call.
- The interface-level lookup of a method by name: a call names its method by position.
- The rest of core/js/prelude.js: thin wrappers over natives and table lookups.
- The registry slot number that core/src/jsmux.rs puts in a subscriber row: the row keeps its owner. Payload classes, owner liveness and present generations are arbitrary functions, and the script line is not kept.
- The Rust fan-out that stands in for the multiplexer while the profiler records (core/src/dispatch.rs), crash breadcrumbs and warnings.
- Threads, locks, atomics and wall-clock time: operations under a lock are atomic steps, elapsed time is an arbitrary boolean, and clocks are integers.
- `Pool`, socket and outbound queues, the sqlite actor and its statement preparation, the budgets of `Domain` other than jobs and results, and the loading of the policy: their behaviour is that of libraries, or that of `Budget` again.
- Counters of 64 bits for host ids, subscription ids and versions are unbounded; the timer sequence, the map epoch and the rejection counter, whose ends the source handles, are not.
- `reserve_exact` is taken to give exactly what is asked, and a vector header and a database value to be 24 bytes.
- Numbers in JSON other than whole ones of 64 bits are kept as their literals and taken to read as the nearest 64-bit float, and the parser's nesting limit is not modelled; strings are sequences of Unicode scalar values.
- Warning texts and their order, and messages of the judge.
- In the judge, per-record evidence rules, the gamedata check and the join signature are arbitrary functions of a record; the validation of a runtime identity and the reading of the observation file are results given to it; two JSON values are equal when they are the same value.
- Drawing a cookie: it is given to the operation, and one that is taken asks nothing, where the source draws again. That whole runs never call a cookie back twice assumes distinct ones; the other laws do not. Whether the engine sent a query and whether the callback could be registered are flags.
- The effects of a connection's end on voice, cookies and leases.
- A convar callback that ends its own connection while it is being settled: settling one query is an atomic step.
- DbResults.RunQuery: the budget and the cancellation flag do not change from outside while the query runs, errors of the driver itself are not modelled, and which of several limits a refusal names is not stated.
- MirrorRuns.Run: one store with its mirror; the stores of other kinds share the multiplexer, whose arrays of other kinds `Mirror.Sync` and `Mirror.Prune` leave alone. Subscriptions take the next id of the host's counter.
- ContractLaws.Accepted: requires the field names of each record to differ, without which it is false (see `DuplicateKeysLoseAProperty`); they do, because the host compiles a record from a map of its fields (core/src/interop.rs:18).
- ContractLaws.CopyFaithful: requires the same, for the same reason.
- TimerRuns.RunAgrees: requires a clock that does not go back, without which it is false (see `BackwardsClockParts`); `RunAgreesExactly` has the exact condition.
- EntitySpec.RepairExact: requires distinct indices in the snapshot; `EntityLive.EntityBooks.RepairReconcile` covers repeated ones.
- Admission.Lease.Drop: requires the owner's entry, which a lease of at least one item always has and a lease of none may lose (see `ZeroItemLease`).
- Utf8.Utf8LossyLen: beyond a third of the word size it is stated to saturate.
