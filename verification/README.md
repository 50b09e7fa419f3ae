# Verified model of the connector runtime's state machines

A Dafny model of the parts of the OT connector repository that keep state over time, and proofs of
what they promise over every run:

- `Naming`, `NamingRules`: the set and the key a point's options, samples and device make.
- `ParameterStore`, `ParameterInvariants`, `ParameterTwin`, `ParameterDeclarations`, `ParameterReapply`,
  `ParameterReleases`, `ParameterMessages`, `ParameterAgreement`, `ParameterSplits`, `PruneSteps`,
  `ParameterFlow`: which point owns which key of a device's parameter fragments, the values stored there,
  and the retained twin of each fragment.
- `CommandForward`: a parameter update turned into point writes, and the echo of a whole fragment.
- `PiCursor`, `PiPaging`, `PiPush`, `PiChunks`: AVEVA PI delivery, from cursors and archive paging to
  the queue, the persisted cursors and restarts, and the chunking of requests.
- `Batch`, `BatchRuns`, `BatchPasses`, `BatchSample`, `BatchSlot`, `BatchReports`, `Batcher`: the
  measurement batcher.
- `Report`, `ReportRules`: the reporting policy of one point.
- `Alarm`, `AlarmTurns`: the alarm flow with its lagging record of retained alarms.
- `Wildcard`; `Ber`, `BerValues`: the single-backtrack matcher, and the BER encoder and decoder of
  clauses 8.1.3, 8.3 and 8.19 of ITU-T X.690.

For each state machine there are two kinds of theorem: what every run keeps, and what a single event
does to every entity, written over the states before and after it (`...Exactly`). Each state machine is a set of functions over values; the theorems are about these functions and all
runs of them. Where the source works by changing objects and looping, a class or method does the same
and is proved equal to the functions (`Snapshot() == ...(old(Snapshot()))`). `Common` holds shared
helpers. `dafny verify dfyconfig.toml` checks everything.

## Where the code and its documentation differ

The model follows the code. These promises are false of it; each is stated with the exact condition
under which it holds.

- Re-applying unchanged declarations drops a value that arrived since when two declared points share a
  key or one point is declared twice (runs from the empty store: `SharedKeyRun`, `RepeatedPointRun`;
  exactly when: `ReapplyLosesExactly`, and for these runs `UnchangedDescriptorLosesExactly`). The comment
  at flows/ot-parameter-state/main.js:391-392 promises it drops none.
- A reading held by `min_interval` is documented as never dropped
  (doc/contract/ot-connector-contract.md:830). Combined with `debounce` it can take the place of a newer
  one, which is then lost (`CombinedPolicyLoses`; exactly then: `NoUpdateIsLostExactly`, and for live
  runs `LiveUpdatesAreKeptExactly`).
- An instant of 150000 archived events or more hides every later event from paging
  (`FullInstantHidesTheRest`; paging is complete exactly otherwise: `ReachesTheEndExactly`).
- What was queued and not drained is admitted again after a restart, but not always replayed: not for a
  point that never had a cursor (`FirstEventIsNotReplayed`), without backfill, from before the floor, or
  once `max_events`, which every configuration sets, is used up (exactly which are: `RestartReplays`).
- The wildcard matcher misses matches on texts that hold a `*` (exactly then:
  `RightExactlyWithoutStars`).
- Fragments can disagree about a point written before anything named its sets (`BlindWritesDisagree`;
  exactly when: `AgreementExactly`, for one write `WriteAgreesExactly`).
- A fragment that is a literal but not a scalar cannot be written back (`EchoWritesBack`).

## Model

| member | source | states |
|---|---|---|
| ParameterInvariants.EveryRunIsConsistent | flows/ot-parameter-state/main.js:526-655 | in every run of samples, link statuses, descriptors and command results from the empty store, owners and claim lists are exact inverses, every claim is under its point's recorded key, every owner is a claimant, no set is owned both as a literal and by keys, and every value sits on an owned key of a known set |
| ParameterInvariants.OnMessageKeeps | flows/ot-parameter-state/main.js:526-655 | each message keeps those invariants, and the sets it announces cover every value that differs from before |
| ParameterInvariants.ClaimShape | flows/ot-parameter-state/main.js:267-297 | the shape check exempts the claiming point itself, yet whatever the set already holds has the shape of the new claim, because the point's other claims are all under the key it claims |
| ParameterInvariants.ClaimMakesOwner | flows/ot-parameter-state/main.js:254-285 | a claim of a free place makes its point the owner exactly when the point's id is not empty |
| ParameterInvariants.MoveKeeps | flows/ot-parameter-state/main.js:342-376 | leaving the old sets and key before recording the new one keeps the invariants and announces what was left |
| ParameterInvariants.StrikeKeeps | flows/ot-parameter-state/main.js:448-478 | removing any set of points with all they hold keeps the invariants and announces every set that lost a value |
| ParameterTwin.RenderLossless | flows/ot-parameter-state/main.js:410-426 | a published fragment carries a value under a key if and only if that place stores it: a literal never hides a key |
| ParameterTwin.TwinAlwaysAgrees | flows/ot-parameter-state/main.js:410-426 | for every run and whatever was retained at the start, each fragment announced since is the rendering of the store, and every other has no stored value and is as it was |
| ParameterTwin.TwinIsTheRendering | flows/ot-parameter-state/main.js:410-426 | from an empty broker the retained twin of every fragment carries, place by place, exactly the stored values, and there is none where nothing is stored |
| ParameterTwin.HandleAgrees | flows/ot-parameter-state/main.js:526-655 | one message keeps the agreement of store and twin |
| ParameterTwin.NoRemovedPointRemains | flows/ot-parameter-state/main.js:429-478 | after a link status with every protocol's list known, the owner of each remaining value is a point some protocol lists |
| ParameterMessages.SampleExactly | flows/ot-parameter-state/main.js:583-602 | after a describing sample its point holds exactly those places of its sets, under its key, that no other point rivals; they carry the sample's value if it has one, what the point held elsewhere is gone, and no other owner or value changes; a sample that describes nothing changes nothing |
| ParameterMessages.UpdatesExactly | flows/ot-parameter-state/main.js:604-654 | a command updates a point to a value if and only if that is its last successful result |
| ParameterMessages.CommandExactly | flows/ot-parameter-state/main.js:604-654 | after a command each point's last successful result is at every place of its sets under its key that no other point rivals by then; owners stay, and every other place is as it was |
| ParameterMessages.CommandRecords | flows/ot-parameter-state/main.js:604-623 | a command records the set it names for exactly those of its points that have none recorded |
| ParameterMessages.OnlyRemoves | flows/ot-parameter-state/main.js:482-581 | link statuses and descriptors store no value: what is there afterwards was there before |
| ParameterMessages.AnnouncesExactly | flows/ot-parameter-state/main.js:410-426 | a message announces a fragment, and so publishes its twin, if and only if one of its values differs from before |
| ParameterReleases.CapabilitiesHold | flows/ot-parameter-state/main.js:482-524 | a descriptor releases exactly the points it declared under the key they still have and declares no more; a declared point ends with the places its last entry lands once these are free, and any other keeps its own |
| ParameterReleases.CapabilitiesLoseExactly | flows/ot-parameter-state/main.js:482-524 | a descriptor loses the values of released points and those its declarations lose, and no other |
| ParameterReleases.LinkStatusHolds | flows/ot-parameter-state/main.js:566-581 | points listed no more hold nothing; a declared point ends with the places its last entry lands after that, and any other keeps its own |
| ParameterReapply.LinkStatusInforms | flows/ot-parameter-state/main.js:566-581 | what a link status makes known: the device type, the protocol and its list of points |
| NamingRules.SanitizeIs | flows/ot-parameter-state/main.js:111-117 | a sanitized name keeps every run of letters and digits, with one underscore for whatever is between, before or after them |
| NamingRules.ValidSetExactly | flows/ot-parameter-state/main.js:143-152 | a usable set name is not empty and has only ASCII letters, digits and underscores |
| NamingRules.SetsOfExactly | flows/ot-parameter-state/main.js:139-200 | the sets a point is in, each once: the fragment of a literal, else the set its key names, else the plain identifiers among its sets, else the forced set, else one per group, else the default |
| NamingRules.KeysExactly | flows/ot-parameter-state/main.js:213-247 | the key a point is published under: the literal one, what its key option comes to, or its own id |
| NamingRules.SampleAndDescriptorAgree | flows/ot-parameter-state/main.js:178-247 | a descriptor entry and a sample with the same options place a point alike |
| ParameterDeclarations.DeclarationLands | flows/ot-parameter-state/main.js:380-406 | whatever the declarations (literals beside keys, places or points declared twice) and whatever was held before, a declared point ends up with exactly those places of its last entry that land: no rival key of the set is held by a point not placed by then, or was got by another point's entry; an undeclared point keeps what it held |
| ParameterDeclarations.PlainLands | flows/ot-parameter-state/main.js:380-406 | for distinct points and disjoint plain keys a place lands if and only if it is free: unowned or owned by a declared point, with no literal in the set unless its holder is declared no later |
| ParameterDeclarations.SettleIs | flows/ot-parameter-state/main.js:364-376 | placing a point leaves all others alone and gives it exactly its places that no other point rivals it for, under a literal or any other key |
| ParameterDeclarations.DeclarationsTakeEffect | flows/ot-parameter-state/main.js:380-406 | however the declared points' keys were swapped or rotated, each ends up holding exactly its declared places when these are free |
| ParameterDeclarations.ApplyLosesExactly | flows/ot-parameter-state/main.js:380-406 | applying any declarations to any store loses a value if and only if its owner is declared and some entry of the owner does not declare the place, or another point's entry after all of the owner's does |
| ParameterDeclarations.ReapplyLosesExactly | flows/ot-parameter-state/main.js:388-406 | of the values present between two applications of the same declarations, whenever they arrived, the second loses those of a declared owner whose place is contested, and no other: another entry of the owner does not declare it, or an entry after the owner's last does |
| ParameterDeclarations.SurvivorsStay | flows/ot-parameter-state/main.js:388-406 | a value that got through one application gets through the next, whatever is declared |
| ParameterDeclarations.ReapplyDropsNothing | flows/ot-parameter-state/main.js:388-406 | with distinct points and disjoint places nothing is contested, so a repeated application drops no value that is there by then |
| ParameterDeclarations.SharedKeyLosesItsValue | flows/ot-parameter-state/main.js:388-406 | two points sharing a key: a repeated application takes the value that arrived since, and the owner keeps the key, against the promise at lines 391-392 |
| ParameterDeclarations.RepeatedPointLosesItsValue | flows/ot-parameter-state/main.js:388-406 | a point declared under two keys loses a value that arrived since, against the same promise |
| ParameterReapply.LinkStatusLosesExactly | flows/ot-parameter-state/main.js:566-581 | a link status loses a value if and only if its owner is listed no more, every list being known, or applying the declarations again loses it |
| ParameterReapply.UnchangedDescriptorLosesExactly | flows/ot-parameter-state/main.js:380-406 | in the run of a descriptor, a write and a link status from the empty store the value written is lost if and only if its place is contested in the descriptor |
| ParameterReapply.SharedKeyRun | flows/ot-parameter-state/main.js:380-406 | such a run that loses a value: two points under one key |
| ParameterReapply.RepeatedPointRun | flows/ot-parameter-state/main.js:380-406 | such a run that loses a value: one point under two keys |
| ParameterSplits.AgreementExactly | flows/ot-parameter-state/main.js:319-337 | in every run all fragments that carry a point agree on its value after each message if and only if no write result splits it: gives it a value in some set it can have while it carries another value outside the sets written |
| ParameterSplits.MessageAgreesExactly | flows/ot-parameter-state/main.js:526-655 | from an agreeing point one message leaves agreement if and only if it does not split the point; samples of any quality, re-placements, descriptors and removals never do |
| ParameterSplits.FragmentsAgree | flows/ot-parameter-state/main.js:319-337 | a run that never writes a point before anything named its sets splits it nowhere, so all fragments that carry it agree |
| ParameterAgreement.WriteAgreesExactly | flows/ot-parameter-state/main.js:319-337 | a value written to some sets of a point whose fragments agree keeps them in agreement if and only if the point carries no other value outside these sets, or can have none of them |
| ParameterAgreement.MessageIsQuiet | flows/ot-parameter-state/main.js:364-376 | each message, unless it is such a blind write, keeps a point either untouched or described with one value |
| ParameterSplits.BlindWritesDisagree | flows/ot-parameter-state/main.js:645-653 | a run from the empty store after which two fragments carry two values of a described point: it was written under two device types before its first sample |
| ParameterFlow.Flow.Handle | flows/ot-parameter-state/main.js:526-655 | the step-by-step flow equals the pure message function, whose effect SampleExactly, CommandExactly, CapabilitiesHold and LinkStatusHolds state place by place; it keeps invariants and twin, and publishes exactly the changed sets |
| ParameterFlow.Flow.Dispatch | flows/ot-parameter-state/main.js:526-655 | the store after a message, before anything is published |
| ParameterFlow.Flow.ClaimPlace | flows/ot-parameter-state/main.js:270-285 | the claim loop over a mutable store equals the functional claim |
| ParameterFlow.Flow.Drop | flows/ot-parameter-state/main.js:342-358 | dropping a place: owner, claim list, value and the changed set |
| ParameterFlow.Flow.PlaceOne | flows/ot-parameter-state/main.js:364-376 | leave, record and claim, as the functional placement |
| ParameterFlow.Flow.ApplyUpdates | flows/ot-parameter-state/main.js:319-337 | the nested loops over updates and sets equal the functional application of results |
| ParameterFlow.Flow.ApplyDeclared | flows/ot-parameter-state/main.js:380-406 | the three loops (wanted places, yielding, placing) equal the functional declarations |
| ParameterFlow.Flow.PruneRemoved | flows/ot-parameter-state/main.js:448-478 | the two pruning loops, one over values and one over claimants, end in the store with all unlisted points struck at once |
| ParameterFlow.Flow.ReleaseDeclared | flows/ot-parameter-state/main.js:482-494 | a declaration that is gone gives up its point's places |
| ParameterFlow.Flow.HandleCapabilities | flows/ot-parameter-state/main.js:496-524 | a new descriptor releases what it no longer declares, then applies the rest |
| ParameterFlow.Flow.PublishTwin | flows/ot-parameter-state/main.js:410-426 | one retained message per changed set, nothing else touched |
| CommandForward.EchoWritesBack | flows/ot-command-forward/main.js:74-145 | a whole fragment sent back in any field order, in either request shape, becomes one write per value, each to the point that published it, no point twice; a literal that is not a scalar is refused |
| CommandForward.EchoIsIdentity | flows/ot-command-forward/main.js:112-145 | the acknowledged echo leaves the fragment as it was and does not announce it again |
| CommandForward.EditWrites | flows/ot-command-forward/main.js:74-125 | any requested content: a scalar becomes the one write of the literal's owner, the fields of an object go to the owners of their keys, in order; an object for a literal, a value for a set and what is not a scalar are refused |
| PiCursor.TimeCmpIsOrder | impl/c/connectors/aveva-pi/pi_cursor.c:89-95 | comparing seconds then nanoseconds is the order of instants |
| PiCursor.RefusedForEver | impl/c/connectors/aveva-pi/pi_cursor.c:141-183 | what a cursor refuses it refuses after any further deliveries |
| PiCursor.OfferedIsRefused | impl/c/connectors/aveva-pi/pi_cursor.c:141-183 | an event offered once is refused ever after |
| PiCursor.DeliveredAreAdmitted | impl/c/connectors/aveva-pi/pi_push.c:194-217 | delivered events are offered and admitted ones, and of a sorted offer all the admitted ones |
| PiCursor.DeliveredOnceInOrder | impl/c/connectors/aveva-pi/pi_push.c:194-217 | in whatever order events are offered, the delivered ones are in time order without a repeated (time, value) |
| PiCursor.CursorIsFold | impl/c/connectors/aveva-pi/pi_cursor.c:160-183 | the cursor after a delivery is the fold of what was handed on |
| PiCursor.AdvanceExactly | impl/c/connectors/aveva-pi/pi_cursor.c:160-183 | noting an event, new, old or repeated, makes the cursor refuse what is older and the event itself, and nothing else it admitted |
| PiCursor.CursorIsLastInstant | impl/c/connectors/aveva-pi/pi_cursor.c:160-183 | after any deliveries the cursor is the last instant delivered, with the values delivered of it in order |
| PiCursor.Cell.AdmitsEvent | impl/c/connectors/aveva-pi/pi_cursor.c:141-151 | the loop over the values of the cursor's instant decides admission |
| PiCursor.Cell.AdvanceTo | impl/c/connectors/aveva-pi/pi_cursor.c:160-183 | the in-place advance is the functional one |
| PiCursor.Cell.CopyFrom | impl/c/connectors/aveva-pi/pi_cursor.c:185-204 | a copy equals its source, which is unchanged |
| PiPaging.Worker.Page | impl/c/connectors/aveva-pi/pi_push.c:299-384 | paging ends for every archive and page size, and on a normal return has queued exactly the specified events; a stop leaves a prefix, and the cursor is the fold of what was queued |
| PiPaging.Worker.ReadPages | impl/c/connectors/aveva-pi/pi_push.c:299-384 | the page loop itself, with the measure that ends it: events at or after the page's start, then the room left for the page size to double |
| PiPaging.Worker.DeliverPage | impl/c/connectors/aveva-pi/pi_push.c:341-358 | one page: its overlap with earlier pages is refused, the rest handed on up to the event limit or a stop |
| PiPaging.Worker.CatchUp | impl/c/connectors/aveva-pi/pi_push.c:388-412 | only archived events that the cursor admits, not before it and not before the floor cut to milliseconds, are queued, in order and once; unless stopped exactly those paging reaches from the later of the two, up to the limit on events; nothing without backfill or without a cursor |
| PiPaging.Worker.Poll | impl/c/connectors/aveva-pi/pi_push.c:567-645 | one recorded poll queues, in order and once each, only archived events at or after its start that the cursor admitted, and all of them unless an instant is overfull |
| PiPaging.PagedIs | impl/c/connectors/aveva-pi/pi_push.c:299-384 | what paging delivers is exactly the admitted events before its limit |
| PiPaging.ReachesTheEndExactly | impl/c/connectors/aveva-pi/pi_push.c:359-377 | paging reaches the end of the archive if and only if no instant from its start on is overfull: has more than 150000 events, or just as many and a later event after them |
| PiPaging.PagingIsComplete | impl/c/connectors/aveva-pi/pi_push.c:299-384 | unless an instant is overfull every archived event at or after the start that the cursor admits is queued, and no other, in time order and once per (time, value) |
| PiPaging.FullInstantHidesTheRest | impl/c/connectors/aveva-pi/pi_push.c:359-377 | an instant of 150000 archived events or more hides every later event |
| PiPaging.PagedIsInReach | impl/c/connectors/aveva-pi/pi_push.c:299-384 | an admitted event is delivered if and only if it is archived from the start on, no earlier instant has 150000 events, it is among the first 150000 of its own, and with it no more than max_events are delivered |
| PiPaging.ReplayedExactly | impl/c/connectors/aveva-pi/pi_push.c:388-412 | an admitted archived event is replayed if and only if there is backfill and a cursor, it is not before the cursor, nor, when the cursor is older than the floor, before the floor cut to milliseconds, and it is in reach from there |
| PiPaging.ReplayedInTime | impl/c/connectors/aveva-pi/pi_push.c:397-405 | whatever the limits, no event older than the cursor or the floor is replayed |
| PiPush.MessageDelivered | impl/c/connectors/aveva-pi/pi_push.c:226-284 | of a message with its events in any order, exactly those the cursor admits are delivered, in time order and once |
| PiPush.StampedIsStable | impl/c/connectors/aveva-pi/pi_push.c:226-257 | sorting keeps the order of events of one instant |
| PiPush.SinkSeesEachOnce | impl/c/connectors/aveva-pi/pi_push.c:853-907 | over any run of starts, queueing, drains taken event by event, flushes at any moment and clean stops the sink sees for each point a time-ordered sequence without a repeat, none older than the persisted cursor |
| PiPush.FileIsTheFold | impl/c/connectors/aveva-pi/pi_push.c:896-907 | with the worker down, the persisted cursor is the fold of what the sink received |
| PiPush.NothingIsLost | impl/c/connectors/aveva-pi/pi_push.c:776-850 | whatever is not accounted for in the file when the worker goes down, cleanly or by a crash in the middle of a drain, is admitted again after a restart |
| PiPush.RestartReplays | impl/c/connectors/aveva-pi/pi_push.c:388-412 | an archived event that was on its way when the worker went down, cleanly or not, is replayed if and only if catching up reaches it: backfill is on, its target has a cursor by then, it is not before the start of the replay, no full instant is in between, and max_events is not used up before it |
| PiPush.ReplayContinues | impl/c/connectors/aveva-pi/pi_push.c:388-412 | after a clean stop the sink with the replay added, cut at max_events, stays in order without a repeat, and a target is without a cursor if and only if it had none and received nothing |
| PiPush.FirstEventIsNotReplayed | impl/c/connectors/aveva-pi/pi_push.c:394-395 | the first event of a target without a cursor, queued and not drained before a stop, is not replayed |
| PiPush.Service.DeliverItem | impl/c/connectors/aveva-pi/pi_push.c:261-284 | one item of a message is a run of queue actions, one for each event in time order and each point of its stream, and each point's queue grows by what its cursor admits |
| PiPush.Service.DrainRing | impl/c/connectors/aveva-pi/pi_push.c:853-883 | a drain is a run of one take and, for each event, giving it to the sink and then noting it |
| PiPush.Service.DrainOne | impl/c/connectors/aveva-pi/pi_push.c:857-879 | the sink receives an event before the store notes it |
| PiPush.Service.StopWorker | impl/c/connectors/aveva-pi/pi_push.c:896-907 | a stop empties the ring and persists the store |
| PiChunks.GreedyIsFewest | impl/c/connectors/aveva-pi/pi_http.c:298-315 | no acceptable split has fewer chunks than a greedy one |
| PiChunks.Chunks | impl/c/connectors/aveva-pi/pi_http.c:298-315 | the loop yields consecutive chunks that cover every id once, each within the count and (unless a single id) the URL limit, and greedy |
| PiChunks.ReadAll | impl/c/connectors/aveva-pi/connector_aveva_pi.c:1103-1199 | the halving loop ends for every pattern of answers, each id is settled by exactly one request, the answers are those of recursive halving |
| PiChunks.BudgetIs | impl/c/connectors/aveva-pi/connector_aveva_pi.c:1103-1199 | the requests it can take: two per id less one per chunk |
| PiChunks.ReadPoints | impl/c/connectors/aveva-pi/connector_aveva_pi.c:1095-1199 | chunking and halving together: fewest chunks, one settling request per id, at most two requests per id |
| Batch.Run | site/src/lib/batch.ts:288-391 | after every run depth[k] is exactly the first layers holding point k, no frame exceeds 64 layers and no time message one, every open or published body is a single series or within 15000 bytes |
| Batch.ReadyShaped | site/src/lib/batch.ts:288-322 | when a reading is put, the layer its point's depth indexes exists |
| Batch.PutShaped | site/src/lib/batch.ts:323-338 | putting a piece, split or not, keeps layers, depths and sizes |
| Batch.CloseShaped | site/src/lib/batch.ts:341-353 | closing resets exactly the depths of the message's points |
| BatchRuns.EveryReadingIsPublishedOnce | site/src/lib/batch.ts:288-372 | after any run and a flush nothing is open and the published readings are, as a multiset, the offered ones, each under its own topic and grouping; a time message has its readings' timestamp, and a point's message times in frames strictly rise |
| BatchRuns.StepBalanced | site/src/lib/batch.ts:288-391 | every step keeps published plus open equal to taken in, through splits, window ends and layer-limit closes |
| BatchRuns.StepTimed | site/src/lib/batch.ts:309-318 | every step keeps layer times rising, the last of them recorded, and bounds each point's past times by its depth |
| BatchPasses.PassPublishes | site/src/lib/batch.ts:355-391 | a pass publishes whole messages, each once: the `time` ones, all, or the frames whose window ended, ended frames by the start of their window, then by topic, then as opened; every other message stays as it was |
| BatchPasses.AddExactly | site/src/lib/batch.ts:288-339 | one reading: a message that cannot take it is published whole and a new one begun, whose window goes on when only its layers ran out; else it goes on the first layer without its point, a new one with the next free time if there is none, and a body it does not fit in is published first; nothing else changes |
| BatchPasses.FitsExactly | site/src/lib/batch.ts:325-334 | the byte budget as a sum over a message's series |
| Batcher.Device.Offer | site/src/lib/batch.ts:252-286 | a reading is routed, taken into a message, held or kept by its point's slot, or ends what the slot holds, by its quality, its value and how its point is grouped; what the slot heard is added to the point's history |
| Batcher.Device.SetStale | site/src/lib/batch.ts:453-463 | going stale ends what every slot with aggregates holds, once |
| Batcher.Device.TakeSample | site/src/lib/batch.ts:393-437 | per point of the period, in terms of its history: the value last given unless the link is stale, or, if it held a value at all since the last sample, its aggregates in order: the integral over that time, the smallest and largest value seen, the value held; packed per topic, and the slots start again |
| Batcher.Device.PublishDue | site/src/lib/batch.ts:375-391 | ended frames are published, then for each sampler that is due what TakeSample states of the histories as they were; afterwards nothing is due |
| Batcher.Device.Add | site/src/lib/batch.ts:288-339 | the in-place add equals the functional one |
| Batcher.Device.Close | site/src/lib/batch.ts:341-353 | the nested loops over layers and points equal the functional close |
| Batcher.Device.Publish | site/src/lib/batch.ts:355-372 | the passes over the open messages |
| Batcher.Device.NextDeadline | site/src/lib/batch.ts:441-450 | a frame has ended or a sample is due at some time if and only if the returned deadline is no later |
| BatchSample.Pack | site/src/lib/batch.ts:417-437 | a sample's series are all published, per topic and in order, in messages that are not empty and within the budget, none of which could have taken the first series of the next |
| BatchSlot.RunTotalled | site/src/lib/batch.ts:128-156 | after any run of readings, stale links and samples on a clock that does not step back the sum is the integral of the held value since the last sample and the good time the time with a value |
| BatchSlot.SampleIsTheMean | site/src/lib/batch.ts:393-416 | a sample is published exactly if a value was held for some time; its mean is the integral over that time, its range the smallest and largest value seen, and the mean lies between them |
| BatchSlot.TotalsOnAnyClock | site/src/lib/batch.ts:137-144 | for every run, also on a clock that steps back, the sums are the integral over the time the clock moved forward |
| BatchSlot.SampleOnAnyClock | site/src/lib/batch.ts:393-416 | the same of samples: on any clock the published mean is that over the time the clock moved forward, and lies between the published minimum and maximum |
| BatchReports.PointReports | site/src/lib/batch.ts:398-416 | the series of a sampled point are what its history makes of them, aggregate by aggregate |
| BatchSlot.Slot.Hold | site/src/lib/batch.ts:145-149 | holding a value or none |
| BatchSlot.Slot.TakeSample | site/src/lib/batch.ts:404-416 | what a slot publishes, and its restart |
| Report.NoUpdateIsLostExactly | site/src/lib/report.ts:202-326 | the latest reading is published, held, debouncing or no change, after every live or replayed run, if and only if the policy does not combine debounce and min_interval |
| Report.NoUpdateIsLost | site/src/lib/report.ts:202-326 | the sufficient half, from any start time |
| Report.CombinedPolicyLoses | site/src/lib/report.ts:298-326 | under every combined policy a run exists that loses the latest reading |
| Report.LiveUpdatesAreKeptExactly | site/src/lib/report.ts:202-326 | without replay, and a heartbeat longer than the rate limit, updates are kept if and only if the two are not combined or the debounce is no shorter |
| Report.StepKeepsQuality | site/src/lib/report.ts:189-199 | whatever waits to be published has the quality of what was published last, so publishing it with that quality is right |
| Report.PublicationsAreSpaced | site/src/lib/report.ts:234-326 | in live runs two successive publications closer than min_interval differ in quality |
| ReportRules.OfferExactly | site/src/lib/report.ts:234-276 | an offered reading is published exactly if it is the first, of another quality, due as a heartbeat, or a change no debounce and no rate limit stops; held exactly if only the rate limit does; debouncing exactly if it is a change that has not settled |
| ReportRules.DebounceExactly | site/src/lib/report.ts:240-264 | a debouncing reading counts its time from the first one it agrees with, another value starts again, and the published value ends it |
| ReportRules.PassExactly | site/src/lib/report.ts:278-326 | what time alone does: a reading whose rate limit has ended is published or is no change, a settled one is published, held while the limit runs, or no change, and nothing else happens |
| ReportRules.SettledIsReleased | site/src/lib/report.ts:308-318 | a pass at or after the end of its debounce leaves no reading debouncing |
| ReportRules.HistoryPublishesAsLive | site/src/lib/report.ts:209-223 | replaying a history publishes what a live run at the source times publishes |
| ReportRules.ReadAskedExactly | site/src/lib/report.ts:285-296 | a pass asks for a heartbeat read exactly if neither a publication nor a read is recent enough, off source time |
| Report.ReportState.OfferLive | site/src/lib/report.ts:202-207 | the in-place offer is the step function |
| Report.ReportState.OfferReplayed | site/src/lib/report.ts:209-223 | the in-place replayed offer is the step function, which publishes as a live run at source times (HistoryPublishesAsLive) |
| Report.ReportState.Pass | site/src/lib/report.ts:278-296 | the in-place due pass is the step function, whose effect PassExactly states |
| Alarm.AlwaysInStep | flows/ot-alarm/main.js:176-262 | through every interleaving of samples, link statuses, hand-overs, late echoes and restarts a known state is the retained one and an alarm's messages alternate |
| Alarm.NeverRaisedTwice | flows/ot-alarm/main.js:181-246 | no message raises an alarm that stands when it is published |
| Alarm.EvaluateIs | flows/ot-alarm/main.js:119-141 | a condition starts only where it holds outright, ends only outside the band of the limit that raised it, and stays open only in a band nothing is known about |
| Alarm.HysteresisGap | flows/ot-alarm/main.js:119-141 | for every condition, and through any readings in between that leave the alarm to the limit that raised it, the value moved back by more than the hysteresis between raising and clearing, at either limit |
| Alarm.SettleIsTheCondition | flows/ot-alarm/main.js:200-243 | after a reading of the owning point the retained alarm is the condition |
| Alarm.RaisedUnlessSeen | flows/ot-alarm/main.js:94-98 | an alarm the flow knows nothing of is raised exactly when the record has not seen it standing, which is why retained alarms must be replayed first |
| AlarmTurns.LinkStatusExactly | flows/ot-alarm/main.js:248-262 | after a link status with a list every alarm owned by a point of that protocol outside it is nobody's, clear and not standing, and every other is unchanged, on the broker and to the flow; without a list nothing changes |
| AlarmTurns.SampleExactly | flows/ot-alarm/main.js:181-246 | after a sample, for every alarm: one of another point is unchanged; one it declares is its point's and stands exactly if its condition is known to hold; one its describing point owned and declares no more is nobody's and not standing; any other is unchanged |
| AlarmTurns.EvaluateReason | flows/ot-alarm/main.js:119-141 | a condition holds by the first of its parts that does |
| Alarm.AlarmFlow.HandleSample | flows/ot-alarm/main.js:181-246 | the in-place sample handler is the functional turn |
| Alarm.AlarmFlow.HandleLinkStatus | flows/ot-alarm/main.js:248-262 | the in-place link status handler is the functional turn |
| Alarm.RecordCatchesUp | flows/ot-alarm/alarm-state.js:17-20 | in every run the record lags behind the broker by exactly the messages on their way: once these have arrived it says of each alarm whether it stands |
| AlarmTurns.RecordCatchesUpInTime | flows/ot-alarm/alarm-state.js:17-20 | after any run and as many deliveries as are on their way, the record says exactly which alarms stand, and nothing else has changed |
| Wildcard.WildcardMatch | impl/rust/src/main.rs:961-985 | the loop ends for every pattern and text, accepts only true matches, and accepts all of them if the text or the pattern has no literal star |
| Wildcard.RightExactlyWithoutStars | impl/rust/src/main.rs:961-985 | the matcher is right about a text for every pattern if and only if the text has no star |
| Wildcard.LastStarIsEnough | impl/rust/src/main.rs:966-982 | a match through an earlier star can be had through the latest one |
| Wildcard.ScanSound | impl/rust/src/main.rs:961-985 | whatever the loop accepts matches |
| Ber.ElementOfTlv | connectors/snmp/conformance/tools/genvectors.py:37-62 | an element among any other bytes decodes to its tag and content; multi-octet tags and 2^32 octets or more are refused |
| Ber.IntRoundTrip | connectors/snmp/conformance/tools/genvectors.py:72-134 | every 64-bit integer survives encoding and decoding |
| Ber.IntIsMinimal | connectors/snmp/conformance/tools/genvectors.py:128-134 | no accepted content of an integer is shorter than the encoder's |
| Ber.UnsignedRoundTrip | connectors/snmp/conformance/tools/genvectors.py:78-140 | every unsigned value within the limit survives encoding and decoding |
| Ber.OidRoundTrip | connectors/snmp/conformance/tools/genvectors.py:87-113 | every object identifier of at most 128 arcs survives encoding and decoding |
| Ber.DecOidIsValid | connectors/snmp/conformance/tools/genvectors.py:87-113 | what the decoder accepts is a valid object identifier |
| Ber.CanonicalIsStable | connectors/snmp/conformance/tools/genvectors.py:142-168 | for every accepted content, minimal or not, decoding its canonical octets gives the same value and the same octets |
| BerValues.ElementExactly | connectors/snmp/conformance/tools/genvectors.py:37-62 | an element is accepted exactly if its tag is one octet and its definite length, in the short form or in one to four octets, ends within the buffer |
| BerValues.DecOidExactly | connectors/snmp/conformance/tools/genvectors.py:87-113 | an identifier is accepted exactly if its octets spell its subidentifiers, padded or not, the first of them both first arcs |
| BerValues.MeaningExactly | connectors/snmp/conformance/tools/genvectors.py:142-168 | per tag the number, identifier or octets any content decodes to, non-minimal content included, and which contents are refused |
| BerValues.CanonicalExactly | connectors/snmp/conformance/tools/genvectors.py:142-168 | canonical octets keep the meaning and are no longer than what came in |
| Ber.EncInt | connectors/snmp/conformance/tools/genvectors.py:128-134 | the loop finds the fewest octets that hold the value |
| Ber.EncodeOid | connectors/snmp/conformance/tools/genvectors.py:281-291 | the loops over arcs and seven-bit groups give the specified octets |

## Left out

- ParameterInvariants.EveryRunIsConsistent: messages with an empty point id are not covered; ClaimMakesOwner shows that an empty id breaks the correspondence of owners and claims.
- Parameter state of several devices, and the table of services that declare for a device: one device is modelled, and a descriptor names its protocol.
- JSON and TOML parsing, string keys of the shared store, the order JavaScript gives integer-like object keys, and prototype properties.
- The order of the messages a flow returns for one input, and units messages (site/src/lib/batch.ts:465-473).
- The text of numbers: a series' size in bytes is given with the reading. IEEE rounding, NaN and infinities: values are reals; a value that is not finite is refused as in the source.
- Archive answers that are errors or lack the point, archived items without a valid timestamp or value, and the JSON text a value is compared by.
- A cursor file written for another WebId, and failures to write it; a flush is one step.
- The ring of queued events is a FIFO without a fixed size: a full ring is the same as waiting, and a stop while waiting is a number of pushes after which the stop is seen.
- Several targets interleaving within one poll: Worker.Poll is about one target of its chunk. PiPush covers all targets of a service.
- Other threads changing the shared chunk size while a request is halved, and overflow of sizes: ReadAll halves each request that is answered as too long.
- HTTP, TLS, WebSocket, MQTT and threads: only an answer, a queue or a message is modelled.
- Severities and texts of alarms, alarm topics and more than one device.
- decode_pdu and message headers of the BER tool, and value conversions.
- Reading policies from configuration tables (site/src/lib/report.ts:36-107), and merging batch tables: only easy members.
- The other flows (events, series, registration, measurement), the supervision of connector processes, the command line and the site's interface.
