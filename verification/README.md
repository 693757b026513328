# A model of the collaboration server, and what it keeps

The server behind this project keeps issues in forests, mirrors issue dates into
a calendar, runs call rooms over a selective forwarding unit (SFU), tells who is
present where, and administers teams. This Dafny project models the parts of it
that carry state, recursion or arithmetic, and proves what holds of them over all
inputs and all runs. `dafny verify dfyconfig.toml` checks everything.

## Modules

| files | what they model |
|---|---|
| `IssueForest`, `ProgressRollUp`, `RollUpTheory`, `IssuesService` | the issue table as a forest, the recursive roll-up of progress by floored means, and the service methods that update the table in place |
| `GroupWalks` | the two ancestor walks that find the group a new issue inherits |
| `ForestListing`, `IssueTree` | linking a flat list of issue objects into a forest in place, and copying it out as a nested response |
| `CalendarSync` | the link between issues and their calendar events, over every operation on either side |
| `CivilTime`, `Analytics` | days, months and years of section 21.4.1 of ECMA-262 on a fixed-offset clock, and the analytics query built on them |
| `SfuStore`, `SfuEffects`, `SfuPairing`, `SfuService` | the four maps of the SFU with their index sets, as a state machine, what each step does to every entry, and the service methods |
| `SfuSnapshot`, `SfuFacade` | the write-through room snapshots in Redis, with the queue of pending commands |
| `Presence`, `ChatGateway` | the chat gateway's five maps beside the SFU |
| `TeamMembership`, `TeamEffects`, `TeamService` | teams, workspaces, invites, custom roles and permissions; when each call is refused and what it writes; the service methods |
| `TeamFeed` | cursor paging of the team feed |
| `Mentions` | the mention scanner and renderer |
| `WorkerSupervisor`, `MediasoupService` | the retry loop that keeps one media worker alive |

Services that change state are classes whose methods run the loops and
assignments of the source and are proved equal to functions on the state; what
every run keeps is proved about those functions. Besides, each operation is
described without its function: which rows, members or columns it changes, to what,
and that it changes no others. Keys that the database or the
library generates are parameters that have not been issued before. Query results,
`Map` and `Set` iterations are taken in any order.

## Where a promise fails, and exactly when

- The analytics query of the five services reads a year below 100 as one of the
  twentieth century. A monthly query covers one year for every year but -1 and 99
  (`Analytics.MonthlyCoversOneYear`, `Analytics.MonthlyOf99CountsNothing`); the daily and hourly queries agree for all.
- `closeProducer` does not look for the owner of the producer it is given, and
  strikes keys in the named room only. The index stays sound, but lists can keep
  keys of producers and consumers that are gone, even when the producer named was
  gone before: exactly under the complement of `SfuPairing.CloseKeepsLists`
  (`SfuPairing.ForeignCloseLeavesKeys`, `SfuPairing.CloseOfGoneLeavesKeys`). The
  snapshot cache survives a close exactly under `SfuSnapshot.ForeignCloseExactly`
  (`SfuSnapshot.ForeignCloseIsNotSeen`). Of all other steps only a rejoin can leave
  such keys (`SfuPairing.StepKeepsListsExactly`), and exactly when entries with and
  without a handle are mixed (`SfuPairing.RejoinKeepsListsExactly`,
  `SfuPairing.MixedRejoinLeavesKeys`).
- A disconnect forgets the user whatever other sockets the user has, so the list
  of online users is complete exactly under `Presence.DisconnectLosesSecondSockets`
  (`Presence.TwoTabsOneClosed`).
- A feed cursor keeps milliseconds while the table keeps microseconds, and the
  comparison is strict, so a page boundary inside a millisecond skips logs;
  `TeamFeed.WalkIsCompleteExactly` says exactly when
  (`TeamFeed.SameMillisecondSkips`).
- `updateProgress` on an issue with subtasks writes a value that its subtasks do
  not have as their mean; that issue alone is then off
  (`ProgressRollUp.UpdateSettles`, `ProgressRollUp.UpdatedParentIsOff`).
- In library mode a rejoin returns at the first handle it meets, so the cleanup of
  the peer is partial. A user who was on air is taken off air exactly when no live
  consumer or producer that the peer lists has a handle
  (`SfuService.RejoinSilencesExactly`, `SfuService.ConsumerHandleKeepsOnAir`).
- A library producer that goes with its transport, as all do when the worker dies,
  leaves the store without a snapshot being written, so the snapshot of its room
  may hold media that is gone: exactly under the complement of
  `SfuSnapshot.LibraryEventExactly` (`SfuSnapshot.TransportCloseIsNotSeen`).
  `SfuSnapshot.RunKeepsCoherence` says for every run which rooms can be affected.
  No client of the model is shown such a snapshot: the one reader, `sfu.join`,
  writes the room before it reads it (`SfuSnapshot.MergedStatesAreLive`).
- Only an owner is to make, change or remove a manager. The code asks this of actors
  whose own role is Manager and of nobody else, so a member or guest with the
  permission by a custom role may (`TeamMembership.OnlyOwnersRankExactly`,
  `TeamMembership.GuestDemotesManager`). Invites are not asked at all: whoever may
  invite makes managers and owners (`TeamMembership.OfferMakesLeaderExactly`,
  `TeamMembership.ManagerSeatsLeader`).
- A custom role that grants anything replaces what the team role grants, so a
  manager can lose permissions (`TeamMembership.ManagerHoldsAllExactly`,
  `TeamMembership.AssignedRoleReplaces`,
  `TeamMembership.CustomRoleTakesManagersPermission`). Owners are never given one
  and keep all (`TeamMembership.OwnerHoldsAll`).
- `updateIssue` keeps the issues a forest exactly when the new parent is not the
  issue itself and not below it, which nobody checks
  (`CalendarSync.UpdateKeepsForestExactly`, `CalendarSync.ParentMovedBelowChild`).
  On a cycle the board leaves out what is on it or below it (`IssueTree.BoardOf`),
  the group walks end exactly under `GroupWalks.SearchEndsExactly`, and the
  recalculation of progress exactly under `ProgressRollUp.RecursionEndsExactly`
  (`ProgressRollUp.CycleNeverEnds`).

## Model

| member | source | states |
|---|---|---|
| `IssueForest.AcyclicIffNoCycle` | src/modules/issues/issues.service.ts:763-779 | every walk up `parentId` ends if and only if no issue is its own proper ancestor |
| `IssueForest.Cascade` | src/database/migrations/1767941914170-AddDocs_Notification_IssueModule.ts:24 | the level-by-level cascade of the foreign key deletes exactly the issue and its descendants |
| `IssueForest.InsertKeepsAcyclic` | src/modules/issues/issues.service.ts:555-577 | saving a new issue under an existing parent makes no cycle and no dangling parent |
| `IssueForest.DeleteKeepsAcyclic` | src/modules/issues/issues.service.ts:677-721 | a cascading delete leaves no dangling parent and no cycle |
| `IssueForest.MoveKeepsAcyclicExactly` | src/modules/issues/issues.service.ts:305-345 | rewriting a row of a forest keeps it a forest iff the row names no parent, or one that is not the issue itself nor below it |
| `ProgressRollUp.RollUpSettlesAncestors` | src/modules/issues/issues.service.ts:763-779 | recalculating from a parent makes that parent and all its ancestors the floored mean of their children, and leaves every other node as off or settled as it was |
| `ProgressRollUp.RollUpWritesInnerProgress` | src/modules/issues/issues.service.ts:763-779 | a recalculation writes no column but `progress` and no leaf |
| `ProgressRollUp.RollUpWritesAbove` | src/modules/issues/issues.service.ts:763-779 | a recalculation from a parent writes nothing that is not the parent or above it |
| `ProgressRollUp.RecursionEndsExactly` | src/modules/issues/issues.service.ts:763-779 | the recursion comes to an end iff the parent is unknown or childless, or the walk up from it ends |
| `ProgressRollUp.CycleNeverEnds` | src/modules/issues/issues.service.ts:763-779 | on two issues that are each other's parent the recursion never ends |
| `ProgressRollUp.UpdateSettles` | src/modules/issues/issues.service.ts:724-760 | after `updateProgress` the updated node is off iff it has children with another mean, its ancestors are settled, and everything else is as before |
| `ProgressRollUp.UpdateStores` | src/modules/issues/issues.service.ts:724-760 | `updateProgress` stores the value in that row; of the other rows only the progress of what is above may differ, and each of those is settled |
| `ProgressRollUp.UpdatedParentIsOff` | src/modules/issues/issues.service.ts:724-760 | a parent of one subtask that is given another progress than the subtask's is off, in a forest that was rolled up |
| `ProgressRollUp.AddSettles` | src/modules/issues/issues.service.ts:533-599 | after `addSubtask` the parent and its ancestors are settled and no other node changes its state |
| `ProgressRollUp.AddStores` | src/modules/issues/issues.service.ts:533-599 | `addSubtask` stores the row as given; of the other rows only the progress of what is above it may differ, and each of those is settled |
| `ProgressRollUp.DeleteUnsettlesParentOnly` | src/modules/issues/issues.service.ts:677-721 | the cascading delete alone can unsettle only the parent of the deleted issue |
| `ProgressRollUp.RemoveSettles` | src/modules/issues/issues.service.ts:677-721 | after `removeSubtask` the parent is settled and no surviving node is off that was not before |
| `ProgressRollUp.RemoveStores` | src/modules/issues/issues.service.ts:677-721 | `removeSubtask` takes exactly the subtree away; of the survivors only the progress of what was above may differ, and is settled where the parent's project is alive and the parent has a subtask left |
| `ProgressRollUp.StepKeepsSound` | src/modules/issues/issues.service.ts:533-779 | every step keeps the table an acyclic forest over live projects with progress in 0..100 |
| `ProgressRollUp.StepOff` | src/modules/issues/issues.service.ts:533-779 | a step leaves off only what was off before and an inner node it overwrote itself |
| `ProgressRollUp.RunKeepsRollUp` | src/modules/issues/issues.service.ts:533-779 | over every run of the three operations the forest stays sound, and a parent that differs from the floored mean of its children was off at the start or was itself overwritten while it had children |
| `ProgressRollUp.LeafRunsStayRolledUp` | src/modules/issues/issues.service.ts:533-779 | from a rolled-up forest, runs that update only leaves end in a rolled-up forest |
| `RollUpTheory.DriftBelowHeight` | src/modules/issues/issues.service.ts:769-778 | in a rolled-up forest the progress of a node of height h is at most the exact nested mean over its leaves and less than h points below it |
| `RollUpTheory.HeightExists` | src/modules/issues/issues.service.ts:763-779 | every node of an acyclic table has a height, so the drift bound covers every node |
| `RollUpTheory.ExactIndependentOfBound` | src/modules/issues/issues.service.ts:769-778 | the exact nested mean does not depend on the bound used for the height |
| `RollUpTheory.RollUpMonotone` | src/modules/issues/issues.service.ts:769-778 | two rolled-up forests of one shape whose leaves compare the same way compare that way at every node |
| `RollUpTheory.ShapeAndLeavesDecide` | src/modules/issues/issues.service.ts:724-779 | the shape and the leaf values alone decide the progress of every node |
| `RollUpTheory.LeafUpdate` | src/modules/issues/issues.service.ts:724-760 | updating a leaf of a rolled-up forest gives a rolled-up forest of the same shape with the other leaves untouched |
| `RollUpTheory.LeafUpdatesCommute` | src/modules/issues/issues.service.ts:724-760 | updates of two distinct leaves commute, table for table |
| `RollUpTheory.RaisingALeafLowersNothing` | src/modules/issues/issues.service.ts:724-779 | raising a leaf lowers no issue |
| `RollUpTheory.RollUpIdempotent` | src/modules/issues/issues.service.ts:763-779 | recalculating a rolled-up forest changes nothing |
| `GroupWalks.FindNearestGroupId` | src/modules/issues/issues.service.ts:841-851 | whenever the loop ends: the group of the nearest issue at or above the parent that has one, None iff none has |
| `GroupWalks.InheritedGroup` | src/modules/issues/issues.service.ts:544-553 | the loop inside `addSubtask` meets the same specification under the same condition |
| `GroupWalks.NearestGroupUnique` | src/modules/issues/issues.service.ts:544-553 | that specification has one answer, so both walks agree |
| `GroupWalks.SearchEndsExactly` | src/modules/issues/issues.service.ts:841-851 | both loops end iff the walk up the parents ends or meets an issue with a group, cycles included |
| `IssuesService.IssuesService.RecalculateParentProgress` | src/modules/issues/issues.service.ts:763-779 | wherever the recursion ends at all, the writes in place equal the roll-up of the table and it terminates |
| `IssuesService.IssuesService.UpdateProgress` | src/modules/issues/issues.service.ts:724-760 | NotFound exactly for an unknown issue; otherwise the stored row is the answer, every other row keeps all columns but the progress of ancestors, and these are settled |
| `IssuesService.IssuesService.AddSubtask` | src/modules/issues/issues.service.ts:533-599 | where the walk up from the parent ends: when it is refused, the row it answers with its inherited group is the row it stores, every other row keeps all columns but the progress of ancestors, and these are settled |
| `IssuesService.IssuesService.RemoveSubtask` | src/modules/issues/issues.service.ts:677-721 | where the recalculation ends: when it is refused, the parent key it reports, that exactly the subtree goes, and what of the rest changes |
| `IssueTree.BuildIssueTree` | src/modules/issues/issues.service.ts:818-839 | in place: each `subtasks` holds the issues that name it as parent, the result those that name none of the list, all of them and in list order |
| `IssueTree.FiltersKeepOrder` | src/modules/issues/issues.service.ts:818-839 | the subtasks of an issue and the roots are picked from the list at growing positions, all that qualify and no others |
| `IssueTree.RootsAreRoots` | src/modules/issues/issues.service.ts:825-838 | the returned roots are exactly the parentless issues of the table, each once |
| `IssueTree.ResponseIsListing` | src/modules/issues/utils/issues.mapper.ts:5-54 | the response tree of an issue, read parents first, is the listing of the linked forest below it |
| `IssueTree.MapIssueToResponse` | src/modules/issues/utils/issues.mapper.ts:5-54 | the recursion terminates on such a forest and keeps keys, progress, parents and the order of subtasks |
| `IssueTree.ResponseIsFaithful` | src/modules/issues/utils/issues.mapper.ts:5-54 | at every depth a response shows the row of its key and stands below the issue that row names as parent |
| `IssueTree.GroundedIsForest` | src/modules/issues/issues.service.ts:818-839 | what remains without cycles and what hangs below them is a forest with the same children, and is the whole table iff that is acyclic |
| `ForestListing.ListingIsSubtree` | src/modules/issues/issues.service.ts:818-839 | listing an issue and its linked subtasks lists its subtree, each issue once |
| `ForestListing.ListingIsEverything` | src/modules/issues/issues.service.ts:818-839 | listing all roots is a permutation of the whole table |
| `IssueTree.BoardOf` | src/modules/issues/issues.service.ts:62-73 | `getProjectBoard` end to end, on every list of distinct issues: it terminates and the nested response holds exactly the issues whose walk up the parents ends, each once with its own row below its parent, parentless ones on top in list order |
| `CalendarSync.EventsAreNotShared` | src/modules/issues/utils/sync-calendar-event.ts:6-30 | under the link invariant no two issues share an event |
| `CalendarSync.SyncRestoresLink` | src/modules/issues/utils/sync-calendar-event.ts:6-30 | whatever the dates of one issue were, the create/update/delete decision restores the link invariant |
| `CalendarSync.SyncDoes` | src/modules/issues/utils/sync-calendar-event.ts:6-30 | one of three things happens to the issue's own event, and no other event or row changes |
| `CalendarSync.EventUpdateRestoresLink` | src/modules/calendar/calendar.service.ts:922-946 | refreshing the event from its issue restores the link invariant |
| `CalendarSync.UpdateKeepsLinked` | src/modules/issues/issues.service.ts:287-369 | `updateIssue` with any changed columns keeps all links and dates in step |
| `CalendarSync.UpdateDoes` | src/modules/issues/issues.service.ts:287-369 | column by column: a given member is stored, an absent one keeps its column; changed days are shown by the issue's own event, under its title and at midnight UTC; no other row or event changes |
| `CalendarSync.UpdateKeepsForestExactly` | src/modules/issues/issues.service.ts:287-369 | `updateIssue` keeps a forest a forest iff it names no parent, or one that is not the issue itself nor below it; the code has no such guard |
| `CalendarSync.ParentMovedBelowChild` | src/modules/issues/issues.service.ts:287-369 | moving a parent below its own child makes the two each other's parent |
| `CalendarSync.DeleteKeepsLinked` | src/modules/issues/issues.service.ts:397-427 | `deleteIssue` takes its own event along and breaks no other link |
| `CalendarSync.DragMovesThatEvent` | src/modules/calendar/calendar.service.ts:956-986 | dragging an issue-sourced event moves the linked issue, and the refreshed event is the dragged one |
| `CalendarSync.DragDoes` | src/modules/calendar/calendar.service.ts:956-986 | the linked issue takes both days and the dragged event is refreshed from it; no other row or event changes |
| `CalendarSync.StepKeepsLinked` | src/modules/calendar/calendar.service.ts:707-799 | each operation on either table keeps the link invariant; issue-sourced events cannot be edited or deleted by hand |
| `CalendarSync.RunKeepsLinked` | src/modules/issues/issues.service.ts:177-427 | in every run each set `calendarEventId` names a live issue-sourced event that links back with the same days, and an event whose issue exists is the one that issue names |
| `CalendarSync.IssueCalendar.UpdateEventFromIssue` | src/modules/calendar/calendar.service.ts:922-946 | refreshes title and times of the linked event only |
| `CalendarSync.IssueCalendar.SyncCalendarEvent` | src/modules/issues/utils/sync-calendar-event.ts:6-30 | the three-way decision, with both whole new tables |
| `CalendarSync.IssueCalendar.CreateIssue` | src/modules/issues/issues.service.ts:177-284 | when it throws; the new row, its group, the dates that are given or default, and its new event; everything else unchanged; the forest and the links stay sound |
| `CalendarSync.IssueCalendar.UpdateIssue` | src/modules/issues/issues.service.ts:287-369 | NotFound for an unknown issue or group, a foreign-key error for an unknown parent; otherwise the stored row member by member, the event that follows changed days, everything else unchanged, and when it keeps the forest |
| `CalendarSync.IssueCalendar.RemoveIssue` | src/modules/issues/issues.service.ts:371-395 | deletes the subtree and leaves its events |
| `CalendarSync.IssueCalendar.DeleteIssue` | src/modules/issues/issues.service.ts:397-427 | deletes the subtree and the event of the issue itself |
| `CalendarSync.IssueCalendar.UpdateIssueDatesFromCalendar` | src/modules/calendar/calendar.service.ts:956-986 | Forbidden or NotFound; otherwise the linked issue takes both days, the dragged event shows them under its title, and nothing else changes |
| `CalendarSync.IssueCalendar.UpdateEvent` | src/modules/calendar/calendar.service.ts:707-771 | NotFound, Forbidden for issue-sourced events, or the event with the given members written and the others kept |
| `CalendarSync.IssueCalendar.DeleteEvent` | src/modules/calendar/calendar.service.ts:773-799 | NotFound, Forbidden for issue-sourced events, or one manual event fewer |
| `CivilTime.DayFromYearClosedForm` | src/modules/issues/issues.service.ts:134-173 | counting days year by year agrees with the closed form of section 21.4.1 of ECMA-262, for every year |
| `CivilTime.MonthTable` | src/modules/issues/issues.service.ts:146-158 | the twelve months of every year begin on the days of the table of ECMA-262, section 21.4.1.11 |
| `CivilTime.MakeDayClosedForm` | src/modules/issues/issues.service.ts:146-158 | every year, month and date, in or out of range, as one closed formula without a table or a case on leap years |
| `CivilTime.TwoDigitYears` | src/modules/issues/issues.service.ts:134-158 | a year of two digits is taken as one of the twentieth century, and any other as itself |
| `CivilTime.NewYear2024` | Dockerfile:7 | on the server's clock 2024 begins at 15:00 UTC of the day before |
| `CivilTime.DatePartsRoundTrip` | src/modules/issues/issues.service.ts:134-173 | for every date of the calendar, year, month and date are read back from the day they denote |
| `CivilTime.NextMonth` | src/modules/issues/issues.service.ts:134-158 | the first of the next month is one month length later, across year ends and for months outside 0..11 |
| `Analytics.BucketInRange` | src/modules/issues/issues.service.ts:134-173 | no accepted query counts outside its counters |
| `Analytics.LastDayOfMonth` | src/modules/issues/issues.service.ts:146-158 | `new Date(y, m, 0)` gives the length of the month, leap years included |
| `Analytics.GetAnalytics` | src/modules/issues/issues.service.ts:125-174 | BadRequest exactly for missing or malformed arguments; otherwise 24 counters, one for each day of the month or 12, and each is the number of rows of its hour, day or month |
| `Analytics.CountRows` | src/modules/issues/issues.service.ts:160-173 | the counting loop in place, and that it never indexes outside |
| `Analytics.CountersSumToRows` | src/modules/issues/issues.service.ts:160-173 | the counters of every accepted query sum to the rows in [start, end) |
| `Analytics.HourlyCounter` | src/modules/calendar/calendar.service.ts:582-638 | counter k of an hourly query counts exactly the rows of hour k of the day |
| `Analytics.DailyCounter` | src/modules/calendar/calendar.service.ts:582-638 | counter k of a daily query counts exactly the rows of day k of the month |
| `Analytics.HoursSumToDay` | src/modules/issues/issues.service.ts:134-173 | the 24 hourly counts of a day sum to the counter of that day in the daily query of its month |
| `Analytics.DaysSumToMonth` | src/modules/issues/issues.service.ts:134-173 | the daily counts of a month sum to its counter in the monthly query |
| `Analytics.MonthlyCounter` | src/modules/issues/issues.service.ts:134-173 | counter k of a monthly query counts exactly the rows of month k |
| `Analytics.CountersCountSpans` | src/modules/issues/issues.service.ts:134-173 | every counter is the number of rows between two consecutive hours, days or months, but for the monthly query of the years -1 and 99 |
| `Analytics.MonthlyCoversOneYear` | src/modules/issues/issues.service.ts:134-173 | a monthly query covers one calendar year iff the year is neither -1 nor 99, where the two-digit-year rule of the Date constructor splits its ends |
| `Analytics.MonthlyOf99CountsNothing` | src/modules/issues/issues.service.ts:134-173 | for the year 99 the monthly query counts no row at all |
| `SfuStore.NextKeepsInv` | src/modules/sfu/sfu.store.ts:10-13 | every operation and library event keeps the index invariant: each entry belongs to an existing room and peer whose set lists it, and each listed live key belongs to that peer |
| `SfuStore.ReachableStoresAreSound` | src/modules/sfu/sfu.store.ts:10-13 | every store that any run of operations and library events reaches from the empty one satisfies the index invariant |
| `SfuEffects.NextDoes` | src/modules/sfu/sfu.store.ts:10-13 | what every operation and library event does to each room, router, peer and entry, said without the functions that compute the next store |
| `SfuEffects.EffectDecides` | src/modules/sfu/sfu.store.ts:10-13 | but for a rejoin, that description fits one store only |
| `SfuEffects.ConsumeAnswers` | src/modules/sfu/consumer.service.ts:17-42 | when `consume` succeeds and which of its four errors it throws first, as conditions on the store |
| `SfuStore.JoinKeepsInv` | src/modules/sfu/room.service.ts:20-39 | joining and rejoining in fallback mode keep the invariant |
| `SfuStore.FallbackRejoin` | src/modules/sfu/room.service.ts:41-72 | a rejoin without handles has one outcome, the complete cleanup |
| `SfuStore.RejoinKeepsInv` | src/modules/sfu/room.service.ts:41-72 | a rejoin keeps the index invariant at whichever handle it stops |
| `SfuStore.WorkerDiedKeepsInv` | src/modules/sfu/mediasoup.service.ts:123-140 | taking every router from the shared store keeps the index invariant |
| `SfuStore.ClosedKeepsInv` | src/modules/sfu/producer.service.ts:81-102 | closing producers keeps the invariant whoever owns them and whatever room is named |
| `SfuStore.ProduceKeepsInv` | src/modules/sfu/producer.service.ts:18-79 | so does producing |
| `SfuStore.ConsumeKeepsInv` | src/modules/sfu/consumer.service.ts:17-96 | so does consuming, refusals included |
| `SfuStore.CreateTransportKeepsInv` | src/modules/sfu/transport.service.ts:20-65 | so does creating a transport, also for a user who has not joined |
| `SfuStore.ListsExactlyOwn` | src/modules/sfu/sfu.store.ts:10-13 | among live keys a peer lists exactly its own entries |
| `SfuStore.TeardownIsExact` | src/modules/sfu/room.service.ts:74-101 | `leaveRoom` deletes precisely the entries of that room and user |
| `SfuStore.LeftRoomsCompose` | src/modules/sfu/room.service.ts:103-111 | leaving rooms one by one is leaving them at once |
| `SfuStore.LeaveAllLeavesNothing` | src/modules/sfu/room.service.ts:103-111 | after leaving all rooms no entry of the user is left and no entry of others is gone |
| `SfuStore.ClosedCompose` | src/modules/sfu/producer.service.ts:104-114 | closing producers one by one is closing them at once |
| `SfuPairing.NextKeepsPaired` | src/modules/sfu/sfu.store.ts:10-13 | every operation keeps: a live producer sits on a send transport of its user, a live consumer on a receive transport of its user with the room and kind of the producer it consumes, as far as those are live |
| `SfuPairing.ReachableStoresArePaired` | src/modules/sfu/sfu.store.ts:10-13 | in every store that any run reaches from the empty one, live entries fit together in that way |
| `SfuPairing.ProduceExtends` | src/modules/sfu/producer.service.ts:18-79 | producing adds at most one entry, on a send transport of that user |
| `SfuPairing.ConsumeExtends` | src/modules/sfu/consumer.service.ts:17-96 | consuming adds at most one entry, on a receive transport of that user, of the kind and in the room of the producer |
| `SfuPairing.StepKeepsListsExactly` | src/modules/sfu/sfu.store.ts:10-13 | a step keeps every list free of keys that are gone, unless it is a close of what is not the peer's own or is consumed in another room, or a rejoin that drops entries before it meets a handle; those two always leave keys listed |
| `SfuPairing.CloseKeepsLists` | src/modules/sfu/producer.service.ts:81-102 | exact lists stay exact under `closeProducer` iff the caller is no peer of the room, or the producer is the caller's own or gone and has no consumer in another room |
| `SfuPairing.RejoinKeepsListsExactly` | src/modules/sfu/room.service.ts:40-74 | exact lists stay exact under a rejoin, in whatever order it meets the entries, iff the library backs all or none of those it looks at first |
| `SfuPairing.FallbackRunKeepsLists` | src/modules/sfu/room.service.ts:47-96 | without the library and without `closeProducer` no run leaves a key that is gone in any list |
| `SfuPairing.ForeignCloseLeavesKeys` | src/modules/sfu/producer.service.ts:81-102 | in a store that a run reaches, a user of one room closes a producer of another: owner and consumer keep keys that are gone |
| `SfuPairing.CloseOfGoneLeavesKeys` | src/modules/sfu/producer.service.ts:81-102 | closing the key of a producer that a rejoin has already dropped deletes a consumer in another room and leaves its key listed |
| `SfuPairing.MixedRejoinLeavesKeys` | src/modules/sfu/room.service.ts:40-74 | in a store that a run reaches, a user with one producer of each kind of backing rejoins and keeps a key that is gone |
| `SfuService.MediaViewsAgree` | src/modules/sfu/room.service.ts:117-137 | a peer shows a kind iff the producer list has that user and kind; every listed producer belongs to a current peer |
| `SfuService.ForceMuteSilences` | src/modules/sfu/producer.service.ts:104-114 | after `closeUserProducers` the user shows no media and no consumer refers to a closed producer |
| `SfuService.RejoinSilences` | src/modules/sfu/room.service.ts:41-72 | without library handles a rejoin drops producers and consumers of the user and keeps its transports |
| `SfuService.RejoinSilencesExactly` | src/modules/sfu/room.service.ts:41-63 | after a rejoin the user is off air iff the user was off air before or no live consumer or producer that the peer lists has a library handle |
| `SfuService.ConsumerHandleKeepsOnAir` | src/modules/sfu/room.service.ts:47-52 | in a store that a run reaches, a peer with one library consumer and one producer without a handle rejoins and is still on air |
| `SfuService.SfuService.CleanupPeerResources` | src/modules/sfu/room.service.ts:41-72 | the loops stop at a consumer handle with all producers in place, else at a producer handle with all consumers gone, else never; in each case exactly what can be gone by then |
| `SfuService.SfuService.JoinRoom` | src/modules/sfu/room.service.ts:20-39 | a join step with the new socket noted, and for a rejoin exactly when it takes the user off air |
| `SfuService.SfuService.LeaveRoom` | src/modules/sfu/room.service.ts:74-101 | exactly the entries of that user in that room go, with the peer and an emptied room; a room that stays keeps its router and its other peers |
| `SfuService.SfuService.LeaveUserFromAllRooms` | src/modules/sfu/room.service.ts:103-111 | deleting rooms while iterating, returns exactly the rooms that held the user, once each; every other peer, entry and router stays |
| `SfuService.SfuService.GetPeerSocketId` | src/modules/sfu/room.service.ts:113-115 | the socket of the peer, None iff there is no such peer |
| `SfuService.SfuService.GetUserMediaState` | src/modules/sfu/room.service.ts:117-126 | the kinds the user sends in the room |
| `SfuService.SfuService.ListRoomMediaStates` | src/modules/sfu/room.service.ts:128-137 | the state of every peer of the room but the excluded one |
| `SfuService.SfuService.ListRoomProducers` | src/modules/sfu/producer.service.ts:116-128 | every producer of the room exactly once, without the excluded user |
| `SfuService.SfuService.CreateWebRtcTransport` | src/modules/sfu/transport.service.ts:20-65 | whole new store and when it throws |
| `SfuService.SfuService.ConnectTransport` | src/modules/sfu/transport.service.ts:67-80 | whole new store and when it throws |
| `SfuService.SfuService.Produce` | src/modules/sfu/producer.service.ts:18-79 | whole new store and each error |
| `SfuService.SfuService.Consume` | src/modules/sfu/consumer.service.ts:17-96 | whole new store, and which of the four errors is thrown, in the order of the checks |
| `SfuService.SfuService.CloseProducer` | src/modules/sfu/producer.service.ts:81-102 | whole new store, whoever owns the producer, and exactly when the lists stay exact |
| `SfuService.SfuService.CloseUserProducers` | src/modules/sfu/producer.service.ts:104-114 | whole new store and the keys it returns |
| `SfuService.SfuService.ProducerTransportClosed` | src/modules/sfu/producer.service.ts:59-62 | the `transportclose` handler of a library producer: whole new store |
| `SfuService.SfuService.ConsumerClosed` | src/modules/sfu/consumer.service.ts:58-65 | the `transportclose` and `producerclose` handler of a library consumer: whole new store |
| `SfuService.SfuService.InvalidateAllRouters` | src/modules/sfu/mediasoup.service.ts:123-140 | the loop over the shared rooms leaves none with a router and touches nothing else |
| `SfuSnapshot.StepTouchesPersistedRooms` | src/modules/sfu/sfu.facade.ts:63-107 | a step changes the picture of no room but those the facade persists and those it leaves unseen: the room of a producer closed in the name of another room, or lost with its transport, without a twin |
| `SfuSnapshot.UnseenRoomsChange` | src/modules/sfu/sfu.facade.ts:98-101 | and it does change the picture of those it leaves unseen |
| `SfuSnapshot.RedisKeepsCoherence` | src/modules/sfu/snapshot.service.ts:25-54 | applying the oldest command or expiring a snapshot keeps the cache coherent |
| `SfuSnapshot.PersistSettles` | src/modules/sfu/snapshot.service.ts:33-54 | persisting a room settles it, whatever its snapshot was; a room without peers has none |
| `SfuSnapshot.StepIsCoherentExactly` | src/modules/sfu/sfu.facade.ts:39-107 | from a coherent cache any operation or library event keeps it coherent iff no room it leaves unseen has a snapshot |
| `SfuSnapshot.RunKeepsCoherence` | src/modules/sfu/sfu.facade.ts:39-107 | in every run of facade calls, library events, command applications and expiries, draining the queue leaves each snapshot expired or current, but for rooms left unseen and not persisted since |
| `SfuSnapshot.SeenRunsStayCoherent` | src/modules/sfu/sfu.facade.ts:39-107 | so a run that leaves no room unseen keeps the cache coherent throughout |
| `SfuSnapshot.ForeignCloseExactly` | src/modules/sfu/sfu.facade.ts:98-101 | a close that names some room keeps the cache coherent iff nothing is closed, or the room is the producer's own, or that room has no snapshot, or a second producer of the kind hides the close |
| `SfuSnapshot.ForeignCloseIsNotSeen` | src/modules/sfu/sfu.facade.ts:98-101 | in a store that a run reaches, a close in the name of another room leaves every cache wrong that had the producer's room right |
| `SfuSnapshot.LibraryEventExactly` | src/modules/sfu/producer.service.ts:59-62 | when a library producer goes with its transport, the cache stays coherent iff the producer was gone already, or its room has no snapshot, or a second producer of the kind hides the loss |
| `SfuSnapshot.TransportCloseIsNotSeen` | src/modules/sfu/producer.service.ts:59-62 | in a store that a run reaches, a library producer goes with its transport, and every cache that had its room right is wrong afterwards |
| `SfuSnapshot.FilteredSnapshotIsLiveView` | src/modules/sfu/snapshot.service.ts:56-77 | a coherent snapshot read without a user equals the live listing without that user |
| `SfuSnapshot.PersistedReadIsLive` | src/modules/sfu/sfu.facade.ts:63-67 | reading a room that has just been persisted gives the live states, dated at the write, whatever the cache held before |
| `SfuSnapshot.MergedStatesAreLive` | src/modules/chat/gateways/chat.gateway.ts:650-667 | the merged media states answered to a joining user are those in memory, from any cache and any pending commands |
| `SfuFacade.SfuFacade.PersistRoomSnapshot` | src/modules/sfu/snapshot.service.ts:33-54 | issues exactly the command for the room as it is now |
| `SfuFacade.SfuFacade.JoinRoom` | src/modules/sfu/sfu.facade.ts:63-67 | a join event with its snapshot; keeps index and cache |
| `SfuFacade.SfuFacade.LeaveRoom` | src/modules/sfu/sfu.facade.ts:69-72 | a leave event with its snapshot; keeps index and cache |
| `SfuFacade.SfuFacade.LeaveUserFromAllRooms` | src/modules/sfu/sfu.facade.ts:74-78 | one event with a snapshot for each room left |
| `SfuFacade.SfuFacade.Produce` | src/modules/sfu/sfu.facade.ts:88-92 | persists exactly when the call does not throw |
| `SfuFacade.SfuFacade.CreateWebRtcTransport` | src/modules/sfu/sfu.facade.ts:80-82 | needs no snapshot: no picture changes |
| `SfuFacade.SfuFacade.Consume` | src/modules/sfu/sfu.facade.ts:94-96 | the answer of the service, and no snapshot is needed: no picture changes |
| `SfuFacade.SfuFacade.CloseProducer` | src/modules/sfu/sfu.facade.ts:98-101 | persists the named room, and when that keeps the cache coherent |
| `SfuFacade.SfuFacade.CloseUserProducers` | src/modules/sfu/sfu.facade.ts:103-107 | a close event with its snapshot, and the keys it returns |
| `SfuFacade.SfuFacade.ProducerTransportClosed` | src/modules/sfu/producer.service.ts:59-62 | nothing is persisted for a lost producer, and when that keeps the cache coherent |
| `SfuFacade.SfuFacade.GetPersistedRoomSnapshot` | src/modules/sfu/snapshot.service.ts:56-77 | drains the queue and returns the filtered snapshot of the room, if any |
| `Presence.HandlesKeepsPresence` | src/modules/chat/gateways/chat.gateway.ts:131-206 | every message keeps it: huddle participants, thread viewers and peers have live sockets, a noted socket is a live socket of that very user, and no empty member set is stored |
| `Presence.EnterEnters` | src/modules/chat/gateways/chat.gateway.ts:403-424 | after opening a thread or joining a huddle everybody who was in anything still is, and the user is in that one |
| `Presence.ExitAllExits` | src/modules/chat/gateways/chat.gateway.ts:171-206 | after a disconnect the user is in nothing, and nobody else has left anything |
| `Presence.DisconnectKeepsPresence` | src/modules/chat/gateways/chat.gateway.ts:171-206 | a disconnect forgets the user everywhere, so also with other sockets left nobody is listed without one |
| `Presence.OthersAddNoPeer` | src/modules/sfu/room.service.ts:20-39 | only a join makes a peer or moves one to another socket |
| `Presence.RunsFromTheStartKeepPresence` | src/modules/chat/gateways/chat.gateway.ts:36-40 | the presence invariant holds in every state that any run of connects, disconnects and room messages reaches from empty maps |
| `Presence.DisconnectLosesSecondSockets` | src/modules/chat/gateways/chat.gateway.ts:171-181 | after a disconnect every user with a socket is listed online iff the closed socket was the user's only one |
| `Presence.TwoTabsOneClosed` | src/modules/chat/gateways/chat.gateway.ts:171-181 | with two tabs and one closed, the user has a socket but counts as offline |
| `ChatGateway.ChatGateway.HandleConnection` | src/modules/chat/gateways/chat.gateway.ts:131-168 | the five maps after a connection, unchanged when the token names nobody |
| `ChatGateway.ChatGateway.HandleDisconnect` | src/modules/chat/gateways/chat.gateway.ts:171-206 | the loops that delete while iterating take the user, and nobody else, out of every huddle, thread and SFU room, and the socket and the user out of the maps; exactly the rooms left are told |
| `ChatGateway.ChatGateway.HandleThreadOpen` | src/modules/chat/gateways/chat.gateway.ts:403-424 | the sender's user enters the viewers of that thread and everybody in any thread stays; the broadcast set is the stored one |
| `ChatGateway.ChatGateway.HandleThreadClose` | src/modules/chat/gateways/chat.gateway.ts:425-446 | the sender's user leaves the viewers of that thread and everybody else stays; an emptied set is not kept |
| `ChatGateway.ChatGateway.HandleWebrtcJoin` | src/modules/chat/gateways/chat.gateway.ts:518-547 | the sender's user enters the huddle of that channel, made if there was none, and everybody in any huddle stays |
| `ChatGateway.ChatGateway.HandleWebrtcLeave` | src/modules/chat/gateways/chat.gateway.ts:549-565 | the sender's user leaves the huddle of that channel and everybody else stays; an emptied huddle is not kept |
| `ChatGateway.ChatGateway.HandleSfuJoin` | src/modules/chat/gateways/chat.gateway.ts:642-671 | the join step, and that the answered peers, producers and media states are the live ones and the snapshot the one just written |
| `ChatGateway.ChatGateway.LeaveSfuRoom` | src/modules/chat/gateways/chat.gateway.ts:673-685 | exactly the entries of that user in that room go, and everyone listed anywhere still has a live socket |
| `ChatGateway.ChatGateway.HandleSfuHostKick` | src/modules/chat/gateways/chat.gateway.ts:890-925 | only a host takes the target out; the socket told is the live socket of that user |
| `ChatGateway.ChatGateway.HandleSfuHostForceMute` | src/modules/chat/gateways/chat.gateway.ts:848-888 | only a host mutes; the target stays in the room with nothing on air, and the closed keys are its listed ones |
| `TeamMembership.NextKeepsSound` | src/modules/team/team.service.ts:48-656 | every call keeps: a team member is a member of the team's workspace; one pending invite at most per team and invitee and none for a member; a member's custom role belongs to the team; five custom roles at most; every team has an owner |
| `TeamMembership.RunsFromTheStartAreSound` | src/modules/team/team.service.ts:48-656 | those five invariants hold in every state that any run of calls reaches from empty tables |
| `TeamEffects.RefusalAnswers` | src/modules/team/team.service.ts:48-656 | which calls succeed and with which exception each of the others ends, as conditions on the rows |
| `TeamEffects.NextWrites` | src/modules/team/team.service.ts:48-656 | what each call writes, row by row, and that a refused one writes nothing |
| `TeamMembership.OwnerHoldsAll` | src/modules/team/utils/team-permissions.ts:14-22 | an owner holds every permission |
| `TeamMembership.ManagerHoldsAllExactly` | src/modules/team/utils/team-permissions.ts:14-22 | a manager holds every permission iff the custom role, if any, grants nothing or grants all |
| `TeamMembership.AssignedRoleReplaces` | src/modules/team/team.service.ts:216-250 | a manager given a custom role holds just what it grants, or everything when it grants nothing |
| `TeamMembership.CustomRoleTakesManagersPermission` | src/modules/team/team.service.ts:216-250 | an owner gives a manager a custom role, in a sound state, and the manager can no longer invite |
| `TeamMembership.NextKeepsOwner` | src/modules/team/team.service.ts:194-556 | no call takes the owner role away but the deletion of the team |
| `TeamMembership.OwnersStayOwners` | src/modules/team/team.service.ts:48-656 | over every run an owner keeps role and all permissions for as long as the team exists |
| `TeamMembership.DeletedTeamsStayDeleted` | src/modules/team/team.service.ts:647-655 | a deleted team does not come back under its key |
| `TeamMembership.OwnersAreMadeTwoWays` | src/modules/team/team.service.ts:48-604 | an owner is made by creating the team or by accepting an invite that says so |
| `TeamMembership.AcceptTakesAFreeSeat` | src/modules/team/team.service.ts:558-604 | accepting never duplicates a membership, and leaves no pending invite for the new member |
| `TeamMembership.RemovalLeavesTheWorkspace` | src/modules/team/team.service.ts:495-556 | a removed member stays in the workspace iff an owner there or seated in another of its teams |
| `TeamMembership.RemovalUndoesAcceptance` | src/modules/team/team.service.ts:495-604 | a member with the permission restores the seats by removing who just accepted, unless that is an owner or both are managers; then nothing changes |
| `TeamMembership.AcceptanceAdmits` | src/modules/team/team.service.ts:558-604 | accepting adds exactly the invited seat and, for who is new to the workspace, one membership there, as a guest iff invited as one |
| `TeamMembership.PlainMembersManageNothing` | src/modules/team/utils/team-permissions.ts:14-26 | members and guests without a custom role, and strangers, are refused every managing call and change nothing |
| `TeamMembership.LeadersChangeExactly` | src/modules/team/team.service.ts:359-604 | once a team stands, its owners and managers change iff an otherwise permitted role change or removal makes or unmakes a manager and the actor's own role is not Manager, or an invite as manager or owner is accepted |
| `TeamMembership.OnlyOwnersRankExactly` | src/modules/team/team.service.ts:396-400 | only owners make or unmake managers and owners, as the exceptions say, but for a member or guest with the permission by a custom role, and an accepted invite to lead whose sender is no owner |
| `TeamMembership.OfferMakesLeaderExactly` | src/modules/team/team.service.ts:252-326 | inviting and accepting make a manager or an owner iff the offer is to lead and is not refused, whatever the role of the sender |
| `TeamMembership.GuestDemotesManager` | src/modules/team/team.service.ts:359-410 | a guest with a custom role that grants TEAM_UPDATE_ROLE demotes a manager, in a sound state |
| `TeamMembership.ManagerSeatsLeader` | src/modules/team/team.service.ts:252-326 | a manager invites a stranger as manager or owner, in a sound state, and acceptance seats the stranger so |
| `TeamMembership.RemoveKeepsSound` | src/modules/team/team.service.ts:495-556 | removing a member orphans no other seat of that user in the workspace |
| `TeamMembership.DeleteRoleKeepsSound` | src/modules/team/team.service.ts:194-214 | deleting a custom role leaves no seat that refers to it |
| `TeamMembership.CreateRoleKeepsSound` | src/modules/team/team.service.ts:148-171 | a sixth custom role is never created |
| `TeamMembership.InviteKeepsSound` | src/modules/team/team.service.ts:252-326 | inviting keeps pending invites unique |
| `TeamService.TeamService.CreateTeam` | src/modules/team/team.service.ts:48-99 | Forbidden unless the caller owns or administers the workspace, or created it without being a member, which makes the caller an owner of it; the caller owns the new team |
| `TeamService.TeamService.CreateCustomRole` | src/modules/team/team.service.ts:148-171 | Forbidden without TEAM_UPDATE_ROLE, Conflict at five custom roles, else one custom role more |
| `TeamService.TeamService.UpdateCustomRole` | src/modules/team/team.service.ts:173-192 | NotFound for a role of another team or a system role; an empty list of permissions is written, an absent one is not |
| `TeamService.TeamService.DeleteCustomRole` | src/modules/team/team.service.ts:194-214 | after the refusals, every seat of the team loses the role before the role goes, through the row-by-row update |
| `TeamService.TeamService.TakeRoleAway` | src/modules/team/team.service.ts:208-211 | the bulk update nulls the role of exactly the members of the team who hold it |
| `TeamService.TeamService.AssignCustomRole` | src/modules/team/team.service.ts:216-250 | Forbidden for oneself and for owners, NotFound for strangers and for roles of other teams; null clears the role |
| `TeamService.TeamService.InviteMember` | src/modules/team/team.service.ts:252-326 | Forbidden, NotFound for an unknown or empty address, Conflict for oneself, a member or a pending invite, checked in this order; else one pending invite more |
| `TeamService.TeamService.UpdateMemberRole` | src/modules/team/team.service.ts:359-410 | the five refusals in the order of the code; else the new role with the custom role cleared |
| `TeamService.TeamService.RemoveMember` | src/modules/team/team.service.ts:495-556 | the refusals in order; counting the remaining teams decides whether the workspace membership goes too |
| `TeamService.TeamService.AcceptInvite` | src/modules/team/team.service.ts:558-604 | NotFound unless the invite is pending and addressed to the caller; else invite, seat and workspace membership as written one after the other |
| `TeamService.TeamService.RejectInvite` | src/modules/team/team.service.ts:606-625 | NotFound unless the invite is pending and addressed to the caller; else only its status changes |
| `TeamService.TeamService.DeleteTeam` | src/modules/team/team.service.ts:647-655 | NotFound for an unknown team; else the team goes with its seats, roles and invites |
| `TeamFeed.GetTeamFeed` | src/modules/activity-log/activity-log.service.ts:67-114 | Forbidden exactly for non-members; otherwise the first wanted rows in table order, 30 unless asked otherwise and 50 at most, each let through by every given filter, with a cursor iff rows are left over, the time of the last item in whole milliseconds |
| `TeamFeed.CursorLeavesTheNextPages` | src/modules/activity-log/activity-log.service.ts:98-112 | the next request selects exactly the rows before the last item's millisecond |
| `TeamFeed.WalkIsSound` | src/modules/activity-log/activity-log.service.ts:78-113 | following cursors ends, and visits only matching logs, newest first, none twice |
| `TeamFeed.WalkIsCompleteExactly` | src/modules/activity-log/activity-log.service.ts:78-113 | the walk visits every matching log exactly once, in order, iff at every page boundary the next log lies before the last item's millisecond |
| `TeamFeed.DistinctTimesSuffice` | src/modules/activity-log/activity-log.service.ts:78-113 | with times that differ in milliseconds the walk is complete for every page size and every filter |
| `TeamFeed.SameMillisecondSkips` | src/modules/activity-log/activity-log.service.ts:98-112 | two logs of one millisecond at a page boundary: the older one is never shown |
| `Mentions.MatchIsExact` | src/modules/mention/utils/mention-parser.util.ts:10-11 | the matcher accepts at a place exactly the well-formed token written there, so one at most |
| `Mentions.IdCharTable` | src/modules/mention/utils/mention-parser.util.ts:10-11 | the characters of an identifier are the letters of both cases, the digits and the hyphen |
| `Mentions.ScanIsLeftmost` | src/modules/mention/utils/mention-parser.util.ts:13-31 | the segments put together are the text, disjoint and in order, and no match starts in between |
| `Mentions.MentionsTellAll` | src/modules/mention/utils/mention-parser.util.ts:13-31 | the mentions tell every token among the pieces at growing positions, each once, with its id, caption and kind, and nothing else |
| `Mentions.ScanWrittenExactly` | src/modules/mention/utils/mention-parser.util.ts:10-31 | writing segments and scanning again gives them back iff they are a leftmost segmentation; each text has one |
| `Mentions.PlainRoundTrip` | src/modules/mention/utils/mention-parser.util.ts:10-31 | tokens and text without "<" are recovered exactly |
| `Mentions.ParseMentions` | src/modules/mention/utils/mention-parser.util.ts:13-31 | the loop over the stateful expression returns the mentions of that segmentation, and these tell every token of the text, in order |
| `Mentions.KindOfWord` | src/modules/mention/utils/mention-parser.util.ts:18-25 | the kind follows the word in any mix of cases |
| `Mentions.ReplaceIsRendered` | src/modules/mention/utils/render-mentions.ts:3-9 | replacing match by match, slice by slice, is rendering the segments |
| `Mentions.HtmlTellsTokensApart` | src/modules/mention/utils/render-mentions.ts:3-9 | two tokens are rendered alike iff they agree in word, caption and shown id, where a missing id is shown as "undefined" |
| `Mentions.RenderingAndParsingAgree` | src/modules/mention/utils/render-mentions.ts:3-9 | rendering replaces the spans that parsing reports and nothing else; a text without mentions is unchanged |
| `Mentions.MentionsRoundTrip` | src/modules/mention/utils/mention-parser.util.ts:10-31 | parsing a written document returns its mentions and rendering fills in each |
| `WorkerSupervisor.NextKeepsInv` | src/modules/sfu/mediasoup.service.ts:59-121 | every event keeps the supervisor's invariant |
| `WorkerSupervisor.NextDoes` | src/modules/sfu/mediasoup.service.ts:59-181 | what each event does to every field and room: attempts, waits of 6, 12, 24 and 30 seconds, giving up after the fifth failure, routers |
| `WorkerSupervisor.EveryRunIsSupervised` | src/modules/sfu/mediasoup.service.ts:59-181 | in every run: available iff a worker is held, then not restarting with no attempts; one loop at most; five tries at most per outage with growing capped waits; no router without a worker |
| `WorkerSupervisor.ScheduleGrows` | src/modules/sfu/mediasoup.service.ts:83-92 | the waits never shrink and never exceed the cap |
| `WorkerSupervisor.FullOutageWaits` | src/modules/sfu/mediasoup.service.ts:16-20 | an outage that never recovers waits 6, 12, 24 and 30 seconds |
| `WorkerSupervisor.LoopSettles` | src/modules/sfu/mediasoup.service.ts:76-121 | a loop ends with the first worker it gets, or without one after its last attempt |
| `WorkerSupervisor.OutageSettles` | src/modules/sfu/mediasoup.service.ts:59-121 | so does every outage that a death begins |
| `WorkerSupervisor.GivenUpForGood` | src/modules/sfu/mediasoup.service.ts:113-114 | once it has given up, no event starts a loop again |
| `WorkerSupervisor.DeathBeginsALoop` | src/modules/sfu/mediasoup.service.ts:59-74 | a death starts one loop with fresh attempts and takes every router at once |
| `WorkerSupervisor.LoopIsARun` | src/modules/sfu/mediasoup.service.ts:81-118 | running the loop to its end is a run of single attempts |
| `MediasoupService.MediasoupService.OnModuleInit` | src/modules/sfu/mediasoup.service.ts:29-34 | the state after start-up, for every sequence of outcomes |
| `MediasoupService.MediasoupService.HandleWorkerDied` | src/modules/sfu/mediasoup.service.ts:59-74 | the state after an outage, for every sequence of outcomes |
| `MediasoupService.MediasoupService.StartWorkerWithRetry` | src/modules/sfu/mediasoup.service.ts:76-121 | the retry loop in place, early returns included |
| `MediasoupService.MediasoupService.RetryLoop` | src/modules/sfu/mediasoup.service.ts:83-114 | the loop of the task in place: its state after the last turn it takes |
| `MediasoupService.MediasoupService.InvalidateAllRouters` | src/modules/sfu/mediasoup.service.ts:123-140 | no room keeps a router |
| `MediasoupService.MediasoupService.EnsureRoomRouter` | src/modules/sfu/mediasoup.service.ts:172-181 | the new router for a room that has none while a worker is held; no other room changes |

## Left out

- Interleavings at `await` points: each service, facade or handler call is one step. The source does not guard them; a router created while the worker dies, or a message handled before its socket is registered, is outside the model.
- `updateIssue` with a new parent or progress, and `createIssue` under a parent, in the roll-up runs: neither recalculates. Both are in the calendar runs.
- Deletion of projects in the roll-up runs: the set of live projects is fixed during a run.
- `ProjectsService.removeMember` in the calendar runs: it deletes events by creator, issue-sourced ones among them.
- Clearing an issue date through `updateIssue` in the calendar runs: its data transfer object cannot carry a null.
- The title of an event after only the title of its issue changed: the source does not synchronise then, so the link invariant speaks of keys and days only.
- IssueTree.MapIssueToResponse: does not carry assignees, labels, reviewers and the other columns that are copied one by one.
- Instants outside the range of the Date object, fractional arguments, and a server clock with daylight saving time.
- Analytics.GetAnalytics: does not model the permission checks and filters by project before the rows are selected.
- ConnectTransport parameters, RTP parameters and ICE servers; they are stored or passed on.
- Library handles beyond their presence, and library events beyond `transportclose`, `producerclose` and the death of the worker. Those are separate steps; a close event names the entry it was registered for, and that closing a transport raises it for all its producers is not modelled.
- CalendarSync.IssueCalendar.UpdateEvent: does not model categories, calendars, places and notes of an event, nor the access checks on its calendar.
- Failing Redis commands and unparsable snapshots; expiry is a step of its own.
- ChatGateway.ChatGateway.HandleSfuJoin: does not model the access object it passes on nor the requests of users who are not members of the channel beyond their refusal.
- Socket rooms and broadcasts of the gateway, and its chat, typing, pin and read messages.
- `getMyWorkspace` and `getMyWorkspaces`, which only restore a creator's own workspace membership; nicknames, avatars and team names; deletion of users and workspaces.
- TeamMembership.NextKeepsOwner: does not model the guards of the controllers, so it holds for callers the controllers would refuse too.
- TeamFeed.GetTeamFeed: does not model negative or fractional limits, whose effect depends on the query builder; a limit of 0 is modelled. Looking up the actors of the items is left out.
- Escaping of rendered mentions; the renderer inserts labels as they are.
- MediasoupService.MediasoupService.StartWorkerWithRetry: runs to its end without other events in between; `WorkerSupervisor.EveryRunIsSupervised` is about runs in which rooms open, close and ask for routers between the attempts.
- Controllers, validation, authentication, mail, storage, link previews, documents and their permissions, friend requests, favourites, preferences and the rest of chat: plumbing, or true but easy.
