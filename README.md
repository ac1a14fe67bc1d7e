# Geofence transition events with automatic engine stop

This project models the geofence rule of a GPS tracking server's position
pipeline: `GeofenceEventHandler.analyzePosition`. For each incoming position
the handler does the following:

- It ignores the position unless it is the device's latest.
- It compares the position's geofence-id list with that of the device's
  cached last position.
- For every exited id, then every entered id, it looks up the geofence and
  its optional calendar. If there is no calendar, or the calendar accepts
  the fix time, the transition counts.
- For a counting transition whose geofence is flagged for it (`stopOut` on
  exit, `stopIn` on entry), it sends an engine-stop command to the device.
  A failure of that send is swallowed.
- It then reports one `GEOFENCE_EXIT` or `GEOFENCE_ENTER` event for that
  geofence.

The handler keeps no state of its own. Its collaborators are plain data in
the model:

- the freshness check is a boolean `isLatest`;
- the object cache is a snapshot (`Cache`): last positions, geofences and
  calendars by id, where a missing key is a lookup that returns null;
- a calendar is its `checkMoment` predicate;
- the command sender is a function `send` from attempt number (0-based,
  counted across the whole call) to what that call did: returned null,
  returned a value, or threw.

A call produces a `Run`: the ordered trace of collaborator calls
(`SendCommand` with its outcome, `EventDetected` with its event) and how the
call ended (`Returned`, or `ThrewNullPointer` with the geofence id).

Layout:

- `model.dfy`: the entities.
- `membership.dfy`: list filtering with `ArrayList.removeAll` semantics, and
  the exited/entered diff.
- `transitions.dfy`: the specification as functions. `Transition` is one id,
  `Process` is one loop, `Analyze` is a whole call. It also holds the
  one-step unfolding of `Process` that the handler's loop invariant uses,
  and the reference definitions the properties use.
- `handler.dfy`: the handler as imperative methods (list building, two
  loops), each proved equal to its specification function.
- `trace_properties.dfy`: what one loop promises.
- `call_properties.dfy`: what one call promises.
- `scenarios.dfy`: concrete calls.

Where the code differs from the intended design of this rule, the model follows the code:

- The geofence ids are lists, not sets, so duplicates survive the diff and
  are reported once per occurrence.
- The engine-stop command is attempted before the event is emitted, not
  after.
- An entered id whose geofence is not cached is dereferenced and throws; it
  is not skipped.

Where they agree: a current position with no list counts as an empty list,
so nothing is entered and every old id is exited.

The model has a parameter `Build`. `AsWritten` is the code. `NullChecked`
adds to the entry side the null check that the exit side has. The loop and
call properties (`TraceProperties`, `CallProperties`) take the build as a
parameter and are proved for both, including the ones about where a call
throws; only `NullCheckedNeverThrows` is stated for one build. The concrete calls in `Scenarios` are
computed for `AsWritten`; only `MissingEnteredGeofenceAbortsCall` covers both.

## Model

| member | source | states |
|---|---|---|
| `Membership.Without` | src/main/java/org/traccar/handler/events/GeofenceEventHandler.java:65-66 | `removeAll` keeps exactly the elements of the list that are not in the other list, and never lengthens it |
| `Membership.WithoutCount` | src/main/java/org/traccar/handler/events/GeofenceEventHandler.java:65-66 | a kept element keeps its multiplicity (duplicates survive); a removed one has none |
| `Membership.WithoutAppend` | src/main/java/org/traccar/handler/events/GeofenceEventHandler.java:65-66 | filtering distributes over concatenation, so kept elements stay in list order |
| `Membership.WithoutDisjoint` | src/main/java/org/traccar/handler/events/GeofenceEventHandler.java:65-66 | a list sharing no element with the other list is kept whole |
| `Membership.WithoutSubsumed` | src/main/java/org/traccar/handler/events/GeofenceEventHandler.java:65-66 | a list all of whose elements are in the other list is emptied |
| `Membership.MembershipDiff` | src/main/java/org/traccar/handler/events/GeofenceEventHandler.java:56-67 | exited = last ids not in the current list, entered = current ids not in the last list, and no id is both; with a null current list nothing is entered and the last list is exited whole |
| `Membership.NoCurrentListIsEmptyList` | src/main/java/org/traccar/handler/events/GeofenceEventHandler.java:62-67 | a current position with no list gives the same diff as one with an empty list |
| `Membership.DiffPartitionsUnion` | src/main/java/org/traccar/handler/events/GeofenceEventHandler.java:56-67 | every id of either list is exactly one of exited, entered or kept |
| `Membership.SameMembersNoDiff` | src/main/java/org/traccar/handler/events/GeofenceEventHandler.java:56-67 | lists with the same members give an empty diff |
| `Membership.RemoveAll` | src/main/java/org/traccar/handler/events/GeofenceEventHandler.java:65-66 | the filtering loop computes `Without` |
| `Transitions.Transition` | src/main/java/org/traccar/handler/events/GeofenceEventHandler.java:70-103 | an id throws exactly when it is entered, not cached and unguarded; it emits exactly when its geofence is cached and gated in; it stops the engine exactly when that side's flag is set |
| `Transitions.FirstUncached` | src/main/java/org/traccar/handler/events/GeofenceEventHandler.java:97-98 | the index of the first id without a cached geofence: all ids before it are cached |
| `GeofenceEventHandler.ComputeDiff` | src/main/java/org/traccar/handler/events/GeofenceEventHandler.java:56-67 | building the two lists with `addAll` and `removeAll` gives `MembershipDiff` of the last and current lists |
| `GeofenceEventHandler.EvaluateTransition` | src/main/java/org/traccar/handler/events/GeofenceEventHandler.java:70-103 | the lookup, calendar gating and flag read for one id (exit side lines 70-77, entry side lines 97-103) give `Transition` |
| `GeofenceEventHandler.ProcessTransitions` | src/main/java/org/traccar/handler/events/GeofenceEventHandler.java:69-121 | each loop produces `Process` for its ids and returns the attempt counter advanced by the commands it sent |
| `GeofenceEventHandler.AnalyzePosition` | src/main/java/org/traccar/handler/events/GeofenceEventHandler.java:51-122 | the handler produces `Analyze`; a position that is not the latest produces no action at all |
| `TraceProperties.ProcessEnd` | src/main/java/org/traccar/handler/events/GeofenceEventHandler.java:69-98 | a loop returns normally, except the entry loop as written, which throws at its first id without a cached geofence |
| `TraceProperties.ProcessEvents` | src/main/java/org/traccar/handler/events/GeofenceEventHandler.java:69-121 | a loop's events are exactly one per cached, gated-in id it reaches, in list order |
| `TraceProperties.ProcessPaired` | src/main/java/org/traccar/handler/events/GeofenceEventHandler.java:77-119 | every command is an engine stop for the position's device, immediately before the event of a geofence flagged on that side; every such event has one |
| `TraceProperties.ProcessOutcomes` | src/main/java/org/traccar/handler/events/GeofenceEventHandler.java:82-119 | commands carry the sender's outcomes in attempt order |
| `TraceProperties.OutcomeAt` | src/main/java/org/traccar/handler/events/GeofenceEventHandler.java:82-119 | the command at index j carries the outcome of the attempt numbered by the commands before it |
| `TraceProperties.ProcessEventsFrom` | src/main/java/org/traccar/handler/events/GeofenceEventHandler.java:69-121 | every event of a loop has that loop's type and the position, and is for a cached, gated-in id of its list |
| `TraceProperties.ProcessIgnoresOutcomes` | src/main/java/org/traccar/handler/events/GeofenceEventHandler.java:82-119 | what a loop attempts and emits, and how it ends, is the same for every sender behaviour |
| `TraceProperties.ProcessNullCheckAgrees` | src/main/java/org/traccar/handler/events/GeofenceEventHandler.java:97-98 | when every entered id is cached, the null check changes nothing in a loop |
| `CallProperties.CallEvents` | src/main/java/org/traccar/handler/events/GeofenceEventHandler.java:56-121 | a latest position reports all exits, then all entries, one event per cached, gated-in id in list order; it throws only at the first uncached entered id, as written |
| `CallProperties.CallCommands` | src/main/java/org/traccar/handler/events/GeofenceEventHandler.java:77-119 | over a whole call, commands pair with flagged events and carry the outcomes of attempts 0, 1, 2, … |
| `CallProperties.CallEventsOrdered` | src/main/java/org/traccar/handler/events/GeofenceEventHandler.java:69-121 | EXIT events are for exited ids, ENTER events for entered ids, all gated in and for the position; no EXIT follows an ENTER |
| `CallProperties.KeptGeofenceIsSilent` | src/main/java/org/traccar/handler/events/GeofenceEventHandler.java:63-67 | an id in both lists gets neither event nor command |
| `CallProperties.GatedOutGeofenceIsSilent` | src/main/java/org/traccar/handler/events/GeofenceEventHandler.java:72-100 | a geofence whose calendar rejects the fix time gets neither event nor command, whatever its flags |
| `CallProperties.NullCurrentListExitsAll` | src/main/java/org/traccar/handler/events/GeofenceEventHandler.java:62-67 | a null current list reports every gated-in id of the last list as exited, and nothing as entered |
| `CallProperties.NoLastListEntersAll` | src/main/java/org/traccar/handler/events/GeofenceEventHandler.java:56-60 | a missing last position, or one with a null list, contributes no old ids: every event is an entry for the current list |
| `CallProperties.UnchangedMembershipIsSilent` | src/main/java/org/traccar/handler/events/GeofenceEventHandler.java:56-67 | unchanged membership produces no action, where a current position with no list counts as an empty one |
| `CallProperties.SendFailuresAreIsolated` | src/main/java/org/traccar/handler/events/GeofenceEventHandler.java:82-119 | a failed send never suppresses its event or the later ids: attempts, events and the ending are the same whatever the sender does |
| `CallProperties.NullCheckedNeverThrows` | src/main/java/org/traccar/handler/events/GeofenceEventHandler.java:97-98 | with the entry-side null check, a call always returns normally |
| `CallProperties.NullCheckOnlyMattersForMissingGeofences` | src/main/java/org/traccar/handler/events/GeofenceEventHandler.java:97-98 | the null check changes nothing when every entered id has a cached geofence |
| `Scenarios.CrossingTwoBoundaries` | src/main/java/org/traccar/handler/events/GeofenceEventHandler.java:51-122 | last {10, 20}, current {20, 30}, 10 stops on exit: an engine stop then EXIT 10, then ENTER 30, nothing for 20 |
| `Scenarios.EntryOutsideCalendar` | src/main/java/org/traccar/handler/events/GeofenceEventHandler.java:98-100 | an entry that the calendar rejects produces nothing |
| `Scenarios.ExitFromDeletedGeofence` | src/main/java/org/traccar/handler/events/GeofenceEventHandler.java:69-71 | leaving a geofence that is no longer cached produces nothing and does not throw |
| `Scenarios.FailingSenderDoesNotStopEvents` | src/main/java/org/traccar/handler/events/GeofenceEventHandler.java:82-93 | with a sender that always throws, both exits are still reported and both stops attempted |
| `Scenarios.DuplicateIdExitsTwice` | src/main/java/org/traccar/handler/events/GeofenceEventHandler.java:56-67 | an id listed twice in the last position exits twice |
| `Scenarios.MissingEnteredGeofenceAbortsCall` | src/main/java/org/traccar/handler/events/GeofenceEventHandler.java:97-98 | as written, an uncached entered id throws and a later cached one is never reported; with the null check it is reported |

## Left out

- Logging, including the message built from `Response.accepted(command)` (lines 84, 87, 110 and 113). It has no effect beyond the log text. The outcome of each send is still kept in the trace.
- Dependency-injection and Netty annotations, and the constructor (lines 36-48). They are framework wiring.
- `PositionUtil.isLatest`, the cache's fetching and eviction, `CommandsManager.sendCommand` and `Calendar.checkMoment`. Their code is not part of this model. They are a boolean, a map snapshot, an outcome per attempt and a predicate on the fix time.
- Concurrency. The cache is one snapshot per call. So the two geofence lookups for an entered id (lines 98 and 103) always see the same geofence.
- The extra `event.setGeofenceId` call inside the stop branch (lines 89 and 115). The call at lines 92 and 118 always writes the same value, so the event's id is set once.
- The other fields that the `Event` constructor copies from the position (device id, position id, server time). Event.java is not part of this model. The event carries the whole position instead.
- The event-type and command-type string constants. They are enumerations here, because Event.java and Command.java are not part of this model.
- Exceptions other than the modelled ones: a `Throwable` that is not an `Exception` escaping `sendCommand`, and exceptions thrown by `checkMoment` or by the callback. The model has only the swallowed send failure and the null dereference on line 98.

## Findings

| source | as written | input that shows it | evidently intended | confidence | as-written member | corrected member |
|---|---|---|---|---|---|---|
| src/main/java/org/traccar/handler/events/GeofenceEventHandler.java:98 | the entry loop dereferences the geofence lookup without the null check the exit loop has (line 71) | entered ids [5, 6], where 5 has no cached geofence (e.g. deleted meanwhile) and 6 does: a NullPointerException at 5 ends the call, so 6 is never reported | skip an uncached entered id, as the exit side does | medium; not executed | `Scenarios.MissingEnteredGeofenceAbortsCall` | `CallProperties.NullCheckedNeverThrows` |
