# Proofs about the parking and fire server's durable core

The server turns sensor frames, camera observations and fire signals into rows of a database, and replays them
after restarts. This project models the parts that carry its guarantees and proves them for every input and every run.

| file | models |
|---|---|
| `OccupancyTables.dfy`, `OccupancyStore.dfy` | the occupancy inbox: admission, application, exit deadlines, effects, purge. The first gives each call as a function from tables to tables; the second is the store with tables as fields, transactions and rollback, specified by the first |
| `OccupancyInvariant.dfy`, `OccupancyReducers.dfy`, `OccupancyRun.dfy` | the invariant of the tables, that every reduction keeps it, and that every reachable state has it |
| `OccupancyEffects.dfy`, `OccupancyQueue.dfy`, `OccupancyDeadlines.dfy`, `OccupancyFacts.dfy`, `OccupancyCursors.dfy`, `OccupancyEvidence.dfy` | what whole runs promise: alternating effects delivered in order, one queue a slot, no stale close, at-most-once facts, cursors, evidence |
| `OccupancyAdmission.dfy`, `OccupancyDue.dfy`, `OccupancyLifecycle.dfy` | what is admitted and what a redelivered fact is told, which deadlines one call admits, and the life of a deadline |
| `OccupancySources.dfy`, `OccupancyAreas.dfy`, `OccupancySessions.dfy`, `OccupancyAnswers.dfy` | that the flags of a session and the areas of a camera follow the facts applied, and what an answer says was written |
| `OccupancyBindings.dfy`, `OccupancyCandidates.dfy` | the bindings of camera tracks, and the candidates of a best shot |
| `OccupancySlots.dfy`, `OccupancyThrows.dfy`, `OccupancyBlocked.dfy`, `OccupancyRepeatedExit.dfy` | that a command touches only its own slot, when applying one throws, and how long it then blocks its slot |
| `OccupancyVacancy.dfy`, `OccupancyOrdinals.dfy` | when a pending vacancy has a deadline of its own, and when an ordinal is given out again |
| `OccupancySteps.dfy`, `OccupancyExamples.dfy`, `OccupancyLostDeadline.dfy` | concrete runs and the steps they share |
| `ParkingCorrelation.dfy` | correlation leases and the attachment of images |
| `SensorSequence.dfy` | the sequence policy and its two persisted cursors |
| `Crc16.dfy`, `Crc16Polynomial.dfy` | the frame checksum, and that it is a polynomial remainder |
| `LoRaFraming.dfy`, `LoRaWire.dfy` | the incremental parser and the printer, and the bytes on the wire |
| `FireTables.dfy`, `FireStore.dfy`, `FireRun.dfy`, `FireRows.dfy`, `FireDelivery.dfy`, `FireCredit.dfy`, `FireCursor.dfy`, `FireExamples.dfy` | the fire state table with its outbox, as functions, as a store, over whole runs, and concrete runs |
| `BestShotQuarantine.dfy`, `BestShotReservation.dfy` | the bounded quarantine of evidence with its reconciliations, and the reservations of evidence in flight |
| `RateLimiter.dfy` | the login rate limiter |
| `Text.dfy`, `Option.dfy` | numerals, the order of text keys, optional values |

A run of the occupancy store is any interleaving of its calls. The one discipline asked of the callers is the one
the store's own lists give them: a pending command is applied, and an owed effect completed, only when it is the
first of its slot. A thrown error in a call is a rolled-back step. Clocks, camera and database answers, capacities
and chosen ids are parameters, so every theorem holds for all of them.

Where the code does not keep what one would expect of it, the model does what the code does, and the project states
when, with a run that shows it:

- The fire store writes the sequence number of an unsequenced legacy fact as absent, while the in-memory policy keeps
  the old one. The two agree throughout a run exactly when that never happens over a stored counter
  (`FireCursor.StoreDecidesExactlyWhen`, `FireExamples.StoreForgetsCounter`).
- The occupancy store settles a Hall VACANT that is older than the open session without committing its accepted fact,
  so it accepts the fact again (`OccupancyCursors.UncommittedExactlyWhen`, `OccupancyCursors.StoreDecidesExactlyWhen`,
  `OccupancyExamples.RefusedFactIsAcceptedAgain`).
- A command that throws stays pending at the head of its slot and holds up everything behind it. A camera or deadline
  command does so for ever, a Hall command until its sensor's cursor passes it or a vacancy cancels it
  (`OccupancyThrows.ThrowsExactlyWhen`, `OccupancyBlocked.BlockedForEver`, `OccupancyBlocked.BlockedExactlyUntilFreed`).
  A camera EXIT whose deadline id was used before is such a command (`OccupancyRepeatedExit.StuckForEver`,
  `OccupancyExamples.RepeatedExitSticks`).
- A pending vacancy need not have a live deadline of its own generation and session, and one without it is ended by no
  deadline (`OccupancyVacancy.BackedSinceExactlyWhen`, `OccupancyVacancy.OwningBacks`,
  `OccupancyExamples.VacancyWithoutDeadline`, `OccupancyLostDeadline.VacancyLosesItsDeadline`).
- An ordinal may be given out again after a purge (`OccupancyOrdinals.NextIsNotNewExactlyWhen`,
  `OccupancyExamples.OrdinalIsReused`).
- A fire mutation whose lifecycle row carries an acknowledged revision of zero commits but fails when it is sent again,
  until a delivery of that row is acknowledged (`FireDelivery.ResubmissionExactly`,
  `FireExamples.UnreadableRowFailsAgain`).
- A legacy fact may be accepted twice (`SensorSequence.LegacyRepeatsExactlyWhen`, `SensorSequence.LegacyFactsMayRepeat`).

## Model

| member | source | states |
|---|---|---|
| `OccupancyRun.ReachableIsSound` | src/database/EventDatabaseOccupancy.cpp:778-1580 | Every table state reached by any interleaving of admit, admitDue, apply of a listed command, defer, complete or defer of a listed effect, purge, markViolation and attach is sound: one open session a slot, slot status OCCUPIED exactly when one is open, open exactly when a source holds it, an occupied flag only when confirmed, exit not before entry, a COMMITTED binding only on an open session of the same slot and attempt, at most one live deadline a slot, no deadline ahead of its slot's generation, one waiting OCCUPIED confirmation a slot, unique ordinals and identities, one image per evidence |
| `OccupancyInvariant.SlotIsOccupiedExactlyWhenActive` | src/database/EventDatabaseTimer.cpp:851-865 | With agreeing tables a slot is OCCUPIED if and only if the active-session lookup finds a session |
| `OccupancyInvariant.ActiveIsUnique` | src/database/EventDatabaseOccupancy.cpp:778-802 | The lookup of the newest open session finds the only open one |
| `OccupancyReducers.ReduceKeeps` | src/database/EventDatabaseOccupancy.cpp:1133-1543 | Whatever the source and policy, applying one command keeps the invariant, and it opens a fresh session, ends the open one, or leaves the slot's session, exactly as its result code says |
| `OccupancyReducers.ReduceHallKeeps` | src/database/EventDatabaseOccupancy.cpp:1136-1229 | The same for Hall observations |
| `OccupancyReducers.ReduceCameraKeeps` | src/database/EventDatabaseOccupancy.cpp:1230-1443 | The same for camera observations |
| `OccupancyReducers.ReduceDeadlineKeeps` | src/database/EventDatabaseOccupancy.cpp:1445-1543 | The same for exit deadlines |
| `OccupancyInvariant.CloseKeeps` | src/database/EventDatabaseOccupancy.cpp:848-913 | Ending a session keeps the invariant although bindings and camera state still named it before: both are cleared in the same step |
| `OccupancyInvariant.CreateKeeps` | src/database/EventDatabaseOccupancy.cpp:803-847 | Starting a session in a vacant slot keeps the invariant and makes the new session the active one |
| `OccupancyRun.ApplyKeeps` | src/database/EventDatabaseOccupancy.cpp:679-1609 | One apply call, including rejection and rollback, keeps all tables sound and undoes nothing |
| `OccupancyRun.ApplySettlesOwnRow` | src/database/EventDatabaseOccupancy.cpp:1546-1580 | An apply call changes at most its own inbox row, and only a finished one can owe an effect |
| `OccupancyRun.OtherCallsAreQuiet` | src/database/EventDatabaseOccupancy.cpp:262-670 | Every call but apply opens and ends no session |
| `OccupancyRun.ViolationIsQuiet` | src/database/EventDatabaseTimer.cpp:1488-1522 | markViolation in between changes no flag, no slot, no open or ended session |
| `OccupancyRun.AdmitKeeps` | src/database/EventDatabaseOccupancy.cpp:262-470 | Admission keeps the inbox sound, and every answer but Admitted leaves all tables unchanged, the prepared cancellation of a confirmation included |
| `OccupancyRun.AdmitBatchKeeps` | src/database/EventDatabaseOccupancy.cpp:473-597 | Admitting any number of due deadlines keeps all tables sound |
| `OccupancyAdmission.AdmittedExactlyWhen` | src/database/EventDatabaseOccupancy.cpp:262-470 | A fact is admitted if and only if it is well formed, its identity and id are new, its slot is known, the inbox has room once a taken-back confirmation is left out, and, for a Hall frame, its sensor is named, its cursor accepts the fact and no confirmation of the slot waits for another OCCUPIED; its row joins behind all others, and of these only a Hall OCCUPIED is cancelled that waits to be due later than the VACANT was observed |
| `OccupancyAdmission.ResubmissionAnswers` | src/database/EventDatabaseOccupancy.cpp:300-332 | A fact whose identity is in the inbox changes nothing and is answered with the id of the row: Existing while it waits and AlreadyTerminal once it is settled if it is the same fact but for what the receiver added, and Conflict otherwise |
| `OccupancyAdmission.RedeliveryIsRecognised` | src/parking/SlotTransitionTypes.cpp:56-87 | In every reachable state a Hall frame that comes again with another receive or due time, or a camera event with another local deadline or due time, is recognised and changes nothing |
| `OccupancyAdmission.OtherFactConflicts` | src/parking/SlotTransitionTypes.cpp:56-87 | Under the same identity another sensor, sequence, slot, state, boot, action, area or object is a conflict |
| `OccupancyAdmission.RefusedBecause` | src/database/EventDatabaseOccupancy.cpp:333-440 | Why a well-formed, new fact is not admitted: a Hall frame that makes no sense or is stale, another confirmation that waits and is named in the answer, a full inbox, or else a taken id or an unknown slot |
| `OccupancyAdmission.IllFormedConflicts` | src/database/EventDatabaseOccupancy.cpp:262-289 | A fact without id, slot, identity or payload, a camera event that cannot be read, and any fact at capacity zero are conflicts |
| `OccupancyAdmission.IdsAreSpelled` | src/database/EventDatabaseOccupancy.cpp:1409-1430 | The ids that the store makes, spelled out for one deadline, its command and one attempt |
| `OccupancyDue.AdmitsOnlyRipe` | src/database/EventDatabaseOccupancy.cpp:473-597 | One call admits only scheduled deadlines whose time has come and whose slot is not blocked, no more than there is room for, and leaves such a deadline scheduled only when the room is used up by deadlines due no later |
| `OccupancyDue.AdmitDueDelivers` | src/database/EventDatabaseOccupancy.cpp:551-590 | For every admitted deadline that was not known the inbox gets its own command, with its slot, due time, session, generation, attempt and policy; no other row is new and none changes |
| `OccupancyTables.DeadlineIdIsInjective` | src/database/EventDatabaseOccupancy.cpp:1409-1430 | The printed deadline id determines slot, generation and session, whatever characters the slot name has |
| `OccupancyTables.EarliestIsUnique` | src/database/EventDatabaseOccupancy.cpp:499-535 | Due time, then deadline id, picks one earliest deadline |
| `OccupancyRun.StepKeeps` | src/database/EventDatabaseOccupancy.cpp:262-1774 | No call lowers a generation, deletes a deadline or changes its slot, session or generation, changes an ended session or a stored image, or lowers the next session id; and each keeps the tables sound |
| `OccupancyEffects.HallVacancyEndsExactlyWhen` | src/database/EventDatabaseOccupancy.cpp:1136-1229 | A Hall VACANT ends the open session if and only if its fact is accepted, its time is not before the entry, its exit id is free and, under HYBRID_OR, Hall has confirmed the session and the camera does not hold it |
| `OccupancyEffects.DeadlineEndsExactlyWhen` | src/database/EventDatabaseOccupancy.cpp:1445-1543 | An exit deadline ends the open session if and only if it still owns the slot (generation, attempt, session), its time is not before the entry, its exit id is free and, under HYBRID_OR, Hall does not hold the session |
| `OccupancyEffects.HybridEndsOnlyWhenAllVacant` | src/database/EventDatabaseOccupancy.cpp:1190-1229 | Under HYBRID_OR a session ends only when the other source does not hold it |
| `OccupancySources.FlagsFollowFacts` | src/database/EventDatabaseOccupancy.cpp:1136-1543 | In every reachable state the four source flags of an open session are what the events since it began say, or since the run for one that was open before: Hall holds it if the last accepted, applied Hall fact was OCCUPIED, the camera if an applied INTRUSION came after every exit deadline that owned the slot; confirmed if there was one at all |
| `OccupancySources.StepFlags` | src/database/EventDatabaseOccupancy.cpp:1136-1543 | What one call makes of the flags of an open session, for every call |
| `OccupancySources.HallEndsExactlyWhen` | src/database/EventDatabaseOccupancy.cpp:1186-1229 | In every reachable state a Hall VACANT ends the open session if and only if its fact is accepted, its time is not before the entry, its exit id is free and, under HYBRID_OR, a Hall fact has said OCCUPIED since the session began and the camera facts do not hold it |
| `OccupancySources.DeadlineEndsByFacts` | src/database/EventDatabaseOccupancy.cpp:1486-1543 | The same for exit deadlines: under HYBRID_OR the last Hall fact since the session began must not have said OCCUPIED |
| `OccupancySources.HybridEndsOnlyWhenFactsSay` | src/database/EventDatabaseOccupancy.cpp:1190-1229 | Under HYBRID_OR a session ends only when the facts of the other source do not hold it |
| `OccupancyAreas.AreasFollowFacts` | src/database/EventDatabaseOccupancy.cpp:1313-1440 | In every reachable state the camera row of a slot holds about each area what the last camera fact about it said, INTRUSION or EXIT, and nothing about an area without one |
| `OccupancyAreas.VacancyPendsExactlyWhen` | src/database/EventDatabaseOccupancy.cpp:1365-1440 | In every reachable state an EXIT that can be applied leaves a vacancy pending if and only if the slot has an open session and the last fact about every other configured area was an EXIT |
| `OccupancySessions.AnswerIsWritten` | src/database/EventDatabaseOccupancy.cpp:803-913 | An answer SESSION_STARTED means one new session with the slot, id and time of the command, held and confirmed by its own source alone; SESSION_ENDED means that the open session carries the id and time of the command, is held by nobody, its slot is vacant and exactly its committed bindings are ended |
| `OccupancySessions.SlotsFollowAnswers` | src/database/EventDatabaseOccupancy.cpp:1161-1185 | An application changes a slot row exactly when a session starts or ends there, or a Hall VACANT is heard where none is open and clears it |
| `OccupancyAnswers.AnswerIsStored` | src/database/EventDatabaseOccupancy.cpp:1546-1609 | An application that throws changes nothing; any other settles its row with the very answer that the caller gets |
| `OccupancyAnswers.AnswerNamesSession` | src/database/EventDatabaseOccupancy.cpp:1546-1580 | An answer that names a session carries the attempt of that session |
| `OccupancyAnswers.AnswerNamesGeneration` | src/database/EventDatabaseOccupancy.cpp:1313-1440 | The generation that an applied INTRUSION or EXIT answers with is the one that it leaves in the camera row |
| `OccupancyAnswers.InvalidExactlyWhen` | src/database/EventDatabaseOccupancy.cpp:1136-1312 | A command is settled as rejected for its form if and only if it makes no sense to its source, the guards listed, and a camera authority names the stored areas |
| `OccupancyAnswers.EntersAndWeakExitsAreIgnored` | src/database/EventDatabaseOccupancy.cpp:1300-1312 | An ENTER, and an EXIT without authority over exits, is settled as NO_CHANGE and changes no table but its row |
| `OccupancyAnswers.OldExitIsRejected` | src/database/EventDatabaseOccupancy.cpp:1279-1299 | An EXIT of before the open session is settled as rejected for its time |
| `OccupancyAnswers.CorrelatingNothingChangesNothing` | src/database/EventDatabaseOccupancy.cpp:1246-1278 | A camera that only correlates changes nothing where no session is open |
| `OccupancyAnswers.RefusedFactsChangeNothing` | src/database/EventDatabaseOccupancy.cpp:1142-1155 | A Hall fact that the cursor refuses is settled as NO_CHANGE, a deadline command without its deadline as STALE_GENERATION, and neither changes a table but its row |
| `OccupancyBindings.AppliedIntrusionBinds` | src/database/EventDatabaseOccupancy.cpp:1026-1131 | An applied INTRUSION that names its track binds it to the session that it answers with: a new binding under its own correlation, or the old one whose expiry never goes back and whose revision counts how often it went forward; all other bindings stay |
| `OccupancyCandidates.CandidatesExactlyWhen` | src/database/EventDatabaseCorrelation.cpp:128-200 | A correlation is a candidate of a track if and only if an unexpired INTRUSION of it waits under that correlation or the correlation is a committed, unexpired binding of it |
| `OccupancyCandidates.ResolvedExactlyWhen` | src/database/EventDatabaseCorrelation.cpp:200-219 | Unmatched if and only if there is no candidate, ambiguous if and only if there are two, and otherwise the lease of the bound one or a pending match |
| `OccupancyCandidates.AdmittedIsCandidate` | src/database/EventDatabaseCorrelation.cpp:128-162 | The correlation of an INTRUSION is a candidate from its admission on |
| `OccupancyCandidates.BoundIsCandidate` | src/database/EventDatabaseCorrelation.cpp:164-200 | And from its application on, until its expiry |
| `OccupancyEffects.EffectsAlternate` | src/database/EventDatabaseOccupancy.cpp:1546-1580 | Over any run a slot's effects alternate start and end of the same session, each session newer than every earlier one |
| `OccupancyEffects.DeliveredIsPrefix` | src/database/EventDatabaseOccupancy.cpp:1611-1709 | Over any run the completed effects of a slot are a prefix of its effects in application order, and the inbox owes exactly the rest, in order |
| `OccupancyEffects.SettledStaysSettled` | src/database/EventDatabaseOccupancy.cpp:749-761 | Applying a terminal command changes nothing and answers with its stored code |
| `OccupancyEffects.PurgedSameDebts` | src/database/EventDatabaseOccupancy.cpp:1746-1774 | Purge never removes a row that still owes an effect |
| `OccupancyQueue.InboxIsAQueue` | src/database/EventDatabaseOccupancy.cpp:599-627 | Over any run the pending rows of a slot are the first-in first-out queue that its admissions built, and an apply call settles only the front |
| `OccupancyQueue.PendingWithinCapacity` | src/database/EventDatabaseOccupancy.cpp:415-430 | Over any run the number of pending rows never exceeds the capacity, across admit and admitDue |
| `OccupancyQueue.SettledAnswerIsStable` | src/database/EventDatabaseOccupancy.cpp:749-761 | While it stays in the inbox, a settled command keeps its one answer through every later call |
| `OccupancyQueue.CanceledConfirmationNeverStarts` | src/database/EventDatabaseOccupancy.cpp:362-412 | An OCCUPIED confirmation that an admitted VACANT cancelled is settled as NO_CHANGE; as long as its row is kept, applying it changes nothing and answers so |
| `OccupancyDeadlines.NoStaleClose` | src/database/EventDatabaseOccupancy.cpp:1445-1542 | If an exit-deadline command ends a session, it is the session that was open when that deadline was inserted and the one it names, and no INTRUSION was applied to the slot since |
| `OccupancyDeadlines.CurrentDeadlineIsUndisturbed` | src/database/EventDatabaseOccupancy.cpp:1313-1440 | A deadline of its slot's current generation was inserted for the then open session with no INTRUSION applied after it |
| `OccupancyDeadlines.IntrusionOutdatesDeadlines` | src/database/EventDatabaseOccupancy.cpp:1330-1364 | An applied INTRUSION leaves the slot's generation above that of every deadline of the slot |
| `OccupancyDeadlines.OwningDeadlineIsInTime` | src/database/EventDatabaseOccupancy.cpp:1445-1542 | If no EXIT is due before its own time, a deadline that still owns its slot never fails the timestamp check |
| `OccupancyDeadlines.ReduceAdds` | src/database/EventDatabaseOccupancy.cpp:1409-1440 | Only a camera EXIT inserts a deadline, at most one, and it is for the session open at that moment |
| `OccupancyLifecycle.ApplyMovesOn` | src/database/EventDatabaseOccupancy.cpp:1333-1543 | Whatever command is applied, a deadline is superseded exactly when it is scheduled and an INTRUSION of its slot is applied or its own command finds that it no longer owns the slot, applied exactly by its own command while it owns the slot, and otherwise stays as it is |
| `OccupancyLifecycle.ExitInserts` | src/database/EventDatabaseOccupancy.cpp:1402-1440 | An EXIT that leaves a vacancy pending where there is no live deadline inserts one for the open session and the generation that it leaves, due when the camera event says or else when the command was due, under its policy |
| `OccupancyLifecycle.ExitInsertsNone` | src/database/EventDatabaseOccupancy.cpp:1402-1440 | Every other EXIT leaves the deadlines as they are |
| `OccupancyLifecycle.AdmittedInTime` | src/database/EventDatabaseOccupancy.cpp:499-590 | In every reachable state a deadline that was admitted had come due, its slot not blocked, at the time of some call that admits due deadlines |
| `OccupancyLifecycle.NoEarlyClose` | src/database/EventDatabaseOccupancy.cpp:1445-1543 | So no exit-deadline command ends a session before the time of its deadline has come |
| `OccupancySlots.ReduceStaysInSlot` | src/database/EventDatabaseOccupancy.cpp:1133-1543 | Applying one command leaves the camera rows, sessions, deadlines and bindings of all other slots as they were; and a camera track that is new in the table is the only one of its kind |
| `OccupancySlots.ApplyStands` | src/database/EventDatabaseOccupancy.cpp:679-1609 | Applying a command of another slot, or a settled one, leaves a slot's camera row, open session, deadlines and bindings standing |
| `OccupancySlots.OtherCallStands` | src/database/EventDatabaseOccupancy.cpp:262-670 | Every call but apply leaves them standing, an overstay mark and the admission of a due deadline aside |
| `OccupancyThrows.ExitThrowsExactlyWhen` | src/database/EventDatabaseOccupancy.cpp:1365-1440 | An authoritative EXIT throws if and only if its areas are configured and either differ from the stored ones or it would schedule, with no live deadline of the slot, a deadline whose id is taken |
| `OccupancyThrows.BindingFailsExactlyWhen` | src/database/EventDatabaseOccupancy.cpp:1026-1131 | With complete fields, the binding of a track fails if and only if the track is bound to something that may not be refreshed, or it is new and its correlation id or command is taken |
| `OccupancyThrows.CameraThrowsExactlyWhen` | src/database/EventDatabaseOccupancy.cpp:1230-1443 | The guards on which a camera command throws, as an equivalence: other areas, an INTRUSION without slot, entry command or binding, an EXIT whose deadline id is taken |
| `OccupancyThrows.DeadlineThrowsExactlyWhen` | src/database/EventDatabaseOccupancy.cpp:1445-1543 | The guards on which an exit deadline throws, as an equivalence: it owns the slot, Hall does not hold the session, and its time is before the entry, its exit command is taken or the slot is unknown |
| `OccupancyThrows.ThrowsExactlyWhen` | src/database/EventDatabaseOccupancy.cpp:1133-1543 | Whatever the source, a pending command throws if and only if such a guard stands in its way and no sensor cursor refuses it first |
| `OccupancyThrows.TracksAreUnique` | src/database/EventDatabaseOccupancy.cpp:1026-1131 | In every reachable state a camera track has at most one binding under an attempt |
| `OccupancyBlocked.TryingChangesNothing` | src/database/EventDatabaseOccupancy.cpp:1546-1609 | Trying a command with such a guard in its way changes no table but its own row, has no effect, and leaves it pending if and only if no cursor refuses it |
| `OccupancyBlocked.BlockedStep` | src/database/EventDatabaseOccupancy.cpp:262-1774 | Whatever call comes, the slot of a blocked head stands without effect, and the head stays blocked if and only if the call does not settle it by its sensor's cursor or cancel it |
| `OccupancyBlocked.BlockedExactlyUntilFreed` | src/database/EventDatabaseOccupancy.cpp:262-1774 | Over every continuation of a run a blocked head stays blocked exactly as long as no call frees it, and all that while its slot stands and starts and ends no session |
| `OccupancyBlocked.BlockedForEver` | src/database/EventDatabaseOccupancy.cpp:1230-1543 | A blocked camera or deadline command is never freed: in every continuation it is pending at the head, and trying it changes nothing |
| `OccupancyRepeatedExit.StuckForEver` | src/database/EventDatabaseOccupancy.cpp:1402-1440 | Once such an EXIT heads its slot, every continuation of the run leaves it pending at the head, applying it changes nothing, the slot's camera row and open session stay but for the overstay mark, and the slot has no further effect |
| `OccupancyBlocked.NothingElseIsListed` | src/database/EventDatabaseOccupancy.cpp:599-627 | While a head is blocked no other pending command of its slot is ever the one the store lists |
| `OccupancyVacancy.OwnDeadlineExactlyWhen` | src/database/EventDatabaseOccupancy.cpp:1402-1440 | An EXIT that leaves a vacancy pending leaves a live deadline of its generation and session if and only if the slot had no live deadline or had one of that generation and session |
| `OccupancyVacancy.ReachableIsTied` | src/database/EventDatabaseOccupancy.cpp:1230-1543 | In every reachable state a camera row that names a session names the open one, deadlines of the current generation agree with it, and a pending vacancy is that of the open session |
| `OccupancyVacancy.BackedExactlyWhen` | src/database/EventDatabaseOccupancy.cpp:1402-1440 | In every reachable state and for every call, a vacancy pending afterwards has a live deadline of its own generation and session if and only if the call applied an EXIT that found no live deadline, or the vacancy had one and stands for the same generation and session |
| `OccupancyVacancy.BackedSinceExactlyWhen` | src/database/EventDatabaseOccupancy.cpp:1402-1440 | Over every run a pending vacancy has such a deadline if and only if it has stood unchanged since an EXIT that found no live deadline |
| `OccupancyVacancy.OwningBacks` | src/database/EventDatabaseOccupancy.cpp:1445-1485 | An admitted deadline that still owns its slot is such a deadline, so a vacancy without one is ended by no deadline |
| `OccupancyVacancy.BackingOwns` | src/database/EventDatabaseOccupancy.cpp:1445-1485 | And while a vacancy has such a deadline, any deadline command that finds its row admitted owns the slot |
| `OccupancyExamples.RepeatedExitSticks` | src/database/EventDatabaseOccupancy.cpp:1409-1440 | A valid run from an empty lot that reaches such an EXIT: a Hall session, an EXIT whose deadline is applied under the Hall hold, the EXIT again |
| `OccupancyExamples.VacancyWithoutDeadline` | src/database/EventDatabaseOccupancy.cpp:1402-1408 | A valid run after which a vacancy is pending and no live deadline is of its generation |
| `OccupancyLostDeadline.VacancyLosesItsDeadline` | src/database/EventDatabaseOccupancy.cpp:1445-1485 | A valid run in which a live deadline of an ended session suppresses a new one and is then superseded: a vacancy of the open session is pending, and the slot has no live deadline |
| `OccupancyFacts.FactTakesEffectAtMostOnce` | src/database/EventDatabaseOccupancy.cpp:948-992 | Over any run, purge and re-admission included, a boot-epoch Hall fact is committed by at most one apply call, and afterwards its cursor refuses it |
| `OccupancyFacts.ApplyCursors` | src/database/EventDatabaseOccupancy.cpp:1142-1229 | Only an accepted Hall fact moves a cursor, only its own sensor's, and a Hall apply that moved a session or slot row committed its fact |
| `OccupancyFacts.RowChangesAreEffects` | src/database/EventDatabaseOccupancy.cpp:1142-1229 | Every Hall apply call that changes a session or slot row is such a commit |
| `OccupancyFacts.StepCursor` | src/database/EventDatabaseOccupancy.cpp:948-992 | A cursor after any call: moved by the fact that the call commits for its sensor, otherwise as it was |
| `OccupancyCursors.UncommittedExactlyWhen` | src/database/EventDatabaseOccupancy.cpp:1142-1229 | An applied, accepted, sequenced Hall fact is left uncommitted, so that the store accepts it again, if and only if its VACANT precedes the open session's entry, its state is unknown, or the step throws; it stays pending if and only if the step throws |
| `OccupancyCursors.HallOutcomes` | src/database/EventDatabaseOccupancy.cpp:1136-1229 | The guards on which the application of an accepted Hall fact is refused, and those on which it throws, as equivalences |
| `OccupancyCursors.CursorIsReplay` | src/database/EventDatabaseOccupancy.cpp:948-992 | In every reachable state a sensor's persisted cursor is the replay of the facts that the run committed for it |
| `OccupancyCursors.StoreDecidesByCommitted` | src/database/EventDatabaseOccupancy.cpp:220-258 | So in every reachable state the store decides every fact as the in-memory policy that committed those facts |
| `OccupancyCursors.StoreDecidesExactlyWhen` | src/database/EventDatabaseOccupancy.cpp:1188-1193 | Throughout a run the store decides every fact as the policy that has heard every settled fact if and only if no accepted, sequenced fact was settled as refused |
| `OccupancyExamples.RefusedFactIsAcceptedAgain` | src/database/EventDatabaseOccupancy.cpp:1188-1193 | A valid run from an empty lot in which a VACANT older than the session is settled and its fact is accepted again, while the policy refuses it |
| `OccupancyFacts.RefusalSurvives` | include/sensor/SensorSequencePolicy.hpp:91-117 | A refused boot-epoch fact stays refused by every cursor reached from there |
| `OccupancyEvidence.EndedSessionNeverAttaches` | src/database/EventDatabaseCorrelation.cpp:336-385 | Once a session has ended, no attach under any lease on it, in any later state, attaches or changes anything |
| `OccupancyEvidence.RepeatedAttachIsRecognised` | src/database/EventDatabaseCorrelation.cpp:250-331 | Repeating an attach under the unrefreshed lease answers AlreadyAttached with the same image in every later state, also after the session has ended |
| `OccupancyEvidence.HistoryIsKept` | src/database/EventDatabaseCorrelation.cpp:387-422 | Ended sessions and stored images are never changed by any later call |
| `ParkingCorrelation.AttachedExactlyWhen` | src/database/EventDatabaseCorrelation.cpp:222-422 | In sound tables evidence is attached if and only if the lease is complete, unexpired and still the stored COMMITTED binding, and the evidence has no image yet |
| `ParkingCorrelation.AttachedStores` | src/database/EventDatabaseCorrelation.cpp:387-412 | What is attached is one new image row with the session, object and revision of the lease and the columns of the evidence |
| `ParkingCorrelation.NotAttachedBecause` | src/database/EventDatabaseCorrelation.cpp:222-385 | Why evidence is not attached, answer by answer; no table changes |
| `ParkingCorrelation.AttachKeepsImages` | src/database/EventDatabaseCorrelation.cpp:301-412 | At most one image per correlation, kind and image reference, whatever is attached |
| `ParkingCorrelation.EndedSessionAttachesNothing` | src/database/EventDatabaseCorrelation.cpp:336-385 | A lease on an ended session never answers Attached and changes nothing |
| `ParkingCorrelation.UniqueLeaseAttaches` | src/database/EventDatabaseCorrelation.cpp:108-220 | A unique match carries the one committed, unexpired lease of the track, and new evidence under it attaches at once |
| `OccupancyStore.PurgeTakesOldest` | src/database/EventDatabaseOccupancy.cpp:1746-1774 | Retention removes settled rows only, as many as the limit allows, and none younger than a settled one it leaves |
| `OccupancyStore.OrdinalFallsExactlyWhen` | src/database/EventDatabaseOccupancy.cpp:432-440 | After rows are removed the next ordinal is lower than before if and only if the youngest row was among them |
| `OccupancyOrdinals.NextIsNotNewExactlyWhen` | src/database/EventDatabaseOccupancy.cpp:432-440 | After every run the next ordinal is not above the highest that any row ever had if and only if that row is no longer there |
| `OccupancyOrdinals.OnlyPurgeLowers` | src/database/EventDatabaseOccupancy.cpp:262-1774 | No call but a purge lowers the next ordinal |
| `OccupancyExamples.OrdinalIsReused` | src/database/EventDatabaseOccupancy.cpp:1746-1774 | A valid run after which the ordinal of a purged row is given out again |
| `OccupancyStore.Store.constructor` | src/database/EventDatabaseTimer.cpp:835-880 | A store begins with the sessions and slots that migration left and every protocol table empty |
| `OccupancyStore.Store.Admit` | src/database/EventDatabaseOccupancy.cpp:262-470 | Step by step with rollback, the imperative admission yields exactly the specified tables, code and id |
| `OccupancyStore.Store.AdmitHall` | src/database/EventDatabaseOccupancy.cpp:333-412 | The Hall part of admission: stale facts, conflicts, cancellation of the waiting confirmation |
| `OccupancyStore.Store.Insert` | src/database/EventDatabaseOccupancy.cpp:415-465 | Capacity check, ordinal above every ordinal present, insert |
| `OccupancyStore.Store.AdmitDue` | src/database/EventDatabaseOccupancy.cpp:473-597 | The loop over due deadlines admits the earliest ones first with consecutive ordinals, as far as there is room, and returns how many it admitted |
| `OccupancyStore.Store.ListRunnable` | src/database/EventDatabaseOccupancy.cpp:599-627 | Exactly the due heads of the slots, ascending by ordinal, at most one a slot |
| `OccupancyStore.Store.ListPendingEffects` | src/database/EventDatabaseOccupancy.cpp:1611-1671 | Exactly the first owed and due effect of each slot, ascending by ordinal, at most one a slot |
| `OccupancyStore.Store.Apply` | src/database/EventDatabaseOccupancy.cpp:679-1609 | One transaction: the tables become those of the specification, or on a thrown error exactly what they were |
| `OccupancyStore.Store.ReduceHall` | src/database/EventDatabaseOccupancy.cpp:1136-1229 | The imperative Hall branch reaches the tables and outcome of its specification |
| `OccupancyStore.Store.ReduceCamera` | src/database/EventDatabaseOccupancy.cpp:1230-1443 | The same for the camera branch |
| `OccupancyStore.Store.Intrude` | src/database/EventDatabaseOccupancy.cpp:1313-1364 | The same for INTRUSION |
| `OccupancyStore.Store.Leave` | src/database/EventDatabaseOccupancy.cpp:1365-1440 | The same for EXIT |
| `OccupancyStore.Store.ScheduleExit` | src/database/EventDatabaseOccupancy.cpp:1402-1440 | Any live deadline of the slot suppresses a new one; a used deadline id fails |
| `OccupancyStore.Store.ScanAreas` | src/database/EventDatabaseOccupancy.cpp:1371-1392 | The loop over configured areas tells whether all are known and whether any is active |
| `OccupancyStore.Store.ReduceDeadline` | src/database/EventDatabaseOccupancy.cpp:1445-1543 | The same for exit deadlines |
| `OccupancyStore.Store.CreateSession` | src/database/EventDatabaseOccupancy.cpp:803-847 | A new session with a fresh id, or failure when the entry command already made one |
| `OccupancyStore.Store.CloseSession` | src/database/EventDatabaseOccupancy.cpp:848-913 | Exit not before entry, session closed, slot vacated, bindings ended, camera state released |
| `OccupancyStore.Store.CommitSequence` | src/database/EventDatabaseOccupancy.cpp:948-992 | The row-by-row write of the Hall cursor equals the specified commit |
| `OccupancyStore.Store.CommitCorrelation` | src/database/EventDatabaseOccupancy.cpp:1026-1131 | Refresh of the track's binding, insertion of a new one, or failure |
| `OccupancyStore.Store.UpdateHallState` | src/database/EventDatabaseOccupancy.cpp:914-930 | Exactly the two Hall columns of one session change |
| `OccupancyStore.Store.UpdateIvaState` | src/database/EventDatabaseOccupancy.cpp:931-947 | Exactly the two camera columns of one session change |
| `OccupancyStore.Store.PersistIva` | src/database/EventDatabaseOccupancy.cpp:994-1025 | The camera state row of the slot is replaced |
| `OccupancyStore.Store.Defer` | src/database/EventDatabaseOccupancy.cpp:629-649 | Only a pending row gets a new attempt time |
| `OccupancyStore.Store.CompleteEffect` | src/database/EventDatabaseOccupancy.cpp:1673-1686 | Only an owed effect is marked delivered |
| `OccupancyStore.Store.DeferEffect` | src/database/EventDatabaseOccupancy.cpp:1688-1709 | Only an owed effect gets a new attempt time |
| `OccupancyStore.Store.Purge` | src/database/EventDatabaseOccupancy.cpp:1746-1774 | Exactly as many settled rows as the limit allows are removed, all of them if they are fewer, and none is younger than a settled row that is left; the count is exact |
| `OccupancyStore.Store.MarkViolation` | src/database/EventDatabaseTimer.cpp:1488-1522 | An active open session becomes a violation; otherwise nothing changes |
| `OccupancyStore.Store.CollectPending` | src/database/EventDatabaseCorrelation.cpp:128-162 | Exactly the correlations waiting in the inbox for the track, unexpired by either expiry field, become candidates without a lease |
| `OccupancyStore.Store.CollectCommitted` | src/database/EventDatabaseCorrelation.cpp:164-200 | Exactly the committed, unexpired bindings of the track join as candidates with their lease, replacing pending ones |
| `OccupancyStore.Store.Resolve` | src/database/EventDatabaseCorrelation.cpp:108-220 | The two loops that collect candidates give the specified match and candidate set |
| `OccupancyStore.Store.Attach` | src/database/EventDatabaseCorrelation.cpp:222-422 | The transaction attaches, recognises or refuses exactly as specified |
| `SensorSequence.ReplayKeepsWellFormed` | include/sensor/SensorSequencePolicy.hpp:119-136 | From any well-formed cursor the active boot is never retired, retired boots stay retired, and versioned mode is never left |
| `SensorSequence.RejectionIsForEver` | include/sensor/SensorSequencePolicy.hpp:55-117 | A boot-epoch fact once rejected is rejected after every later history |
| `SensorSequence.CommittedFactIsNeverAcceptedAgain` | include/sensor/SensorSequencePolicy.hpp:55-136 | A committed boot-epoch fact is never accepted again |
| `SensorSequence.AcceptedEpochsAreConsecutive` | include/sensor/SensorSequencePolicy.hpp:55-136 | From the empty cursor accepted boot-epoch facts form consecutive epochs: a boot never returns, and sequences in it strictly rise |
| `SensorSequence.HallCursorRefinesPolicy` | src/database/EventDatabaseOccupancy.cpp:220-258 | A replay that skips unsequenced facts, as the Hall store's commit does, decides every fact of every history as the policy that commits them all |
| `SensorSequence.FireViewDecidesAlike` | src/database/EventDatabaseFire.cpp:599-616 | Loading only the retired boot that the fact names gives the decision of the whole retired set |
| `SensorSequence.FireCommitAgreesExactly` | src/database/EventDatabaseFire.cpp:617-672 | The row the Fire store writes agrees with the policy's cursor if and only if the fact is not an unsequenced legacy fact over a stored counter |
| `SensorSequence.FireCursorRefinesPolicy` | src/database/EventDatabaseFire.cpp:575-672 | On every history without such a fact the Fire cursor decides every next fact as the policy |
| `SensorSequence.ForgettingChangesADecision` | src/database/EventDatabaseFire.cpp:645-672 | Whenever such a fact is committed, the number the policy then calls a duplicate is accepted by the stored row |
| `SensorSequence.FireDecidesExactlyWhen` | src/database/EventDatabaseFire.cpp:575-672 | On every prefix of a history the Fire cursor decides every fact as the policy if and only if the history never commits an unsequenced legacy fact over a stored counter |
| `SensorSequence.LegacyRepeatsExactlyWhen` | include/sensor/SensorSequencePolicy.hpp:55-90 | A sequenced legacy fact, its boot absent or empty, is accepted if and only if no boot epoch is open and the counter is unknown, lower, or more than 1000 higher |
| `SensorSequence.EpochFactDecided` | include/sensor/SensorSequencePolicy.hpp:91-117 | Over the history alone: a boot-epoch fact is accepted if and only if its boot was never accepted or is the current one and its number is higher than the last, stale if lower, a duplicate if equal, and retired if its boot was given up for another |
| `SensorSequence.LegacyFactDecided` | include/sensor/SensorSequencePolicy.hpp:55-90 | Over the history alone: a legacy fact is a downgrade if and only if a boot-epoch fact was accepted, and else decided by how it lies to the last accepted counter |
| `SensorSequence.InvalidExactlyWhen` | include/sensor/SensorSequencePolicy.hpp:55-117 | A boot-epoch fact is invalid if and only if it lacks boot or number, a legacy fact if and only if it has a boot |
| `SensorSequence.LegacyFactsMayRepeat` | include/sensor/SensorSequencePolicy.hpp:55-90 | A concrete history in which the same legacy fact is accepted twice |
| `SensorSequence.ForgottenCounterParts` | src/database/EventDatabaseFire.cpp:645-672 | A concrete history on which the two differ: counter 5, an unsequenced frame, counter 3 |
| `SensorSequence.SequenceRecord.Commit` | include/sensor/SensorSequencePolicy.hpp:119-136 | The in-place commit moves the record as specified |
| `Crc16.Compute` | src/device/LoRaDriver.cpp:36-48 | The nested loops compute the checksum function used below |
| `Crc16.BitStepIsInjective` | src/device/LoRaDriver.cpp:41-45 | One bit step loses no difference between registers |
| `Crc16.StepsAreLinear` | src/device/LoRaDriver.cpp:41-45 | Bit steps commute with exclusive-or |
| `Crc16.TwoBytes` | src/device/LoRaDriver.cpp:39-46 | Two bytes pass through the register as one 16-bit word |
| `Crc16.MatchesExactlyWhenZero` | src/device/LoRaDriver.cpp:100-103 | A stored checksum matches if and only if the register, run over it too, ends at zero |
| `Crc16.DifferenceSurvives` | src/device/LoRaDriver.cpp:36-48 | Different registers stay different whatever bytes follow |
| `Crc16.BurstIsVisible` | src/device/LoRaDriver.cpp:36-48 | Two sequences that differ only inside two adjacent bytes never have the same checksum |
| `Crc16.CrcIsOfBits` | src/device/LoRaDriver.cpp:36-48 | The checksum of bytes is the checksum of their bits, fed one by one, highest first |
| `Crc16.BitBurstIsVisible` | src/device/LoRaDriver.cpp:36-48 | Two sequences that differ only within sixteen consecutive bits, beginning at any bit, never have the same checksum |
| `Crc16Polynomial.CrcIsTheRemainder` | src/device/LoRaDriver.cpp:36-48 | The checksum of a message is the one remainder of its bits, the first sixteen complemented and sixteen zeros behind them, divided by x^16 + x^12 + x^5 + 1 over the two-element field |
| `Crc16Polynomial.RemainderIsUnique` | src/device/LoRaDriver.cpp:36-48 | A message has no two remainders of degree below sixteen |
| `Crc16Polynomial.CheckValue` | src/device/LoRaDriver.cpp:36-48 | The characters 123456789 have the checksum 0x29B1 |
| `Crc16.WordRoundTrip` | src/device/LoRaDriver.cpp:10-13 | A checksum appended as two bytes is read back unchanged |
| `Crc16.WordIsInjective` | src/device/LoRaDriver.cpp:22-25 | Different byte pairs read as different 16-bit words |
| `LoRaFraming.ChunkingIsInvisible` | src/device/LoRaDriver.cpp:69-118 | For every way of cutting a stream into consume calls, frames, final buffer and rejected count equal those of one call |
| `LoRaFraming.TwoChunks` | src/device/LoRaDriver.cpp:69-118 | Reading a stream in two pieces is reading it in one, from any buffer |
| `LoRaFraming.JudgeIsStable` | src/device/LoRaDriver.cpp:85-113 | A frame accepted or rejected now is accepted or rejected alike whatever bytes follow |
| `LoRaFraming.BufferIsBounded` | src/device/LoRaDriver.cpp:74-99 | On any input the kept buffer is at most 523 bytes, and empty, a lone 0xAA, or begins with the marker |
| `LoRaFraming.SettledParsesToItself` | src/device/LoRaDriver.cpp:74-99 | A buffer is left untouched by an empty call if and only if it is empty, a lone 0xAA, or an unfinished frame |
| `LoRaFraming.ParserUndoesPrinter` | src/device/LoRaDriver.cpp:50-118 | Marker-free garbage followed by any list of encoded frames yields exactly those frames with version 1, no rejection and an empty buffer; an empty list leaves at most a trailing 0xAA |
| `LoRaFraming.PrintedIsAccepted` | src/device/LoRaDriver.cpp:50-67 | Every printed frame is accepted at its marker with its own fields, whatever follows |
| `LoRaWire.WireLayout` | src/device/LoRaDriver.cpp:50-67 | Every byte of a printed frame: 0xAA 0x55, version 1, kind, sequence and length with the high byte first, payload, and the remainder of all but the marker |
| `LoRaWire.JudgedExactlyWhen` | src/device/LoRaDriver.cpp:85-115 | The bytes at a marker are taken for a frame if and only if version is 1 or 2, the length is at most 512 and there, and the last two bytes are the remainder; they are kept waiting if and only if they may still become one; and the frame has the fields that the bytes spell |
| `LoRaWire.SampleIsPrinted` | src/device/LoRaDriver.cpp:50-67 | The thirteen bytes of one frame, checksum included |
| `LoRaFraming.EmittedIsPrinted` | src/device/LoRaDriver.cpp:85-115 | Accepted bytes are exactly the wire form of the frame emitted for them |
| `LoRaFraming.FramesOccurInOrder` | src/device/LoRaDriver.cpp:69-118 | The wire forms of the emitted frames, then the kept buffer, lie in the stream in order and without overlap |
| `LoRaFraming.OnlyGarbage` | src/device/LoRaDriver.cpp:75-83 | Marker-free noise yields nothing and leaves at most a trailing 0xAA |
| `LoRaFraming.AcceptedExactlyWhenZero` | src/device/LoRaDriver.cpp:92-107 | A complete frame is accepted if and only if its checksum register ends at zero |
| `LoRaFraming.BurstIsRejected` | src/device/LoRaDriver.cpp:36-107 | An accepted frame altered only inside two adjacent bytes, outside marker and length, is rejected at its own marker whatever follows |
| `LoRaFraming.PrintedBurstIsRejected` | src/device/LoRaDriver.cpp:36-107 | The same for a frame as the driver prints it |
| `LoRaFraming.BitBurstIsRejected` | src/device/LoRaDriver.cpp:36-107 | An accepted frame altered only within sixteen consecutive bits, three bytes touched included, outside marker and length, is rejected at its own marker whatever follows |
| `LoRaFraming.ReprintU32` | src/device/LoRaDriver.cpp:27-32 | The big-endian reader and writer are inverse |
| `LoRaFraming.LoRaDriver.Consume` | src/device/LoRaDriver.cpp:69-118 | The in-place loop returns, keeps and counts exactly what the parse of buffer and new bytes says |
| `LoRaFraming.LoRaDriver.Encode` | src/device/LoRaDriver.cpp:50-67 | The appended bytes are the frame's wire form; a payload over 512 bytes is refused |
| `LoRaFraming.Search` | src/device/LoRaDriver.cpp:75-77 | The first place of the start marker, or the end |
| `LoRaFraming.Check` | src/device/LoRaDriver.cpp:85-107 | The sequence of early exits gives the specified verdict |
| `FireRun.ReachableIsSound` | src/database/EventDatabaseFire.cpp:356-740 | From empty tables through any calls: unique sensors, topics and outbox keys, each channel's retained row at the channel's revision, lifecycle rows no later than it and unique per revision |
| `FireRun.RevisionsAreCounted` | src/database/EventDatabaseFire.cpp:486-740 | A channel's revision is its bootstrap revision plus its committed transitions, and each later revision has its lifecycle row: none lost |
| `FireRun.ReachableRows` | src/database/EventDatabaseFire.cpp:678-728 | A channel has one retained row, at its revision, and no two lifecycle rows of one revision |
| `FireRun.TransitionAnnounces` | src/database/EventDatabaseFire.cpp:678-728 | A committed transition rewrites the one retained row and inserts its lifecycle row: it never finds that row already there |
| `FireRun.OnlyCommitsChange` | src/database/EventDatabaseFire.cpp:486-740 | A mutation that is not Committed changes no table |
| `FireRun.CommitMovesState` | src/database/EventDatabaseFire.cpp:532-672 | A committed mutation found the expected revision and the same mapping, and its state row replaces the old one |
| `FireRun.MutationKeeps` | src/database/EventDatabaseFire.cpp:486-740 | Any mutation keeps the tables sound |
| `FireRun.InitializeKeeps` | src/database/EventDatabaseFire.cpp:356-484 | Any bootstrap keeps the tables sound and only adds channels, each with its retained row |
| `FireDelivery.OnlyCommittedBootstrapChanges` | src/database/EventDatabaseFire.cpp:356-484 | A bootstrap that is not Committed, Idempotent included, changes no table |
| `FireRows.IdempotentExactlyWhen` | src/database/EventDatabaseFire.cpp:392-484 | A bootstrap of a valid topology is idempotent if and only if every channel is there for its sensor and topic and its retained row announces its state, and the store has no other channel or retained row |
| `FireRows.ReachableIsComplete` | src/database/EventDatabaseFire.cpp:217-255 | In every reachable state every state and outbox row has all its fields, quality of service 1, and is retained exactly if it announces a state |
| `FireDelivery.ResubmissionIsIdempotent` | src/database/EventDatabaseFire.cpp:539-560 | A committed mutation whose lifecycle row is readable, sent again after any calls that commit no mutation of its channel, is Idempotent and changes nothing |
| `FireDelivery.ResubmissionExactly` | src/database/EventDatabaseFire.cpp:539-560 | Sent again after any calls that commit no mutation of its channel, a committed mutation changes nothing; it is Idempotent if and only if its lifecycle row carried no acknowledged revision of zero or was acknowledged since, and fails otherwise |
| `FireDelivery.ReadableExactlyWhen` | src/database/EventDatabaseFire.cpp:163-170 | Calls that commit no mutation of a row's channel make the row readable if and only if it was or they acknowledged it |
| `FireDelivery.ChannelStands` | src/database/EventDatabaseFire.cpp:356-922 | Bootstraps, deliveries, failed mutations and commits of other channels leave a channel's state row, and its outbox rows but for how far the sending got |
| `FireDelivery.CreditIsEarned` | src/database/EventDatabaseFire.cpp:887-906 | ACKED implies acknowledged revision equals row revision, and every acknowledged revision was sent and acknowledged at exactly that revision in the run |
| `FireDelivery.CreditNeverDecreases` | src/database/EventDatabaseFire.cpp:690-716 | No call lowers a row's revision or its acknowledged revision |
| `FireDelivery.UnacknowledgedStaysListed` | src/database/EventDatabaseFire.cpp:820-843 | A lifecycle row whose revision was never acknowledged is on every pending list that covers its channel |
| `FireCredit.AcknowledgedExactlyWhen` | src/database/EventDatabaseFire.cpp:845-906 | Over any run an acknowledgement counts if and only if the row stands at that revision and the last call about the row at that revision, with no restart since, marked it in flight |
| `FireCredit.AcknowledgedIsCredited` | src/database/EventDatabaseFire.cpp:887-906 | Afterwards the row is acknowledged at that revision, no other row has changed, and no pending list has it |
| `FireCredit.ListedExactlyWhen` | src/database/EventDatabaseFire.cpp:820-843 | A lifecycle row is on a pending list that covers its channel if and only if the last call about it at its revision was not an acknowledgement that counted |
| `FireCredit.AttemptsAreSendings` | src/database/EventDatabaseFire.cpp:845-863 | The attempt counter of a row is the number of times that it was marked in flight at its revision |
| `FireDelivery.PendingListRises` | src/database/EventDatabaseFire.cpp:820-843 | The pending list of one channel is in strictly rising revision order |
| `FireCursor.CursorIsReplay` | src/database/EventDatabaseFire.cpp:575-672 | In every reachable state a channel's cursor, with all its retired boots, is the replay of the facts its committed mutations carried |
| `FireCursor.StoreDecidesAsPolicy` | src/database/EventDatabaseFire.cpp:575-643 | So the store decides every fact as the in-memory policy, unless an unsequenced legacy fact was committed over a counter |
| `FireCursor.StoreDecidesExactlyWhen` | src/database/EventDatabaseFire.cpp:575-672 | Throughout a run the store decides every fact of a channel as the in-memory policy if and only if no unsequenced legacy fact was committed over a stored counter |
| `FireExamples.StoreForgetsCounter` | src/database/EventDatabaseFire.cpp:645-672 | A run of one bootstrap and two mutations after which the store commits counter 3, which the policy calls stale after counter 5 |
| `FireExamples.UnreadableRowFailsAgain` | src/database/EventDatabaseFire.cpp:311-345 | In sound, reachable tables a transition whose lifecycle row carries an acknowledged revision of zero commits, and fails when sent again |
| `FireCursor.MutationFollowsPolicy` | src/database/EventDatabaseFire.cpp:581-643 | A committed mutation that moves the cursor carries a fact the full policy accepts and moves the cursor as the policy does |
| `FireCursor.LoadedIsView` | src/database/EventDatabaseFire.cpp:590-616 | What the store loads is the channel's cursor with the retired boots cut down to the one asked for |
| `FireStore.Store.InitializeTopology` | src/database/EventDatabaseFire.cpp:356-484 | The imperative bootstrap with its two loops and rollback equals its specification |
| `FireStore.Store.InstallRows` | src/database/EventDatabaseFire.cpp:392-431 | The loop over the topology inserts or compares channel by channel |
| `FireStore.CheckTopology` | src/database/EventDatabaseFire.cpp:363-377 | The loop with four sets accepts exactly the topologies that are valid and pairwise distinct |
| `FireStore.Store.ApplyMutation` | src/database/EventDatabaseFire.cpp:486-740 | The transaction with rollback equals its specification |
| `FireStore.Store.MoveCursor` | src/database/EventDatabaseFire.cpp:575-643 | Sequence check and boot retirement |
| `FireStore.Store.AnnounceTransition` | src/database/EventDatabaseFire.cpp:678-728 | Rewrite of the retained row and insertion of the lifecycle row, or failure |
| `FireStore.Store.MarkInFlight` | src/database/EventDatabaseFire.cpp:845-863 | Only the named row at the named revision changes |
| `FireStore.Store.MarkPending` | src/database/EventDatabaseFire.cpp:865-885 | Only the named row at the named revision changes |
| `FireStore.Store.Acknowledge` | src/database/EventDatabaseFire.cpp:887-906 | Only a row in flight at the named revision is acknowledged |
| `FireStore.Store.ResetInFlight` | src/database/EventDatabaseFire.cpp:908-922 | Row by row, exactly the deliveries in flight become pending |
| `FireStore.Store.ListPendingLifecycle` | src/database/EventDatabaseFire.cpp:820-843 | Exactly the lifecycle rows not acknowledged, by revision, creation time, key; an error exactly when one cannot be read |
| `BestShotQuarantine.IdentityKeyIsInjective` | src/bestshot/BestShotReceiver.cpp:683-701 | Two records have equal keys if and only if camera, channel, object, kind and image reference are equal, for arbitrary text |
| `BestShotQuarantine.ExactIdentityKey` | src/bestshot/BestShotReceiver.cpp:683-701 | The appended key is the specified one |
| `BestShotQuarantine.IndexIsExact` | src/bestshot/BestShotReceiver.cpp:577-655 | Under any interleaving of enqueues and reconciliations the index is exactly the disjoint union of queued and in-flight identities, within capacity |
| `BestShotQuarantine.OneItemPerEvidence` | src/bestshot/BestShotReceiver.cpp:577-655 | In every reachable state two held items about the same evidence are the same item in the same place |
| `BestShotQuarantine.FirstSeenIsKept` | src/bestshot/BestShotReceiver.cpp:642-650 | As long as an identity stays, the item held for it is the one first enqueued, first-seen time included |
| `BestShotQuarantine.QueuedItemAwaitsClock` | src/bestshot/BestShotReceiver.cpp:604-614 | An item queued when a reconciliation begins stays with it until the clock is read, whatever else happens |
| `BestShotQuarantine.DueItemLeaves` | src/bestshot/BestShotReceiver.cpp:604-655 | An item in a reconciliation that reads the clock at or after the item's window's end has left before that reconciliation is through, whatever happens in between |
| `BestShotQuarantine.NewestAreHeld` | src/bestshot/BestShotReceiver.cpp:577-602 | As long as nothing is reconciled the quarantine holds the newest pieces of evidence, as many as it has room for, in the order of arrival |
| `BestShotQuarantine.TurnedAwayExactlyWhen` | src/bestshot/BestShotReceiver.cpp:577-602 | New evidence is turned away if and only if every place is taken by evidence in flight |
| `BestShotQuarantine.DrainKeeps` | src/bestshot/BestShotReceiver.cpp:614-653 | A reconciliation alone puts back, in order, exactly the items not due that are to be retried |
| `BestShotQuarantine.KeptMembers` | src/bestshot/BestShotReceiver.cpp:616-649 | An item is put back if and only if it is younger than the window and its result is pending, a failed download, or a rejected attachment that may be tried again |
| `BestShotQuarantine.Receiver.EnqueuePending` | src/bestshot/BestShotReceiver.cpp:577-602 | The critical section equals the specified enqueue |
| `BestShotQuarantine.Receiver.ReconcilePending` | src/bestshot/BestShotReceiver.cpp:604-655 | The loop equals the specified reconciliation and returns one result an item |
| `BestShotReservation.ReservationKeyIsInjective` | src/bestshot/BestShotReceiver.cpp:422-426 | Two reservations clash if and only if correlation and all five evidence fields are equal |
| `BestShotReservation.AlwaysBalanced` | src/bestshot/BestShotReceiver.cpp:64-90 | Over any interleaving of threads the in-flight set is exactly the identities held, each by one thread |
| `BestShotReservation.OneHolder` | src/bestshot/BestShotReceiver.cpp:422-430 | No two threads ever hold a reservation for the same evidence of the same correlation |
| `BestShotReservation.InFlightReservation.constructor` | src/bestshot/BestShotReceiver.cpp:66-72 | Acquired if and only if the identity was not in the set; afterwards it is |
| `BestShotReservation.InFlightReservation.Close` | src/bestshot/BestShotReceiver.cpp:74-78 | Only an acquired reservation takes its identity out of the set |
| `RateLimiter.DecisionFollowsHistory` | src/auth/AuthService.cpp:192-216 | After any sequential run the answer for a key depends only on that key's failures since its last success or size eviction: sweeping idle entries never changes a later decision |
| `RateLimiter.AnsweredExactlyWhen` | src/auth/AuthService.cpp:218-285 | After any sequential run the answer to a login is, as an equivalence for each of the four, what the history of its key and the verdict on its credentials say |
| `RateLimiter.RetryAfterIsExact` | src/auth/AuthService.cpp:192-205 | Who waits as many seconds as told is let through, who comes earlier is not, and the wait is at most the cooldown |
| `RateLimiter.StoredSessionClears` | src/auth/AuthService.cpp:218-285 | A stored session wipes the record of the key, also when the answer was that the service is unavailable |
| `RateLimiter.TableAgrees` | src/auth/AuthService.cpp:165-216 | In every run each key's pruned entry, or its absence, is what its history says |
| `RateLimiter.WindowBound` | src/auth/AuthService.cpp:207-216 | Inside one window at most maxFailures + (window - 1) / cooldown failures of a history get through |
| `RateLimiter.UndisturbedBound` | src/auth/AuthService.cpp:238-258 | The same for all failures of a key with no success and no size eviction in the run |
| `RateLimiter.UndisturbedHistory` | src/auth/AuthService.cpp:238-271 | Such a key's history is the list of all its InvalidCredentials answers |
| `RateLimiter.BoundIsReached` | src/auth/AuthService.cpp:207-216 | For every configuration some run reaches the bound |
| `RateLimiter.SpacedIsReachable` | src/auth/AuthService.cpp:192-216 | Every spaced list of failure times is the history of a run |
| `RateLimiter.HistoryIsSpaced` | src/auth/AuthService.cpp:192-216 | Every history of a run is spaced |
| `RateLimiter.TableIsBounded` | src/auth/AuthService.cpp:172-190 | The table never holds more than 4096 entries |
| `RateLimiter.RoomIsMadeExactly` | src/auth/AuthService.cpp:172-190 | Entries are evicted exactly when 4096 are there, to leave 4095, and then those seen longest ago |
| `RateLimiter.Limiter.PruneFailures` | src/auth/AuthService.cpp:165-170 | The popping loop equals the specified pruning |
| `RateLimiter.Limiter.BoundRateTable` | src/auth/AuthService.cpp:172-190 | Sweep, then eviction of entries seen no later than any that stays, until one more fits |
| `RateLimiter.Limiter.RateLimitRetryAfter` | src/auth/AuthService.cpp:192-205 | The check equals its specification |
| `RateLimiter.Limiter.RecordFailure` | src/auth/AuthService.cpp:207-216 | The record equals its specification |
| `RateLimiter.Limiter.Attempt` | src/auth/AuthService.cpp:238-285 | One login step equals its specification |
| `Text.DecimalIsInjective` | src/bestshot/BestShotReceiver.cpp:685-691 | Different numbers print differently |
| `Text.NumeralPrefix` | src/bestshot/BestShotReceiver.cpp:685-691 | A printed number before a mark that is no digit can be read off the front |

## Left out

- SQLite itself, statement caching, PRAGMAs and schema text: a table is a map, a violated unique index is a rolled-back step.
- JSON: payloads are records; a payload that cannot be read is one case, and per-field type errors are not told apart.
- Formatted timestamps, `EVENT_LOG` rows, `duration_sec`, attempt counters and error texts of the occupancy tables: only epoch milliseconds and what decides a branch.
- The textual comparison of `occurred_at` in the redelivery identity of a source fact: the local receive time is simply not compared.
- 64-bit widths of ids, ordinals, generations and times: numbers are unbounded, except the fire revision and outbox counters, whose limit is checked in the code.
- PENDING_PREPARED rows: no call of the store creates one; the branch that meets one is modelled, and reachable states have none.
- Sessions that were open before migration with no source flag set, or with an exit command: runs begin from tables in which every open session is held by a source and has none.
- Slot rows that are missing: the insert of an inbox row for an unknown slot is a failed admission.
- The time columns of a slot row: only its status is kept, so a VACANT on a vacant slot changes no table but its cursor and inbox row.
- Image rows without a correlation, such as the one `markViolation` writes: only rows that belong to a correlation are kept.
- Progress: nothing is claimed to happen eventually.
- Legacy sequence numbers: at-most-once is claimed for boot-epoch facts only.
- The retry of a thrown attach, and the download and removal of image files around it.
- Exceptions thrown while one quarantined item is processed: processing always returns a code.
- Threads, mutexes and condition waits, and the bodies of `SlotTransitionActor`, `HallParkingService`, `FireAlarmService` and `FireDeliveryCoordinator`: they are an arbitrary scheduler of store calls, and each critical section is one step.
- Other writers of sessions (`createHallSession`, `insertParked`, `departActiveBySlot`, `cancelUnscheduled`, the C `db_manager`): they bypass the protocol.
- Entrance plate matching: floating-point scores whose matcher is not part of this model.
- HTTP, SOAP, RTSP, UART, OCR, Telegram and start-up wiring: input and output.
- Password hashing, tokens, account normalisation and the bearer header: the verdict on the credentials is a parameter.
- The XML escape and unescape of the ONVIF source: not inverses of each other on text that contains an entity.
- Concurrent logins of one key: check and record are two critical sections, and the bound is for logins one after another; attempts that fail in the database are not counted by the limiter.
- The reset of the fire store's attempt counter when it overflows, and a database that is not open.
- FireDelivery.CreditIsEarned: assumes that a new lifecycle row starts pending and unacknowledged, as its callers build it; the store does not check it. `CreditNeverDecreases` and `UnacknowledgedStaysListed` assume the same.
- FireRows.ReachableIsComplete: assumes that the store's clock never gives an empty text.
- FireCredit.AcknowledgedExactlyWhen: assumes the same, as do `AcknowledgedIsCredited` and `ListedExactlyWhen`; `AttemptsAreSendings` assumes besides that a new lifecycle row has not been tried.
- FireRun.RevisionsAreCounted: says nothing about the lifecycle value, which the store does not force a mutation without deliveries to keep.
- OccupancyDeadlines.OwningDeadlineIsInTime: assumes that exit-deadline commands come from the store and that no EXIT is due before its own time.
- OccupancyStore.Store.AdmitDue: collects and inserts in one loop what the code collects first and then inserts; the rows and their order are the same.
