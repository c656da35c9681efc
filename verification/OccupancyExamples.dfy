/** Concrete runs of the occupancy store, from an empty lot, in which it departs from what one would expect of it. */
module OccupancyExamples {
  import opened Option
  import opened OccupancyTables
  import opened OccupancyRun
  import opened OccupancyFacts
  import opened OccupancyCursors
  import opened OccupancyThrows
  import opened OccupancyRepeatedExit
  import opened OccupancySteps
  import S = SensorSequence

  // ----- an accepted fact that is not committed -----

  const EARLY := Hall("v", HallVacant, 2, 50)

  const REFUSING := Then(Then(PARKING, AdmitCall(EARLY, 1, 0)), ApplyCall("v"))

  lemma EarlyVacancyWaits()
    ensures Valid(REFUSING) && Final(REFUSING.prior) == SetRow(PARKED, "v", NewRow(EARLY, 2, "", 0))
  {
    Parks();
    hide Valid, Final, Step, Reduce;
    assert PARKED.inbox["h"].ordinal == 1;
    NonePendingIsEmpty(PARKED.inbox);
    WelcomeIsAdmitted(PARKED, EARLY, 1, 2);
    ValidSteps(PARKING, AdmitCall(EARLY, 1, 0));
    FirstPendingIsHead(SetRow(PARKED, "v", NewRow(EARLY, 2, "", 0)).inbox, "v");
    ValidSteps(REFUSING.prior, ApplyCall("v"));
  }

  /** A VACANT older than the session is settled with its fact uncommitted; the store accepts the fact again. */
  lemma RefusedFactIsAcceptedAgain()
    ensures Valid(REFUSING) && Withholds(Final(REFUSING.prior), ApplyCall("v"), "hall")
    ensures S.Accepts(CursorOf(Final(REFUSING).cursors, "hall"), HallFact(EARLY))
    ensures !S.Accepts(S.Replay(S.EMPTY, SettledFacts(REFUSING, "hall")), HallFact(EARLY))
    ensures !DecidesThroughout(REFUSING, "hall")
  {
    EarlyVacancyWaits();
    hide Valid, Final, Step, ReduceHall, DecidesThroughout, SettledFacts;
    var t := Final(REFUSING.prior);
    HeldIsActive(t);
    NothingWithheldYet();
    WithheldParts(REFUSING.prior, ApplyCall("v"), "hall");
    StoreDecidesExactlyWhen(REFUSING, "hall");
  }

  lemma NothingWithheldYet()
    ensures WithholdsNone(REFUSING.prior, "hall")
  {
    ArrivalIsAdmitted();
    hide Step, ReduceHall, S.Evaluate;
    assert !Withholds(ARRIVING, ApplyCall("h"), "hall");
  }

  // ----- an EXIT that can never be applied -----

  const EXPIRING := DeadlineRow(ID, DUE, 3, 0)

  const ADMITTED := SCHEDULED.(
    inbox := map["h" := ARRIVED, "x" := LEFT, EXPIRY := EXPIRING],
    deadlines := map[ID := DUE.(state := Admitted, admittedBy := Some(EXPIRY))])

  const ADMITTING := Then(SCHEDULING, AdmitDueCall(300, 1, {}, 0))

  lemma OneDeadlineIsDue()
    ensures PendingIds(SCHEDULED.inbox) == {} && DueIds(SCHEDULED.deadlines, 300, {}) == {ID}
    ensures NextOrdinal(SCHEDULED.inbox) == 3
  {
    hide DeadlineId;
    assert SCHEDULED.inbox["h"].ordinal == 1 && SCHEDULED.inbox["x"].ordinal == 2;
    NextOrdinalIs(SCHEDULED.inbox, 3);
  }

  lemma DeadlineIsInserted()
    ensures AdmitDeadline(SCHEDULED, ID, 3, 0) == ADMITTED
  {
    ExpiryIsNew();
    hide DeadlineId, DeadlineCommandId;
    assert SCHEDULED.inbox[EXPIRY := EXPIRING] == ADMITTED.inbox;
  }

  lemma DeadlineIsAdmitted()
    ensures Valid(ADMITTING) && Final(ADMITTING) == ADMITTED
  {
    hide Valid, Final, Step, DeadlineId, AdmitDeadline, NextOrdinal, DueIds, PendingIds;
    FirstExitSchedules();
    OneDeadlineIsDue();
    DeadlineIsInserted();
    DueCallAdmits(SCHEDULED, ID, 3, 300, 1);
    ValidSteps(SCHEDULING, AdmitDueCall(300, 1, {}, 0));
  }

  const EXPIRED := FinishedRow(EXPIRING, Outcome(NoChange, Some(0), AttemptOf("h"), "", 0))

  const KEPT := SCHEDULED.(
    inbox := map["h" := ARRIVED, "x" := LEFT, EXPIRY := EXPIRED],
    deadlines := map[ID := DUE.(state := DeadlineApplied, admittedBy := Some(EXPIRY))],
    iva := map["A" := LEAVING.(observed := Vacant)])

  const KEEPING := Then(ADMITTING, ApplyCall(EXPIRY))

  lemma DeadlineVacatesOnly()
    requires DeadlineMatches(ADMITTED, EXPIRING.command) && DeadlineOwns(ADMITTED, EXPIRING.command)
    ensures DeadlineVacates(ADMITTED, EXPIRING) ==
            Done(KEPT.(inbox := ADMITTED.inbox), Outcome(NoChange, Some(0), AttemptOf("h"), "", 0))
  {
    hide FindActive, DeadlineId, DeadlineCommandId, DeadlineMatches, DeadlineOwns;
  }

  lemma DeadlineReduces()
    ensures ReduceDeadline(ADMITTED, EXPIRING) ==
            Done(KEPT.(inbox := ADMITTED.inbox), Outcome(NoChange, Some(0), AttemptOf("h"), "", 0))
  {
    hide FindActive, DeadlineId, DeadlineCommandId, DeadlineMatches, DeadlineOwns, DeadlineVacates;
    DeadlineIsOwned();
    DeadlineVacatesOnly();
  }

  lemma DeadlineIsOwned()
    ensures DeadlineMatches(ADMITTED, EXPIRING.command) && DeadlineOwns(ADMITTED, EXPIRING.command)
  {
    HeldIsActive(ADMITTED);
    hide LatestOpen, DeadlineId, DeadlineCommandId;
  }

  lemma ExpiryIsFirst()
    ensures IsHead(ADMITTED.inbox, EXPIRY) && Reduces(ADMITTED, EXPIRY) && ADMITTED.inbox[EXPIRY] == EXPIRING
    ensures ADMITTED.inbox[EXPIRY := EXPIRED] == KEPT.inbox && EXPIRY != ""
  {
    ExpiryIsNew();
    hide DeadlineId, DeadlineCommandId;
    FirstPendingIsHead(ADMITTED.inbox, EXPIRY);
  }

  lemma DeadlineChangesNothing()
    ensures Valid(KEEPING) && Final(KEEPING) == KEPT
  {
    DeadlineIsAdmitted();
    ExpiryIsFirst();
    DeadlineReduces();
    hide Valid, Final, Step, ReduceDeadline, IsHead, DeadlineId, DeadlineCommandId;
    ValidSteps(ADMITTING, ApplyCall(EXPIRY));
    AppliedIs(ADMITTED, EXPIRY, KEPT.(inbox := ADMITTED.inbox), Outcome(NoChange, Some(0), AttemptOf("h"), "", 0));
  }

  const AGAIN := ExitOf("y", 400)
  const REPEATING := Then(KEEPING, AdmitCall(AGAIN, 1, 0))

  const REPEATED := SetRow(KEPT, "y", NewRow(AGAIN, 4, "", 0))

  lemma SecondExitIsAdmitted()
    ensures Step(KEPT, AdmitCall(AGAIN, 1, 0)) == REPEATED
  {
    ExpiryIsNew();
    IdentitiesDiffer();
    hide DeadlineId, DeadlineCommandId;
    assert KEPT.inbox["h"].ordinal == 1 && KEPT.inbox["x"].ordinal == 2 && KEPT.inbox[EXPIRY].ordinal == 3;
    NonePendingIsEmpty(KEPT.inbox);
    WelcomeIsAdmitted(KEPT, AGAIN, 1, 4);
  }

  lemma SecondExitIsHead()
    ensures IsHead(REPEATED.inbox, "y") && Reduces(REPEATED, "y")
  {
    ExpiryIsNew();
    hide DeadlineId, DeadlineCommandId;
    FirstPendingIsHead(REPEATED.inbox, "y");
  }

  lemma SecondExitCollides()
    ensures Collides(REPEATED, REPEATED.inbox["y"])
  {
    HeldIsActive(REPEATED);
    hide LatestOpen, DeadlineId, DeadlineCommandId;
    assert AreasAfterExit(REPEATED, REPEATED.inbox["y"]) == map["area" := false];
  }

  /**
   A Hall session, an EXIT whose deadline is applied while Hall still holds the session, and the EXIT again: from an
   empty lot a valid run reaches an EXIT that, by `StuckForEver`, no continuation ever applies.
   */
  lemma RepeatedExitSticks()
    ensures Valid(REPEATING) && Stuck(Final(REPEATING), "y")
  {
    DeadlineChangesNothing();
    SecondExitIsAdmitted();
    SecondExitIsHead();
    SecondExitCollides();
    hide Valid, Final, Step, IsHead, DeadlineId, DeadlineCommandId, Collides;
    ValidSteps(KEEPING, AdmitCall(AGAIN, 1, 0));
  }

  lemma IdentitiesDiffer()
    ensures ID != "y" && ID != "h"
  {
    assert ID[0] == 'i';
  }

  // ----- a pending vacancy without a deadline of its own -----

  const RETURN := Command("i", CameraObservation, "A", "", "i", None,
                          PLAIN.(occurredAt := Some(250), action := Intrusion, areaKey := "area",
                                 configured := ["area"]), 0)

  const DEPARTURE := ExitOf("z", 260)

  const WAITING := SCHEDULED.(inbox :=
    map["h" := ARRIVED, "x" := LEFT, "i" := NewRow(RETURN, 3, "", 0), "z" := NewRow(DEPARTURE, 4, "", 0)])

  const CROWDED := WAITING.(
    inbox := WAITING.inbox[EXPIRY := DeadlineRow(ID, DUE, 5, 0)],
    deadlines := map[ID := DUE.(state := Admitted, admittedBy := Some(EXPIRY))])

  const BACK := Iva(AttemptOf("h"), Some(0), 1, Occupied, ["area"], map["area" := true])
  const GONE := Iva(AttemptOf("h"), Some(0), 2, VacantPending, ["area"], map["area" := false])
  const BOTH := HELD.(ivaConfirmed := true, ivaOccupied := true)

  const RETURNED := CROWDED.(
    inbox := CROWDED.inbox["i" := FinishedRow(NewRow(RETURN, 3, "", 0),
                                              Outcome(NoChange, Some(0), AttemptOf("h"), "", 1))],
    sessions := map[0 := BOTH], iva := map["A" := BACK])

  const DEPARTED := RETURNED.(
    inbox := RETURNED.inbox["z" := FinishedRow(NewRow(DEPARTURE, 4, "", 0),
                                               Outcome(ExitScheduled, Some(0), AttemptOf("h"), "", 2))],
    iva := map["A" := GONE])

  const CROSSING :=
    Then(Then(Then(Then(Then(SCHEDULING, AdmitCall(RETURN, 9, 0)), AdmitCall(DEPARTURE, 9, 0)),
                   AdmitDueCall(300, 9, {}, 0)),
              ApplyCall("i")), ApplyCall("z"))

  const RETURNING := SetRow(SCHEDULED, "i", NewRow(RETURN, 3, "", 0))

  lemma ReturnIsAdmitted()
    ensures Step(SCHEDULED, AdmitCall(RETURN, 9, 0)) == RETURNING
  {
    hide DeadlineId;
    NonePendingIsEmpty(SCHEDULED.inbox);
    assert SCHEDULED.inbox["h"].ordinal == 1 && SCHEDULED.inbox["x"].ordinal == 2;
    WelcomeIsAdmitted(SCHEDULED, RETURN, 9, 3);
  }

  lemma DepartureIsAdmitted()
    ensures Step(RETURNING, AdmitCall(DEPARTURE, 9, 0)) == WAITING
  {
    hide DeadlineId;
    assert PendingIds(RETURNING.inbox) == {"i"};
    assert RETURNING.inbox["i"].ordinal == 3 && RETURNING.inbox["h"].ordinal == 1 && RETURNING.inbox["x"].ordinal == 2;
    WelcomeIsAdmitted(RETURNING, DEPARTURE, 9, 4);
    assert SetRow(RETURNING, "z", NewRow(DEPARTURE, 4, "", 0)).inbox == WAITING.inbox;
  }

  lemma WaitingRows()
    ensures PendingIds(WAITING.inbox) == {"i", "z"} && DueIds(WAITING.deadlines, 300, {}) == {ID}
    ensures NextOrdinal(WAITING.inbox) == 5
  {
    hide DeadlineId;
    assert WAITING.inbox["z"].ordinal == 4;
    NextOrdinalIs(WAITING.inbox, 5);
  }

  lemma CrowdedInserts()
    ensures AdmitDeadline(WAITING, ID, 5, 0) == CROWDED
  {
    ExpiryIsNew();
    hide DeadlineId, DeadlineCommandId;
  }

  lemma ReturnIsFirst()
    ensures IsHead(CROWDED.inbox, "i") && Reduces(CROWDED, "i") && CROWDED.inbox["i"] == NewRow(RETURN, 3, "", 0)
  {
    ExpiryIsNew();
    hide DeadlineId, DeadlineCommandId;
    FirstPendingIsHead(CROWDED.inbox, "i");
  }

  /** An INTRUSION into an occupied slot that names no correlation. */
  lemma PlainIntrusion(t: Tables, row: Row, i: nat)
    requires row.command.payload.Payload? && row.command.payload.correlationId == ""
    requires FindActive(t, row.command.slot) == Some(i)
    requires Supersede(t.deadlines, row.command.slot) == t.deadlines
    ensures var c, before := row.command, IvaBefore(t, row);
            var generation := IntrusionGeneration(before, c.payload.areaKey);
            CameraIntrudes(t, row) ==
            Done(PersistIva(UpdateIva(t, i, true, true), c.slot,
                            Iva(t.sessions[i].attempt, Some(i), generation, Occupied, c.payload.configured,
                                before.areas[c.payload.areaKey := true])),
                 Outcome(NoChange, Some(i), t.sessions[i].attempt, "", generation))
  {
    hide LatestOpen, Supersede, IvaBefore, IntrusionGeneration, CreateSession, FindTrack;
    assert t.(deadlines := t.deadlines) == t;
  }

  lemma NothingScheduled()
    ensures Supersede(CROWDED.deadlines, "A") == CROWDED.deadlines
  {
    hide DeadlineId, DeadlineCommandId;
  }

  lemma ReturnIntrudes()
    ensures CameraIntrudes(CROWDED, NewRow(RETURN, 3, "", 0)) ==
            Done(CROWDED.(sessions := map[0 := BOTH], iva := map["A" := BACK]),
                 Outcome(NoChange, Some(0), AttemptOf("h"), "", 1))
  {
    hide LatestOpen, CameraIntrudes, Supersede, DeadlineId, DeadlineCommandId, DeadlineRow;
    HeldIsActive(CROWDED);
    NothingScheduled();
    PlainIntrusion(CROWDED, NewRow(RETURN, 3, "", 0), 0);
    assert LEAVING.areas["area" := true] == BACK.areas;
  }

  lemma ReturnReduces()
    ensures ReduceCamera(CROWDED, NewRow(RETURN, 3, "", 0)) ==
            Done(CROWDED.(sessions := map[0 := BOTH], iva := map["A" := BACK]),
                 Outcome(NoChange, Some(0), AttemptOf("h"), "", 1))
  {
    hide FindActive, DeadlineId, DeadlineCommandId, CameraIntrudes, CameraExits, CameraCorrelates;
    ReturnIntrudes();
  }

  lemma DepartureIsFirst()
    ensures IsHead(RETURNED.inbox, "z") && Reduces(RETURNED, "z") && RETURNED.inbox["z"] == NewRow(DEPARTURE, 4, "", 0)
  {
    ExpiryIsNew();
    hide DeadlineId, DeadlineCommandId;
    FirstPendingIsHead(RETURNED.inbox, "z");
  }

  lemma DepartureReduces()
    ensures ReduceCamera(RETURNED, NewRow(DEPARTURE, 4, "", 0)) ==
            Done(RETURNED.(iva := map["A" := GONE]), Outcome(ExitScheduled, Some(0), AttemptOf("h"), "", 2))
  {
    HeldIsActive(RETURNED);
    hide LatestOpen, DeadlineId, DeadlineCommandId, CameraIntrudes, CameraCorrelates;
    assert BACK.areas["area" := false] == GONE.areas;
    assert IsLive(RETURNED.deadlines[ID]);
  }

  lemma DepartedHasNone()
    ensures DEPARTED.iva["A"].observed.VacantPending? && HasLiveDeadline(DEPARTED.deadlines, "A")
    ensures forall d :: d in DEPARTED.deadlines && IsLive(DEPARTED.deadlines[d]) ==>
              DEPARTED.deadlines[d].generation != DEPARTED.iva["A"].generation
  {
    hide DeadlineId, DeadlineCommandId, FinishedRow, NewRow;
    assert IsLive(DEPARTED.deadlines[ID]);
  }

  lemma ReturnSettles()
    ensures Step(CROWDED, ApplyCall("i")) == RETURNED && Listed(CROWDED, ApplyCall("i"))
  {
    ReturnIsFirst();
    ReturnReduces();
    hide Step, DeadlineId, DeadlineCommandId, IsHead, ReduceCamera;
    AppliedIs(CROWDED, "i", CROWDED.(sessions := map[0 := BOTH], iva := map["A" := BACK]),
              Outcome(NoChange, Some(0), AttemptOf("h"), "", 1));
  }

  lemma DepartureSettles()
    ensures Step(RETURNED, ApplyCall("z")) == DEPARTED && Listed(RETURNED, ApplyCall("z"))
  {
    DepartureIsFirst();
    DepartureReduces();
    hide Step, DeadlineId, DeadlineCommandId, IsHead, ReduceCamera;
    AppliedIs(RETURNED, "z", RETURNED.(iva := map["A" := GONE]),
              Outcome(ExitScheduled, Some(0), AttemptOf("h"), "", 2));
  }

  lemma DeadlineIsAdmittedLate()
    ensures Step(WAITING, AdmitDueCall(300, 9, {}, 0)) == CROWDED
  {
    WaitingRows();
    CrowdedInserts();
    hide Step, DeadlineId, DeadlineCommandId, AdmitDeadline, NextOrdinal, DueIds, PendingIds;
    DueCallAdmits(WAITING, ID, 5, 300, 9);
  }

  /**
   A return and a second departure that cross an admitted deadline leave a pending vacancy no live deadline is for.
   */
  lemma VacancyWithoutDeadline()
    ensures Valid(CROSSING) && Final(CROSSING) == DEPARTED
    ensures DEPARTED.iva["A"].observed.VacantPending? && HasLiveDeadline(DEPARTED.deadlines, "A")
    ensures forall d :: d in DEPARTED.deadlines && IsLive(DEPARTED.deadlines[d]) ==>
              DEPARTED.deadlines[d].generation != DEPARTED.iva["A"].generation
  {
    hide Valid, Final, Step, Listed, DeadlineId, DeadlineCommandId, FinishedRow, NewRow;
    DepartedHasNone();
    FirstExitSchedules();
    ReturnIsAdmitted();
    DepartureIsAdmitted();
    DeadlineIsAdmittedLate();
    ReturnSettles();
    DepartureSettles();
    OneMore(SCHEDULING, SCHEDULED, AdmitCall(RETURN, 9, 0), RETURNING);
    OneMore(CROSSING.prior.prior.prior.prior, RETURNING, AdmitCall(DEPARTURE, 9, 0), WAITING);
    OneMore(CROSSING.prior.prior.prior, WAITING, AdmitDueCall(300, 9, {}, 0), CROWDED);
    OneMore(CROSSING.prior.prior, CROWDED, ApplyCall("i"), RETURNED);
    OneMore(CROSSING.prior, RETURNED, ApplyCall("z"), DEPARTED);
  }

  // ----- an ordinal given out twice -----

  const REUSING := Then(Then(PARKING, CompleteCall("h")), PurgeCall(1, 1))

  /** When the youngest row has been purged, its ordinal is the next one again. */
  lemma OrdinalIsReused()
    ensures Valid(REUSING) && PARKED.inbox["h"].ordinal == 1 && NextOrdinal(Final(REUSING).inbox) == 1
  {
    Parks();
    hide Valid, Final;
    ValidSteps(PARKING, CompleteCall("h"));
    ValidSteps(REUSING.prior, PurgeCall(1, 1));
    var t := CompleteEffect(PARKED, "h");
    assert SettledIds(t.inbox, 1) == {"h"};
    assert Older({"h"}, t.inbox, "h") == {};
    assert PurgedIds(t.inbox, 1, 1) == {"h"};
    NextOrdinalIs(map[], 1);
  }
}
