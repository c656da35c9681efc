/**
 A concrete run in which a vacancy loses the only live deadline: the deadline was scheduled for a session that Hall
 ended, a second session's EXIT finds it live and schedules none of its own, and it is superseded when it comes due.
 */
module OccupancyLostDeadline {
  import opened Option
  import opened OccupancyTables
  import opened OccupancyRun
  import opened OccupancyVacancy
  import opened OccupancySteps
  import S = SensorSequence

  // ----- the second session -----

  const DEPARTURE := Hall("v", HallVacant, 2, 210)
  const SECOND := Hall("n", HallOccupied, 3, 220)
  const LATER := ExitOf("y", 230)

  const OVER := ClosedSession(HELD, DEPARTURE)
  const NEXT := NewSession(SECOND)

  const VACATED := LEAVING.(attempt := "", session := None, observed := Vacant)
  const HANGING := Iva(AttemptOf("n"), Some(1), 0, VacantPending, ["area"], map["area" := false])

  function Counter(n: nat): map<string, S.Cursor> {
    map["hall" := S.Cursor(S.Legacy, None, Some(n), {})]
  }

  const SETTLED_V := FinishedRow(NewRow(DEPARTURE, 3, "", 0), Outcome(SessionEnded, Some(0), AttemptOf("h"), "", 0))
  const SETTLED_N := FinishedRow(NewRow(SECOND, 4, "", 0), Outcome(SessionStarted, Some(1), AttemptOf("n"), "", 0))
  const SETTLED_Y := FinishedRow(NewRow(LATER, 5, "", 0), Outcome(ExitScheduled, Some(1), AttemptOf("n"), "", 0))

  const LEAVING_HALL := SetRow(SCHEDULED, "v", NewRow(DEPARTURE, 3, "", 0))

  const EMPTY := Tables(
    map["A" := SlotVacant], map[0 := OVER], 1, map["h" := ARRIVED, "x" := LEFT, "v" := SETTLED_V],
    map[ID := DUE], map["A" := VACATED], Counter(2), map[], map[], 1)

  const COMING := SetRow(EMPTY, "n", NewRow(SECOND, 4, "", 0))

  const AGAIN := Tables(
    map["A" := SlotOccupied], map[0 := OVER, 1 := NEXT], 2,
    map["h" := ARRIVED, "x" := LEFT, "v" := SETTLED_V, "n" := SETTLED_N],
    map[ID := DUE], map["A" := VACATED], Counter(3), map[], map[], 1)

  const GOING := SetRow(AGAIN, "y", NewRow(LATER, 5, "", 0))

  const HUNG := AGAIN.(
    inbox := map["h" := ARRIVED, "x" := LEFT, "v" := SETTLED_V, "n" := SETTLED_N, "y" := SETTLED_Y],
    iva := map["A" := HANGING])

  const EXPIRING := DeadlineRow(ID, DUE, 6, 0)

  const DUE_NOW := HUNG.(
    inbox := HUNG.inbox[EXPIRY := EXPIRING],
    deadlines := map[ID := DUE.(state := Admitted, admittedBy := Some(EXPIRY))])

  const LOST := DUE_NOW.(
    inbox := DUE_NOW.inbox[EXPIRY := FinishedRow(EXPIRING, Outcome(StaleGeneration, None, AttemptOf("h"), "", 0))],
    deadlines := map[ID := DUE.(state := Superseded, admittedBy := Some(EXPIRY))])

  lemma SecondIsActive(t: Tables)
    requires t.sessions.Keys == {0, 1} && t.nextSession == 2 && OpenAt(t.sessions[1], "A")
    ensures FindActive(t, "A") == Some(1)
  {
    assert LatestOpen(t.sessions, "A", 2) == Some(1);
  }

  lemma NoneIsActive(t: Tables)
    requires t.sessions.Keys == {0} && t.nextSession == 1 && !IsOpen(t.sessions[0])
    ensures FindActive(t, "A") == None
  {
    assert LatestOpen(t.sessions, "A", 0) == None;
  }

  // ----- Hall ends the first session -----

  lemma DepartureIsWelcome()
    ensures Welcome(SCHEDULED, DEPARTURE) && NonePending(SCHEDULED.inbox) && IsNextOrdinal(SCHEDULED.inbox, 3)
  {
    hide DeadlineId;
    assert SCHEDULED.inbox["h"].ordinal == 1 && SCHEDULED.inbox["x"].ordinal == 2;
  }

  lemma DepartureIsFirst()
    ensures Listed(LEAVING_HALL, ApplyCall("v"))
  {
    DepartureIsWelcome();
    hide DeadlineId, Welcome, IsNextOrdinal;
    FirstPendingIsHead(LEAVING_HALL.inbox, "v");
  }

  lemma DepartureIsAdmitted()
    ensures Step(SCHEDULED, AdmitCall(DEPARTURE, 1, 0)) == LEAVING_HALL && Listed(LEAVING_HALL, ApplyCall("v"))
  {
    hide DeadlineId, Welcome, IsNextOrdinal, NonePending, Step, Listed;
    DepartureIsWelcome();
    DepartureIsFirst();
    NonePendingIsEmpty(SCHEDULED.inbox);
    WelcomeIsAdmitted(SCHEDULED, DEPARTURE, 1, 3);
  }

  const RELEASED := HELD.(hallOccupied := false)
  const CLOSING := LEAVING_HALL.(sessions := map[0 := RELEASED])

  lemma DepartureReleases()
    ensures UpdateHall(LEAVING_HALL, 0, true, false) == CLOSING
  {
    hide DeadlineId;
    assert LEAVING_HALL.sessions[0 := RELEASED] == CLOSING.sessions;
  }

  lemma DepartureIsFree()
    ensures !ExitCommandTaken(CLOSING.sessions, "v")
  {
  }

  lemma EndingNothing(session: nat, slot: string, attempt: string)
    ensures EndBindings(map[], session, slot, attempt) == map[]
  {
  }

  lemma DepartureCloses()
    ensures CloseSession(CLOSING, DEPARTURE, 0) == Some(EMPTY.(inbox := LEAVING_HALL.inbox, cursors := Counter(1)))
  {
    DepartureIsFree();
    EndingNothing(0, "A", AttemptOf("h"));
    hide DeadlineId, ExitCommandTaken, EndBindings;
    assert CLOSING.sessions[0 := OVER] == map[0 := OVER] && CLOSING.slots["A" := SlotVacant] == map["A" := SlotVacant];
    assert CLOSING.iva["A" := VACATED] == map["A" := VACATED];
  }

  lemma DepartureCommits()
    ensures CommitSequence(EMPTY.(inbox := LEAVING_HALL.inbox, cursors := Counter(1)), DEPARTURE) ==
            EMPTY.(inbox := LEAVING_HALL.inbox)
  {
    hide DeadlineId;
  }

  lemma DepartureLeaves()
    ensures HallLeaves(LEAVING_HALL, NewRow(DEPARTURE, 3, "", 0)) ==
            Done(EMPTY.(inbox := LEAVING_HALL.inbox), Outcome(SessionEnded, Some(0), AttemptOf("h"), "", 0))
  {
    hide LatestOpen, DeadlineId, CloseSession, UpdateHall, CommitSequence;
    HeldIsActive(LEAVING_HALL);
    DepartureReleases();
    DepartureCloses();
    DepartureCommits();
  }

  lemma DepartureReduces()
    ensures ReduceHall(LEAVING_HALL, NewRow(DEPARTURE, 3, "", 0)) ==
            Done(EMPTY.(inbox := LEAVING_HALL.inbox), Outcome(SessionEnded, Some(0), AttemptOf("h"), "", 0))
  {
    hide HallLeaves, HallEnters, DeadlineId;
    DepartureLeaves();
  }

  lemma DepartureSettles()
    ensures Step(LEAVING_HALL, ApplyCall("v")) == EMPTY
  {
    hide Step, ReduceHall, DeadlineId;
    DepartureReduces();
    AppliedIs(LEAVING_HALL, "v", EMPTY.(inbox := LEAVING_HALL.inbox),
              Outcome(SessionEnded, Some(0), AttemptOf("h"), "", 0));
    assert LEAVING_HALL.inbox["v" := SETTLED_V] == EMPTY.inbox;
  }

  // ----- Hall starts the second -----

  lemma SecondIsWelcome()
    ensures Welcome(EMPTY, SECOND) && NonePending(EMPTY.inbox) && IsNextOrdinal(EMPTY.inbox, 4)
  {
    hide DeadlineId;
    assert EMPTY.inbox["h"].ordinal == 1 && EMPTY.inbox["x"].ordinal == 2 && EMPTY.inbox["v"].ordinal == 3;
  }

  lemma SecondIsFirst()
    ensures Listed(COMING, ApplyCall("n"))
  {
    SecondIsWelcome();
    hide DeadlineId, Welcome, IsNextOrdinal;
    FirstPendingIsHead(COMING.inbox, "n");
  }

  lemma SecondIsAdmitted()
    ensures Step(EMPTY, AdmitCall(SECOND, 1, 0)) == COMING && Listed(COMING, ApplyCall("n"))
  {
    hide DeadlineId, Welcome, IsNextOrdinal, NonePending, Step, Listed;
    SecondIsWelcome();
    SecondIsFirst();
    NonePendingIsEmpty(EMPTY.inbox);
    WelcomeIsAdmitted(EMPTY, SECOND, 1, 4);
  }

  lemma SecondReduces()
    ensures ReduceHall(COMING, NewRow(SECOND, 4, "", 0)) ==
            Done(AGAIN.(inbox := COMING.inbox), Outcome(SessionStarted, Some(1), AttemptOf("n"), "", 0))
  {
    NoneIsActive(COMING);
    hide LatestOpen, DeadlineId;
    assert HELD.entryCommand == Some("h");
  }

  lemma SecondSettles()
    ensures Step(COMING, ApplyCall("n")) == AGAIN
  {
    hide Step, ReduceHall, DeadlineId;
    SecondReduces();
    AppliedIs(COMING, "n", AGAIN.(inbox := COMING.inbox), Outcome(SessionStarted, Some(1), AttemptOf("n"), "", 0));
    assert COMING.inbox["n" := SETTLED_N] == AGAIN.inbox;
  }

  // ----- its EXIT finds the old deadline -----

  lemma LaterIsWelcome()
    ensures Welcome(AGAIN, LATER) && NonePending(AGAIN.inbox) && IsNextOrdinal(AGAIN.inbox, 5)
  {
    hide DeadlineId;
    assert AGAIN.inbox["h"].ordinal == 1 && AGAIN.inbox["x"].ordinal == 2;
    assert AGAIN.inbox["v"].ordinal == 3 && AGAIN.inbox["n"].ordinal == 4;
  }

  lemma LaterIsFirst()
    ensures Listed(GOING, ApplyCall("y"))
  {
    LaterIsWelcome();
    hide DeadlineId, Welcome, IsNextOrdinal;
    FirstPendingIsHead(GOING.inbox, "y");
  }

  lemma LaterIsAdmitted()
    ensures Step(AGAIN, AdmitCall(LATER, 1, 0)) == GOING && Listed(GOING, ApplyCall("y"))
  {
    hide DeadlineId, Welcome, IsNextOrdinal, NonePending, Step, Listed;
    LaterIsWelcome();
    LaterIsFirst();
    NonePendingIsEmpty(AGAIN.inbox);
    WelcomeIsAdmitted(AGAIN, LATER, 1, 5);
  }

  lemma LaterReduces()
    ensures ReduceCamera(GOING, NewRow(LATER, 5, "", 0)) ==
            Done(HUNG.(inbox := GOING.inbox), Outcome(ExitScheduled, Some(1), AttemptOf("n"), "", 0))
  {
    SecondIsActive(GOING);
    hide LatestOpen, DeadlineId, CameraIntrudes, CameraCorrelates;
    assert VACATED.areas["area" := false] == HANGING.areas;
    assert IsLive(GOING.deadlines[ID]);
  }

  lemma LaterSettles()
    ensures Step(GOING, ApplyCall("y")) == HUNG
  {
    hide Step, ReduceCamera, DeadlineId;
    LaterReduces();
    AppliedIs(GOING, "y", HUNG.(inbox := GOING.inbox), Outcome(ExitScheduled, Some(1), AttemptOf("n"), "", 0));
    assert GOING.inbox["y" := SETTLED_Y] == HUNG.inbox;
  }

  // ----- which is then superseded -----

  lemma HungRows()
    ensures PendingIds(HUNG.inbox) == {} && DueIds(HUNG.deadlines, 300, {}) == {ID} && NextOrdinal(HUNG.inbox) == 6
  {
    hide DeadlineId;
    assert HUNG.inbox["y"].ordinal == 5;
    NextOrdinalIs(HUNG.inbox, 6);
  }

  lemma ExpiryIsFresh()
    ensures EXPIRY !in HUNG.inbox && EXPIRY != ""
  {
    assert EXPIRY[0] == 'd' && |EXPIRY| > 1;
  }

  lemma ExpiryIsInserted()
    ensures AdmitDeadline(HUNG, ID, 6, 0) == DUE_NOW
  {
    ExpiryIsFresh();
    hide DeadlineId, DeadlineCommandId;
  }

  lemma ExpiryIsAdmitted()
    ensures Step(HUNG, AdmitDueCall(300, 1, {}, 0)) == DUE_NOW
  {
    hide Step, DeadlineId, DeadlineCommandId, AdmitDeadline, NextOrdinal, DueIds, PendingIds;
    HungRows();
    ExpiryIsInserted();
    DueCallAdmits(HUNG, ID, 6, 300, 1);
  }

  lemma ExpiryIsFirst()
    ensures Listed(DUE_NOW, ApplyCall(EXPIRY)) && Reduces(DUE_NOW, EXPIRY) && DUE_NOW.inbox[EXPIRY] == EXPIRING
    ensures EXPIRY != ""
  {
    ExpiryIsFresh();
    hide DeadlineId, DeadlineCommandId;
    FirstPendingIsHead(DUE_NOW.inbox, EXPIRY);
  }

  lemma ExpiryReduces()
    ensures ReduceDeadline(DUE_NOW, EXPIRING) ==
            Done(LOST.(inbox := DUE_NOW.inbox), Outcome(StaleGeneration, None, AttemptOf("h"), "", 0))
  {
    SecondIsActive(DUE_NOW);
    hide LatestOpen, DeadlineId, DeadlineCommandId;
  }

  lemma ExpirySettles()
    ensures Step(DUE_NOW, ApplyCall(EXPIRY)) == LOST && Listed(DUE_NOW, ApplyCall(EXPIRY))
  {
    hide Step, ReduceDeadline, DeadlineId, DeadlineCommandId, Listed;
    ExpiryIsFirst();
    ExpiryReduces();
    AppliedIs(DUE_NOW, EXPIRY, LOST.(inbox := DUE_NOW.inbox), Outcome(StaleGeneration, None, AttemptOf("h"), "", 0));
  }

  // ----- the run -----

  const HUNG_RUN :=
    Then(Then(Then(Then(Then(Then(SCHEDULING, AdmitCall(DEPARTURE, 1, 0)), ApplyCall("v")), AdmitCall(SECOND, 1, 0)),
                   ApplyCall("n")), AdmitCall(LATER, 1, 0)), ApplyCall("y"))

  const LOSING := Then(Then(HUNG_RUN, AdmitDueCall(300, 1, {}, 0)), ApplyCall(EXPIRY))

  lemma Hangs()
    ensures Valid(HUNG_RUN) && Final(HUNG_RUN) == HUNG
  {
    hide Valid, Final, Step, Listed, DeadlineId, FinishedRow, NewRow;
    FirstExitSchedules();
    DepartureIsAdmitted();
    DepartureSettles();
    SecondIsAdmitted();
    SecondSettles();
    LaterIsAdmitted();
    LaterSettles();
    OneMore(SCHEDULING, SCHEDULED, AdmitCall(DEPARTURE, 1, 0), LEAVING_HALL);
    OneMore(HUNG_RUN.prior.prior.prior.prior.prior, LEAVING_HALL, ApplyCall("v"), EMPTY);
    OneMore(HUNG_RUN.prior.prior.prior.prior, EMPTY, AdmitCall(SECOND, 1, 0), COMING);
    OneMore(HUNG_RUN.prior.prior.prior, COMING, ApplyCall("n"), AGAIN);
    OneMore(HUNG_RUN.prior.prior, AGAIN, AdmitCall(LATER, 1, 0), GOING);
    OneMore(HUNG_RUN.prior, GOING, ApplyCall("y"), HUNG);
  }

  lemma LostHasNone()
    ensures Pending(LOST, "A") && FindActive(LOST, "A") == Some(1) && !HasLiveDeadline(LOST.deadlines, "A")
  {
    SecondIsActive(LOST);
    hide LatestOpen, DeadlineId, DeadlineCommandId;
  }

  /** The vacancy of an open session is pending, and there is no live deadline at all. */
  lemma VacancyLosesItsDeadline()
    ensures Valid(LOSING) && Final(LOSING) == LOST
    ensures Pending(LOST, "A") && FindActive(LOST, "A") == Some(1) && !HasLiveDeadline(LOST.deadlines, "A")
    ensures !Backed(Final(HUNG_RUN), "A") && HasLiveDeadline(Final(HUNG_RUN).deadlines, "A")
  {
    hide Valid, Final, Step, Listed, DeadlineId, DeadlineCommandId, FinishedRow, NewRow, FindActive;
    Hangs();
    ExpiryIsAdmitted();
    ExpirySettles();
    LostHasNone();
    OneMore(HUNG_RUN, HUNG, AdmitDueCall(300, 1, {}, 0), DUE_NOW);
    OneMore(LOSING.prior, DUE_NOW, ApplyCall(EXPIRY), LOST);
    assert IsLive(HUNG.deadlines[ID]);
  }
}
