/** Concrete steps of the occupancy store, and the runs from an empty lot that the examples begin with. */
module OccupancySteps {
  import opened Option
  import opened OccupancyTables
  import opened OccupancyRun
  import opened OccupancyThrows
  import S = SensorSequence

  // ----- one step at a time -----

  predicate NonePending(inbox: map<string, Row>) {
    forall k :: k in inbox ==> !IsPending(inbox[k])
  }

  lemma NextOrdinalIs(inbox: map<string, Row>, n: nat)
    requires IsNextOrdinal(inbox, n)
    ensures NextOrdinal(inbox) == n
  {
    var m := NextOrdinal(inbox);
    if m > 1 {
      var k :| k in inbox && inbox[k].ordinal == m - 1;
    }
    if n > 1 {
      var k :| k in inbox && inbox[k].ordinal == n - 1;
    }
  }

  /** Nothing speaks against admitting the command: it is well formed, new, acceptable, and no confirmation waits. */
  predicate Welcome(t: Tables, c: Command) {
    && c.id != "" && c.slot in t.slots && c.slot != "" && c.identity != "" && c.payload.Payload?
    && c.id !in t.inbox
    && (forall k :: k in t.inbox ==> t.inbox[k].command.identity != c.identity && !IsConfirmation(t.inbox[k], c.slot))
    && (c.kind.HallObservation? ==>
          && c.sensor != "" && c.payload.protocol.Some? && !c.payload.hallState.HallOther?
          && S.Accepts(CursorOf(t.cursors, c.sensor), HallFact(c)))
  }

  lemma WelcomeIsAdmitted(t: Tables, c: Command, capacity: nat, n: nat)
    requires Welcome(t, c) && IsNextOrdinal(t.inbox, n) && (c.kind.CameraObservation? ==> c.payload.correlationId == "")
    requires |PendingIds(t.inbox)| < capacity
    ensures Step(t, AdmitCall(c, capacity, 0)) == SetRow(t, c.id, NewRow(c, n, "", 0))
  {
    NextOrdinalIs(t.inbox, n);
    hide S.Evaluate, NextOrdinal, NewRow, PendingIds;
  }

  lemma NonePendingIsEmpty(inbox: map<string, Row>)
    requires NonePending(inbox)
    ensures |PendingIds(inbox)| == 0
  {
    assert PendingIds(inbox) == {};
  }

  lemma FirstPendingIsHead(inbox: map<string, Row>, id: string)
    requires id in inbox && IsPending(inbox[id])
    requires forall k :: k in inbox && IsPending(inbox[k]) ==> inbox[id].ordinal <= inbox[k].ordinal
    ensures IsHead(inbox, id)
  {
  }

  lemma AppliedIs(t: Tables, id: string, t': Tables, out: Outcome)
    requires id != "" && Reduces(t, id) && Reduce(t, t.inbox[id]) == Done(t', out)
    ensures Step(t, ApplyCall(id)) == SetRow(t', id, FinishedRow(t.inbox[id], out))
  {
    hide Reduce;
  }

  // ----- the empty lot and a session that Hall holds -----

  const PLAIN := Payload(None, true, HallOther, None, None, OtherAction, true, true, "", [], "", "", "", "", "", "",
                         None, None, None,
                         "", None, 0, "")

  function Hall(id: string, state: HallState, sequence: nat, at: int): Command {
    Command(id, HallObservation, "A", "hall", id, Some(sequence),
            PLAIN.(occurredAt := Some(at), hallState := state, protocol := Some(S.LegacyV1)), 0)
  }

  const LOT := Tables(map["A" := SlotVacant], map[], 0, map[], map[], map[], map[], map[], map[], 1)

  const ARRIVAL := Hall("h", HallOccupied, 1, 100)

  const HELD := NewSession(ARRIVAL)

  const ARRIVED := FinishedRow(NewRow(ARRIVAL, 1, "", 0), Outcome(SessionStarted, Some(0), AttemptOf("h"), "", 0))

  const PARKED := Tables(map["A" := SlotOccupied], map[0 := HELD], 1, map["h" := ARRIVED], map[], map[],
                         map["hall" := S.Cursor(S.Legacy, None, Some(1), {})], map[], map[], 1)

  const PARKING := Then(Then(Start(LOT), AdmitCall(ARRIVAL, 1, 0)), ApplyCall("h"))

  const ARRIVING := SetRow(LOT, "h", NewRow(ARRIVAL, 1, "", 0))

  lemma ArrivalIsAdmitted()
    ensures Step(LOT, AdmitCall(ARRIVAL, 1, 0)) == ARRIVING
    ensures IsHead(ARRIVING.inbox, "h") && Reduces(ARRIVING, "h")
  {
    NonePendingIsEmpty(LOT.inbox);
    WelcomeIsAdmitted(LOT, ARRIVAL, 1, 1);
    FirstPendingIsHead(ARRIVING.inbox, "h");
  }

  lemma ArrivalReduces()
    ensures ReduceHall(ARRIVING, ARRIVING.inbox["h"]) ==
            Done(PARKED.(inbox := ARRIVING.inbox), Outcome(SessionStarted, Some(0), AttemptOf("h"), "", 0))
  {
  }

  lemma Parks()
    ensures Valid(PARKING) && Final(PARKING) == PARKED
  {
    ArrivalIsAdmitted();
    ArrivalReduces();
    LotIsInitial();
    hide Final, Step, Initial, IsHead, ReduceHall;
    ValidSteps(Start(LOT), AdmitCall(ARRIVAL, 1, 0));
    ValidSteps(PARKING.prior, ApplyCall("h"));
    AppliedIs(ARRIVING, "h", PARKED.(inbox := ARRIVING.inbox), Outcome(SessionStarted, Some(0), AttemptOf("h"), "", 0));
  }

  lemma LotIsInitial()
    ensures Initial(LOT) && Final(Start(LOT)) == LOT
  {
  }

  lemma HeldIsActive(t: Tables)
    requires t.sessions.Keys == {0} && t.nextSession == 1 && OpenAt(t.sessions[0], "A")
    ensures FindActive(t, "A") == Some(0)
  {
    assert LatestOpen(t.sessions, "A", 1) == Some(0);
  }

  lemma ValidSteps(run: Run, e: Event)
    ensures Final(Then(run, e)) == Step(Final(run), e)
    ensures Valid(run) && Listed(Final(run), e) ==> Valid(Then(run, e))
  {
    hide Step, Listed;
  }

  lemma OneMore(run: Run, t: Tables, e: Event, t': Tables)
    requires Valid(run) && Final(run) == t && Step(t, e) == t' && (e.ApplyCall? ==> Listed(t, e)) && !e.CompleteCall?
    ensures Valid(Then(run, e)) && Final(Then(run, e)) == t'
  {
  }

  // ----- an EXIT that schedules the end of that session -----

  function ExitOf(id: string, at: int): Command {
    Command(id, CameraObservation, "A", "", id, None,
            PLAIN.(occurredAt := Some(at), action := Exit, areaKey := "area", configured := ["area"],
                   deadlineDueAt := Some(300)), 0)
  }

  const FIRST := ExitOf("x", 200)
  const ID := DeadlineId("A", 0, 0)
  const DUE := Deadline("A", AttemptOf("h"), 0, 0, 300, true, Scheduled, None)
  const LEAVING := Iva(AttemptOf("h"), Some(0), 0, VacantPending, ["area"], map["area" := false])
  const LEFT := FinishedRow(NewRow(FIRST, 2, "", 0), Outcome(ExitScheduled, Some(0), AttemptOf("h"), "", 0))

  const SCHEDULED := PARKED.(inbox := map["h" := ARRIVED, "x" := LEFT], deadlines := map[ID := DUE],
                             iva := map["A" := LEAVING])

  const SCHEDULING := Then(Then(PARKING, AdmitCall(FIRST, 1, 0)), ApplyCall("x"))

  const ARRIVING_EXIT := SetRow(PARKED, "x", NewRow(FIRST, 2, "", 0))

  lemma FirstExitIsAdmitted()
    ensures Step(PARKED, AdmitCall(FIRST, 1, 0)) == ARRIVING_EXIT
    ensures IsHead(ARRIVING_EXIT.inbox, "x") && Reduces(ARRIVING_EXIT, "x")
  {
    assert PARKED.inbox["h"].ordinal == 1;
    NonePendingIsEmpty(PARKED.inbox);
    WelcomeIsAdmitted(PARKED, FIRST, 1, 2);
    FirstPendingIsHead(ARRIVING_EXIT.inbox, "x");
  }

  lemma FirstExitReduces()
    ensures ReduceCamera(ARRIVING_EXIT, ARRIVING_EXIT.inbox["x"]) ==
            Done(SCHEDULED.(inbox := ARRIVING_EXIT.inbox), Outcome(ExitScheduled, Some(0), AttemptOf("h"), "", 0))
  {
    HeldIsActive(ARRIVING_EXIT);
    hide LatestOpen, DeadlineId, CameraIntrudes, CameraCorrelates;
    assert AreasAfterExit(ARRIVING_EXIT, ARRIVING_EXIT.inbox["x"]) == map["area" := false];
  }

  lemma FirstExitSchedules()
    ensures Valid(SCHEDULING) && Final(SCHEDULING) == SCHEDULED
  {
    hide Valid, Final, Step, ReduceCamera, IsHead, DeadlineId, FinishedRow, NewRow;
    Parks();
    FirstExitIsAdmitted();
    ValidSteps(PARKING, AdmitCall(FIRST, 1, 0));
    ValidSteps(SCHEDULING.prior, ApplyCall("x"));
    FirstExitSettles();
  }

  lemma FirstExitSettles()
    requires Reduces(ARRIVING_EXIT, "x")
    ensures Step(ARRIVING_EXIT, ApplyCall("x")) == SCHEDULED
  {
    hide ReduceCamera, Step, DeadlineId;
    FirstExitReduces();
    AppliedIs(ARRIVING_EXIT, "x", SCHEDULED.(inbox := ARRIVING_EXIT.inbox),
              Outcome(ExitScheduled, Some(0), AttemptOf("h"), "", 0));
    assert ARRIVING_EXIT.inbox["x" := LEFT] == map["h" := ARRIVED, "x" := LEFT];
  }

  const EXPIRY := DeadlineCommandId(ID)

  lemma EarliestOfOne(deadlines: map<string, Deadline>, d: string)
    requires d in deadlines
    ensures Earliest(deadlines, {d}) == d
  {
  }

  lemma ExpiryIsNew()
    ensures EXPIRY != "h" && EXPIRY != "x" && EXPIRY != "y" && |EXPIRY| > 1
  {
  }

  lemma BatchOfOne(t: Tables, d: string, room: nat, ordinal: nat)
    requires d in t.deadlines && room > 0
    ensures AdmitBatch(t, {d}, room, ordinal, 0) == AdmitDeadline(t, d, ordinal, 0)
  {
    EarliestOfOne(t.deadlines, d);
    hide AdmitDeadline, Earliest;
    assert {d} - {d} == {};
    assert AdmitBatch(AdmitDeadline(t, d, ordinal, 0), {}, room - 1, ordinal + 1, 0) == AdmitDeadline(t, d, ordinal, 0);
  }

  lemma DueCallAdmits(t: Tables, d: string, ordinal: nat, now: int, capacity: nat)
    requires |PendingIds(t.inbox)| < capacity && DueIds(t.deadlines, now, {}) == {d} && NextOrdinal(t.inbox) == ordinal
    requires d in t.deadlines
    ensures Step(t, AdmitDueCall(now, capacity, {}, 0)) == AdmitDeadline(t, d, ordinal, 0)
  {
    hide PendingIds, DueIds, NextOrdinal, AdmitDeadline, AdmitBatch;
    BatchOfOne(t, d, capacity - |PendingIds(t.inbox)|, ordinal);
  }
}
