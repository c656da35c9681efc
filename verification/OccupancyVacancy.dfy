/**
 Pending vacancies and the deadlines that back them, over whole runs: a vacancy is backed as long as it stands
 unchanged since an EXIT that found no live deadline, and no longer.
 */
module OccupancyVacancy {
  import opened Option
  import opened OccupancyTables
  import opened OccupancyInvariant
  import opened OccupancyReducers
  import opened OccupancyRun
  import opened OccupancyDeadlines
  import opened OccupancyFacts
  import opened OccupancySlots
  import opened OccupancyThrows
  import opened ParkingCorrelation
  import S = SensorSequence

  predicate IsLiveOf(d: Deadline, slot: string, generation: nat, session: nat) {
    d.slot == slot && d.generation == generation && d.session == session && IsLive(d)
  }

  predicate HasLiveOf(deadlines: map<string, Deadline>, slot: string, generation: nat, session: nat) {
    exists d :: d in deadlines && IsLiveOf(deadlines[d], slot, generation, session)
  }

  /** The camera has left the slot, and its session waits for the exit deadline. */
  predicate Pending(t: Tables, slot: string) {
    slot in t.iva && t.iva[slot].observed.VacantPending?
  }

  /** A live deadline of the slot is of the vacancy's own generation and session. */
  predicate Backed(t: Tables, slot: string) {
    && Pending(t, slot) && t.iva[slot].session.Some?
    && HasLiveOf(t.deadlines, slot, t.iva[slot].generation, t.iva[slot].session.value)
  }

  /** The vacancy stands: it was pending before for the same generation and session. */
  predicate SamePending(t: Tables, t': Tables, slot: string) {
    && Pending(t, slot) && Pending(t', slot)
    && t.iva[slot].generation == t'.iva[slot].generation && t.iva[slot].session == t'.iva[slot].session
  }

  // ----- one EXIT -----

  /**
   An EXIT that leaves a vacancy pending leaves a live deadline of that very generation and session exactly when the
   slot had no live deadline before, or had one of that generation and session.
   */
  lemma OwnDeadlineExactlyWhen(t: Tables, row: Row)
    requires row.command.payload.Payload? && CameraExits(t, row).Done? && CameraExits(t, row).out.code.ExitScheduled?
    ensures var c, g, t' := row.command, GenerationAfterExit(t, row), CameraExits(t, row).t;
            var active := FindActive(t, c.slot);
            && active.Some? && c.slot in t'.iva && t'.iva[c.slot].observed.VacantPending?
            && t'.iva[c.slot].generation == g && t'.iva[c.slot].session == active
            && (HasLiveOf(t'.deadlines, c.slot, g, active.value) <==>
                  !HasLiveDeadline(t.deadlines, c.slot) || HasLiveOf(t.deadlines, c.slot, g, active.value))
  {
    hide LatestOpen, IvaBefore, AllAreasKnown, AnyAreaActive, DeadlineId, AreaActive;
    var c, t' := row.command, CameraExits(t, row).t;
    if !HasLiveDeadline(t.deadlines, c.slot) {
      var session := FindActive(t, c.slot).value;
      var id := DeadlineId(c.slot, GenerationAfterExit(t, row), session);
      assert id in t'.deadlines && IsLiveOf(t'.deadlines[id], c.slot, GenerationAfterExit(t, row), session);
    }
  }

  // ----- what ties camera state, deadlines and sessions together -----

  /** A camera row that names a session names the slot's open one. */
  predicate CameraTied(t: Tables, slot: string) {
    slot in t.iva ==>
      var v := t.iva[slot];
      && (v.observed.VacantPending? ==> v.session.Some?)
      && (v.session.Some? ==>
            FindActive(t, slot) == v.session && v.session.value in t.sessions &&
            v.attempt == t.sessions[v.session.value].attempt)
  }

  /** A deadline carries the attempt of its session. */
  ghost predicate DeadlinesTied(t: Tables, slot: string) {
    forall d :: d in t.deadlines && t.deadlines[d].slot == slot ==>
      && t.deadlines[d].session in t.sessions && t.sessions[t.deadlines[d].session].attempt == t.deadlines[d].attempt
  }

  /** A live deadline of the current generation and the open session is there for a pending vacancy of that session. */
  ghost predicate LiveTied(t: Tables, slot: string) {
    slot in t.iva ==>
      forall d :: d in t.deadlines && t.deadlines[d].slot == slot && IsLive(t.deadlines[d]) &&
                  t.deadlines[d].generation == t.iva[slot].generation &&
                    FindActive(t, slot) == Some(t.deadlines[d].session) ==>
        t.iva[slot].observed.VacantPending? && t.iva[slot].session == Some(t.deadlines[d].session)
  }

  ghost predicate TiedAt(t: Tables, slot: string) {
    CameraTied(t, slot) && DeadlinesTied(t, slot) && LiveTied(t, slot)
  }

  // ----- one step, seen from one slot -----

  /** The slot stays tied, and a vacancy pending after the step is backed by a new deadline or as it was before. */
  ghost predicate Follows(t: Tables, t': Tables, slot: string, scheduled: bool) {
    && TiedAt(t', slot)
    && (Pending(t', slot) ==> (Backed(t', slot) <==> scheduled || (SamePending(t, t', slot) && Backed(t, slot))))
  }

  /** A step that leaves the slot's camera row, open session and deadlines. */
  lemma UntouchedFollows(t: Tables, t': Tables, slot: string)
    requires TiedAt(t, slot) && SameCamera(t, t', slot) && FindActive(t', slot) == FindActive(t, slot)
    requires EndedStayPut(t.sessions, t'.sessions) && DeadlinesStand(t.deadlines, t'.deadlines, slot)
    ensures Follows(t, t', slot, false)
  {
    hide FindActive;
    if Backed(t, slot) {
      var d :| d in t.deadlines && IsLiveOf(t.deadlines[d], slot, t.iva[slot].generation, t.iva[slot].session.value);
      assert d in t'.deadlines && IsLiveOf(t'.deadlines[d], slot, t.iva[slot].generation, t.iva[slot].session.value);
    }
    if Backed(t', slot) {
      var d :| d in t'.deadlines && IsLiveOf(t'.deadlines[d], slot, t.iva[slot].generation, t.iva[slot].session.value);
      assert d in t.deadlines && IsLiveOf(t.deadlines[d], slot, t.iva[slot].generation, t.iva[slot].session.value);
    }
  }

  /** Starting a session from Hall: the camera row named none, so nothing was pending. */
  lemma StartedFollows(t: Tables, t': Tables, slot: string)
    requires DomainOk(t) && TiedAt(t, slot) && FindActive(t, slot).None? && FindActive(t', slot) == Some(t.nextSession)
    requires t'.iva == t.iva && t'.deadlines == t.deadlines && EndedStayPut(t.sessions, t'.sessions)
    ensures Follows(t, t', slot, false)
  {
    hide FindActive, SlotsAgree, BindingsOk, DeadlinesRefer, OneLiveDeadline, GenerationsOk;
  }

  /** Ending the slot's session, whatever the camera row becomes, provided it names none. */
  lemma EndedFollows(t: Tables, t': Tables, slot: string)
    requires TiedAt(t, slot) && FindActive(t', slot).None?
    requires slot in t'.iva ==> t'.iva[slot].session.None? && !t'.iva[slot].observed.VacantPending?
    requires DeadlinesGrow(t.deadlines, t'.deadlines) && t'.deadlines.Keys == t.deadlines.Keys
    requires EndedStayPut(t.sessions, t'.sessions)
    ensures Follows(t, t', slot, false)
  {
    hide FindActive;
  }

  lemma HallEntersIva(t: Tables, row: Row)
    requires row.command.payload.Payload? && row.command.payload.protocol.Some? && HallEnters(t, row).Done?
    ensures HallEnters(t, row).t.iva == t.iva && !HallEnters(t, row).out.code.SessionEnded?
  {
    hide LatestOpen, EntryCommandTaken, S.Committed;
  }

  lemma HallLeavesIva(t: Tables, row: Row)
    requires row.command.payload.Payload? && row.command.payload.protocol.Some? && HallLeaves(t, row).Done?
    ensures var r, slot := HallLeaves(t, row), row.command.slot;
            if r.out.code.SessionEnded?
            then FindActive(t, slot).Some? && r.t.iva == ClearIva(t.iva, slot, FindActive(t, slot).value)
            else r.t.iva == t.iva
  {
    hide FindActive, CloseSession, CommitSequence, ClearIva, UpdateHall;
    var c := row.command;
    var active := FindActive(t, c.slot);
    SequenceStays(t, c);
    if active.None? {
      SequenceStays(if c.slot in t.slots then t.(slots := t.slots[c.slot := SlotVacant]) else t, c);
    } else {
      var t1 := UpdateHall(t, active.value, t.sessions[active.value].hallConfirmed, false);
      FlagsLeaveIva(t, active.value, t.sessions[active.value].hallConfirmed);
      SequenceStays(t1, c);
      ClosingClearsIva(t1, c, active.value);
      if CloseSession(t1, c, active.value).Some? { SequenceStays(CloseSession(t1, c, active.value).value, c); }
    }
  }

  lemma FlagsLeaveIva(t: Tables, i: nat, confirmed: bool)
    requires i in t.sessions
    ensures UpdateHall(t, i, confirmed, false).iva == t.iva && i in UpdateHall(t, i, confirmed, false).sessions
  {
  }

  lemma ClosingClearsIva(t: Tables, c: Command, i: nat)
    requires i in t.sessions
    ensures CloseSession(t, c, i).Some? ==> CloseSession(t, c, i).value.iva == ClearIva(t.iva, c.slot, i)
  {
    hide ClearIva, EndBindings, ExitCommandTaken;
  }

  lemma HallIva(t: Tables, row: Row)
    requires row.command.payload.Payload? && ReduceHall(t, row).Done?
    ensures var r, slot := ReduceHall(t, row), row.command.slot;
            if r.out.code.SessionEnded?
            then FindActive(t, slot).Some? && r.t.iva == ClearIva(t.iva, slot, FindActive(t, slot).value)
            else r.t.iva == t.iva
  {
    hide S.Accepts, LatestOpen, HallEnters, HallLeaves, ClearIva;
    if HallEnters(t, row).Done? { HallEntersIva(t, row); }
    if HallLeaves(t, row).Done? { HallLeavesIva(t, row); }
  }

  lemma HallFollows(t: Tables, row: Row)
    requires DomainOk(t) && TiedAt(t, row.command.slot) && row.command.payload.Payload? && ReduceHall(t, row).Done?
    requires row.command.kind.HallObservation?
    ensures Follows(t, ReduceHall(t, row).t, row.command.slot, false)
  {
    hide ReduceHall, FindActive, Follows, DomainOk, TiedAt, EndedStayPut, DeadlinesGrow, GenerationsGrow,
         DeadlinesStand;
    var r, slot := ReduceHall(t, row), row.command.slot;
    ReduceHallKeeps(t, row);
    KeptSays(t, r, slot);
    HallIva(t, row);
    HallAddsNone(t, row);
    NothingStands(t.deadlines, t.bindings, slot);
    if r.out.code.SessionStarted? {
      StartedFollows(t, r.t, slot);
    } else if r.out.code.SessionEnded? {
      ClearedNamesNone(t, slot);
      EndedFollows(t, r.t, slot);
    } else {
      UntouchedFollows(t, r.t, slot);
    }
  }

  lemma ClearedNamesNone(t: Tables, slot: string)
    requires TiedAt(t, slot) && FindActive(t, slot).Some?
    ensures var iva := ClearIva(t.iva, slot, FindActive(t, slot).value);
            slot in iva ==> iva[slot].session.None? && !iva[slot].observed.VacantPending?
  {
    hide LatestOpen, DeadlinesTied, LiveTied;
  }

  // ----- deadlines -----

  /** Nothing is live at the slot but, possibly, the one deadline. */
  lemma OnlyLive(t: Tables, d: string, e: string)
    requires OneLiveDeadline(t.deadlines) && d in t.deadlines && e in t.deadlines && IsLive(t.deadlines[d])
    requires IsLive(t.deadlines[e])
    requires t.deadlines[d].slot == t.deadlines[e].slot
    ensures d == e
  {
  }

  /** The one live deadline of a slot owns the vacancy that it backs. */
  lemma BackingOwns(t: Tables, c: Command)
    requires OneLiveDeadline(t.deadlines) && TiedAt(t, c.slot) && c.payload.Payload? && DeadlineMatches(t, c)
    requires Backed(t, c.slot)
    ensures DeadlineOwns(t, c)
  {
    hide LatestOpen, OneLiveDeadline, LiveTied;
    var d :| d in t.deadlines &&
      IsLiveOf(t.deadlines[d], c.slot, t.iva[c.slot].generation, t.iva[c.slot].session.value);
    OnlyLive(t, d, c.payload.deadlineId);
  }

  /** And a deadline that owns the slot backs its vacancy: one that is not backed is ended by no deadline. */
  lemma OwningBacks(t: Tables, c: Command)
    requires c.payload.Payload? && DeadlineMatches(t, c) && DeadlineOwns(t, c)
    ensures Backed(t, c.slot)
  {
    hide LatestOpen;
    var session := t.iva[c.slot].session.value;
    assert IsLiveOf(t.deadlines[c.payload.deadlineId], c.slot, t.iva[c.slot].generation, session);
  }

  /** A deadline command that no longer owns the slot takes away no deadline that backs a vacancy. */
  lemma StaleFollows(t: Tables, c: Command)
    requires DomainOk(t) && TiedAt(t, c.slot) && c.payload.Payload? && DeadlineMatches(t, c) && !DeadlineOwns(t, c)
    ensures Follows(t, MarkDeadline(t, c.payload.deadlineId, Superseded), c.slot, false)
  {
    hide LatestOpen, SessionsOk, SlotsAgree, BindingsOk, DeadlinesRefer, OneLiveDeadline, GenerationsOk, DeadlineOwns;
    var id, slot := c.payload.deadlineId, c.slot;
    var t' := MarkDeadline(t, id, Superseded);
    if Backed(t, slot) { BackingOwns(t, c); }
    forall d | d in t'.deadlines && t'.deadlines[d].slot == slot ensures !IsLive(t'.deadlines[d]) {
      if IsLive(t'.deadlines[d]) { OnlyLive(t, d, id); }
    }
  }

  /** An applied deadline under a Hall hold: the vacancy is over and nothing live is left. */
  lemma KeptFollows(t: Tables, t': Tables, id: string, slot: string)
    requires DomainOk(t) && TiedAt(t, slot) && id in t.deadlines && IsLive(t.deadlines[id])
    requires t.deadlines[id].slot == slot
    requires t'.deadlines == t.deadlines[id := t.deadlines[id].(state := DeadlineApplied)]
    requires EndedStayPut(t.sessions, t'.sessions) && FindActive(t', slot) == FindActive(t, slot)
    requires FindActive(t, slot).Some?
    requires slot in t.iva && t.iva[slot].session.Some? && slot in t'.iva && t'.iva[slot].observed.Vacant?
    requires t'.iva[slot].session == t.iva[slot].session && t'.iva[slot].attempt == t.iva[slot].attempt
    ensures Follows(t, t', slot, false)
  {
    hide LatestOpen, SessionsOk, SlotsAgree, BindingsOk, DeadlinesRefer, OneLiveDeadline, GenerationsOk;
    forall d | d in t'.deadlines && t'.deadlines[d].slot == slot ensures !IsLive(t'.deadlines[d]) {
      if IsLive(t'.deadlines[d]) { OnlyLive(t, d, id); }
    }
  }

  lemma DeadlineFollows(t: Tables, row: Row)
    requires DomainOk(t) && TiedAt(t, row.command.slot) && row.command.payload.Payload? && ReduceDeadline(t, row).Done?
    requires row.command.kind.ExitDeadline?
    ensures Follows(t, ReduceDeadline(t, row).t, row.command.slot, false)
  {
    hide FindActive, Follows, DomainOk, TiedAt, EndedStayPut, DeadlinesGrow, GenerationsGrow, DeadlinesStand,
         DeadlineVacates;
    var r, c, slot := ReduceDeadline(t, row), row.command, row.command.slot;
    ReduceDeadlineKeeps(t, row);
    KeptSays(t, r, slot);
    NothingStands(t.deadlines, t.bindings, slot);
    if !DeadlineMatches(t, c) {
      UntouchedFollows(t, t, slot);
    } else if !DeadlineOwns(t, c) {
      StaleFollows(t, c);
    } else {
      VacatesShape(t, row);
      DeadlineAddsNone(t, row);
      if r.out.code.SessionEnded? {
        EndedFollows(t, r.t, slot);
      } else {
        CodeOfVacates(t, row);
        OwnerIsNamed(t, c);
        KeptFollows(t, r.t, c.payload.deadlineId, slot);
      }
    }
  }

  lemma CodeOfVacates(t: Tables, row: Row)
    requires row.command.payload.Payload? && DeadlineMatches(t, row.command) && DeadlineOwns(t, row.command)
    requires DeadlineVacates(t, row).Done?
    ensures var code := DeadlineVacates(t, row).out.code; code.SessionEnded? || code.NoChange?
  {
  }

  lemma OwnerIsNamed(t: Tables, c: Command)
    requires c.payload.Payload? && DeadlineMatches(t, c) && DeadlineOwns(t, c)
    ensures c.slot in t.iva && t.iva[c.slot].session.Some? && FindActive(t, c.slot).Some?
    ensures IsLive(t.deadlines[c.payload.deadlineId]) && t.deadlines[c.payload.deadlineId].slot == c.slot
  {
    hide FindActive;
  }

  lemma VacatesShape(t: Tables, row: Row)
    requires row.command.payload.Payload? && DeadlineMatches(t, row.command) && DeadlineOwns(t, row.command)
    requires DeadlineVacates(t, row).Done?
    ensures var r, c := DeadlineVacates(t, row), row.command;
            var id := c.payload.deadlineId;
            && r.t.deadlines == t.deadlines[id := t.deadlines[id].(state := DeadlineApplied)]
            && c.slot in r.t.iva && r.t.iva[c.slot].observed.Vacant?
            && (if r.out.code.SessionEnded? then r.t.iva[c.slot].session.None?
                else r.t.iva[c.slot].session == t.iva[c.slot].session &&
                     r.t.iva[c.slot].attempt == t.iva[c.slot].attempt)
  {
    hide LatestOpen, EndBindings, ClearIva, ExitCommandTaken;
  }

  // ----- intrusions -----

  lemma IntrudesShape(t: Tables, row: Row)
    requires row.command.payload.Payload? && CameraIntrudes(t, row).Done?
    ensures var r, c := CameraIntrudes(t, row), row.command;
            && r.t.deadlines == Supersede(t.deadlines, c.slot)
            && c.slot in r.t.iva && r.t.iva[c.slot].observed.Occupied?
            && r.t.iva[c.slot].generation == IntrusionGeneration(IvaBefore(t, row), c.payload.areaKey)
            && r.t.iva[c.slot].session.Some?
            && (FindActive(t, c.slot).Some? ==> r.t.iva[c.slot].session == FindActive(t, c.slot) &&
                                                r.t.iva[c.slot].attempt ==
                                                  t.sessions[FindActive(t, c.slot).value].attempt)
            && (FindActive(t, c.slot).None? ==> r.t.iva[c.slot].session == Some(t.nextSession) &&
                                                r.t.iva[c.slot].attempt == AttemptOf(c.id) &&
                                                t.nextSession in r.t.sessions &&
                                                  r.t.sessions[t.nextSession].attempt == AttemptOf(c.id))
  {
    hide FindActive, IntrusionBinds, EntryCommandTaken, IvaBefore, IntrusionGeneration, AttemptOf, Supersede,
         OtherBindingsStay;
    forall t1: Tables, out, session: nat { BindingStays(t1, row, out, session); }
  }

  /** An intrusion leaves no live deadline of the slot's current generation. */
  lemma IntrusionOutdates(t: Tables, row: Row)
    requires GenerationsOk(t.deadlines, t.iva) && row.command.payload.Payload?
    ensures forall d :: d in t.deadlines && t.deadlines[d].slot == row.command.slot ==>
              t.deadlines[d].generation < IntrusionGeneration(IvaBefore(t, row), row.command.payload.areaKey)
  {
    hide AllAreasKnown;
  }

  /** The camera row names the open session, nothing is pending, and no live deadline is of its generation. */
  lemma OccupiedFollows(t: Tables, t': Tables, slot: string)
    requires TiedAt(t, slot) && EndedStayPut(t.sessions, t'.sessions)
    requires slot in t'.iva && t'.iva[slot].observed.Occupied? && t'.iva[slot].session.Some?
    requires FindActive(t', slot) == t'.iva[slot].session && t'.iva[slot].session.value in t'.sessions
    requires t'.iva[slot].attempt == t'.sessions[t'.iva[slot].session.value].attempt
    requires t'.deadlines.Keys == t.deadlines.Keys && DeadlinesGrow(t.deadlines, t'.deadlines)
    requires forall d :: d in t.deadlines && t.deadlines[d].slot == slot && IsLive(t.deadlines[d]) ==>
               t.deadlines[d].generation != t'.iva[slot].generation
    ensures Follows(t, t', slot, false)
  {
    hide FindActive;
  }

  lemma SupersedeGrows(deadlines: map<string, Deadline>, slot: string)
    ensures DeadlinesGrow(deadlines, Supersede(deadlines, slot)) && Supersede(deadlines, slot).Keys == deadlines.Keys
  {
  }

  lemma IntrusionFollows(t: Tables, row: Row)
    requires DomainOk(t) && TiedAt(t, row.command.slot) && row.command.payload.Payload? && CameraIntrudes(t, row).Done?
    requires var r := CameraIntrudes(t, row);
             && EndedStayPut(t.sessions, r.t.sessions)
             && FindActive(r.t, row.command.slot) ==
                (if FindActive(t, row.command.slot).Some? then FindActive(t, row.command.slot) else Some(t.nextSession))
    ensures Follows(t, CameraIntrudes(t, row).t, row.command.slot, false)
  {
    IntrudesShape(t, row);
    IntrusionOutdates(t, row);
    SupersedeGrows(t.deadlines, row.command.slot);
    hide LatestOpen, CameraIntrudes, DomainOk, TiedAt, Follows, IvaBefore, IntrusionGeneration, Supersede,
         DeadlinesGrow;
    OccupiedFollows(t, CameraIntrudes(t, row).t, row.command.slot);
  }

  // ----- exits -----

  lemma UnscheduledShape(t: Tables, row: Row)
    requires row.command.payload.Payload? && CameraExits(t, row).Done? && !CameraExits(t, row).out.code.ExitScheduled?
    ensures var c := row.command;
            var active := FindActive(t, c.slot);
            CameraExits(t, row).t ==
            PersistIva(t, c.slot,
                       Iva(if active.Some? then t.sessions[active.value].attempt else "", active,
                           GenerationAfterExit(t, row),
                           if active.Some? then Occupied else Vacant, c.payload.configured, AreasAfterExit(t, row)))
  {
    hide LatestOpen, IvaBefore, AllAreasKnown, AnyAreaActive, AreaActive, ScheduleExit;
  }

  lemma ScheduledShape(t: Tables, row: Row)
    requires row.command.payload.Payload? && CameraExits(t, row).Done? && CameraExits(t, row).out.code.ExitScheduled?
    ensures var c, g := row.command, GenerationAfterExit(t, row);
            var active := FindActive(t, c.slot);
            && active.Some? && ScheduleExit(t, c, g, active.value).Some?
            && CameraExits(t, row).t ==
               PersistIva(ScheduleExit(t, c, g, active.value).value, c.slot,
                          Iva(t.sessions[active.value].attempt, active, g, VacantPending, c.payload.configured,
                              AreasAfterExit(t, row)))
  {
    hide LatestOpen, IvaBefore, AllAreasKnown, AnyAreaActive, AreaActive, ScheduleExit;
  }

  lemma ExitAreas(t: Tables, row: Row)
    requires row.command.payload.Payload? && CameraExits(t, row).Done? && !CameraExits(t, row).out.code.ExitScheduled?
    requires FindActive(t, row.command.slot).Some?
    ensures || !AllAreasKnown(row.command.payload.configured, AreasAfterExit(t, row))
            || AnyAreaActive(row.command.payload.configured, AreasAfterExit(t, row))
  {
    hide LatestOpen, IvaBefore, AllAreasKnown, AnyAreaActive, AreaActive, ScheduleExit;
  }

  /** The EXIT puts a deadline of its own behind the vacancy that it leaves pending. */
  predicate SchedulesRow(t: Tables, row: Row)
    requires row.command.payload.Payload?
  {
    && CameraExits(t, row).Done? && CameraExits(t, row).out.code.ExitScheduled?
    && !HasLiveDeadline(t.deadlines, row.command.slot)
  }

  /** Areas that were all left stay so when one more is left. */
  lemma LeftStaysLeft(v: Iva, key: string)
    requires AllExited(v)
    ensures AllAreasKnown(v.configured, v.areas[key := false]) && !AnyAreaActive(v.configured, v.areas[key := false])
  {
  }

  /** A live deadline of the slot's own vacancy is inserted where there was none. */
  lemma InsertedFollows(t: Tables, t': Tables, slot: string, session: nat, id: string)
    requires TiedAt(t, slot) && !HasLiveDeadline(t.deadlines, slot) && FindActive(t', slot) == Some(session)
    requires t'.sessions == t.sessions && session in t.sessions && id in t'.deadlines && id !in t.deadlines
    requires t'.deadlines == t.deadlines[id := t'.deadlines[id]] && slot in t'.iva
    requires IsLiveOf(t'.deadlines[id], slot, t'.iva[slot].generation, session)
    requires t'.deadlines[id].attempt == t.sessions[session].attempt == t'.iva[slot].attempt
    requires t'.iva[slot].observed.VacantPending? && t'.iva[slot].session == Some(session)
    ensures Follows(t, t', slot, true)
  {
    hide FindActive;
    InsertedTied(t, t', slot, session, id);
    hide TiedAt;
  }

  lemma InsertedTied(t: Tables, t': Tables, slot: string, session: nat, id: string)
    requires DeadlinesTied(t, slot) && !HasLiveDeadline(t.deadlines, slot) && FindActive(t', slot) == Some(session)
    requires t'.sessions == t.sessions && session in t.sessions && id in t'.deadlines && id !in t.deadlines
    requires t'.deadlines == t.deadlines[id := t'.deadlines[id]] && slot in t'.iva
    requires IsLiveOf(t'.deadlines[id], slot, t'.iva[slot].generation, session)
    requires t'.deadlines[id].attempt == t.sessions[session].attempt == t'.iva[slot].attempt
    requires t'.iva[slot].observed.VacantPending? && t'.iva[slot].session == Some(session)
    ensures TiedAt(t', slot)
  {
    hide FindActive;
  }

  lemma ScheduledInserts(t: Tables, c: Command, generation: nat, session: nat)
    requires c.payload.Payload? && session in t.sessions && !HasLiveDeadline(t.deadlines, c.slot)
    requires ScheduleExit(t, c, generation, session).Some?
    ensures var t1, id := ScheduleExit(t, c, generation, session).value, DeadlineId(c.slot, generation, session);
            && id !in t.deadlines && id in t1.deadlines && t1 == t.(deadlines := t.deadlines[id := t1.deadlines[id]])
            && IsLiveOf(t1.deadlines[id], c.slot, generation, session)
            && t1.deadlines[id].attempt == t.sessions[session].attempt
  {
    hide HasLiveDeadline, DeadlineId;
  }

  lemma ScheduledFollows(t: Tables, row: Row)
    requires TiedAt(t, row.command.slot) && row.command.payload.Payload? && SchedulesRow(t, row)
    requires FindActive(CameraExits(t, row).t, row.command.slot) == FindActive(t, row.command.slot)
    ensures Follows(t, CameraExits(t, row).t, row.command.slot, true)
  {
    hide FindActive, CameraExits, DeadlineId, GenerationAfterExit, AreasAfterExit, TiedAt, Follows, HasLiveDeadline,
         ScheduleExit, IsLiveOf;
    ScheduledShape(t, row);
    var c, g := row.command, GenerationAfterExit(t, row);
    var session := FindActive(t, c.slot).value;
    ScheduledInserts(t, c, g, session);
    InsertedFollows(t, CameraExits(t, row).t, c.slot, session, DeadlineId(c.slot, g, session));
  }

  /** An EXIT that finds a live deadline: the vacancy is backed only if that one was its own before. */
  lemma SuppressedFollows(t: Tables, row: Row)
    requires DomainOk(t) && TiedAt(t, row.command.slot) && row.command.payload.Payload?
    requires CameraExits(t, row).Done? && CameraExits(t, row).out.code.ExitScheduled?
    requires HasLiveDeadline(t.deadlines, row.command.slot)
    requires FindActive(CameraExits(t, row).t, row.command.slot) == FindActive(t, row.command.slot)
    ensures Follows(t, CameraExits(t, row).t, row.command.slot, false)
  {
    ScheduledShape(t, row);
    hide LatestOpen, CameraExits, DeadlineId, AreasAfterExit, SessionsOk, SlotsAgree, BindingsOk, DeadlinesRefer,
         OneLiveDeadline;
    var c, r, g := row.command, CameraExits(t, row), GenerationAfterExit(t, row);
    var session := FindActive(t, c.slot).value;
    if Backed(r.t, c.slot) {
      var d :| d in t.deadlines && IsLiveOf(t.deadlines[d], c.slot, g, session);
      assert t.deadlines[d].generation <= t.iva[c.slot].generation;
      assert SamePending(t, r.t, c.slot);
    }
  }

  /** An EXIT that schedules nothing leaves no vacancy pending, and no live deadline that it would belong to. */
  lemma UnscheduledFollows(t: Tables, row: Row)
    requires DomainOk(t) && TiedAt(t, row.command.slot) && row.command.payload.Payload?
    requires CameraExits(t, row).Done? && !CameraExits(t, row).out.code.ExitScheduled?
    requires FindActive(CameraExits(t, row).t, row.command.slot) == FindActive(t, row.command.slot)
    requires !TopologyDiffers(t, row.command)
    ensures Follows(t, CameraExits(t, row).t, row.command.slot, false)
  {
    hide FindActive, CameraExits, TiedAt, Follows, AllAreasKnown, AnyAreaActive, GenerationAfterExit, AreasAfterExit,
         TopologyDiffers, EndedStayPut, DeadlinesGrow, SessionsOk, SlotsAgree, BindingsOk, DeadlinesRefer,
         OneLiveDeadline, GenerationsOk;
    var c, t' := row.command, CameraExits(t, row).t;
    UnscheduledShape(t, row);
    TablesStay(t);
    if FindActive(t, c.slot).Some? {
      ExitAreas(t, row);
      LeavesActive(t, row);
      OccupiedFollows(t, t', c.slot);
    } else {
      EndedFollows(t, t', c.slot);
    }
  }

  lemma TablesStay(t: Tables)
    ensures EndedStayPut(t.sessions, t.sessions) && DeadlinesGrow(t.deadlines, t.deadlines)
  {
  }

  /** While some area is unknown or active no deadline of the slot is of the generation that the EXIT leaves. */
  lemma LeavesActive(t: Tables, row: Row)
    requires GenerationsOk(t.deadlines, t.iva) && row.command.payload.Payload? && !TopologyDiffers(t, row.command)
    requires || !AllAreasKnown(row.command.payload.configured, AreasAfterExit(t, row))
             || AnyAreaActive(row.command.payload.configured, AreasAfterExit(t, row))
    ensures forall d :: d in t.deadlines && t.deadlines[d].slot == row.command.slot ==>
              t.deadlines[d].generation != GenerationAfterExit(t, row)
  {
    var c := row.command;
    if c.slot in t.iva && AllExited(t.iva[c.slot]) { LeftStaysLeft(t.iva[c.slot], c.payload.areaKey); }
    hide AllAreasKnown, AnyAreaActive;
  }

  lemma ExitFollows(t: Tables, row: Row)
    requires DomainOk(t) && TiedAt(t, row.command.slot) && row.command.payload.Payload? && CameraExits(t, row).Done?
    requires FindActive(CameraExits(t, row).t, row.command.slot) == FindActive(t, row.command.slot)
    requires !TopologyDiffers(t, row.command)
    ensures Follows(t, CameraExits(t, row).t, row.command.slot, SchedulesRow(t, row))
  {
    hide FindActive, CameraExits, DomainOk, TiedAt, Follows, HasLiveDeadline, TopologyDiffers;
    if !CameraExits(t, row).out.code.ExitScheduled? {
      UnscheduledFollows(t, row);
    } else if HasLiveDeadline(t.deadlines, row.command.slot) {
      SuppressedFollows(t, row);
    } else {
      ScheduledFollows(t, row);
    }
  }

  // ----- one call -----

  /** An EXIT that finds no live deadline and leaves the vacancy pending. */
  ghost predicate SchedulesOwn(t: Tables, row: Row) {
    && IsAuthoritativeExit(row.command) && Reduce(t, row).Done? && Reduce(t, row).out.code.ExitScheduled?
    && !HasLiveDeadline(t.deadlines, row.command.slot)
  }

  /** What the camera branch comes to, and that only an EXIT can schedule. */
  lemma CameraCases(t: Tables, row: Row)
    requires row.command.payload.Payload? && ReduceCamera(t, row).Done?
    ensures var r, c := ReduceCamera(t, row), row.command;
            || (r.t == t && !r.out.code.ExitScheduled?)
            || (!c.payload.occupancyAuthority && r == CameraCorrelates(t, row))
            || (r == CameraIntrudes(t, row) && !c.payload.action.Exit?)
            || (r == CameraExits(t, row) && c.payload.occupancyAuthority && c.payload.authoritativeExit &&
                c.payload.action.Exit? && !TopologyDiffers(t, c))
  {
    hide LatestOpen, CameraExits, CameraIntrudes, CameraCorrelates;
  }

  lemma CorrelatesShape(t: Tables, row: Row)
    requires row.command.payload.Payload? && CameraCorrelates(t, row).Done?
    ensures var r := CameraCorrelates(t, row);
            r.t == t.(bindings := r.t.bindings) && !r.out.code.ExitScheduled?
  {
    hide LatestOpen, CommitCorrelation;
    var c := row.command;
    var active := FindActive(t, c.slot);
    if active.Some? { CorrelationStays(t, c, t.sessions[active.value].attempt, active.value); }
  }

  lemma BindingsPlayNoPart(t: Tables, t': Tables, slot: string)
    requires t' == t.(bindings := t'.bindings) && TiedAt(t, slot)
    ensures Follows(t, t', slot, false)
  {
    hide LatestOpen, TiedAt, Follows;
    NothingStands(t.deadlines, t.bindings, slot);
    UntouchedFollows(t, t', slot);
  }

  lemma IntrusionStarts(t: Tables, row: Row)
    requires row.command.payload.Payload? && CameraIntrudes(t, row).Done?
    ensures var code := CameraIntrudes(t, row).out.code;
            if FindActive(t, row.command.slot).Some? then code.NoChange? else code.SessionStarted?
  {
    hide FindActive, CommitCorrelation, CreateSession, IvaBefore, IntrusionGeneration, Supersede, UpdateIva;
  }

  lemma ExitCodes(t: Tables, row: Row)
    requires row.command.payload.Payload? && CameraExits(t, row).Done?
    ensures var code := CameraExits(t, row).out.code; code.NoChange? || code.ExitScheduled?
  {
    hide FindActive, AllAreasKnown, AnyAreaActive, ScheduleExit, IvaBefore;
  }

  lemma CameraFollows(t: Tables, row: Row)
    requires DomainOk(t) && TiedAt(t, row.command.slot) && row.command.payload.Payload? && ReduceCamera(t, row).Done?
    requires row.command.kind.CameraObservation?
    ensures Follows(t, ReduceCamera(t, row).t, row.command.slot, SchedulesOwn(t, row))
  {
    hide ReduceCamera, CameraIntrudes, CameraExits, CameraCorrelates, FindActive, Follows, DomainOk, TiedAt,
         TopologyDiffers, HasLiveDeadline, EndedStayPut, DeadlinesGrow, GenerationsGrow;
    var r, slot := ReduceCamera(t, row), row.command.slot;
    ReduceCameraKeeps(t, row);
    KeptSays(t, r, slot);
    CameraCases(t, row);
    if r.t == t && !r.out.code.ExitScheduled? {
      BindingsPlayNoPart(t, t, slot);
    } else if r == CameraIntrudes(t, row) && !row.command.payload.action.Exit? {
      IntrusionStarts(t, row);
      IntrusionFollows(t, row);
    } else if r == CameraExits(t, row) && IsAuthoritativeExit(row.command) && !TopologyDiffers(t, row.command) {
      ExitCodes(t, row);
      ExitFollows(t, row);
    } else {
      CorrelatesShape(t, row);
      BindingsPlayNoPart(t, r.t, slot);
    }
  }

  lemma ReduceFollows(t: Tables, row: Row)
    requires DomainOk(t) && TiedAt(t, row.command.slot) && row.command.payload.Payload? && Reduce(t, row).Done?
    ensures Follows(t, Reduce(t, row).t, row.command.slot, SchedulesOwn(t, row))
  {
    hide ReduceHall, ReduceCamera, ReduceDeadline, Follows, DomainOk, TiedAt, HasLiveDeadline;
    match row.command.kind
    case HallObservation => HallFollows(t, row);
    case CameraObservation => CameraFollows(t, row);
    case ExitDeadline => DeadlineFollows(t, row);
  }

  /** The call applies an EXIT of the slot that puts a deadline of its own behind the vacancy. */
  ghost predicate Schedules(t: Tables, e: Event, slot: string) {
    && e.ApplyCall? && e.id != "" && Reduces(t, e.id) && t.inbox[e.id].command.slot == slot
    && SchedulesOwn(t, t.inbox[e.id])
  }

  lemma FollowsFor(t: Tables, t1: Tables, t2: Tables, slot: string, scheduled: bool)
    requires Follows(t, t1, slot, scheduled) && t2.(inbox := t1.inbox) == t1
    ensures Follows(t, t2, slot, scheduled)
  {
    hide LatestOpen;
    SameSessionsSameActive(t1, t2);
  }

  lemma StandsFollows(t: Tables, t': Tables, slot: string)
    requires TiedAt(t, slot) && SlotStands(t, t', slot) && EndedStayPut(t.sessions, t'.sessions)
    ensures Follows(t, t', slot, false)
  {
    hide LatestOpen, TiedAt, Follows, DeadlinesStand, BindingsStand;
    UntouchedFollows(t, t', slot);
  }

  lemma StepFollows(t: Tables, e: Event, slot: string)
    requires Sound(t) && Listed(t, e) && TiedAt(t, slot)
    ensures Follows(t, Step(t, e), slot, Schedules(t, e, slot))
  {
    hide Sound, Apply, Reduce, Follows, TiedAt, SchedulesOwn, SlotStands, Listed, FindActive, DeadlinesGrow,
         GenerationsGrow, EndedStayPut, Admit, AdmitDue, Attach;
    StepKeeps(t, e);
    DomainOf(t);
    if !e.ApplyCall? {
      OtherCallStands(t, e, slot);
      StandsFollows(t, Step(t, e), slot);
    } else if Reduces(t, e.id) && t.inbox[e.id].command.slot == slot {
      OwnApplyFollows(t, e.id);
    } else {
      ApplyStands(t, e.id, slot);
      StandsFollows(t, Step(t, e), slot);
    }
  }

  lemma OwnApplyFollows(t: Tables, id: string)
    requires DomainOk(t) && Reduces(t, id) && TiedAt(t, t.inbox[id].command.slot)
    ensures Follows(t, Apply(t, id).t, t.inbox[id].command.slot, Schedules(t, ApplyCall(id), t.inbox[id].command.slot))
  {
    hide Apply, Reduce, Follows, TiedAt, DomainOk, HasLiveDeadline;
    var row := t.inbox[id];
    ApplyIsReduction(t, id);
    if id != "" && Reduce(t, row).Done? {
      ReduceFollows(t, row);
      FollowsFor(t, Reduce(t, row).t, Apply(t, id).t, row.command.slot, SchedulesOwn(t, row));
    } else {
      BindingsPlayNoPart(t, t, row.command.slot);
      FollowsFor(t, t, Apply(t, id).t, row.command.slot, false);
    }
  }

  /** In every reachable state camera rows, live deadlines and open sessions are tied. */
  lemma {:induction false} ReachableIsTied(run: Run, slot: string)
    requires Valid(run)
    ensures TiedAt(Final(run), slot)
  {
    hide Sound, Step, Listed, TiedAt, Schedules;
    match run
    case Start(t) => InitialIsTied(t, slot);
    case Then(prior, e) =>
      ReachableIsTied(prior, slot);
      ReachableIsSound(prior);
      StepFollows(Final(prior), e, slot);
  }

  lemma InitialIsTied(t: Tables, slot: string)
    requires Initial(t)
    ensures TiedAt(t, slot) && !Pending(t, slot)
  {
  }

  /**
   In every reachable state and for every listed call: a vacancy that is pending after the call is backed exactly when
   the call applied an EXIT that found no live deadline, or the vacancy was backed before and stands for the same
   generation and session.
   */
  lemma BackedExactlyWhen(run: Run, e: Event, slot: string)
    requires Valid(Then(run, e)) && Pending(Step(Final(run), e), slot)
    ensures var t, t' := Final(run), Step(Final(run), e);
            Backed(t', slot) <==> Schedules(t, e, slot) || (SamePending(t, t', slot) && Backed(t, slot))
  {
    hide Sound, Step, Listed, TiedAt, Schedules, Backed, SamePending, Final;
    ReachableIsTied(run, slot);
    ReachableIsSound(run);
    StepFollows(Final(run), e, slot);
  }

  /** Looking back from the end: the vacancy has stood unchanged since an EXIT that found no live deadline. */
  ghost predicate StandsSinceScheduled(run: Run, slot: string) {
    match run
    case Start(_) => false
    case Then(prior, e) =>
      || Schedules(Final(prior), e, slot)
      || (SamePending(Final(prior), Final(run), slot) && StandsSinceScheduled(prior, slot))
  }

  /** In every reachable state a pending vacancy is backed exactly when it stands since such an EXIT. */
  lemma {:induction false} BackedSinceExactlyWhen(run: Run, slot: string)
    requires Valid(run) && Pending(Final(run), slot)
    ensures Backed(Final(run), slot) <==> StandsSinceScheduled(run, slot)
  {
    hide Step, Listed, Schedules, Backed, Pending;
    match run
    case Start(t) => InitialIsTied(t, slot);
    case Then(prior, e) =>
      BackedExactlyWhen(prior, e, slot);
      if Pending(Final(prior), slot) { BackedSinceExactlyWhen(prior, slot); }
  }
}
