/**
 What one applied command writes: the session that it starts, the one that it ends with everything that hangs on it, and
 the binding of the camera track that it reports.
 */
module OccupancySessions {
  import opened Option
  import opened OccupancyTables
  import opened OccupancyInvariant
  import opened OccupancyReducers
  import opened OccupancyRun
  import opened OccupancyEffects
  import opened OccupancyFacts
  import opened OccupancyCursors
  import opened OccupancySlots
  import opened OccupancyThrows
  import opened OccupancySources
  import opened OccupancyVacancy
  import opened ParkingCorrelation
  import S = SensorSequence

  /** The time of the observation; a command whose payload has none counts from when it is due. */
  function TimeOf(c: Command): int {
    if c.payload.Payload? && c.payload.occurredAt.Some? then c.payload.occurredAt.value else c.dueAt
  }

  /** The session that the command starts: its slot, id and time, confirmed and held by its own source alone. */
  function StartedSession(c: Command): Session {
    var hall := c.kind == HallObservation;
    Session(c.slot, "occupancy:" + c.id, Some(c.id), None, TimeOf(c), None, Active, hall, !hall, hall, !hall)
  }

  /** The same session once the command has ended it: nobody holds it, and it carries the command's id and time. */
  function EndedSession(s: Session, c: Command): Session {
    s.(exitCommand := Some(c.id), exitMs := Some(TimeOf(c)), status := Ended, hallOccupied := false,
       ivaOccupied := false)
  }

  /** The bindings once the session has ended: exactly its committed ones are ended. */
  ghost predicate BindingsEnd(bs: map<string, Binding>, bs': map<string, Binding>, session: nat) {
    && bs'.Keys == bs.Keys
    && forall k :: k in bs ==>
         bs'[k] == if bs[k].state == Committed && bs[k].session == session then bs[k].(state := BindingEnded) else bs[k]
  }

  ghost predicate StartsSession(t: Tables, t': Tables, c: Command) {
    && t'.nextSession == t.nextSession + 1 && t'.sessions == t.sessions[t.nextSession := StartedSession(c)]
    && t'.slots == t.slots[c.slot := SlotOccupied]
  }

  ghost predicate EndsSession(t: Tables, t': Tables, c: Command, session: nat)
    requires session in t.sessions
  {
    && t'.sessions == t.sessions[session := EndedSession(t.sessions[session], c)] && t'.nextSession == t.nextSession
    && t'.slots == t.slots[c.slot := SlotVacant] && BindingsEnd(t.bindings, t'.bindings, session)
  }

  lemma CloseEnds(t: Tables, t1: Tables, c: Command, i: nat)
    requires BindingsOk(t.bindings, t.sessions) && i in t.sessions && OpenAt(t.sessions[i], c.slot)
    requires i in t1.sessions && t1.sessions == t.sessions[i := t1.sessions[i]]
    requires t1.sessions[i] == t.sessions[i].(hallOccupied := t1.sessions[i].hallOccupied,
                                              ivaOccupied := t1.sessions[i].ivaOccupied)
    requires t1.bindings == t.bindings && t1.slots == t.slots && t1.nextSession == t.nextSession
    requires CloseSession(t1, c, i).Some?
    ensures EndsSession(t, CloseSession(t1, c, i).value, c, i)
  {
    hide ClearIva, ExitCommandTaken;
  }

  lemma EntryStarts(t: Tables, row: Row)
    requires row.command.kind.HallObservation? && row.command.payload.Payload? && row.command.payload.protocol.Some?
    requires HallEnters(t, row).Done? && HallEnters(t, row).out.code.SessionStarted?
    ensures StartsSession(t, HallEnters(t, row).t, row.command)
  {
    hide LatestOpen, CommitSequence, EntryCommandTaken;
    var c := row.command;
    if CreateSession(t, c).Some? { SequenceLeaves(CreateSession(t, c).value, c); }
  }

  lemma SequenceLeaves(t: Tables, c: Command)
    requires c.payload.Payload? && c.payload.protocol.Some?
    ensures CommitSequence(t, c) == t.(cursors := CommitSequence(t, c).cursors)
  {
  }

  lemma VacancyEnds(t: Tables, row: Row)
    requires BindingsOk(t.bindings, t.sessions) && row.command.payload.Payload? && row.command.payload.protocol.Some?
    requires HallLeaves(t, row).Done? && HallLeaves(t, row).out.code.SessionEnded?
    ensures FindActive(t, row.command.slot).Some?
    ensures EndsSession(t, HallLeaves(t, row).t, row.command, FindActive(t, row.command.slot).value)
  {
    hide LatestOpen, CommitSequence, CloseSession, BindingsOk, EndsSession;
    var c := row.command;
    var i := FindActive(t, c.slot).value;
    var t1 := UpdateHall(t, i, t.sessions[i].hallConfirmed, false);
    CloseEnds(t, t1, c, i);
    SequenceLeaves(CloseSession(t1, c, i).value, c);
    SameEnds(t, CloseSession(t1, c, i).value, HallLeaves(t, row).t, c, i);
  }

  lemma SameEnds(t: Tables, t1: Tables, t2: Tables, c: Command, i: nat)
    requires i in t.sessions && EndsSession(t, t1, c, i)
    requires t2.sessions == t1.sessions && t2.nextSession == t1.nextSession && t2.slots == t1.slots
    requires t2.bindings == t1.bindings
    ensures EndsSession(t, t2, c, i)
  {
  }

  lemma DeadlineEnds(t: Tables, row: Row)
    requires BindingsOk(t.bindings, t.sessions) && row.command.payload.Payload?
    requires ReduceDeadline(t, row).Done? && ReduceDeadline(t, row).out.code.SessionEnded?
    ensures FindActive(t, row.command.slot).Some?
    ensures EndsSession(t, ReduceDeadline(t, row).t, row.command, FindActive(t, row.command.slot).value)
  {
    hide LatestOpen, CloseSession, BindingsOk, EndsSession;
    var c, p := row.command, row.command.payload;
    var i := FindActive(t, c.slot).value;
    var t1 := MarkDeadline(UpdateIva(t, i, t.sessions[i].ivaConfirmed, false), p.deadlineId, DeadlineApplied);
    CloseEnds(t, t1, c, i);
    SameEnds(t, CloseSession(t1, c, i).value, ReduceDeadline(t, row).t, c, i);
  }

  lemma IntrusionStartsSession(t: Tables, row: Row)
    requires row.command.kind.CameraObservation? && row.command.payload.Payload?
    requires CameraIntrudes(t, row).Done? && CameraIntrudes(t, row).out.code.SessionStarted?
    ensures StartsSession(t, CameraIntrudes(t, row).t, row.command)
  {
    hide FindActive, EntryCommandTaken, CommitCorrelation, IvaBefore, IntrusionGeneration, Supersede, OtherBindingsStay,
         IntrusionBinds;
    forall t2: Tables, out, session: nat { BindingFrame(t2, row, out, session); }
  }

  lemma ReduceStartsOrEnds(t: Tables, row: Row)
    requires DomainOk(t) && row.command.payload.Payload? && Reduce(t, row).Done?
    ensures var r, slot := Reduce(t, row), row.command.slot;
            && (r.out.code.SessionStarted? ==> StartsSession(t, r.t, row.command))
            && (r.out.code.SessionEnded? ==>
                  FindActive(t, slot).Some? && EndsSession(t, r.t, row.command, FindActive(t, slot).value))
  {
    hide StartsSession, EndsSession, FindActive, HallEnters, HallLeaves, CameraIntrudes, CameraExits, CameraCorrelates,
         ReduceDeadline, S.Accepts, ReduceCamera, BindingsOk, SessionsOk, SlotsAgree, DeadlinesRefer, OneLiveDeadline,
         GenerationsOk;
    match row.command.kind
    case HallObservation =>
      if row.command.payload.protocol.Some? {
        if HallEnters(t, row).Done? && HallEnters(t, row).out.code.SessionStarted? { EntryStarts(t, row); }
        if HallLeaves(t, row).Done? && HallLeaves(t, row).out.code.SessionEnded? { VacancyEnds(t, row); }
        HallEntryEndsNothing(t, row);
        LeavingStartsNothing(t, row);
      }
    case CameraObservation =>
      CameraEndsNothing(t, row);
      OnlyIntrusionsStart(t, row);
      if ReduceCamera(t, row).out.code.SessionStarted? { IntrusionStartsSession(t, row); }
    case ExitDeadline =>
      if ReduceDeadline(t, row).out.code.SessionEnded? { DeadlineEnds(t, row); }
      DeadlineStartsNothing(t, row);
  }

  lemma LeavingStartsNothing(t: Tables, row: Row)
    requires row.command.payload.Payload? && row.command.payload.protocol.Some?
    ensures HallLeaves(t, row).Done? ==> !HallLeaves(t, row).out.code.SessionStarted?
  {
    hide FindActive, CloseSession;
  }

  lemma DeadlineStartsNothing(t: Tables, row: Row)
    requires row.command.payload.Payload?
    ensures ReduceDeadline(t, row).Done? ==> !ReduceDeadline(t, row).out.code.SessionStarted?
  {
    hide FindActive, CloseSession;
  }

  lemma OnlyIntrusionsStart(t: Tables, row: Row)
    requires row.command.payload.Payload? && ReduceCamera(t, row).Done?
    ensures ReduceCamera(t, row).out.code.SessionStarted? ==> ReduceCamera(t, row) == CameraIntrudes(t, row)
  {
    hide FindActive, CameraIntrudes, CameraExits, CommitCorrelation;
    if CameraExits(t, row).Done? { ExitCodes(t, row); }
  }

  /**
   What an application answers is what it wrote: a session started, or the open one ended with all that hangs on it.
   */
  lemma AnswerIsWritten(t: Tables, id: string)
    requires Sound(t) && Reduces(t, id) && id != ""
    ensures var c, a := t.inbox[id].command, Apply(t, id);
            && (a.out.code.SessionStarted? ==> StartsSession(t, a.t, c))
            && (a.out.code.SessionEnded? ==>
                  FindActive(t, c.slot).Some? && EndsSession(t, a.t, c, FindActive(t, c.slot).value))
  {
    hide DomainOk, InboxOk, ImagesOk, FindActive, Reduce, StartsSession, EndsSession;
    ApplyIsReduction(t, id);
    var row := t.inbox[id];
    if Reduce(t, row).Done? {
      ReduceStartsOrEnds(t, row);
      SameWritten(t, Reduce(t, row).t, Apply(t, id).t, row.command);
    }
    RowIsOk(t.inbox, id);
  }

  lemma SameWritten(t: Tables, t1: Tables, t2: Tables, c: Command)
    requires t2.(inbox := t1.inbox) == t1
    ensures StartsSession(t, t1, c) ==> StartsSession(t, t2, c)
    ensures forall i: nat :: i in t.sessions && EndsSession(t, t1, c, i) ==> EndsSession(t, t2, c, i)
  {
  }

  // ----- the slot rows -----

  /** A Hall VACANT that is heard where no session is open: whatever the slot row said, it is vacant now. */
  predicate ClearsSlot(t: Tables, e: Event, slot: string) {
    && HearsHall(t, e, slot) && t.inbox[e.id].command.payload.hallState == HallVacant
    && FindActive(t, slot).None? && slot in t.slots
  }

  /** What an application leaves in the slot rows. */
  ghost function SlotsAfter(t: Tables, id: string, code: Code): map<string, SlotStatus>
    requires Reduces(t, id)
  {
    var slot := t.inbox[id].command.slot;
    if code == SessionStarted then t.slots[slot := SlotOccupied]
    else if code == SessionEnded then t.slots[slot := SlotVacant]
    else if ClearsSlot(t, ApplyCall(id), slot) then t.slots[slot := SlotVacant]
    else t.slots
  }

  lemma HallSlots(t: Tables, row: Row)
    requires row.command.payload.Payload? && ReduceHall(t, row).Done? && !HasEffect(ReduceHall(t, row).out.code)
    ensures var c := row.command;
            ReduceHall(t, row).t.slots ==
            if c.payload.protocol.Some? && S.Accepts(CursorOf(t.cursors, c.sensor), HallFact(c)) &&
               c.payload.hallState == HallVacant && FindActive(t, c.slot).None? && c.slot in t.slots
            then t.slots[c.slot := SlotVacant] else t.slots
  {
    hide LatestOpen, CommitSequence, CreateSession, CloseSession, S.Accepts;
    var c := row.command;
    var active := FindActive(t, c.slot);
    SequenceLeaves(t, c);
    if active.None? {
      SequenceLeaves(if c.slot in t.slots then t.(slots := t.slots[c.slot := SlotVacant]) else t, c);
    } else {
      SequenceLeaves(UpdateHall(t, active.value, true, true), c);
      SequenceLeaves(UpdateHall(t, active.value, t.sessions[active.value].hallConfirmed, false), c);
    }
  }

  lemma CameraSlots(t: Tables, row: Row)
    requires row.command.kind.CameraObservation? && row.command.payload.Payload? && ReduceCamera(t, row).Done?
    requires !HasEffect(ReduceCamera(t, row).out.code)
    ensures ReduceCamera(t, row).t.slots == t.slots
  {
    hide FindActive, CameraIntrudes, CameraExits, CameraCorrelates;
    if CameraIntrudes(t, row).Done? && !HasEffect(CameraIntrudes(t, row).out.code) { IntrusionSlots(t, row); }
    if CameraExits(t, row).Done? { ExitSlots(t, row); }
    if CameraCorrelates(t, row).Done? { CorrelatesShape(t, row); }
  }

  lemma IntrusionSlots(t: Tables, row: Row)
    requires row.command.payload.Payload? && CameraIntrudes(t, row).Done?
    requires !HasEffect(CameraIntrudes(t, row).out.code)
    ensures CameraIntrudes(t, row).t.slots == t.slots
  {
    hide FindActive, CreateSession, CommitCorrelation, IvaBefore, IntrusionGeneration, Supersede, OtherBindingsStay,
         IntrusionBinds, AttemptOf;
    forall t2: Tables, out, session: nat { BindingFrame(t2, row, out, session); }
  }

  lemma ExitSlots(t: Tables, row: Row)
    requires row.command.payload.Payload? && CameraExits(t, row).Done?
    ensures CameraExits(t, row).t.slots == t.slots
  {
    hide CameraExits, FindActive, GenerationAfterExit, AreasAfterExit, HasLiveDeadline, DeadlineId;
    if CameraExits(t, row).out.code.ExitScheduled? { ScheduledShape(t, row); } else { UnscheduledShape(t, row); }
  }

  lemma DeadlineSlots(t: Tables, row: Row)
    requires row.command.payload.Payload? && ReduceDeadline(t, row).Done? && !HasEffect(ReduceDeadline(t, row).out.code)
    ensures ReduceDeadline(t, row).t.slots == t.slots
  {
    hide FindActive, CloseSession;
  }

  /** A slot row changes exactly when a session starts or ends there, or a Hall VACANT clears it. */
  lemma SlotsFollowAnswers(t: Tables, id: string)
    requires Sound(t) && Reduces(t, id) && id != ""
    ensures Apply(t, id).t.slots == SlotsAfter(t, id, Apply(t, id).out.code)
  {
    hide DomainOk, InboxOk, ImagesOk, FindActive, Reduce, S.Accepts, Refuses, Breaks;
    ApplyIsReduction(t, id);
    AnswerIsWritten(t, id);
    RowIsOk(t.inbox, id);
    var row := t.inbox[id];
    if Reduce(t, row).Done? {
      if !HasEffect(Reduce(t, row).out.code) { QuietSlots(t, id); }
    } else {
      UnheardSlot(t, id);
    }
  }

  lemma QuietSlots(t: Tables, id: string)
    requires DomainOk(t) && Reduces(t, id) && id != "" && Reduce(t, t.inbox[id]).Done?
    requires !HasEffect(Reduce(t, t.inbox[id]).out.code)
    ensures Reduce(t, t.inbox[id]).t.slots == SlotsAfter(t, id, Reduce(t, t.inbox[id]).out.code)
  {
    hide DomainOk, FindActive, ReduceHall, ReduceCamera, ReduceDeadline, S.Accepts, Refuses, Breaks;
    var row := t.inbox[id];
    match row.command.kind
    case HallObservation =>
      HallSlots(t, row);
      if row.command.payload.protocol.Some? &&
        S.Accepts(CursorOf(t.cursors, row.command.sensor), HallFact(row.command)) {
        HallOutcomes(t, row);
        if row.command.payload.hallState == HallVacant && FindActive(t, row.command.slot).None? {
          NothingToRefuse(t, row.command);
        }
      }
    case CameraObservation => CameraSlots(t, row);
    case ExitDeadline => DeadlineSlots(t, row);
  }

  lemma NothingToRefuse(t: Tables, c: Command)
    requires c.payload.Payload? && c.payload.hallState == HallVacant && FindActive(t, c.slot).None?
    ensures !Refuses(t, c) && !Breaks(t, c)
  {
  }

  lemma UnheardSlot(t: Tables, id: string)
    requires DomainOk(t) && Reduces(t, id) && id != "" && !Reduce(t, t.inbox[id]).Done?
    ensures !ClearsSlot(t, ApplyCall(id), t.inbox[id].command.slot)
  {
    hide DomainOk, FindActive, ReduceHall, S.Accepts, Refuses, Breaks;
    var row := t.inbox[id];
    if row.command.kind.HallObservation? && row.command.payload.protocol.Some? &&
       S.Accepts(CursorOf(t.cursors, row.command.sensor), HallFact(row.command)) {
      HallOutcomes(t, row);
    }
  }
}
