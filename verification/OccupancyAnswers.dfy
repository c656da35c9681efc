/**
 What the inbox keeps of an application: the row carries the answer, and the answer names the session's own attempt.
 */
module OccupancyAnswers {
  import opened Option
  import opened OccupancyTables
  import opened OccupancyInvariant
  import opened OccupancyRun
  import opened OccupancyFacts
  import opened OccupancySlots
  import opened OccupancyThrows
  import opened OccupancySources
  import opened OccupancyVacancy
  import opened ParkingCorrelation
  import S = SensorSequence

  /** The row of a command that was applied with that answer. */
  function AnsweredRow(r: Row, out: Outcome): Row {
    Row(r.command, r.ordinal, if out.code == RejectedInvalidTimestamp then RejectedInvalid else Applied,
        out.attempt, out.correlation, out.generation, r.nextAttemptAt, Some(out.code), out.session,
        if out.code == SessionStarted || out.code == SessionEnded then EffectPending else NoEffect, 0, r.createdAt)
  }

  /**
   An application either throws, and then nothing changes; or its row is settled with the very answer that the caller
   gets, or as rejected when the command makes no sense to its source.
   */
  lemma AnswerIsStored(t: Tables, id: string)
    requires Sound(t) && id != "" && Reduces(t, id)
    ensures var row, a := t.inbox[id], Apply(t, id);
            match Reduce(t, row)
            case Throw => a.t == t && a.out.code == RetryableFailure
            case Invalid =>
              a.t.inbox == t.inbox[id := row.(status := RejectedInvalid, result := Some(RejectedInvalidTimestamp))] &&
              a.out.code == RejectedInvalidTimestamp
            case Done(_, out) => a.t.inbox == t.inbox[id := AnsweredRow(row, out)] && a.out == out
  {
    hide DomainOk, InboxOk, ImagesOk, Reduce;
    RowIsOk(t.inbox, id);
    if Reduce(t, t.inbox[id]).Done? { ReductionSettles(t, t.inbox[id]); }
  }

  /** An answer that names a session carries that session's attempt. */
  predicate AnswersForSession(t: Tables, out: Outcome) {
    out.session.Some? ==> out.session.value in t.sessions && t.sessions[out.session.value].attempt == out.attempt
  }

  lemma SequenceAnswers(t: Tables, c: Command, out: Outcome)
    requires c.payload.Payload? && c.payload.protocol.Some? && AnswersForSession(t, out)
    ensures AnswersForSession(CommitSequence(t, c), out)
  {
  }

  lemma EntryAnswers(t: Tables, row: Row)
    requires row.command.payload.Payload? && row.command.payload.protocol.Some? && HallEnters(t, row).Done?
    ensures AnswersForSession(HallEnters(t, row).t, HallEnters(t, row).out)
  {
    hide FindActive, AttemptOf, HallEnters;
    EntrySessions(t, row);
    EntryNames(t, row);
  }

  lemma EntryNames(t: Tables, row: Row)
    requires row.command.payload.Payload? && row.command.payload.protocol.Some? && HallEnters(t, row).Done?
    ensures var out, active := HallEnters(t, row).out, FindActive(t, row.command.slot);
            if active.Some? then out.session == active && out.attempt == t.sessions[active.value].attempt
            else out.session == Some(t.nextSession) && out.attempt == AttemptOf(row.command.id)
  {
    hide FindActive, AttemptOf, CreateSession, CommitSequence, UpdateHall;
  }

  lemma LeavingAnswers(t: Tables, row: Row)
    requires row.command.payload.Payload? && row.command.payload.protocol.Some? && HallLeaves(t, row).Done?
    ensures AnswersForSession(HallLeaves(t, row).t, HallLeaves(t, row).out)
  {
    hide FindActive, CommitSequence, EndBindings, ClearIva, ExitCommandTaken;
    var c := row.command;
    var active := FindActive(t, c.slot);
    SequenceStays(t, c);
    if active.None? {
      SequenceStays(if c.slot in t.slots then t.(slots := t.slots[c.slot := SlotVacant]) else t, c);
    } else {
      var t1 := UpdateHall(t, active.value, t.sessions[active.value].hallConfirmed, false);
      SequenceStays(t1, c);
      if CloseSession(t1, c, active.value).Some? { SequenceStays(CloseSession(t1, c, active.value).value, c); }
    }
  }

  lemma DeadlineAnswers(t: Tables, row: Row)
    requires row.command.payload.Payload? && ReduceDeadline(t, row).Done?
    ensures AnswersForSession(ReduceDeadline(t, row).t, ReduceDeadline(t, row).out)
    ensures DeadlineMatches(t, row.command) && DeadlineOwns(t, row.command) ==>
              row.command.slot in ReduceDeadline(t, row).t.iva &&
              ReduceDeadline(t, row).t.iva[row.command.slot].generation == ReduceDeadline(t, row).out.generation
  {
    hide LatestOpen, EndBindings, ClearIva, ExitCommandTaken;
  }

  /** The generation that an INTRUSION or EXIT answers with is the one that it leaves in the camera row. */
  predicate AnswersForCamera(t: Tables, slot: string, out: Outcome) {
    slot in t.iva && t.iva[slot].generation == out.generation
  }

  lemma ExitAnswers(t: Tables, row: Row)
    requires row.command.payload.Payload? && CameraExits(t, row).Done?
    ensures AnswersForSession(CameraExits(t, row).t, CameraExits(t, row).out)
    ensures AnswersForCamera(CameraExits(t, row).t, row.command.slot, CameraExits(t, row).out)
  {
    hide FindActive, IvaBefore, AllAreasKnown, AnyAreaActive, AreaActive, ScheduleExit;
    ExitLeavesSessions(t, row);
  }

  lemma BindingAnswers(t: Tables, row: Row, out: Outcome, session: nat)
    requires row.command.payload.Payload?
    ensures var r := IntrusionBinds(t, row, out, session);
            r.Done? ==> r.t == t.(bindings := r.t.bindings) && r.out == out.(correlation := r.out.correlation)
  {
    hide CommitCorrelation, OtherBindingsStay;
    CorrelationStays(t, row.command, out.attempt, session);
  }

  lemma IntrusionNames(t: Tables, row: Row)
    requires row.command.payload.Payload? && CameraIntrudes(t, row).Done?
    ensures var r, active := CameraIntrudes(t, row), FindActive(t, row.command.slot);
            && (if active.Some? then r.out.session == active && r.out.attempt == t.sessions[active.value].attempt
                else r.out.session == Some(t.nextSession) && r.out.attempt == AttemptOf(row.command.id))
            && AnswersForCamera(r.t, row.command.slot, r.out)
  {
    hide FindActive, EntryCommandTaken, IvaBefore, IntrusionGeneration, Supersede, IntrusionBinds, AttemptOf;
    forall t2: Tables, out, session: nat { BindingAnswers(t2, row, out, session); }
  }

  lemma IntrusionAnswers(t: Tables, row: Row)
    requires row.command.payload.Payload? && CameraIntrudes(t, row).Done?
    ensures AnswersForSession(CameraIntrudes(t, row).t, CameraIntrudes(t, row).out)
    ensures AnswersForCamera(CameraIntrudes(t, row).t, row.command.slot, CameraIntrudes(t, row).out)
  {
    hide FindActive, CameraIntrudes, AttemptOf;
    IntrusionNames(t, row);
    IntrusionSessions(t, row);
  }

  lemma CorrelatingAnswers(t: Tables, row: Row)
    requires row.command.payload.Payload? && CameraCorrelates(t, row).Done?
    ensures AnswersForSession(CameraCorrelates(t, row).t, CameraCorrelates(t, row).out)
  {
    hide FindActive, CommitCorrelation, OtherBindingsStay;
    var c := row.command;
    var active := FindActive(t, c.slot);
    if active.Some? { CorrelationStays(t, c, t.sessions[active.value].attempt, active.value); }
  }

  lemma CameraAnswers(t: Tables, row: Row)
    requires row.command.payload.Payload? && ReduceCamera(t, row).Done?
    ensures AnswersForSession(ReduceCamera(t, row).t, ReduceCamera(t, row).out)
  {
    hide FindActive, CameraExits, CameraIntrudes, CameraCorrelates, IvaBefore;
    if CameraExits(t, row).Done? { ExitAnswers(t, row); }
    if CameraIntrudes(t, row).Done? { IntrusionAnswers(t, row); }
    if CameraCorrelates(t, row).Done? { CorrelatingAnswers(t, row); }
  }

  lemma HallAnswers(t: Tables, row: Row)
    requires row.command.payload.Payload? && ReduceHall(t, row).Done?
    ensures AnswersForSession(ReduceHall(t, row).t, ReduceHall(t, row).out)
  {
    hide HallEnters, HallLeaves, S.Accepts;
    if row.command.payload.protocol.Some? {
      if HallEnters(t, row).Done? { EntryAnswers(t, row); }
      if HallLeaves(t, row).Done? { LeavingAnswers(t, row); }
    }
  }

  /** Whatever is applied, an answer that names a session carries the attempt of that session. */
  lemma AnswerNamesSession(t: Tables, id: string)
    requires id != "" && Reduces(t, id) && Reduce(t, t.inbox[id]).Done?
    ensures AnswersForSession(Apply(t, id).t, Apply(t, id).out)
  {
    hide ReduceHall, ReduceCamera, ReduceDeadline, AnswersForSession;
    var row := t.inbox[id];
    match row.command.kind {
      case HallObservation => HallAnswers(t, row);
      case CameraObservation => CameraAnswers(t, row);
      case ExitDeadline => DeadlineAnswers(t, row);
    }
    ApplyIsReduction(t, id);
    SameAnswers(Reduce(t, row).t, Apply(t, id).t, Reduce(t, row).out);
  }

  lemma SameAnswers(t: Tables, t': Tables, out: Outcome)
    requires t'.sessions == t.sessions && AnswersForSession(t, out)
    ensures AnswersForSession(t', out)
  {
  }

  /** And that of an INTRUSION or EXIT that is applied is of the generation that it leaves. */
  lemma AnswerNamesGeneration(t: Tables, id: string)
    requires id != "" && Reduces(t, id) && Reduce(t, t.inbox[id]).Done? && !TooOld(t, t.inbox[id].command)
    requires IsAuthority(t.inbox[id].command)
    requires t.inbox[id].command.payload.action.Intrusion? ||
             (t.inbox[id].command.payload.action.Exit? && t.inbox[id].command.payload.authoritativeExit)
    ensures AnswersForCamera(Apply(t, id).t, t.inbox[id].command.slot, Apply(t, id).out)
  {
    hide FindActive, CameraExits, CameraIntrudes, CameraCorrelates;
    var row := t.inbox[id];
    ApplyIsReduction(t, id);
    if CameraExits(t, row).Done? { ExitAnswers(t, row); }
    if CameraIntrudes(t, row).Done? { IntrusionAnswers(t, row); }
  }

  // ----- commands that change nothing but their own row -----

  /** A Hall frame without a known state or protocol, or a camera event that says nothing the slot could use. */
  predicate MakesNoSense(c: Command)
    requires c.payload.Payload?
  {
    match c.kind
    case HallObservation => c.payload.hallState == HallOther || c.payload.protocol.None?
    case CameraObservation =>
      || c.payload.configured == [] || c.payload.areaKey == ""
      || (!c.payload.occupancyAuthority && (c.payload.action != Intrusion || c.payload.objectId == ""))
      || (c.payload.occupancyAuthority && c.payload.action == OtherAction)
    case ExitDeadline => false
  }

  /** A command is settled as rejected for its form exactly when it makes no sense and its areas are those stored. */
  lemma InvalidExactlyWhen(t: Tables, row: Row)
    requires row.command.payload.Payload?
    ensures Reduce(t, row).Invalid? <==>
              && MakesNoSense(row.command)
              && !(IsAuthority(row.command) && TopologyDiffers(t, row.command))
  {
    hide FindActive, HallEnters, HallLeaves, CameraExits, CameraIntrudes, CameraCorrelates, S.Accepts, DeadlineVacates;
    if row.command.payload.protocol.Some? { EntersReadably(t, row); }
    DeadlineIsReadable(t, row);
    CameraIsReadable(t, row);
    if IsAuthority(row.command) && row.command.payload.action == Intrusion { IntrusionIsReduced(t, row); }
  }

  lemma CameraIsReadable(t: Tables, row: Row)
    requires row.command.payload.Payload?
    ensures !CameraExits(t, row).Invalid? && !CameraCorrelates(t, row).Invalid?
  {
    hide FindActive, IvaBefore, AllAreasKnown, AnyAreaActive, ScheduleExit, CommitCorrelation;
  }

  lemma EntersReadably(t: Tables, row: Row)
    requires row.command.payload.Payload? && row.command.payload.protocol.Some?
    ensures !HallEnters(t, row).Invalid? && !HallLeaves(t, row).Invalid?
  {
    hide FindActive, CreateSession, CloseSession, CommitSequence;
  }

  /** An authority that enters, or leaves without authority over exits, fits the stored areas and changes nothing. */
  lemma EntersAndWeakExitsAreIgnored(t: Tables, row: Row)
    requires IsAuthority(row.command) && !TopologyDiffers(t, row.command) && !TooOld(t, row.command)
    requires row.command.payload.action == Enter ||
             (row.command.payload.action == Exit && !row.command.payload.authoritativeExit)
    ensures Reduce(t, row).Done? && Reduce(t, row).t == t && Reduce(t, row).out.code == NoChange
  {
    hide FindActive, IvaBefore;
  }

  /** An EXIT of before the open session is settled as rejected for its time. */
  lemma OldExitIsRejected(t: Tables, row: Row)
    requires IsAuthority(row.command) && !TopologyDiffers(t, row.command) && TooOld(t, row.command)
    requires row.command.payload.action == Exit
    ensures Reduce(t, row).Done? && Reduce(t, row).t == t && Reduce(t, row).out.code == RejectedInvalidTimestamp
  {
    hide IvaBefore;
  }

  /** A camera that only correlates has nothing to bind to where no session is open. */
  lemma CorrelatingNothingChangesNothing(t: Tables, row: Row)
    requires row.command.kind.CameraObservation? && row.command.payload.Payload? && !MakesNoSense(row.command)
    requires !row.command.payload.occupancyAuthority && FindActive(t, row.command.slot).None?
    ensures Reduce(t, row).Done? && Reduce(t, row).t == t && Reduce(t, row).out.code == NoChange
    ensures Reduce(t, row).out.session.None?
  {
  }

  /** A Hall frame that the cursor refuses, or a deadline command whose deadline is not there any more. */
  lemma RefusedFactsChangeNothing(t: Tables, row: Row)
    requires row.command.payload.Payload? && !MakesNoSense(row.command)
    requires (row.command.kind.HallObservation? &&
              !S.Accepts(CursorOf(t.cursors, row.command.sensor), HallFact(row.command))) ||
             (row.command.kind.ExitDeadline? && !DeadlineMatches(t, row.command))
    ensures Reduce(t, row).Done? && Reduce(t, row).t == t && Reduce(t, row).out.session.None?
    ensures Reduce(t, row).out.code == if row.command.kind.HallObservation? then NoChange else StaleGeneration
  {
    hide S.Accepts;
  }
}
