/** Exit deadlines over whole runs: a deadline closes only the session it was scheduled for, and only if no
    intrusion came in between. */
module OccupancyDeadlines {
  import opened Option
  import opened OccupancyTables
  import opened OccupancyInvariant
  import opened OccupancyReducers
  import opened OccupancyEffects
  import opened OccupancyRun
  import opened ParkingCorrelation
  import S = SensorSequence

  // ----- what one reduction adds -----

  /** The deadline row that a camera EXIT schedules for the open session. */
  ghost predicate ScheduledBy(t: Tables, c: Command, d: Deadline) {
    && c.kind.CameraObservation? && c.payload.Payload?
    && FindActive(t, c.slot) == Some(d.session) && d.session in t.sessions
    && d == NewDeadline(c, t.sessions[d.session].attempt, d.session, d.generation)
    && t.sessions[d.session].entryMs <= OccurredAt(c)
  }

  /** At most one deadline is new, and the command scheduled it. */
  ghost predicate AddsOnlyScheduled(t: Tables, deadlines': map<string, Deadline>, c: Command) {
    && (forall d :: d in deadlines' ==> d in t.deadlines || ScheduledBy(t, c, deadlines'[d]))
    && (forall d, e | d in deadlines' && e in deadlines' :: d !in t.deadlines && e !in t.deadlines ==> d == e)
  }

  lemma CreateFrame(t: Tables, c: Command)
    ensures CreateSession(t, c).Some? ==>
              CreateSession(t, c).value.deadlines == t.deadlines && CreateSession(t, c).value.cursors == t.cursors
  {
  }

  lemma CloseFrame(t: Tables, c: Command, session: nat)
    requires session in t.sessions
    ensures CloseSession(t, c, session).Some? ==>
              CloseSession(t, c, session).value.deadlines == t.deadlines &&
                CloseSession(t, c, session).value.cursors == t.cursors
  {
    hide EndBindings, ClearIva;
  }

  lemma SequenceFrame(t: Tables, t1: Tables, c: Command)
    requires c.payload.Payload? && c.payload.protocol.Some? && t1.cursors == t.cursors
    ensures CommitSequence(t1, c) == t1.(cursors := CommitSequence(t, c).cursors)
  {
    hide S.Committed;
  }

  lemma HallEntersFrame(t: Tables, row: Row)
    requires row.command.payload.Payload? && row.command.payload.protocol.Some?
    ensures var r := HallEnters(t, row);
            r.Done? ==> r.t.deadlines == t.deadlines && r.t.cursors == CommitSequence(t, row.command).cursors
  {
    hide LatestOpen, CreateSession, CommitSequence;
    var c := row.command;
    var active := FindActive(t, c.slot);
    CreateFrame(t, c);
    if active.Some? {
      SequenceFrame(t, UpdateHall(t, active.value, true, true), c);
    } else if CreateSession(t, c).Some? {
      SequenceFrame(t, CreateSession(t, c).value, c);
    }
  }

  lemma HallLeavesFrame(t: Tables, row: Row)
    requires row.command.payload.Payload? && row.command.payload.protocol.Some?
    ensures var r := HallLeaves(t, row);
            r.Done? ==>
              r.t.deadlines == t.deadlines && (r.t == t || r.t.cursors == CommitSequence(t, row.command).cursors)
  {
    hide LatestOpen, CloseSession, CommitSequence;
    var c := row.command;
    var active := FindActive(t, c.slot);
    if active.None? {
      SequenceFrame(t, if c.slot in t.slots then t.(slots := t.slots[c.slot := SlotVacant]) else t, c);
    } else {
      var t1 := UpdateHall(t, active.value, t.sessions[active.value].hallConfirmed, false);
      SequenceFrame(t, t, c);
      SequenceFrame(t, t1, c);
      CloseFrame(t1, c, active.value);
      if CloseSession(t1, c, active.value).Some? { SequenceFrame(t, CloseSession(t1, c, active.value).value, c); }
    }
  }

  lemma HallAddsNone(t: Tables, row: Row)
    requires row.command.payload.Payload?
    ensures var r := ReduceHall(t, row); r.Done? ==> r.t.deadlines == t.deadlines
  {
    hide S.Evaluate, HallEnters, HallLeaves;
    if row.command.payload.protocol.Some? {
      HallEntersFrame(t, row);
      HallLeavesFrame(t, row);
    }
  }

  lemma DeadlineAddsNone(t: Tables, row: Row)
    requires row.command.payload.Payload?
    ensures var r := ReduceDeadline(t, row);
            r.Done? ==> r.t.deadlines.Keys == t.deadlines.Keys && r.t.cursors == t.cursors
  {
    hide LatestOpen, CloseSession;
    var c := row.command;
    var p := c.payload;
    if DeadlineMatches(t, c) && DeadlineOwns(t, c) {
      var session := p.expectedSession.value;
      CloseFrame(MarkDeadline(UpdateIva(t, session, t.sessions[session].ivaConfirmed, false), p.deadlineId,
                              DeadlineApplied),
                 c, session);
    }
  }

  lemma CorrelationAddsNone(t: Tables, c: Command, attempt: string, session: nat)
    requires c.payload.Payload?
    ensures var b := CommitCorrelation(t, c, attempt, session);
            b.Some? ==>
              b.value.t.deadlines == t.deadlines && b.value.t.iva == t.iva && b.value.t.cursors == t.cursors &&
                        b.value.t.sessions == t.sessions && b.value.t.slots == t.slots
  {
    hide FindTrack, CorrelationComplete, RefreshBinding, NewBinding;
    var k := FindTrack(t.bindings, attempt, c.payload);
    if k.Some? { RefreshAddsNone(t, c, k.value, session); }
  }

  lemma RefreshAddsNone(t: Tables, c: Command, k: string, session: nat)
    requires c.payload.Payload? && k in t.bindings
    ensures var b := RefreshBinding(t, c, k, session); b.Some? ==> b.value.t == t.(bindings := b.value.t.bindings)
  {
  }

  lemma IntrusionBindsAddsNone(t: Tables, row: Row, out: Outcome, session: nat)
    requires row.command.payload.Payload?
    ensures var r := IntrusionBinds(t, row, out, session); r.Done? ==> r.t.deadlines == t.deadlines && r.t.iva == t.iva
  {
    hide CommitCorrelation;
    CorrelationAddsNone(t, row.command, out.attempt, session);
  }

  lemma CameraIntrudesAddsNone(t: Tables, row: Row)
    requires row.command.payload.Payload?
    ensures var r := CameraIntrudes(t, row);
            r.Done? ==> r.t.deadlines.Keys == t.deadlines.Keys && row.command.slot in r.t.iva &&
                        r.t.iva[row.command.slot].generation ==
                          IntrusionGeneration(IvaBefore(t, row), row.command.payload.areaKey)
  {
    hide FindActive, IntrusionBinds, EntryCommandTaken, IvaBefore, IntrusionGeneration, AttemptOf;
    forall t1: Tables, out, session: nat { IntrusionBindsAddsNone(t1, row, out, session); }
  }

  lemma CameraExitsAdds(t: Tables, row: Row)
    requires row.command.payload.Payload? && row.command.kind.CameraObservation?
    requires FindActive(t, row.command.slot).Some? ==>
               t.sessions[FindActive(t, row.command.slot).value].entryMs <= OccurredAt(row.command)
    ensures var r := CameraExits(t, row); r.Done? ==> AddsOnlyScheduled(t, r.t.deadlines, row.command)
  {
    hide LatestOpen, IvaBefore, AllAreasKnown, AnyAreaActive, ScheduleExit, NewDeadline, DeadlineId, FindActive,
         AreaActive;
    var c := row.command;
    var generation := if AreaActive(IvaBefore(t, row).areas, c.payload.areaKey) then IvaBefore(t, row).generation + 1
                      else IvaBefore(t, row).generation;
    if FindActive(t, c.slot).Some? { ScheduleAdds(t, c, generation, FindActive(t, c.slot).value); }
  }

  lemma ScheduleAdds(t: Tables, c: Command, generation: nat, session: nat)
    requires c.payload.Payload? && c.kind.CameraObservation? && FindActive(t, c.slot) == Some(session)
    requires t.sessions[session].entryMs <= OccurredAt(c)
    ensures var r := ScheduleExit(t, c, generation, session); r.Some? ==> AddsOnlyScheduled(t, r.value.deadlines, c)
  {
    hide LatestOpen, HasLiveDeadline, DeadlineId, FindActive;
  }

  lemma CameraAdds(t: Tables, row: Row)
    requires row.command.payload.Payload? && row.command.kind.CameraObservation?
    ensures var r := ReduceCamera(t, row); r.Done? ==> AddsOnlyScheduled(t, r.t.deadlines, row.command)
  {
    hide LatestOpen, CameraExits, CameraIntrudes, CommitCorrelation, FindActive, ScheduledBy;
    var c := row.command;
    var active := FindActive(t, c.slot);
    CameraIntrudesAddsNone(t, row);
    if active.Some? { CorrelationAddsNone(t, c, t.sessions[active.value].attempt, active.value); }
    if active.Some? ==> t.sessions[active.value].entryMs <= OccurredAt(c) { CameraExitsAdds(t, row); }
  }

  lemma ReduceAdds(t: Tables, row: Row)
    requires row.command.payload.Payload?
    ensures var r := Reduce(t, row); r.Done? ==> AddsOnlyScheduled(t, r.t.deadlines, row.command)
  {
    hide ReduceHall, ReduceCamera, ReduceDeadline, ScheduledBy;
    match row.command.kind
    case HallObservation => HallAddsNone(t, row);
    case CameraObservation => CameraAdds(t, row);
    case ExitDeadline => DeadlineAddsNone(t, row);
  }

  // ----- intrusions -----

  /** The call applies an INTRUSION of the occupancy authority to the slot. */
  ghost predicate Intrudes(t: Tables, e: Event, slot: string) {
    && e.ApplyCall? && e.id != "" && Reduces(t, e.id)
    && var c := t.inbox[e.id].command;
       c.slot == slot && c.kind.CameraObservation? && c.payload.action.Intrusion? && c.payload.occupancyAuthority &&
       Reduce(t, t.inbox[e.id]).Done?
  }

  /** An intrusion opens a generation newer than that of every deadline of the slot. */
  lemma IntrusionOutdatesDeadlines(t: Tables, e: Event, slot: string)
    requires Sound(t) && Intrudes(t, e, slot)
    ensures var t' := Step(t, e);
            slot in t'.iva && forall d :: d in t.deadlines && t.deadlines[d].slot == slot ==>
              t.deadlines[d].generation < t'.iva[slot].generation
  {
    hide Moves, ReduceHall, ReduceDeadline, SessionsOk, SlotsAgree, BindingsOk, DeadlinesRefer, OneLiveDeadline,
         InboxOk, ImagesOk, AllExited, CameraIntrudes, CameraExits, CameraCorrelates, FindActive;
    CameraIntrudesAddsNone(t, t.inbox[e.id]);
  }

  // ----- over a run -----

  /** Looking back from the end: no intrusion into the slot since the deadline was scheduled, and when it was
      scheduled its session was the open one. */
  ghost predicate QuietSince(run: Run, slot: string, d: string) {
    match run
    case Start(_) => false
    case Then(prior, e) =>
      if d !in Final(prior).deadlines
      then d in Final(run).deadlines && FindActive(Final(prior), slot) == Some(Final(run).deadlines[d].session)
      else !Intrudes(Final(prior), e, slot) && QuietSince(prior, slot, d)
  }

  lemma {:induction false} BatchDeadlines(t: Tables, ids: set<string>, room: nat, ordinal: nat, clock: int)
    requires ids <= t.deadlines.Keys
    ensures AdmitBatch(t, ids, room, ordinal, clock).deadlines.Keys == t.deadlines.Keys
    ensures AdmitBatch(t, ids, room, ordinal, clock).iva == t.iva
    ensures AdmitBatch(t, ids, room, ordinal, clock).cursors == t.cursors
    ensures AdmitBatch(t, ids, room, ordinal, clock).sessions == t.sessions
    ensures AdmitBatch(t, ids, room, ordinal, clock).slots == t.slots
    decreases room
  {
    if room != 0 && ids != {} {
      var d := Earliest(t.deadlines, ids);
      BatchDeadlines(AdmitDeadline(t, d, ordinal, clock), ids - {d}, room - 1, ordinal + 1, clock);
    }
  }

  /** Deadlines, camera states and cursors are the business of applications. */
  lemma OtherCallsAddNone(t: Tables, e: Event)
    requires Sound(t) && !e.ApplyCall?
    ensures Step(t, e).deadlines.Keys == t.deadlines.Keys && Step(t, e).iva == t.iva && Step(t, e).cursors == t.cursors
    ensures Step(t, e).slots == t.slots
  {
    hide Sound, Admit, AdmitBatch, Attach, PurgedIds;
    match e
    case AdmitCall(c, capacity, clock) =>
      InboxOf(t);
      AdmitKeeps(t, c, capacity, clock);
    case AdmitDueCall(now, capacity, blocked, clock) =>
      if |PendingIds(t.inbox)| < capacity {
        BatchDeadlines(t, DueIds(t.deadlines, now, blocked), capacity - |PendingIds(t.inbox)|, NextOrdinal(t.inbox),
                       clock);
      }
    case AttachCall(l, evidence, now) =>
      ImagesOf(t);
      AttachKeepsImages(t, l, evidence, now);
    case _ =>
  }

  lemma ApplyAdds(t: Tables, id: string)
    requires Sound(t)
    ensures id in t.inbox ==> AddsOnlyScheduled(t, Apply(t, id).t.deadlines, t.inbox[id].command)
    ensures id !in t.inbox ==> Apply(t, id).t.deadlines == t.deadlines
  {
    hide Reduce, Sound, ScheduledBy, FinishedRow, RejectedRow;
    if Reduces(t, id) { ReduceAdds(t, t.inbox[id]); }
  }

  /** Current: the deadline's generation is still its slot's. */
  predicate Current(t: Tables, d: string) {
    d in t.deadlines && t.deadlines[d].slot in t.iva &&
      t.deadlines[d].generation == t.iva[t.deadlines[d].slot].generation
  }

  lemma CurrentBefore(t: Tables, t': Tables, d: string)
    requires DomainOk(t) && Progresses(t, t') && Current(t', d) && d in t.deadlines
    ensures Current(t, d) && t'.deadlines[d].slot == t.deadlines[d].slot
    ensures t'.deadlines[d].session == t.deadlines[d].session
    ensures t'.deadlines[d].generation == t.deadlines[d].generation
  {
    hide SessionsOk, SlotsAgree, BindingsOk, DeadlinesRefer, OneLiveDeadline, AllExited, EndedStayPut;
  }

  lemma {:induction false} CurrentDeadlineIsUndisturbed(run: Run, d: string)
    requires Valid(run) && Current(Final(run), d)
    ensures QuietSince(run, Final(run).deadlines[d].slot, d)
  {
    hide Sound, Step, Progresses, Listed, FindActive, DomainOk, Intrudes, ScheduledBy;
    match run
    case Start(t) =>
    case Then(prior, e) =>
      var t := Final(prior);
      ReachableIsSound(prior);
      StepKeeps(t, e);
      DomainOf(t);
      if d in t.deadlines {
        CurrentBefore(t, Final(run), d);
        CurrentDeadlineIsUndisturbed(prior, d);
        if Intrudes(t, e, t.deadlines[d].slot) {
          IntrusionOutdatesDeadlines(t, e, t.deadlines[d].slot);
          assert false;
        }
      } else {
        NewDeadlineIsForActive(t, e, d);
      }
  }

  lemma NewDeadlineIsForActive(t: Tables, e: Event, d: string)
    requires Sound(t) && d !in t.deadlines && d in Step(t, e).deadlines
    ensures FindActive(t, Step(t, e).deadlines[d].slot) == Some(Step(t, e).deadlines[d].session)
  {
    hide Sound, Apply, FindActive;
    if e.ApplyCall? { ApplyAdds(t, e.id); } else { OtherCallsAddNone(t, e); }
  }

  /** If an exit-deadline command ends a session, that is the session its deadline was scheduled for, which was
      then the open one, and no intrusion was applied to the slot since. */
  lemma NoStaleClose(run: Run, id: string)
    requires Valid(run) && id != "" && Reduces(Final(run), id) && Final(run).inbox[id].command.kind.ExitDeadline?
    requires Apply(Final(run), id).out.code.SessionEnded?
    ensures var t := Final(run);
            var c := t.inbox[id].command;
            var d := c.payload.deadlineId;
            && d in t.deadlines && t.deadlines[d].slot == c.slot
            && Apply(t, id).out.session == Some(t.deadlines[d].session)
            && FindActive(t, c.slot) == Some(t.deadlines[d].session)
            && QuietSince(run, c.slot, d)
  {
    var t := Final(run);
    ReachableIsSound(run);
    DomainOf(t);
    DeadlineEndsExactlyWhen(t, t.inbox[id]);
    ClosingDeadline(t, t.inbox[id]);
    hide Sound, DomainOk, Valid, QuietSince, ReduceDeadline, FindActive;
    CurrentDeadlineIsUndisturbed(run, t.inbox[id].command.payload.deadlineId);
  }

  lemma ClosingDeadline(t: Tables, row: Row)
    requires row.command.payload.Payload?
    requires ReduceDeadline(t, row).Done? && ReduceDeadline(t, row).out.code.SessionEnded?
    ensures var c := row.command;
            var d := c.payload.deadlineId;
            && DeadlineMatches(t, c) && DeadlineOwns(t, c) && Current(t, d)
            && ReduceDeadline(t, row).out.session == Some(t.deadlines[d].session)
            && FindActive(t, c.slot) == Some(t.deadlines[d].session)
  {
    hide LatestOpen, EndBindings, ClearIva, ExitCommandTaken;
  }

  // ----- due times -----

  /** An EXIT whose deadline is not due before the EXIT itself. */
  predicate DueInOrder(c: Command) {
    c.kind.CameraObservation? && c.payload.Payload? && c.payload.action.Exit? ==>
      OccurredAt(c) <= c.payload.deadlineDueAt.GetOr(c.dueAt)
  }

  /** The run's EXITs are due in order, and exit-deadline commands come from the store alone. */
  ghost predicate WellTimed(run: Run) {
    match run
    case Start(_) => true
    case Then(prior, e) =>
      WellTimed(prior) && (e.AdmitCall? ==> DueInOrder(e.command) && !e.command.kind.ExitDeadline?)
  }

  /** The command carries the due time of the deadline it names. */
  predicate CarriesDeadline(c: Command, deadlines: map<string, Deadline>) {
    c.payload.Payload? && c.payload.deadlineId in deadlines && OccurredAt(c) == deadlines[c.payload.deadlineId].dueAt
  }

  ghost predicate DeadlinesInTime(deadlines: map<string, Deadline>, sessions: map<nat, Session>) {
    forall d :: d in deadlines ==>
      deadlines[d].session in sessions && sessions[deadlines[d].session].entryMs <= deadlines[d].dueAt
  }

  ghost predicate CommandsTimed(inbox: map<string, Row>, deadlines: map<string, Deadline>) {
    forall id :: id in inbox ==>
      DueInOrder(inbox[id].command) &&
      (inbox[id].command.kind.ExitDeadline? ==> CarriesDeadline(inbox[id].command, deadlines))
  }

  /** Every command of the later inbox was there before, was admitted just now, or carries a due deadline. */
  ghost predicate CommandsFrom(t: Tables, t': Tables, e: Event) {
    forall id :: id in t'.inbox ==>
      || (id in t.inbox && t'.inbox[id].command == t.inbox[id].command)
      || (e.AdmitCall? && t'.inbox[id].command == e.command)
      || (t'.inbox[id].command.kind.ExitDeadline? && CarriesDeadline(t'.inbox[id].command, t.deadlines))
  }

  lemma {:induction false} BatchCommands(t: Tables, ids: set<string>, room: nat, ordinal: nat, clock: int, e: Event)
    requires ids <= t.deadlines.Keys
    ensures CommandsFrom(t, AdmitBatch(t, ids, room, ordinal, clock), e)
    decreases room
  {
    if room != 0 && ids != {} {
      var d := Earliest(t.deadlines, ids);
      var t1 := AdmitDeadline(t, d, ordinal, clock);
      BatchCommands(t1, ids - {d}, room - 1, ordinal + 1, clock, e);
      assert CarriesDeadline(DeadlineCommand(d, t.deadlines[d]), t.deadlines);
    }
  }

  lemma InsertCommands(t: Tables, prepared: Tables, c: Command, capacity: nat, clock: int, e: Event)
    requires e.AdmitCall? && e.command == c && CommandsFrom(t, prepared, e) && CommandsFrom(t, t, e)
    ensures CommandsFrom(t, InsertCommand(t, prepared, c, capacity, clock).t, e)
  {
    hide CarriesDeadline;
  }

  lemma UnmovedCommands(t: Tables, t': Tables, e: Event)
    requires forall id :: id in t'.inbox ==> id in t.inbox && t'.inbox[id].command == t.inbox[id].command
    ensures CommandsFrom(t, t', e)
  {
  }

  lemma AdmitCommands(t: Tables, e: Event)
    requires e.AdmitCall?
    ensures CommandsFrom(t, Admit(t, e.command, e.capacity, e.clock).t, e)
  {
    hide CommandsFrom, FindIdentity, SameSourceFact, FirstConfirmation, S.Evaluate, InsertCommand;
    var c := e.command;
    UnmovedCommands(t, t, e);
    InsertCommands(t, t, c, e.capacity, e.clock, e);
    FirstIsConfirmation(t.inbox, c.slot);
    var w := FirstConfirmation(t.inbox, c.slot);
    if w.Some? {
      var prepared := SetRow(t, w.value, CanceledRow(t.inbox[w.value]));
      UnmovedCommands(t, prepared, e);
      InsertCommands(t, prepared, c, e.capacity, e.clock, e);
    }
  }

  lemma StepCommands(t: Tables, e: Event)
    requires Sound(t)
    ensures CommandsFrom(t, Step(t, e), e)
  {
    hide Sound, Apply, Admit, AdmitBatch, Attach, CommandsFrom, PurgedIds, FinishedRow, RejectedRow;
    match e
    case AdmitCall(c, capacity, clock) => AdmitCommands(t, e);
    case AdmitDueCall(now, capacity, blocked, clock) =>
      UnmovedCommands(t, t, e);
      if |PendingIds(t.inbox)| < capacity {
        BatchCommands(t, DueIds(t.deadlines, now, blocked), capacity - |PendingIds(t.inbox)|, NextOrdinal(t.inbox),
                      clock, e);
      }
    case ApplyCall(id) => ApplyCommands(t, e);
    case _ => RestCommands(t, e);
  }

  lemma ApplyCommands(t: Tables, e: Event)
    requires Sound(t) && e.ApplyCall?
    ensures CommandsFrom(t, Apply(t, e.id).t, e)
  {
    hide Sound, Apply, CommandsFrom, FinishedRow, RejectedRow;
    ApplySettlesOwnRow(t, e.id);
    if e.id in t.inbox { SettledCommand(t.inbox[e.id], Apply(t, e.id).out); }
    UnmovedCommands(t, Apply(t, e.id).t, e);
  }

  lemma SetRowCommands(t: Tables, id: string, r: Row, e: Event)
    requires id in t.inbox && r.command == t.inbox[id].command
    ensures CommandsFrom(t, SetRow(t, id, r), e)
  {
  }

  lemma PurgeCommands(t: Tables, before: int, limit: nat, e: Event)
    ensures CommandsFrom(t, Purge(t, before, limit), e)
  {
    hide PurgedIds, CommandsFrom;
    UnmovedCommands(t, Purge(t, before, limit), e);
  }

  lemma RestCommands(t: Tables, e: Event)
    requires !e.AdmitCall? && !e.AdmitDueCall? && !e.ApplyCall?
    ensures CommandsFrom(t, Step(t, e), e)
  {
    hide Attach, CommandsFrom, Purge, SetRow;
    UnmovedCommands(t, t, e);
    match e
    case DeferCall(id, next) =>
      if id in t.inbox { SetRowCommands(t, id, t.inbox[id].(nextAttemptAt := next), e); }
    case CompleteCall(id) =>
      if id in t.inbox { SetRowCommands(t, id, t.inbox[id].(effect := EffectApplied, effectNextAttemptAt := 0), e); }
    case DeferEffectCall(id, next) =>
      if id in t.inbox { SetRowCommands(t, id, t.inbox[id].(effectNextAttemptAt := next), e); }
    case PurgeCall(before, limit) => PurgeCommands(t, before, limit, e);
    case ViolationCall(session) => UnmovedCommands(t, MarkViolation(t, session), e);
    case AttachCall(l, evidence, now) =>
      AttachInbox(t, l, evidence, now);
      UnmovedCommands(t, Attach(t, l, evidence, now).t, e);
  }

  lemma SettledCommand(row: Row, out: Outcome)
    ensures FinishedRow(row, out).command == row.command && RejectedRow(row).command == row.command
  {
  }

  lemma TimesProgress(t: Tables, t': Tables, e: Event)
    requires CommandsTimed(t.inbox, t.deadlines) && CommandsFrom(t, t', e)
    requires e.AdmitCall? ==> DueInOrder(e.command) && !e.command.kind.ExitDeadline?
    requires DeadlinesGrow(t.deadlines, t'.deadlines)
    ensures CommandsTimed(t'.inbox, t'.deadlines)
  {
    hide OccurredAt;
    forall id | id in t'.inbox
      ensures DueInOrder(t'.inbox[id].command)
      ensures t'.inbox[id].command.kind.ExitDeadline? ==> CarriesDeadline(t'.inbox[id].command, t'.deadlines)
    {
      var c := t'.inbox[id].command;
      if c.kind.ExitDeadline? {
        assert CarriesDeadline(c, t.deadlines);
        var d := c.payload.deadlineId;
        assert t'.deadlines[d] ==
               t.deadlines[d].(state := t'.deadlines[d].state, admittedBy := t'.deadlines[d].admittedBy);
      }
    }
  }

  lemma StepDeadlinesInTime(t: Tables, e: Event)
    requires Sound(t) && DeadlinesInTime(t.deadlines, t.sessions) && CommandsTimed(t.inbox, t.deadlines)
    requires Progresses(t, Step(t, e))
    ensures DeadlinesInTime(Step(t, e).deadlines, Step(t, e).sessions)
  {
    hide Sound, Apply, FindActive, ScheduledBy, DueInOrder, Step;
    var t' := Step(t, e);
    forall d | d in t'.deadlines
      ensures t'.deadlines[d].session in t'.sessions &&
              t'.sessions[t'.deadlines[d].session].entryMs <= t'.deadlines[d].dueAt
    {
      if d !in t.deadlines { NewDeadlineIsInTime(t, e, d); }
    }
  }

  lemma NewDeadlineIsInTime(t: Tables, e: Event, d: string)
    requires Sound(t) && d !in t.deadlines && d in Step(t, e).deadlines && CommandsTimed(t.inbox, t.deadlines)
    ensures var row := Step(t, e).deadlines[d];
            row.session in t.sessions && t.sessions[row.session].entryMs <= row.dueAt
  {
    hide Sound, Apply, FindActive, AddsOnlyScheduled;
    if e.ApplyCall? {
      ApplyAdds(t, e.id);
      if e.id in t.inbox { AddedExits(t, e.id, d); }
    } else {
      OtherCallsAddNone(t, e);
    }
  }

  lemma AddedExits(t: Tables, id: string, d: string)
    requires Sound(t) && id in t.inbox && d !in t.deadlines && d in Apply(t, id).t.deadlines
    requires DueInOrder(t.inbox[id].command)
    ensures var row := Apply(t, id).t.deadlines[d];
            row.session in t.sessions && t.sessions[row.session].entryMs <= row.dueAt
  {
    hide Sound, FindActive, ReduceHall, ReduceDeadline, CameraExits, CameraIntrudes, CommitCorrelation;
    ApplyAdds(t, id);
    var row := t.inbox[id];
    if Reduces(t, id) {
      HallAddsNone(t, row);
      DeadlineAddsNone(t, row);
      CameraIntrudesAddsNone(t, row);
      var active := FindActive(t, row.command.slot);
      ActiveExists(t, row.command.slot);
      if active.Some? { CorrelationAddsNone(t, row.command, t.sessions[active.value].attempt, active.value); }
    }
  }

  lemma ActiveExists(t: Tables, slot: string)
    ensures FindActive(t, slot).Some? ==> FindActive(t, slot).value in t.sessions
  {
  }

  lemma {:induction false} TimesHold(run: Run)
    requires Valid(run) && WellTimed(run)
    ensures DeadlinesInTime(Final(run).deadlines, Final(run).sessions)
    ensures CommandsTimed(Final(run).inbox, Final(run).deadlines)
  {
    hide Sound, Step, Progresses, Listed, CommandsFrom, DeadlinesInTime, CommandsTimed, DueInOrder, Initial;
    match run
    case Start(t) => InitialTimes(t);
    case Then(prior, e) =>
      var t := Final(prior);
      TimesHold(prior);
      ReachableIsSound(prior);
      StepKeeps(t, e);
      StepCommands(t, e);
      StepDeadlinesInTime(t, e);
      DeadlinesOnly(t, Final(run));
      TimesProgress(t, Final(run), e);
  }

  lemma DeadlinesOnly(t: Tables, t': Tables)
    requires Progresses(t, t')
    ensures DeadlinesGrow(t.deadlines, t'.deadlines)
  {
  }

  lemma InitialTimes(t: Tables)
    requires Initial(t)
    ensures DeadlinesInTime(t.deadlines, t.sessions) && CommandsTimed(t.inbox, t.deadlines)
  {
  }

  /** When every EXIT is due in order, a deadline that still owns its slot never fails the timestamp check. */
  lemma OwningDeadlineIsInTime(run: Run, id: string)
    requires Valid(run) && WellTimed(run) && Reduces(Final(run), id)
    requires var t, c := Final(run), Final(run).inbox[id].command;
             c.kind.ExitDeadline? && DeadlineMatches(t, c) && DeadlineOwns(t, c)
    ensures var t, c := Final(run), Final(run).inbox[id].command;
            && t.sessions[FindActive(t, c.slot).value].entryMs <= OccurredAt(c)
            && (Apply(t, id).out.code.RetryableFailure? ==> ExitCommandTaken(t.sessions, c.id))
  {
    TimesHold(run);
    ReachableIsSound(run);
    InTimeCloses(Final(run), id);
  }

  lemma InTimeCloses(t: Tables, id: string)
    requires Sound(t) && Reduces(t, id)
    requires DeadlinesInTime(t.deadlines, t.sessions) && CommandsTimed(t.inbox, t.deadlines)
    requires var c := t.inbox[id].command; c.kind.ExitDeadline? && DeadlineMatches(t, c) && DeadlineOwns(t, c)
    ensures var c := t.inbox[id].command;
            && t.sessions[FindActive(t, c.slot).value].entryMs <= OccurredAt(c)
            && (Apply(t, id).out.code.RetryableFailure? ==> ExitCommandTaken(t.sessions, c.id))
  {
    hide SessionsOk, BindingsOk, DeadlinesRefer, OneLiveDeadline, GenerationsOk, InboxOk, ImagesOk, LatestOpen,
         EndBindings, ClearIva, ReduceHall, ReduceCamera, SlotsAgree;
    var c := t.inbox[id].command;
    RowIsOk(t.inbox, id);
    ActiveSlotExists(t, c.slot);
    var i := FindActive(t, c.slot).value;
    UpdateKeepsExits(t, UpdateIva(t, i, t.sessions[i].ivaConfirmed, false), i, c.id);
  }
}
