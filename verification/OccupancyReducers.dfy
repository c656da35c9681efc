/** Every reduction keeps the invariant of the domain tables and moves them as `Moves` says. */
module OccupancyReducers {
  import opened Option
  import opened OccupancyTables
  import opened OccupancyInvariant

  ghost predicate Kept(t: Tables, r: Reduction, slot: string) {
    r.Done? ==> DomainOk(r.t) && Moves(t, r.t, slot, r.out)
  }

  // ----- steps that touch neither sessions nor deadlines -----

  lemma SameSessionsSameActive(t: Tables, t': Tables)
    requires t'.sessions == t.sessions && t'.nextSession == t.nextSession
    ensures forall slot :: FindActive(t', slot) == FindActive(t, slot)
  {
  }

  lemma NothingMoves(t: Tables, slot: string, out: Outcome)
    requires !HasEffect(out.code)
    ensures Moves(t, t, slot, out)
  {
  }

  /** Cursors and bindings play no part in `Moves`. */
  lemma MovesPast(t: Tables, t1: Tables, t2: Tables, slot: string, out: Outcome)
    requires Moves(t, t1, slot, out) && t2 == t1.(cursors := t2.cursors, bindings := t2.bindings)
    ensures Moves(t, t2, slot, out)
  {
    SameSessionsSameActive(t1, t2);
  }

  lemma SequenceKeeps(t: Tables, t1: Tables, c: Command, out: Outcome)
    requires DomainOk(t1) && Moves(t, t1, c.slot, out) && c.payload.Payload? && c.payload.protocol.Some?
    ensures Kept(t, Done(CommitSequence(t1, c), out), c.slot)
  {
    hide Moves, SessionsOk, SlotsAgree, BindingsOk, DeadlinesRefer, OneLiveDeadline, GenerationsOk;
    MovesPast(t, t1, CommitSequence(t1, c), c.slot, out);
  }

  /** A binding of an open session may be put in the table. */
  lemma SetBindingKeeps(bindings: map<string, Binding>, sessions: map<nat, Session>, k: string, b: Binding)
    requires BindingsOk(bindings, sessions)
    requires b.session in sessions && OpenAt(sessions[b.session], b.slot) && sessions[b.session].attempt == b.attempt
    ensures BindingsOk(bindings[k := b], sessions)
  {
  }

  lemma BindingKeeps(t: Tables, c: Command, attempt: string, session: nat)
    requires BindingsOk(t.bindings, t.sessions) && c.payload.Payload?
    requires session in t.sessions && OpenAt(t.sessions[session], c.slot) && t.sessions[session].attempt == attempt
    ensures var b := CommitCorrelation(t, c, attempt, session);
            b.Some? ==> BindingsOk(b.value.t.bindings, t.sessions) && b.value.t == t.(bindings := b.value.t.bindings)
  {
    hide BindingsOk, OpenAt, CorrelationComplete;
    var b := CommitCorrelation(t, c, attempt, session);
    var k := FindTrack(t.bindings, attempt, c.payload);
    SetBindingKeeps(t.bindings, t.sessions, c.payload.correlationId, NewBinding(c, attempt, session));
    if k.Some? && RefreshBinding(t, c, k.value, session).Some? {
      var bound := t.bindings[k.value];
      SetBindingKeeps(t.bindings, t.sessions, k.value,
                      bound.(expiresAt := BindingExpiry(c.payload), revision := bound.revision + 1));
    }
  }

  lemma PersistKeeps(t: Tables, slot: string, v: Iva)
    requires DomainOk(t) && IvaAdvances(t.iva, t.iva[slot := v])
    ensures DomainOk(PersistIva(t, slot, v))
  {
    AdvancingKeepsGenerations(t.deadlines, t.iva, t.iva[slot := v]);
  }

  /** A step that opens or closes nothing. */
  lemma HoldingMoves(t: Tables, t': Tables, slot: string, out: Outcome)
    requires t'.inbox == t.inbox && t'.images == t.images && t'.nextImage == t.nextImage
    requires t'.slots.Keys == t.slots.Keys && t'.nextSession == t.nextSession
    requires EndedStayPut(t.sessions, t'.sessions) && DeadlinesGrow(t.deadlines, t'.deadlines)
    requires GenerationsGrow(t.iva, t'.iva) && !HasEffect(out.code)
    requires forall s :: FindActive(t', s) == FindActive(t, s)
    ensures Moves(t, t', slot, out)
  {
  }

  // ----- Hall -----

  lemma HallEntersKeeps(t: Tables, row: Row)
    requires DomainOk(t) && row.command.payload.Payload? && row.command.payload.protocol.Some?
    requires row.command.kind.HallObservation?
    ensures Kept(t, HallEnters(t, row), row.command.slot)
  {
    hide SessionsOk, SlotsAgree, BindingsOk, DeadlinesRefer, OneLiveDeadline, GenerationsOk, CommitSequence, LatestOpen;
    var c := row.command;
    var active := FindActive(t, c.slot);
    if active.Some? {
      var t1 := UpdateHall(t, active.value, true, true);
      var out := Outcome(NoChange, active, t.sessions[active.value].attempt, row.correlation, row.generation);
      ActiveIsOk(t, c.slot);
      FlagsKeep(t, t1, active.value);
      HoldingMoves(t, t1, c.slot, out);
      SequenceKeeps(t, t1, c, out);
    } else if CreateSession(t, c).Some? {
      CreateKeeps(t, c);
      SequenceKeeps(t, CreateSession(t, c).value, c,
                    Outcome(SessionStarted, Some(t.nextSession), AttemptOf(c.id), row.correlation, row.generation));
    }
  }

  lemma ActiveIsOk(t: Tables, slot: string)
    requires SessionsOk(t.sessions, t.nextSession)
    ensures FindActive(t, slot).Some? ==> SessionOk(t.sessions[FindActive(t, slot).value])
  {
  }

  lemma VacantSlotKeeps(t: Tables, slot: string, out: Outcome)
    requires DomainOk(t) && FindActive(t, slot).None? && !HasEffect(out.code)
    ensures var t1 := if slot in t.slots then t.(slots := t.slots[slot := SlotVacant]) else t;
            DomainOk(t1) && Moves(t, t1, slot, out)
  {
    hide SessionsOk, SlotsAgree, BindingsOk, DeadlinesRefer, OneLiveDeadline, GenerationsOk, LatestOpen;
    if slot in t.slots {
      var t1 := t.(slots := t.slots[slot := SlotVacant]);
      SameSessionsSameActive(t, t1);
      SlotsAgreeAfter(t, t1, slot);
      HoldingMoves(t, t1, slot, out);
    }
  }

  lemma HallLeavesKeeps(t: Tables, row: Row)
    requires DomainOk(t) && row.command.payload.Payload? && row.command.payload.protocol.Some?
    ensures Kept(t, HallLeaves(t, row), row.command.slot)
  {
    hide SessionsOk, SlotsAgree, BindingsOk, DeadlinesRefer, OneLiveDeadline, GenerationsOk, CommitSequence,
         CloseSession, LatestOpen, IvaAdvances;
    var c := row.command;
    var active := FindActive(t, c.slot);
    if active.None? {
      var out := Outcome(NoChange, None, row.attempt, row.correlation, row.generation);
      VacantSlotKeeps(t, c.slot, out);
      SequenceKeeps(t, if c.slot in t.slots then t.(slots := t.slots[c.slot := SlotVacant]) else t, c, out);
    } else {
      var s := t.sessions[active.value];
      var o := Outcome(NoChange, active, s.attempt, row.correlation, row.generation);
      ActiveIsOk(t, c.slot);
      NothingMoves(t, c.slot, o.(code := RejectedInvalidTimestamp));
      NothingMoves(t, c.slot, o);
      SequenceKeeps(t, t, c, o);
      var t1 := UpdateHall(t, active.value, s.hallConfirmed, false);
      if c.payload.hybridOr && s.ivaConfirmed && s.ivaOccupied {
        FlagsKeep(t, t1, active.value);
        HoldingMoves(t, t1, c.slot, o);
        SequenceKeeps(t, t1, c, o);
      } else if CloseSession(t1, c, active.value).Some? {
        CloseKeeps(t, t1, c, active.value);
        ClosingMoves(t, CloseSession(t1, c, active.value).value, c.slot, o.(code := SessionEnded));
        SequenceKeeps(t, CloseSession(t1, c, active.value).value, c, o.(code := SessionEnded));
      }
    }
  }

  lemma ClosingMoves(t: Tables, t': Tables, slot: string, out: Outcome)
    requires t'.inbox == t.inbox && t'.images == t.images && t'.nextImage == t.nextImage
    requires t'.slots.Keys == t.slots.Keys && t'.nextSession == t.nextSession
    requires EndedStayPut(t.sessions, t'.sessions) && DeadlinesGrow(t.deadlines, t'.deadlines)
    requires IvaAdvances(t.iva, t'.iva) && out.code.SessionEnded?
    requires FindActive(t, slot).Some? && out.session == FindActive(t, slot) && FindActive(t', slot).None?
    requires forall other :: other != slot ==> FindActive(t', other) == FindActive(t, other)
    ensures Moves(t, t', slot, out)
  {
  }

  lemma ReduceHallKeeps(t: Tables, row: Row)
    requires DomainOk(t) && row.command.payload.Payload? && row.command.kind.HallObservation?
    ensures Kept(t, ReduceHall(t, row), row.command.slot)
  {
    hide DomainOk, HallEnters, HallLeaves, Moves;
    if row.command.payload.protocol.Some? {
      HallEntersKeeps(t, row);
      HallLeavesKeeps(t, row);
    }
    NothingMoves(t, row.command.slot, Outcome(NoChange, None, row.attempt, row.correlation, row.generation));
  }

  // ----- exit deadlines -----

  lemma StaleDeadlineKeeps(t: Tables, id: string, state: DeadlineState, slot: string, out: Outcome)
    requires DomainOk(t) && id in t.deadlines && IsLive(t.deadlines[id]) && !HasEffect(out.code)
    ensures DomainOk(MarkDeadline(t, id, state)) && Moves(t, MarkDeadline(t, id, state), slot, out)
  {
    hide SessionsOk, SlotsAgree, BindingsOk, DeadlinesRefer, OneLiveDeadline, GenerationsOk, LatestOpen;
    var t1 := MarkDeadline(t, id, state);
    ProgressKeepsDeadlines(t.deadlines, t1.deadlines, t.sessions, t.iva);
    SameSessionsSameActive(t, t1);
    HoldingMoves(t, t1, slot, out);
  }

  lemma PersistingMoves(t: Tables, t1: Tables, slot: string, v: Iva, out: Outcome)
    requires DomainOk(t1) && Moves(t, t1, slot, out) && IvaAdvances(t1.iva, t1.iva[slot := v])
    ensures DomainOk(PersistIva(t1, slot, v)) && Moves(t, PersistIva(t1, slot, v), slot, out)
  {
    hide SessionsOk, SlotsAgree, BindingsOk, DeadlinesRefer, OneLiveDeadline, GenerationsOk, LatestOpen;
    PersistKeeps(t1, slot, v);
    SameSessionsSameActive(t1, PersistIva(t1, slot, v));
    assert GenerationsGrow(t.iva, t1.iva[slot := v]);
  }

  lemma DeadlineVacatesKeeps(t: Tables, row: Row)
    requires DomainOk(t) && row.command.payload.Payload?
    requires DeadlineMatches(t, row.command) && DeadlineOwns(t, row.command)
    ensures Kept(t, DeadlineVacates(t, row), row.command.slot)
  {
    hide SessionsOk, SlotsAgree, BindingsOk, DeadlinesRefer, OneLiveDeadline, GenerationsOk, LatestOpen,
         Moves, AllExited;
    var c := row.command;
    var p := c.payload;
    var session := p.expectedSession.value;
    var s := t.sessions[session];
    var v := t.iva[c.slot];
    var o := Outcome(NoChange, Some(session), s.attempt, row.correlation, p.expectedGeneration);
    var t1 := MarkDeadline(UpdateIva(t, session, s.ivaConfirmed, false), p.deadlineId, DeadlineApplied);
    ActiveIsOk(t, c.slot);
    if p.hybridOr && s.hallConfirmed && s.hallOccupied {
      FlagsKeep(t, t1, session);
      HoldingMoves(t, t1, c.slot, o);
      ExitedStaysExited(t1.iva, c.slot, Iva(s.attempt, Some(session), v.generation, Vacant, v.configured, v.areas));
      PersistingMoves(t, t1, c.slot, Iva(s.attempt, Some(session), v.generation, Vacant, v.configured, v.areas), o);
    } else if CloseSession(t1, c, session).Some? {
      var t2 := CloseSession(t1, c, session).value;
      CloseKeeps(t, t1, c, session);
      ClosingMoves(t, t2, c.slot, o.(code := SessionEnded));
      ExitedStaysExited(t2.iva, c.slot, Iva("", None, v.generation, Vacant, v.configured, v.areas));
      PersistingMoves(t, t2, c.slot, Iva("", None, v.generation, Vacant, v.configured, v.areas),
                      o.(code := SessionEnded));
    }
  }

  /** A row of the same generation and areas that is not occupied keeps areas that were left, left. */
  lemma ExitedStaysExited(iva: map<string, Iva>, slot: string, v: Iva)
    requires slot in iva && v.generation == iva[slot].generation && v.configured == iva[slot].configured
    requires v.areas == iva[slot].areas && !v.observed.Occupied?
    ensures IvaAdvances(iva, iva[slot := v])
  {
  }

  lemma ReduceDeadlineKeeps(t: Tables, row: Row)
    requires DomainOk(t) && row.command.payload.Payload?
    ensures Kept(t, ReduceDeadline(t, row), row.command.slot)
  {
    hide DomainOk, Moves, DeadlineOwns, DeadlineVacates;
    var c := row.command;
    var o := Outcome(StaleGeneration, None, row.attempt, row.correlation, row.generation);
    NothingMoves(t, c.slot, o);
    if DeadlineMatches(t, c) {
      if DeadlineOwns(t, c) { DeadlineVacatesKeeps(t, row); }
      StaleDeadlineKeeps(t, c.payload.deadlineId, Superseded, c.slot, o);
    }
  }

  // ----- camera -----

  lemma SupersedeKeeps(t: Tables, slot: string)
    requires DomainOk(t)
    ensures var t1 := t.(deadlines := Supersede(t.deadlines, slot));
            && DomainOk(t1) && DeadlinesGrow(t.deadlines, t1.deadlines) && t1.deadlines.Keys == t.deadlines.Keys
            && forall s :: FindActive(t1, s) == FindActive(t, s)
  {
    hide SessionsOk, SlotsAgree, BindingsOk, DeadlinesRefer, OneLiveDeadline, GenerationsOk, LatestOpen;
    var t1 := t.(deadlines := Supersede(t.deadlines, slot));
    ProgressKeepsDeadlines(t.deadlines, t1.deadlines, t.sessions, t.iva);
    SameSessionsSameActive(t, t1);
  }

  /** The areas as an intrusion leaves them: a new generation, or one already seen as occupied. */
  lemma IntrusionAdvances(t: Tables, row: Row, iva: map<string, Iva>, attempt: string, session: Option<nat>)
    requires row.command.payload.Payload? && iva == t.iva
    ensures var p := row.command.payload;
            var before := IvaBefore(t, row);
            IvaAdvances(iva, iva[row.command.slot := Iva(attempt, session, IntrusionGeneration(before, p.areaKey),
                                                         Occupied, p.configured, before.areas[p.areaKey := true])])
  {
    hide AllExited;
  }

  lemma IntrusionBindsKeeps(t: Tables, t1: Tables, row: Row, out: Outcome, session: nat)
    requires DomainOk(t1) && Moves(t, t1, row.command.slot, out) && row.command.payload.Payload?
    requires session in t1.sessions && OpenAt(t1.sessions[session], row.command.slot)
    requires t1.sessions[session].attempt == out.attempt
    ensures Kept(t, IntrusionBinds(t1, row, out, session), row.command.slot)
  {
    hide Moves, SessionsOk, SlotsAgree, BindingsOk, DeadlinesRefer, OneLiveDeadline, GenerationsOk, CommitCorrelation,
         OpenAt;
    BindingKeeps(t1, row.command, out.attempt, session);
    var b := CommitCorrelation(t1, row.command, out.attempt, session);
    if b.Some? {
      MovesPast(t, t1, b.value.t, row.command.slot, out);
      Relabel(t, b.value.t, row.command.slot, out, out.(correlation := b.value.correlation));
    }
  }

  lemma Relabel(t: Tables, t': Tables, slot: string, out: Outcome, out': Outcome)
    requires Moves(t, t', slot, out) && out'.code == out.code && out'.session == out.session
    ensures Moves(t, t', slot, out')
  {
  }

  lemma CameraIntrudesKeeps(t: Tables, row: Row)
    requires DomainOk(t) && row.command.payload.Payload? && row.command.kind.CameraObservation?
    ensures Kept(t, CameraIntrudes(t, row), row.command.slot)
  {
    hide SessionsOk, SlotsAgree, BindingsOk, DeadlinesRefer, OneLiveDeadline, GenerationsOk, LatestOpen,
         AllExited, IvaAdvances, IntrusionGeneration, IntrusionBinds, Supersede, Moves, EndedStayPut, DeadlinesGrow;
    var c := row.command;
    var p := c.payload;
    var before := IvaBefore(t, row);
    var generation := IntrusionGeneration(before, p.areaKey);
    var areas := before.areas[p.areaKey := true];
    var t1 := t.(deadlines := Supersede(t.deadlines, c.slot));
    SupersedeKeeps(t, c.slot);
    ActiveIsOk(t, c.slot);
    var active := FindActive(t, c.slot);
    if active.Some? {
      var attempt := t.sessions[active.value].attempt;
      var out := Outcome(NoChange, active, attempt, "", generation);
      var t2 := UpdateIva(t1, active.value, true, true);
      FlagsKeepFrom(t, t1, t2, active.value);
      IvaStays(t.iva);
      HoldingMoves(t, t2, c.slot, out);
      var v := Iva(attempt, active, generation, Occupied, p.configured, areas);
      IntrusionAdvances(t, row, t2.iva, attempt, active);
      PersistingMoves(t, t2, c.slot, v, out);
      IntrusionBindsKeeps(t, PersistIva(t2, c.slot, v), row, out, active.value);
    } else if CreateSession(t1, c).Some? {
      var t2 := CreateSession(t1, c).value;
      var attempt := AttemptOf(c.id);
      var out := Outcome(SessionStarted, Some(t.nextSession), attempt, "", generation);
      CreateKeeps(t1, c);
      IvaStays(t.iva);
      CreatingMoves(t, t2, c.slot, out);
      var v := Iva(attempt, Some(t.nextSession), generation, Occupied, p.configured, areas);
      IntrusionAdvances(t, row, t2.iva, attempt, Some(t.nextSession));
      PersistingMoves(t, t2, c.slot, v, out);
      IntrusionBindsKeeps(t, PersistIva(t2, c.slot, v), row, out, t.nextSession);
    }
  }

  lemma IvaStays(iva: map<string, Iva>)
    ensures GenerationsGrow(iva, iva)
  {
  }

  /** `FlagsKeep` after the deadlines of the slot were superseded. */
  lemma FlagsKeepFrom(t: Tables, t1: Tables, t2: Tables, i: nat)
    requires DomainOk(t1) && t1 == t.(deadlines := t1.deadlines) && i in t.sessions && IsOpen(t.sessions[i])
    requires SessionOk(t.sessions[i]) && t2 == UpdateIva(t1, i, true, true)
    ensures DomainOk(t2) && EndedStayPut(t.sessions, t2.sessions)
    ensures forall slot :: FindActive(t2, slot) == FindActive(t, slot)
  {
    hide SessionsOk, SlotsAgree, BindingsOk, DeadlinesRefer, OneLiveDeadline, GenerationsOk, LatestOpen, EndedStayPut;
    SameDeadlinesGrow(t1.deadlines);
    FlagsKeep(t1, t2, i);
    SameSessionsSameActive(t, t1);
  }

  lemma SameDeadlinesGrow(deadlines: map<string, Deadline>)
    ensures DeadlinesGrow(deadlines, deadlines)
  {
  }

  lemma CreatingMoves(t: Tables, t': Tables, slot: string, out: Outcome)
    requires t'.inbox == t.inbox && t'.images == t.images && t'.nextImage == t.nextImage
    requires t'.slots.Keys == t.slots.Keys && t'.nextSession == t.nextSession + 1
    requires EndedStayPut(t.sessions, t'.sessions) && DeadlinesGrow(t.deadlines, t'.deadlines)
    requires GenerationsGrow(t.iva, t'.iva) && out.code.SessionStarted?
    requires FindActive(t, slot).None? && out.session == Some(t.nextSession) && FindActive(t', slot) == out.session
    requires forall other :: other != slot ==> FindActive(t', other) == FindActive(t, other)
    ensures Moves(t, t', slot, out)
  {
  }

  lemma CameraCorrelatesKeeps(t: Tables, row: Row)
    requires DomainOk(t) && row.command.payload.Payload?
    ensures Kept(t, CameraCorrelates(t, row), row.command.slot)
  {
    hide SessionsOk, SlotsAgree, BindingsOk, DeadlinesRefer, OneLiveDeadline, GenerationsOk, LatestOpen,
         CommitCorrelation, Moves;
    var c := row.command;
    var active := FindActive(t, c.slot);
    if active.Some? {
      var attempt := t.sessions[active.value].attempt;
      BindingKeeps(t, c, attempt, active.value);
      var b := CommitCorrelation(t, c, attempt, active.value);
      if b.Some? {
        var out := Outcome(NoChange, active, attempt, b.value.correlation, row.generation);
        NothingMoves(t, c.slot, out);
        MovesPast(t, t, b.value.t, c.slot, out);
      }
    } else {
      NothingMoves(t, c.slot, Outcome(NoChange, None, row.attempt, row.correlation, row.generation));
    }
  }

  predicate ExitGeneration(before: Iva, areaKey: string, v: Iva) {
    && v.areas == before.areas[areaKey := false] && v.configured == before.configured
    && v.generation == (if AreaActive(before.areas, areaKey) then before.generation + 1 else before.generation)
    && (v.observed.Occupied? ==> !AllExited(v))
  }

  lemma ExitAdvances(iva: map<string, Iva>, slot: string, areaKey: string, v: Iva)
    requires slot in iva ==> ExitGeneration(iva[slot], areaKey, v)
    ensures IvaAdvances(iva, iva[slot := v])
  {
  }

  lemma ScheduleKeeps(t: Tables, c: Command, v: Iva, session: nat)
    requires DomainOk(t) && c.payload.Payload? && FindActive(t, c.slot) == Some(session)
    requires IvaAdvances(t.iva, t.iva[c.slot := v]) && AllExited(v) && !v.observed.Occupied?
    ensures var r := ScheduleExit(t, c, v.generation, session);
            r.Some? ==> DomainOk(PersistIva(r.value, c.slot, v)) && DeadlinesGrow(t.deadlines, r.value.deadlines) &&
                        r.value == t.(deadlines := r.value.deadlines)
  {
    hide SessionsOk, SlotsAgree, BindingsOk, LatestOpen, AllExited, DeadlinesRefer, OneLiveDeadline, GenerationsOk,
         DeadlinesGrow, IvaAdvances;
    PersistKeeps(t, c.slot, v);
    SameDeadlinesGrow(t.deadlines);
    var id := DeadlineId(c.slot, v.generation, session);
    if !HasLiveDeadline(t.deadlines, c.slot) && id !in t.deadlines {
      InsertDeadlineKeeps(t.deadlines, id, NewDeadline(c, t.sessions[session].attempt, session, v.generation),
                          t.sessions, t.iva[c.slot := v]);
    }
  }

  lemma InsertDeadlineKeeps(deadlines: map<string, Deadline>, id: string, d: Deadline, sessions: map<nat, Session>,
                            iva: map<string, Iva>)
    requires DeadlinesRefer(deadlines, sessions) && OneLiveDeadline(deadlines) && GenerationsOk(deadlines, iva)
    requires id !in deadlines && !HasLiveDeadline(deadlines, d.slot)
    requires d.session in sessions && sessions[d.session].slot == d.slot
    requires d.slot in iva && d.generation == iva[d.slot].generation
    requires AllExited(iva[d.slot]) && !iva[d.slot].observed.Occupied?
    ensures var deadlines' := deadlines[id := d];
            && DeadlinesRefer(deadlines', sessions) && OneLiveDeadline(deadlines') && GenerationsOk(deadlines', iva)
            && DeadlinesGrow(deadlines, deadlines')
  {
    hide AllExited;
  }

  lemma CameraExitsKeeps(t: Tables, row: Row)
    requires DomainOk(t) && row.command.payload.Payload?
    requires row.command.slot in t.iva ==> t.iva[row.command.slot].configured == row.command.payload.configured
    ensures Kept(t, CameraExits(t, row), row.command.slot)
  {
    hide SessionsOk, SlotsAgree, BindingsOk, DeadlinesRefer, OneLiveDeadline, GenerationsOk, LatestOpen,
         IvaAdvances, Moves, ScheduleExit, DeadlinesGrow, EndedStayPut;
    var c := row.command;
    var p := c.payload;
    var before := IvaBefore(t, row);
    var generation := if AreaActive(before.areas, p.areaKey) then before.generation + 1 else before.generation;
    var areas := before.areas[p.areaKey := false];
    var active := FindActive(t, c.slot);
    if active.None? {
      var v := Iva("", None, generation, Vacant, p.configured, areas);
      var out := Outcome(NoChange, None, "", row.correlation, generation);
      ExitAdvances(t.iva, c.slot, p.areaKey, v);
      NothingMoves(t, c.slot, out);
      PersistingMoves(t, t, c.slot, v, out);
    } else {
      var attempt := t.sessions[active.value].attempt;
      var o := Outcome(NoChange, active, attempt, row.correlation, generation);
      if !AllAreasKnown(p.configured, areas) || AnyAreaActive(p.configured, areas) {
        var v := Iva(attempt, active, generation, Occupied, p.configured, areas);
        ExitAdvances(t.iva, c.slot, p.areaKey, v);
        NothingMoves(t, c.slot, o);
        PersistingMoves(t, t, c.slot, v, o);
      } else {
        var v := Iva(attempt, active, generation, VacantPending, p.configured, areas);
        ExitAdvances(t.iva, c.slot, p.areaKey, v);
        ScheduleKeeps(t, c, v, active.value);
        if ScheduleExit(t, c, generation, active.value).Some? {
          var t1 := ScheduleExit(t, c, generation, active.value).value;
          SchedulingMoves(t, PersistIva(t1, c.slot, v), c.slot, v, o.(code := ExitScheduled));
        }
      }
    }
  }

  lemma SchedulingMoves(t: Tables, t': Tables, slot: string, v: Iva, out: Outcome)
    requires t' == t.(deadlines := t'.deadlines, iva := t.iva[slot := v]) && DeadlinesGrow(t.deadlines, t'.deadlines)
    requires IvaAdvances(t.iva, t.iva[slot := v]) && !HasEffect(out.code)
    ensures Moves(t, t', slot, out)
  {
    SameSessionsSameActive(t, t');
  }

  lemma ReduceCameraKeeps(t: Tables, row: Row)
    requires DomainOk(t) && row.command.payload.Payload? && row.command.kind.CameraObservation?
    ensures Kept(t, ReduceCamera(t, row), row.command.slot)
  {
    hide DomainOk, Moves, CameraIntrudes, CameraExits, CameraCorrelates, LatestOpen;
    CameraCorrelatesKeeps(t, row);
    CameraIntrudesKeeps(t, row);
    if row.command.slot in t.iva ==> t.iva[row.command.slot].configured == row.command.payload.configured {
      CameraExitsKeeps(t, row);
    }
    forall code, session, attempt, correlation, generation | !HasEffect(code)
      ensures Moves(t, t, row.command.slot, Outcome(code, session, attempt, correlation, generation))
    {
      NothingMoves(t, row.command.slot, Outcome(code, session, attempt, correlation, generation));
    }
  }

  /** One reduction, whatever the source, keeps the domain and moves it as stated. */
  lemma ReduceKeeps(t: Tables, row: Row)
    requires DomainOk(t) && row.command.payload.Payload?
    ensures Kept(t, Reduce(t, row), row.command.slot)
  {
    hide DomainOk, Moves, ReduceHall, ReduceCamera, ReduceDeadline;
    match row.command.kind
    case HallObservation => ReduceHallKeeps(t, row);
    case CameraObservation => ReduceCameraKeeps(t, row);
    case ExitDeadline => ReduceDeadlineKeeps(t, row);
  }
}
