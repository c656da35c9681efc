/**
 What every reachable state of the occupancy tables satisfies, and how one reduction moves it.
 The parts speak of the tables they need and no others, so a step that leaves those tables alone keeps them.
 */
module OccupancyInvariant {
  import opened Option
  import opened OccupancyTables

  // ----- sessions and slots -----

  /** An open session is held by a source, a closed one by none; only a confirmed source occupies. */
  predicate SessionOk(s: Session) {
    && (IsOpen(s) <==> (s.hallOccupied || s.ivaOccupied))
    && (s.hallOccupied ==> s.hallConfirmed)
    && (s.ivaOccupied ==> s.ivaConfirmed)
    && (s.exitMs.Some? ==> s.entryMs <= s.exitMs.value)
    && (IsOpen(s) ==> s.exitCommand.None?)
  }

  ghost predicate SessionsOk(sessions: map<nat, Session>, next: nat) {
    && (forall i :: i in sessions ==> i < next && SessionOk(sessions[i]))
    && (forall i, j | i in sessions && j in sessions && IsOpen(sessions[i]) && IsOpen(sessions[j]) ::
          sessions[i].slot == sessions[j].slot ==> i == j)
  }

  ghost predicate SlotsAgree(slots: map<string, SlotStatus>, sessions: map<nat, Session>) {
    && (forall i :: i in sessions && IsOpen(sessions[i]) ==>
          sessions[i].slot in slots && slots[sessions[i].slot].SlotOccupied?)
    && (forall slot :: slot in slots && slots[slot].SlotOccupied? ==>
          exists i :: i in sessions && OpenAt(sessions[i], slot))
  }

  // ----- bindings -----

  ghost predicate BindingsOk(bindings: map<string, Binding>, sessions: map<nat, Session>) {
    forall k :: k in bindings && bindings[k].state.Committed? ==>
      && bindings[k].session in sessions
      && OpenAt(sessions[bindings[k].session], bindings[k].slot)
      && sessions[bindings[k].session].attempt == bindings[k].attempt
  }

  /** Two bindings of the same camera track under the same attempt; the table allows one. */
  predicate SameTrack(a: Binding, b: Binding) {
    a.attempt == b.attempt && a.camera == b.camera && a.token == b.token && a.rule == b.rule && a.objectId == b.objectId
  }

  ghost predicate TracksUnique(bindings: map<string, Binding>) {
    forall a, b | a in bindings && b in bindings :: SameTrack(bindings[a], bindings[b]) ==> a == b
  }

  // ----- exit deadlines -----

  ghost predicate DeadlinesRefer(deadlines: map<string, Deadline>, sessions: map<nat, Session>) {
    forall d :: d in deadlines ==>
        deadlines[d].session in sessions && sessions[deadlines[d].session].slot == deadlines[d].slot
  }

  ghost predicate OneLiveDeadline(deadlines: map<string, Deadline>) {
    forall d, e | d in deadlines && e in deadlines && IsLive(deadlines[d]) && IsLive(deadlines[e]) ::
      deadlines[d].slot == deadlines[e].slot ==> d == e
  }

  /** Every configured area has been seen and left. */
  predicate AllExited(v: Iva) {
    AllAreasKnown(v.configured, v.areas) && !AnyAreaActive(v.configured, v.areas)
  }

  /** A deadline never runs ahead of its slot's generation; one of the current generation means all areas are left. */
  ghost predicate GenerationsOk(deadlines: map<string, Deadline>, iva: map<string, Iva>) {
    forall d :: d in deadlines ==>
      && deadlines[d].slot in iva
      && deadlines[d].generation <= iva[deadlines[d].slot].generation
      && (deadlines[d].generation == iva[deadlines[d].slot].generation ==>
            AllExited(iva[deadlines[d].slot]) && !iva[deadlines[d].slot].observed.Occupied?)
  }

  /** Everything but the inbox. */
  ghost predicate DomainOk(t: Tables) {
    && SessionsOk(t.sessions, t.nextSession)
    && SlotsAgree(t.slots, t.sessions)
    && BindingsOk(t.bindings, t.sessions)
    && DeadlinesRefer(t.deadlines, t.sessions)
    && OneLiveDeadline(t.deadlines)
    && GenerationsOk(t.deadlines, t.iva)
  }

  /** `FindActive` finds the one open session, and nothing else is open at the slot. */
  lemma ActiveIsUnique(t: Tables, slot: string, i: nat)
    requires SessionsOk(t.sessions, t.nextSession)
    requires i in t.sessions && OpenAt(t.sessions[i], slot)
    ensures FindActive(t, slot) == Some(i)
  {
  }

  lemma SlotIsOccupiedExactlyWhenActive(t: Tables, slot: string)
    requires SessionsOk(t.sessions, t.nextSession) && SlotsAgree(t.slots, t.sessions) && slot in t.slots
    ensures t.slots[slot].SlotOccupied? <==> FindActive(t, slot).Some?
  {
    if t.slots[slot].SlotOccupied? {
      var i :| i in t.sessions && OpenAt(t.sessions[i], slot);
      ActiveIsUnique(t, slot, i);
    }
  }

  // ----- the inbox -----

  /** What a row's own columns agree on. */
  predicate RowOk(r: Row) {
    && r.command.id != "" && r.ordinal > 0 && !r.status.PendingPrepared?
    && (IsPending(r) ==> r.effect.NoEffect? && r.result.None?)
    && (IsTerminal(r) ==> r.result.Some?)
    && (r.status.RejectedInvalid? ==> r.result == Some(RejectedInvalidTimestamp))
    && (!r.effect.NoEffect? ==> r.status.Applied? && HasEffect(r.result.value) && r.resultSession.Some?)
    && (!r.command.payload.Payload? ==> r.command.kind.ExitDeadline? && !r.status.Applied?)
    && (r.command.kind.HallObservation? ==> r.command.sensor != "")
  }

  ghost predicate RowsOk(inbox: map<string, Row>) {
    && (forall id :: id in inbox ==> inbox[id].command.id == id && RowOk(inbox[id]))
    && (forall a, b | a in inbox && b in inbox :: inbox[a].ordinal == inbox[b].ordinal ==> a == b)
    && (forall a, b | a in inbox && b in inbox ::
          SameIdentity(inbox[a], inbox[b].command.kind, inbox[b].command.identity) ==> a == b)
  }

  /** In each slot the rows that owe an effect come before the rows that wait. */
  ghost predicate EffectsBeforePending(inbox: map<string, Row>) {
    forall a, b | a in inbox && b in inbox && OwesEffect(inbox[a]) && IsPending(inbox[b]) ::
      inbox[a].command.slot == inbox[b].command.slot ==> inbox[a].ordinal < inbox[b].ordinal
  }

  ghost predicate OneConfirmation(inbox: map<string, Row>) {
    forall a, b | a in inbox && b in inbox ::
      IsConfirmation(inbox[a], inbox[b].command.slot) && IsConfirmation(inbox[b], inbox[b].command.slot) ==> a == b
  }

  ghost predicate InboxOk(inbox: map<string, Row>) {
    RowsOk(inbox) && EffectsBeforePending(inbox) && OneConfirmation(inbox)
  }

  /** Rows keep their command and place; what changes is how far they have come. */
  lemma SetRowKeeps(inbox: map<string, Row>, id: string, r: Row)
    requires InboxOk(inbox) && id in inbox && RowOk(r)
    requires r.command == inbox[id].command && r.ordinal == inbox[id].ordinal && (IsPending(r) ==> IsPending(inbox[id]))
    requires OwesEffect(r) && !OwesEffect(inbox[id]) ==> IsHead(inbox, id)
    ensures InboxOk(inbox[id := r])
  {
  }

  lemma InsertRowKeeps(inbox: map<string, Row>, id: string, r: Row)
    requires InboxOk(inbox) && id !in inbox && RowOk(r) && r.command.id == id && IsPending(r)
    requires forall k :: k in inbox ==> inbox[k].ordinal < r.ordinal
    requires forall k :: k in inbox ==> !SameIdentity(inbox[k], r.command.kind, r.command.identity)
    requires IsConfirmation(r, r.command.slot) ==> forall k :: k in inbox ==> !IsConfirmation(inbox[k], r.command.slot)
    ensures InboxOk(inbox[id := r])
  {
  }

  lemma RemoveRowsKeeps(inbox: map<string, Row>, ids: set<string>)
    requires InboxOk(inbox)
    ensures InboxOk(inbox - ids)
  {
  }

  // ----- how one reduction moves the tables -----

  /** Ended sessions are never touched, and no session disappears. */
  ghost predicate EndedStayPut(sessions: map<nat, Session>, sessions': map<nat, Session>) {
    forall i :: i in sessions ==>
      && i in sessions'
      && sessions'[i].slot == sessions[i].slot && sessions'[i].attempt == sessions[i].attempt
      && sessions'[i].entryMs == sessions[i].entryMs && sessions'[i].entryCommand == sessions[i].entryCommand
      && (!IsOpen(sessions[i]) ==> sessions'[i] == sessions[i])
  }

  /** Deadlines are never deleted and only their progress changes. */
  ghost predicate DeadlinesGrow(deadlines: map<string, Deadline>, deadlines': map<string, Deadline>) {
    forall d :: d in deadlines ==>
      && d in deadlines'
      && deadlines'[d] == deadlines[d].(state := deadlines'[d].state, admittedBy := deadlines'[d].admittedBy)
      && (IsLive(deadlines'[d]) ==> IsLive(deadlines[d]))
  }

  ghost predicate GenerationsGrow(iva: map<string, Iva>, iva': map<string, Iva>) {
    forall s :: s in iva ==> s in iva' && iva[s].generation <= iva'[s].generation
  }

  /** A slot's open session as a step finds and leaves it. */
  ghost predicate ActiveMoves(t: Tables, t': Tables, slot: string, out: Outcome) {
    match out.code
    case SessionStarted =>
      FindActive(t, slot).None? && out.session == Some(t.nextSession) && FindActive(t', slot) == out.session &&
      t'.nextSession == t.nextSession + 1
    case SessionEnded =>
      FindActive(t, slot).Some? && out.session == FindActive(t, slot) && FindActive(t', slot).None? &&
      t'.nextSession == t.nextSession
    case _ => FindActive(t', slot) == FindActive(t, slot) && t'.nextSession == t.nextSession
  }

  ghost predicate Moves(t: Tables, t': Tables, slot: string, out: Outcome) {
    && t'.inbox == t.inbox && t'.images == t.images && t'.nextImage == t.nextImage
    && t'.slots.Keys == t.slots.Keys
    && EndedStayPut(t.sessions, t'.sessions)
    && DeadlinesGrow(t.deadlines, t'.deadlines)
    && GenerationsGrow(t.iva, t'.iva)
    && ActiveMoves(t, t', slot, out)
    && (forall other :: other != slot ==> FindActive(t', other) == FindActive(t, other))
  }

  // ----- session replacement -----

  lemma SetSessionKeeps(t: Tables, i: nat, s: Session)
    requires SessionsOk(t.sessions, t.nextSession) && i in t.sessions && IsOpen(t.sessions[i])
    requires SessionOk(s) && s.slot == t.sessions[i].slot
    ensures SessionsOk(t.sessions[i := s], t.nextSession)
  {
  }

  /** Replacing an open session by another state of it moves only its own slot. */
  lemma SetSessionActive(t: Tables, t': Tables, i: nat, s: Session, slot: string)
    requires SessionsOk(t.sessions, t.nextSession) && i in t.sessions && IsOpen(t.sessions[i])
    requires SessionOk(s) && s.slot == t.sessions[i].slot
    requires t'.sessions == t.sessions[i := s] && t'.nextSession == t.nextSession
    ensures FindActive(t', slot) ==
              if slot == s.slot then (if IsOpen(s) then Some(i) else None) else FindActive(t, slot)
  {
    SetSessionKeeps(t, i, s);
    var r := FindActive(t', slot);
    var q := FindActive(t, slot);
    if slot == s.slot {
      if IsOpen(s) { ActiveIsUnique(t', slot, i); }
      if r.Some? && r.value != i { ActiveIsUnique(t, slot, i); }
    } else {
      if q.Some? { ActiveIsUnique(t', slot, q.value); }
      if r.Some? { ActiveIsUnique(t, slot, r.value); }
    }
  }

  lemma CreateKeeps(t: Tables, c: Command)
    requires DomainOk(t) && FindActive(t, c.slot).None? && CreateSession(t, c).Some? && !c.kind.ExitDeadline?
    ensures var t' := CreateSession(t, c).value;
            && DomainOk(t') && FindActive(t', c.slot) == Some(t.nextSession)
            && EndedStayPut(t.sessions, t'.sessions) && t'.slots.Keys == t.slots.Keys
            && forall other :: other != c.slot ==> FindActive(t', other) == FindActive(t, other)
  {
    var t' := CreateSession(t, c).value;
    assert SessionsOk(t'.sessions, t'.nextSession);
    ActiveIsUnique(t', c.slot, t.nextSession);
    forall other | other != c.slot ensures FindActive(t', other) == FindActive(t, other) {
      var r, q := FindActive(t', other), FindActive(t, other);
      if q.Some? { ActiveIsUnique(t', other, q.value); }
      if r.Some? { ActiveIsUnique(t, other, r.value); }
    }
    SlotsAgreeAfter(t, t', c.slot);
  }

  /** Only one slot's row changed, and it shows whether the slot has an open session. */
  lemma SlotsAgreeAfter(t: Tables, t': Tables, slot: string)
    requires SlotsAgree(t.slots, t.sessions)
    requires SessionsOk(t.sessions, t.nextSession) && SessionsOk(t'.sessions, t'.nextSession)
    requires slot in t.slots ==> slot in t'.slots
    requires forall s :: s != slot ==> (s in t.slots <==> s in t'.slots) && (s in t.slots ==> t'.slots[s] == t.slots[s])
    requires slot in t'.slots && (t'.slots[slot].SlotOccupied? <==> FindActive(t', slot).Some?)
    requires forall other :: other != slot ==> FindActive(t', other) == FindActive(t, other)
    ensures SlotsAgree(t'.slots, t'.sessions)
  {
    forall i | i in t'.sessions && IsOpen(t'.sessions[i])
      ensures t'.sessions[i].slot in t'.slots && t'.slots[t'.sessions[i].slot].SlotOccupied?
    {
      var s := t'.sessions[i].slot;
      ActiveIsUnique(t', s, i);
      if s != slot { assert FindActive(t, s) == Some(i); }
    }
    forall s | s in t'.slots && t'.slots[s].SlotOccupied?
      ensures exists i :: i in t'.sessions && OpenAt(t'.sessions[i], s)
    {
      if s != slot { SlotIsOccupiedExactlyWhenActive(t, s); }
      assert FindActive(t', s).Some?;
    }
  }

  // ----- camera state and deadlines -----

  /** Each slot's camera state either opens a new generation or stays as left as it was. */
  ghost predicate IvaAdvances(iva: map<string, Iva>, iva': map<string, Iva>) {
    forall s :: s in iva ==>
      && s in iva'
      && (iva'[s].generation > iva[s].generation ||
          (iva'[s].generation == iva[s].generation &&
           (AllExited(iva[s]) && !iva[s].observed.Occupied? ==> AllExited(iva'[s]) && !iva'[s].observed.Occupied?)))
  }

  lemma AdvancingKeepsGenerations(deadlines: map<string, Deadline>, iva: map<string, Iva>, iva': map<string, Iva>)
    requires GenerationsOk(deadlines, iva) && IvaAdvances(iva, iva')
    ensures GenerationsOk(deadlines, iva') && GenerationsGrow(iva, iva')
  {
  }

  /** Changing how far deadlines have come leaves what they refer to. */
  lemma ProgressKeepsDeadlines(deadlines: map<string, Deadline>, deadlines': map<string, Deadline>,
                               sessions: map<nat, Session>, iva: map<string, Iva>)
    requires DeadlinesRefer(deadlines, sessions) && OneLiveDeadline(deadlines) && GenerationsOk(deadlines, iva)
    requires DeadlinesGrow(deadlines, deadlines') && deadlines'.Keys == deadlines.Keys
    ensures DeadlinesRefer(deadlines', sessions) && OneLiveDeadline(deadlines') && GenerationsOk(deadlines', iva)
  {
  }

  lemma StayPutKeepsDeadlines(deadlines: map<string, Deadline>, sessions: map<nat, Session>,
                              sessions': map<nat, Session>)
    requires DeadlinesRefer(deadlines, sessions) && EndedStayPut(sessions, sessions')
    ensures DeadlinesRefer(deadlines, sessions')
  {
  }

  lemma ClearingAdvances(iva: map<string, Iva>, slot: string, session: nat)
    ensures IvaAdvances(iva, ClearIva(iva, slot, session))
  {
  }

  // ----- closing -----

  /** `s` is the open session `i` with only its source flags moved. */
  predicate SameButFlags(s: Session, s': Session) {
    s' == s.(hallConfirmed := s'.hallConfirmed, hallOccupied := s'.hallOccupied,
             ivaConfirmed := s'.ivaConfirmed, ivaOccupied := s'.ivaOccupied)
  }

  predicate FlagsMoved(t: Tables, t1: Tables, i: nat)
    requires i in t.sessions
  {
    && i in t1.sessions && SameButFlags(t.sessions[i], t1.sessions[i])
    && t1 == t.(sessions := t.sessions[i := t1.sessions[i]], deadlines := t1.deadlines)
    && (t1.sessions[i].hallConfirmed || !t1.sessions[i].hallOccupied)
    && (t1.sessions[i].ivaConfirmed || !t1.sessions[i].ivaOccupied)
  }

  lemma CloseKeeps(t: Tables, t1: Tables, c: Command, i: nat)
    requires DomainOk(t) && FindActive(t, c.slot) == Some(i) && FlagsMoved(t, t1, i)
    requires CloseSession(t1, c, i).Some?
    requires DeadlinesGrow(t.deadlines, t1.deadlines) && t1.deadlines.Keys == t.deadlines.Keys
    ensures var t2 := CloseSession(t1, c, i).value;
            && DomainOk(t2) && FindActive(t2, c.slot).None?
            && EndedStayPut(t.sessions, t2.sessions) && IvaAdvances(t.iva, t2.iva)
            && (forall other :: other != c.slot ==> FindActive(t2, other) == FindActive(t, other))
            && t2.slots.Keys == t.slots.Keys && t2.nextSession == t.nextSession
            && t2.deadlines == t1.deadlines && t2.inbox == t.inbox && t2.cursors == t.cursors
            && t2.images == t.images && t2.nextImage == t.nextImage
  {
    hide SessionsOk, SlotsAgree, BindingsOk, DeadlinesRefer, OneLiveDeadline, GenerationsOk, FindActive, IvaAdvances;
    var t2 := CloseSession(t1, c, i).value;
    var s := ClosedSession(t1.sessions[i], c);
    assert t2.sessions == t.sessions[i := s];
    SetSessionKeeps(t, i, s);
    forall slot { SetSessionActive(t, t2, i, s, slot); }
    SlotsAgreeAfter(t, t2, c.slot);
    assert EndedStayPut(t.sessions, t2.sessions);
    EndedBindingsOk(t, t2, i);
    ClearingAdvances(t.iva, c.slot, i);
    StayPutKeepsDeadlines(t.deadlines, t.sessions, t2.sessions);
    AdvancingKeepsGenerations(t.deadlines, t.iva, t2.iva);
    ProgressKeepsDeadlines(t.deadlines, t2.deadlines, t2.sessions, t2.iva);
  }

  /** Closing ends every binding of the closed session, so no committed binding is left behind. */
  lemma EndedBindingsOk(t: Tables, t2: Tables, i: nat)
    requires BindingsOk(t.bindings, t.sessions) && i in t.sessions && IsOpen(t.sessions[i])
    requires i in t2.sessions && t2.sessions == t.sessions[i := t2.sessions[i]] && !IsOpen(t2.sessions[i])
    requires t2.bindings == EndBindings(t.bindings, i, t.sessions[i].slot, t.sessions[i].attempt)
    ensures BindingsOk(t2.bindings, t2.sessions)
  {
    forall k | k in t2.bindings && t2.bindings[k].state.Committed?
      ensures && t2.bindings[k].session in t2.sessions
              && OpenAt(t2.sessions[t2.bindings[k].session], t2.bindings[k].slot)
              && t2.sessions[t2.bindings[k].session].attempt == t2.bindings[k].attempt
    {
      assert t2.bindings[k] == t.bindings[k] && t.bindings[k].session != i;
    }
  }

  lemma SessionIsOk(t: Tables, i: nat)
    requires SessionsOk(t.sessions, t.nextSession) && i in t.sessions
    ensures SessionOk(t.sessions[i])
  {
  }

  // ----- flag updates that keep the session open -----

  lemma FlagsKeep(t: Tables, t1: Tables, i: nat)
    requires DomainOk(t) && i in t.sessions && IsOpen(t.sessions[i]) && FlagsMoved(t, t1, i)
    requires t1.sessions[i].hallOccupied || t1.sessions[i].ivaOccupied
    requires DeadlinesGrow(t.deadlines, t1.deadlines) && t1.deadlines.Keys == t.deadlines.Keys
    ensures DomainOk(t1) && EndedStayPut(t.sessions, t1.sessions)
    ensures forall slot :: FindActive(t1, slot) == FindActive(t, slot)
  {
    hide SessionsOk, SlotsAgree, BindingsOk, DeadlinesRefer, OneLiveDeadline, GenerationsOk, FindActive, SessionOk,
         EndedStayPut, DeadlinesGrow, SameButFlags;
    MovedFlagsOk(t, t1, i);
    FlagsKeepSessions(t, t1, i);
    StayPutKeepsDeadlines(t.deadlines, t.sessions, t1.sessions);
    ProgressKeepsDeadlines(t.deadlines, t1.deadlines, t1.sessions, t1.iva);
    OpenFlagsKeepSlots(t, t1, i);
  }

  lemma FlagsKeepSessions(t: Tables, t1: Tables, i: nat)
    requires SessionsOk(t.sessions, t.nextSession) && i in t.sessions && IsOpen(t.sessions[i]) && FlagsMoved(t, t1, i)
    requires SessionOk(t1.sessions[i]) && IsOpen(t1.sessions[i]) && t1.sessions[i].slot == t.sessions[i].slot
    ensures SessionsOk(t1.sessions, t1.nextSession)
    ensures forall slot :: FindActive(t1, slot) == FindActive(t, slot)
  {
    hide SessionsOk, FindActive, SessionOk, SameButFlags;
    var s := t1.sessions[i];
    SetSessionKeeps(t, i, s);
    ActiveIsUnique(t, s.slot, i);
    forall slot { SetSessionActive(t, t1, i, s, slot); }
  }

  lemma MovedFlagsOk(t: Tables, t1: Tables, i: nat)
    requires SessionsOk(t.sessions, t.nextSession) && i in t.sessions && IsOpen(t.sessions[i]) && FlagsMoved(t, t1, i)
    requires t1.sessions[i].hallOccupied || t1.sessions[i].ivaOccupied
    ensures SessionOk(t1.sessions[i]) && IsOpen(t1.sessions[i]) && t1.sessions[i].slot == t.sessions[i].slot
    ensures EndedStayPut(t.sessions, t1.sessions)
  {
    SessionIsOk(t, i);
    hide SessionsOk;
  }

  lemma OpenFlagsKeepSlots(t: Tables, t1: Tables, i: nat)
    requires SlotsAgree(t.slots, t.sessions) && BindingsOk(t.bindings, t.sessions)
    requires i in t.sessions && IsOpen(t.sessions[i]) && FlagsMoved(t, t1, i)
    ensures SlotsAgree(t1.slots, t1.sessions) && BindingsOk(t1.bindings, t1.sessions)
  {
    forall slot | slot in t1.slots && t1.slots[slot].SlotOccupied?
      ensures exists j :: j in t1.sessions && OpenAt(t1.sessions[j], slot)
    {
      var j :| j in t.sessions && OpenAt(t.sessions[j], slot);
      assert j in t1.sessions && OpenAt(t1.sessions[j], slot);
    }
  }
}
