/**
 A command that heads its slot and cannot be applied. It is tried again for ever, and the slot stands still behind it:
 only its own sensor's cursor or a vacancy that takes it back can free it, and a camera or deadline command has neither.
 */
module OccupancyBlocked {
  import opened Option
  import opened OccupancyTables
  import opened OccupancyInvariant
  import opened OccupancyReducers
  import opened OccupancyRun
  import opened OccupancyEffects
  import opened OccupancyQueue
  import opened OccupancyDeadlines
  import opened OccupancyFacts
  import opened OccupancyCursors
  import opened OccupancySlots
  import opened OccupancyThrows
  import opened ParkingCorrelation
  import S = SensorSequence

  /** The command heads its slot, and something stands in its way. */
  ghost predicate Blocked(t: Tables, id: string) {
    id != "" && Reduces(t, id) && IsHead(t.inbox, id) && Obstructed(t, t.inbox[id])
  }

  /** The admission takes back this waiting confirmation. */
  ghost predicate Cancels(t: Tables, e: Event, id: string) {
    e.AdmitCall? && Admit(t, e.command, e.capacity, e.clock).code.AdmittedNow? && Canceled(t, e.command) == Some(id)
  }

  /** The sensor's cursor has passed the Hall fact by the time it is tried, or a vacancy takes the command back. */
  ghost predicate Frees(t: Tables, e: Event, id: string) {
    (e.ApplyCall? && e.id == id && Reduces(t, id) && Refused(t, t.inbox[id])) || Cancels(t, e, id)
  }

  // ----- what the other rows of the inbox may do meanwhile -----

  /** The row waits as before, the time of its next attempt aside, and is still the first of its slot. */
  ghost predicate StillFirst(inbox: map<string, Row>, inbox': map<string, Row>, id: string)
    requires id in inbox
  {
    && id in inbox' && inbox'[id] == inbox[id].(nextAttemptAt := inbox'[id].nextAttemptAt)
    && forall k :: WaitsIn(inbox', inbox[id].command.slot, k) ==> inbox[id].ordinal <= inbox'[k].ordinal
  }

  lemma StillFirstIsHead(inbox: map<string, Row>, inbox': map<string, Row>, id: string)
    requires IsHead(inbox, id) && StillFirst(inbox, inbox', id)
    ensures IsHead(inbox', id)
  {
    forall k | k in inbox' && inbox'[k].command.slot == inbox'[id].command.slot && IsPending(inbox'[k])
      ensures inbox'[id].ordinal <= inbox'[k].ordinal
    {
      assert WaitsIn(inbox', inbox[id].command.slot, k);
    }
  }

  /** The first row of a slot stays first while rows only leave the queue, or join behind it. */
  lemma FirstAmongOld(inbox: map<string, Row>, inbox': map<string, Row>, id: string)
    requires IsHead(inbox, id) && id in inbox' && inbox'[id] == inbox[id].(nextAttemptAt := inbox'[id].nextAttemptAt)
    requires forall k :: k in inbox' && IsPending(inbox'[k]) ==>
               || inbox[id].ordinal <= inbox'[k].ordinal
               || (k in inbox && IsPending(inbox[k]) && inbox'[k].command == inbox[k].command &&
                   inbox'[k].ordinal == inbox[k].ordinal)
    ensures StillFirst(inbox, inbox', id)
  {
  }

  lemma AdmitStillFirst(t: Tables, c: Command, capacity: nat, clock: int, id: string)
    requires IsHead(t.inbox, id) && !Cancels(t, AdmitCall(c, capacity, clock), id)
    ensures StillFirst(t.inbox, Admit(t, c, capacity, clock).t.inbox, id)
  {
    hide FindIdentity, SameSourceFact, S.Evaluate, FirstConfirmation, StillFirst, IsHead, PendingIds, InsertCommand;
    FirstAmongOldHere(t.inbox, id);
    InsertStillFirst(t, t, c, capacity, clock, id);
    FirstIsConfirmation(t.inbox, c.slot);
    var w := FirstConfirmation(t.inbox, c.slot);
    if w.Some? {
      var prepared := SetRow(t, w.value, CanceledRow(t.inbox[w.value]));
      if w.value == id {
        NotInserted(t, prepared, c, capacity, clock);
      } else {
        InsertStillFirst(t, prepared, c, capacity, clock, id);
      }
    }
  }

  lemma NotInserted(t: Tables, prepared: Tables, c: Command, capacity: nat, clock: int)
    ensures !InsertCommand(t, prepared, c, capacity, clock).code.AdmittedNow? ==>
              InsertCommand(t, prepared, c, capacity, clock).t == t
  {
  }

  lemma FirstAmongOldHere(inbox: map<string, Row>, id: string)
    requires IsHead(inbox, id)
    ensures StillFirst(inbox, inbox, id)
  {
  }

  lemma InsertStillFirst(t: Tables, prepared: Tables, c: Command, capacity: nat, clock: int, id: string)
    requires IsHead(t.inbox, id) && id in prepared.inbox && prepared.inbox[id] == t.inbox[id]
    requires forall k :: k in prepared.inbox && IsPending(prepared.inbox[k]) ==>
               k in t.inbox && prepared.inbox[k] == t.inbox[k]
    ensures StillFirst(t.inbox, InsertCommand(t, prepared, c, capacity, clock).t.inbox, id)
  {
    hide StillFirst, IsHead, PendingIds;
    var inbox' := InsertCommand(t, prepared, c, capacity, clock).t.inbox;
    FirstAmongOldHere(t.inbox, id);
    if inbox' != t.inbox {
      assert prepared.inbox[id].ordinal < NextOrdinal(prepared.inbox);
      if InsertCommand(t, prepared, c, capacity, clock).code.AdmittedNow? { FirstAmongOld(t.inbox, inbox', id); }
    }
  }

  lemma {:induction false} BatchStillFirst(t: Tables, ids: set<string>, room: nat, ordinal: nat, clock: int,
                                           inbox: map<string, Row>, id: string)
    requires ids <= t.deadlines.Keys && id in inbox && inbox[id].ordinal < ordinal && StillFirst(inbox, t.inbox, id)
    ensures StillFirst(inbox, AdmitBatch(t, ids, room, ordinal, clock).inbox, id)
    decreases room
  {
    hide StillFirst, Earliest;
    if room != 0 && ids != {} {
      var d := Earliest(t.deadlines, ids);
      assert d in ids;
      OneDeadlineStillFirst(t, d, ordinal, clock, inbox, id);
      BatchStillFirst(AdmitDeadline(t, d, ordinal, clock), ids - {d}, room - 1, ordinal + 1, clock, inbox, id);
    }
  }

  lemma OneDeadlineStillFirst(t: Tables, d: string, ordinal: nat, clock: int, inbox: map<string, Row>, id: string)
    requires d in t.deadlines && id in inbox && inbox[id].ordinal < ordinal && StillFirst(inbox, t.inbox, id)
    ensures StillFirst(inbox, AdmitDeadline(t, d, ordinal, clock).inbox, id)
  {
  }

  lemma SameQueueStillFirst(inbox: map<string, Row>, inbox': map<string, Row>, id: string)
    requires IsHead(inbox, id) && SameQueue(inbox, inbox')
    ensures StillFirst(inbox, inbox', id)
  {
    assert Waiting(inbox', id) == Waiting(inbox, id);
    forall k | WaitsIn(inbox', inbox[id].command.slot, k) ensures inbox[id].ordinal <= inbox'[k].ordinal {
      assert Waiting(inbox', k) == Waiting(inbox, k);
    }
  }

  /** No call but an application disturbs the first row of a slot, unless it takes that row back. */
  lemma OtherCallStillFirst(t: Tables, e: Event, id: string)
    requires !e.ApplyCall? && IsHead(t.inbox, id) && !Cancels(t, e, id)
    ensures StillFirst(t.inbox, Step(t, e).inbox, id)
  {
    hide StillFirst, IsHead, Admit, AdmitBatch, SameQueue, PendingIds;
    FirstAmongOldHere(t.inbox, id);
    match e
    case AdmitCall(c, capacity, clock) => AdmitStillFirst(t, c, capacity, clock, id);
    case AdmitDueCall(now, capacity, blocked, clock) =>
      if |PendingIds(t.inbox)| < capacity {
        HeadIsThere(t.inbox, id);
        BatchStillFirst(t, DueIds(t.deadlines, now, blocked), capacity - |PendingIds(t.inbox)|,
                        NextOrdinal(t.inbox), clock,
                        t.inbox, id);
      }
    case _ =>
      RestSameQueue(t, e);
      SameQueueStillFirst(t.inbox, Step(t, e).inbox, id);
  }

  lemma HeadIsThere(inbox: map<string, Row>, id: string)
    requires IsHead(inbox, id)
    ensures id in inbox
  {
  }

  /** A listed application of another row settles that row only, and it is of another slot. */
  lemma ApplyStillFirst(t: Tables, id: string, k: string)
    requires Sound(t) && Listed(t, ApplyCall(k)) && Reduces(t, id) && IsHead(t.inbox, id) && k != id
    ensures StillFirst(t.inbox, Apply(t, k).t.inbox, id)
    ensures Reduces(t, k) ==> t.inbox[k].command.slot != t.inbox[id].command.slot
  {
    hide DomainOk, ImagesOk, StillFirst, Apply, FinishedRow, RejectedRow;
    InboxOf(t);
    ApplySettlesOwnRow(t, k);
    FirstAmongOldHere(t.inbox, id);
    if k in t.inbox {
      SettledRows(t.inbox[k], Apply(t, k).out);
      FirstAmongOld(t.inbox, Apply(t, k).t.inbox, id);
    }
  }

  // ----- what stands in a command's way stays there -----

  /** What any call keeps, and what it keeps of a slot whose commands it does not apply. */
  ghost predicate StandsOn(t: Tables, t': Tables, slot: string) {
    DomainOk(t) && DomainOk(t') && Progresses(t, t') && SlotStands(t, t', slot)
  }

  lemma TakenStaysTaken(t: Tables, t': Tables, id: string)
    requires SessionsOk(t.sessions, t.nextSession) && EndedStayPut(t.sessions, t'.sessions)
    ensures EntryCommandTaken(t.sessions, id) ==> EntryCommandTaken(t'.sessions, id)
    ensures ExitCommandTaken(t.sessions, id) ==> ExitCommandTaken(t'.sessions, id)
  {
  }

  lemma BindingStillFails(bs: map<string, Binding>, bs': map<string, Binding>, c: Command, attempt: string,
                          session: nat)
    requires c.payload.Payload? && BindingsStand(bs, bs', c.slot) && BindingFails(bs, c, attempt, session)
    ensures BindingFails(bs', c, attempt, session)
  {
    hide CorrelationComplete;
    if HasTrack(bs, attempt, c.payload) {
      var k :| k in bs && TrackOf(bs[k], attempt, c.payload);
      assert k in bs' && TrackOf(bs'[k], attempt, c.payload);
    } else if exists k :: k in bs && bs[k].source == c.id {
      var k :| k in bs && bs[k].source == c.id;
      assert k in bs' && bs'[k].source == c.id;
    }
  }

  /** For a session yet to come no binding can be refreshed, so it does not matter which id it will have. */
  lemma NewSessionStillFails(t: Tables, t': Tables, c: Command, attempt: string)
    requires BindingsOk(t'.bindings, t'.sessions) && SessionsOk(t'.sessions, t'.nextSession)
    requires c.payload.Payload? && BindingsStand(t.bindings, t'.bindings, c.slot)
    requires BindingFails(t.bindings, c, attempt, t.nextSession)
    ensures BindingFails(t'.bindings, c, attempt, t'.nextSession)
  {
    hide CorrelationComplete;
    if !HasTrack(t'.bindings, attempt, c.payload) {
      forall k | k in t.bindings ensures !TrackOf(t.bindings[k], attempt, c.payload) {
        assert k in t'.bindings && SameBinding(t.bindings[k], t'.bindings[k]);
      }
      if exists k :: k in t.bindings && t.bindings[k].source == c.id {
        var k :| k in t.bindings && t.bindings[k].source == c.id;
        assert k in t'.bindings && t'.bindings[k].source == c.id;
      }
    }
  }

  lemma StillBreaks(t: Tables, t': Tables, c: Command)
    requires c.payload.Payload? && StandsOn(t, t', c.slot) && Breaks(t, c)
    ensures Breaks(t', c)
  {
    hide LatestOpen, FindActive, EntryCommandTaken, ExitCommandTaken, SlotsAgree, BindingsOk, DeadlinesRefer,
         OneLiveDeadline, GenerationsOk, EndedStayPut, SessionsOk, DeadlinesStand, BindingsStand, DeadlinesGrow,
         GenerationsGrow;
    TakenStaysTaken(t, t', c.id);
  }

  lemma IntrusionStillThrows(t: Tables, t': Tables, c: Command)
    requires c.payload.Payload? && StandsOn(t, t', c.slot)
    ensures IntrusionThrows(t, c) ==> IntrusionThrows(t', c)
    ensures CorrelationThrows(t, c) ==> CorrelationThrows(t', c)
  {
    hide FindActive, EntryCommandTaken, ExitCommandTaken, SlotsAgree, BindingsOk, DeadlinesRefer, OneLiveDeadline,
         GenerationsOk, EndedStayPut, SessionsOk, DeadlinesStand, BindingsStand, DeadlinesGrow, GenerationsGrow,
         BindingFails;
    TakenStaysTaken(t, t', c.id);
    var active := FindActive(t, c.slot);
    if active.Some? {
      var attempt := t.sessions[active.value].attempt;
      if BindingFails(t.bindings, c, attempt, active.value) {
        BindingStillFails(t.bindings, t'.bindings, c, attempt, active.value);
      }
    } else if BindingFails(t.bindings, c, AttemptOf(c.id), t.nextSession) {
      NewSessionStillFails(t, t', c, AttemptOf(c.id));
    }
  }

  lemma NoNewLiveDeadline(deadlines: map<string, Deadline>, deadlines': map<string, Deadline>, slot: string)
    requires DeadlinesStand(deadlines, deadlines', slot)
    ensures HasLiveDeadline(deadlines', slot) ==> HasLiveDeadline(deadlines, slot)
  {
  }

  lemma StillCollides(t: Tables, t': Tables, row: Row, row': Row)
    requires row.command.payload.Payload? && row' == row.(nextAttemptAt := row'.nextAttemptAt)
    requires StandsOn(t, t', row.command.slot)
    ensures Collides(t, row) ==> Collides(t', row')
    ensures TopologyDiffers(t, row.command) ==> TopologyDiffers(t', row.command)
  {
    hide FindActive, AllAreasKnown, AnyAreaActive, DeadlineId, AreaActive, HasLiveDeadline, SessionsOk, SlotsAgree,
         BindingsOk, DeadlinesRefer, OneLiveDeadline, GenerationsOk, EndedStayPut, BindingsStand, GenerationsGrow,
         DeadlinesStand;
    NoNewLiveDeadline(t.deadlines, t'.deadlines, row.command.slot);
  }

  lemma DeadlineStillThrows(t: Tables, t': Tables, c: Command)
    requires c.payload.Payload? && StandsOn(t, t', c.slot) && DeadlineThrows(t, c)
    ensures DeadlineThrows(t', c)
  {
    hide FindActive, EntryCommandTaken, ExitCommandTaken, SlotsAgree, BindingsOk, DeadlinesRefer, OneLiveDeadline,
         GenerationsOk, EndedStayPut, SessionsOk, BindingsStand, DeadlinesGrow, GenerationsGrow;
    TakenStaysTaken(t, t', c.id);
  }

  lemma StillObstructed(t: Tables, t': Tables, row: Row, row': Row)
    requires row.command.payload.Payload? && row' == row.(nextAttemptAt := row'.nextAttemptAt)
    requires StandsOn(t, t', row.command.slot) && Obstructed(t, row)
    ensures Obstructed(t', row')
  {
    hide StandsOn, Breaks, Collides, TopologyDiffers, IntrusionThrows, CorrelationThrows, DeadlineThrows;
    match row.command.kind
    case HallObservation => StillBreaks(t, t', row.command);
    case CameraObservation =>
      IntrusionStillThrows(t, t', row.command);
      StillCollides(t, t', row, row');
    case ExitDeadline => DeadlineStillThrows(t, t', row.command);
  }

  // ----- one call -----

  /**
   Trying the command does nothing as long as its sensor's cursor does not refuse it; then it is settled without
   effect.
   */
  lemma TryingChangesNothing(t: Tables, id: string)
    requires Sound(t) && TracksUnique(t.bindings) && Blocked(t, id)
    ensures var a := Apply(t, id);
            && a.t.(inbox := t.inbox) == t && !HasEffect(a.out.code)
            && (if Refused(t, t.inbox[id]) then id in a.t.inbox && !IsPending(a.t.inbox[id])
                else a.t == t && a.out.code.RetryableFailure?)
  {
    hide Sound, Reduce, Obstructed, Refused, IsHead, TracksUnique, FinishedRow;
    DomainOf(t);
    ThrowsExactlyWhen(t, t.inbox[id]);
    if Refused(t, t.inbox[id]) { RefusedChangesNothing(t, t.inbox[id]); }
    SettledUnlessThrown(t, id);
  }

  lemma RefusedChangesNothing(t: Tables, row: Row)
    requires row.command.payload.Payload? && Refused(t, row)
    ensures Reduce(t, row).Invalid? ||
            (Reduce(t, row).Done? && Reduce(t, row).t == t && Reduce(t, row).out.code.NoChange?)
  {
    hide S.Accepts;
  }

  lemma CanceledIsSettled(t: Tables, e: Event, id: string)
    requires Cancels(t, e, id)
    ensures id in Step(t, e).inbox && !IsPending(Step(t, e).inbox[id])
  {
    hide FindIdentity, SameSourceFact, S.Evaluate, PendingIds, FirstConfirmation;
    FirstIsConfirmation(t.inbox, e.command.slot);
  }

  lemma StillBlocked(t: Tables, t': Tables, id: string)
    requires Blocked(t, id) && StillFirst(t.inbox, t'.inbox, id) && StandsOn(t, t', t.inbox[id].command.slot)
    ensures Blocked(t', id) && t'.inbox[id].command == t.inbox[id].command
  {
    hide StandsOn, Obstructed, IsHead;
    StillFirstHere(t.inbox, t'.inbox, id);
    StillFirstIsHead(t.inbox, t'.inbox, id);
    hide StillFirst;
    StillObstructed(t, t', t.inbox[id], t'.inbox[id]);
  }

  lemma StillFirstHere(inbox: map<string, Row>, inbox': map<string, Row>, id: string)
    requires id in inbox && StillFirst(inbox, inbox', id)
    ensures id in inbox' && inbox'[id] == inbox[id].(nextAttemptAt := inbox'[id].nextAttemptAt)
  {
  }

  /**
   Whatever the call, the slot stands and has no effect; and the command stays blocked exactly unless the call frees
   it.
   */
  lemma BlockedStep(t: Tables, e: Event, id: string)
    requires Sound(t) && TracksUnique(t.bindings) && Listed(t, e) && Blocked(t, id)
    ensures SlotStands(t, Step(t, e), t.inbox[id].command.slot)
    ensures e.ApplyCall? ==> AppliedEffect(t, e.id, t.inbox[id].command.slot) == []
    ensures Blocked(Step(t, e), id) <==> !Frees(t, e, id)
    ensures Blocked(Step(t, e), id) ==> Step(t, e).inbox[id].command == t.inbox[id].command
  {
    hide Sound, FindActive, Apply, StillFirst, Listed, Obstructed, SlotStands, IsHead, Admit, AdmitDue, Attach,
         Progresses, TracksUnique, Refused, DomainOk;
    var slot := t.inbox[id].command.slot;
    StepKeeps(t, e);
    if e.ApplyCall? && e.id == id {
      TryingChangesNothing(t, id);
      SameTablesStand(t, Step(t, e), slot);
    } else {
      if e.ApplyCall? {
        ApplyStillFirst(t, id, e.id);
        ApplyStands(t, e.id, slot);
      } else {
        OtherCallStands(t, e, slot);
        if Cancels(t, e, id) { CanceledIsSettled(t, e, id); } else { OtherCallStillFirst(t, e, id); }
      }
      if !Frees(t, e, id) {
        DomainOf(t);
        DomainOf(Step(t, e));
        StillBlocked(t, Step(t, e), id);
      }
    }
  }

  // ----- for as long as nothing frees it -----

  ghost predicate BlockedSince(base: Run, run: Run, id: string) {
    Blocked(Final(run), id) && (run == base || (run.Then? && BlockedSince(base, run.prior, id)))
  }

  ghost predicate NeverFreed(base: Run, run: Run, id: string) {
    run == base || (run.Then? && !Frees(Final(run.prior), run.event, id) && NeverFreed(base, run.prior, id))
  }

  /**
   A command that is blocked once stays blocked exactly as long as nothing frees it; all that while the slot's camera
   row, open session, deadlines and bindings stand, and the slot starts and ends no session.
   */
  lemma {:induction false} BlockedExactlyUntilFreed(base: Run, run: Run, id: string)
    requires Valid(run) && Continues(base, run) && Blocked(Final(base), id)
    ensures BlockedSince(base, run, id) <==> NeverFreed(base, run, id)
    ensures NeverFreed(base, run, id) ==>
              && Blocked(Final(run), id) && Final(run).inbox[id].command == Final(base).inbox[id].command
              && SlotStands(Final(base), Final(run), Final(base).inbox[id].command.slot)
              && Effects(run, Final(base).inbox[id].command.slot) == Effects(base, Final(base).inbox[id].command.slot)
  {
    hide Sound, Step, Listed, Apply, Blocked, SlotStands, AppliedEffect, Frees, TracksUnique;
    BlockedIsThere(Final(base), id);
    if run == base {
      StandsStill(Final(base), Final(base).inbox[id].command.slot);
    } else {
      BlockedExactlyUntilFreed(base, run.prior, id);
      if NeverFreed(base, run.prior, id) {
        ReachableIsSound(run.prior);
        TracksAreUnique(run.prior);
        BlockedStep(Final(run.prior), run.event, id);
        StandsThenStands(base, run, id);
        if Blocked(Final(run), id) { BlockedIsThere(Final(run), id); }
      }
    }
  }

  lemma StandsThenStands(base: Run, run: Run, id: string)
    requires run.Then? && id in Final(base).inbox
    requires SlotStands(Final(base), Final(run.prior), Final(base).inbox[id].command.slot)
    requires SlotStands(Final(run.prior), Final(run), Final(base).inbox[id].command.slot)
    ensures SlotStands(Final(base), Final(run), Final(base).inbox[id].command.slot)
  {
    hide SlotStands, Step;
    StandsTwice(Final(base), Final(run.prior), Final(run), Final(base).inbox[id].command.slot);
  }

  lemma BlockedIsThere(t: Tables, id: string)
    requires Blocked(t, id)
    ensures id in t.inbox
  {
  }

  lemma OnlyHallIsFreed(t: Tables, e: Event, id: string)
    requires id in t.inbox && !t.inbox[id].command.kind.HallObservation?
    ensures !Frees(t, e, id)
  {
    hide FirstConfirmation, Admit;
    if e.AdmitCall? { FirstIsConfirmation(t.inbox, e.command.slot); }
  }

  /** Nothing ever frees a camera or deadline command: once blocked, it is blocked in every continuation. */
  lemma {:induction false} BlockedForEver(base: Run, run: Run, id: string)
    requires Valid(run) && Continues(base, run) && Blocked(Final(base), id)
    requires !Final(base).inbox[id].command.kind.HallObservation?
    ensures NeverFreed(base, run, id) && Blocked(Final(run), id)
    ensures Final(run).inbox[id].command == Final(base).inbox[id].command
    ensures Apply(Final(run), id).t == Final(run) && Apply(Final(run), id).out.code.RetryableFailure?
    ensures SlotStands(Final(base), Final(run), Final(base).inbox[id].command.slot)
    ensures Effects(run, Final(base).inbox[id].command.slot) == Effects(base, Final(base).inbox[id].command.slot)
  {
    hide Sound, Step, Listed, Apply, Blocked, SlotStands, AppliedEffect, Frees, TracksUnique;
    BlockedIsThere(Final(base), id);
    if run != base {
      BlockedForEver(base, run.prior, id);
      BlockedIsThere(Final(run.prior), id);
      OnlyHallIsFreed(Final(run.prior), run.event, id);
    }
    BlockedExactlyUntilFreed(base, run, id);
    ReachableIsSound(run);
    TracksAreUnique(run);
    TryingChangesNothing(Final(run), id);
    BlockedIsThere(Final(run), id);
  }

  /** Meanwhile no later command of the slot can be applied: the store lists only the blocked one. */
  lemma NothingElseIsListed(run: Run, id: string, k: string)
    requires Valid(run) && Blocked(Final(run), id)
    requires WaitsIn(Final(run).inbox, Final(run).inbox[id].command.slot, k) && Listed(Final(run), ApplyCall(k))
    ensures k == id
  {
    hide DomainOk, ImagesOk, Valid, Final, Obstructed;
    ReachableIsSound(run);
  }
}
