/**
 Whole runs of the occupancy store: any interleaving of store calls, with the actor's one discipline that
 it applies only commands, and completes only effects, that the store listed.
 */
module OccupancyRun {
  import opened Option
  import opened OccupancyTables
  import opened OccupancyInvariant
  import opened OccupancyReducers
  import opened ParkingCorrelation
  import S = SensorSequence

  datatype Event =
    | AdmitCall(command: Command, capacity: nat, clock: int)
    | AdmitDueCall(now: int, capacity: nat, blocked: set<string>, clock: int)
    | ApplyCall(id: string)
    | DeferCall(id: string, next: int)
    | CompleteCall(id: string)
    | DeferEffectCall(id: string, next: int)
    | PurgeCall(before: int, limit: nat)
    | ViolationCall(session: nat)
    | AttachCall(lease: Lease, evidence: Evidence, now: int)

  ghost function Step(t: Tables, e: Event): Tables {
    match e
    case AdmitCall(c, capacity, clock) => Admit(t, c, capacity, clock).t
    case AdmitDueCall(now, capacity, blocked, clock) => AdmitDue(t, now, capacity, blocked, clock)
    case ApplyCall(id) => Apply(t, id).t
    case DeferCall(id, next) => Defer(t, id, next)
    case CompleteCall(id) => CompleteEffect(t, id)
    case DeferEffectCall(id, next) => DeferEffect(t, id, next)
    case PurgeCall(before, limit) => Purge(t, before, limit)
    case ViolationCall(session) => MarkViolation(t, session)
    case AttachCall(lease, evidence, now) => Attach(t, lease, evidence, now).t
  }

  /** A pending command is applied only as the head of its slot; likewise an owed effect is completed. */
  ghost predicate Listed(t: Tables, e: Event) {
    && (e.ApplyCall? && e.id in t.inbox && IsPending(t.inbox[e.id]) ==> IsHead(t.inbox, e.id))
    && (e.CompleteCall? && e.id in t.inbox && OwesEffect(t.inbox[e.id]) ==> IsEffectHead(t.inbox, e.id))
  }

  /** Tables as migration leaves them: sessions and slots agree, and the protocol has not yet run. */
  ghost predicate Initial(t: Tables) {
    && SessionsOk(t.sessions, t.nextSession) && SlotsAgree(t.slots, t.sessions)
    && t.inbox == map[] && t.deadlines == map[] && t.iva == map[] && t.cursors == map[] && t.bindings == map[]
    && t.images == map[]
  }

  datatype Run = Start(tables: Tables) | Then(prior: Run, event: Event)

  ghost function Final(run: Run): Tables {
    match run
    case Start(t) => t
    case Then(prior, e) => Step(Final(prior), e)
  }

  function Origin(run: Run): Tables {
    match run
    case Start(t) => t
    case Then(prior, _) => Origin(prior)
  }

  ghost predicate Valid(run: Run) {
    match run
    case Start(t) => Initial(t)
    case Then(prior, e) => Valid(prior) && Listed(Final(prior), e)
  }

  /** `run` continues `base`. */
  ghost predicate Continues(base: Run, run: Run) {
    run == base || (run.Then? && Continues(base, run.prior))
  }

  // ----- each call keeps the domain -----

  ghost predicate Sound(t: Tables) {
    DomainOk(t) && InboxOk(t.inbox) && ImagesOk(t.images, t.nextImage)
  }

  /** What no call ever undoes. */
  ghost predicate Progresses(t: Tables, t': Tables) {
    && t'.slots.Keys == t.slots.Keys && t.nextSession <= t'.nextSession
    && EndedStayPut(t.sessions, t'.sessions)
    && DeadlinesGrow(t.deadlines, t'.deadlines)
    && GenerationsGrow(t.iva, t'.iva)
    && forall i :: i in t.images ==> i in t'.images && t'.images[i] == t.images[i]
  }

  /** Only the inbox differs. */
  ghost predicate InboxOnly(t: Tables, t': Tables) {
    t' == t.(inbox := t'.inbox)
  }

  // ----- applying -----

  lemma RowIsOk(inbox: map<string, Row>, id: string)
    requires InboxOk(inbox) && id in inbox
    ensures RowOk(inbox[id]) && inbox[id].command.id == id
  {
  }

  lemma FinishKeeps(inbox: map<string, Row>, id: string, out: Outcome)
    requires InboxOk(inbox) && id in inbox && IsHead(inbox, id) && inbox[id].command.payload.Payload?
    requires HasEffect(out.code) ==> out.session.Some?
    ensures InboxOk(inbox[id := FinishedRow(inbox[id], out)])
  {
    hide InboxOk, IsHead;
    RowIsOk(inbox, id);
    SetRowKeeps(inbox, id, FinishedRow(inbox[id], out));
  }

  lemma RejectKeeps(inbox: map<string, Row>, id: string)
    requires InboxOk(inbox) && id in inbox && (IsPending(inbox[id]) || inbox[id].status.RejectedInvalid?)
    ensures InboxOk(inbox[id := RejectedRow(inbox[id])])
  {
    hide InboxOk, IsHead;
    RowIsOk(inbox, id);
    SetRowKeeps(inbox, id, RejectedRow(inbox[id]));
  }

  /** The row is pending and its payload could be read: the application runs a reducer. */
  predicate Reduces(t: Tables, id: string) {
    id in t.inbox && IsPending(t.inbox[id]) && t.inbox[id].command.payload.Payload?
  }

  ghost predicate ApplyMoves(t: Tables, t': Tables, id: string, out: Outcome) {
    && (Reduces(t, id) && !out.code.RetryableFailure? && !out.code.RejectedInvalidTimestamp? ==>
          ActiveMoves(t, t', t.inbox[id].command.slot, out))
    && (!Reduces(t, id) || !HasEffect(out.code) ==>
          t'.nextSession == t.nextSession && forall slot :: FindActive(t', slot) == FindActive(t, slot))
    && (Reduces(t, id) ==>
          forall other :: other != t.inbox[id].command.slot ==> FindActive(t', other) == FindActive(t, other))
  }

  /** A reduction followed by its settled inbox row. */
  lemma ReducedKeeps(t: Tables, t1: Tables, id: string, out: Outcome)
    requires Sound(t) && Reduces(t, id) && IsHead(t.inbox, id)
    requires DomainOk(t1) && Moves(t, t1, t.inbox[id].command.slot, out) && (HasEffect(out.code) ==> out.session.Some?)
    ensures var t' := SetRow(t1, id, FinishedRow(t.inbox[id], out));
            Sound(t') && Progresses(t, t') && ApplyMoves(t, t', id, out)
  {
    hide DomainOk, InboxOk, ImagesOk, IsHead, LatestOpen, FindActive, EndedStayPut, DeadlinesGrow, GenerationsGrow;
    var t' := SetRow(t1, id, FinishedRow(t.inbox[id], out));
    FinishKeeps(t.inbox, id, out);
    InboxPlaysNoPart(t1, t');
  }

  lemma RejectedKeeps(t: Tables, id: string, out: Outcome)
    requires Sound(t) && id in t.inbox && (IsPending(t.inbox[id]) || t.inbox[id].status.RejectedInvalid?)
    requires !HasEffect(out.code) && (out.code.RetryableFailure? || out.code.RejectedInvalidTimestamp?)
    ensures var t' := SetRow(t, id, RejectedRow(t.inbox[id]));
            Sound(t') && Progresses(t, t') && ApplyMoves(t, t', id, out)
  {
    hide DomainOk, InboxOk, ImagesOk, LatestOpen, FindActive, EndedStayPut, DeadlinesGrow, GenerationsGrow;
    RejectKeeps(t.inbox, id);
    NothingProgresses(t);
    InboxPlaysNoPart(t, SetRow(t, id, RejectedRow(t.inbox[id])));
  }

  lemma ApplyKeeps(t: Tables, id: string)
    requires Sound(t) && Listed(t, ApplyCall(id))
    ensures Sound(Apply(t, id).t) && Progresses(t, Apply(t, id).t)
    ensures ApplyMoves(t, Apply(t, id).t, id, Apply(t, id).out)
  {
    NothingProgresses(t);
    if id != "" && id in t.inbox {
      RowIsOk(t.inbox, id);
      var row := t.inbox[id];
      hide DomainOk, InboxOk, ImagesOk, Reduce, IsHead, FindActive, Progresses, Sound, Kept, Moves, SetRow, FinishedRow;
      if Reduces(t, id) && Reduce(t, row).Done? {
        var r := Reduce(t, row);
        DomainOf(t);
        ReduceKeeps(t, row);
        OutcomeHasSession(t, r, row.command.slot);
        KeptSays(t, r, row.command.slot);
        ReducedKeeps(t, r.t, id, r.out);
      } else if !row.command.payload.Payload? || (Reduces(t, id) && Reduce(t, row).Invalid?) {
        RejectedKeeps(t, id, Apply(t, id).out);
      }
    }
  }

  lemma DomainOf(t: Tables)
    requires Sound(t)
    ensures DomainOk(t)
  {
  }

  lemma InboxOf(t: Tables)
    requires Sound(t)
    ensures InboxOk(t.inbox)
  {
  }

  lemma ImagesOf(t: Tables)
    requires Sound(t)
    ensures ImagesOk(t.images, t.nextImage)
  {
  }

  lemma KeptSays(t: Tables, r: Reduction, slot: string)
    requires Kept(t, r, slot) && r.Done?
    ensures DomainOk(r.t) && Moves(t, r.t, slot, r.out)
  {
  }

  lemma NothingProgresses(t: Tables)
    ensures Progresses(t, t)
  {
  }

  lemma OutcomeHasSession(t: Tables, r: Reduction, slot: string)
    requires Kept(t, r, slot) && r.Done?
    ensures HasEffect(r.out.code) ==> r.out.session.Some?
  {
  }

  lemma InboxPlaysNoPart(t: Tables, t': Tables)
    requires DomainOk(t) && InboxOnly(t, t')
    ensures DomainOk(t') && forall slot :: FindActive(t', slot) == FindActive(t, slot)
  {
    hide SessionsOk, SlotsAgree, BindingsOk, DeadlinesRefer, OneLiveDeadline, GenerationsOk;
    SameSessionsSameActive(t, t');
  }

  predicate InboxUnmoved(t: Tables, t': Tables) { t'.inbox == t.inbox }

  ghost predicate InboxFinishes(t: Tables, t': Tables, id: string, out: Outcome) {
    Reduces(t, id) && t'.inbox == t.inbox[id := FinishedRow(t.inbox[id], out)]
  }

  ghost predicate InboxRejects(t: Tables, t': Tables, id: string) {
    id in t.inbox && (IsPending(t.inbox[id]) || t.inbox[id].status.RejectedInvalid?) &&
    t'.inbox == t.inbox[id := RejectedRow(t.inbox[id])]
  }

  /** An application settles at most its own row, and only a finished one can produce an effect. */
  lemma ApplySettlesOwnRow(t: Tables, id: string)
    requires Sound(t)
    ensures var a := Apply(t, id);
            && (InboxUnmoved(t, a.t) || InboxFinishes(t, a.t, id, a.out) || InboxRejects(t, a.t, id))
            && (Reduces(t, id) && HasEffect(a.out.code) ==> InboxFinishes(t, a.t, id, a.out) && a.out.session.Some?)
  {
    hide Reduce, InboxOk, DomainOk, ImagesOk, FinishedRow;
    if id != "" && id in t.inbox {
      RowIsOk(t.inbox, id);
      if Reduces(t, id) && Reduce(t, t.inbox[id]).Done? { ReductionSettles(t, t.inbox[id]); }
    }
  }

  lemma ReductionSettles(t: Tables, row: Row)
    requires Sound(t) && row.command.payload.Payload? && Reduce(t, row).Done?
    ensures Reduce(t, row).t.inbox == t.inbox
    ensures HasEffect(Reduce(t, row).out.code) ==> Reduce(t, row).out.session.Some?
  {
    hide DomainOk, InboxOk, ImagesOk, Reduce, Moves, Kept;
    var r := Reduce(t, row);
    ReduceKeeps(t, row);
    OutcomeHasSession(t, r, row.command.slot);
    KeptSays(t, r, row.command.slot);
    MovesKeepsInbox(t, r.t, row.command.slot, r.out);
  }

  lemma MovesKeepsInbox(t: Tables, t': Tables, slot: string, out: Outcome)
    requires Moves(t, t', slot, out)
    ensures t'.inbox == t.inbox
  {
  }

  // ----- the other calls: no session opens or closes -----

  ghost predicate Quiet(t: Tables, t': Tables) {
    && Sound(t') && Progresses(t, t') && t'.nextSession == t.nextSession
    && forall slot :: FindActive(t', slot) == FindActive(t, slot)
  }

  lemma InboxOnlyIsQuiet(t: Tables, t': Tables)
    requires Sound(t) && InboxOnly(t, t') && InboxOk(t'.inbox)
    ensures Quiet(t, t')
  {
    hide DomainOk, InboxOk, ImagesOk, FindActive, Progresses;
    InboxPlaysNoPart(t, t');
    InboxOnlyProgresses(t, t');
  }

  lemma InboxOnlyProgresses(t: Tables, t': Tables)
    requires InboxOnly(t, t')
    ensures Progresses(t, t')
  {
  }

  /** A slot with a waiting confirmation has a first one. */
  lemma FirstConfirmationFound(inbox: map<string, Row>, slot: string, id: string)
    requires InboxOk(inbox) && id in inbox && IsConfirmation(inbox[id], slot)
    ensures FirstConfirmation(inbox, slot) == Some(id)
  {
    assert IsFirstConfirmation(inbox, slot, id);
  }

  /** What the insert needs to know of the inbox it extends. */
  ghost predicate MayInsert(inbox: map<string, Row>, c: Command) {
    && c.id != "" && (c.payload.Payload? || c.kind.ExitDeadline?) && (c.kind.HallObservation? ==> c.sensor != "")
    && (forall k :: k in inbox ==> !SameIdentity(inbox[k], c.kind, c.identity))
    && (c.kind.HallObservation? && c.payload.hallState.HallOccupied? ==>
          forall k :: k in inbox ==> !IsConfirmation(inbox[k], c.slot))
  }

  lemma InsertCommandKeeps(t: Tables, prepared: Tables, c: Command, capacity: nat, clock: int)
    requires InboxOk(t.inbox) && InboxOk(prepared.inbox) && InboxOnly(t, prepared) && MayInsert(prepared.inbox, c)
    ensures var a := InsertCommand(t, prepared, c, capacity, clock);
            InboxOnly(t, a.t) && InboxOk(a.t.inbox) && (!a.code.AdmittedNow? ==> a.t == t)
  {
    hide InboxOk;
    var a := InsertCommand(t, prepared, c, capacity, clock);
    if a.code.AdmittedNow? {
      var correlation := if c.kind.CameraObservation? && c.payload.Payload? then c.payload.correlationId else "";
      InsertRowKeeps(prepared.inbox, c.id, NewRow(c, NextOrdinal(prepared.inbox), correlation, clock));
    }
  }

  lemma CancelKeeps(inbox: map<string, Row>, id: string, slot: string)
    requires InboxOk(inbox) && id in inbox && IsConfirmation(inbox[id], slot)
    ensures InboxOk(inbox[id := CanceledRow(inbox[id])])
  {
    hide InboxOk, IsHead;
    RowIsOk(inbox, id);
    SetRowKeeps(inbox, id, CanceledRow(inbox[id]));
  }

  lemma AdmitHallKeeps(t: Tables, c: Command, capacity: nat, clock: int)
    requires InboxOk(t.inbox) && c.id != "" && c.kind.HallObservation?
    requires forall k :: k in t.inbox ==> !SameIdentity(t.inbox[k], c.kind, c.identity)
    ensures var a := AdmitHall(t, c, capacity, clock);
            InboxOnly(t, a.t) && InboxOk(a.t.inbox) && (!a.code.AdmittedNow? ==> a.t == t)
  {
    hide InboxOk, InsertCommand, S.Evaluate, FirstConfirmation, IsConfirmation, MayInsert, CanceledRow, HallFact;
    var waiting := FirstConfirmation(t.inbox, c.slot);
    if c.sensor != "" && c.payload.Payload? && (waiting.None? || !c.payload.hallState.HallOccupied?) {
      HallMayInsert(t.inbox, c);
      InsertCommandKeeps(t, t, c, capacity, clock);
      if waiting.Some? {
        var prepared := SetRow(t, waiting.value, CanceledRow(t.inbox[waiting.value]));
        FirstIsConfirmation(t.inbox, c.slot);
        CancelKeeps(t.inbox, waiting.value, c.slot);
        CanceledMayInsert(t.inbox, waiting.value, c);
        InsertCommandKeeps(t, prepared, c, capacity, clock);
      }
    }
  }

  lemma HallMayInsert(inbox: map<string, Row>, c: Command)
    requires InboxOk(inbox) && c.id != "" && c.sensor != "" && c.payload.Payload?
    requires FirstConfirmation(inbox, c.slot).None? || !c.payload.hallState.HallOccupied?
    requires forall k :: k in inbox ==> !SameIdentity(inbox[k], c.kind, c.identity)
    ensures MayInsert(inbox, c)
  {
    hide InboxOk, FirstConfirmation;
    forall k | k in inbox && IsConfirmation(inbox[k], c.slot) ensures FirstConfirmation(inbox, c.slot) == Some(k) {
      FirstConfirmationFound(inbox, c.slot, k);
    }
  }

  lemma CanceledMayInsert(inbox: map<string, Row>, id: string, c: Command)
    requires id in inbox && MayInsert(inbox, c) && c.payload.Payload? && !c.payload.hallState.HallOccupied?
    ensures MayInsert(inbox[id := CanceledRow(inbox[id])], c)
  {
  }

  lemma FirstIsConfirmation(inbox: map<string, Row>, slot: string)
    ensures var w := FirstConfirmation(inbox, slot);
            w.Some? ==> w.value in inbox && IsConfirmation(inbox[w.value], slot)
  {
  }

  /** Any answer but `AdmittedNow` leaves every table as it was, a prepared cancellation included. */
  lemma AdmitKeeps(t: Tables, c: Command, capacity: nat, clock: int)
    requires InboxOk(t.inbox)
    ensures var a := Admit(t, c, capacity, clock);
            InboxOnly(t, a.t) && InboxOk(a.t.inbox) && (!a.code.AdmittedNow? ==> a.t == t)
  {
    hide InboxOk, AdmitHall, InsertCommand, FindIdentity, SameSourceFact;
    if c.id != "" && FindIdentity(t.inbox, c.kind, c.identity).None? {
      if c.kind.HallObservation? {
        AdmitHallKeeps(t, c, capacity, clock);
      } else if c.payload.Payload? || c.kind.ExitDeadline? {
        InsertCommandKeeps(t, t, c, capacity, clock);
      }
    }
  }

  lemma AdmitDeadlineKeeps(t: Tables, id: string, ordinal: nat, clock: int)
    requires Sound(t) && id in t.deadlines && t.deadlines[id].state.Scheduled?
    requires ordinal > 0 && forall k :: k in t.inbox ==> t.inbox[k].ordinal < ordinal
    ensures var t' := AdmitDeadline(t, id, ordinal, clock);
            Quiet(t, t') && t'.deadlines.Keys == t.deadlines.Keys &&
            (forall k :: k in t'.inbox ==> t'.inbox[k].ordinal < ordinal + 1) &&
            (forall k :: k in t.deadlines && k != id ==> t'.deadlines[k] == t.deadlines[k])
  {
    hide InboxOk, DomainOk, ImagesOk, FindActive, Progresses;
    var t' := AdmitDeadline(t, id, ordinal, clock);
    var t1 := t.(deadlines := t'.deadlines);
    MarkingIsQuiet(t, id, Some(DeadlineCommandId(id)));
    if t'.inbox != t.inbox {
      InsertRowKeeps(t.inbox, DeadlineCommandId(id), DeadlineRow(id, t.deadlines[id], ordinal, clock));
    }
    InboxOnlyIsQuiet(t1, t');
    QuietThenQuiet(t, t1, t');
  }

  lemma QuietThenQuiet(t: Tables, t1: Tables, t2: Tables)
    requires Quiet(t, t1) && Quiet(t1, t2)
    ensures Quiet(t, t2)
  {
    hide DomainOk, InboxOk, ImagesOk, FindActive;
  }

  lemma MarkingIsQuiet(t: Tables, id: string, owner: Option<string>)
    requires Sound(t) && id in t.deadlines && t.deadlines[id].state.Scheduled?
    ensures Quiet(t, t.(deadlines := t.deadlines[id := t.deadlines[id].(state := Admitted, admittedBy := owner)]))
  {
    hide SessionsOk, SlotsAgree, BindingsOk, DeadlinesRefer, OneLiveDeadline, GenerationsOk, InboxOk, ImagesOk,
         LatestOpen;
    var t1 := t.(deadlines := t.deadlines[id := t.deadlines[id].(state := Admitted, admittedBy := owner)]);
    ProgressKeepsDeadlines(t.deadlines, t1.deadlines, t.sessions, t.iva);
    SameSessionsSameActive(t, t1);
  }

  lemma {:induction false} AdmitBatchKeeps(t: Tables, ids: set<string>, room: nat, ordinal: nat, clock: int)
    requires Sound(t) && ids <= t.deadlines.Keys && forall d :: d in ids ==> t.deadlines[d].state.Scheduled?
    requires ordinal > 0 && forall k :: k in t.inbox ==> t.inbox[k].ordinal < ordinal
    ensures Quiet(t, AdmitBatch(t, ids, room, ordinal, clock))
    decreases room
  {
    hide Sound, Progresses, AdmitDeadline, FindActive;
    if room != 0 && ids != {} {
      var d := Earliest(t.deadlines, ids);
      var t1 := AdmitDeadline(t, d, ordinal, clock);
      AdmitDeadlineKeeps(t, d, ordinal, clock);
      AdmitBatchKeeps(t1, ids - {d}, room - 1, ordinal + 1, clock);
      QuietThenQuiet(t, t1, AdmitBatch(t1, ids - {d}, room - 1, ordinal + 1, clock));
    } else {
      NothingIsQuiet(t);
    }
  }

  lemma NothingIsQuiet(t: Tables)
    requires Sound(t)
    ensures Quiet(t, t)
  {
    hide DomainOk, InboxOk, ImagesOk, FindActive;
  }

  lemma ViolationIsQuiet(t: Tables, i: nat)
    requires Sound(t)
    ensures Quiet(t, MarkViolation(t, i))
  {
    hide SessionsOk, SlotsAgree, BindingsOk, DeadlinesRefer, OneLiveDeadline, GenerationsOk, InboxOk, ImagesOk,
         LatestOpen, FindActive;
    NothingIsQuiet(t);
    var t' := MarkViolation(t, i);
    if t' != t {
      var s := t.sessions[i].(status := Violation);
      SessionIsOk(t, i);
      SetSessionKeeps(t, i, s);
      ActiveIsUnique(t, s.slot, i);
      forall slot { SetSessionActive(t, t', i, s, slot); }
      StayPutKeepsDeadlines(t.deadlines, t.sessions, t'.sessions);
      ViolationKeepsRefs(t, i);
    }
  }

  lemma ViolationKeepsRefs(t: Tables, i: nat)
    requires SlotsAgree(t.slots, t.sessions) && BindingsOk(t.bindings, t.sessions) && i in t.sessions
    requires IsOpen(t.sessions[i])
    ensures var sessions := t.sessions[i := t.sessions[i].(status := Violation)];
            SlotsAgree(t.slots, sessions) && BindingsOk(t.bindings, sessions)
  {
    var sessions := t.sessions[i := t.sessions[i].(status := Violation)];
    forall slot | slot in t.slots && t.slots[slot].SlotOccupied?
      ensures exists j :: j in sessions && OpenAt(sessions[j], slot)
    {
      var j :| j in t.sessions && OpenAt(t.sessions[j], slot);
      assert j in sessions && OpenAt(sessions[j], slot);
    }
  }

  lemma AttachIsQuiet(t: Tables, l: Lease, e: Evidence, now: int)
    requires Sound(t)
    ensures Quiet(t, Attach(t, l, e, now).t)
  {
    hide SessionsOk, SlotsAgree, BindingsOk, DeadlinesRefer, OneLiveDeadline, GenerationsOk, InboxOk, ImagesOk,
         LatestOpen, Attach;
    AttachKeepsImages(t, l, e, now);
    SameSessionsSameActive(t, Attach(t, l, e, now).t);
  }

  lemma InboxCallKeeps(t: Tables, e: Event)
    requires Sound(t) && (e.DeferCall? || e.CompleteCall? || e.DeferEffectCall? || e.PurgeCall?)
    ensures Quiet(t, Step(t, e))
  {
    hide InboxOk, DomainOk, ImagesOk, FindActive, Progresses, PurgedIds, Quiet;
    NothingIsQuiet(t);
    match e
    case DeferCall(id, next) =>
      if id in t.inbox && IsPending(t.inbox[id]) {
        RowIsOk(t.inbox, id);
        SetRowKeeps(t.inbox, id, t.inbox[id].(nextAttemptAt := next));
        InboxOnlyIsQuiet(t, Step(t, e));
      }
    case CompleteCall(id) =>
      if id in t.inbox && OwesEffect(t.inbox[id]) {
        RowIsOk(t.inbox, id);
        SetRowKeeps(t.inbox, id, t.inbox[id].(effect := EffectApplied, effectNextAttemptAt := 0));
        InboxOnlyIsQuiet(t, Step(t, e));
      }
    case DeferEffectCall(id, next) =>
      if id in t.inbox && OwesEffect(t.inbox[id]) {
        RowIsOk(t.inbox, id);
        SetRowKeeps(t.inbox, id, t.inbox[id].(effectNextAttemptAt := next));
        InboxOnlyIsQuiet(t, Step(t, e));
      }
    case PurgeCall(before, limit) =>
      RemoveRowsKeeps(t.inbox, PurgedIds(t.inbox, before, limit));
      InboxOnlyIsQuiet(t, Step(t, e));
  }

  /** Every call but an application opens and closes nothing. */
  lemma OtherCallsAreQuiet(t: Tables, e: Event)
    requires Sound(t) && !e.ApplyCall?
    ensures Quiet(t, Step(t, e))
  {
    hide InboxOk, DomainOk, ImagesOk, FindActive, Progresses, PurgedIds, Quiet, Admit, AdmitBatch, MarkViolation,
         Attach, Purge, Defer, CompleteEffect, DeferEffect;
    match e
    case AdmitCall(c, capacity, clock) =>
      AdmitKeeps(t, c, capacity, clock);
      InboxOnlyIsQuiet(t, Step(t, e));
    case AdmitDueCall(now, capacity, blocked, clock) =>
      NothingIsQuiet(t);
      if |PendingIds(t.inbox)| < capacity {
        AdmitBatchKeeps(t, DueIds(t.deadlines, now, blocked), capacity - |PendingIds(t.inbox)|, NextOrdinal(t.inbox),
                        clock);
      }
    case ViolationCall(session) => ViolationIsQuiet(t, session);
    case AttachCall(l, evidence, now) => AttachIsQuiet(t, l, evidence, now);
    case _ => InboxCallKeeps(t, e);
  }

  lemma StepKeeps(t: Tables, e: Event)
    requires Sound(t) && Listed(t, e)
    ensures Sound(Step(t, e)) && Progresses(t, Step(t, e))
  {
    hide Sound, Progresses, Apply, FindActive;
    if e.ApplyCall? { ApplyKeeps(t, e.id); } else { OtherCallsAreQuiet(t, e); }
  }

  /** Every reachable state is sound: slots, sessions, bindings, deadlines, generations, inbox and images. */
  lemma {:induction false} ReachableIsSound(run: Run)
    requires Valid(run)
    ensures Sound(Final(run))
  {
    hide Sound;
    match run
    case Start(t) => InitialIsSound(t);
    case Then(prior, e) =>
      ReachableIsSound(prior);
      StepKeeps(Final(prior), e);
  }

  lemma InitialIsSound(t: Tables)
    requires Initial(t)
    ensures Sound(t)
  {
  }
}
