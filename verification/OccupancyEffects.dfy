/** What a whole run promises about commands and their effects, slot by slot. */
module OccupancyEffects {
  import opened Option
  import opened OccupancyTables
  import opened OccupancyInvariant
  import opened OccupancyReducers
  import opened OccupancyRun
  import opened ParkingCorrelation
  import S = SensorSequence

  // ----- when a session ends -----

  /** A Hall VACANT ends the open session exactly when its fact is fresh, its time is not before the entry,
      and, under HYBRID_OR, Hall has confirmed the session and the camera no longer holds it. */
  lemma HallVacancyEndsExactlyWhen(t: Tables, row: Row)
    requires DomainOk(t) && row.command.payload.Payload? && row.command.payload.protocol.Some?
    requires row.command.payload.hallState.HallVacant?
    ensures var c := row.command;
            var active := FindActive(t, c.slot);
            var r := ReduceHall(t, row);
            r.Done? && r.out.code.SessionEnded? <==>
              && S.Accepts(CursorOf(t.cursors, c.sensor), HallFact(c))
              && active.Some? && t.sessions[active.value].entryMs <= OccurredAt(c)
              && !ExitCommandTaken(t.sessions, c.id)
              && (c.payload.hybridOr ==>
                    t.sessions[active.value].hallConfirmed && !t.sessions[active.value].ivaOccupied)
  {
    hide SlotsAgree, BindingsOk, DeadlinesRefer, OneLiveDeadline, GenerationsOk, LatestOpen, CommitSequence,
         EndBindings, ClearIva, S.Evaluate, SessionsOk;
    var c := row.command;
    ActiveIsOk(t, c.slot);
    ActiveSlotExists(t, c.slot);
    if FindActive(t, c.slot).Some? {
      var i := FindActive(t, c.slot).value;
      UpdateKeepsExits(t, UpdateHall(t, i, t.sessions[i].hallConfirmed, false), i, c.id);
    }
  }

  lemma ActiveSlotExists(t: Tables, slot: string)
    requires SlotsAgree(t.slots, t.sessions)
    ensures FindActive(t, slot).Some? ==> slot in t.slots
  {
  }

  lemma UpdateKeepsExits(t: Tables, t1: Tables, i: nat, id: string)
    requires i in t.sessions && i in t1.sessions && t1.sessions == t.sessions[i := t1.sessions[i]]
    requires t1.sessions[i].exitCommand == t.sessions[i].exitCommand
    ensures ExitCommandTaken(t1.sessions, id) <==> ExitCommandTaken(t.sessions, id)
  {
    if ExitCommandTaken(t.sessions, id) {
      var j :| j in t.sessions && t.sessions[j].exitCommand == Some(id);
      assert j in t1.sessions && t1.sessions[j].exitCommand == Some(id);
    }
  }

  /** An exit deadline ends the open session exactly when it still owns the slot, Hall does not hold the
      session under HYBRID_OR, and its time is not before the entry. */
  lemma DeadlineEndsExactlyWhen(t: Tables, row: Row)
    requires DomainOk(t) && row.command.payload.Payload?
    ensures var c := row.command;
            var active := FindActive(t, c.slot);
            var r := ReduceDeadline(t, row);
            r.Done? && r.out.code.SessionEnded? <==>
              && DeadlineMatches(t, c) && DeadlineOwns(t, c)
              && t.sessions[active.value].entryMs <= OccurredAt(c)
              && !ExitCommandTaken(t.sessions, c.id)
              && (c.payload.hybridOr ==> !t.sessions[active.value].hallOccupied)
  {
    hide SlotsAgree, BindingsOk, DeadlinesRefer, OneLiveDeadline, GenerationsOk, LatestOpen,
         EndBindings, ClearIva, SessionsOk;
    var c := row.command;
    ActiveIsOk(t, c.slot);
    ActiveSlotExists(t, c.slot);
    if DeadlineOwns(t, c) {
      var i := FindActive(t, c.slot).value;
      UpdateKeepsExits(t, UpdateIva(t, i, t.sessions[i].ivaConfirmed, false), i, c.id);
    }
  }

  lemma CameraEndsNothing(t: Tables, row: Row)
    requires row.command.payload.Payload?
    ensures var r := ReduceCamera(t, row); r.Done? ==> !r.out.code.SessionEnded?
  {
    hide FindActive, CommitCorrelation, IvaBefore, ScheduleExit, PersistIva, UpdateIva, CreateSession, Supersede,
         AllAreasKnown, AnyAreaActive;
  }

  /** Under HYBRID_OR a session ends only when every source but the one reporting vacancy is vacant too. */
  lemma HybridEndsOnlyWhenAllVacant(t: Tables, id: string)
    requires DomainOk(t) && Reduces(t, id) && id != "" && t.inbox[id].command.payload.hybridOr
    requires Apply(t, id).out.code.SessionEnded?
    ensures var c := t.inbox[id].command;
            var active := FindActive(t, c.slot);
            && active.Some?
            && ((c.kind.HallObservation? && c.payload.hallState.HallVacant? && !t.sessions[active.value].ivaOccupied) ||
                (c.kind.ExitDeadline? && !t.sessions[active.value].hallOccupied))
  {
    hide DomainOk, ReduceCamera, ReduceDeadline, HallEnters, HallLeaves, DeadlineOwns;
    var row := t.inbox[id];
    CameraEndsNothing(t, row);
    DeadlineEndsExactlyWhen(t, row);
    if row.command.payload.protocol.Some? { HallEntryEndsNothing(t, row); }
    if row.command.kind.HallObservation? && row.command.payload.protocol.Some? &&
      row.command.payload.hallState.HallVacant? {
      HallVacancyEndsExactlyWhen(t, row);
    }
    if row.command.kind.ExitDeadline? { OwnerIsActive(t, row.command); }
  }

  lemma HallEntryEndsNothing(t: Tables, row: Row)
    requires row.command.payload.Payload? && row.command.payload.protocol.Some?
    ensures HallEnters(t, row).Done? ==> !HallEnters(t, row).out.code.SessionEnded?
  {
  }

  lemma OwnerIsActive(t: Tables, c: Command)
    requires c.payload.Payload?
    ensures DeadlineOwns(t, c) ==> FindActive(t, c.slot).Some?
  {
  }

  // ----- settled commands -----

  /** Applying a command that is already settled changes nothing and answers with the stored code. */
  lemma SettledStaysSettled(t: Tables, id: string)
    requires InboxOk(t.inbox) && id in t.inbox && IsTerminal(t.inbox[id])
    ensures Apply(t, id).t == t
    ensures Some(Apply(t, id).out.code) == t.inbox[id].result
  {
    RowIsOk(t.inbox, id);
    assert t.inbox[id := t.inbox[id]] == t.inbox;
  }

  // ----- effects over a run -----

  datatype Effect = Effect(id: string, code: Code, session: nat)

  /** The effect an application produces for a slot, if any. */
  ghost function AppliedEffect(t: Tables, id: string, slot: string): seq<Effect> {
    var a := Apply(t, id);
    if Reduces(t, id) && t.inbox[id].command.slot == slot && HasEffect(a.out.code) && a.out.session.Some?
    then [Effect(id, a.out.code, a.out.session.value)] else []
  }

  /** A slot's effects in the order in which its commands were applied. */
  ghost function Effects(run: Run, slot: string): seq<Effect> {
    match run
    case Start(_) => []
    case Then(prior, e) =>
      Effects(prior, slot) + if e.ApplyCall? then AppliedEffect(Final(prior), e.id, slot) else []
  }

  /** From `before` open to `after` open: each start finds none open, each end ends the session last started. */
  ghost predicate Alternates(before: Option<nat>, es: seq<Effect>, after: Option<nat>) {
    if es == [] then before == after
    else
      var e := es[|es| - 1];
      if e.code.SessionStarted? then after == Some(e.session) && Alternates(before, es[..|es| - 1], None)
      else e.code.SessionEnded? && after.None? && Alternates(before, es[..|es| - 1], Some(e.session))
  }

  /** The sessions started, each newer than every earlier one. */
  ghost predicate FreshStarts(es: seq<Effect>, from: nat, next: nat) {
    && from <= next
    && (forall i :: 0 <= i < |es| && es[i].code.SessionStarted? ==> from <= es[i].session < next)
    && (forall i, j | 0 <= i < j < |es| ::
          es[i].code.SessionStarted? && es[j].code.SessionStarted? ==> es[i].session < es[j].session)
  }

  /** Over any run a slot's effects alternate start and end of one session after another, each session fresh. */
  lemma {:induction false} EffectsAlternate(run: Run, slot: string)
    requires Valid(run)
    ensures Alternates(FindActive(Origin(run), slot), Effects(run, slot), FindActive(Final(run), slot))
    ensures FreshStarts(Effects(run, slot), Origin(run).nextSession, Final(run).nextSession)
  {
    hide Sound, FindActive, Apply, Progresses;
    match run
    case Start(_) =>
    case Then(prior, e) =>
      var t := Final(prior);
      EffectsAlternate(prior, slot);
      ReachableIsSound(prior);
      if e.ApplyCall? {
        AppliedEffectMoves(t, e.id, slot);
        AppendAlternates(FindActive(Origin(run), slot), Effects(prior, slot), AppliedEffect(t, e.id, slot),
                         FindActive(t, slot), FindActive(Final(run), slot));
        AppendFresh(Effects(prior, slot), AppliedEffect(t, e.id, slot), Origin(run).nextSession, t.nextSession,
                    Final(run).nextSession);
      } else {
        OtherCallsAreQuiet(t, e);
        assert Effects(run, slot) == Effects(prior, slot);
      }
  }

  lemma AppliedEffectMoves(t: Tables, id: string, slot: string)
    requires Sound(t) && Listed(t, ApplyCall(id))
    ensures var t' := Apply(t, id).t;
            && |AppliedEffect(t, id, slot)| <= 1
            && Alternates(FindActive(t, slot), AppliedEffect(t, id, slot), FindActive(t', slot))
            && FreshStarts(AppliedEffect(t, id, slot), t.nextSession, t'.nextSession)
  {
    hide Sound, FindActive, Apply, Progresses;
    ApplyKeeps(t, id);
    var a := Apply(t, id);
    if Reduces(t, id) && HasEffect(a.out.code) && t.inbox[id].command.slot == slot {
      var e := Effect(id, a.out.code, a.out.session.value);
      assert AppliedEffect(t, id, slot) == [e] && [e][..0] == [];
    }
    NextSessionGrows(t, a.t);
  }

  lemma NextSessionGrows(t: Tables, t': Tables)
    requires Progresses(t, t')
    ensures t.nextSession <= t'.nextSession
  {
  }

  lemma AppendAlternates(a: Option<nat>, es: seq<Effect>, more: seq<Effect>, b: Option<nat>, c: Option<nat>)
    requires Alternates(a, es, b) && Alternates(b, more, c) && |more| <= 1
    ensures Alternates(a, es + more, c)
  {
    if more == [] {
      assert es + more == es;
    } else {
      assert more[..0] == [] && (es + more)[..|es|] == es && |es + more| == |es| + 1;
    }
  }

  lemma AppendFresh(es: seq<Effect>, more: seq<Effect>, from: nat, mid: nat, next: nat)
    requires FreshStarts(es, from, mid) && FreshStarts(more, mid, next)
    ensures FreshStarts(es + more, from, next)
  {
  }

  // ----- delivery -----

  /** The effects a run has completed for a slot, in the order of completion. */
  ghost function Delivered(run: Run, slot: string): seq<Effect> {
    match run
    case Start(_) => []
    case Then(prior, e) =>
      var t := Final(prior);
      Delivered(prior, slot) +
      if e.CompleteCall? && e.id in t.inbox && OwesEffect(t.inbox[e.id]) && t.inbox[e.id].command.slot == slot &&
         t.inbox[e.id].result.Some? && t.inbox[e.id].resultSession.Some?
      then [Effect(e.id, t.inbox[e.id].result.value, t.inbox[e.id].resultSession.value)] else []
  }

  predicate OwedAs(inbox: map<string, Row>, slot: string, e: Effect) {
    && e.id in inbox && OwesEffect(inbox[e.id]) && inbox[e.id].command.slot == slot
    && inbox[e.id].result == Some(e.code) && inbox[e.id].resultSession == Some(e.session)
  }

  ghost predicate AllOwed(inbox: map<string, Row>, slot: string, es: seq<Effect>) {
    forall i :: 0 <= i < |es| ==> OwedAs(inbox, slot, es[i])
  }

  ghost predicate InAdmissionOrder(inbox: map<string, Row>, es: seq<Effect>) {
    forall i, j | 0 <= i < j < |es| :: es[i].id in inbox && es[j].id in inbox ==>
      inbox[es[i].id].ordinal < inbox[es[j].id].ordinal
  }

  ghost predicate NoneMissing(inbox: map<string, Row>, slot: string, es: seq<Effect>) {
    forall id :: id in inbox && OwesEffect(inbox[id]) && inbox[id].command.slot == slot ==>
      exists i :: 0 <= i < |es| && es[i].id == id
  }

  /** The list names exactly the rows of the slot that owe an effect, in admission order. */
  ghost predicate ListsOwed(inbox: map<string, Row>, slot: string, es: seq<Effect>) {
    AllOwed(inbox, slot, es) && InAdmissionOrder(inbox, es) && NoneMissing(inbox, slot, es)
  }

  /** What a row owes, the time of its next attempt aside. */
  function Debt(inbox: map<string, Row>, id: string): Option<Row> {
    if id in inbox && OwesEffect(inbox[id]) then Some(inbox[id].(effectNextAttemptAt := 0)) else None
  }

  ghost predicate SameDebts(inbox: map<string, Row>, inbox': map<string, Row>) {
    forall id :: Debt(inbox', id) == Debt(inbox, id)
  }

  lemma SameDebtsKeep(inbox: map<string, Row>, inbox': map<string, Row>, slot: string, es: seq<Effect>)
    requires ListsOwed(inbox, slot, es) && SameDebts(inbox, inbox')
    ensures ListsOwed(inbox', slot, es)
  {
    forall i | 0 <= i < |es|
      ensures OwedAs(inbox', slot, es[i]) && inbox'[es[i].id].ordinal == inbox[es[i].id].ordinal
    {
      assert OwedAs(inbox, slot, es[i]) && Debt(inbox', es[i].id) == Debt(inbox, es[i].id);
    }
    forall id | id in inbox' && OwesEffect(inbox'[id]) && inbox'[id].command.slot == slot
      ensures id in inbox && OwesEffect(inbox[id]) && inbox[id].command.slot == slot
    {
      assert Debt(inbox', id) == Debt(inbox, id);
    }
  }

  lemma SetRowSameDebts(inbox: map<string, Row>, id: string, r: Row)
    requires id in inbox && !OwesEffect(inbox[id]) && !OwesEffect(r)
    ensures SameDebts(inbox, inbox[id := r])
  {
  }

  lemma NewRowSameDebts(inbox: map<string, Row>, id: string, r: Row)
    requires id !in inbox && !OwesEffect(r)
    ensures SameDebts(inbox, inbox[id := r])
  {
  }

  lemma SameDebtsTrans(a: map<string, Row>, b: map<string, Row>, c: map<string, Row>)
    requires SameDebts(a, b) && SameDebts(b, c)
    ensures SameDebts(a, c)
  {
  }

  lemma NothingSameDebts(inbox: map<string, Row>)
    ensures SameDebts(inbox, inbox)
  {
  }

  lemma InsertSameDebts(t: Tables, prepared: Tables, c: Command, capacity: nat, clock: int)
    requires SameDebts(t.inbox, prepared.inbox)
    ensures SameDebts(t.inbox, InsertCommand(t, prepared, c, capacity, clock).t.inbox)
  {
    hide SameDebts;
    NothingSameDebts(t.inbox);
    var a := InsertCommand(t, prepared, c, capacity, clock);
    if a.code.AdmittedNow? {
      var correlation := if c.kind.CameraObservation? && c.payload.Payload? then c.payload.correlationId else "";
      var r := NewRow(c, NextOrdinal(prepared.inbox), correlation, clock);
      NewRowSameDebts(prepared.inbox, c.id, r);
      SameDebtsTrans(t.inbox, prepared.inbox, prepared.inbox[c.id := r]);
    }
  }

  lemma AdmitSameDebts(t: Tables, c: Command, capacity: nat, clock: int)
    requires InboxOk(t.inbox)
    ensures SameDebts(t.inbox, Admit(t, c, capacity, clock).t.inbox)
  {
    hide InboxOk, SameDebts, InsertCommand, FindIdentity, SameSourceFact, S.Evaluate, FirstConfirmation;
    NothingSameDebts(t.inbox);
    InsertSameDebts(t, t, c, capacity, clock);
    var w := FirstConfirmation(t.inbox, c.slot);
    FirstIsConfirmation(t.inbox, c.slot);
    if w.Some? {
      RowIsOk(t.inbox, w.value);
      SetRowSameDebts(t.inbox, w.value, CanceledRow(t.inbox[w.value]));
      InsertSameDebts(t, SetRow(t, w.value, CanceledRow(t.inbox[w.value])), c, capacity, clock);
    }
  }

  lemma {:induction false} AdmitBatchSameDebts(t: Tables, ids: set<string>, room: nat, ordinal: nat, clock: int)
    requires ids <= t.deadlines.Keys
    ensures SameDebts(t.inbox, AdmitBatch(t, ids, room, ordinal, clock).inbox)
    decreases room
  {
    hide SameDebts;
    NothingSameDebts(t.inbox);
    if room != 0 && ids != {} {
      var d := Earliest(t.deadlines, ids);
      var t1 := AdmitDeadline(t, d, ordinal, clock);
      if t1.inbox != t.inbox {
        NewRowSameDebts(t.inbox, DeadlineCommandId(d), DeadlineRow(d, t.deadlines[d], ordinal, clock));
      }
      AdmitBatchSameDebts(t1, ids - {d}, room - 1, ordinal + 1, clock);
      SameDebtsTrans(t.inbox, t1.inbox, AdmitBatch(t1, ids - {d}, room - 1, ordinal + 1, clock).inbox);
    }
  }

  /** Only applying and completing move what is owed. */
  lemma OtherCallsSameDebts(t: Tables, e: Event)
    requires Sound(t) && !e.ApplyCall? && !e.CompleteCall?
    ensures SameDebts(t.inbox, Step(t, e).inbox)
  {
    hide SameDebts, Admit, AdmitBatch, InboxOk, Attach, DomainOk, PurgedIds, MarkViolation;
    NothingSameDebts(t.inbox);
    match e
    case AdmitCall(c, capacity, clock) => AdmitSameDebts(t, c, capacity, clock);
    case AdmitDueCall(now, capacity, blocked, clock) =>
      if |PendingIds(t.inbox)| < capacity {
        AdmitBatchSameDebts(t, DueIds(t.deadlines, now, blocked), capacity - |PendingIds(t.inbox)|,
                            NextOrdinal(t.inbox), clock);
      }
    case DeferCall(id, next) =>
      if id in t.inbox && IsPending(t.inbox[id]) {
        RowIsOk(t.inbox, id);
        SetRowSameDebts(t.inbox, id, t.inbox[id].(nextAttemptAt := next));
      }
    case DeferEffectCall(id, next) => DeferredSameDebts(t, id, next);
    case PurgeCall(before, limit) => PurgedSameDebts(t, before, limit);
    case ViolationCall(session) => ViolationInbox(t, session);
    case AttachCall(l, evidence, now) => AttachKeepsImages(t, l, evidence, now);
  }

  lemma ViolationInbox(t: Tables, session: nat)
    ensures MarkViolation(t, session).inbox == t.inbox
  {
  }

  lemma DeferredSameDebts(t: Tables, id: string, next: int)
    ensures SameDebts(t.inbox, DeferEffect(t, id, next).inbox)
  {
  }

  /** Retention never removes a row that still owes an effect. */
  lemma PurgedSameDebts(t: Tables, before: int, limit: nat)
    ensures SameDebts(t.inbox, Purge(t, before, limit).inbox)
  {
    forall id | id in PurgedIds(t.inbox, before, limit) ensures id in t.inbox && !OwesEffect(t.inbox[id]) {
      PurgedIsSettled(t.inbox, before, limit, id);
    }
    hide PurgedIds;
  }

  lemma PurgedIsSettled(inbox: map<string, Row>, before: int, limit: nat, id: string)
    requires id in PurgedIds(inbox, before, limit)
    ensures id in inbox && IsSettled(inbox[id], before)
  {
    assert id in SettledIds(inbox, before);
  }

  /** An application appends its effect to what is owed, behind everything already owed. */
  lemma ApplyLists(t: Tables, id: string, slot: string, es: seq<Effect>)
    requires Sound(t) && Listed(t, ApplyCall(id)) && ListsOwed(t.inbox, slot, es)
    ensures ListsOwed(Apply(t, id).t.inbox, slot, es + AppliedEffect(t, id, slot))
  {
    hide DomainOk, Apply, ImagesOk, ListsOwed, SameDebts, FinishedRow, IsHead, InboxOk, RejectedRow;
    var a := Apply(t, id);
    ApplySettlesOwnRow(t, id);
    var more := AppliedEffect(t, id, slot);
    NothingSameDebts(t.inbox);
    if id in t.inbox { RowIsOk(t.inbox, id); }
    if InboxFinishes(t, a.t, id, a.out) && HasEffect(a.out.code) {
      FinishLists(t.inbox, id, a.out, slot, es);
    } else {
      assert more == [] && es + more == es;
      if InboxFinishes(t, a.t, id, a.out) {
        FinishedOwesNothing(t.inbox[id], a.out);
        SetRowSameDebts(t.inbox, id, FinishedRow(t.inbox[id], a.out));
      }
      if InboxRejects(t, a.t, id) {
        RejectedOwesNothing(t.inbox[id]);
        SetRowSameDebts(t.inbox, id, RejectedRow(t.inbox[id]));
      }
      SameDebtsKeep(t.inbox, a.t.inbox, slot, es);
    }
  }

  lemma FinishedOwesNothing(row: Row, out: Outcome)
    requires !HasEffect(out.code)
    ensures !OwesEffect(FinishedRow(row, out))
  {
  }

  lemma RejectedOwesNothing(row: Row)
    ensures !OwesEffect(RejectedRow(row))
  {
  }

  lemma FinishLists(inbox: map<string, Row>, id: string, out: Outcome, slot: string, es: seq<Effect>)
    requires InboxOk(inbox) && id in inbox && IsHead(inbox, id) && HasEffect(out.code) && out.session.Some?
    requires ListsOwed(inbox, slot, es)
    ensures var inbox' := inbox[id := FinishedRow(inbox[id], out)];
            var more := if inbox[id].command.slot == slot then [Effect(id, out.code, out.session.value)] else [];
            ListsOwed(inbox', slot, es + more)
  {
    var inbox' := inbox[id := FinishedRow(inbox[id], out)];
    var more := if inbox[id].command.slot == slot then [Effect(id, out.code, out.session.value)] else [];
    FinishOrder(inbox, id, slot, es);
    hide InboxOk, IsHead;
    FinishOwed(inbox, id, out, slot, es);
    FinishMissesNone(inbox, id, out, slot, es, more);
    hide AllOwed, NoneMissing;
    assert InAdmissionOrder(inbox', es + more);
  }

  lemma FinishOrder(inbox: map<string, Row>, id: string, slot: string, es: seq<Effect>)
    requires EffectsBeforePending(inbox) && id in inbox && IsPending(inbox[id]) && AllOwed(inbox, slot, es)
    ensures forall i :: 0 <= i < |es| ==>
              es[i].id != id && es[i].id in inbox &&
              (inbox[id].command.slot == slot ==> inbox[es[i].id].ordinal < inbox[id].ordinal)
  {
    forall i | 0 <= i < |es|
      ensures es[i].id != id && es[i].id in inbox &&
              (inbox[id].command.slot == slot ==> inbox[es[i].id].ordinal < inbox[id].ordinal)
    {
      assert OwedAs(inbox, slot, es[i]);
    }
  }

  lemma FinishOwed(inbox: map<string, Row>, id: string, out: Outcome, slot: string, es: seq<Effect>)
    requires id in inbox && HasEffect(out.code) && out.session.Some? && AllOwed(inbox, slot, es)
    requires forall i :: 0 <= i < |es| ==> es[i].id != id
    ensures var more := if inbox[id].command.slot == slot then [Effect(id, out.code, out.session.value)] else [];
            AllOwed(inbox[id := FinishedRow(inbox[id], out)], slot, es + more)
  {
  }

  lemma FinishMissesNone(inbox: map<string, Row>, id: string, out: Outcome, slot: string, es: seq<Effect>,
                         more: seq<Effect>)
    requires id in inbox && NoneMissing(inbox, slot, es)
    requires inbox[id].command.slot == slot ==> |more| == 1 && more[0].id == id
    ensures NoneMissing(inbox[id := FinishedRow(inbox[id], out)], slot, es + more)
  {
    var inbox' := inbox[id := FinishedRow(inbox[id], out)];
    var es' := es + more;
    forall k | k in inbox' && OwesEffect(inbox'[k]) && inbox'[k].command.slot == slot
      ensures exists i :: 0 <= i < |es'| && es'[i].id == k
    {
      if k == id {
        assert es'[|es|].id == id;
      } else {
        var i :| 0 <= i < |es| && es[i].id == k;
        assert es'[i].id == k;
      }
    }
  }

  /** Completing the listed effect takes the first one owed. */
  lemma CompleteLists(inbox: map<string, Row>, id: string, slot: string, es: seq<Effect>)
    requires InboxOk(inbox) && id in inbox && IsEffectHead(inbox, id) && ListsOwed(inbox, slot, es)
    requires inbox[id].command.slot == slot
    ensures |es| > 0 && es[0].id == id && OwedAs(inbox, slot, es[0])
    ensures ListsOwed(inbox[id := inbox[id].(effect := EffectApplied, effectNextAttemptAt := 0)], slot, es[1..])
  {
    EffectHeadIsFirst(inbox, id, slot, es);
    hide InboxOk, IsEffectHead;
    FirstCompletes(inbox, id, slot, es);
  }

  lemma EffectHeadIsFirst(inbox: map<string, Row>, id: string, slot: string, es: seq<Effect>)
    requires id in inbox && IsEffectHead(inbox, id) && ListsOwed(inbox, slot, es) && inbox[id].command.slot == slot
    ensures |es| > 0 && es[0].id == id && OwedAs(inbox, slot, es[0])
  {
    var n :| 0 <= n < |es| && es[n].id == id;
    assert OwedAs(inbox, slot, es[0]);
  }

  lemma FirstCompletes(inbox: map<string, Row>, id: string, slot: string, es: seq<Effect>)
    requires |es| > 0 && es[0].id == id && id in inbox && ListsOwed(inbox, slot, es)
    ensures ListsOwed(inbox[id := inbox[id].(effect := EffectApplied, effectNextAttemptAt := 0)], slot, es[1..])
  {
    var inbox' := inbox[id := inbox[id].(effect := EffectApplied, effectNextAttemptAt := 0)];
    var es' := es[1..];
    forall i | 0 <= i < |es'| ensures OwedAs(inbox', slot, es'[i]) && es'[i].id != id {
      assert OwedAs(inbox, slot, es[i + 1]) && es'[i] == es[i + 1] && OwedAs(inbox, slot, es[0]);
    }
    forall k | k in inbox' && OwesEffect(inbox'[k]) && inbox'[k].command.slot == slot
      ensures exists i :: 0 <= i < |es'| && es'[i].id == k
    {
      var i :| 0 <= i < |es| && es[i].id == k;
      assert es'[i - 1].id == k;
    }
  }

  lemma OtherSlotLists(inbox: map<string, Row>, id: string, slot: string, es: seq<Effect>)
    requires id in inbox && inbox[id].command.slot != slot && ListsOwed(inbox, slot, es)
    ensures ListsOwed(inbox[id := inbox[id].(effect := EffectApplied, effectNextAttemptAt := 0)], slot, es)
  {
  }

  /** The effects a slot has still to deliver. */
  ghost function Undelivered(run: Run, slot: string): seq<Effect> {
    if |Delivered(run, slot)| <= |Effects(run, slot)| then Effects(run, slot)[|Delivered(run, slot)|..] else []
  }

  /** Over any run the completed effects of a slot are a prefix of its effects, and the rest is what the inbox owes. */
  lemma {:induction false} DeliveredIsPrefix(run: Run, slot: string)
    requires Valid(run)
    ensures Effects(run, slot) == Delivered(run, slot) + Undelivered(run, slot)
    ensures ListsOwed(Final(run).inbox, slot, Undelivered(run, slot))
  {
    hide Sound, FindActive, Apply, Progresses, ListsOwed, Admit, AdmitDue, IsEffectHead, AppliedEffect, SameDebts;
    match run
    case Start(t) => EmptyLists(t.inbox, slot);
    case Then(prior, e) =>
      var t := Final(prior);
      var rest := Undelivered(prior, slot);
      DeliveredIsPrefix(prior, slot);
      ReachableIsSound(prior);
      if e.ApplyCall? {
        ApplyLists(t, e.id, slot, rest);
        assert Effects(run, slot) == Delivered(run, slot) + (rest + AppliedEffect(t, e.id, slot));
        assert Undelivered(run, slot) == rest + AppliedEffect(t, e.id, slot);
      } else if e.CompleteCall? {
        CompleteStep(t, e.id, slot, rest);
        if e.id in t.inbox && OwesEffect(t.inbox[e.id]) && t.inbox[e.id].command.slot == slot {
          assert rest == [rest[0]] + rest[1..];
          assert Undelivered(run, slot) == rest[1..];
        } else {
          assert Undelivered(run, slot) == rest;
        }
      } else {
        OtherCallsSameDebts(t, e);
        SameDebtsKeep(t.inbox, Final(run).inbox, slot, rest);
        assert Undelivered(run, slot) == rest;
      }
  }

  lemma CompleteStep(t: Tables, id: string, slot: string, rest: seq<Effect>)
    requires Sound(t) && Listed(t, CompleteCall(id)) && ListsOwed(t.inbox, slot, rest)
    ensures if id in t.inbox && OwesEffect(t.inbox[id]) && t.inbox[id].command.slot == slot
            then |rest| > 0 && rest[0].id == id && OwedAs(t.inbox, slot, rest[0]) &&
                 ListsOwed(CompleteEffect(t, id).inbox, slot, rest[1..])
            else ListsOwed(CompleteEffect(t, id).inbox, slot, rest)
  {
    hide DomainOk, ImagesOk, ListsOwed, InboxOk, IsEffectHead;
    if id in t.inbox && OwesEffect(t.inbox[id]) {
      if t.inbox[id].command.slot == slot {
        CompleteLists(t.inbox, id, slot, rest);
      } else {
        OtherSlotLists(t.inbox, id, slot, rest);
      }
    }
  }

  lemma EmptyLists(inbox: map<string, Row>, slot: string)
    requires inbox == map[]
    ensures ListsOwed(inbox, slot, [])
  {
  }
}
