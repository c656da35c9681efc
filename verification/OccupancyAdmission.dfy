/**
 What the store answers to a source fact: when it is admitted, what admission changes, and what a fact that comes a
 second time is told.
 */
module OccupancyAdmission {
  import opened Option
  import opened Text
  import opened OccupancyTables
  import opened OccupancyInvariant
  import opened OccupancyRun
  import opened ParkingCorrelation
  import S = SensorSequence

  // ----- the same fact again -----

  /**
   The second command differs from the first at most in what the receiver added: the receive and due time of a Hall
   frame, the deadline and due time of a camera event.
   */
  predicate Redelivers(a: Command, c: Command) {
    && c == a.(dueAt := c.dueAt, payload := c.payload) && a.payload.Payload? && c.payload.Payload?
    && (a.kind.HallObservation? ==> c.payload == a.payload.(occurredAt := c.payload.occurredAt))
    && (a.kind.CameraObservation? ==> c.payload == a.payload.(deadlineDueAt := c.payload.deadlineDueAt))
    && (a.kind.ExitDeadline? ==> c == a)
  }

  /** What admission checks before it looks for the fact. */
  predicate WellFormed(c: Command, capacity: nat) {
    && c.id != "" && c.slot != "" && c.identity != "" && !c.payload.Absent? && capacity > 0
    && (c.kind.CameraObservation? ==> c.payload.Payload?)
  }

  lemma IdentityIsFound(inbox: map<string, Row>, id: string, kind: Kind, identity: string)
    requires RowsOk(inbox) && id in inbox && SameIdentity(inbox[id], kind, identity)
    ensures FindIdentity(inbox, kind, identity) == Some(id)
  {
  }

  /** A fact whose identity is in the inbox changes nothing; it is recognised exactly when it is the same again. */
  lemma ResubmissionAnswers(t: Tables, id: string, c: Command, capacity: nat, clock: int)
    requires Sound(t) && id in t.inbox && WellFormed(c, capacity)
    requires c.kind == t.inbox[id].command.kind && c.identity == t.inbox[id].command.identity
    ensures var row, a := t.inbox[id], Admit(t, c, capacity, clock);
            && a.t == t && a.id == id
            && a.code == if !Redelivers(row.command, c) then Conflict
                         else if IsPending(row) then Existing else AlreadyTerminal
  {
    hide DomainOk, ImagesOk, AdmitHall, InsertCommand;
    IdentityIsFound(t.inbox, id, c.kind, c.identity);
    RowIsOk(t.inbox, id);
  }

  /** Rows of sensors and cameras name a slot and a fact. */
  ghost predicate Named(inbox: map<string, Row>) {
    forall id :: id in inbox && !inbox[id].command.kind.ExitDeadline? ==>
      inbox[id].command.slot != "" && inbox[id].command.identity != ""
  }

  ghost predicate CommandsStay(inbox: map<string, Row>, inbox': map<string, Row>) {
    forall id :: id in inbox' ==>
      inbox'[id].command.kind.ExitDeadline? || (id in inbox && inbox'[id].command == inbox[id].command)
  }

  lemma StayingNamed(inbox: map<string, Row>, inbox': map<string, Row>)
    requires Named(inbox) && CommandsStay(inbox, inbox')
    ensures Named(inbox')
  {
  }

  lemma {:induction false} BatchStaysNamed(t: Tables, ids: set<string>, room: nat, ordinal: nat, clock: int)
    requires ids <= t.deadlines.Keys && Named(t.inbox)
    ensures Named(AdmitBatch(t, ids, room, ordinal, clock).inbox)
    decreases room
  {
    hide Earliest, SameIdentity;
    if room != 0 && ids != {} {
      var d := Earliest(t.deadlines, ids);
      assert d in ids;
      BatchStaysNamed(AdmitDeadline(t, d, ordinal, clock), ids - {d}, room - 1, ordinal + 1, clock);
    }
  }

  lemma InsertStaysNamed(t: Tables, prepared: Tables, c: Command, capacity: nat, clock: int)
    requires Named(t.inbox) && Named(prepared.inbox) && c.slot != "" && c.identity != ""
    ensures Named(InsertCommand(t, prepared, c, capacity, clock).t.inbox)
  {
    hide PendingIds;
  }

  lemma AdmitStaysNamed(t: Tables, c: Command, capacity: nat, clock: int)
    requires Named(t.inbox)
    ensures Named(Admit(t, c, capacity, clock).t.inbox)
  {
    hide FindIdentity, SameSourceFact, S.Evaluate, FirstConfirmation, InsertCommand, Named;
    FirstIsConfirmation(t.inbox, c.slot);
    var w := FirstConfirmation(t.inbox, c.slot);
    if c.slot != "" && c.identity != "" {
      InsertStaysNamed(t, t, c, capacity, clock);
      if w.Some? {
        var prepared := SetRow(t, w.value, CanceledRow(t.inbox[w.value]));
        StayingNamed(t.inbox, prepared.inbox);
        InsertStaysNamed(t, prepared, c, capacity, clock);
      }
    }
  }

  lemma SameRowsStay(inbox: map<string, Row>)
    ensures CommandsStay(inbox, inbox)
  {
  }

  lemma RowStays(inbox: map<string, Row>, id: string, r: Row)
    requires id in inbox && r.command == inbox[id].command
    ensures CommandsStay(inbox, inbox[id := r])
  {
  }

  lemma RemovalStays(inbox: map<string, Row>, ids: set<string>)
    ensures CommandsStay(inbox, inbox - ids)
  {
  }

  lemma RestCommandsStay(t: Tables, e: Event)
    requires !e.AdmitCall? && !e.AdmitDueCall? && !e.ApplyCall?
    ensures CommandsStay(t.inbox, Step(t, e).inbox)
  {
    hide PurgedIds, Attach, CommandsStay;
    SameRowsStay(t.inbox);
    match e
    case DeferCall(id, next) => if id in t.inbox { RowStays(t.inbox, id, t.inbox[id].(nextAttemptAt := next)); }
    case CompleteCall(id) =>
      if id in t.inbox { RowStays(t.inbox, id, t.inbox[id].(effect := EffectApplied, effectNextAttemptAt := 0)); }
    case DeferEffectCall(id, next) =>
      if id in t.inbox { RowStays(t.inbox, id, t.inbox[id].(effectNextAttemptAt := next)); }
    case PurgeCall(before, limit) => RemovalStays(t.inbox, PurgedIds(t.inbox, before, limit));
    case AttachCall(l, evidence, now) => AttachLeavesInbox(t, l, evidence, now);
    case _ =>
  }

  lemma AttachLeavesInbox(t: Tables, l: Lease, e: Evidence, now: int)
    ensures Attach(t, l, e, now).t.inbox == t.inbox
  {
  }

  lemma ApplyCommandsStay(t: Tables, id: string)
    requires Sound(t)
    ensures CommandsStay(t.inbox, Apply(t, id).t.inbox)
  {
    hide Sound, Apply;
    ApplySettlesOwnRow(t, id);
  }

  lemma StepStaysNamed(t: Tables, e: Event)
    requires Sound(t) && Named(t.inbox)
    ensures Named(Step(t, e).inbox)
  {
    hide Sound, Apply, Admit, AdmitBatch, Named, PendingIds, Attach, CommandsStay;
    match e
    case AdmitCall(c, capacity, clock) => AdmitStaysNamed(t, c, capacity, clock);
    case AdmitDueCall(now, capacity, blocked, clock) =>
      if |PendingIds(t.inbox)| < capacity {
        BatchStaysNamed(t, DueIds(t.deadlines, now, blocked), capacity - |PendingIds(t.inbox)|, NextOrdinal(t.inbox),
                        clock);
      }
    case ApplyCall(id) =>
      ApplyCommandsStay(t, id);
      StayingNamed(t.inbox, Step(t, e).inbox);
    case _ =>
      RestCommandsStay(t, e);
      StayingNamed(t.inbox, Step(t, e).inbox);
  }

  lemma {:induction false} ReachableIsNamed(run: Run)
    requires Valid(run)
    ensures Named(Final(run).inbox)
  {
    hide Sound, Step, Listed, Named;
    match run
    case Start(t) => NothingIsNamed(t);
    case Then(prior, e) =>
      ReachableIsNamed(prior);
      ReachableIsSound(prior);
      StepStaysNamed(Final(prior), e);
  }

  lemma NothingIsNamed(t: Tables)
    requires Initial(t)
    ensures Named(t.inbox)
  {
  }

  /**
   Whatever happened before: a Hall frame or camera event that is in the inbox and comes again is told so and changes
   nothing, however late it is received.
   */
  lemma RedeliveryIsRecognised(run: Run, id: string, c: Command, capacity: nat, clock: int)
    requires Valid(run) && id in Final(run).inbox && capacity > 0
    requires !c.kind.ExitDeadline? && Redelivers(Final(run).inbox[id].command, c)
    ensures var t := Final(run);
            Admit(t, c, capacity, clock) ==
            Admission(t, if IsPending(t.inbox[id]) then Existing else AlreadyTerminal, id)
  {
    hide Valid, Final, DomainOk, ImagesOk, Admit;
    ReachableIsSound(run);
    ReachableIsNamed(run);
    RowIsOk(Final(run).inbox, id);
    ResubmissionAnswers(Final(run), id, c, capacity, clock);
  }

  /** Under the same identity anything else is a conflict: another sensor, sequence, slot, state, action or area. */
  lemma OtherFactConflicts(t: Tables, id: string, c: Command, capacity: nat, clock: int)
    requires Sound(t) && id in t.inbox && WellFormed(c, capacity)
    requires c.kind == t.inbox[id].command.kind && c.identity == t.inbox[id].command.identity
    requires var a := t.inbox[id].command;
             || c.id != a.id || c.sensor != a.sensor || c.sequence != a.sequence || c.slot != a.slot
             || (a.payload.Payload? && c.payload.Payload? &&
                 (|| c.payload.hallState != a.payload.hallState || c.payload.boot != a.payload.boot
                  || c.payload.action != a.payload.action || c.payload.areaKey != a.payload.areaKey
                  || c.payload.objectId != a.payload.objectId || c.payload.cameraId != a.payload.cameraId))
    ensures Admit(t, c, capacity, clock) == Admission(t, Conflict, id)
  {
    hide Sound, Admit;
    ResubmissionAnswers(t, id, c, capacity, clock);
  }

  // ----- a new fact -----

  /** A Hall OCCUPIED that waits out its confirmation delay. */
  predicate AwaitsConfirmation(r: Row, slot: string) {
    && r.command.slot == slot && r.command.kind.HallObservation? && r.status.PendingUnprepared?
    && r.command.payload.Payload? && r.command.payload.hallState == HallOccupied && 0 < r.command.dueAt
  }

  /** The row is a confirmation that the Hall VACANT takes back: it was observed before the confirmation was due. */
  predicate TakenBack(r: Row, c: Command) {
    c.kind.HallObservation? && AwaitsConfirmation(r, c.slot) && OccurredAt(c) < r.command.dueAt
  }

  predicate SomeAwaitsConfirmation(inbox: map<string, Row>, slot: string) {
    exists k :: k in inbox && AwaitsConfirmation(inbox[k], slot)
  }

  function StillPending(inbox: map<string, Row>, c: Command): set<string> {
    set k | k in inbox && inbox[k].status.PendingUnprepared? && !TakenBack(inbox[k], c)
  }

  /** What a Hall frame must bring: a known sensor, a readable state, and a fact that the sensor's cursor accepts. */
  predicate HallAdmissible(t: Tables, c: Command) {
    && c.sensor != "" && c.payload.Payload? && c.payload.protocol.Some? && !c.payload.hallState.HallOther?
    && S.Accepts(CursorOf(t.cursors, c.sensor), HallFact(c))
  }

  ghost predicate Admissible(t: Tables, c: Command, capacity: nat) {
    && WellFormed(c, capacity)
    && Fresh(t.inbox, c)
    && (c.kind.HallObservation? ==>
          HallAdmissible(t, c) && (c.payload.hallState.HallOccupied? ==> !SomeAwaitsConfirmation(t.inbox, c.slot)))
    && c.id !in t.inbox && c.slot in t.slots && |StillPending(t.inbox, c)| < capacity
  }

  lemma WaitingIsFirst(inbox: map<string, Row>, slot: string)
    requires InboxOk(inbox)
    ensures FirstConfirmation(inbox, slot).Some? <==> SomeAwaitsConfirmation(inbox, slot)
    ensures FirstConfirmation(inbox, slot).None? ==> forall k :: k in inbox ==> !AwaitsConfirmation(inbox[k], slot)
    ensures var w := FirstConfirmation(inbox, slot);
            w.Some? ==>
              w.value in inbox && forall k :: k in inbox ==> (AwaitsConfirmation(inbox[k], slot) <==> k == w.value)
  {
    forall k | k in inbox && AwaitsConfirmation(inbox[k], slot) ensures FirstConfirmation(inbox, slot) == Some(k) {
      FirstConfirmationFound(inbox, slot, k);
    }
  }

  /** The row that admission inserts. */
  predicate Inserted(inbox: map<string, Row>, inbox': map<string, Row>, c: Command, clock: int) {
    && c.id in inbox' && var r := inbox'[c.id];
    && r.command == c && r.status == PendingUnprepared && r.result.None? && r.effect.NoEffect?
    && r.nextAttemptAt == 0 && r.createdAt == clock
    && (c.kind.CameraObservation? ==> c.payload.Payload? && r.correlation == c.payload.correlationId)
    && forall k :: k in inbox ==> inbox[k].ordinal < r.ordinal
  }

  /** What insertion into the prepared inbox does, if it may. */
  ghost predicate Joins(t: Tables, prepared: Tables, t': Tables, c: Command, clock: int) {
    && t' == t.(inbox := t'.inbox) && t'.inbox.Keys == t.inbox.Keys + {c.id}
    && Inserted(t.inbox, t'.inbox, c, clock)
    && forall k :: k in prepared.inbox ==> k in t'.inbox && t'.inbox[k] == prepared.inbox[k]
  }

  lemma InsertedExactlyWhen(t: Tables, prepared: Tables, c: Command, capacity: nat, clock: int)
    requires prepared == t.(inbox := prepared.inbox) && prepared.inbox.Keys == t.inbox.Keys
    requires forall k :: k in t.inbox ==> prepared.inbox[k].ordinal == t.inbox[k].ordinal
    requires c.kind.CameraObservation? ==> c.payload.Payload?
    ensures var a, room := InsertCommand(t, prepared, c, capacity, clock), |PendingIds(prepared.inbox)| < capacity;
            if room && c.id !in t.inbox && c.slot in t.slots
            then a.code.AdmittedNow? && Joins(t, prepared, a.t, c, clock)
            else !a.code.AdmittedNow? && a.t == t
  {
    hide PendingIds;
    assert IsNextOrdinal(prepared.inbox, NextOrdinal(prepared.inbox));
  }

  ghost predicate Fresh(inbox: map<string, Row>, c: Command) {
    forall k :: k in inbox ==> !(inbox[k].command.kind == c.kind && inbox[k].command.identity == c.identity)
  }

  /** The inbox once the confirmation that the command takes back, if any, is cancelled. */
  function Prepared(inbox: map<string, Row>, c: Command): map<string, Row> {
    map k | k in inbox ::
      if TakenBack(inbox[k], c) then inbox[k].(status := Applied, result := Some(NoChange)) else inbox[k]
  }

  lemma PreparedIs(inbox: map<string, Row>, c: Command, w: Option<string>)
    requires w.Some? ==> w.value in inbox
    requires forall k :: k in inbox ==> (TakenBack(inbox[k], c) <==> w == Some(k))
    ensures Prepared(inbox, c) == if w.Some? then inbox[w.value := CanceledRow(inbox[w.value])] else inbox
    ensures PendingIds(Prepared(inbox, c)) == StillPending(inbox, c)
  {
    hide TakenBack;
  }

  /** The admission of a well-formed, new fact comes down to inserting it into the prepared inbox. */
  lemma HallInserts(t: Tables, c: Command, capacity: nat, clock: int)
    requires InboxOk(t.inbox) && c.kind.HallObservation?
    ensures if HallAdmissible(t, c) && (c.payload.hallState.HallOccupied? ==> !SomeAwaitsConfirmation(t.inbox, c.slot))
            then AdmitHall(t, c, capacity, clock) ==
                 InsertCommand(t, t.(inbox := Prepared(t.inbox, c)), c, capacity, clock)
            else !AdmitHall(t, c, capacity, clock).code.AdmittedNow? && AdmitHall(t, c, capacity, clock).t == t
    ensures PendingIds(Prepared(t.inbox, c)) == StillPending(t.inbox, c)
  {
    hide InboxOk, InsertCommand, S.Evaluate, FirstConfirmation, PendingIds, Prepared, SomeAwaitsConfirmation,
         AwaitsConfirmation, StillPending, HallFact;
    WaitingIsFirst(t.inbox, c.slot);
    var w := FirstConfirmation(t.inbox, c.slot);
    var taken := if w.Some? && TakenBack(t.inbox[w.value], c) then w else None;
    PreparedIs(t.inbox, c, taken);
    hide CanceledRow;
  }

  lemma OthersInsert(t: Tables, c: Command)
    requires !c.kind.HallObservation?
    ensures Prepared(t.inbox, c) == t.inbox && PendingIds(Prepared(t.inbox, c)) == StillPending(t.inbox, c)
  {
  }

  /**
   A fact is admitted exactly when it is well formed and new, the inbox has room, and, for a Hall frame, its sensor's
   cursor accepts it and no confirmation of the slot waits already. Its row joins behind all others; of these only a
   confirmation is touched that a VACANT takes back.
   */
  lemma AdmittedExactlyWhen(t: Tables, c: Command, capacity: nat, clock: int)
    requires Sound(t)
    ensures Admit(t, c, capacity, clock).code.AdmittedNow? <==> Admissible(t, c, capacity)
    ensures Admissible(t, c, capacity) ==>
              Joins(t, t.(inbox := Prepared(t.inbox, c)), Admit(t, c, capacity, clock).t, c, clock)
    ensures !Admissible(t, c, capacity) ==> Admit(t, c, capacity, clock).t == t
  {
    hide DomainOk, ImagesOk, InboxOk, SameSourceFact, AdmitHall, InsertCommand, PendingIds, StillPending, Prepared,
         SomeAwaitsConfirmation, HallAdmissible, Joins;
    InboxOf(t);
    PreparedKeeps(t.inbox, c);
    if WellFormed(c, capacity) {
      InsertedExactlyWhen(t, t.(inbox := Prepared(t.inbox, c)), c, capacity, clock);
    }
    if c.kind.HallObservation? { HallInserts(t, c, capacity, clock); } else { OthersInsert(t, c); }
  }

  lemma PreparedKeeps(inbox: map<string, Row>, c: Command)
    ensures Prepared(inbox, c).Keys == inbox.Keys
    ensures forall k :: k in inbox ==> Prepared(inbox, c)[k].ordinal == inbox[k].ordinal
  {
    hide TakenBack;
  }

  // ----- why a new fact is not admitted -----

  /** What a Hall frame is told that its sensor, payload or cursor rules out. */
  function HallRefusal(t: Tables, c: Command): AdmissionCode {
    if c.sensor == "" then Conflict
    else if !c.payload.Payload? then AdmissionRetry
    else if c.payload.protocol.None? then Conflict
    else if S.Accepts(CursorOf(t.cursors, c.sensor), HallFact(c)) then Conflict
    else if S.Evaluate(CursorOf(t.cursors, c.sensor), HallFact(c)) == S.Invalid then Conflict
    else RejectedStale
  }

  lemma HallRefusedBecause(t: Tables, c: Command, capacity: nat, clock: int)
    requires InboxOk(t.inbox) && c.kind.HallObservation?
    ensures !HallAdmissible(t, c) ==> AdmitHall(t, c, capacity, clock) == Admission(t, HallRefusal(t, c), c.id)
    ensures HallAdmissible(t, c) && c.payload.hallState.HallOccupied? && SomeAwaitsConfirmation(t.inbox, c.slot) ==>
              var a := AdmitHall(t, c, capacity, clock);
              && a.t == t && a.code == Existing && a.id in t.inbox && AwaitsConfirmation(t.inbox[a.id], c.slot)
  {
    hide InboxOk, InsertCommand, FirstConfirmation, SomeAwaitsConfirmation, AwaitsConfirmation, HallFact;
    WaitingIsFirst(t.inbox, c.slot);
    hide S.Evaluate;
  }

  lemma NotInsertedBecause(t: Tables, prepared: Tables, c: Command, capacity: nat, clock: int)
    requires !InsertCommand(t, prepared, c, capacity, clock).code.AdmittedNow?
    ensures InsertCommand(t, prepared, c, capacity, clock) ==
            Admission(t, if |PendingIds(prepared.inbox)| >= capacity then CapacityFull else AdmissionRetry, c.id)
  {
    hide PendingIds;
  }

  /**
   Why a well-formed, new fact is not admitted: its Hall frame is stale or makes no sense, another confirmation waits
   and stands for it, the inbox is full, or else its id is taken or its slot unknown.
   */
  lemma RefusedBecause(t: Tables, c: Command, capacity: nat, clock: int)
    requires Sound(t) && WellFormed(c, capacity) && Fresh(t.inbox, c) && !Admissible(t, c, capacity)
    ensures var a := Admit(t, c, capacity, clock);
            && a.t == t
            && (if c.kind.HallObservation? && !HallAdmissible(t, c) then a.code == HallRefusal(t, c) && a.id == c.id
                else if c.kind.HallObservation? && c.payload.hallState.HallOccupied? &&
                        SomeAwaitsConfirmation(t.inbox, c.slot)
                then a.code == Existing && a.id in t.inbox && AwaitsConfirmation(t.inbox[a.id], c.slot)
                else a.code == (if |StillPending(t.inbox, c)| >= capacity then CapacityFull else AdmissionRetry) &&
                     a.id == c.id)
  {
    hide DomainOk, ImagesOk, InboxOk, SameSourceFact, AdmitHall, InsertCommand, PendingIds, StillPending, Prepared,
         SomeAwaitsConfirmation, AwaitsConfirmation, HallAdmissible, HallRefusal;
    InboxOf(t);
    PreparedKeeps(t.inbox, c);
    var prepared := t.(inbox := Prepared(t.inbox, c));
    InsertedExactlyWhen(t, prepared, c, capacity, clock);
    if c.kind.HallObservation? {
      HallRefusedBecause(t, c, capacity, clock);
      HallInserts(t, c, capacity, clock);
    } else {
      OthersInsert(t, c);
    }
    if !InsertCommand(t, prepared, c, capacity, clock).code.AdmittedNow? {
      NotInsertedBecause(t, prepared, c, capacity, clock);
    }
  }

  /** A fact that is not well formed is a conflict. */
  lemma IllFormedConflicts(t: Tables, c: Command, capacity: nat, clock: int)
    requires !WellFormed(c, capacity)
    ensures Admit(t, c, capacity, clock) == Admission(t, Conflict, c.id)
  {
  }

  /** The ids that the store makes, spelled out. */
  lemma IdsAreSpelled()
    ensures DeadlineId("A", 12, 305) == "iva-exit:A:12:305" && DeadlineCommandId("x") == "deadline-command:x"
    ensures AttemptOf("c") == "occupancy:c"
  {
    assert Decimal(12) == "12" by { assert Decimal(1) == "1"; }
    assert Decimal(305) == "305" by { assert Decimal(3) == "3" && Decimal(30) == "30"; }
  }
}
