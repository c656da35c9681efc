/**
 The occupancy tables as values, and what each store call does to them.

 A call is one transaction: it either moves the tables as a whole or, when a constraint
 fails or an error is thrown, leaves them as they were.
 */
module OccupancyTables {
  import opened Option
  import opened Text
  import S = SensorSequence

  // ----- rows -----

  datatype Kind = HallObservation | CameraObservation | ExitDeadline

  datatype Status = PendingUnprepared | PendingPrepared | Applied | RejectedInvalid

  datatype Code =
    | SessionStarted
    | SessionEnded
    | NoChange
    | ExitScheduled
    | AlreadyApplied
    | RejectedInvalidTimestamp
    | StaleGeneration
    | RetryableFailure

  datatype EffectState = NoEffect | EffectPending | EffectApplied

  datatype HallState = HallOccupied | HallVacant | HallOther

  datatype Action = Enter | Intrusion | Exit | OtherAction

  /** The fields a command's JSON may carry, with the defaults its readers use. */
  datatype Payload =
    | Absent
    | Malformed
    | Payload(
        occurredAt: Option<int>,
        hybridOr: bool,
        hallState: HallState,
        protocol: Option<S.Protocol>,
        boot: Option<string>,
        action: Action,
        authoritativeExit: bool,
        occupancyAuthority: bool,
        areaKey: string,
        configured: seq<string>,
        objectId: string,
        cameraId: string,
        channelId: string,
        videoSourceToken: string,
        ruleName: string,
        correlationId: string,
        correlationExpiresAt: Option<int>,
        expiresAt: Option<int>,
        deadlineDueAt: Option<int>,
        deadlineId: string,
        expectedSession: Option<nat>,
        expectedGeneration: nat,
        expectedAttempt: string)

  datatype Command = Command(id: string, kind: Kind, slot: string, sensor: string, identity: string,
                             sequence: Option<nat>, payload: Payload, dueAt: int)

  datatype Row = Row(command: Command, ordinal: nat, status: Status, attempt: string, correlation: string,
                     generation: nat, nextAttemptAt: int, result: Option<Code>, resultSession: Option<nat>,
                     effect: EffectState, effectNextAttemptAt: int, createdAt: int)

  datatype SlotStatus = SlotVacant | SlotOccupied | SlotError

  datatype SessionStatus = Active | Violation | Ended | UnknownStatus

  datatype Session = Session(slot: string, attempt: string, entryCommand: Option<string>, exitCommand: Option<string>,
                             entryMs: int, exitMs: Option<int>, status: SessionStatus,
                             hallConfirmed: bool, ivaConfirmed: bool, hallOccupied: bool, ivaOccupied: bool)

  datatype DeadlineState = Scheduled | Admitted | Superseded | DeadlineApplied

  datatype Deadline = Deadline(slot: string, attempt: string, session: nat, generation: nat, dueAt: int,
                               hybridOr: bool, state: DeadlineState, admittedBy: Option<string>)

  datatype Observed = UnknownState | Occupied | VacantPending | Vacant

  datatype Iva = Iva(attempt: string, session: Option<nat>, generation: nat, observed: Observed,
                     configured: seq<string>, areas: map<string, bool>)

  datatype BindingState = BindingPending | Committed | BindingEnded | BindingFailed | BindingExpired | Quarantined

  datatype Binding = Binding(source: string, attempt: string, session: nat, slot: string, camera: string,
                             token: string, rule: string, objectId: string, channel: string,
                             revision: nat, state: BindingState, expiresAt: int)

  datatype EvidenceKind = VehicleShot | PlateShot

  /** An image row that belongs to a correlation. */
  datatype Image = Image(session: nat, path: string, kind: EvidenceKind, text: string, correlation: string,
                         objectId: string, ref: string, revision: nat)

  datatype Tables = Tables(
    slots: map<string, SlotStatus>,
    sessions: map<nat, Session>,
    nextSession: nat,
    inbox: map<string, Row>,
    deadlines: map<string, Deadline>,
    iva: map<string, Iva>,
    cursors: map<string, S.Cursor>,
    bindings: map<string, Binding>,
    images: map<nat, Image>,
    nextImage: nat)

  // ----- lookups -----

  predicate IsOpen(s: Session) {
    s.exitMs.None? && (s.status.Active? || s.status.Violation?)
  }

  predicate OpenAt(s: Session, slot: string) {
    s.slot == slot && IsOpen(s)
  }

  /** The open session of a slot with the highest id below a bound. */
  function LatestOpen(sessions: map<nat, Session>, slot: string, bound: nat): (r: Option<nat>)
    ensures r.Some? ==> r.value < bound && r.value in sessions && OpenAt(sessions[r.value], slot)
    ensures r.Some? ==> forall i :: r.value < i < bound && i in sessions ==> !OpenAt(sessions[i], slot)
    ensures r.None? ==> forall i :: i < bound && i in sessions ==> !OpenAt(sessions[i], slot)
  {
    if bound == 0 then None
    else if bound - 1 in sessions && OpenAt(sessions[bound - 1], slot) then Some(bound - 1)
    else LatestOpen(sessions, slot, bound - 1)
  }

  function FindActive(t: Tables, slot: string): (r: Option<nat>)
    ensures r.Some? ==> r.value < t.nextSession && r.value in t.sessions && OpenAt(t.sessions[r.value], slot)
    ensures r.None? ==> forall i :: i < t.nextSession && i in t.sessions ==> !OpenAt(t.sessions[i], slot)
  {
    LatestOpen(t.sessions, slot, t.nextSession)
  }

  function OccurredAt(c: Command): int {
    if c.payload.Payload? then c.payload.occurredAt.GetOr(c.dueAt) else c.dueAt
  }

  predicate IsPending(r: Row) {
    r.status.PendingUnprepared?
  }

  predicate IsTerminal(r: Row) {
    r.status.Applied? || r.status.RejectedInvalid?
  }

  function CursorOf(cursors: map<string, S.Cursor>, sensor: string): S.Cursor {
    if sensor in cursors then cursors[sensor] else S.EMPTY
  }

  function HallFact(c: Command): S.Fact
    requires c.payload.Payload? && c.payload.protocol.Some?
  {
    S.Fact(c.payload.protocol.value, c.payload.boot, c.sequence)
  }

  predicate IsLive(d: Deadline) {
    d.state.Scheduled? || d.state.Admitted?
  }

  predicate HasLiveDeadline(deadlines: map<string, Deadline>, slot: string) {
    exists d :: d in deadlines && deadlines[d].slot == slot && IsLive(deadlines[d])
  }

  function DeadlineId(slot: string, generation: nat, session: nat): string {
    "iva-exit:" + slot + ":" + Decimal(generation) + ":" + Decimal(session)
  }

  /** The printed deadline id determines slot, generation and session, whatever characters the slot name has. */
  lemma DeadlineIdIsInjective(slot: string, generation: nat, session: nat, slot': string, generation': nat,
                              session': nat)
    requires DeadlineId(slot, generation, session) == DeadlineId(slot', generation', session')
    ensures slot == slot' && generation == generation' && session == session'
  {
    var a := "iva-exit:" + slot;
    var a' := "iva-exit:" + slot';
    var b := a + [':'] + Decimal(generation);
    var b' := a' + [':'] + Decimal(generation');
    assert DeadlineId(slot, generation, session) == b + [':'] + Decimal(session);
    assert DeadlineId(slot', generation', session') == b' + [':'] + Decimal(session');
    NumeralSuffix(session, session', ':', b, b');
    NumeralSuffix(generation, generation', ':', a, a');
    assert slot == a[|"iva-exit:"|..] && slot' == a'[|"iva-exit:"|..];
  }

  // ----- local steps of one application; None is a thrown error -----

  function AttemptOf(command: string): string {
    "occupancy:" + command
  }

  predicate EntryCommandTaken(sessions: map<nat, Session>, command: string) {
    exists i :: i in sessions && sessions[i].entryCommand == Some(command)
  }

  predicate ExitCommandTaken(sessions: map<nat, Session>, command: string) {
    exists i :: i in sessions && sessions[i].exitCommand == Some(command)
  }

  function NewSession(c: Command): Session {
    Session(c.slot, AttemptOf(c.id), Some(c.id), None, OccurredAt(c), None, Active,
            c.kind.HallObservation?, c.kind.CameraObservation?, c.kind.HallObservation?, c.kind.CameraObservation?)
  }

  function CreateSession(t: Tables, c: Command): Option<Tables> {
    if c.slot !in t.slots || EntryCommandTaken(t.sessions, c.id) then None
    else Some(t.(slots := t.slots[c.slot := SlotOccupied],
                 sessions := t.sessions[t.nextSession := NewSession(c)],
                 nextSession := t.nextSession + 1))
  }

  function ClosedSession(s: Session, c: Command): Session {
    s.(status := Ended, exitMs := Some(OccurredAt(c)), exitCommand := Some(c.id),
       hallOccupied := false, ivaOccupied := false)
  }

  function EndBindings(bindings: map<string, Binding>, session: nat, slot: string,
                       attempt: string): map<string, Binding> {
    map k | k in bindings ::
      if bindings[k].session == session && bindings[k].slot == slot && bindings[k].attempt == attempt &&
         bindings[k].state.Committed?
      then bindings[k].(state := BindingEnded) else bindings[k]
  }

  function ClearIva(iva: map<string, Iva>, slot: string, session: nat): map<string, Iva> {
    if slot in iva && iva[slot].session == Some(session)
    then iva[slot := iva[slot].(attempt := "", session := None, observed := Vacant)]
    else iva
  }

  function CloseSession(t: Tables, c: Command, session: nat): Option<Tables>
    requires session in t.sessions
  {
    if OccurredAt(c) < t.sessions[session].entryMs || ExitCommandTaken(t.sessions, c.id) || c.slot !in t.slots then None
    else Some(t.(sessions := t.sessions[session := ClosedSession(t.sessions[session], c)],
                 slots := t.slots[c.slot := SlotVacant],
                 bindings := EndBindings(t.bindings, session, c.slot, t.sessions[session].attempt),
                 iva := ClearIva(t.iva, c.slot, session)))
  }

  function UpdateHall(t: Tables, session: nat, confirmed: bool, occupied: bool): Tables
    requires session in t.sessions
  {
    var s := t.sessions[session];
    t.(sessions := t.sessions[session := s.(hallConfirmed := s.hallConfirmed || confirmed, hallOccupied := occupied)])
  }

  function UpdateIva(t: Tables, session: nat, confirmed: bool, occupied: bool): Tables
    requires session in t.sessions
  {
    var s := t.sessions[session];
    t.(sessions := t.sessions[session := s.(ivaConfirmed := s.ivaConfirmed || confirmed, ivaOccupied := occupied)])
  }

  function CommitSequence(t: Tables, c: Command): Tables
    requires c.payload.Payload? && c.payload.protocol.Some?
  {
    if c.sequence.None? || c.sensor == "" then t
    else t.(cursors := t.cursors[c.sensor := S.Committed(CursorOf(t.cursors, c.sensor), HallFact(c))])
  }

  function PersistIva(t: Tables, slot: string, row: Iva): Tables {
    t.(iva := t.iva[slot := row])
  }

  predicate TrackOf(b: Binding, attempt: string, p: Payload)
    requires p.Payload?
  {
    b.attempt == attempt && b.camera == p.cameraId && b.token == p.videoSourceToken &&
    b.rule == p.ruleName && b.objectId == p.objectId
  }

  /** The expiry that a binding takes from the payload; the older field's name is not read here. */
  function BindingExpiry(p: Payload): int
    requires p.Payload?
  {
    p.correlationExpiresAt.GetOr(0)
  }

  predicate CorrelationComplete(p: Payload, attempt: string)
    requires p.Payload?
  {
    p.correlationId != "" && attempt != "" && p.cameraId != "" && p.channelId != "" &&
    p.videoSourceToken != "" && p.ruleName != "" && p.objectId != "" && BindingExpiry(p) > 0
  }

  /** The binding a track already has under an attempt; the table allows at most one. */
  ghost function FindTrack(bindings: map<string, Binding>, attempt: string, p: Payload): (r: Option<string>)
    requires p.Payload?
    ensures r.Some? ==> r.value in bindings && TrackOf(bindings[r.value], attempt, p)
    ensures r.None? ==> forall k :: k in bindings ==> !TrackOf(bindings[k], attempt, p)
  {
    if exists k :: k in bindings && TrackOf(bindings[k], attempt, p)
    then var k :| k in bindings && TrackOf(bindings[k], attempt, p); Some(k)
    else None
  }

  datatype Bound = Bound(t: Tables, correlation: string)

  /** Bind the observed track to the open session: refresh its binding, or insert one. */
  ghost function CommitCorrelation(t: Tables, c: Command, attempt: string, session: nat): Option<Bound>
    requires c.payload.Payload?
  {
    var p := c.payload;
    if !CorrelationComplete(p, attempt) then Some(Bound(t, ""))
    else if FindTrack(t.bindings, attempt, p).Some? then
      RefreshBinding(t, c, FindTrack(t.bindings, attempt, p).value, session)
    else if p.correlationId in t.bindings || (exists k :: k in t.bindings && t.bindings[k].source == c.id) then None
    else Some(Bound(t.(bindings := t.bindings[p.correlationId := NewBinding(c, attempt, session)]), p.correlationId))
  }

  function NewBinding(c: Command, attempt: string, session: nat): Binding
    requires c.payload.Payload?
  {
    var p := c.payload;
    Binding(c.id, attempt, session, c.slot, p.cameraId, p.videoSourceToken, p.ruleName, p.objectId, p.channelId,
            1, Committed, BindingExpiry(p))
  }

  function RefreshBinding(t: Tables, c: Command, k: string, session: nat): Option<Bound>
    requires c.payload.Payload? && k in t.bindings
  {
    var b := t.bindings[k];
    if !b.state.Committed? || b.session != session || b.slot != c.slot || b.channel != c.payload.channelId then None
    else if BindingExpiry(c.payload) > b.expiresAt then
      Some(Bound(t.(bindings := t.bindings[k := b.(expiresAt := BindingExpiry(c.payload),
                                                   revision := b.revision + 1)]), k))
    else Some(Bound(t, k))
  }

  // ----- reducers: what one pending command does to the tables -----

  datatype Outcome = Outcome(code: Code, session: Option<nat>, attempt: string, correlation: string, generation: nat)

  datatype Reduction = Done(t: Tables, out: Outcome) | Throw | Invalid

  function ReduceHall(t: Tables, row: Row): Reduction
    requires row.command.payload.Payload?
  {
    var c := row.command;
    var p := c.payload;
    if p.hallState.HallOther? || p.protocol.None? then Invalid
    else if !S.Accepts(CursorOf(t.cursors, c.sensor), HallFact(c)) then
      Done(t, Outcome(NoChange, None, row.attempt, row.correlation, row.generation))
    else if p.hallState.HallOccupied? then HallEnters(t, row)
    else HallLeaves(t, row)
  }

  function HallEnters(t: Tables, row: Row): Reduction
    requires row.command.payload.Payload? && row.command.payload.protocol.Some?
  {
    var c := row.command;
    var active := FindActive(t, c.slot);
    if active.Some? then
      Done(CommitSequence(UpdateHall(t, active.value, true, true), c),
           Outcome(NoChange, active, t.sessions[active.value].attempt, row.correlation, row.generation))
    else
      match CreateSession(t, c)
      case None => Throw
      case Some(t1) =>
        Done(CommitSequence(t1, c),
             Outcome(SessionStarted, Some(t.nextSession), AttemptOf(c.id), row.correlation, row.generation))
  }

  function HallLeaves(t: Tables, row: Row): Reduction
    requires row.command.payload.Payload? && row.command.payload.protocol.Some?
  {
    var c := row.command;
    var active := FindActive(t, c.slot);
    if active.None? then
      var t1 := if c.slot in t.slots then t.(slots := t.slots[c.slot := SlotVacant]) else t;
      Done(CommitSequence(t1, c), Outcome(NoChange, None, row.attempt, row.correlation, row.generation))
    else
      var s := t.sessions[active.value];
      var o := Outcome(NoChange, active, s.attempt, row.correlation, row.generation);
      if OccurredAt(c) < s.entryMs then Done(t, o.(code := RejectedInvalidTimestamp))
      else if c.payload.hybridOr && !s.hallConfirmed then Done(CommitSequence(t, c), o)
      else
        var t1 := UpdateHall(t, active.value, s.hallConfirmed, false);
        if c.payload.hybridOr && s.ivaConfirmed && s.ivaOccupied then Done(CommitSequence(t1, c), o)
        else
          match CloseSession(t1, c, active.value)
          case None => Throw
          case Some(t2) => Done(CommitSequence(t2, c), o.(code := SessionEnded))
  }

  function AreaActive(areas: map<string, bool>, key: string): bool {
    key in areas && areas[key]
  }

  predicate AllAreasKnown(configured: seq<string>, areas: map<string, bool>) {
    forall k :: k in configured ==> k in areas
  }

  predicate AnyAreaActive(configured: seq<string>, areas: map<string, bool>) {
    exists k :: k in configured && k in areas && areas[k]
  }

  /** The stored camera state of the slot, or what a slot without one starts from. */
  function IvaBefore(t: Tables, row: Row): Iva
    requires row.command.payload.Payload?
  {
    if row.command.slot in t.iva then t.iva[row.command.slot]
    else Iva(row.attempt, None, row.generation, UnknownState, row.command.payload.configured, map[])
  }

  ghost function ReduceCamera(t: Tables, row: Row): Reduction
    requires row.command.payload.Payload?
  {
    var c := row.command;
    var p := c.payload;
    var active := FindActive(t, c.slot);
    if p.configured == [] || p.areaKey == "" then Invalid
    else if !p.occupancyAuthority then
      if !p.action.Intrusion? || p.objectId == "" then Invalid else CameraCorrelates(t, row)
    else if c.slot in t.iva && t.iva[c.slot].configured != p.configured then Throw
    else if p.action.Exit? && active.Some? && OccurredAt(c) < t.sessions[active.value].entryMs then
      Done(t, Outcome(RejectedInvalidTimestamp, active, t.sessions[active.value].attempt, row.correlation,
                      IvaBefore(t, row).generation))
    else if p.action.Enter? || (p.action.Exit? && !p.authoritativeExit) then
      Done(t, Outcome(NoChange, None, IvaBefore(t, row).attempt, row.correlation, IvaBefore(t, row).generation))
    else if p.action.Intrusion? then CameraIntrudes(t, row)
    else if p.action.Exit? then CameraExits(t, row)
    else Invalid
  }

  /** A camera that only correlates binds its track to the session the Hall sensor holds. */
  ghost function CameraCorrelates(t: Tables, row: Row): Reduction
    requires row.command.payload.Payload?
  {
    var c := row.command;
    var active := FindActive(t, c.slot);
    if active.None? then Done(t, Outcome(NoChange, None, row.attempt, row.correlation, row.generation))
    else
      var attempt := t.sessions[active.value].attempt;
      match CommitCorrelation(t, c, attempt, active.value)
      case None => Throw
      case Some(b) => Done(b.t, Outcome(NoChange, active, attempt, b.correlation, row.generation))
  }

  function Supersede(deadlines: map<string, Deadline>, slot: string): map<string, Deadline> {
    map d | d in deadlines ::
      if deadlines[d].slot == slot && deadlines[d].state.Scheduled?
      then deadlines[d].(state := Superseded) else deadlines[d]
  }

  function IntrusionGeneration(before: Iva, areaKey: string): nat {
    if !AreaActive(before.areas, areaKey) || !before.observed.Occupied? then before.generation + 1
    else before.generation
  }

  ghost function CameraIntrudes(t: Tables, row: Row): Reduction
    requires row.command.payload.Payload?
  {
    var c := row.command;
    var p := c.payload;
    var before := IvaBefore(t, row);
    var generation := IntrusionGeneration(before, p.areaKey);
    var areas := before.areas[p.areaKey := true];
    var t1 := t.(deadlines := Supersede(t.deadlines, c.slot));
    var active := FindActive(t, c.slot);
    if active.Some? then
      var attempt := t.sessions[active.value].attempt;
      var t2 := UpdateIva(t1, active.value, true, true);
      IntrusionBinds(PersistIva(t2, c.slot, Iva(attempt, active, generation, Occupied, p.configured, areas)),
                     row, Outcome(NoChange, active, attempt, "", generation), active.value)
    else
      match CreateSession(t1, c)
      case None => Throw
      case Some(t2) =>
        var attempt := AttemptOf(c.id);
        var session := Some(t.nextSession);
        IntrusionBinds(PersistIva(t2, c.slot, Iva(attempt, session, generation, Occupied, p.configured, areas)),
                       row, Outcome(SessionStarted, session, attempt, "", generation), t.nextSession)
  }

  ghost function IntrusionBinds(t: Tables, row: Row, out: Outcome, session: nat): Reduction
    requires row.command.payload.Payload?
  {
    match CommitCorrelation(t, row.command, out.attempt, session)
    case None => Throw
    case Some(b) => Done(b.t, out.(correlation := b.correlation))
  }

  function CameraExits(t: Tables, row: Row): Reduction
    requires row.command.payload.Payload?
  {
    var c := row.command;
    var p := c.payload;
    var before := IvaBefore(t, row);
    var generation := if AreaActive(before.areas, p.areaKey) then before.generation + 1 else before.generation;
    var areas := before.areas[p.areaKey := false];
    var active := FindActive(t, c.slot);
    if active.None? then
      Done(PersistIva(t, c.slot, Iva("", None, generation, Vacant, p.configured, areas)),
           Outcome(NoChange, None, "", row.correlation, generation))
    else
      var attempt := t.sessions[active.value].attempt;
      var o := Outcome(NoChange, active, attempt, row.correlation, generation);
      if !AllAreasKnown(p.configured, areas) || AnyAreaActive(p.configured, areas) then
        Done(PersistIva(t, c.slot, Iva(attempt, active, generation, Occupied, p.configured, areas)), o)
      else
        match ScheduleExit(t, c, generation, active.value)
        case None => Throw
        case Some(t1) =>
          Done(PersistIva(t1, c.slot, Iva(attempt, active, generation, VacantPending, p.configured, areas)),
               o.(code := ExitScheduled))
  }

  function NewDeadline(c: Command, attempt: string, session: nat, generation: nat): Deadline
    requires c.payload.Payload?
  {
    Deadline(c.slot, attempt, session, generation, c.payload.deadlineDueAt.GetOr(c.dueAt), c.payload.hybridOr,
             Scheduled, None)
  }

  /** Insert an exit deadline unless the slot has a live one; a used id is a failed insert. */
  function ScheduleExit(t: Tables, c: Command, generation: nat, session: nat): Option<Tables>
    requires c.payload.Payload? && session in t.sessions
  {
    var id := DeadlineId(c.slot, generation, session);
    if HasLiveDeadline(t.deadlines, c.slot) then Some(t)
    else if id in t.deadlines then None
    else Some(t.(deadlines := t.deadlines[id := NewDeadline(c, t.sessions[session].attempt, session, generation)]))
  }

  /** The deadline row is admitted and is the one the command describes. */
  predicate DeadlineMatches(t: Tables, c: Command)
    requires c.payload.Payload?
  {
    var p := c.payload;
    && p.deadlineId in t.deadlines
    && var d := t.deadlines[p.deadlineId];
       d.state.Admitted? && d.slot == c.slot && d.attempt == p.expectedAttempt &&
       Some(d.session) == p.expectedSession && d.generation == p.expectedGeneration
  }

  /** The slot's camera state and open session are still those of the deadline. */
  predicate DeadlineOwns(t: Tables, c: Command)
    requires c.payload.Payload?
  {
    var p := c.payload;
    var active := FindActive(t, c.slot);
    && c.slot in t.iva
    && t.iva[c.slot].attempt == p.expectedAttempt && t.iva[c.slot].session == p.expectedSession
    && t.iva[c.slot].generation == p.expectedGeneration && t.iva[c.slot].observed.VacantPending?
    && active.Some? && active == p.expectedSession && t.sessions[active.value].attempt == p.expectedAttempt
  }

  function MarkDeadline(t: Tables, id: string, state: DeadlineState): Tables
    requires id in t.deadlines
  {
    t.(deadlines := t.deadlines[id := t.deadlines[id].(state := state)])
  }

  function ReduceDeadline(t: Tables, row: Row): Reduction
    requires row.command.payload.Payload?
  {
    var c := row.command;
    var p := c.payload;
    var o := Outcome(StaleGeneration, None, row.attempt, row.correlation, row.generation);
    if !DeadlineMatches(t, c) then Done(t, o)
    else if !DeadlineOwns(t, c) then Done(MarkDeadline(t, p.deadlineId, Superseded), o)
    else DeadlineVacates(t, row)
  }

  function DeadlineVacates(t: Tables, row: Row): Reduction
    requires row.command.payload.Payload? && DeadlineMatches(t, row.command) && DeadlineOwns(t, row.command)
  {
    var c := row.command;
    var p := c.payload;
    var session := p.expectedSession.value;
    var s := t.sessions[session];
    var before := t.iva[c.slot];
    var o := Outcome(NoChange, Some(session), s.attempt, row.correlation, p.expectedGeneration);
    var t1 := MarkDeadline(UpdateIva(t, session, s.ivaConfirmed, false), p.deadlineId, DeadlineApplied);
    if p.hybridOr && s.hallConfirmed && s.hallOccupied then
      Done(PersistIva(t1, c.slot, Iva(s.attempt, Some(session), p.expectedGeneration, Vacant,
                                      before.configured, before.areas)), o)
    else
      match CloseSession(t1, c, session)
      case None => Throw
      case Some(t2) =>
        Done(PersistIva(t2, c.slot, Iva("", None, p.expectedGeneration, Vacant, before.configured, before.areas)),
             o.(code := SessionEnded))
  }

  ghost function Reduce(t: Tables, row: Row): Reduction
    requires row.command.payload.Payload?
  {
    match row.command.kind
    case HallObservation => ReduceHall(t, row)
    case CameraObservation => ReduceCamera(t, row)
    case ExitDeadline => ReduceDeadline(t, row)
  }

  // ----- the store calls -----

  predicate HasEffect(code: Code) {
    code.SessionStarted? || code.SessionEnded?
  }

  function FinishedRow(row: Row, out: Outcome): Row {
    row.(status := if out.code.RejectedInvalidTimestamp? then RejectedInvalid else Applied,
         attempt := out.attempt, correlation := out.correlation, generation := out.generation,
         result := Some(out.code), resultSession := out.session,
         effect := if HasEffect(out.code) then EffectPending else NoEffect, effectNextAttemptAt := 0)
  }

  function RejectedRow(row: Row): Row {
    row.(status := RejectedInvalid, result := Some(RejectedInvalidTimestamp))
  }

  function SetRow(t: Tables, id: string, row: Row): Tables {
    t.(inbox := t.inbox[id := row])
  }

  function StoredOutcome(row: Row, default: Code): Outcome {
    Outcome(row.result.GetOr(default), row.resultSession, row.attempt, row.correlation, row.generation)
  }

  datatype Application = Application(t: Tables, out: Outcome)

  const NO_OUTCOME := Outcome(RetryableFailure, None, "", "", 0)

  ghost function Apply(t: Tables, id: string): Application {
    if id == "" || id !in t.inbox then Application(t, NO_OUTCOME)
    else
      var row := t.inbox[id];
      if !row.command.payload.Payload? then
        Application(SetRow(t, id, RejectedRow(row)), StoredOutcome(RejectedRow(row), RejectedInvalidTimestamp))
      else if row.status.PendingPrepared? then Application(t, StoredOutcome(row, RetryableFailure))
      else if IsTerminal(row) then Application(t, StoredOutcome(row, AlreadyApplied))
      else
        match Reduce(t, row)
        case Done(t', out) => Application(SetRow(t', id, FinishedRow(row, out)), out)
        case Throw => Application(t, StoredOutcome(row, RetryableFailure).(code := RetryableFailure))
        case Invalid => Application(SetRow(t, id, RejectedRow(row)),
                                    StoredOutcome(RejectedRow(row), RejectedInvalidTimestamp))
  }

  function PendingIds(inbox: map<string, Row>): set<string> {
    set id | id in inbox && IsPending(inbox[id])
  }

  datatype AdmissionCode =
    | AdmittedNow
    | Existing
    | AlreadyTerminal
    | RejectedStale
    | Conflict
    | CapacityFull
    | AdmissionRetry

  datatype Admission = Admission(t: Tables, code: AdmissionCode, id: string)

  /** The redelivery identity of a source fact: the local receive time is not part of it. */
  predicate SameSourceFact(a: Command, b: Command) {
    && a.id == b.id && a.kind == b.kind && a.slot == b.slot && a.sensor == b.sensor
    && a.identity == b.identity && a.sequence == b.sequence
    && a.payload.Payload? && b.payload.Payload?
    && match a.kind
       case HallObservation => a.payload.(occurredAt := None) == b.payload.(occurredAt := None)
       case CameraObservation => a.payload.(deadlineDueAt := None) == b.payload.(deadlineDueAt := None)
       case ExitDeadline => a.dueAt == b.dueAt && a.payload == b.payload
  }

  predicate SameIdentity(r: Row, kind: Kind, identity: string) {
    r.command.kind == kind && r.command.identity == identity
  }

  ghost function FindIdentity(inbox: map<string, Row>, kind: Kind, identity: string): (r: Option<string>)
    ensures r.Some? ==> r.value in inbox && SameIdentity(inbox[r.value], kind, identity)
    ensures r.None? ==> forall k :: k in inbox ==> !SameIdentity(inbox[k], kind, identity)
  {
    if exists k :: k in inbox && SameIdentity(inbox[k], kind, identity)
    then var k :| k in inbox && SameIdentity(inbox[k], kind, identity); Some(k)
    else None
  }

  /** A Hall OCCUPIED observation that waits out its confirmation delay. */
  predicate IsConfirmation(r: Row, slot: string) {
    && r.command.slot == slot && r.command.kind.HallObservation? && IsPending(r)
    && r.command.payload.Payload? && r.command.payload.hallState.HallOccupied? && r.command.dueAt > 0
  }

  ghost predicate IsFirstConfirmation(inbox: map<string, Row>, slot: string, id: string) {
    && id in inbox && IsConfirmation(inbox[id], slot)
    && forall k :: k in inbox && IsConfirmation(inbox[k], slot) ==> inbox[id].ordinal <= inbox[k].ordinal
  }

  ghost function FirstConfirmation(inbox: map<string, Row>, slot: string): (r: Option<string>)
    ensures r.Some? ==> IsFirstConfirmation(inbox, slot, r.value)
  {
    if exists id :: IsFirstConfirmation(inbox, slot, id)
    then var id :| IsFirstConfirmation(inbox, slot, id); Some(id)
    else None
  }

  function CanceledRow(r: Row): Row {
    r.(status := Applied, result := Some(NoChange))
  }

  /** One more than the highest ordinal present. */
  ghost predicate IsNextOrdinal(inbox: map<string, Row>, n: nat) {
    && n > 0
    && (forall id :: id in inbox ==> inbox[id].ordinal < n)
    && (n == 1 || exists id :: id in inbox && inbox[id].ordinal == n - 1)
  }

  function NewRow(c: Command, ordinal: nat, correlation: string, clock: int): Row {
    Row(c, ordinal, PendingUnprepared, "", correlation, 0, 0, None, None, NoEffect, 0, clock)
  }

  ghost function Admit(t: Tables, c: Command, capacity: nat, clock: int): Admission {
    if c.id == "" || c.slot == "" || c.identity == "" || c.payload.Absent? || capacity == 0 ||
       (c.kind.CameraObservation? && c.payload.Malformed?)
    then Admission(t, Conflict, c.id)
    else
      var existing := FindIdentity(t.inbox, c.kind, c.identity);
      if existing.Some? then
        var row := t.inbox[existing.value];
        Admission(t, if !SameSourceFact(row.command, c) then Conflict
                     else if IsTerminal(row) then AlreadyTerminal else Existing, existing.value)
      else if c.kind.HallObservation? then AdmitHall(t, c, capacity, clock)
      else InsertCommand(t, t, c, capacity, clock)
  }

  ghost function AdmitHall(t: Tables, c: Command, capacity: nat, clock: int): Admission {
    if c.sensor == "" then Admission(t, Conflict, c.id)
    else if !c.payload.Payload? then Admission(t, AdmissionRetry, c.id)
    else if c.payload.protocol.None? then Admission(t, Conflict, c.id)
    else
      var decision := S.Evaluate(CursorOf(t.cursors, c.sensor), HallFact(c));
      if decision.Invalid? then Admission(t, Conflict, c.id)
      else if !decision.Accept? then Admission(t, RejectedStale, c.id)
      else if c.payload.hallState.HallOther? then Admission(t, Conflict, c.id)
      else
        var waiting := FirstConfirmation(t.inbox, c.slot);
        if waiting.Some? && c.payload.hallState.HallOccupied? then Admission(t, Existing, waiting.value)
        else if waiting.Some? && OccurredAt(c) < t.inbox[waiting.value].command.dueAt then
          InsertCommand(t, SetRow(t, waiting.value, CanceledRow(t.inbox[waiting.value])), c, capacity, clock)
        else InsertCommand(t, t, c, capacity, clock)
  }

  /** The last part of admission: `t` is what a rollback restores, `prepared` what the insert extends. */
  ghost function InsertCommand(t: Tables, prepared: Tables, c: Command, capacity: nat, clock: int): Admission {
    if |PendingIds(prepared.inbox)| >= capacity then Admission(t, CapacityFull, c.id)
    else if c.id in prepared.inbox || c.slot !in prepared.slots then Admission(t, AdmissionRetry, c.id)
    else
      var ordinal := NextOrdinal(prepared.inbox);
      var correlation := if c.kind.CameraObservation? && c.payload.Payload? then c.payload.correlationId else "";
      Admission(SetRow(prepared, c.id, NewRow(c, ordinal, correlation, clock)), AdmittedNow, c.id)
  }

  ghost function NextOrdinal(inbox: map<string, Row>): (n: nat)
    ensures IsNextOrdinal(inbox, n)
  {
    NextOrdinalExists(inbox.Keys, inbox);
    var n: nat :| IsNextOrdinal(inbox, n);
    n
  }

  function Restrict(inbox: map<string, Row>, ids: set<string>): map<string, Row> {
    map id | id in inbox && id in ids :: inbox[id]
  }

  lemma {:induction false} NextOrdinalExists(ids: set<string>, inbox: map<string, Row>)
    requires ids <= inbox.Keys
    ensures exists n: nat :: IsNextOrdinal(Restrict(inbox, ids), n)
    ensures ids == inbox.Keys ==> exists n: nat :: IsNextOrdinal(inbox, n)
  {
    if ids == {} {
      assert IsNextOrdinal(Restrict(inbox, ids), 1);
    } else {
      var x :| x in ids;
      NextOrdinalExists(ids - {x}, inbox);
      var m: nat :| IsNextOrdinal(Restrict(inbox, ids - {x}), m);
      var n := if inbox[x].ordinal < m then m else inbox[x].ordinal + 1;
      assert IsNextOrdinal(Restrict(inbox, ids), n) by {
        assert x in Restrict(inbox, ids);
        if n == m && n != 1 {
          var k :| k in Restrict(inbox, ids - {x}) && inbox[k].ordinal == n - 1;
          assert k in Restrict(inbox, ids);
        }
      }
    }
    if ids == inbox.Keys {
      assert Restrict(inbox, ids) == inbox;
    }
  }

  // ----- due deadlines -----

  predicate IsDue(d: Deadline, now: int, blocked: set<string>) {
    d.state.Scheduled? && d.dueAt <= now && d.slot !in blocked
  }

  function DueIds(deadlines: map<string, Deadline>, now: int, blocked: set<string>): set<string> {
    set d | d in deadlines && IsDue(deadlines[d], now, blocked)
  }

  /** Due time first, then deadline id. */
  predicate DueBefore(deadlines: map<string, Deadline>, a: string, b: string)
    requires a in deadlines && b in deadlines
  {
    deadlines[a].dueAt < deadlines[b].dueAt || (deadlines[a].dueAt == deadlines[b].dueAt && Before(a, b))
  }

  ghost predicate IsEarliest(deadlines: map<string, Deadline>, ids: set<string>, d: string)
    requires ids <= deadlines.Keys
  {
    d in ids && forall k :: k in ids && k != d ==> DueBefore(deadlines, d, k)
  }

  lemma {:induction false} EarliestExists(deadlines: map<string, Deadline>, ids: set<string>)
    requires ids <= deadlines.Keys && ids != {}
    ensures exists d :: IsEarliest(deadlines, ids, d)
  {
    var x :| x in ids;
    if ids == {x} {
      assert IsEarliest(deadlines, ids, x);
    } else {
      EarliestExists(deadlines, ids - {x});
      var d :| IsEarliest(deadlines, ids - {x}, d);
      BeforeIsTotal(x, d);
      if DueBefore(deadlines, d, x) {
        assert IsEarliest(deadlines, ids, d);
      } else {
        forall k | k in ids && k != x ensures DueBefore(deadlines, x, k) {
          if k != d {
            assert k in ids - {x} && DueBefore(deadlines, d, k);
            if deadlines[x].dueAt == deadlines[d].dueAt == deadlines[k].dueAt { BeforeIsTransitive(x, d, k); }
          }
        }
        assert IsEarliest(deadlines, ids, x);
      }
    }
  }

  lemma EarliestIsUnique(deadlines: map<string, Deadline>, ids: set<string>, a: string, b: string)
    requires ids <= deadlines.Keys
    requires IsEarliest(deadlines, ids, a) && IsEarliest(deadlines, ids, b)
    ensures a == b
  {
    BeforeIsTotal(a, b);
  }

  ghost function Earliest(deadlines: map<string, Deadline>, ids: set<string>): (d: string)
    requires ids <= deadlines.Keys && ids != {}
    ensures IsEarliest(deadlines, ids, d)
  {
    EarliestExists(deadlines, ids);
    var d :| IsEarliest(deadlines, ids, d);
    d
  }

  function DeadlineCommandId(d: string): string {
    "deadline-command:" + d
  }

  function DeadlineCommand(id: string, d: Deadline): Command {
    Command(DeadlineCommandId(id), ExitDeadline, d.slot, "", id, None,
            Payload(None, d.hybridOr, HallOther, Some(S.LegacyV1), None, OtherAction, true, true, "", [], "", "",
                    "", "",
                    "", "", None, None, None, id, Some(d.session), d.generation, d.attempt),
            d.dueAt)
  }

  function DeadlineRow(id: string, d: Deadline, ordinal: nat, clock: int): Row {
    NewRow(DeadlineCommand(id, d), ordinal, "", clock).(attempt := d.attempt, generation := d.generation)
  }

  /** Insert the command of one due deadline, unless its id or identity is taken, and mark the deadline admitted. */
  function AdmitDeadline(t: Tables, id: string, ordinal: nat, clock: int): Tables
    requires id in t.deadlines
  {
    var d := t.deadlines[id];
    var taken := DeadlineCommandId(id) in t.inbox ||
                 exists k :: k in t.inbox && SameIdentity(t.inbox[k], ExitDeadline, id);
    var inbox := if taken then t.inbox else t.inbox[DeadlineCommandId(id) := DeadlineRow(id, d, ordinal, clock)];
    t.(inbox := inbox,
       deadlines := t.deadlines[id := d.(state := Admitted, admittedBy := Some(DeadlineCommandId(id)))])
  }

  /** Admit the earliest due deadlines, as many as `room`, giving out consecutive ordinals. */
  ghost function AdmitBatch(t: Tables, ids: set<string>, room: nat, ordinal: nat, clock: int): Tables
    requires ids <= t.deadlines.Keys
    decreases room
  {
    if room == 0 || ids == {} then t
    else
      var d := Earliest(t.deadlines, ids);
      AdmitBatch(AdmitDeadline(t, d, ordinal, clock), ids - {d}, room - 1, ordinal + 1, clock)
  }

  ghost function AdmitDue(t: Tables, now: int, capacity: nat, blocked: set<string>, clock: int): Tables {
    var pending := |PendingIds(t.inbox)|;
    if pending >= capacity then t
    else AdmitBatch(t, DueIds(t.deadlines, now, blocked), capacity - pending, NextOrdinal(t.inbox), clock)
  }

  // ----- the runnable head, effects, retention -----

  predicate IsHead(inbox: map<string, Row>, id: string) {
    && id in inbox && IsPending(inbox[id])
    && forall k :: k in inbox && inbox[k].command.slot == inbox[id].command.slot && IsPending(inbox[k]) ==>
         inbox[id].ordinal <= inbox[k].ordinal
  }

  predicate IsRunnable(inbox: map<string, Row>, id: string, now: int) {
    IsHead(inbox, id) && inbox[id].command.dueAt <= now && inbox[id].nextAttemptAt <= now
  }

  function Defer(t: Tables, id: string, next: int): Tables {
    if id in t.inbox && IsPending(t.inbox[id]) then SetRow(t, id, t.inbox[id].(nextAttemptAt := next)) else t
  }

  predicate OwesEffect(r: Row) {
    r.status.Applied? && r.effect.EffectPending?
  }

  predicate IsEffectHead(inbox: map<string, Row>, id: string) {
    && id in inbox && OwesEffect(inbox[id])
    && forall k :: k in inbox && inbox[k].command.slot == inbox[id].command.slot && OwesEffect(inbox[k]) ==>
         inbox[id].ordinal <= inbox[k].ordinal
  }

  function CompleteEffect(t: Tables, id: string): Tables {
    if id in t.inbox && OwesEffect(t.inbox[id])
    then SetRow(t, id, t.inbox[id].(effect := EffectApplied, effectNextAttemptAt := 0)) else t
  }

  function DeferEffect(t: Tables, id: string, next: int): Tables {
    if id in t.inbox && OwesEffect(t.inbox[id]) then SetRow(t, id, t.inbox[id].(effectNextAttemptAt := next)) else t
  }

  predicate IsSettled(r: Row, before: int) {
    r.status.Applied? && !r.effect.EffectPending? && r.createdAt < before
  }

  function SettledIds(inbox: map<string, Row>, before: int): set<string> {
    set id | id in inbox && IsSettled(inbox[id], before)
  }

  function Older(ids: set<string>, inbox: map<string, Row>, id: string): set<string>
    requires ids <= inbox.Keys && id in inbox
  {
    set k | k in ids && inbox[k].ordinal < inbox[id].ordinal
  }

  /** The rows with fewer than `limit` older ones among them. */
  function OldestOf(ids: set<string>, inbox: map<string, Row>, limit: nat): set<string>
    requires ids <= inbox.Keys
  {
    set id | id in ids && |Older(ids, inbox, id)| < limit
  }

  function PurgedIds(inbox: map<string, Row>, before: int, limit: nat): set<string> {
    OldestOf(SettledIds(inbox, before), inbox, limit)
  }

  function Purge(t: Tables, before: int, limit: nat): Tables {
    t.(inbox := t.inbox - PurgedIds(t.inbox, before, limit))
  }

  /** The overstay timer: an open, not yet violating session becomes a violation. */
  function MarkViolation(t: Tables, session: nat): Tables {
    if session in t.sessions && t.sessions[session].status.Active? && t.sessions[session].exitMs.None?
    then t.(sessions := t.sessions[session := t.sessions[session].(status := Violation)]) else t
  }
}
