/**
 What the sources said against what the tables hold: a session's flags follow the Hall and camera facts applied since
 it began, an area is active when its last camera fact was an intrusion, and under HYBRID_OR a session ends only when
 the facts of every source say so.
 */
module OccupancySources {
  import opened Option
  import opened OccupancyTables
  import opened OccupancyInvariant
  import opened OccupancyReducers
  import opened OccupancyRun
  import opened OccupancyEffects
  import opened OccupancyFacts
  import opened OccupancyCursors
  import opened OccupancySlots
  import opened OccupancyThrows
  import opened ParkingCorrelation
  import S = SensorSequence

  // ----- what a call lets the slot hear -----

  /** The call applies a pending, readable command of the slot. */
  predicate Applies(t: Tables, e: Event, slot: string) {
    e.ApplyCall? && e.id != "" && Reduces(t, e.id) && t.inbox[e.id].command.slot == slot
  }

  /** A Hall fact that its sensor's cursor accepts, that is neither refused for its time or state nor thrown out. */
  predicate HearsHall(t: Tables, e: Event, slot: string) {
    && Applies(t, e, slot)
    && var c := t.inbox[e.id].command;
       c.kind.HallObservation? && c.payload.protocol.Some? && S.Accepts(CursorOf(t.cursors, c.sensor), HallFact(c)) &&
       !Refuses(t, c) && !Breaks(t, c)
  }

  predicate IsAuthority(c: Command) {
    && c.kind.CameraObservation? && c.payload.Payload? && c.payload.occupancyAuthority
    && c.payload.configured != [] && c.payload.areaKey != ""
  }

  /** An INTRUSION of the occupancy authority that can be applied. */
  ghost predicate HearsIntrusion(t: Tables, e: Event, slot: string) {
    && Applies(t, e, slot)
    && var c := t.inbox[e.id].command;
       IsAuthority(c) && c.payload.action.Intrusion? && !TopologyDiffers(t, c) && !IntrusionThrows(t, c)
  }

  /** An authoritative EXIT, not older than the open session, that can be applied. */
  predicate HearsExit(t: Tables, e: Event, slot: string) {
    && Applies(t, e, slot)
    && var row := t.inbox[e.id];
       IsAuthority(row.command) && row.command.payload.action.Exit? && row.command.payload.authoritativeExit &&
       !TooOld(t, row.command) && !TopologyDiffers(t, row.command) && !Collides(t, row)
  }

  predicate TooOld(t: Tables, c: Command) {
    var active := FindActive(t, c.slot);
    active.Some? && OccurredAt(c) < t.sessions[active.value].entryMs
  }

  /** An exit deadline that still owns the slot and can be applied. */
  predicate HearsDeadline(t: Tables, e: Event, slot: string) {
    && Applies(t, e, slot)
    && var c := t.inbox[e.id].command;
       c.kind.ExitDeadline? && DeadlineMatches(t, c) && DeadlineOwns(t, c) && !DeadlineThrows(t, c)
  }

  predicate Opens(t: Tables, t': Tables, slot: string) {
    FindActive(t, slot).None? && FindActive(t', slot).Some?
  }

  // ----- what the facts of a run say about the open session -----

  /** The last Hall fact since the session began said OCCUPIED; a session of before the run is taken at its word. */
  ghost predicate HallHolds(run: Run, slot: string) {
    match run
    case Start(t) => FindActive(t, slot).Some? && t.sessions[FindActive(t, slot).value].hallOccupied
    case Then(prior, e) =>
      if HearsHall(Final(prior), e, slot) then Final(prior).inbox[e.id].command.payload.hallState.HallOccupied?
      else !Opens(Final(prior), Final(run), slot) && HallHolds(prior, slot)
  }

  /** Some Hall fact since the session began said OCCUPIED. */
  ghost predicate HallConfirmed(run: Run, slot: string) {
    match run
    case Start(t) => FindActive(t, slot).Some? && t.sessions[FindActive(t, slot).value].hallConfirmed
    case Then(prior, e) =>
      || (HearsHall(Final(prior), e, slot) && Final(prior).inbox[e.id].command.payload.hallState.HallOccupied?)
      || (!Opens(Final(prior), Final(run), slot) && HallConfirmed(prior, slot))
  }

  /** Of the camera's facts since the session began the last was an INTRUSION and not an applied exit deadline. */
  ghost predicate CameraHolds(run: Run, slot: string) {
    match run
    case Start(t) => FindActive(t, slot).Some? && t.sessions[FindActive(t, slot).value].ivaOccupied
    case Then(prior, e) =>
      || HearsIntrusion(Final(prior), e, slot)
      || (!HearsDeadline(Final(prior), e, slot) && !Opens(Final(prior), Final(run), slot) && CameraHolds(prior, slot))
  }

  /** There was an INTRUSION since the session began. */
  ghost predicate CameraConfirmed(run: Run, slot: string) {
    match run
    case Start(t) => FindActive(t, slot).Some? && t.sessions[FindActive(t, slot).value].ivaConfirmed
    case Then(prior, e) =>
      || HearsIntrusion(Final(prior), e, slot)
      || (!Opens(Final(prior), Final(run), slot) && CameraConfirmed(prior, slot))
  }

  // ----- the flags after one call -----

  datatype Flags = Flags(hallConfirmed: bool, hallOccupied: bool, ivaConfirmed: bool, ivaOccupied: bool)

  const NO_FLAGS := Flags(false, false, false, false)

  function FlagsOf(s: Session): Flags {
    Flags(s.hallConfirmed, s.hallOccupied, s.ivaConfirmed, s.ivaOccupied)
  }

  /** The flags of the slot's open session; none are set when there is none. */
  function SlotFlags(t: Tables, slot: string): Flags {
    if FindActive(t, slot).Some? then FlagsOf(t.sessions[FindActive(t, slot).value]) else NO_FLAGS
  }

  lemma EntrySessions(t: Tables, row: Row)
    requires row.command.payload.Payload? && row.command.payload.protocol.Some? && HallEnters(t, row).Done?
    ensures var c, r := row.command, HallEnters(t, row);
            var active := FindActive(t, c.slot);
            if active.Some?
            then !HasEffect(r.out.code) && r.t.sessions ==
                 t.sessions[active.value := t.sessions[active.value].(hallConfirmed := true, hallOccupied := true)]
            else r.out.code.SessionStarted? && r.t.sessions == t.sessions[t.nextSession := NewSession(c)]
  {
    hide LatestOpen, CommitSequence, EntryCommandTaken, NewSession;
    var c := row.command;
    var active := FindActive(t, c.slot);
    if active.Some? {
      SequenceStays(UpdateHall(t, active.value, true, true), c);
    } else if CreateSession(t, c).Some? {
      SequenceStays(CreateSession(t, c).value, c);
    }
  }

  lemma LeavingSessions(t: Tables, row: Row)
    requires row.command.payload.Payload? && row.command.payload.protocol.Some? && HallLeaves(t, row).Done?
    ensures var c, r := row.command, HallLeaves(t, row);
            var active := FindActive(t, c.slot);
            r.out.code.SessionEnded? ||
            (!HasEffect(r.out.code) && r.t.sessions ==
             if active.None? || TooOld(t, c) || (c.payload.hybridOr && !t.sessions[active.value].hallConfirmed)
             then t.sessions
             else t.sessions[active.value := t.sessions[active.value].(hallOccupied := false)])
  {
    hide LatestOpen, CommitSequence, CloseSession;
    var c := row.command;
    var active := FindActive(t, c.slot);
    SequenceStays(t, c);
    if active.None? {
      SequenceStays(if c.slot in t.slots then t.(slots := t.slots[c.slot := SlotVacant]) else t, c);
    } else {
      SequenceStays(UpdateHall(t, active.value, t.sessions[active.value].hallConfirmed, false), c);
    }
  }

  lemma EntryFlags(t: Tables, row: Row)
    requires row.command.payload.Payload? && row.command.payload.protocol.Some? && HallEnters(t, row).Done?
    requires row.command.kind.HallObservation?
    requires ActiveMoves(t, HallEnters(t, row).t, row.command.slot, HallEnters(t, row).out)
    ensures SlotFlags(HallEnters(t, row).t, row.command.slot) ==
            SlotFlags(t, row.command.slot).(hallConfirmed := true, hallOccupied := true)
  {
    hide FindActive, HallEnters;
    EntrySessions(t, row);
  }

  lemma LeavingFlags(t: Tables, row: Row)
    requires row.command.payload.Payload? && row.command.payload.protocol.Some? && HallLeaves(t, row).Done?
    requires ActiveMoves(t, HallLeaves(t, row).t, row.command.slot, HallLeaves(t, row).out)
    requires SessionsOk(t.sessions, t.nextSession) && !TooOld(t, row.command)
    ensures FindActive(HallLeaves(t, row).t, row.command.slot).Some? ==>
              SlotFlags(HallLeaves(t, row).t, row.command.slot) ==
              SlotFlags(t, row.command.slot).(hallOccupied := false)
  {
    LeavingSessions(t, row);
    ActiveIsOk(t, row.command.slot);
    hide FindActive, HallLeaves, SessionsOk;
  }

  lemma HallFlags(t: Tables, row: Row)
    requires DomainOk(t) && row.command.kind.HallObservation? && row.command.payload.Payload?
    requires ReduceHall(t, row).Done?
    ensures var c, t' := row.command, ReduceHall(t, row).t;
            && row.command.payload.protocol.Some?
            && (FindActive(t', c.slot).Some? ==>
                  SlotFlags(t', c.slot) ==
                  if !S.Accepts(CursorOf(t.cursors, c.sensor), HallFact(c)) || Refuses(t, c) then SlotFlags(t, c.slot)
                  else if c.payload.hallState.HallOccupied?
                  then SlotFlags(t, c.slot).(hallConfirmed := true, hallOccupied := true)
                  else SlotFlags(t, c.slot).(hallOccupied := false))
  {
    var r, c := ReduceHall(t, row), row.command;
    ReduceHallKeeps(t, row);
    KeptSays(t, r, c.slot);
    MovesActive(t, r.t, c.slot, r.out);
    DomainSessions(t);
    hide DomainOk, FindActive, HallEnters, HallLeaves, S.Accepts, Moves, Kept, ActiveMoves, SlotFlags, SessionsOk;
    if S.Accepts(CursorOf(t.cursors, c.sensor), HallFact(c)) {
      if c.payload.hallState.HallOccupied? {
        EntryFlags(t, row);
      } else if TooOld(t, c) {
        OldVacancyIsRefused(t, row);
      } else {
        LeavingFlags(t, row);
      }
    }
  }

  lemma OldVacancyIsRefused(t: Tables, row: Row)
    requires row.command.payload.Payload? && row.command.payload.protocol.Some? && TooOld(t, row.command)
    ensures HallLeaves(t, row).Done? && HallLeaves(t, row).t == t
  {
  }

  lemma MovesActive(t: Tables, t': Tables, slot: string, out: Outcome)
    requires Moves(t, t', slot, out)
    ensures ActiveMoves(t, t', slot, out)
  {
  }

  lemma DomainSessions(t: Tables)
    requires DomainOk(t)
    ensures SessionsOk(t.sessions, t.nextSession)
  {
  }

  lemma IntrusionIsReduced(t: Tables, row: Row)
    requires row.command.payload.Payload? && IsAuthority(row.command) && row.command.payload.action.Intrusion?
    ensures ReduceCamera(t, row) == if TopologyDiffers(t, row.command) then Throw else CameraIntrudes(t, row)
    ensures !CameraIntrudes(t, row).Invalid?
  {
    hide FindActive, CommitCorrelation, CreateSession, UpdateIva, IvaBefore, Supersede;
  }

  lemma CameraFlags(t: Tables, row: Row)
    requires DomainOk(t) && row.command.kind.CameraObservation? && row.command.payload.Payload?
    requires ReduceCamera(t, row).Done?
    ensures var c, t' := row.command, ReduceCamera(t, row).t;
            FindActive(t', c.slot).Some? ==>
              SlotFlags(t', c.slot) ==
              if IsAuthority(c) && c.payload.action.Intrusion?
              then SlotFlags(t, c.slot).(ivaConfirmed := true, ivaOccupied := true)
              else SlotFlags(t, c.slot)
  {
    hide DomainOk, ReduceCamera, FindActive, Kept, Moves, ActiveMoves, SlotFlags;
    ReduceCameraKeeps(t, row);
    KeptSays(t, ReduceCamera(t, row), row.command.slot);
    MovesActive(t, ReduceCamera(t, row).t, row.command.slot, ReduceCamera(t, row).out);
    var c := row.command;
    if IsAuthority(c) && c.payload.action.Intrusion? {
      IntrusionIsReduced(t, row);
      IntrusionFlags(t, row);
    } else {
      OthersLeaveSessions(t, row);
      SameFlags(t, ReduceCamera(t, row).t, c.slot);
    }
  }

  lemma IntrusionSessions(t: Tables, row: Row)
    requires row.command.payload.Payload? && CameraIntrudes(t, row).Done?
    ensures var c, r := row.command, CameraIntrudes(t, row);
            var active := FindActive(t, c.slot);
            if active.Some?
            then !HasEffect(r.out.code) && r.t.sessions ==
                 t.sessions[active.value := t.sessions[active.value].(ivaConfirmed := true, ivaOccupied := true)]
            else r.out.code.SessionStarted? && r.t.sessions == t.sessions[t.nextSession := NewSession(c)]
  {
    hide FindActive, EntryCommandTaken, CommitCorrelation, IvaBefore, IntrusionGeneration, Supersede, OtherBindingsStay,
         IntrusionBinds, NewSession, AttemptOf;
    forall t2: Tables, out, session: nat { BindingFrame(t2, row, out, session); }
  }

  lemma BindingFrame(t: Tables, row: Row, out: Outcome, session: nat)
    requires row.command.payload.Payload?
    ensures var r := IntrusionBinds(t, row, out, session);
            r.Done? ==> r.t == t.(bindings := r.t.bindings) && r.out.code == out.code
  {
    hide CommitCorrelation, OtherBindingsStay;
    CorrelationStays(t, row.command, out.attempt, session);
  }

  lemma IntrusionFlags(t: Tables, row: Row)
    requires row.command.kind.CameraObservation? && row.command.payload.Payload? && CameraIntrudes(t, row).Done?
    requires ActiveMoves(t, CameraIntrudes(t, row).t, row.command.slot, CameraIntrudes(t, row).out)
    ensures var c, t' := row.command, CameraIntrudes(t, row).t;
            FindActive(t', c.slot).Some? && SlotFlags(t', c.slot) ==
            SlotFlags(t, c.slot).(ivaConfirmed := true, ivaOccupied := true)
  {
    hide FindActive, CameraIntrudes;
    IntrusionSessions(t, row);
  }

  lemma ExitLeavesSessions(t: Tables, row: Row)
    requires row.command.payload.Payload? && CameraExits(t, row).Done?
    ensures CameraExits(t, row).t.sessions == t.sessions && CameraExits(t, row).t.nextSession == t.nextSession
  {
    hide FindActive, IvaBefore, AllAreasKnown, AnyAreaActive, AreaActive, ScheduleExit;
    var c := row.command;
    if FindActive(t, c.slot).Some? {
      ScheduleLeavesSessions(t, c, GenerationAfterExit(t, row), FindActive(t, c.slot).value);
    }
  }

  lemma ScheduleLeavesSessions(t: Tables, c: Command, generation: nat, session: nat)
    requires c.payload.Payload? && session in t.sessions
    ensures var r := ScheduleExit(t, c, generation, session);
            r.Some? ==> r.value.sessions == t.sessions && r.value.nextSession == t.nextSession
  {
    hide HasLiveDeadline, DeadlineId;
  }

  lemma OthersLeaveSessions(t: Tables, row: Row)
    requires row.command.payload.Payload? && row.command.kind.CameraObservation? && ReduceCamera(t, row).Done?
    requires !(IsAuthority(row.command) && row.command.payload.action.Intrusion?)
    ensures ReduceCamera(t, row).t.sessions == t.sessions && ReduceCamera(t, row).t.nextSession == t.nextSession
  {
    hide FindActive, CameraIntrudes, CameraExits, CommitCorrelation, IvaBefore, OtherBindingsStay;
    var c := row.command;
    var active := FindActive(t, c.slot);
    if CameraExits(t, row).Done? { ExitLeavesSessions(t, row); }
    if active.Some? { CorrelationStays(t, c, t.sessions[active.value].attempt, active.value); }
  }

  lemma VacatingSessions(t: Tables, row: Row)
    requires row.command.payload.Payload? && DeadlineMatches(t, row.command) && DeadlineOwns(t, row.command)
    requires DeadlineVacates(t, row).Done?
    ensures var c, r := row.command, DeadlineVacates(t, row);
            var active := FindActive(t, c.slot);
            && active.Some?
            && (r.out.code.SessionEnded? ||
                (!HasEffect(r.out.code) &&
                 r.t.sessions == t.sessions[active.value := t.sessions[active.value].(ivaOccupied := false)]))
  {
    hide LatestOpen, CloseSession;
  }

  lemma DeadlineFlags(t: Tables, row: Row)
    requires DomainOk(t) && row.command.payload.Payload? && ReduceDeadline(t, row).Done?
    ensures var c, t' := row.command, ReduceDeadline(t, row).t;
            FindActive(t', c.slot).Some? ==>
              SlotFlags(t', c.slot) ==
              if DeadlineMatches(t, c) && DeadlineOwns(t, c) then SlotFlags(t, c.slot).(ivaOccupied := false)
              else SlotFlags(t, c.slot)
  {
    hide DomainOk, FindActive, Kept, Moves, DeadlineVacates, DeadlineMatches, DeadlineOwns;
    var r, c := ReduceDeadline(t, row), row.command;
    ReduceDeadlineKeeps(t, row);
    KeptSays(t, r, c.slot);
    MovesActive(t, r.t, c.slot, r.out);
    if DeadlineMatches(t, c) && DeadlineOwns(t, c) { VacatingSessions(t, row); } else { SameFlags(t, r.t, c.slot); }
  }

  /** What the call makes of the flags of a session that is open after it. */
  ghost function FlagsAfter(t: Tables, e: Event, slot: string): Flags {
    var f := SlotFlags(t, slot);
    if HearsHall(t, e, slot) then
      if t.inbox[e.id].command.payload.hallState.HallOccupied? then f.(hallConfirmed := true, hallOccupied := true)
      else f.(hallOccupied := false)
    else if HearsIntrusion(t, e, slot) then f.(ivaConfirmed := true, ivaOccupied := true)
    else if HearsDeadline(t, e, slot) then f.(ivaOccupied := false)
    else f
  }

  lemma StandingFlags(t: Tables, t': Tables, slot: string)
    requires SlotStands(t, t', slot)
    ensures SlotFlags(t', slot) == SlotFlags(t, slot)
  {
    hide LatestOpen, DeadlinesStand, BindingsStand;
  }

  lemma ReduceFlags(t: Tables, id: string)
    requires DomainOk(t) && TracksUnique(t.bindings) && id != "" && Reduces(t, id) && Reduce(t, t.inbox[id]).Done?
    ensures var slot, t' := t.inbox[id].command.slot, Reduce(t, t.inbox[id]).t;
            FindActive(t', slot).Some? ==> SlotFlags(t', slot) == FlagsAfter(t, ApplyCall(id), slot)
  {
    hide DomainOk, TracksUnique, FindActive, ReduceHall, ReduceCamera, ReduceDeadline, Obstructed, SlotFlags, Refuses,
         Breaks, S.Accepts, TopologyDiffers, IntrusionThrows, DeadlineThrows;
    var row := t.inbox[id];
    match row.command.kind
    case HallObservation =>
      HallFlags(t, row);
      if S.Accepts(CursorOf(t.cursors, row.command.sensor), HallFact(row.command)) { HallOutcomes(t, row); }
    case CameraObservation =>
      CameraFlags(t, row);
      CameraThrowsExactlyWhen(t, row);
    case ExitDeadline =>
      DeadlineFlags(t, row);
      DeadlineThrowsExactlyWhen(t, row);
  }

  /** A command that is refused or thrown out is heard by nobody. */
  lemma UnheardUnlessDone(t: Tables, id: string)
    requires DomainOk(t) && TracksUnique(t.bindings) && id != "" && Reduces(t, id) && !Reduce(t, t.inbox[id]).Done?
    ensures FlagsAfter(t, ApplyCall(id), t.inbox[id].command.slot) == SlotFlags(t, t.inbox[id].command.slot)
  {
    hide DomainOk, TracksUnique, FindActive, SlotFlags, S.Accepts, Breaks, TopologyDiffers, IntrusionThrows,
         DeadlineThrows, HallEnters, HallLeaves, CameraIntrudes, CameraExits, CameraCorrelates, DeadlineVacates;
    var row := t.inbox[id];
    match row.command.kind
    case HallObservation =>
      if row.command.payload.protocol.Some? &&
        S.Accepts(CursorOf(t.cursors, row.command.sensor), HallFact(row.command)) {
        HallOutcomes(t, row);
      }
    case CameraObservation =>
      CameraThrowsExactlyWhen(t, row);
      if IsAuthority(row.command) && row.command.payload.action.Intrusion? { IntrusionIsReduced(t, row); }
    case ExitDeadline =>
      DeadlineThrowsExactlyWhen(t, row);
      DeadlineIsReadable(t, row);
  }

  lemma DeadlineIsReadable(t: Tables, row: Row)
    requires row.command.payload.Payload?
    ensures !ReduceDeadline(t, row).Invalid?
  {
    hide FindActive, CloseSession, UpdateIva;
  }

  lemma StepFlags(t: Tables, e: Event, slot: string)
    requires Sound(t) && TracksUnique(t.bindings) && Listed(t, e)
    ensures FindActive(Step(t, e), slot).Some? ==> SlotFlags(Step(t, e), slot) == FlagsAfter(t, e, slot)
  {
    hide Sound, TracksUnique, FindActive, Apply, Reduce, SlotFlags, SlotStands, Listed, Admit, AdmitDue, Attach;
    DomainOf(t);
    if !e.ApplyCall? {
      OtherCallStands(t, e, slot);
      StandingFlags(t, Step(t, e), slot);
    } else if Applies(t, e, slot) {
      ApplyIsReduction(t, e.id);
      if Reduce(t, t.inbox[e.id]).Done? {
        ReduceFlags(t, e.id);
        SameFlags(Reduce(t, t.inbox[e.id]).t, Apply(t, e.id).t, slot);
      } else {
        UnheardUnlessDone(t, e.id);
        SameFlags(t, Apply(t, e.id).t, slot);
      }
    } else if e.id == "" {
      NamelessMovesNothing(t);
    } else {
      ApplyStands(t, e.id, slot);
      StandingFlags(t, Step(t, e), slot);
    }
  }

  lemma NamelessMovesNothing(t: Tables)
    ensures Apply(t, "").t == t
  {
  }

  lemma SameFlags(t: Tables, t': Tables, slot: string)
    requires t'.sessions == t.sessions && t'.nextSession == t.nextSession
    ensures FindActive(t', slot) == FindActive(t, slot) && SlotFlags(t', slot) == SlotFlags(t, slot)
  {
    SameSessionsSameActive(t, t');
    hide FindActive;
  }

  // ----- over a run -----

  /** What the facts of the run say, flag by flag. */
  ghost function FactFlags(run: Run, slot: string): Flags {
    Flags(HallConfirmed(run, slot), HallHolds(run, slot), CameraConfirmed(run, slot), CameraHolds(run, slot))
  }

  /** In every reachable state the flags of an open session are what the facts since it began say. */
  lemma {:induction false} FlagsFollowFacts(run: Run, slot: string)
    requires Valid(run)
    ensures FindActive(Final(run), slot).Some? ==> SlotFlags(Final(run), slot) == FactFlags(run, slot)
  {
    hide Sound, Step, Listed, FindActive, HearsHall, HearsIntrusion, HearsDeadline, TracksUnique;
    match run
    case Start(t) =>
    case Then(prior, e) =>
      FlagsFollowFacts(prior, slot);
      ReachableIsSound(prior);
      TracksAreUnique(prior);
      StepFlags(Final(prior), e, slot);
      HeardOnce(Final(prior), e, slot);
  }

  lemma HeardOnce(t: Tables, e: Event, slot: string)
    ensures HearsHall(t, e, slot) ==> !HearsIntrusion(t, e, slot) && !HearsDeadline(t, e, slot)
    ensures HearsIntrusion(t, e, slot) ==> !HearsDeadline(t, e, slot)
  {
    hide FindActive, S.Accepts, Breaks, Refuses, IntrusionThrows, DeadlineThrows, DeadlineOwns, DeadlineMatches;
  }

  // ----- when a session ends, over the facts -----

  lemma FlagsOfActive(run: Run, slot: string)
    requires Valid(run) && FindActive(Final(run), slot).Some?
    ensures var s := Final(run).sessions[FindActive(Final(run), slot).value];
            && s.hallConfirmed == HallConfirmed(run, slot) && s.hallOccupied == HallHolds(run, slot)
            && s.ivaConfirmed == CameraConfirmed(run, slot) && s.ivaOccupied == CameraHolds(run, slot)
  {
    hide Valid, Final, FindActive, HallConfirmed, HallHolds, CameraConfirmed, CameraHolds;
    FlagsFollowFacts(run, slot);
  }

  /**
   In every reachable state a Hall VACANT ends the open session exactly when its fact is accepted, its time is not
   before the entry, its exit id is free and, under HYBRID_OR, a Hall fact has said OCCUPIED since the session began
   and the camera's facts do not hold it.
   */
  lemma HallEndsExactlyWhen(run: Run, row: Row)
    requires Valid(run) && row.command.payload.Payload? && row.command.payload.protocol.Some?
    requires row.command.payload.hallState.HallVacant?
    ensures var t, c, r := Final(run), row.command, ReduceHall(Final(run), row);
            r.Done? && r.out.code.SessionEnded? <==>
              && S.Accepts(CursorOf(t.cursors, c.sensor), HallFact(c))
              && FindActive(t, c.slot).Some? && !TooOld(t, c) && !ExitCommandTaken(t.sessions, c.id)
              && (c.payload.hybridOr ==> HallConfirmed(run, c.slot) && !CameraHolds(run, c.slot))
  {
    hide Valid, Final, DomainOk, ReduceHall, FindActive, HallConfirmed, CameraHolds, S.Accepts, ExitCommandTaken;
    ReachableIsSound(run);
    HallVacancyEndsExactlyWhen(Final(run), row);
    if FindActive(Final(run), row.command.slot).Some? { FlagsOfActive(run, row.command.slot); }
  }

  /**
   An exit deadline ends it exactly when it still owns the slot, its time is not before the entry, its exit id is free
   and, under HYBRID_OR, the last Hall fact since the session began did not say OCCUPIED.
   */
  lemma DeadlineEndsByFacts(run: Run, row: Row)
    requires Valid(run) && row.command.payload.Payload?
    ensures var t, c, r := Final(run), row.command, ReduceDeadline(Final(run), row);
            r.Done? && r.out.code.SessionEnded? <==>
              && DeadlineMatches(t, c) && DeadlineOwns(t, c) && !TooOld(t, c) && !ExitCommandTaken(t.sessions, c.id)
              && (c.payload.hybridOr ==> !HallHolds(run, c.slot))
  {
    hide Valid, Final, DomainOk, ReduceDeadline, FindActive, HallHolds, DeadlineMatches, ExitCommandTaken;
    ReachableIsSound(run);
    DeadlineEndsExactlyWhen(Final(run), row);
    OwnerIsActive(Final(run), row.command);
    if FindActive(Final(run), row.command.slot).Some? { FlagsOfActive(run, row.command.slot); }
  }

  /**
   Under HYBRID_OR a session ends only when the facts of every source say so: by a Hall VACANT when the camera's last
   fact does not hold it, by an exit deadline when the last Hall fact does not.
   */
  lemma HybridEndsOnlyWhenFactsSay(run: Run, id: string)
    requires Valid(run) && id != "" && Reduces(Final(run), id) && Final(run).inbox[id].command.payload.hybridOr
    requires Apply(Final(run), id).out.code.SessionEnded?
    ensures var c := Final(run).inbox[id].command;
            || (c.kind.HallObservation? && c.payload.hallState.HallVacant? && !CameraHolds(run, c.slot))
            || (c.kind.ExitDeadline? && !HallHolds(run, c.slot))
  {
    hide Valid, Final, DomainOk, Apply, FindActive, HallHolds, CameraHolds;
    ReachableIsSound(run);
    HybridEndsOnlyWhenAllVacant(Final(run), id);
    FlagsOfActive(run, Final(run).inbox[id].command.slot);
  }
}
