/**
 The camera's areas over whole runs: an area is active exactly when the last camera fact about it was an intrusion, and
 an EXIT leaves a vacancy pending exactly when the last fact about every configured area was an exit.
 */
module OccupancyAreas {
  import opened Option
  import opened OccupancyTables
  import opened OccupancyInvariant
  import opened OccupancyRun
  import opened OccupancyFacts
  import opened OccupancySlots
  import opened OccupancyThrows
  import opened OccupancySources
  import opened OccupancyVacancy
  import opened ParkingCorrelation

  /** What the last camera fact about the area said: INTRUSION or EXIT. */
  ghost function LastArea(run: Run, slot: string, key: string): Option<bool> {
    match run
    case Start(_) => None
    case Then(prior, e) => HeardArea(Final(prior), e, slot, key, LastArea(prior, slot, key))
  }

  /** What is known of the area after the call, given what was known before. */
  ghost function HeardArea(t: Tables, e: Event, slot: string, key: string, before: Option<bool>): Option<bool> {
    if HearsIntrusion(t, e, slot) && t.inbox[e.id].command.payload.areaKey == key then Some(true)
    else if HearsExit(t, e, slot) && t.inbox[e.id].command.payload.areaKey == key then Some(false)
    else before
  }

  /** What the camera row holds about the area. */
  function StoredArea(iva: map<string, Iva>, slot: string, key: string): Option<bool> {
    if slot in iva && key in iva[slot].areas then Some(iva[slot].areas[key]) else None
  }

  // ----- one reduction -----

  lemma IntrusionAreas(t: Tables, row: Row)
    requires row.command.payload.Payload? && CameraIntrudes(t, row).Done?
    ensures var c, iva := row.command, CameraIntrudes(t, row).t.iva;
            c.slot in iva && iva[c.slot].areas == IvaBefore(t, row).areas[c.payload.areaKey := true]
  {
    hide FindActive, IntrusionBinds, EntryCommandTaken, IvaBefore, IntrusionGeneration, AttemptOf, Supersede,
         OtherBindingsStay;
    forall t1: Tables, out, session: nat { BindingStays(t1, row, out, session); }
  }

  lemma ExitAreasAre(t: Tables, row: Row)
    requires row.command.payload.Payload? && CameraExits(t, row).Done?
    ensures var c, iva := row.command, CameraExits(t, row).t.iva;
            c.slot in iva && iva[c.slot].areas == IvaBefore(t, row).areas[c.payload.areaKey := false]
  {
    hide FindActive, CameraExits, IvaBefore, ScheduleExit, GenerationAfterExit;
    if CameraExits(t, row).out.code.ExitScheduled? { ScheduledShape(t, row); } else { UnscheduledShape(t, row); }
  }

  lemma StoredAfter(t: Tables, iva: map<string, Iva>, row: Row, value: bool, key: string)
    requires row.command.payload.Payload? && row.command.slot in iva
    requires iva[row.command.slot].areas == IvaBefore(t, row).areas[row.command.payload.areaKey := value]
    ensures StoredArea(iva, row.command.slot, key) ==
            if key == row.command.payload.areaKey then Some(value) else StoredArea(t.iva, row.command.slot, key)
  {
  }

  lemma DeadlineLeavesAreas(t: Tables, row: Row, key: string)
    requires row.command.payload.Payload? && ReduceDeadline(t, row).Done?
    ensures StoredArea(ReduceDeadline(t, row).t.iva, row.command.slot, key) == StoredArea(t.iva, row.command.slot, key)
  {
    hide FindActive, EndBindings, ClearIva, ExitCommandTaken, UpdateIva;
  }

  lemma HallLeavesAreas(t: Tables, row: Row, key: string)
    requires row.command.payload.Payload? && ReduceHall(t, row).Done?
    ensures StoredArea(ReduceHall(t, row).t.iva, row.command.slot, key) == StoredArea(t.iva, row.command.slot, key)
  {
    hide ReduceHall, FindActive;
    HallIva(t, row);
  }

  /** The EXIT branch is taken exactly for authoritative EXITs that are not too old and fit the stored areas. */
  lemma ExitIsReduced(t: Tables, row: Row)
    requires row.command.payload.Payload? && IsAuthority(row.command) && row.command.payload.action.Exit?
    ensures row.command.payload.authoritativeExit && !TooOld(t, row.command) && !TopologyDiffers(t, row.command) ==>
              ReduceCamera(t, row) == CameraExits(t, row)
  {
    hide FindActive, CameraExits, CameraIntrudes, CameraCorrelates;
  }

  lemma CameraAreas(t: Tables, id: string, key: string)
    requires TracksUnique(t.bindings) && id != "" && Reduces(t, id) && t.inbox[id].command.kind.CameraObservation?
    requires ReduceCamera(t, t.inbox[id]).Done?
    ensures var slot := t.inbox[id].command.slot;
            StoredArea(ReduceCamera(t, t.inbox[id]).t.iva, slot, key) ==
            HeardArea(t, ApplyCall(id), slot, key, StoredArea(t.iva, slot, key))
  {
    hide FindActive, ReduceCamera, TracksUnique, IntrusionThrows, Collides, TopologyDiffers, CameraExits,
         CameraIntrudes, CameraCorrelates, CorrelationThrows, IvaBefore;
    var row := t.inbox[id];
    var c, r := row.command, ReduceCamera(t, row);
    CameraThrowsExactlyWhen(t, row);
    if IsAuthority(c) && c.payload.action.Intrusion? {
      IntrusionIsReduced(t, row);
      IntrusionAreas(t, row);
      StoredAfter(t, r.t.iva, row, true, key);
    } else if HearsExit(t, ApplyCall(id), c.slot) {
      ExitIsReduced(t, row);
      ExitAreasAre(t, row);
      StoredAfter(t, r.t.iva, row, false, key);
    } else {
      OthersLeaveIva(t, row);
    }
  }

  lemma OthersLeaveIva(t: Tables, row: Row)
    requires row.command.payload.Payload? && row.command.kind.CameraObservation? && ReduceCamera(t, row).Done?
    requires !(IsAuthority(row.command) && row.command.payload.action.Intrusion?)
    requires !(IsAuthority(row.command) && row.command.payload.action.Exit? && row.command.payload.authoritativeExit &&
               !TooOld(t, row.command))
    ensures ReduceCamera(t, row).t.iva == t.iva
  {
    hide FindActive, CameraIntrudes, CameraExits, CameraCorrelates;
    if CameraCorrelates(t, row).Done? { CorrelatesShape(t, row); }
  }

  // ----- one call -----

  lemma ReduceAreas(t: Tables, id: string, key: string)
    requires TracksUnique(t.bindings) && id != "" && Reduces(t, id) && Reduce(t, t.inbox[id]).Done?
    ensures var slot := t.inbox[id].command.slot;
            StoredArea(Reduce(t, t.inbox[id]).t.iva, slot, key) ==
            HeardArea(t, ApplyCall(id), slot, key, StoredArea(t.iva, slot, key))
  {
    hide FindActive, ReduceHall, ReduceCamera, ReduceDeadline, TracksUnique, IntrusionThrows, Collides, TopologyDiffers,
         StoredArea;
    match t.inbox[id].command.kind
    case HallObservation => HallLeavesAreas(t, t.inbox[id], key);
    case CameraObservation => CameraAreas(t, id, key);
    case ExitDeadline => DeadlineLeavesAreas(t, t.inbox[id], key);
  }

  lemma UnheardArea(t: Tables, id: string, key: string, before: Option<bool>)
    requires TracksUnique(t.bindings) && id != "" && Reduces(t, id) && !Reduce(t, t.inbox[id]).Done?
    ensures HeardArea(t, ApplyCall(id), t.inbox[id].command.slot, key, before) == before
  {
    hide FindActive, ReduceHall, ReduceCamera, ReduceDeadline, TracksUnique, IntrusionThrows, Collides, TopologyDiffers,
         CameraExits, CameraIntrudes;
    var row := t.inbox[id];
    if IsAuthority(row.command) {
      CameraThrowsExactlyWhen(t, row);
      if row.command.payload.action.Intrusion? { IntrusionIsReduced(t, row); }
      if row.command.payload.action.Exit? {
        ExitIsReduced(t, row);
        ExitIsReadable(t, row);
      }
    }
  }

  lemma ExitIsReadable(t: Tables, row: Row)
    requires row.command.payload.Payload?
    ensures !CameraExits(t, row).Invalid?
  {
    hide FindActive, IvaBefore, AllAreasKnown, AnyAreaActive, ScheduleExit;
  }

  lemma StandingArea(t: Tables, t': Tables, slot: string, key: string)
    requires SlotStands(t, t', slot)
    ensures StoredArea(t'.iva, slot, key) == StoredArea(t.iva, slot, key)
  {
    hide FindActive, DeadlinesStand, BindingsStand;
  }

  lemma StepAreas(t: Tables, e: Event, slot: string, key: string)
    requires Sound(t) && TracksUnique(t.bindings) && Listed(t, e)
    ensures StoredArea(Step(t, e).iva, slot, key) == HeardArea(t, e, slot, key, StoredArea(t.iva, slot, key))
  {
    hide Sound, TracksUnique, FindActive, Apply, Reduce, SlotStands, Listed, Admit, AdmitDue, Attach, StoredArea,
         Collides, TopologyDiffers, IntrusionThrows;
    if !e.ApplyCall? {
      OtherCallStands(t, e, slot);
      StandingArea(t, Step(t, e), slot, key);
    } else if Applies(t, e, slot) {
      ApplyIsReduction(t, e.id);
      if Reduce(t, t.inbox[e.id]).Done? {
        ReduceAreas(t, e.id, key);
      } else {
        UnheardArea(t, e.id, key, StoredArea(t.iva, slot, key));
      }
    } else if e.id == "" {
      NamelessMovesNothing(t);
    } else {
      ApplyStands(t, e.id, slot);
      StandingArea(t, Step(t, e), slot, key);
    }
  }

  // ----- over a run -----

  /** In every reachable state the camera row holds about each area what its last camera fact said. */
  lemma {:induction false} AreasFollowFacts(run: Run, slot: string, key: string)
    requires Valid(run)
    ensures StoredArea(Final(run).iva, slot, key) == LastArea(run, slot, key)
  {
    hide Sound, Step, Listed, StoredArea, HeardArea, TracksUnique;
    match run
    case Start(t) => NoAreas(t, slot, key);
    case Then(prior, e) =>
      AreasFollowFacts(prior, slot, key);
      ReachableIsSound(prior);
      TracksAreUnique(prior);
      StepAreas(Final(prior), e, slot, key);
  }

  lemma NoAreas(t: Tables, slot: string, key: string)
    requires Initial(t)
    ensures StoredArea(t.iva, slot, key).None?
  {
  }

  /** The EXIT is the last fact about its own area; about every other one the last fact before it still stands. */
  ghost predicate AllLeft(run: Run, c: Command)
    requires c.payload.Payload?
  {
    forall k :: k in c.payload.configured && k != c.payload.areaKey ==> LastArea(run, c.slot, k) == Some(false)
  }

  lemma AreasAllLeft(run: Run, row: Row)
    requires Valid(run) && row.command.payload.Payload?
    ensures var configured, areas := row.command.payload.configured, AreasAfterExit(Final(run), row);
            (AllAreasKnown(configured, areas) && !AnyAreaActive(configured, areas)) <==> AllLeft(run, row.command)
  {
    hide Valid, Final, LastArea;
    var c, t := row.command, Final(run);
    forall k ensures StoredArea(t.iva, c.slot, k) == LastArea(run, c.slot, k) {
      AreasFollowFacts(run, c.slot, k);
    }
    forall k | k in c.payload.configured && k != c.payload.areaKey
      ensures (k in AreasAfterExit(t, row) && !AreasAfterExit(t, row)[k]) <==> LastArea(run, c.slot, k) == Some(false)
    {
      assert StoredArea(t.iva, c.slot, k) == LastArea(run, c.slot, k);
    }
  }

  lemma ScheduledWhenLeft(t: Tables, row: Row)
    requires row.command.payload.Payload? && CameraExits(t, row).Done?
    ensures CameraExits(t, row).out.code.ExitScheduled? <==>
              && FindActive(t, row.command.slot).Some?
              && AllAreasKnown(row.command.payload.configured, AreasAfterExit(t, row))
              && !AnyAreaActive(row.command.payload.configured, AreasAfterExit(t, row))
  {
    hide LatestOpen, IvaBefore, AllAreasKnown, AnyAreaActive, AreaActive, ScheduleExit;
  }

  /**
   In every reachable state an EXIT that can be applied leaves a vacancy pending exactly when the slot has an open
   session and the last fact about every other configured area was an exit too.
   */
  lemma VacancyPendsExactlyWhen(run: Run, id: string)
    requires Valid(run) && id in Final(run).inbox
    requires HearsExit(Final(run), ApplyCall(id), Final(run).inbox[id].command.slot)
    ensures var t, c := Final(run), Final(run).inbox[id].command;
            Apply(t, id).out.code.ExitScheduled? <==> FindActive(t, c.slot).Some? && AllLeft(run, c)
  {
    hide Valid, Final, AllLeft, FindActive, TracksUnique, CameraExits, TopologyDiffers, Collides, AllAreasKnown,
         AnyAreaActive, AreasAfterExit;
    var t, row := Final(run), Final(run).inbox[id];
    TracksAreUnique(run);
    CameraThrowsExactlyWhen(t, row);
    ExitIsReduced(t, row);
    ExitIsReadable(t, row);
    ScheduledWhenLeft(t, row);
    AreasAllLeft(run, row);
  }
}
