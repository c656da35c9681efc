/**
 The life of an exit deadline: what an EXIT inserts, exactly which calls move it on, and that no session ends by a
 deadline before its time.
 */
module OccupancyLifecycle {
  import opened Option
  import opened OccupancyTables
  import opened OccupancyInvariant
  import opened OccupancyRun
  import opened OccupancyEffects
  import opened OccupancyFacts
  import opened OccupancyDeadlines
  import opened OccupancySlots
  import opened OccupancyThrows
  import opened OccupancySources
  import opened OccupancyVacancy
  import opened OccupancyDue
  import opened ParkingCorrelation

  /** The call applies the command of an admitted deadline of the slot that no longer owns it. */
  predicate HearsStaleDeadline(t: Tables, e: Event, slot: string) {
    && Applies(t, e, slot)
    && var c := t.inbox[e.id].command;
       c.kind.ExitDeadline? && DeadlineMatches(t, c) && !DeadlineOwns(t, c)
  }

  predicate IsCommandOf(t: Tables, e: Event, d: string) {
    && e.ApplyCall? && e.id in t.inbox && t.inbox[e.id].command.payload.Payload?
    && t.inbox[e.id].command.payload.deadlineId == d
  }

  /** A car that comes back supersedes what is scheduled; a deadline's own command applies or supersedes it. */
  ghost predicate MovesOn(t: Tables, t': Tables, e: Event, d: string)
    requires d in t.deadlines
  {
    var was := t.deadlines[d];
    && d in t'.deadlines
    && t'.deadlines[d].state ==
       (if was.state == Scheduled && HearsIntrusion(t, e, was.slot) then Superseded
        else if HearsDeadline(t, e, was.slot) && IsCommandOf(t, e, d) then DeadlineApplied
        else if HearsStaleDeadline(t, e, was.slot) && IsCommandOf(t, e, d) then Superseded
        else was.state)
    && t'.deadlines[d] == was.(state := t'.deadlines[d].state)
  }

  // ----- one reduction -----

  lemma IntrusionSupersedes(t: Tables, row: Row, d: string)
    requires row.command.payload.Payload? && CameraIntrudes(t, row).Done? && d in t.deadlines
    ensures var ds := CameraIntrudes(t, row).t.deadlines;
            d in ds && ds[d] == if t.deadlines[d].slot == row.command.slot && t.deadlines[d].state == Scheduled
                                then t.deadlines[d].(state := Superseded) else t.deadlines[d]
  {
    hide CameraIntrudes, FindActive, IvaBefore;
    IntrudesShape(t, row);
  }

  lemma ExitOnlyInserts(t: Tables, row: Row, d: string)
    requires row.command.payload.Payload? && CameraExits(t, row).Done? && d in t.deadlines
    ensures d in CameraExits(t, row).t.deadlines && CameraExits(t, row).t.deadlines[d] == t.deadlines[d]
  {
    hide CameraExits, FindActive, GenerationAfterExit, AreasAfterExit, HasLiveDeadline, DeadlineId;
    if CameraExits(t, row).out.code.ExitScheduled? { ScheduledShape(t, row); } else { UnscheduledShape(t, row); }
  }

  lemma CameraMovesOn(t: Tables, id: string, d: string)
    requires TracksUnique(t.bindings) && id != "" && Reduces(t, id) && t.inbox[id].command.kind.CameraObservation?
    requires ReduceCamera(t, t.inbox[id]).Done? && d in t.deadlines
    ensures MovesOn(t, ReduceCamera(t, t.inbox[id]).t, ApplyCall(id), d)
  {
    hide FindActive, ReduceCamera, TracksUnique, IntrusionThrows, TopologyDiffers, CameraExits, CameraIntrudes,
         CameraCorrelates, CorrelationThrows, Collides;
    var row := t.inbox[id];
    CameraThrowsExactlyWhen(t, row);
    if IsAuthority(row.command) && row.command.payload.action.Intrusion? {
      IntrusionIsReduced(t, row);
      IntrusionSupersedes(t, row, d);
    } else {
      OthersLeaveDeadline(t, row, d);
    }
  }

  lemma OthersLeaveDeadline(t: Tables, row: Row, d: string)
    requires row.command.payload.Payload? && row.command.kind.CameraObservation? && ReduceCamera(t, row).Done?
    requires !(IsAuthority(row.command) && row.command.payload.action.Intrusion?) && d in t.deadlines
    ensures d in ReduceCamera(t, row).t.deadlines && ReduceCamera(t, row).t.deadlines[d] == t.deadlines[d]
  {
    hide FindActive, CameraIntrudes, CameraExits, CameraCorrelates;
    if CameraCorrelates(t, row).Done? { CorrelatesShape(t, row); }
    if CameraExits(t, row).Done? { ExitOnlyInserts(t, row, d); }
  }

  lemma DeadlineMovesOn(t: Tables, id: string, d: string)
    requires id != "" && Reduces(t, id) && t.inbox[id].command.kind.ExitDeadline?
    requires ReduceDeadline(t, t.inbox[id]).Done? && d in t.deadlines
    ensures MovesOn(t, ReduceDeadline(t, t.inbox[id]).t, ApplyCall(id), d)
  {
    hide FindActive, DeadlineOwns, DeadlineVacates, DeadlineThrows;
    var row := t.inbox[id];
    DeadlineThrowsExactlyWhen(t, row);
    if DeadlineMatches(t, row.command) && DeadlineOwns(t, row.command) { VacatesShape(t, row); }
  }

  lemma ReduceMovesOn(t: Tables, id: string, d: string)
    requires TracksUnique(t.bindings) && id != "" && Reduces(t, id) && Reduce(t, t.inbox[id]).Done? && d in t.deadlines
    ensures MovesOn(t, Reduce(t, t.inbox[id]).t, ApplyCall(id), d)
  {
    hide FindActive, ReduceHall, ReduceCamera, ReduceDeadline, TracksUnique, IntrusionThrows, TopologyDiffers,
         DeadlineMatches, DeadlineOwns, DeadlineThrows;
    match t.inbox[id].command.kind
    case HallObservation => HallAddsNone(t, t.inbox[id]);
    case CameraObservation => CameraMovesOn(t, id, d);
    case ExitDeadline => DeadlineMovesOn(t, id, d);
  }

  lemma UnreducedMovesOn(t: Tables, id: string, d: string)
    requires TracksUnique(t.bindings) && id != "" && Reduces(t, id) && !Reduce(t, t.inbox[id]).Done? && d in t.deadlines
    ensures MovesOn(t, t, ApplyCall(id), d)
  {
    hide FindActive, ReduceHall, ReduceCamera, DeadlineVacates, TracksUnique, IntrusionThrows, TopologyDiffers,
         DeadlineOwns, DeadlineThrows, CameraIntrudes;
    var row := t.inbox[id];
    match row.command.kind
    case HallObservation =>
    case CameraObservation =>
      CameraThrowsExactlyWhen(t, row);
      if IsAuthority(row.command) && row.command.payload.action.Intrusion? { IntrusionIsReduced(t, row); }
    case ExitDeadline =>
      DeadlineThrowsExactlyWhen(t, row);
      DeadlineIsReadable(t, row);
  }

  // ----- one call -----

  lemma SameMovesOn(t: Tables, t1: Tables, t2: Tables, e: Event, d: string)
    requires d in t.deadlines && MovesOn(t, t1, e, d) && t2.deadlines == t1.deadlines
    ensures MovesOn(t, t2, e, d)
  {
    hide HearsIntrusion, HearsDeadline, HearsStaleDeadline;
  }

  /** Whatever command is applied, a deadline moves on exactly so. */
  lemma ApplyMovesOn(t: Tables, id: string, d: string)
    requires Sound(t) && TracksUnique(t.bindings) && d in t.deadlines
    ensures MovesOn(t, Apply(t, id).t, ApplyCall(id), d)
  {
    hide Sound, TracksUnique, Apply, Reduce, MovesOn;
    if id != "" && Reduces(t, id) {
      ApplyIsReduction(t, id);
      if Reduce(t, t.inbox[id]).Done? {
        ReduceMovesOn(t, id, d);
        SameMovesOn(t, Reduce(t, t.inbox[id]).t, Apply(t, id).t, ApplyCall(id), d);
      } else {
        UnreducedMovesOn(t, id, d);
        SameMovesOn(t, t, Apply(t, id).t, ApplyCall(id), d);
      }
    } else {
      if id in t.inbox { ApplyIsReduction(t, id); } else { MissingMovesNothing(t, id); }
      UnappliedMovesOn(t, ApplyCall(id), d);
      SameMovesOn(t, t, Apply(t, id).t, ApplyCall(id), d);
    }
  }

  lemma UnappliedMovesOn(t: Tables, e: Event, d: string)
    requires d in t.deadlines && !(e.ApplyCall? && e.id != "" && Reduces(t, e.id))
    ensures MovesOn(t, t, e, d)
  {
    hide FindActive, DeadlineMatches, DeadlineOwns, DeadlineThrows, TopologyDiffers, IntrusionThrows;
  }

  /** No other call but the admission of due deadlines touches one. */
  lemma OtherCallLeavesDeadline(t: Tables, e: Event, d: string)
    requires Sound(t) && !e.ApplyCall? && !e.AdmitDueCall? && d in t.deadlines
    ensures d in Step(t, e).deadlines && Step(t, e).deadlines[d] == t.deadlines[d]
  {
    hide Sound, Admit, Attach, PurgedIds;
    match e
    case AdmitCall(c, capacity, clock) =>
      InboxOf(t);
      AdmitKeeps(t, c, capacity, clock);
    case AttachCall(l, evidence, now) =>
      ImagesOf(t);
      AttachKeepsImages(t, l, evidence, now);
    case _ =>
  }

  // ----- what an EXIT inserts -----

  /**
   An EXIT that leaves a vacancy pending where there is no live deadline inserts exactly one: for the open session and
   the generation that it leaves, due when the camera event says or else when the command was due, under its policy.
   */
  lemma ExitInserts(t: Tables, row: Row)
    requires row.command.payload.Payload? && SchedulesRow(t, row)
    ensures var c, g, t' := row.command, GenerationAfterExit(t, row), CameraExits(t, row).t;
            var active := FindActive(t, c.slot);
            && active.Some?
            && var id := DeadlineId(c.slot, g, active.value);
               && id !in t.deadlines
               && t'.deadlines == t.deadlines[id :=
                    Deadline(c.slot, t.sessions[active.value].attempt, active.value, g,
                             if c.payload.deadlineDueAt.Some? then c.payload.deadlineDueAt.value else c.dueAt,
                             c.payload.hybridOr, Scheduled, None)]
  {
    hide FindActive, CameraExits, AreasAfterExit, GenerationAfterExit, DeadlineId, HasLiveDeadline;
    ScheduledShape(t, row);
  }

  /** An EXIT that finds a live deadline, or leaves no vacancy, inserts none. */
  lemma ExitInsertsNone(t: Tables, row: Row)
    requires row.command.payload.Payload? && CameraExits(t, row).Done? && !SchedulesRow(t, row)
    ensures CameraExits(t, row).t.deadlines == t.deadlines
  {
    hide FindActive, CameraExits, AreasAfterExit, GenerationAfterExit, DeadlineId, HasLiveDeadline;
    if CameraExits(t, row).out.code.ExitScheduled? { ScheduledShape(t, row); } else { UnscheduledShape(t, row); }
  }

  // ----- no close before its time -----

  /** Some call of the run admitted due deadlines at a time that the deadline had reached, its slot not blocked. */
  ghost predicate CalledWhenDue(run: Run, d: string) {
    match run
    case Start(_) => false
    case Then(prior, e) =>
      || CalledWhenDue(prior, d)
      || (e.AdmitDueCall? && d in Final(prior).deadlines && Final(prior).deadlines[d].dueAt <= e.now &&
          Final(prior).deadlines[d].slot !in e.blocked)
  }

  predicate WasAdmitted(d: Deadline) {
    d.state == Admitted || d.state == DeadlineApplied
  }

  lemma AdmittedStep(t: Tables, e: Event, d: string)
    requires Sound(t) && TracksUnique(t.bindings) && d in t.deadlines
    requires d in Step(t, e).deadlines && WasAdmitted(Step(t, e).deadlines[d])
    ensures || WasAdmitted(t.deadlines[d])
            || (e.AdmitDueCall? && t.deadlines[d].dueAt <= e.now && t.deadlines[d].slot !in e.blocked)
  {
    hide Sound, TracksUnique, Apply, Admit, AdmitDue, Attach, HearsIntrusion, HearsStaleDeadline;
    match e
    case ApplyCall(id) => ApplyMovesOn(t, id, d);
    case AdmitDueCall(now, capacity, blocked, clock) => AdmitsOnlyRipe(t, now, capacity, blocked, clock);
    case _ => OtherCallLeavesDeadline(t, e, d);
  }

  lemma NewIsScheduled(t: Tables, e: Event, d: string)
    requires Sound(t) && d in Step(t, e).deadlines && d !in t.deadlines
    ensures !WasAdmitted(Step(t, e).deadlines[d])
  {
    hide Sound, Apply, Reduce, Admit, AdmitDue, Attach;
    if e.ApplyCall? {
      if e.id in t.inbox {
        ApplyIsReduction(t, e.id);
        if e.id != "" && Reduces(t, e.id) && Reduce(t, t.inbox[e.id]).Done? { ReduceAdds(t, t.inbox[e.id]); }
      } else {
        MissingMovesNothing(t, e.id);
      }
    } else {
      OtherCallsAddNone(t, e);
    }
  }

  /** In every reachable state a deadline that was admitted had come due when it was. */
  lemma {:induction false} AdmittedInTime(run: Run, d: string)
    requires Valid(run) && d in Final(run).deadlines && WasAdmitted(Final(run).deadlines[d])
    ensures CalledWhenDue(run, d)
  {
    hide Sound, Step, Listed, TracksUnique, WasAdmitted;
    match run
    case Start(t) => NoDeadlines(t, d);
    case Then(prior, e) =>
      ReachableIsSound(prior);
      TracksAreUnique(prior);
      if d in Final(prior).deadlines {
        AdmittedStep(Final(prior), e, d);
        if WasAdmitted(Final(prior).deadlines[d]) { AdmittedInTime(prior, d); }
      } else {
        NewIsScheduled(Final(prior), e, d);
      }
  }

  lemma NoDeadlines(t: Tables, d: string)
    requires Initial(t)
    ensures d !in t.deadlines
  {
  }

  /** So no exit-deadline command ends a session before its deadline's time has come. */
  lemma NoEarlyClose(run: Run, id: string)
    requires Valid(run) && id != "" && Reduces(Final(run), id)
    requires Final(run).inbox[id].command.kind.ExitDeadline? && Apply(Final(run), id).out.code.SessionEnded?
    ensures CalledWhenDue(run, Final(run).inbox[id].command.payload.deadlineId)
  {
    hide Valid, Final, DomainOk, ReduceDeadline, DeadlineOwns, FindActive, ExitCommandTaken;
    ReachableIsSound(run);
    DeadlineEndsExactlyWhen(Final(run), Final(run).inbox[id]);
    AdmittedInTime(run, Final(run).inbox[id].command.payload.deadlineId);
  }
}
