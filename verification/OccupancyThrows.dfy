/**
 When a pending command cannot be applied: for every source the guards on which its reduction throws, and with it
 what is rolled back and left pending.
 */
module OccupancyThrows {
  import opened Option
  import opened OccupancyTables
  import opened OccupancyInvariant
  import opened OccupancyReducers
  import opened OccupancyRun
  import opened OccupancyEffects
  import opened OccupancyFacts
  import opened OccupancyCursors
  import opened OccupancySlots
  import opened ParkingCorrelation
  import S = SensorSequence

  // ----- when an EXIT throws -----

  predicate IsAuthoritativeExit(c: Command) {
    && c.kind.CameraObservation? && c.payload.Payload? && c.payload.action.Exit?
    && c.payload.authoritativeExit && c.payload.occupancyAuthority
  }

  function AreasAfterExit(t: Tables, row: Row): map<string, bool>
    requires row.command.payload.Payload?
  {
    IvaBefore(t, row).areas[row.command.payload.areaKey := false]
  }

  function GenerationAfterExit(t: Tables, row: Row): nat
    requires row.command.payload.Payload?
  {
    var before := IvaBefore(t, row);
    if AreaActive(before.areas, row.command.payload.areaKey) then before.generation + 1 else before.generation
  }

  /** The EXIT would schedule a deadline for the open session, and that deadline's id is already in the table. */
  predicate Collides(t: Tables, row: Row)
    requires row.command.payload.Payload?
  {
    var c := row.command;
    var active := FindActive(t, c.slot);
    && active.Some? && t.sessions[active.value].entryMs <= OccurredAt(c)
    && AllAreasKnown(c.payload.configured, AreasAfterExit(t, row))
    && !AnyAreaActive(c.payload.configured, AreasAfterExit(t, row))
    && !HasLiveDeadline(t.deadlines, c.slot)
    && DeadlineId(c.slot, GenerationAfterExit(t, row), active.value) in t.deadlines
  }

  /** The camera's configured areas are not those stored for the slot. */
  predicate TopologyDiffers(t: Tables, c: Command)
    requires c.payload.Payload?
  {
    c.slot in t.iva && t.iva[c.slot].configured != c.payload.configured
  }

  /** The caller-visible condition on which an EXIT cannot be applied. */
  predicate ExitThrows(t: Tables, row: Row)
    requires row.command.payload.Payload?
  {
    && row.command.payload.configured != [] && row.command.payload.areaKey != ""
    && (TopologyDiffers(t, row.command) || Collides(t, row))
  }

  /** An authoritative EXIT throws exactly when its area topology differs or its deadline id is taken. */
  lemma ExitThrowsExactlyWhen(t: Tables, row: Row)
    requires IsAuthoritativeExit(row.command)
    ensures Reduce(t, row).Throw? <==> ExitThrows(t, row)
  {
    hide LatestOpen, AllAreasKnown, AnyAreaActive, AreaActive, DeadlineId, CameraIntrudes, CameraCorrelates,
         HasLiveDeadline;
  }

  // ----- when a binding is refused -----

  /** The binding of a track may be refreshed by the command. */
  predicate Refreshable(b: Binding, c: Command, session: nat)
    requires c.payload.Payload?
  {
    b.state.Committed? && b.session == session && b.slot == c.slot && b.channel == c.payload.channelId
  }

  ghost predicate HasTrack(bindings: map<string, Binding>, attempt: string, p: Payload)
    requires p.Payload?
  {
    exists k :: k in bindings && TrackOf(bindings[k], attempt, p)
  }

  /** The track is bound to something else, or its correlation id or command is bound to another track. */
  ghost predicate BindingFails(bindings: map<string, Binding>, c: Command, attempt: string, session: nat)
    requires c.payload.Payload?
  {
    && CorrelationComplete(c.payload, attempt)
    && (if HasTrack(bindings, attempt, c.payload)
        then forall k :: k in bindings && TrackOf(bindings[k], attempt, c.payload) ==>
               !Refreshable(bindings[k], c, session)
        else c.payload.correlationId in bindings || exists k :: k in bindings && bindings[k].source == c.id)
  }

  lemma BindingFailsExactlyWhen(t: Tables, c: Command, attempt: string, session: nat)
    requires c.payload.Payload? && TracksUnique(t.bindings)
    ensures CommitCorrelation(t, c, attempt, session).None? <==> BindingFails(t.bindings, c, attempt, session)
  {
    hide FindTrack, CorrelationComplete;
    var k := FindTrack(t.bindings, attempt, c.payload);
    if k.Some? {
      forall j | j in t.bindings && TrackOf(t.bindings[j], attempt, c.payload) ensures j == k.value {
        assert SameTrack(t.bindings[j], t.bindings[k.value]);
      }
    }
  }

  // ----- every source -----

  /** An INTRUSION of the occupancy authority cannot have its session, or cannot bind its track to it. */
  ghost predicate IntrusionThrows(t: Tables, c: Command)
    requires c.payload.Payload?
  {
    var active := FindActive(t, c.slot);
    if active.Some? then BindingFails(t.bindings, c, t.sessions[active.value].attempt, active.value)
    else
      || c.slot !in t.slots || EntryCommandTaken(t.sessions, c.id)
      || BindingFails(t.bindings, c, AttemptOf(c.id), t.nextSession)
  }

  /** An INTRUSION that only correlates cannot bind its track to the open session. */
  ghost predicate CorrelationThrows(t: Tables, c: Command)
    requires c.payload.Payload?
  {
    var active := FindActive(t, c.slot);
    active.Some? && BindingFails(t.bindings, c, t.sessions[active.value].attempt, active.value)
  }

  ghost predicate CameraThrows(t: Tables, row: Row)
    requires row.command.payload.Payload?
  {
    var c, p := row.command, row.command.payload;
    && p.configured != [] && p.areaKey != ""
    && (if !p.occupancyAuthority then p.action.Intrusion? && p.objectId != "" && CorrelationThrows(t, c)
        else
          || TopologyDiffers(t, c)
          || (p.action.Intrusion? && IntrusionThrows(t, c))
          || (p.action.Exit? && p.authoritativeExit && Collides(t, row)))
  }

  /** A deadline that owns its slot, with no Hall hold under HYBRID_OR, cannot end its session. */
  predicate DeadlineThrows(t: Tables, c: Command)
    requires c.payload.Payload?
  {
    && DeadlineMatches(t, c) && DeadlineOwns(t, c)
    && var s := t.sessions[c.payload.expectedSession.value];
       && !(c.payload.hybridOr && s.hallConfirmed && s.hallOccupied)
       && (OccurredAt(c) < s.entryMs || ExitCommandTaken(t.sessions, c.id) || c.slot !in t.slots)
  }

  /** What stands in the way of the command, its sensor's cursor aside. */
  ghost predicate Obstructed(t: Tables, row: Row)
    requires row.command.payload.Payload?
  {
    match row.command.kind
    case HallObservation => row.command.payload.protocol.Some? && Breaks(t, row.command)
    case CameraObservation => CameraThrows(t, row)
    case ExitDeadline => DeadlineThrows(t, row.command)
  }

  /** The sensor's cursor refuses the Hall fact, so applying the command settles it without touching the slot. */
  predicate Refused(t: Tables, row: Row)
    requires row.command.payload.Payload?
  {
    && row.command.kind.HallObservation? && row.command.payload.protocol.Some?
    && !S.Accepts(CursorOf(t.cursors, row.command.sensor), HallFact(row.command))
  }

  lemma IntrusionThrowsExactlyWhen(t: Tables, row: Row)
    requires row.command.payload.Payload? && TracksUnique(t.bindings)
    ensures CameraIntrudes(t, row).Throw? <==> IntrusionThrows(t, row.command)
  {
    hide LatestOpen, CommitCorrelation, BindingFails, TracksUnique, EntryCommandTaken, IvaBefore, IntrusionGeneration,
         Supersede, AttemptOf;
    forall t1: Tables, attempt, session: nat | t1.bindings == t.bindings
      ensures CommitCorrelation(t1, row.command, attempt, session).None? <==>
              BindingFails(t.bindings, row.command, attempt, session)
    {
      BindingFailsExactlyWhen(t1, row.command, attempt, session);
    }
    ActiveWithoutScheduled(t, row.command.slot);
  }

  lemma ActiveWithoutScheduled(t: Tables, slot: string)
    ensures FindActive(t.(deadlines := Supersede(t.deadlines, slot)), slot) == FindActive(t, slot)
  {
    hide LatestOpen, Supersede;
  }

  lemma CameraThrowsExactlyWhen(t: Tables, row: Row)
    requires row.command.payload.Payload? && row.command.kind.CameraObservation? && TracksUnique(t.bindings)
    ensures ReduceCamera(t, row).Throw? <==> CameraThrows(t, row)
  {
    hide LatestOpen, CommitCorrelation, BindingFails, TracksUnique, CameraIntrudes, CameraExits, Collides,
         IntrusionThrows, IvaBefore;
    var c := row.command;
    IntrusionThrowsExactlyWhen(t, row);
    ExitAloneThrows(t, row);
    if FindActive(t, c.slot).Some? {
      var i := FindActive(t, c.slot).value;
      BindingFailsExactlyWhen(t, c, t.sessions[i].attempt, i);
    }
  }

  lemma ExitAloneThrows(t: Tables, row: Row)
    requires row.command.payload.Payload?
    ensures Collides(t, row) ==>
              && CameraExits(t, row).Throw? && FindActive(t, row.command.slot).Some?
              && t.sessions[FindActive(t, row.command.slot).value].entryMs <= OccurredAt(row.command)
    ensures CameraExits(t, row).Throw? ==>
              Collides(t, row) ||
              (FindActive(t, row.command.slot).Some? &&
               OccurredAt(row.command) < t.sessions[FindActive(t, row.command.slot).value].entryMs)
  {
    hide LatestOpen, AllAreasKnown, AnyAreaActive, AreaActive, DeadlineId, HasLiveDeadline;
  }

  lemma DeadlineThrowsExactlyWhen(t: Tables, row: Row)
    requires row.command.payload.Payload?
    ensures ReduceDeadline(t, row).Throw? <==> DeadlineThrows(t, row.command)
  {
    hide LatestOpen, EndBindings, ClearIva, ExitCommandTaken;
    var c := row.command;
    if DeadlineMatches(t, c) && DeadlineOwns(t, c) {
      var i := c.payload.expectedSession.value;
      UpdateKeepsExits(t, UpdateIva(t, i, t.sessions[i].ivaConfirmed, false), i, c.id);
    }
  }

  /** A command's reduction throws exactly when something stands in its way and no cursor refuses it first. */
  lemma ThrowsExactlyWhen(t: Tables, row: Row)
    requires DomainOk(t) && TracksUnique(t.bindings) && row.command.payload.Payload?
    ensures Reduce(t, row).Throw? <==> Obstructed(t, row) && !Refused(t, row)
  {
    hide DomainOk, TracksUnique, ReduceCamera, ReduceDeadline, CameraThrows, DeadlineThrows, Breaks, HallEnters,
         HallLeaves, S.Accepts;
    match row.command.kind
    case CameraObservation => CameraThrowsExactlyWhen(t, row);
    case ExitDeadline => DeadlineThrowsExactlyWhen(t, row);
    case HallObservation =>
      if row.command.payload.protocol.Some? && !Refused(t, row) { HallOutcomes(t, row); }
  }

  // ----- tracks stay unique -----

  lemma StepTracks(t: Tables, e: Event)
    requires Sound(t) && TracksUnique(t.bindings)
    ensures TracksUnique(Step(t, e).bindings)
  {
    hide Sound, Apply, Reduce, OthersStay, OtherBindingsStay, Admit, AdmitDue, Attach;
    if !e.ApplyCall? {
      SameBindings(t, e);
    } else if e.id in t.inbox {
      ApplyIsReduction(t, e.id);
      if e.id != "" && Reduces(t, e.id) && Reduce(t, t.inbox[e.id]).Done? {
        DomainOf(t);
        ReduceStaysInSlot(t, t.inbox[e.id]);
        StayingBindings(t, Reduce(t, t.inbox[e.id]).t, t.inbox[e.id].command.slot);
        TracksStayUnique(t.bindings, Reduce(t, t.inbox[e.id]).t.bindings, t.inbox[e.id].command.slot);
      }
    } else {
      MissingMovesNothing(t, e.id);
    }
  }

  lemma StayingBindings(t: Tables, t': Tables, slot: string)
    requires OthersStay(t, t', slot)
    ensures OtherBindingsStay(t.bindings, t'.bindings, slot)
  {
  }

  lemma SameBindings(t: Tables, e: Event)
    requires Sound(t) && !e.ApplyCall?
    ensures Step(t, e).bindings == t.bindings
  {
    hide Sound, Step, DeadlinesStand, BindingsStand;
    OtherCallDeadlines(t, e, "");
  }

  lemma {:induction false} TracksAreUnique(run: Run)
    requires Valid(run)
    ensures TracksUnique(Final(run).bindings)
  {
    hide Sound, Step, Listed, TracksUnique;
    match run
    case Start(t) => NoTracks(t);
    case Then(prior, e) =>
      TracksAreUnique(prior);
      ReachableIsSound(prior);
      StepTracks(Final(prior), e);
  }

  lemma NoTracks(t: Tables)
    requires Initial(t)
    ensures TracksUnique(t.bindings)
  {
  }
}
