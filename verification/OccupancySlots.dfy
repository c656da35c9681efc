/**
 One command touches only its own slot: the camera rows, sessions, deadlines and bindings of all others are as they
 were. And what a slot keeps while no command of its own is applied.
 */
module OccupancySlots {
  import opened Option
  import opened OccupancyTables
  import opened OccupancyInvariant
  import opened OccupancyReducers
  import opened OccupancyRun
  import opened OccupancyDeadlines
  import opened OccupancyFacts
  import opened ParkingCorrelation
  import S = SensorSequence

  /** The camera rows, sessions, deadlines and bindings of every other slot are as they were. */
  ghost predicate OthersStay(t: Tables, t': Tables, slot: string) {
    && (forall s :: s != slot ==> SameCamera(t, t', s))
    && (forall i :: i in t.sessions && t.sessions[i].slot != slot ==>
          i in t'.sessions && t'.sessions[i] == t.sessions[i])
    && OtherDeadlinesStay(t.deadlines, t'.deadlines, slot)
    && OtherBindingsStay(t.bindings, t'.bindings, slot)
  }

  predicate SameCamera(t: Tables, t': Tables, slot: string) {
    (slot in t'.iva <==> slot in t.iva) && (slot in t.iva ==> t'.iva[slot] == t.iva[slot])
  }

  ghost predicate OtherDeadlinesStay(ds: map<string, Deadline>, ds': map<string, Deadline>, slot: string) {
    && (forall d :: d in ds ==> d in ds' && (if ds[d].slot == slot then ds'[d].slot == slot else ds'[d] == ds[d]))
    && (forall d :: d in ds' && d !in ds ==> ds'[d].slot == slot)
  }

  /** A binding keeps what identifies it. */
  predicate SameBinding(b: Binding, b': Binding) {
    b' == b.(state := b'.state, expiresAt := b'.expiresAt, revision := b'.revision)
  }

  ghost predicate OtherBindingsStay(bs: map<string, Binding>, bs': map<string, Binding>, slot: string) {
    && (forall k :: k in bs ==> k in bs' && SameBinding(bs[k], bs'[k]) && (bs[k].slot != slot ==> bs'[k] == bs[k]))
    && (forall k :: k in bs' && k !in bs ==> bs'[k].slot == slot)
    && (forall j, k | j in bs' && k in bs' :: k !in bs && SameTrack(bs'[j], bs'[k]) ==> j == k)
  }

  lemma TracksStayUnique(bs: map<string, Binding>, bs': map<string, Binding>, slot: string)
    requires TracksUnique(bs) && OtherBindingsStay(bs, bs', slot)
    ensures TracksUnique(bs')
  {
  }

  lemma StayTwice(a: Tables, b: Tables, c: Tables, slot: string)
    requires OthersStay(a, b, slot) && OthersStay(b, c, slot)
    ensures OthersStay(a, c, slot)
  {
    forall s | s != slot ensures SameCamera(a, c, s) {
      assert SameCamera(a, b, s) && SameCamera(b, c, s);
    }
    DeadlinesStayTwice(a.deadlines, b.deadlines, c.deadlines, slot);
    BindingsStayTwice(a.bindings, b.bindings, c.bindings, slot);
    hide OtherDeadlinesStay, OtherBindingsStay;
  }

  lemma DeadlinesStayTwice(a: map<string, Deadline>, b: map<string, Deadline>, c: map<string, Deadline>, slot: string)
    requires OtherDeadlinesStay(a, b, slot) && OtherDeadlinesStay(b, c, slot)
    ensures OtherDeadlinesStay(a, c, slot)
  {
  }

  lemma BindingsStayTwice(a: map<string, Binding>, b: map<string, Binding>, c: map<string, Binding>, slot: string)
    requires OtherBindingsStay(a, b, slot) && OtherBindingsStay(b, c, slot)
    ensures OtherBindingsStay(a, c, slot)
  {
  }

  lemma SameStay(t: Tables, t': Tables, slot: string)
    requires t'.iva == t.iva && t'.sessions == t.sessions && t'.deadlines == t.deadlines && t'.bindings == t.bindings
    ensures OthersStay(t, t', slot)
  {
  }

  lemma SequenceStays(t: Tables, c: Command)
    requires c.payload.Payload? && c.payload.protocol.Some?
    ensures CommitSequence(t, c).iva == t.iva && CommitSequence(t, c).sessions == t.sessions
    ensures CommitSequence(t, c).deadlines == t.deadlines && CommitSequence(t, c).bindings == t.bindings
  {
  }

  lemma CreateStays(t: Tables, c: Command)
    requires SessionsOk(t.sessions, t.nextSession)
    ensures CreateSession(t, c).Some? ==> OthersStay(t, CreateSession(t, c).value, c.slot)
  {
  }

  lemma CloseStays(t: Tables, c: Command, session: nat)
    requires session in t.sessions && t.sessions[session].slot == c.slot
    ensures CloseSession(t, c, session).Some? ==> OthersStay(t, CloseSession(t, c, session).value, c.slot)
  {
    EndingStays(t.bindings, session, c.slot, t.sessions[session].attempt);
    hide EndBindings, OtherBindingsStay;
  }

  lemma EndingStays(bindings: map<string, Binding>, session: nat, slot: string, attempt: string)
    ensures OtherBindingsStay(bindings, EndBindings(bindings, session, slot, attempt), slot)
  {
  }

  lemma FlagsStay(t: Tables, session: nat, confirmed: bool, occupied: bool)
    requires session in t.sessions
    ensures OthersStay(t, UpdateHall(t, session, confirmed, occupied), t.sessions[session].slot)
    ensures OthersStay(t, UpdateIva(t, session, confirmed, occupied), t.sessions[session].slot)
    ensures var t1 := UpdateHall(t, session, confirmed, occupied);
            session in t1.sessions && t1.sessions[session].slot == t.sessions[session].slot &&
              t1.deadlines == t.deadlines
    ensures var t1 := UpdateIva(t, session, confirmed, occupied);
            session in t1.sessions && t1.sessions[session].slot == t.sessions[session].slot &&
              t1.deadlines == t.deadlines
  {
  }

  /** Writing the slot's own camera row after that leaves the others alone too. */
  lemma RecordingStays(t: Tables, t1: Tables, t2: Tables, slot: string)
    requires OthersStay(t, t1, slot) && Records(t1, t2, slot)
    ensures OthersStay(t, t2, slot)
  {
    forall s | s != slot ensures SameCamera(t, t2, s) {
      assert SameCamera(t, t1, s);
    }
    BindingsStayTwice(t.bindings, t1.bindings, t2.bindings, slot);
    hide OtherDeadlinesStay, OtherBindingsStay;
  }

  ghost predicate Records(t1: Tables, t2: Tables, slot: string) {
    && slot in t2.iva && t2.iva == t1.iva[slot := t2.iva[slot]] && t2.sessions == t1.sessions
    && t2.deadlines == t1.deadlines && OtherBindingsStay(t1.bindings, t2.bindings, slot)
  }

  lemma HallEntersStays(t: Tables, row: Row)
    requires SessionsOk(t.sessions, t.nextSession) && row.command.payload.Payload? && row.command.payload.protocol.Some?
    ensures HallEnters(t, row).Done? ==> OthersStay(t, HallEnters(t, row).t, row.command.slot)
  {
    hide LatestOpen, CreateSession, CommitSequence, OthersStay, UpdateHall, SessionsOk;
    var c := row.command;
    var active := FindActive(t, c.slot);
    if active.Some? {
      var t1 := UpdateHall(t, active.value, true, true);
      FlagsStay(t, active.value, true, true);
      SequenceStays(t1, c);
      SameStay(t1, CommitSequence(t1, c), c.slot);
      StayTwice(t, t1, CommitSequence(t1, c), c.slot);
    } else {
      CreateStays(t, c);
      if CreateSession(t, c).Some? {
        var t1 := CreateSession(t, c).value;
        SequenceStays(t1, c);
        SameStay(t1, CommitSequence(t1, c), c.slot);
        StayTwice(t, t1, CommitSequence(t1, c), c.slot);
      }
    }
  }

  lemma HallLeavesStays(t: Tables, row: Row)
    requires row.command.payload.Payload? && row.command.payload.protocol.Some?
    ensures HallLeaves(t, row).Done? ==> OthersStay(t, HallLeaves(t, row).t, row.command.slot)
  {
    hide LatestOpen, CloseSession, CommitSequence, OthersStay, UpdateHall;
    var c := row.command;
    var active := FindActive(t, c.slot);
    SameStay(t, t, c.slot);
    SequenceStays(t, c);
    SameStay(t, CommitSequence(t, c), c.slot);
    if active.None? {
      var t1 := if c.slot in t.slots then t.(slots := t.slots[c.slot := SlotVacant]) else t;
      SequenceStays(t1, c);
      SameStay(t, CommitSequence(t1, c), c.slot);
    } else {
      var t1 := UpdateHall(t, active.value, t.sessions[active.value].hallConfirmed, false);
      FlagsStay(t, active.value, t.sessions[active.value].hallConfirmed, false);
      SequenceStays(t1, c);
      SameStay(t1, CommitSequence(t1, c), c.slot);
      StayTwice(t, t1, CommitSequence(t1, c), c.slot);
      CloseStays(t1, c, active.value);
      if CloseSession(t1, c, active.value).Some? {
        var t2 := CloseSession(t1, c, active.value).value;
        SequenceStays(t2, c);
        SameStay(t2, CommitSequence(t2, c), c.slot);
        StayTwice(t, t1, t2, c.slot);
        StayTwice(t, t2, CommitSequence(t2, c), c.slot);
      }
    }
  }

  lemma CorrelationStays(t: Tables, c: Command, attempt: string, session: nat)
    requires c.payload.Payload?
    ensures var b := CommitCorrelation(t, c, attempt, session);
            b.Some? ==> b.value.t == t.(bindings := b.value.t.bindings) &&
                        OtherBindingsStay(t.bindings, b.value.t.bindings, c.slot)
  {
    hide FindTrack, CorrelationComplete, RefreshBinding, NewBinding, OtherBindingsStay;
    var p, found := c.payload, FindTrack(t.bindings, attempt, c.payload);
    NoBindingMoves(t.bindings, c.slot);
    if found.Some? {
      RefreshingStays(t, c, found.value, session);
    } else if p.correlationId !in t.bindings {
      NewBindingStays(t.bindings, c, attempt, session);
    }
  }

  lemma RefreshingStays(t: Tables, c: Command, k: string, session: nat)
    requires c.payload.Payload? && k in t.bindings
    ensures var b := RefreshBinding(t, c, k, session);
            b.Some? ==> b.value.t == t.(bindings := b.value.t.bindings) &&
                        OtherBindingsStay(t.bindings, b.value.t.bindings, c.slot)
  {
    NoBindingMoves(t.bindings, c.slot);
    var b := t.bindings[k];
    if b.slot == c.slot {
      RefreshedStays(t.bindings, k, b.(expiresAt := BindingExpiry(c.payload), revision := b.revision + 1));
    }
    hide OtherBindingsStay;
  }

  lemma RefreshedStays(bs: map<string, Binding>, k: string, b: Binding)
    requires k in bs && SameBinding(bs[k], b)
    ensures OtherBindingsStay(bs, bs[k := b], b.slot)
  {
  }

  lemma NewBindingStays(bs: map<string, Binding>, c: Command, attempt: string, session: nat)
    requires c.payload.Payload? && c.payload.correlationId !in bs
    requires forall k :: k in bs ==> !TrackOf(bs[k], attempt, c.payload)
    ensures OtherBindingsStay(bs, bs[c.payload.correlationId := NewBinding(c, attempt, session)], c.slot)
  {
  }

  lemma BindingStays(t: Tables, row: Row, out: Outcome, session: nat)
    requires row.command.payload.Payload?
    ensures var r := IntrusionBinds(t, row, out, session);
            r.Done? ==>
              r.t == t.(bindings := r.t.bindings) && OtherBindingsStay(t.bindings, r.t.bindings, row.command.slot)
  {
    hide CommitCorrelation;
    CorrelationStays(t, row.command, out.attempt, session);
  }

  lemma IntrudesRecords(t: Tables, row: Row)
    requires row.command.payload.Payload? && CameraIntrudes(t, row).Done?
    ensures var c := row.command;
            var t1 := t.(deadlines := Supersede(t.deadlines, c.slot));
            var active := FindActive(t, c.slot);
            && (active.Some? ==> Records(UpdateIva(t1, active.value, true, true), CameraIntrudes(t, row).t, c.slot))
            && (active.None? ==>
                  CreateSession(t1, c).Some? && Records(CreateSession(t1, c).value, CameraIntrudes(t, row).t, c.slot))
  {
    hide FindActive, IntrusionBinds, CreateSession, IvaBefore, IntrusionGeneration, AttemptOf, UpdateIva, Supersede,
         OtherBindingsStay;
    forall t2: Tables, out, session: nat { BindingStays(t2, row, out, session); }
  }

  lemma IntrudesStays(t: Tables, row: Row)
    requires SessionsOk(t.sessions, t.nextSession) && row.command.payload.Payload?
    ensures CameraIntrudes(t, row).Done? ==> OthersStay(t, CameraIntrudes(t, row).t, row.command.slot)
  {
    hide LatestOpen, CameraIntrudes, CreateSession, UpdateIva, OthersStay, SessionsOk, Supersede, Records;
    var c := row.command;
    var t1 := t.(deadlines := Supersede(t.deadlines, c.slot));
    var active := FindActive(t, c.slot);
    SupersedingStays(t, c.slot);
    if CameraIntrudes(t, row).Done? {
      IntrudesRecords(t, row);
      if active.Some? {
        FlagsStay(t1, active.value, true, true);
        StayTwice(t, t1, UpdateIva(t1, active.value, true, true), c.slot);
        RecordingStays(t, UpdateIva(t1, active.value, true, true), CameraIntrudes(t, row).t, c.slot);
      } else {
        CreateStays(t1, c);
        StayTwice(t, t1, CreateSession(t1, c).value, c.slot);
        RecordingStays(t, CreateSession(t1, c).value, CameraIntrudes(t, row).t, c.slot);
      }
    }
  }

  lemma SupersedingStays(t: Tables, slot: string)
    ensures OthersStay(t, t.(deadlines := Supersede(t.deadlines, slot)), slot)
  {
  }

  lemma ScheduleStays(t: Tables, c: Command, generation: nat, session: nat)
    requires c.payload.Payload? && session in t.sessions
    ensures var r := ScheduleExit(t, c, generation, session);
            r.Some? ==> OthersStay(t, r.value, c.slot)
  {
    hide HasLiveDeadline, DeadlineId, OthersStay;
    SameStay(t, t, c.slot);
    var id := DeadlineId(c.slot, generation, session);
    if id !in t.deadlines { InsertingStays(t, id, NewDeadline(c, t.sessions[session].attempt, session, generation)); }
  }

  lemma InsertingStays(t: Tables, id: string, d: Deadline)
    requires id !in t.deadlines
    ensures OthersStay(t, t.(deadlines := t.deadlines[id := d]), d.slot)
  {
    NoBindingMoves(t.bindings, d.slot);
    hide OtherBindingsStay;
  }

  lemma ExitsStays(t: Tables, row: Row)
    requires row.command.payload.Payload?
    ensures CameraExits(t, row).Done? ==> OthersStay(t, CameraExits(t, row).t, row.command.slot)
  {
    hide FindActive, IvaBefore, AllAreasKnown, AnyAreaActive, ScheduleExit, AreaActive, OthersStay;
    var c := row.command;
    SameStay(t, t, c.slot);
    NoBindingMoves(t.bindings, c.slot);
    if CameraExits(t, row).Done? {
      var t' := CameraExits(t, row).t;
      if Records(t, t', c.slot) {
        RecordingStays(t, t, t', c.slot);
      } else {
        var before := IvaBefore(t, row);
        var generation := if AreaActive(before.areas, c.payload.areaKey) then before.generation + 1
                          else before.generation;
        var session := FindActive(t, c.slot).value;
        ScheduleStays(t, c, generation, session);
        NoBindingMoves(ScheduleExit(t, c, generation, session).value.bindings, c.slot);
        RecordingStays(t, ScheduleExit(t, c, generation, session).value, t', c.slot);
      }
    }
  }

  lemma NoBindingMoves(bindings: map<string, Binding>, slot: string)
    ensures OtherBindingsStay(bindings, bindings, slot)
  {
  }

  lemma CameraStays(t: Tables, row: Row)
    requires SessionsOk(t.sessions, t.nextSession) && row.command.payload.Payload?
    ensures ReduceCamera(t, row).Done? ==> OthersStay(t, ReduceCamera(t, row).t, row.command.slot)
  {
    hide LatestOpen, CameraExits, CameraIntrudes, CommitCorrelation, OthersStay, SessionsOk;
    var c := row.command;
    var active := FindActive(t, c.slot);
    IntrudesStays(t, row);
    ExitsStays(t, row);
    SameStay(t, t, c.slot);
    if active.Some? {
      var attempt := t.sessions[active.value].attempt;
      CorrelationStays(t, c, attempt, active.value);
      var b := CommitCorrelation(t, c, attempt, active.value);
      if b.Some? { OnlyBindingsMove(t, b.value.t, c.slot); }
    }
  }

  lemma OnlyBindingsMove(t: Tables, t': Tables, slot: string)
    requires t' == t.(bindings := t'.bindings) && OtherBindingsStay(t.bindings, t'.bindings, slot)
    ensures OthersStay(t, t', slot)
  {
    hide OtherBindingsStay;
  }

  lemma MarkingStays(t: Tables, d: string, state: DeadlineState)
    requires d in t.deadlines
    ensures OthersStay(t, MarkDeadline(t, d, state), t.deadlines[d].slot)
  {
  }

  lemma DeadlineStays(t: Tables, row: Row)
    requires row.command.payload.Payload?
    ensures ReduceDeadline(t, row).Done? ==> OthersStay(t, ReduceDeadline(t, row).t, row.command.slot)
  {
    hide LatestOpen, DeadlineVacates, OthersStay;
    var c := row.command;
    var p := c.payload;
    SameStay(t, t, c.slot);
    if DeadlineMatches(t, c) {
      MarkingStays(t, p.deadlineId, Superseded);
      if DeadlineOwns(t, c) {
        VacatesStays(t, row);
      }
    }
  }

  lemma VacatesStays(t: Tables, row: Row)
    requires row.command.payload.Payload? && DeadlineMatches(t, row.command) && DeadlineOwns(t, row.command)
    ensures DeadlineVacates(t, row).Done? ==> OthersStay(t, DeadlineVacates(t, row).t, row.command.slot)
  {
    hide LatestOpen, CloseSession, OthersStay, UpdateIva;
    var c := row.command;
    var session := c.payload.expectedSession.value;
    var u := UpdateIva(t, session, t.sessions[session].ivaConfirmed, false);
    FlagsStay(t, session, t.sessions[session].ivaConfirmed, false);
    var t1 := MarkDeadline(u, c.payload.deadlineId, DeadlineApplied);
    MarkingStays(u, c.payload.deadlineId, DeadlineApplied);
    StayTwice(t, u, t1, c.slot);
    CloseStays(t1, c, session);
    if DeadlineVacates(t, row).Done? {
      var t' := DeadlineVacates(t, row).t;
      NoBindingMoves(t'.bindings, c.slot);
      if Records(t1, t', c.slot) {
        RecordingStays(t, t1, t', c.slot);
      } else {
        var t2 := CloseSession(t1, c, session).value;
        StayTwice(t, t1, t2, c.slot);
        RecordingStays(t, t2, t', c.slot);
      }
    }
  }

  /**
   Whatever the source, one reduction leaves the camera rows, sessions, deadlines and bindings of all other slots
   alone.
   */
  lemma ReduceStaysInSlot(t: Tables, row: Row)
    requires DomainOk(t) && row.command.payload.Payload?
    ensures Reduce(t, row).Done? ==> OthersStay(t, Reduce(t, row).t, row.command.slot)
  {
    hide HallEnters, HallLeaves, ReduceCamera, ReduceDeadline, S.Accepts, OthersStay, SessionsOk, SlotsAgree,
         BindingsOk, DeadlinesRefer, OneLiveDeadline, GenerationsOk;
    SameStay(t, t, row.command.slot);
    CameraStays(t, row);
    DeadlineStays(t, row);
    if row.command.payload.protocol.Some? {
      HallEntersStays(t, row);
      HallLeavesStays(t, row);
    }
  }

  // ----- what a slot keeps while no command of its own is applied -----

  predicate SameButViolation(s: Session, s': Session) {
    s' == s || (s.status.Active? && s' == s.(status := Violation))
  }

  /** The deadline is as it was, or has been admitted since. */
  predicate SameButAdmitted(d: Deadline, d': Deadline) {
    d' == d || (d.state.Scheduled? && d' == d.(state := Admitted, admittedBy := d'.admittedBy))
  }

  ghost predicate DeadlinesStand(ds: map<string, Deadline>, ds': map<string, Deadline>, slot: string) {
    && (forall d :: d in ds ==> d in ds' && (ds[d].slot == slot ==> SameButAdmitted(ds[d], ds'[d])))
    && (forall d :: d in ds && d in ds' && ds'[d].slot == slot ==> ds[d].slot == slot)
    && (forall d :: d in ds' && d !in ds ==> ds'[d].slot != slot)
  }

  ghost predicate BindingsStand(bs: map<string, Binding>, bs': map<string, Binding>, slot: string) {
    && (forall k :: k in bs ==> k in bs' && SameBinding(bs[k], bs'[k]) && (bs[k].slot == slot ==> bs'[k] == bs[k]))
    && (forall k :: k in bs' && k !in bs ==> bs'[k].slot != slot)
  }

  /**
   The slot's camera row, open session, deadlines and bindings are as they were; an overstay mark and admission
   aside.
   */
  ghost predicate SlotStands(t: Tables, t': Tables, slot: string) {
    && SameCamera(t, t', slot) && FindActive(t', slot) == FindActive(t, slot)
    && (FindActive(t, slot).Some? ==>
          SameButViolation(t.sessions[FindActive(t, slot).value], t'.sessions[FindActive(t, slot).value]))
    && DeadlinesStand(t.deadlines, t'.deadlines, slot) && BindingsStand(t.bindings, t'.bindings, slot)
  }

  lemma StandsTwice(a: Tables, b: Tables, c: Tables, slot: string)
    requires SlotStands(a, b, slot) && SlotStands(b, c, slot)
    ensures SlotStands(a, c, slot)
  {
    hide FindActive;
    DeadlinesStandTwice(a.deadlines, b.deadlines, c.deadlines, slot);
    BindingsStandTwice(a.bindings, b.bindings, c.bindings, slot);
    hide DeadlinesStand, BindingsStand;
  }

  lemma DeadlinesStandTwice(a: map<string, Deadline>, b: map<string, Deadline>, c: map<string, Deadline>, slot: string)
    requires DeadlinesStand(a, b, slot) && DeadlinesStand(b, c, slot)
    ensures DeadlinesStand(a, c, slot)
  {
  }

  lemma BindingsStandTwice(a: map<string, Binding>, b: map<string, Binding>, c: map<string, Binding>, slot: string)
    requires BindingsStand(a, b, slot) && BindingsStand(b, c, slot)
    ensures BindingsStand(a, c, slot)
  {
  }

  lemma StandsStill(t: Tables, slot: string)
    ensures SlotStands(t, t, slot)
  {
    hide LatestOpen;
  }

  lemma OtherCallStands(t: Tables, e: Event, slot: string)
    requires Sound(t) && !e.ApplyCall?
    ensures SlotStands(t, Step(t, e), slot)
  {
    hide Sound, FindActive, Step, Progresses, DeadlinesStand, BindingsStand;
    OtherCallsAddNone(t, e);
    OtherCallsAreQuiet(t, e);
    OtherCallDeadlines(t, e, slot);
    if FindActive(t, slot).Some? { OtherCallSessions(t, e, FindActive(t, slot).value); }
  }

  lemma NothingStands(ds: map<string, Deadline>, bs: map<string, Binding>, slot: string)
    ensures DeadlinesStand(ds, ds, slot) && BindingsStand(bs, bs, slot)
  {
  }

  lemma {:induction false} BatchStands(t: Tables, ids: set<string>, room: nat, ordinal: nat, clock: int, slot: string)
    requires ids <= t.deadlines.Keys && forall d :: d in ids ==> t.deadlines[d].state.Scheduled?
    ensures DeadlinesStand(t.deadlines, AdmitBatch(t, ids, room, ordinal, clock).deadlines, slot)
    ensures AdmitBatch(t, ids, room, ordinal, clock).bindings == t.bindings
    decreases room
  {
    hide Earliest, DeadlinesStand, SameIdentity;
    NothingStands(t.deadlines, t.bindings, slot);
    if room != 0 && ids != {} {
      var d := Earliest(t.deadlines, ids);
      assert d in ids;
      var t1 := AdmitDeadline(t, d, ordinal, clock);
      AdmittedStands(t.deadlines, d, Some(DeadlineCommandId(d)), slot);
      BatchStands(t1, ids - {d}, room - 1, ordinal + 1, clock, slot);
      DeadlinesStandTwice(t.deadlines, t1.deadlines,
                          AdmitBatch(t1, ids - {d}, room - 1, ordinal + 1, clock).deadlines, slot);
    }
  }

  lemma AdmittedStands(ds: map<string, Deadline>, d: string, owner: Option<string>, slot: string)
    requires d in ds && ds[d].state.Scheduled?
    ensures DeadlinesStand(ds, ds[d := ds[d].(state := Admitted, admittedBy := owner)], slot)
  {
  }

  lemma OtherCallDeadlines(t: Tables, e: Event, slot: string)
    requires Sound(t) && !e.ApplyCall?
    ensures DeadlinesStand(t.deadlines, Step(t, e).deadlines, slot) && Step(t, e).bindings == t.bindings
    ensures BindingsStand(t.bindings, Step(t, e).bindings, slot)
  {
    hide Sound, Admit, AdmitBatch, Attach, PurgedIds, SettledIds, DeadlinesStand, BindingsStand;
    NothingStands(t.deadlines, t.bindings, slot);
    match e
    case AdmitCall(c, capacity, clock) =>
      InboxOf(t);
      AdmitKeeps(t, c, capacity, clock);
    case AdmitDueCall(now, capacity, blocked, clock) =>
      if |PendingIds(t.inbox)| < capacity {
        BatchStands(t, DueIds(t.deadlines, now, blocked), capacity - |PendingIds(t.inbox)|, NextOrdinal(t.inbox),
                    clock, slot);
      }
    case AttachCall(l, evidence, now) =>
      ImagesOf(t);
      AttachKeepsImages(t, l, evidence, now);
    case _ =>
  }

  lemma OtherCallSessions(t: Tables, e: Event, i: nat)
    requires Sound(t) && !e.ApplyCall? && i in t.sessions
    ensures i in Step(t, e).sessions && SameButViolation(t.sessions[i], Step(t, e).sessions[i])
  {
    hide Sound, Admit, AdmitBatch, Attach, PurgedIds, SettledIds;
    match e
    case AdmitCall(c, capacity, clock) =>
      InboxOf(t);
      AdmitKeeps(t, c, capacity, clock);
    case AdmitDueCall(now, capacity, blocked, clock) =>
      if |PendingIds(t.inbox)| < capacity {
        BatchDeadlines(t, DueIds(t.deadlines, now, blocked), capacity - |PendingIds(t.inbox)|, NextOrdinal(t.inbox),
                       clock);
      }
    case AttachCall(l, evidence, now) =>
      ImagesOf(t);
      AttachKeepsImages(t, l, evidence, now);
    case _ =>
  }

  /** Applying a command of another slot, or one that is settled, leaves the slot standing. */
  lemma ApplyStands(t: Tables, k: string, slot: string)
    requires Sound(t) && Listed(t, ApplyCall(k)) && (Reduces(t, k) ==> t.inbox[k].command.slot != slot)
    ensures SlotStands(t, Apply(t, k).t, slot)
  {
    hide InboxOk, ImagesOk, Apply, Reduce, FindActive, Progresses, OthersStay, DomainOk, SlotStands;
    StandsStill(t, slot);
    if k in t.inbox {
      ApplyIsReduction(t, k);
      ApplyKeeps(t, k);
      if k != "" && Reduces(t, k) && Reduce(t, t.inbox[k]).Done? {
        ReduceStaysInSlot(t, t.inbox[k]);
        OtherStands(t, Reduce(t, t.inbox[k]).t, Apply(t, k).t, t.inbox[k].command.slot, slot);
      } else {
        SameTablesStand(t, Apply(t, k).t, slot);
      }
    } else {
      MissingMovesNothing(t, k);
    }
  }

  lemma OtherStands(t: Tables, t1: Tables, t2: Tables, touched: string, slot: string)
    requires OthersStay(t, t1, touched) && touched != slot && t2.(inbox := t1.inbox) == t1
    requires FindActive(t2, slot) == FindActive(t, slot)
    ensures SlotStands(t, t2, slot)
  {
    hide LatestOpen;
    assert SameCamera(t, t1, slot);
  }

  lemma SameTablesStand(t: Tables, t': Tables, slot: string)
    requires t'.(inbox := t.inbox) == t
    ensures SlotStands(t, t', slot)
  {
    hide LatestOpen;
    SameSessionsSameActive(t, t');
  }
}
