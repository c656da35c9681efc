/** A boot-epoch Hall fact takes effect at most once in a whole run, however often its line is admitted again. */
module OccupancyFacts {
  import opened Option
  import opened OccupancyTables
  import opened OccupancyInvariant
  import opened OccupancyReducers
  import opened OccupancyRun
  import opened OccupancyDeadlines
  import opened ParkingCorrelation
  import S = SensorSequence

  /** The event applies a pending Hall command of the sensor: its fact is offered to the sensor's cursor. */
  ghost predicate OffersFact(t: Tables, e: Event, sensor: string) {
    && e.ApplyCall? && e.id != "" && Reduces(t, e.id)
    && var c := t.inbox[e.id].command;
       c.kind.HallObservation? && c.sensor == sensor && c.payload.protocol.Some?
  }

  function OfferedFact(t: Tables, e: Event): S.Fact
    requires e.ApplyCall? && Reduces(t, e.id) && t.inbox[e.id].command.payload.protocol.Some?
  {
    HallFact(t.inbox[e.id].command)
  }

  /** The offered fact is accepted and its application gets as far as writing rows and the cursor. */
  ghost predicate CommitsFact(t: Tables, e: Event, sensor: string) {
    && OffersFact(t, e, sensor) && S.Accepts(CursorOf(t.cursors, sensor), OfferedFact(t, e))
    && var r := ReduceHall(t, t.inbox[e.id]);
       r.Done? && !r.out.code.RejectedInvalidTimestamp?
  }

  /**
   The event commits the fact: only then can it change a session or slot row, the time in a vacant slot's row
   included.
   */
  ghost predicate TakesEffect(t: Tables, e: Event, sensor: string, f: S.Fact) {
    CommitsFact(t, e, sensor) && OfferedFact(t, e) == f
  }

  /** A Hall application that changes a session or slot row commits its fact. */
  lemma RowChangesAreEffects(t: Tables, e: Event, sensor: string)
    requires OffersFact(t, e, sensor) && (Step(t, e).sessions != t.sessions || Step(t, e).slots != t.slots)
    ensures TakesEffect(t, e, sensor, OfferedFact(t, e))
  {
    hide HallEnters, S.Accepts, Apply, CommitSequence, FindActive, CloseSession;
    ApplyIsReduction(t, e.id);
    var row := t.inbox[e.id];
    HallEntersIsNoRejection(t, row);
    assert Reduce(t, row) == ReduceHall(t, row);
  }

  lemma HallEntersIsNoRejection(t: Tables, row: Row)
    requires row.command.payload.Payload? && row.command.payload.protocol.Some?
    ensures HallEnters(t, row).Done? ==> !HallEnters(t, row).out.code.RejectedInvalidTimestamp?
  {
  }

  /** How many applications of a run the fact took effect in. */
  ghost function EffectCount(run: Run, sensor: string, f: S.Fact): nat {
    match run
    case Start(_) => 0
    case Then(prior, e) => EffectCount(prior, sensor, f) + if TakesEffect(Final(prior), e, sensor, f) then 1 else 0
  }

  ghost predicate CursorsOk(cursors: map<string, S.Cursor>) {
    forall sensor :: sensor in cursors ==> S.WellFormed(cursors[sensor])
  }

  /** A cursor as one step finds and leaves it: unmoved, or moved by a fact it accepted. */
  ghost predicate CursorMoves(c: S.Cursor, c': S.Cursor) {
    c' == c || exists f :: S.Accepts(c, f) && c' == S.Committed(c, f)
  }

  lemma HallCursors(t: Tables, row: Row)
    requires row.command.payload.Payload?
    ensures var r := ReduceHall(t, row);
            r.Done? ==>
              || r.t == t
              || (row.command.payload.protocol.Some? &&
                  S.Accepts(CursorOf(t.cursors, row.command.sensor), HallFact(row.command)) &&
                  r.t.cursors == CommitSequence(t, row.command).cursors)
  {
    hide S.Evaluate, HallEnters, HallLeaves, CommitSequence;
    if row.command.payload.protocol.Some? {
      HallEntersFrame(t, row);
      HallLeavesFrame(t, row);
    }
  }

  lemma CameraIntrudesCursors(t: Tables, row: Row)
    requires row.command.payload.Payload?
    ensures var r := CameraIntrudes(t, row); r.Done? ==> r.t.cursors == t.cursors
  {
    hide FindActive, CommitCorrelation, EntryCommandTaken, IvaBefore, IntrusionGeneration;
    forall t1: Tables, attempt, session: nat { CorrelationAddsNone(t1, row.command, attempt, session); }
  }

  lemma CameraExitsCursors(t: Tables, row: Row)
    requires row.command.payload.Payload?
    ensures var r := CameraExits(t, row); r.Done? ==> r.t.cursors == t.cursors
  {
    hide LatestOpen, IvaBefore, AllAreasKnown, AnyAreaActive, HasLiveDeadline, DeadlineId;
  }

  lemma CameraCursors(t: Tables, row: Row)
    requires row.command.payload.Payload?
    ensures var r := ReduceCamera(t, row); r.Done? ==> r.t.cursors == t.cursors
  {
    hide LatestOpen, CameraExits, CameraIntrudes, CommitCorrelation;
    var c := row.command;
    var active := FindActive(t, c.slot);
    CameraIntrudesCursors(t, row);
    CameraExitsCursors(t, row);
    if active.Some? { CorrelationAddsNone(t, c, t.sessions[active.value].attempt, active.value); }
  }

  /** Only an accepted Hall fact moves a cursor, and only its own sensor's; other reductions leave all cursors. */
  ghost predicate CursorStep(t: Tables, t': Tables, c: Command) {
    || t'.cursors == t.cursors
    || (c.kind.HallObservation? && c.payload.Payload? && c.payload.protocol.Some? &&
        S.Accepts(CursorOf(t.cursors, c.sensor), HallFact(c)) && t'.cursors == CommitSequence(t, c).cursors)
  }

  /** A Hall fact whose application moved a row was accepted and is committed. */
  ghost predicate FactCommitted(t: Tables, t': Tables, c: Command) {
    && c.payload.Payload? && c.payload.protocol.Some?
    && S.Accepts(CursorOf(t.cursors, c.sensor), HallFact(c)) && t'.cursors == CommitSequence(t, c).cursors
  }

  lemma ReduceCursors(t: Tables, row: Row)
    requires row.command.payload.Payload? && Reduce(t, row).Done?
    ensures CursorStep(t, Reduce(t, row).t, row.command)
    ensures row.command.kind.HallObservation? && Reduce(t, row).t != t ==>
              FactCommitted(t, Reduce(t, row).t, row.command)
  {
    hide ReduceHall, ReduceCamera, ReduceDeadline, CommitSequence, S.Evaluate;
    match row.command.kind
    case HallObservation => HallCursors(t, row);
    case CameraObservation => CameraCursors(t, row);
    case ExitDeadline => DeadlineAddsNone(t, row);
  }

  /**
   Apart from the inbox, an application leaves the reduction's tables if it is done, and otherwise the tables as they
   were.
   */
  lemma ApplyIsReduction(t: Tables, id: string)
    requires id in t.inbox
    ensures var t' := Apply(t, id).t;
            t'.(inbox := t.inbox) ==
            if id != "" && Reduces(t, id) && Reduce(t, t.inbox[id]).Done?
            then Reduce(t, t.inbox[id]).t.(inbox := t.inbox) else t
  {
    hide Reduce, FinishedRow, RejectedRow, StoredOutcome, SetRow;
    var row := t.inbox[id];
    if id != "" && Reduces(t, id) && Reduce(t, row).Done? {
      SetRowMovesInbox(Reduce(t, row).t, id, FinishedRow(row, Reduce(t, row).out), t.inbox);
    } else {
      SetRowMovesInbox(t, id, RejectedRow(row), t.inbox);
    }
  }

  lemma SetRowMovesInbox(t: Tables, id: string, row: Row, inbox: map<string, Row>)
    ensures SetRow(t, id, row).(inbox := inbox) == t.(inbox := inbox)
  {
  }

  lemma ApplyCursors(t: Tables, id: string)
    requires id in t.inbox
    ensures CursorStep(t, Apply(t, id).t, t.inbox[id].command)
    ensures Reduces(t, id) && id != "" && t.inbox[id].command.kind.HallObservation? &&
            (Apply(t, id).t.sessions != t.sessions || Apply(t, id).t.slots != t.slots) ==>
              FactCommitted(t, Apply(t, id).t, t.inbox[id].command)
  {
    hide Reduce, Apply, CommitSequence, S.Accepts, HallFact;
    ApplyIsReduction(t, id);
    if Reduces(t, id) && Reduce(t, t.inbox[id]).Done? {
      ReduceCursors(t, t.inbox[id]);
    }
  }

  lemma StepMovesCursor(t: Tables, e: Event, sensor: string)
    requires Sound(t) && CursorsOk(t.cursors)
    ensures CursorMoves(CursorOf(t.cursors, sensor), CursorOf(Step(t, e).cursors, sensor))
    ensures CursorsOk(Step(t, e).cursors)
  {
    hide Sound, Apply, Admit, AdmitDue, S.Evaluate, Attach;
    if e.ApplyCall? {
      if e.id in t.inbox {
        ApplyCursors(t, e.id);
        var c := t.inbox[e.id].command;
        if Step(t, e).cursors != t.cursors {
          CommitKeepsWellFormed(CursorOf(t.cursors, c.sensor), HallFact(c));
        }
      } else {
        MissingMovesNothing(t, e.id);
      }
    } else {
      OtherCallsAddNone(t, e);
    }
  }

  lemma CommitKeepsWellFormed(c: S.Cursor, f: S.Fact)
    requires S.WellFormed(c) && S.Accepts(c, f)
    ensures S.WellFormed(S.Committed(c, f))
  {
    S.OfferKeepsWellFormed(c, f);
  }

  lemma MissingMovesNothing(t: Tables, id: string)
    requires id !in t.inbox
    ensures Apply(t, id).t == t
  {
  }

  /** A boot-epoch fact that the cursor refuses stays refused. */
  lemma RefusalSurvives(c: S.Cursor, c': S.Cursor, f: S.Fact)
    requires S.WellFormed(c) && f.protocol.BootEpochV2? && !S.Accepts(c, f) && CursorMoves(c, c')
    ensures !S.Accepts(c', f)
  {
    if c' != c {
      var g :| S.Accepts(c, g) && c' == S.Committed(c, g);
      var later := [g];
      assert later[..0] == [] && S.Replay(c, later) == S.Offer(c, g) == c';
      S.RejectionIsForEver(c, f, later);
    }
  }

  /** The cursor after a call: moved by the fact that the call commits, if any. */
  lemma StepCursor(t: Tables, e: Event, sensor: string)
    requires Sound(t)
    ensures CursorOf(Step(t, e).cursors, sensor) ==
            if CommitsFact(t, e, sensor) then S.HallCommitted(CursorOf(t.cursors, sensor), OfferedFact(t, e))
            else CursorOf(t.cursors, sensor)
  {
    hide Sound, Apply, Reduce, S.Accepts, ReduceHall, S.Committed;
    if !e.ApplyCall? {
      OtherCallsAddNone(t, e);
    } else if e.id in t.inbox {
      ApplyIsReduction(t, e.id);
      if e.id != "" && Reduces(t, e.id) && Reduce(t, t.inbox[e.id]).Done? {
        InboxOf(t);
        RowIsOk(t.inbox, e.id);
        ReduceCursor(t, t.inbox[e.id], sensor);
      }
      if OffersFact(t, e, sensor) { HallIsHall(t, e); }
    } else {
      MissingMovesNothing(t, e.id);
    }
  }

  lemma HallIsHall(t: Tables, e: Event)
    requires e.ApplyCall? && e.id in t.inbox && Reduces(t, e.id) && t.inbox[e.id].command.kind.HallObservation?
    ensures Reduce(t, t.inbox[e.id]) == ReduceHall(t, t.inbox[e.id])
  {
  }

  lemma ReduceCursor(t: Tables, row: Row, sensor: string)
    requires row.command.payload.Payload? && Reduce(t, row).Done?
    requires (row.command.kind.HallObservation? ==> row.command.sensor != "")
    ensures var c := row.command;
            CursorOf(Reduce(t, row).t.cursors, sensor) ==
            if c.kind.HallObservation? && c.sensor == sensor && c.payload.protocol.Some? &&
               S.Accepts(CursorOf(t.cursors, sensor), HallFact(c)) && !Reduce(t, row).out.code.RejectedInvalidTimestamp?
            then S.HallCommitted(CursorOf(t.cursors, sensor), HallFact(c))
            else CursorOf(t.cursors, sensor)
  {
    hide ReduceHall, ReduceCamera, ReduceDeadline, S.Accepts, S.HallCommitted, CursorOf, HallFact, CommitSequence;
    match row.command.kind
    case HallObservation =>
      HallCommitsExactly(t, row);
      SequenceMoves(t, row.command, sensor);
    case CameraObservation => CameraCursors(t, row);
    case ExitDeadline => DeadlineAddsNone(t, row);
  }

  lemma SequenceMoves(t: Tables, c: Command, sensor: string)
    requires c.payload.Payload? && c.payload.protocol.Some? && c.sensor != ""
    ensures CursorOf(CommitSequence(t, c).cursors, sensor) ==
            if c.sensor == sensor then S.HallCommitted(CursorOf(t.cursors, sensor), HallFact(c))
            else CursorOf(t.cursors, sensor)
  {
    hide S.Committed;
  }

  /** An accepted fact is committed by every finished application but one whose time was refused. */
  lemma HallCommitsExactly(t: Tables, row: Row)
    requires row.command.payload.Payload? && ReduceHall(t, row).Done?
    ensures row.command.payload.protocol.Some?
    ensures ReduceHall(t, row).t.cursors ==
            if S.Accepts(CursorOf(t.cursors, row.command.sensor), HallFact(row.command)) &&
               !ReduceHall(t, row).out.code.RejectedInvalidTimestamp?
            then CommitSequence(t, row.command).cursors else t.cursors
  {
    hide S.Evaluate, HallEnters, HallLeaves, CommitSequence;
    HallEntersFrame(t, row);
    HallEntersIsNoRejection(t, row);
    HallLeavesCommits(t, row);
  }

  lemma HallLeavesCommits(t: Tables, row: Row)
    requires row.command.payload.Payload? && row.command.payload.protocol.Some?
    ensures var r := HallLeaves(t, row);
            r.Done? ==>
              r.t.cursors ==
                if r.out.code.RejectedInvalidTimestamp? then t.cursors else CommitSequence(t, row.command).cursors
  {
    hide LatestOpen, CloseSession, CommitSequence;
    var c := row.command;
    var active := FindActive(t, c.slot);
    if active.None? {
      SequenceFrame(t, if c.slot in t.slots then t.(slots := t.slots[c.slot := SlotVacant]) else t, c);
    } else {
      var t1 := UpdateHall(t, active.value, t.sessions[active.value].hallConfirmed, false);
      SequenceFrame(t, t, c);
      SequenceFrame(t, t1, c);
      CloseFrame(t1, c, active.value);
      if CloseSession(t1, c, active.value).Some? { SequenceFrame(t, CloseSession(t1, c, active.value).value, c); }
    }
  }

  lemma EffectCommits(t: Tables, e: Event, sensor: string, f: S.Fact)
    requires Sound(t) && f.protocol.BootEpochV2? && TakesEffect(t, e, sensor, f)
    ensures S.Accepts(CursorOf(t.cursors, sensor), f)
    ensures !S.Accepts(CursorOf(Step(t, e).cursors, sensor), f)
  {
    hide Sound, ReduceHall, Step;
    StepCursor(t, e, sensor);
  }

  /** Over any run, purges and re-admissions included, a boot-epoch Hall fact changes session or slot state at most
      once; and once it has, its cursor refuses it. */
  lemma {:induction false} FactTakesEffectAtMostOnce(run: Run, sensor: string, f: S.Fact)
    requires Valid(run) && f.protocol.BootEpochV2?
    ensures EffectCount(run, sensor, f) <= 1
    ensures EffectCount(run, sensor, f) == 1 ==> !S.Accepts(CursorOf(Final(run).cursors, sensor), f)
    ensures CursorsOk(Final(run).cursors)
  {
    hide Sound, Step, Listed, TakesEffect, S.Accepts, S.WellFormed, CursorsOk, CursorOf, Initial, CursorMoves;
    match run
    case Start(t) => InitialCursors(t);
    case Then(prior, e) =>
      var t := Final(prior);
      FactTakesEffectAtMostOnce(prior, sensor, f);
      ReachableIsSound(prior);
      StepMovesCursor(t, e, sensor);
      CursorIsWellFormed(t.cursors, sensor);
      if TakesEffect(t, e, sensor, f) {
        EffectCommits(t, e, sensor, f);
      } else if EffectCount(prior, sensor, f) == 1 {
        RefusalSurvives(CursorOf(t.cursors, sensor), CursorOf(Final(run).cursors, sensor), f);
      }
  }

  lemma InitialCursors(t: Tables)
    requires Initial(t)
    ensures CursorsOk(t.cursors)
  {
  }

  lemma CursorIsWellFormed(cursors: map<string, S.Cursor>, sensor: string)
    requires CursorsOk(cursors)
    ensures S.WellFormed(CursorOf(cursors, sensor))
  {
  }
}
