/**
 The Hall cursor that the store persists, against the shared sequence policy: it is the replay of the facts that
 the run committed, and it decides as the policy until an accepted, sequenced fact is settled without a commit.
 */
module OccupancyCursors {
  import opened Option
  import opened OccupancyTables
  import opened OccupancyInvariant
  import opened OccupancyRun
  import opened OccupancyReducers
  import opened OccupancyEffects
  import opened OccupancyFacts
  import opened ParkingCorrelation
  import S = SensorSequence

  // ----- when an accepted fact is left uncommitted -----

  /** The command is settled as rejected: its state is unknown, or its VACANT is older than the open session. */
  predicate Refuses(t: Tables, c: Command)
    requires c.payload.Payload?
  {
    var active := FindActive(t, c.slot);
    || c.payload.hallState.HallOther?
    || (c.payload.hallState.HallVacant? && active.Some? && OccurredAt(c) < t.sessions[active.value].entryMs)
  }

  /** The step throws and the command stays pending: a session cannot be created, or cannot be closed. */
  predicate Breaks(t: Tables, c: Command)
    requires c.payload.Payload?
  {
    var active := FindActive(t, c.slot);
    || (c.payload.hallState.HallOccupied? && active.None? &&
        (c.slot !in t.slots || EntryCommandTaken(t.sessions, c.id)))
    || (c.payload.hallState.HallVacant? && active.Some? && t.sessions[active.value].entryMs <= OccurredAt(c) &&
        Releases(t.sessions[active.value], c) && ExitCommandTaken(t.sessions, c.id))
  }

  /** The vacancy would end the session: under HYBRID_OR Hall had confirmed it and the camera does not hold it. */
  predicate Releases(s: Session, c: Command)
    requires c.payload.Payload?
  {
    c.payload.hybridOr ==> s.hallConfirmed && !s.ivaOccupied
  }

  lemma HallOutcomes(t: Tables, row: Row)
    requires DomainOk(t) && row.command.payload.Payload? && row.command.payload.protocol.Some?
    requires S.Accepts(CursorOf(t.cursors, row.command.sensor), HallFact(row.command))
    ensures var c, r := row.command, ReduceHall(t, row);
            && (r.Throw? <==> Breaks(t, c))
            && (r.Invalid? || (r.Done? && r.out.code.RejectedInvalidTimestamp?) <==> Refuses(t, c))
  {
    hide SlotsAgree, BindingsOk, DeadlinesRefer, OneLiveDeadline, GenerationsOk, LatestOpen, CommitSequence,
         EndBindings, ClearIva, S.Evaluate, SessionsOk;
    var c := row.command;
    ActiveIsOk(t, c.slot);
    ActiveSlotExists(t, c.slot);
    if FindActive(t, c.slot).Some? {
      var i := FindActive(t, c.slot).value;
      UpdateKeepsExits(t, UpdateHall(t, i, t.sessions[i].hallConfirmed, false), i, c.id);
    }
  }

  lemma CommitAlwaysMoves(c: S.Cursor, f: S.Fact)
    requires S.Accepts(c, f) && f.sequence.Some?
    ensures S.Committed(c, f) != c && !S.Accepts(S.Committed(c, f), f)
    ensures S.HallCommitted(c, f) == S.Committed(c, f)
  {
  }

  /**
   An accepted, sequenced fact that is applied is left uncommitted, so that the store accepts it again, exactly when
   its command is refused or its step throws; and the command stays pending exactly when the step throws.
   */
  lemma UncommittedExactlyWhen(t: Tables, e: Event, sensor: string)
    requires Sound(t) && OffersFact(t, e, sensor)
    requires S.Accepts(CursorOf(t.cursors, sensor), OfferedFact(t, e)) && OfferedFact(t, e).sequence.Some?
    ensures var c, after := t.inbox[e.id].command, CursorOf(Step(t, e).cursors, sensor);
            && (after == CursorOf(t.cursors, sensor) <==> Refuses(t, c) || Breaks(t, c))
            && (S.Accepts(after, OfferedFact(t, e)) <==> Refuses(t, c) || Breaks(t, c))
    ensures e.id in Step(t, e).inbox && (IsPending(Step(t, e).inbox[e.id]) <==> Breaks(t, t.inbox[e.id].command))
  {
    hide DomainOk, InboxOk, ImagesOk, S.Accepts, S.Committed, ReduceHall, Refuses, Breaks;
    StepCursor(t, e, sensor);
    CommitAlwaysMoves(CursorOf(t.cursors, sensor), OfferedFact(t, e));
    HallOutcomes(t, t.inbox[e.id]);
    HallIsHall(t, e);
    SettledUnlessThrown(t, e.id);
  }

  lemma SettledUnlessThrown(t: Tables, id: string)
    requires id != "" && Reduces(t, id)
    ensures id in Apply(t, id).t.inbox
    ensures IsPending(Apply(t, id).t.inbox[id]) <==> Reduce(t, t.inbox[id]).Throw?
  {
    hide Reduce;
  }

  // ----- over a run -----

  /** The facts that the run committed for a sensor, in order. */
  ghost function CommittedFacts(run: Run, sensor: string): seq<S.Fact> {
    match run
    case Start(_) => []
    case Then(prior, e) =>
      CommittedFacts(prior, sensor) +
      if CommitsFact(Final(prior), e, sensor) then [OfferedFact(Final(prior), e)] else []
  }

  /** The event settles a Hall command of the sensor: the fact has had its one hearing. */
  ghost predicate SettlesFact(t: Tables, e: Event, sensor: string) {
    OffersFact(t, e, sensor) && !ReduceHall(t, t.inbox[e.id]).Throw?
  }

  /** The facts that the run settled for a sensor, in order, whatever came of them. */
  ghost function SettledFacts(run: Run, sensor: string): seq<S.Fact> {
    match run
    case Start(_) => []
    case Then(prior, e) =>
      SettledFacts(prior, sensor) +
      if SettlesFact(Final(prior), e, sensor) then [OfferedFact(Final(prior), e)] else []
  }

  /** The event settles an accepted, sequenced fact as refused: an in-memory policy would have committed it. */
  ghost predicate Withholds(t: Tables, e: Event, sensor: string) {
    && OffersFact(t, e, sensor) && Refuses(t, t.inbox[e.id].command)
    && S.Accepts(CursorOf(t.cursors, sensor), OfferedFact(t, e)) && OfferedFact(t, e).sequence.Some?
  }

  ghost predicate WithholdsNone(run: Run, sensor: string) {
    match run
    case Start(_) => true
    case Then(prior, e) => !Withholds(Final(prior), e, sensor) && WithholdsNone(prior, sensor)
  }

  lemma ReplayOne(facts: seq<S.Fact>, f: S.Fact)
    ensures S.HallReplay(S.EMPTY, facts + [f]) ==
            var c := S.HallReplay(S.EMPTY, facts); if S.Accepts(c, f) then S.HallCommitted(c, f) else c
    ensures S.Replay(S.EMPTY, facts + [f]) == S.Offer(S.Replay(S.EMPTY, facts), f)
  {
    assert (facts + [f])[..|facts|] == facts;
  }

  lemma StartsEmpty(t: Tables, sensor: string)
    requires Initial(t)
    ensures CursorOf(t.cursors, sensor) == S.EMPTY == S.HallReplay(S.EMPTY, [])
  {
  }

  /** In every reachable state a sensor's persisted cursor is the replay of the facts committed for it. */
  lemma {:induction false} CursorIsReplay(run: Run, sensor: string)
    requires Valid(run)
    ensures CursorOf(Final(run).cursors, sensor) == S.HallReplay(S.EMPTY, CommittedFacts(run, sensor))
  {
    hide Sound, Step, Listed, Initial, S.Accepts, S.HallCommitted, S.HallReplay, CursorOf, OffersFact, OfferedFact,
         ReduceHall;
    match run
    case Start(t) => StartsEmpty(t, sensor);
    case Then(prior, e) =>
      CursorIsReplay(prior, sensor);
      ReachableIsSound(prior);
      StepCursor(Final(prior), e, sensor);
      if CommitsFact(Final(prior), e, sensor) {
        Offering(Final(prior), e, sensor);
        ReplayOne(CommittedFacts(prior, sensor), OfferedFact(Final(prior), e));
      } else {
        assert CommittedFacts(run, sensor) == CommittedFacts(prior, sensor);
      }
  }

  /** So the store decides every fact as the in-memory policy that has committed those facts. */
  lemma StoreDecidesByCommitted(run: Run, sensor: string, f: S.Fact)
    requires Valid(run)
    ensures S.Evaluate(CursorOf(Final(run).cursors, sensor), f) ==
            S.Evaluate(S.Replay(S.EMPTY, CommittedFacts(run, sensor)), f)
  {
    hide S.Evaluate, S.HallReplay, S.Replay, CommittedFacts, CursorOf, Valid, Final;
    CursorIsReplay(run, sensor);
    S.HallCursorRefinesPolicy(CommittedFacts(run, sensor), f);
  }

  lemma SettledStep(t: Tables, e: Event, sensor: string)
    requires Sound(t)
    ensures CommitsFact(t, e, sensor) ==> SettlesFact(t, e, sensor)
    ensures SettlesFact(t, e, sensor) && OfferedFact(t, e).sequence.Some? ==>
              (CommitsFact(t, e, sensor) || Withholds(t, e, sensor) ||
               !S.Accepts(CursorOf(t.cursors, sensor), OfferedFact(t, e)))
    ensures Withholds(t, e, sensor) ==> SettlesFact(t, e, sensor) && !CommitsFact(t, e, sensor)
  {
    hide DomainOk, InboxOk, ImagesOk, S.Accepts, ReduceHall, Refuses, Breaks;
    if OffersFact(t, e, sensor) && S.Accepts(CursorOf(t.cursors, sensor), OfferedFact(t, e)) {
      HallOutcomes(t, t.inbox[e.id]);
    }
  }

  lemma UnsequencedLeaves(c: S.Cursor, f: S.Fact)
    requires f.sequence.None?
    ensures S.HallCommitted(c, f) == c
  {
  }

  /** As long as nothing is withheld, the cursor is the replay of every fact that was settled. */
  lemma {:induction false} CursorReplaysSettled(run: Run, sensor: string)
    requires Valid(run) && WithholdsNone(run, sensor)
    ensures CursorOf(Final(run).cursors, sensor) == S.HallReplay(S.EMPTY, SettledFacts(run, sensor))
  {
    hide Sound, Step, Listed, Initial, S.Accepts, S.HallCommitted, S.HallReplay, CursorOf, OffersFact, OfferedFact,
         ReduceHall, Refuses, CommitsFact, SettlesFact, Withholds;
    match run
    case Start(t) => StartsEmpty(t, sensor);
    case Then(prior, e) =>
      var t := Final(prior);
      CursorReplaysSettled(prior, sensor);
      ReachableIsSound(prior);
      StepCursor(t, e, sensor);
      SettledStep(t, e, sensor);
      if SettlesFact(t, e, sensor) {
        Offering(t, e, sensor);
        var f := OfferedFact(t, e);
        ReplayOne(SettledFacts(prior, sensor), f);
        if f.sequence.None? { UnsequencedLeaves(CursorOf(t.cursors, sensor), f); }
        assert SettledFacts(run, sensor) == SettledFacts(prior, sensor) + [f];
      } else {
        assert SettledFacts(run, sensor) == SettledFacts(prior, sensor);
      }
  }

  lemma Offering(t: Tables, e: Event, sensor: string)
    requires SettlesFact(t, e, sensor) || Withholds(t, e, sensor) || CommitsFact(t, e, sensor)
    ensures e.ApplyCall? && Reduces(t, e.id) && t.inbox[e.id].command.payload.protocol.Some?
    ensures CommitsFact(t, e, sensor) ==> S.Accepts(CursorOf(t.cursors, sensor), OfferedFact(t, e))
    ensures Withholds(t, e, sensor) ==>
              S.Accepts(CursorOf(t.cursors, sensor), OfferedFact(t, e)) && OfferedFact(t, e).sequence.Some?
  {
    hide S.Accepts, ReduceHall, Refuses, HallFact;
  }

  /**
   In every state of the run the persisted cursor decides every fact as the policy that has heard all settled facts.
   */
  ghost predicate DecidesThroughout(run: Run, sensor: string) {
    && (forall f :: S.Evaluate(CursorOf(Final(run).cursors, sensor), f) ==
                    S.Evaluate(S.Replay(S.EMPTY, SettledFacts(run, sensor)), f))
    && (run.Then? ==> DecidesThroughout(run.prior, sensor))
  }

  /** A withheld fact shows at once: the store accepts it again, the policy calls it a duplicate. */
  lemma WithheldParts(prior: Run, e: Event, sensor: string)
    requires Valid(Then(prior, e)) && WithholdsNone(prior, sensor) && Withholds(Final(prior), e, sensor)
    ensures var f := OfferedFact(Final(prior), e);
            && S.Accepts(CursorOf(Final(Then(prior, e)).cursors, sensor), f)
            && !S.Accepts(S.Replay(S.EMPTY, SettledFacts(Then(prior, e), sensor)), f)
  {
    hide Sound, Step, Listed, Initial, S.Evaluate, S.Committed, S.HallReplay, S.Replay, CursorOf, OffersFact,
         OfferedFact, ReduceHall, Refuses, CommitsFact, SettlesFact, Withholds;
    var t := Final(prior);
    ReachableIsSound(prior);
    StepCursor(t, e, sensor);
    SettledStep(t, e, sensor);
    Offering(t, e, sensor);
    var f := OfferedFact(t, e);
    CursorReplaysSettled(prior, sensor);
    S.HallCursorRefinesPolicy(SettledFacts(prior, sensor), f);
    ReplayOne(SettledFacts(prior, sensor), f);
    CommitAlwaysMoves(S.Replay(S.EMPTY, SettledFacts(prior, sensor)), f);
    assert SettledFacts(Then(prior, e), sensor) == SettledFacts(prior, sensor) + [f];
  }

  /**
   Throughout a run the persisted Hall cursor decides every fact as the in-memory policy that has heard every settled
   fact exactly when no accepted, sequenced fact was settled as refused.
   */
  lemma {:induction false} StoreDecidesExactlyWhen(run: Run, sensor: string)
    requires Valid(run)
    ensures DecidesThroughout(run, sensor) <==> WithholdsNone(run, sensor)
  {
    hide Step, Listed, Initial, S.Evaluate, S.HallReplay, S.Replay, CursorOf, Withholds, OfferedFact, SettledFacts;
    if run.Then? { StoreDecidesExactlyWhen(run.prior, sensor); }
    if WithholdsNone(run, sensor) {
      CursorReplaysSettled(run, sensor);
      forall f ensures S.Evaluate(CursorOf(Final(run).cursors, sensor), f) ==
                       S.Evaluate(S.Replay(S.EMPTY, SettledFacts(run, sensor)), f)
      {
        S.HallCursorRefinesPolicy(SettledFacts(run, sensor), f);
      }
    } else if WithholdsNone(run.prior, sensor) {
      WithheldParts(run.prior, run.event, sensor);
    }
  }
}
