/**
 What an applied INTRUSION does to the binding of its camera track: inserted for the session, or renewed, never moved.
 */
module OccupancyBindings {
  import opened Option
  import opened OccupancyTables
  import opened OccupancyInvariant
  import opened OccupancyRun
  import opened OccupancyFacts
  import opened OccupancySlots
  import opened OccupancyThrows
  import opened OccupancySources
  import opened ParkingCorrelation

  function Later(a: int, b: int): int {
    if a < b then b else a
  }

  /** The event carries everything that a binding needs. */
  predicate NamesTrack(p: Payload, attempt: string) {
    && p.Payload? && p.correlationId != "" && attempt != "" && p.cameraId != "" && p.channelId != ""
    && p.videoSourceToken != "" && p.ruleName != "" && p.objectId != ""
    && p.correlationExpiresAt.Some? && p.correlationExpiresAt.value > 0
  }

  /** The binding of that track to that session. */
  predicate IsOf(b: Binding, c: Command, attempt: string, session: nat)
    requires c.payload.Payload?
  {
    && b.attempt == attempt && b.session == session && b.slot == c.slot && b.camera == c.payload.cameraId
    && b.token == c.payload.videoSourceToken && b.rule == c.payload.ruleName && b.objectId == c.payload.objectId
    && b.channel == c.payload.channelId && b.state == Committed
  }

  /**
   The one binding under the correlation is that of the track: new, under the event's own correlation id, or the one
   that it had, whose expiry never goes back and whose revision counts how often it went forward.
   */
  ghost predicate Binds(bs: map<string, Binding>, bs': map<string, Binding>, k: string, c: Command, attempt: string,
                        session: nat)
    requires NamesTrack(c.payload, attempt)
  {
    var expiry := c.payload.correlationExpiresAt.value;
    && k in bs' && bs' == bs[k := bs'[k]] && IsOf(bs'[k], c, attempt, session)
    && if k !in bs
       then k == c.payload.correlationId && bs'[k].source == c.id && bs'[k].revision == 1 && bs'[k].expiresAt == expiry
       else bs'[k] == bs[k].(expiresAt := Later(bs[k].expiresAt, expiry),
                             revision := bs[k].revision + if bs[k].expiresAt < expiry then 1 else 0)
  }

  lemma RefreshBinds(t: Tables, c: Command, attempt: string, session: nat, k: string)
    requires NamesTrack(c.payload, attempt) && k in t.bindings && TrackOf(t.bindings[k], attempt, c.payload)
    requires RefreshBinding(t, c, k, session).Some?
    ensures var b := RefreshBinding(t, c, k, session).value;
            && b.t == t.(bindings := b.t.bindings) && b.correlation == k
            && Binds(t.bindings, b.t.bindings, k, c, attempt, session)
  {
    assert t.bindings[k := t.bindings[k]] == t.bindings;
  }

  lemma InsertBinds(bs: map<string, Binding>, c: Command, attempt: string, session: nat)
    requires NamesTrack(c.payload, attempt) && c.payload.correlationId !in bs
    ensures Binds(bs, bs[c.payload.correlationId := NewBinding(c, attempt, session)], c.payload.correlationId, c,
                  attempt,
                  session)
  {
  }

  lemma CompleteNames(p: Payload, attempt: string)
    requires p.Payload?
    ensures CorrelationComplete(p, attempt) <==> NamesTrack(p, attempt)
  {
  }

  lemma CommitBinds(t: Tables, c: Command, attempt: string, session: nat)
    requires c.payload.Payload? && CommitCorrelation(t, c, attempt, session).Some?
    ensures var b := CommitCorrelation(t, c, attempt, session).value;
            && b.t == t.(bindings := b.t.bindings)
            && if NamesTrack(c.payload, attempt)
               then Binds(t.bindings, b.t.bindings, b.correlation, c, attempt, session)
               else b.correlation == "" && b.t == t
  {
    hide FindTrack, CorrelationComplete, NamesTrack, RefreshBinding, NewBinding, Binds, TrackOf;
    CompleteNames(c.payload, attempt);
    if CorrelationComplete(c.payload, attempt) {
      if FindTrack(t.bindings, attempt, c.payload).Some? {
        RefreshBinds(t, c, attempt, session, FindTrack(t.bindings, attempt, c.payload).value);
      } else {
        InsertBinds(t.bindings, c, attempt, session);
      }
    }
  }

  /** The same, seen from the tables that an application finds and leaves. */
  ghost predicate BindsTrack(t: Tables, t': Tables, c: Command, out: Outcome)
    requires c.payload.Payload?
  {
    && out.session.Some?
    && if NamesTrack(c.payload, out.attempt)
       then Binds(t.bindings, t'.bindings, out.correlation, c, out.attempt, out.session.value)
       else out.correlation == "" && t'.bindings == t.bindings
  }

  lemma IntrusionBindsTrack(t: Tables, row: Row, out: Outcome, session: nat)
    requires row.command.payload.Payload? && IntrusionBinds(t, row, out, session).Done?
    ensures var r := IntrusionBinds(t, row, out, session);
            && r.out == out.(correlation := r.out.correlation)
            && if NamesTrack(row.command.payload, out.attempt)
               then Binds(t.bindings, r.t.bindings, r.out.correlation, row.command, out.attempt, session)
               else r.out.correlation == "" && r.t.bindings == t.bindings
  {
    hide CommitCorrelation, Binds;
    CommitBinds(t, row.command, out.attempt, session);
  }

  lemma IntrudingBinds(t: Tables, row: Row)
    requires row.command.payload.Payload? && CameraIntrudes(t, row).Done?
    ensures BindsTrack(t, CameraIntrudes(t, row).t, row.command, CameraIntrudes(t, row).out)
  {
    hide FindActive, EntryCommandTaken, IvaBefore, IntrusionGeneration, Supersede, IntrusionBinds, Binds, AttemptOf;
    var c, p := row.command, row.command.payload;
    var before, active := IvaBefore(t, row), FindActive(t, c.slot);
    var generation := IntrusionGeneration(before, p.areaKey);
    var areas := before.areas[p.areaKey := true];
    var t1 := t.(deadlines := Supersede(t.deadlines, c.slot));
    if active.Some? {
      var attempt := t.sessions[active.value].attempt;
      var t2 := PersistIva(UpdateIva(t1, active.value, true, true), c.slot,
                           Iva(attempt, active, generation, Occupied, p.configured, areas));
      IntrusionBindsTrack(t2, row, Outcome(NoChange, active, attempt, "", generation), active.value);
    } else {
      var attempt := AttemptOf(c.id);
      var t2 := PersistIva(CreateSession(t1, c).value, c.slot,
                           Iva(attempt, Some(t.nextSession), generation, Occupied, p.configured, areas));
      IntrusionBindsTrack(t2, row, Outcome(SessionStarted, Some(t.nextSession), attempt, "", generation),
                          t.nextSession);
    }
  }

  lemma CorrelatingBinds(t: Tables, row: Row)
    requires row.command.payload.Payload? && CameraCorrelates(t, row).Done?
    ensures var r := CameraCorrelates(t, row);
            if FindActive(t, row.command.slot).Some? then BindsTrack(t, r.t, row.command, r.out) else r.t == t
  {
    hide FindActive, CommitCorrelation, Binds;
    var c := row.command;
    var active := FindActive(t, c.slot);
    if active.Some? && CommitCorrelation(t, c, t.sessions[active.value].attempt, active.value).Some? {
      CommitBinds(t, c, t.sessions[active.value].attempt, active.value);
    }
  }

  /** The camera only correlates: it has no say about occupancy, and tells which object it saw. */
  predicate OnlyCorrelates(c: Command) {
    && c.kind.CameraObservation? && c.payload.Payload? && !c.payload.occupancyAuthority
    && c.payload.configured != [] && c.payload.areaKey != "" && c.payload.objectId != ""
  }

  /**
   An INTRUSION that is applied binds its track to the session that it answers with: the open one, or for an occupancy
   authority the one that it has just started.
   */
  lemma AppliedIntrusionBinds(t: Tables, id: string)
    requires id != "" && Reduces(t, id) && Reduce(t, t.inbox[id]).Done?
    requires var c := t.inbox[id].command;
             && c.payload.action.Intrusion?
             && (IsAuthority(c) || (OnlyCorrelates(c) && FindActive(t, c.slot).Some?))
    ensures BindsTrack(t, Apply(t, id).t, t.inbox[id].command, Apply(t, id).out)
  {
    hide FindActive, CameraIntrudes, CameraExits, CameraCorrelates, BindsTrack;
    var row := t.inbox[id];
    ApplyIsReduction(t, id);
    if IsAuthority(row.command) {
      IntrusionIsReduced(t, row);
      IntrudingBinds(t, row);
    } else {
      CorrelatingBinds(t, row);
    }
    SameBinds(t, Reduce(t, row).t, Apply(t, id).t, row.command, Apply(t, id).out);
  }

  lemma SameBinds(t: Tables, t1: Tables, t2: Tables, c: Command, out: Outcome)
    requires c.payload.Payload? && t2.bindings == t1.bindings && BindsTrack(t, t1, c, out)
    ensures BindsTrack(t, t2, c, out)
  {
  }
}
