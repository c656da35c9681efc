/**
 The store itself: tables as fields, calls that update them row by row, and rollback on error.
 Every method is specified by the function of `OccupancyTables` or `ParkingCorrelation` that says what the call does.
 */
module OccupancyStore {
  import opened Option
  import opened OccupancyTables
  import opened OccupancyInvariant
  import opened ParkingCorrelation
  import T = OccupancyTables
  import P = ParkingCorrelation
  import S = SensorSequence

  /** How the body of one application ends. */
  datatype Verdict = Finished(out: Outcome) | Threw | Refused

  // ----- table constraints -----

  ghost predicate InboxUnique(inbox: map<string, Row>) {
    && (forall a, b | a in inbox && b in inbox :: inbox[a].ordinal == inbox[b].ordinal ==> a == b)
    && (forall a, b | a in inbox && b in inbox ::
          SameIdentity(inbox[a], inbox[b].command.kind, inbox[b].command.identity) ==> a == b)
  }

  lemma {:induction false} LeastExists(ids: set<string>, inbox: map<string, Row>)
    requires ids <= inbox.Keys && ids != {}
    ensures exists id :: IsLeast(ids, inbox, id)
  {
    var x :| x in ids;
    if ids == {x} {
      assert IsLeast(ids, inbox, x);
    } else {
      LeastExists(ids - {x}, inbox);
      var y :| IsLeast(ids - {x}, inbox, y);
      var z := if inbox[x].ordinal < inbox[y].ordinal then x else y;
      assert IsLeast(ids, inbox, z);
    }
  }

  predicate IsLeast(ids: set<string>, inbox: map<string, Row>, id: string)
    requires ids <= inbox.Keys
  {
    id in ids && forall k :: k in ids ==> inbox[id].ordinal <= inbox[k].ordinal
  }

  /** A slot with a waiting confirmation has a first one. */
  lemma FirstConfirmationExists(inbox: map<string, Row>, slot: string)
    requires exists id :: id in inbox && IsConfirmation(inbox[id], slot)
    ensures exists id :: IsFirstConfirmation(inbox, slot, id)
  {
    var ids := set id | id in inbox && IsConfirmation(inbox[id], slot);
    var x :| x in inbox && IsConfirmation(inbox[x], slot);
    assert x in ids;
    LeastExists(ids, inbox);
    var id :| IsLeast(ids, inbox, id);
    assert IsFirstConfirmation(inbox, slot, id);
  }

  /** The rows of the list come in the order of their ordinals. */
  ghost predicate Ascending(inbox: map<string, Row>, list: seq<string>) {
    && (forall i :: 0 <= i < |list| ==> list[i] in inbox)
    && (forall i, j | 0 <= i < j < |list| :: inbox[list[i]].ordinal < inbox[list[j]].ordinal)
  }

  ghost predicate OnePerSlot(inbox: map<string, Row>, list: seq<string>)
    requires forall i :: 0 <= i < |list| ==> list[i] in inbox
  {
    forall i, j | 0 <= i < j < |list| :: inbox[list[i]].command.slot != inbox[list[j]].command.slot
  }

  ghost predicate AllBefore(inbox: map<string, Row>, list: seq<string>, rest: set<string>)
    requires rest <= inbox.Keys && forall i :: 0 <= i < |list| ==> list[i] in inbox
  {
    forall i, k | 0 <= i < |list| && k in rest :: inbox[list[i]].ordinal < inbox[k].ordinal
  }

  lemma AppendAscends(inbox: map<string, Row>, list: seq<string>, rest: set<string>, id: string)
    requires InboxUnique(inbox) && rest <= inbox.Keys && Ascending(inbox, list) && AllBefore(inbox, list, rest)
    requires id in rest && forall k :: k in rest ==> inbox[id].ordinal <= inbox[k].ordinal
    ensures Ascending(inbox, list + [id]) && AllBefore(inbox, list + [id], rest - {id})
  {
  }

  /** Heads of the same slot are the same row, so a list of heads names each slot once. */
  lemma HeadsOnePerSlot(inbox: map<string, Row>, list: seq<string>)
    requires Ascending(inbox, list)
    requires (forall i :: 0 <= i < |list| ==> IsHead(inbox, list[i])) ||
             (forall i :: 0 <= i < |list| ==> IsEffectHead(inbox, list[i]))
    ensures OnePerSlot(inbox, list)
  {
  }

  predicate IsYoungest(ids: set<string>, inbox: map<string, Row>, id: string)
    requires ids <= inbox.Keys
  {
    id in ids && forall k :: k in ids ==> inbox[k].ordinal <= inbox[id].ordinal
  }

  lemma {:induction false} YoungestExists(ids: set<string>, inbox: map<string, Row>)
    requires ids <= inbox.Keys && ids != {}
    ensures exists id :: IsYoungest(ids, inbox, id)
  {
    var x :| x in ids;
    if ids == {x} {
      assert IsYoungest(ids, inbox, x);
    } else {
      YoungestExists(ids - {x}, inbox);
      var y :| IsYoungest(ids - {x}, inbox, y);
      assert IsYoungest(ids, inbox, if inbox[x].ordinal < inbox[y].ordinal then y else x);
    }
  }

  lemma WithoutYoungest(ids: set<string>, inbox: map<string, Row>, limit: nat, y: string)
    requires ids <= inbox.Keys && IsYoungest(ids, inbox, y)
    requires forall k :: k in ids && k != y ==> inbox[k].ordinal != inbox[y].ordinal
    ensures OldestOf(ids, inbox, limit) == OldestOf(ids - {y}, inbox, limit) + if |ids - {y}| < limit then {y} else {}
  {
    var rest := ids - {y};
    forall id | id in rest ensures Older(ids, inbox, id) == Older(rest, inbox, id) {
      assert inbox[id].ordinal <= inbox[y].ordinal;
    }
    assert Older(ids, inbox, y) == rest;
    hide Older, IsYoungest;
  }

  /** Among rows of different ordinals exactly the limit, or all if they are fewer, have fewer older ones than that. */
  lemma {:induction false} OldestAreAsMany(ids: set<string>, inbox: map<string, Row>, limit: nat)
    requires ids <= inbox.Keys && forall a, b | a in ids && b in ids :: inbox[a].ordinal == inbox[b].ordinal ==> a == b
    ensures |OldestOf(ids, inbox, limit)| == if |ids| < limit then |ids| else limit
  {
    if ids == {} {
      assert OldestOf(ids, inbox, limit) == {};
    } else {
      YoungestExists(ids, inbox);
      var y :| IsYoungest(ids, inbox, y);
      OldestAreAsMany(ids - {y}, inbox, limit);
      WithoutYoungest(ids, inbox, limit, y);
      OldestAreAmong(ids - {y}, inbox, limit);
      hide OldestOf, IsYoungest;
    }
  }

  lemma OldestAreAmong(ids: set<string>, inbox: map<string, Row>, limit: nat)
    requires ids <= inbox.Keys
    ensures OldestOf(ids, inbox, limit) <= ids
  {
  }

  /** Applied, its effect delivered if it had one, and created before that time. */
  function Settled(inbox: map<string, Row>, before: int): set<string> {
    set id | id in inbox && inbox[id].status == Applied && inbox[id].effect != EffectPending &&
             inbox[id].createdAt < before
  }

  /** Retention removes settled rows only, as many as the limit allows, and none younger than one that it leaves. */
  lemma PurgeTakesOldest(inbox: map<string, Row>, before: int, limit: nat)
    requires InboxUnique(inbox)
    ensures var settled, purged := Settled(inbox, before), PurgedIds(inbox, before, limit);
            && purged <= settled
            && |purged| == (if |settled| < limit then |settled| else limit)
            && forall p, k | p in purged && k in settled && k !in purged :: inbox[p].ordinal < inbox[k].ordinal
  {
    var settled, purged := Settled(inbox, before), PurgedIds(inbox, before, limit);
    assert settled == SettledIds(inbox, before);
    OldestAreAsMany(settled, inbox, limit);
    forall p, k | p in purged && k in settled && k !in purged ensures inbox[p].ordinal < inbox[k].ordinal {
      if inbox[k].ordinal <= inbox[p].ordinal {
        assert Older(settled, inbox, k) <= Older(settled, inbox, p);
        SubsetSize(Older(settled, inbox, k), Older(settled, inbox, p));
      }
    }
  }

  /** Removing rows makes the next ordinal one that was given out before exactly when the youngest row goes. */
  lemma OrdinalFallsExactlyWhen(inbox: map<string, Row>, ids: set<string>)
    requires InboxUnique(inbox) && forall k :: k in inbox ==> inbox[k].ordinal > 0
    ensures NextOrdinal(inbox - ids) < NextOrdinal(inbox) <==>
              exists id :: id in inbox && id in ids && inbox[id].ordinal == NextOrdinal(inbox) - 1
  {
    var n, m := NextOrdinal(inbox), NextOrdinal(inbox - ids);
    assert IsNextOrdinal(inbox, n) && IsNextOrdinal(inbox - ids, m);
    if n > 1 {
      var k :| k in inbox && inbox[k].ordinal == n - 1;
      if k !in ids { assert k in inbox - ids; }
    }
    if m > 1 {
      var k :| k in inbox - ids && (inbox - ids)[k].ordinal == m - 1;
      assert k in inbox && k !in ids;
    }
  }

  class Store {
    var slots: map<string, SlotStatus>
    var sessions: map<nat, Session>
    var nextSession: nat
    var inbox: map<string, Row>
    var deadlines: map<string, Deadline>
    var iva: map<string, Iva>
    var cursors: map<string, S.Cursor>
    var bindings: map<string, Binding>
    var images: map<nat, Image>
    var nextImage: nat

    /** The tables as they stand. */
    function Now(): Tables
      reads this
    {
      Tables(slots, sessions, nextSession, inbox, deadlines, iva, cursors, bindings, images, nextImage)
    }

    /** The unique indexes the lookups rely on. */
    ghost predicate Valid()
      reads this
    {
      TracksUnique(bindings) && InboxUnique(inbox)
    }

    constructor (slots: map<string, SlotStatus>, sessions: map<nat, Session>, nextSession: nat)
      ensures Valid()
      ensures Now() == Tables(slots, sessions, nextSession, map[], map[], map[], map[], map[], map[], 1)
    {
      this.slots, this.sessions, this.nextSession := slots, sessions, nextSession;
      inbox, deadlines, iva, cursors, bindings, images, nextImage := map[], map[], map[], map[], map[], map[], 1;
    }

    method Restore(t: Tables)
      modifies this
      ensures Now() == t
    {
      slots, sessions, nextSession, inbox, deadlines := t.slots, t.sessions, t.nextSession, t.inbox, t.deadlines;
      iva, cursors, bindings, images, nextImage := t.iva, t.cursors, t.bindings, t.images, t.nextImage;
    }

    // ----- local steps -----

    method CreateSession(c: Command) returns (session: Option<nat>)
      modifies `slots, `sessions, `nextSession
      ensures T.CreateSession(old(Now()), c) == if session.Some? then Some(Now()) else None
      ensures session.Some? ==> session.value == old(nextSession)
    {
      if c.slot !in slots {
        return None;
      }
      slots := slots[c.slot := SlotOccupied];
      if exists i :: i in sessions && sessions[i].entryCommand == Some(c.id) {
        return None;
      }
      session := Some(nextSession);
      sessions := sessions[nextSession := NewSession(c)];
      nextSession := nextSession + 1;
    }

    method CloseSession(c: Command, session: nat) returns (ok: bool)
      requires session in sessions && TracksUnique(bindings)
      modifies `slots, `sessions, `bindings, `iva
      ensures TracksUnique(bindings)
      ensures T.CloseSession(old(Now()), c, session) == if ok then Some(Now()) else None
    {
      var s := sessions[session];
      if OccurredAt(c) < s.entryMs || exists i :: i in sessions && sessions[i].exitCommand == Some(c.id) {
        return false;
      }
      sessions := sessions[session := ClosedSession(s, c)];
      if c.slot !in slots {
        return false;
      }
      slots := slots[c.slot := SlotVacant];
      bindings := EndBindings(bindings, session, c.slot, s.attempt);
      iva := ClearIva(iva, c.slot, session);
      ok := true;
    }

    method UpdateHallState(session: nat, confirmed: bool, occupied: bool)
      requires session in sessions
      modifies `sessions
      ensures Now() == T.UpdateHall(old(Now()), session, confirmed, occupied)
    {
      var s := sessions[session];
      sessions := sessions[session := s.(hallConfirmed := s.hallConfirmed || confirmed, hallOccupied := occupied)];
    }

    method UpdateIvaState(session: nat, confirmed: bool, occupied: bool)
      requires session in sessions
      modifies `sessions
      ensures Now() == T.UpdateIva(old(Now()), session, confirmed, occupied)
    {
      var s := sessions[session];
      sessions := sessions[session := s.(ivaConfirmed := s.ivaConfirmed || confirmed, ivaOccupied := occupied)];
    }

    /** Retire the active boot when a new one opens, then write the cursor row. */
    method CommitSequence(c: Command)
      requires c.payload.Payload? && c.payload.protocol.Some?
      modifies `cursors
      ensures Now() == T.CommitSequence(old(Now()), c)
    {
      if c.sequence.None? || c.sensor == "" {
        return;
      }
      var cursor := CursorOf(cursors, c.sensor);
      var fact := HallFact(c);
      var retired := cursor.retired;
      if fact.protocol.BootEpochV2? && S.RetiresActive(cursor, fact) {
        retired := retired + {cursor.activeBoot.value};
      }
      cursors := cursors[c.sensor :=
        if fact.protocol.BootEpochV2? then S.Cursor(S.Versioned, fact.boot, fact.sequence, retired)
        else S.Cursor(S.Legacy, None, fact.sequence, retired)];
    }

    method CommitCorrelation(c: Command, attempt: string, session: nat) returns (correlation: Option<string>)
      requires c.payload.Payload? && TracksUnique(bindings)
      modifies `bindings
      ensures TracksUnique(bindings)
      ensures T.CommitCorrelation(old(Now()), c, attempt, session) ==
                if correlation.Some? then Some(Bound(Now(), correlation.value)) else None
    {
      var p := c.payload;
      if !CorrelationComplete(p, attempt) {
        return Some("");
      }
      if exists k :: k in bindings && TrackOf(bindings[k], attempt, p) {
        var k :| k in bindings && TrackOf(bindings[k], attempt, p);
        assert T.FindTrack(bindings, attempt, p) == Some(k);
        var b := bindings[k];
        if !b.state.Committed? || b.session != session || b.slot != c.slot || b.channel != p.channelId {
          return None;
        }
        if BindingExpiry(p) > b.expiresAt {
          bindings := bindings[k := b.(expiresAt := BindingExpiry(p), revision := b.revision + 1)];
        }
        return Some(k);
      }
      assert T.FindTrack(bindings, attempt, p).None?;
      if p.correlationId in bindings || exists k :: k in bindings && bindings[k].source == c.id {
        return None;
      }
      bindings := bindings[p.correlationId := NewBinding(c, attempt, session)];
      return Some(p.correlationId);
    }

    // ----- reducers -----

    ghost predicate Reached(v: Verdict, r: Reduction)
      reads this
    {
      match v
      case Finished(out) => r == Done(Now(), out)
      case Threw => r.Throw?
      case Refused => r.Invalid?
    }

    method ReduceHall(row: Row) returns (v: Verdict)
      requires row.command.payload.Payload? && TracksUnique(bindings)
      modifies `slots, `sessions, `nextSession, `cursors, `bindings, `iva
      ensures TracksUnique(bindings)
      ensures Reached(v, T.ReduceHall(old(Now()), row))
    {
      var c := row.command;
      var p := c.payload;
      var out := Outcome(NoChange, None, row.attempt, row.correlation, row.generation);
      if p.hallState.HallOther? || p.protocol.None? {
        return Refused;
      }
      if !S.Accepts(CursorOf(cursors, c.sensor), HallFact(c)) {
        return Finished(out);
      }
      var active := FindActive(Now(), c.slot);
      if p.hallState.HallOccupied? {
        if active.Some? {
          out := out.(session := active, attempt := sessions[active.value].attempt);
          UpdateHallState(active.value, true, true);
        } else {
          var session := CreateSession(c);
          if session.None? {
            return Threw;
          }
          out := out.(code := SessionStarted, session := session, attempt := AttemptOf(c.id));
        }
        CommitSequence(c);
        return Finished(out);
      }
      if active.None? {
        if c.slot in slots {
          slots := slots[c.slot := SlotVacant];
        }
        CommitSequence(c);
        return Finished(out);
      }
      var s := sessions[active.value];
      out := out.(session := active, attempt := s.attempt);
      if OccurredAt(c) < s.entryMs {
        return Finished(out.(code := RejectedInvalidTimestamp));
      }
      if p.hybridOr && !s.hallConfirmed {
        CommitSequence(c);
        return Finished(out);
      }
      UpdateHallState(active.value, s.hallConfirmed, false);
      if p.hybridOr && s.ivaConfirmed && s.ivaOccupied {
        CommitSequence(c);
        return Finished(out);
      }
      var ok := CloseSession(c, active.value);
      if !ok {
        return Threw;
      }
      CommitSequence(c);
      return Finished(out.(code := SessionEnded));
    }

    method PersistIva(slot: string, row: Iva)
      modifies `iva
      ensures Now() == T.PersistIva(old(Now()), slot, row)
    {
      iva := iva[slot := row];
    }

    /** Walk the configured areas: are all of them known, and is any of them active? */
    method ScanAreas(configured: seq<string>, areas: map<string, bool>) returns (allKnown: bool, anyActive: bool)
      ensures allKnown == AllAreasKnown(configured, areas)
      ensures anyActive == AnyAreaActive(configured, areas)
    {
      allKnown, anyActive := true, false;
      for i := 0 to |configured|
        invariant allKnown == AllAreasKnown(configured[..i], areas)
        invariant anyActive == AnyAreaActive(configured[..i], areas)
      {
        var key := configured[i];
        assert configured[..i + 1] == configured[..i] + [key];
        if key !in areas {
          allKnown := false;
          continue;
        }
        anyActive := anyActive || AreaActive(areas, key);
      }
      assert configured[..|configured|] == configured;
    }

    method ReduceCamera(row: Row) returns (v: Verdict)
      requires row.command.payload.Payload? && TracksUnique(bindings)
      modifies `slots, `sessions, `nextSession, `deadlines, `iva, `bindings
      ensures TracksUnique(bindings)
      ensures Reached(v, T.ReduceCamera(old(Now()), row))
    {
      var c := row.command;
      var p := c.payload;
      if p.configured == [] || p.areaKey == "" {
        return Refused;
      }
      if !p.occupancyAuthority {
        v := Correlate(row);
        return;
      }
      var before := IvaBefore(Now(), row);
      if c.slot in iva && before.configured != p.configured {
        return Threw;
      }
      var active := FindActive(Now(), c.slot);
      if p.action.Exit? && active.Some? && OccurredAt(c) < sessions[active.value].entryMs {
        return Finished(Outcome(RejectedInvalidTimestamp, active, sessions[active.value].attempt, row.correlation,
                                before.generation));
      }
      if p.action.Enter? || (p.action.Exit? && !p.authoritativeExit) {
        return Finished(Outcome(NoChange, None, before.attempt, row.correlation, before.generation));
      }
      match p.action {
        case Intrusion => v := Intrude(row);
        case Exit => v := Leave(row);
        case _ => v := Refused;
      }
    }

    /** The camera has no occupancy authority: bind its track to the session the Hall sensor holds. */
    method Correlate(row: Row) returns (v: Verdict)
      requires row.command.payload.Payload? && TracksUnique(bindings)
      modifies `bindings
      ensures TracksUnique(bindings)
      ensures Reached(v, if !row.command.payload.action.Intrusion? || row.command.payload.objectId == "" then Invalid
                         else T.CameraCorrelates(old(Now()), row))
    {
      var c := row.command;
      if !c.payload.action.Intrusion? || c.payload.objectId == "" {
        return Refused;
      }
      var active := FindActive(Now(), c.slot);
      if active.None? {
        return Finished(Outcome(NoChange, None, row.attempt, row.correlation, row.generation));
      }
      var attempt := sessions[active.value].attempt;
      var correlation := CommitCorrelation(c, attempt, active.value);
      if correlation.None? {
        return Threw;
      }
      return Finished(Outcome(NoChange, active, attempt, correlation.value, row.generation));
    }

    /** Supersede the scheduled deadlines and hold a session: the open one, confirmed by the camera, or a new one. */
    method HoldByCamera(c: Command) returns (session: Option<nat>)
      modifies `slots, `sessions, `nextSession, `deadlines
      ensures HeldByCamera(old(Now()), c, session, Now())
      ensures iva == old(iva)
    {
      hide LatestOpen, T.CreateSession, T.UpdateIva, Supersede;
      ActiveIgnoresDeadlines(Now(), Supersede(deadlines, c.slot), c.slot);
      deadlines := Supersede(deadlines, c.slot);
      session := FindActive(Now(), c.slot);
      if session.Some? {
        UpdateIvaState(session.value, true, true);
      } else {
        session := CreateSession(c);
      }
    }

    /** Hold a session and write the camera state; only the binding is missing. */
    method RecordIntrusion(row: Row) returns (out: Option<Outcome>)
      requires row.command.payload.Payload?
      modifies `slots, `sessions, `nextSession, `deadlines, `iva
      ensures out.Some? ==> out.value.session.Some?
      ensures T.CameraIntrudes(old(Now()), row) == Recorded(Now(), row, out)
    {
      hide FindActive, AttemptOf, T.CameraIntrudes, IvaBefore, IntrusionGeneration, HeldByCamera, IntrusionBinds;
      var c := row.command;
      ghost var begin := Now();
      var before := IvaBefore(Now(), row);
      var generation := IntrusionGeneration(before, c.payload.areaKey);
      var areas := before.areas[c.payload.areaKey := true];
      var active := FindActive(Now(), c.slot);
      var attempt := if active.Some? then sessions[active.value].attempt else AttemptOf(c.id);
      var session := HoldByCamera(c);
      HeldIntrusion(begin, row, session, Now());
      if session.None? {
        return None;
      }
      PersistIva(c.slot, Iva(attempt, session, generation, Occupied, c.payload.configured, areas));
      return Some(Outcome(if active.Some? then NoChange else SessionStarted, session, attempt, "", generation));
    }

    method Intrude(row: Row) returns (v: Verdict)
      requires row.command.payload.Payload? && TracksUnique(bindings)
      modifies `slots, `sessions, `nextSession, `deadlines, `iva, `bindings
      ensures TracksUnique(bindings)
      ensures Reached(v, T.CameraIntrudes(old(Now()), row))
    {
      hide T.CameraIntrudes, IntrusionBinds, TracksUnique;
      var out := RecordIntrusion(row);
      if out.None? {
        return Threw;
      }
      v := BindIntrusion(row, out.value, out.value.session.value);
    }

    method BindIntrusion(row: Row, out: Outcome, session: nat) returns (v: Verdict)
      requires row.command.payload.Payload? && TracksUnique(bindings)
      modifies `bindings
      ensures TracksUnique(bindings)
      ensures Reached(v, T.IntrusionBinds(old(Now()), row, out, session))
    {
      hide T.CommitCorrelation, TracksUnique;
      var correlation := CommitCorrelation(row.command, out.attempt, session);
      if correlation.None? {
        return Threw;
      }
      return Finished(out.(correlation := correlation.value));
    }

    method Leave(row: Row) returns (v: Verdict)
      requires row.command.payload.Payload?
      modifies `deadlines, `iva
      ensures Reached(v, T.CameraExits(old(Now()), row))
    {
      hide LatestOpen, AllAreasKnown, AnyAreaActive, T.ScheduleExit, IvaBefore;
      var c := row.command;
      var p := c.payload;
      var before := IvaBefore(Now(), row);
      var generation := if AreaActive(before.areas, p.areaKey) then before.generation + 1 else before.generation;
      var areas := before.areas[p.areaKey := false];
      var active := FindActive(Now(), c.slot);
      if active.None? {
        PersistIva(c.slot, Iva("", None, generation, Vacant, p.configured, areas));
        return Finished(Outcome(NoChange, None, "", row.correlation, generation));
      }
      v := LeaveOpen(row, active.value, generation, areas);
    }

    /** An exit from a slot with an open session: keep it, or schedule its end. */
    method LeaveOpen(row: Row, session: nat, generation: nat, areas: map<string, bool>) returns (v: Verdict)
      requires row.command.payload.Payload? && session in sessions
      modifies `deadlines, `iva
      ensures var t, c, p := old(Now()), row.command, row.command.payload;
              var attempt := t.sessions[session].attempt;
              var out := Outcome(NoChange, Some(session), attempt, row.correlation, generation);
              Reached(v,
                if !AllAreasKnown(p.configured, areas) || AnyAreaActive(p.configured, areas)
                then Done(T.PersistIva(t, c.slot,
                                       Iva(attempt, Some(session), generation, Occupied, p.configured, areas)), out)
                else match T.ScheduleExit(t, c, generation, session)
                     case None => Throw
                     case Some(t1) =>
                       Done(T.PersistIva(t1, c.slot,
                                         Iva(attempt, Some(session), generation, VacantPending, p.configured, areas)),
                            out.(code := ExitScheduled)))
    {
      hide AllAreasKnown, AnyAreaActive, T.ScheduleExit;
      var c := row.command;
      var attempt := sessions[session].attempt;
      var out := Outcome(NoChange, Some(session), attempt, row.correlation, generation);
      var allKnown, anyActive := ScanAreas(c.payload.configured, areas);
      if !allKnown || anyActive {
        PersistIva(c.slot, Iva(attempt, Some(session), generation, Occupied, c.payload.configured, areas));
        return Finished(out);
      }
      var ok := ScheduleExit(c, generation, session);
      if !ok {
        return Threw;
      }
      PersistIva(c.slot, Iva(attempt, Some(session), generation, VacantPending, c.payload.configured, areas));
      return Finished(out.(code := ExitScheduled));
    }

    method ScheduleExit(c: Command, generation: nat, session: nat) returns (ok: bool)
      requires c.payload.Payload? && session in sessions
      modifies `deadlines
      ensures T.ScheduleExit(old(Now()), c, generation, session) == if ok then Some(Now()) else None
    {
      if exists d :: d in deadlines && deadlines[d].slot == c.slot && IsLive(deadlines[d]) {
        return true;
      }
      var id := DeadlineId(c.slot, generation, session);
      if id in deadlines {
        return false;
      }
      deadlines := deadlines[id := NewDeadline(c, sessions[session].attempt, session, generation)];
      return true;
    }

    method ReduceDeadline(row: Row) returns (v: Verdict)
      requires row.command.payload.Payload? && TracksUnique(bindings)
      modifies `slots, `sessions, `deadlines, `iva, `bindings
      ensures TracksUnique(bindings)
      ensures Reached(v, T.ReduceDeadline(old(Now()), row))
    {
      hide TracksUnique, DeadlineOwns, DeadlineVacates;
      var c := row.command;
      var p := c.payload;
      var out := Outcome(StaleGeneration, None, row.attempt, row.correlation, row.generation);
      if !DeadlineMatches(Now(), c) {
        return Finished(out);
      }
      if !DeadlineOwns(Now(), c) {
        deadlines := deadlines[p.deadlineId := deadlines[p.deadlineId].(state := Superseded)];
        return Finished(out);
      }
      v := Vacate(row);
    }

    /** The deadline owns the slot: the camera lets go, and the session ends unless Hall holds it. */
    method Vacate(row: Row) returns (v: Verdict)
      requires row.command.payload.Payload? && TracksUnique(bindings)
      requires DeadlineMatches(Now(), row.command) && DeadlineOwns(Now(), row.command)
      modifies `slots, `sessions, `deadlines, `iva, `bindings
      ensures TracksUnique(bindings)
      ensures Reached(v, T.DeadlineVacates(old(Now()), row))
    {
      hide LatestOpen, T.CloseSession, TracksUnique;
      var c := row.command;
      var p := c.payload;
      var session := p.expectedSession.value;
      var s := sessions[session];
      var before := iva[c.slot];
      UpdateIvaState(session, s.ivaConfirmed, false);
      deadlines := deadlines[p.deadlineId := deadlines[p.deadlineId].(state := DeadlineApplied)];
      var out := Outcome(NoChange, Some(session), s.attempt, row.correlation, p.expectedGeneration);
      var left := Iva(s.attempt, Some(session), p.expectedGeneration, Vacant, before.configured, before.areas);
      if !(p.hybridOr && s.hallConfirmed && s.hallOccupied) {
        var ok := CloseSession(c, session);
        if !ok {
          return Threw;
        }
        left := left.(attempt := "", session := None);
        out := out.(code := SessionEnded);
      }
      PersistIva(c.slot, left);
      return Finished(out);
    }

    // ----- applying one command -----

    method SetInboxRow(id: string, row: Row)
      requires InboxUnique(inbox) && id in inbox && row.command == inbox[id].command && row.ordinal == inbox[id].ordinal
      modifies `inbox
      ensures InboxUnique(inbox)
      ensures Now() == SetRow(old(Now()), id, row)
    {
      inbox := inbox[id := row];
    }

    /** Apply one command inside a transaction: settle it, or roll back and leave it pending. */
    method Apply(id: string) returns (out: Outcome)
      requires Valid()
      modifies this
      ensures Valid()
      ensures T.Apply(old(Now()), id) == Application(Now(), out)
    {
      if id == "" || id !in inbox {
        return NO_OUTCOME;
      }
      var begin := Now();
      var row := inbox[id];
      if !row.command.payload.Payload? {
        SetInboxRow(id, RejectedRow(row));
        return StoredOutcome(RejectedRow(row), RejectedInvalidTimestamp);
      }
      if row.status.PendingPrepared? {
        return StoredOutcome(row, RetryableFailure);
      }
      if IsTerminal(row) {
        return StoredOutcome(row, AlreadyApplied);
      }
      var v: Verdict;
      match row.command.kind {
        case HallObservation => v := ReduceHall(row);
        case CameraObservation => v := ReduceCamera(row);
        case ExitDeadline => v := ReduceDeadline(row);
      }
      assert Reached(v, T.Reduce(begin, row));
      match v {
        case Finished(o) =>
          SetInboxRow(id, FinishedRow(row, o));
          return o;
        case Threw =>
          Restore(begin);
          return StoredOutcome(row, RetryableFailure).(code := RetryableFailure);
        case Refused =>
          Restore(begin);
          SetInboxRow(id, RejectedRow(row));
          return StoredOutcome(RejectedRow(row), RejectedInvalidTimestamp);
      }
    }

    // ----- admission -----

    /** The row of a source fact that is already in the inbox. */
    method FindIdentity(kind: Kind, identity: string) returns (id: Option<string>)
      requires InboxUnique(inbox)
      ensures id == T.FindIdentity(inbox, kind, identity)
    {
      if exists k :: k in inbox && SameIdentity(inbox[k], kind, identity) {
        var k :| k in inbox && SameIdentity(inbox[k], kind, identity);
        return Some(k);
      }
      return None;
    }

    method FirstConfirmation(slot: string) returns (id: Option<string>)
      requires InboxUnique(inbox)
      ensures id == T.FirstConfirmation(inbox, slot)
    {
      if exists k :: k in inbox && IsConfirmation(inbox[k], slot) {
        FirstConfirmationExists(inbox, slot);
        var k :| k in inbox && IsConfirmation(inbox[k], slot) &&
                 forall j :: j in inbox && IsConfirmation(inbox[j], slot) ==> inbox[k].ordinal <= inbox[j].ordinal;
        assert IsFirstConfirmation(inbox, slot, k);
        return Some(k);
      }
      return None;
    }

    method NextOrdinal() returns (n: nat)
      ensures n == T.NextOrdinal(inbox)
      ensures forall id :: id in inbox ==> inbox[id].ordinal < n
    {
      ghost var expected := T.NextOrdinal(inbox);
      if inbox == map[] {
        return 1;
      }
      var ids := inbox.Keys;
      var top := 0;
      while ids != {}
        invariant ids <= inbox.Keys
        invariant forall id :: id in inbox && id !in ids ==> inbox[id].ordinal <= top
        invariant top == 0 || exists id :: id in inbox && inbox[id].ordinal == top
        decreases ids
      {
        var id :| id in ids;
        ids := ids - {id};
        if inbox[id].ordinal > top {
          top := inbox[id].ordinal;
        }
      }
      return top + 1;
    }

    /** Insert a prepared command, or report why not; the caller rolls back what it prepared. */
    method Insert(c: Command, capacity: nat, clock: int, ghost begin: Tables) returns (code: AdmissionCode)
      requires InboxUnique(inbox)
      requires forall k :: k in inbox ==> !SameIdentity(inbox[k], c.kind, c.identity)
      modifies `inbox
      ensures InboxUnique(inbox)
      ensures var a := InsertCommand(begin, old(Now()), c, capacity, clock);
              a.code == code && a.id == c.id && if code.AdmittedNow? then a.t == Now()
                else Now() == old(Now()) && a.t == begin
    {
      if |PendingIds(inbox)| >= capacity {
        return CapacityFull;
      }
      if c.id in inbox || c.slot !in slots {
        return AdmissionRetry;
      }
      var ordinal := NextOrdinal();
      var correlation := if c.kind.CameraObservation? && c.payload.Payload? then c.payload.correlationId else "";
      inbox := inbox[c.id := NewRow(c, ordinal, correlation, clock)];
      return AdmittedNow;
    }

    method AdmitHall(c: Command, capacity: nat, clock: int) returns (code: AdmissionCode, id: string)
      requires Valid() && forall k :: k in inbox ==> !SameIdentity(inbox[k], c.kind, c.identity)
      modifies this
      ensures Valid()
      ensures T.AdmitHall(old(Now()), c, capacity, clock) == Admission(Now(), code, id)
    {
      hide TracksUnique, IsConfirmation, InsertCommand;
      id := c.id;
      if c.sensor == "" {
        return Conflict, id;
      }
      if !c.payload.Payload? {
        return AdmissionRetry, id;
      }
      if c.payload.protocol.None? {
        return Conflict, id;
      }
      var decision := S.Evaluate(CursorOf(cursors, c.sensor), HallFact(c));
      if !decision.Accept? {
        return if decision.Invalid? then Conflict else RejectedStale, id;
      }
      if c.payload.hallState.HallOther? {
        return Conflict, id;
      }
      var begin := Now();
      var waiting := FirstConfirmation(c.slot);
      if waiting.Some? {
        if c.payload.hallState.HallOccupied? {
          return Existing, waiting.value;
        }
        if OccurredAt(c) < inbox[waiting.value].command.dueAt {
          SetInboxRow(waiting.value, CanceledRow(inbox[waiting.value]));
        }
      }
      code := Insert(c, capacity, clock, begin);
      if !code.AdmittedNow? {
        Restore(begin);
      }
    }

    /** Admit one source fact; every answer but `AdmittedNow` leaves the tables as they were. */
    method Admit(c: Command, capacity: nat, clock: int) returns (code: AdmissionCode, id: string)
      requires Valid()
      modifies this
      ensures Valid()
      ensures T.Admit(old(Now()), c, capacity, clock) == Admission(Now(), code, id)
    {
      hide TracksUnique, InboxUnique, T.AdmitHall, InsertCommand, SameSourceFact;
      if c.id == "" || c.slot == "" || c.identity == "" || c.payload.Absent? || capacity == 0 {
        return Conflict, c.id;
      }
      if c.kind.CameraObservation? && c.payload.Malformed? {
        return Conflict, c.id;
      }
      var existing := FindIdentity(c.kind, c.identity);
      if existing.Some? {
        var row := inbox[existing.value];
        if !SameSourceFact(row.command, c) {
          return Conflict, existing.value;
        }
        return if IsTerminal(row) then AlreadyTerminal else Existing, existing.value;
      }
      if c.kind.HallObservation? {
        code, id := AdmitHall(c, capacity, clock);
      } else {
        code := Insert(c, capacity, clock, Now());
        id := c.id;
      }
    }

    method AdmitDeadline(id: string, ordinal: nat, clock: int)
      requires InboxUnique(inbox) && id in deadlines && forall k :: k in inbox ==> inbox[k].ordinal < ordinal
      modifies `inbox, `deadlines
      ensures InboxUnique(inbox) && forall k :: k in inbox ==> inbox[k].ordinal < ordinal + 1
      ensures Now() == T.AdmitDeadline(old(Now()), id, ordinal, clock)
    {
      var d := deadlines[id];
      var command := DeadlineCommandId(id);
      if !(command in inbox || exists k :: k in inbox && SameIdentity(inbox[k], ExitDeadline, id)) {
        inbox := inbox[command := DeadlineRow(id, d, ordinal, clock)];
      }
      deadlines := deadlines[id := d.(state := Admitted, admittedBy := Some(command))];
    }

    /** Admit due deadlines, earliest first, as far as the inbox has room, and tell how many. */
    method AdmitDue(now: int, capacity: nat, blocked: set<string>, clock: int) returns (admitted: nat)
      requires Valid()
      modifies `inbox, `deadlines
      ensures Valid()
      ensures deadlines.Keys == old(deadlines).Keys && admitted == |NewlyAdmitted(old(deadlines), deadlines)|
      ensures Now() == T.AdmitDue(old(Now()), now, capacity, blocked, clock)
    {
      hide TracksUnique, InboxUnique, PendingIds, DueIds, NewlyAdmitted, AdmitBatch;
      NoneNewlyAdmitted(deadlines);
      var pending := |PendingIds(inbox)|;
      if pending >= capacity {
        return 0;
      }
      var ids := DueIds(deadlines, now, blocked);
      var ordinal: nat := NextOrdinal();
      DueIdsPresent(deadlines, now, blocked);
      admitted := AdmitAll(ids, capacity - pending, ordinal, clock);
    }

    method AdmitAll(due: set<string>, available: nat, next: nat, clock: int) returns (admitted: nat)
      requires InboxUnique(inbox) && forall k :: k in inbox ==> inbox[k].ordinal < next
      requires due <= deadlines.Keys && forall d :: d in due ==> deadlines[d].state.Scheduled?
      modifies `inbox, `deadlines
      ensures InboxUnique(inbox)
      ensures deadlines.Keys == old(deadlines).Keys && admitted == |NewlyAdmitted(old(deadlines), deadlines)|
      ensures Now() == AdmitBatch(old(Now()), due, available, next, clock)
    {
      hide InboxUnique, T.AdmitDeadline, NewlyAdmitted, Earliest;
      NoneNewlyAdmitted(deadlines);
      admitted := 0;
      ghost var before := deadlines;
      var ids, room, ordinal := due, available, next;
      ghost var expected := AdmitBatch(Now(), ids, room, ordinal, clock);
      while room > 0 && ids != {}
        invariant InboxUnique(inbox) && ids <= deadlines.Keys == before.Keys
        invariant forall d :: d in ids ==> deadlines[d] == before[d] && deadlines[d].state.Scheduled?
        invariant admitted == |NewlyAdmitted(before, deadlines)|
        invariant forall k :: k in inbox ==> inbox[k].ordinal < ordinal
        invariant AdmitBatch(Now(), ids, room, ordinal, clock) == expected
        decreases room
      {
        var d := AdmitEarliest(ids, ordinal, clock, before);
        admitted := admitted + 1;
        ids, room, ordinal := ids - {d}, room - 1, ordinal + 1;
      }
    }

    method AdmitEarliest(ids: set<string>, ordinal: nat, clock: int, ghost before: map<string, Deadline>)
      returns (d: string)
      requires InboxUnique(inbox) && forall k :: k in inbox ==> inbox[k].ordinal < ordinal
      requires ids != {} && ids <= deadlines.Keys == before.Keys
      requires forall k :: k in ids ==> deadlines[k] == before[k] && deadlines[k].state.Scheduled?
      modifies `inbox, `deadlines
      ensures InboxUnique(inbox) && forall k :: k in inbox ==> inbox[k].ordinal < ordinal + 1
      ensures d in ids && d == Earliest(old(deadlines), ids)
      ensures Now() == T.AdmitDeadline(old(Now()), d, ordinal, clock)
      ensures deadlines.Keys == before.Keys && forall k :: k in deadlines && k != d ==>
                deadlines[k] == old(deadlines)[k]
      ensures |NewlyAdmitted(before, deadlines)| == |NewlyAdmitted(before, old(deadlines))| + 1
    {
      hide InboxUnique, T.AdmitDeadline, NewlyAdmitted;
      EarliestExists(deadlines, ids);
      d :| d in ids && forall k :: k in ids && k != d ==> DueBefore(deadlines, d, k);
      EarliestIsUnique(deadlines, ids, d, Earliest(deadlines, ids));
      ghost var t := Now();
      AdmitDeadline(d, ordinal, clock);
      AdmittingKeepsKeys(t, d, ordinal, clock);
      AdmittingOne(before, t, d, ordinal, clock);
    }

    // ----- retries, effects, retention, violations -----

    method Defer(id: string, next: int) returns (ok: bool)
      requires Valid()
      modifies `inbox
      ensures Valid() && Now() == T.Defer(old(Now()), id, next)
      ensures ok == (id in old(inbox) && old(inbox)[id].status == PendingUnprepared)
      ensures inbox == if ok then old(inbox)[id := old(inbox)[id].(nextAttemptAt := next)] else old(inbox)
    {
      ok := id in inbox && IsPending(inbox[id]);
      if ok {
        SetInboxRow(id, inbox[id].(nextAttemptAt := next));
      }
    }

    method CompleteEffect(id: string) returns (ok: bool)
      requires Valid()
      modifies `inbox
      ensures Valid() && Now() == T.CompleteEffect(old(Now()), id)
      ensures ok == (id in old(inbox) && old(inbox)[id].status == Applied && old(inbox)[id].effect == EffectPending)
      ensures inbox == if !ok then old(inbox)
                       else old(inbox)[id := old(inbox)[id].(effect := EffectApplied, effectNextAttemptAt := 0)]
    {
      ok := id in inbox && OwesEffect(inbox[id]);
      if ok {
        SetInboxRow(id, inbox[id].(effect := EffectApplied, effectNextAttemptAt := 0));
      }
    }

    method DeferEffect(id: string, next: int) returns (ok: bool)
      requires Valid()
      modifies `inbox
      ensures Valid() && Now() == T.DeferEffect(old(Now()), id, next)
      ensures ok == (id in old(inbox) && old(inbox)[id].status == Applied && old(inbox)[id].effect == EffectPending)
      ensures inbox == if ok then old(inbox)[id := old(inbox)[id].(effectNextAttemptAt := next)] else old(inbox)
    {
      ok := id in inbox && OwesEffect(inbox[id]);
      if ok {
        SetInboxRow(id, inbox[id].(effectNextAttemptAt := next));
      }
    }

    method Purge(before: int, limit: nat) returns (count: nat)
      requires Valid()
      modifies `inbox
      ensures Valid() && Now() == T.Purge(old(Now()), before, limit)
      ensures var settled := Settled(old(inbox), before);
              && count == (if |settled| < limit then |settled| else limit) == |old(inbox)| - |inbox|
              && (forall k :: k in old(inbox) && k !in inbox ==> k in settled)
              && (forall p, k | p in settled && p !in inbox && k in settled && k in inbox ::
                    old(inbox)[p].ordinal < old(inbox)[k].ordinal)
    {
      PurgeTakesOldest(inbox, before, limit);
      RemovalSize(inbox, PurgedIds(inbox, before, limit));
      hide PurgedIds, Settled;
      var ids := PurgedIds(inbox, before, limit);
      inbox := inbox - ids;
      count := |ids|;
    }

    method MarkViolation(session: nat) returns (changed: bool)
      modifies `sessions
      ensures Now() == T.MarkViolation(old(Now()), session)
      ensures changed ==
              (session in old(sessions) && old(sessions)[session].status == Active &&
               old(sessions)[session].exitMs.None?)
      ensures sessions == if changed then old(sessions)[session := old(sessions)[session].(status := Violation)]
                          else old(sessions)
    {
      changed := session in sessions && sessions[session].status.Active? && sessions[session].exitMs.None?;
      if changed {
        sessions := sessions[session := sessions[session].(status := Violation)];
      }
    }

    // ----- listings -----

    /** Put inbox rows in the order of their ordinals. */
    method ByOrdinal(ids: set<string>) returns (list: seq<string>)
      requires ids <= inbox.Keys && InboxUnique(inbox)
      ensures forall id :: id in list <==> id in ids
      ensures Ascending(inbox, list)
    {
      hide InboxUnique;
      var rest := ids;
      list := [];
      while rest != {}
        invariant rest <= ids
        invariant forall id :: id in ids <==> id in list || id in rest
        invariant Ascending(inbox, list) && AllBefore(inbox, list, rest)
        decreases rest
      {
        LeastExists(rest, inbox);
        var id :| id in rest && IsLeast(rest, inbox, id);
        AppendAscends(inbox, list, rest, id);
        list, rest := list + [id], rest - {id};
      }
    }

    /** The due heads of the slots, in admission order, at most one a slot. */
    method ListRunnable(now: int) returns (list: seq<string>)
      requires Valid()
      ensures forall id :: id in list <==>
                IsHead(inbox, id) && inbox[id].command.dueAt <= now && inbox[id].nextAttemptAt <= now
      ensures Ascending(inbox, list) && OnePerSlot(inbox, list)
    {
      hide InboxUnique, TracksUnique, Ascending;
      list := ByOrdinal(set id | id in inbox && IsRunnable(inbox, id, now));
      HeadsOnePerSlot(inbox, list);
    }

    /** The first owed effect of each slot that is due for an attempt, in admission order. */
    method ListPendingEffects(now: int) returns (list: seq<string>)
      requires Valid()
      ensures forall id :: id in list <==> IsEffectHead(inbox, id) && inbox[id].effectNextAttemptAt <= now
      ensures Ascending(inbox, list) && OnePerSlot(inbox, list)
    {
      hide InboxUnique, TracksUnique, Ascending;
      list := ByOrdinal(set id | id in inbox && IsEffectHead(inbox, id) && inbox[id].effectNextAttemptAt <= now);
      HeadsOnePerSlot(inbox, list);
    }

    // ----- correlation -----

    method CollectPending(camera: string, channel: string, objectId: string, now: int)
      returns (candidates: map<string, Option<Lease>>)
      ensures candidates.Keys == PendingCorrelations(Now(), camera, channel, objectId, now)
      ensures forall k :: k in candidates ==> candidates[k].None?
    {
      hide IsPendingCandidate;
      candidates := map[];
      var rows := inbox.Keys;
      while rows != {}
        invariant rows <= inbox.Keys
        invariant forall k :: k in candidates ==>
                    candidates[k].None? && k in PendingCorrelations(Now(), camera, channel, objectId, now)
        invariant forall id | id in inbox && id !in rows ::
                    IsPendingCandidate(inbox[id], camera, channel, objectId, now) ==>
                      inbox[id].correlation in candidates
        decreases rows
      {
        var id :| id in rows;
        rows := rows - {id};
        if IsPendingCandidate(inbox[id], camera, channel, objectId, now) {
          candidates := candidates[inbox[id].correlation := None];
        }
      }
    }

    /** A committed binding replaces the pending candidate of the same correlation. */
    method CollectCommitted(pending: map<string, Option<Lease>>, camera: string, channel: string, objectId: string,
                            now: int)
      returns (candidates: map<string, Option<Lease>>)
      ensures candidates.Keys == pending.Keys + CommittedCorrelations(Now(), camera, channel, objectId, now)
      ensures forall k :: k in candidates ==>
                candidates[k] == if k in CommittedCorrelations(Now(), camera, channel, objectId, now)
                                 then Some(LeaseOf(k, bindings[k])) else pending[k]
    {
      hide IsCommittedCandidate;
      candidates := pending;
      var keys := bindings.Keys;
      while keys != {}
        invariant keys <= bindings.Keys
        invariant forall k :: k in pending ==> k in candidates
        invariant forall k :: k in candidates ==>
                    if k in bindings && k !in keys && IsCommittedCandidate(bindings[k], camera, channel, objectId, now)
                    then candidates[k] == Some(LeaseOf(k, bindings[k])) else k in pending && candidates[k] == pending[k]
        invariant forall k | k in bindings && k !in keys ::
                    IsCommittedCandidate(bindings[k], camera, channel, objectId, now) ==> k in candidates
        decreases keys
      {
        var k :| k in keys;
        keys := keys - {k};
        if IsCommittedCandidate(bindings[k], camera, channel, objectId, now) {
          candidates := candidates[k := Some(LeaseOf(k, bindings[k]))];
        }
      }
    }

    /** Collect the candidate correlations of a track, committed over pending, and tell whether there is just one. */
    method Resolve(camera: string, channel: string, objectId: string, now: int) returns (r: Resolution)
      ensures r == P.Resolve(Now(), camera, channel, objectId, now)
    {
      hide PendingCorrelations, CommittedCorrelations, LeaseOf;
      if camera == "" || channel == "" || objectId == "" {
        return Resolution(Unmatched, {});
      }
      var candidates := CollectPending(camera, channel, objectId, now);
      candidates := CollectCommitted(candidates, camera, channel, objectId, now);
      if candidates == map[] {
        return Resolution(Unmatched, {});
      }
      if |candidates| > 1 {
        return Resolution(Ambiguous, candidates.Keys);
      }
      var k :| k in candidates;
      OnlyMember(candidates.Keys, k);
      var found := if candidates[k].Some? then UniqueMatch(candidates[k].value) else PendingMatch;
      return Resolution(found, candidates.Keys);
    }

    /** Attach evidence under a lease, checking binding, session and existing image again in this transaction. */
    method Attach(l: Lease, e: Evidence, now: int) returns (r: AttachResult)
      requires ImagesOk(images, nextImage)
      modifies `images, `nextImage
      ensures ImagesOk(images, nextImage)
      ensures P.Attach(old(Now()), l, e, now) == Attachment(Now(), r)
    {
      hide LeaseComplete, HoldsLease, IsCanonical;
      AttachKeepsImages(Now(), l, e, now);
      CompleteLease(l, e);
      if !LeaseComplete(l, e) {
        return AttachResult(AttachConflict, None);
      }
      if l.correlation !in bindings {
        return AttachResult(AttachUnmatched, None);
      }
      if !HoldsLease(bindings, l) {
        return AttachResult(AttachConflict, None);
      }
      if exists i :: i in images && IsEvidenceImage(images[i], l, e) {
        var i :| i in images && IsEvidenceImage(images[i], l, e);
        OneEvidenceImage(images, nextImage, l, e, i);
        return if IsCanonical(images[i], l, e) then AttachResult(AlreadyAttached, Some(i))
               else AttachResult(AttachConflict, None);
      }
      var binding := bindings[l.correlation];
      if binding.state.BindingExpired? || l.expiresAt <= now {
        return AttachResult(Expired, None);
      }
      if !binding.state.Committed? {
        return AttachResult(if binding.state.BindingEnded? then Inactive else AttachUnmatched, None);
      }
      if l.session !in sessions {
        return AttachResult(Inactive, None);
      }
      var s := sessions[l.session];
      if s.slot != l.slot || s.attempt != l.attempt {
        return AttachResult(AttachConflict, None);
      }
      if !IsOpen(s) {
        return AttachResult(Inactive, None);
      }
      r := AttachResult(Attached, Some(nextImage));
      images := images[nextImage := NewImage(l, e)];
      nextImage := nextImage + 1;
    }
  }

  /** The open session was confirmed by the camera, or a new one was made, or that failed. */
  ghost predicate HeldByCamera(t: Tables, c: Command, session: Option<nat>, t2: Tables) {
    var t1 := t.(deadlines := Supersede(t.deadlines, c.slot));
    var active := FindActive(t, c.slot);
    if active.Some? then session == active && t2 == T.UpdateIva(t1, active.value, true, true)
    else
      && T.CreateSession(t1, c) == (if session.Some? then Some(t2) else None)
      && (session.Some? ==> session.value == t1.nextSession)
  }

  /** What is left of an intrusion once its camera state is written. */
  ghost function Recorded(t: Tables, row: Row, out: Option<Outcome>): Reduction
    requires row.command.payload.Payload?
  {
    if out.None? || out.value.session.None? then Throw else IntrusionBinds(t, row, out.value, out.value.session.value)
  }

  /** An intrusion once the session that it holds is found, made or refused. */
  lemma HeldIntrusion(t: Tables, row: Row, session: Option<nat>, t2: Tables)
    requires row.command.payload.Payload? && HeldByCamera(t, row.command, session, t2)
    ensures var c, before, active := row.command, IvaBefore(t, row), FindActive(t, row.command.slot);
            var generation := IntrusionGeneration(before, c.payload.areaKey);
            var attempt := if active.Some? then t.sessions[active.value].attempt else AttemptOf(c.id);
            var areas := before.areas[c.payload.areaKey := true];
            var code := if active.Some? then NoChange else SessionStarted;
            T.CameraIntrudes(t, row) ==
            if session.None? then Throw
            else Recorded(T.PersistIva(t2, c.slot,
                                       Iva(attempt, session, generation, Occupied, c.payload.configured, areas)),
                          row, Some(Outcome(code, session, attempt, "", generation)))
  {
    hide FindActive, AttemptOf, T.CreateSession, Supersede, IvaBefore, IntrusionGeneration, T.UpdateIva, IntrusionBinds;
  }

  lemma ActiveIgnoresDeadlines(t: Tables, deadlines: map<string, Deadline>, slot: string)
    ensures FindActive(t.(deadlines := deadlines), slot) == FindActive(t, slot)
  {
    hide LatestOpen;
  }

  lemma RemovalSize(inbox: map<string, Row>, ids: set<string>)
    requires ids <= inbox.Keys
    ensures |inbox - ids| == |inbox| - |ids|
  {
    assert (inbox - ids).Keys == inbox.Keys - ids;
    assert |inbox| == |inbox.Keys| && |inbox - ids| == |(inbox - ids).Keys|;
  }

  /** The deadlines that were scheduled and are admitted now. */
  function NewlyAdmitted(deadlines: map<string, Deadline>, deadlines': map<string, Deadline>): set<string> {
    set d | d in deadlines && d in deadlines' && deadlines[d].state.Scheduled? && deadlines'[d].state.Admitted?
  }

  lemma NoneNewlyAdmitted(deadlines: map<string, Deadline>)
    ensures |NewlyAdmitted(deadlines, deadlines)| == 0
  {
    assert NewlyAdmitted(deadlines, deadlines) == {};
  }

  lemma AdmittingOne(before: map<string, Deadline>, t: Tables, d: string, ordinal: nat, clock: int)
    requires d in before && d in t.deadlines && before[d] == t.deadlines[d] && before[d].state.Scheduled?
    ensures |NewlyAdmitted(before, AdmitDeadline(t, d, ordinal, clock).deadlines)| ==
            |NewlyAdmitted(before, t.deadlines)| + 1
    ensures forall k :: k in t.deadlines && k != d ==>
              AdmitDeadline(t, d, ordinal, clock).deadlines[k] == t.deadlines[k]
  {
    assert NewlyAdmitted(before, AdmitDeadline(t, d, ordinal, clock).deadlines) ==
           NewlyAdmitted(before, t.deadlines) + {d};
  }

  lemma DueIdsPresent(deadlines: map<string, Deadline>, now: int, blocked: set<string>)
    ensures DueIds(deadlines, now, blocked) <= deadlines.Keys
    ensures forall d :: d in DueIds(deadlines, now, blocked) ==> deadlines[d].state.Scheduled?
  {
  }

  lemma AdmittingKeepsKeys(t: Tables, id: string, ordinal: nat, clock: int)
    requires id in t.deadlines
    ensures T.AdmitDeadline(t, id, ordinal, clock).deadlines.Keys == t.deadlines.Keys
  {
  }

  lemma OnlyMember(s: set<string>, k: string)
    requires k in s && |s| == 1
    ensures s == {k}
  {
    assert |s - {k}| == 0;
  }

  lemma CompleteLease(l: Lease, e: Evidence)
    ensures LeaseComplete(l, e) ==> l.session >= 0
  {
  }

  lemma OneEvidenceImage(images: map<nat, Image>, next: nat, l: Lease, e: Evidence, i: nat)
    requires ImagesOk(images, next) && i in images && IsEvidenceImage(images[i], l, e)
    ensures FindImage(images, l, e) == Some(i)
  {
    var j := FindImage(images, l, e).value;
    assert SameEvidence(images[i], images[j]);
  }
}
