/**
 Which exit deadlines one call admits, told from the tables before and after it: only those whose time has come, the
 earliest first, as many as there is room for, each with the command that describes it.
 */
module OccupancyDue {
  import opened Option
  import opened OccupancyTables
  import opened OccupancyInvariant
  import opened OccupancyRun
  import opened OccupancySlots
  import opened ParkingCorrelation

  /** The deadlines that a call took from SCHEDULED to ADMITTED. */
  function Promoted(ds: map<string, Deadline>, ds': map<string, Deadline>): set<string> {
    set d | d in ds && d in ds' && ds[d].state == Scheduled && ds'[d].state == Admitted
  }

  /** How many commands the inbox has room for. */
  function Room(t: Tables, capacity: nat): nat {
    var waiting := |set k | k in t.inbox && t.inbox[k].status == PendingUnprepared|;
    if waiting < capacity then capacity - waiting else 0
  }

  /** Of the given deadlines exactly the chosen ones are admitted; all else stays. */
  ghost predicate Promotes(t: Tables, t': Tables, chosen: set<string>) {
    && t'.deadlines.Keys == t.deadlines.Keys && chosen <= t.deadlines.Keys
    && forall d :: d in t.deadlines ==>
         t'.deadlines[d] == if d in chosen
                            then t.deadlines[d].(state := Admitted, admittedBy := Some(DeadlineCommandId(d)))
                            else t.deadlines[d]
  }

  /** The earliest of the given deadlines, as many as there is room for. */
  ghost predicate TakesEarliest(ds: map<string, Deadline>, ids: set<string>, room: nat, chosen: set<string>)
    requires ids <= ds.Keys
  {
    && chosen <= ids
    && |chosen| == (if |ids| < room then |ids| else room)
    && forall d, e :: d in chosen && e in ids && e !in chosen ==> DueBefore(ds, d, e)
  }

  lemma {:induction false} BatchPromotes(t: Tables, ids: set<string>, room: nat, ordinal: nat, clock: int)
    requires ids <= t.deadlines.Keys
    ensures exists chosen ::
              Promotes(t, AdmitBatch(t, ids, room, ordinal, clock), chosen) &&
              TakesEarliest(t.deadlines, ids, room, chosen)
    decreases room
  {
    hide Earliest, DueBefore, SameIdentity, AdmitDeadline, Promotes, TakesEarliest;
    if room == 0 || ids == {} {
      NothingPromotes(t, ids, room);
    } else {
      var d := Earliest(t.deadlines, ids);
      assert IsEarliest(t.deadlines, ids, d) && d in ids;
      var t1, rest := AdmitDeadline(t, d, ordinal, clock), ids - {d};
      OthersStayScheduled(t, d, ordinal, clock);
      BatchPromotes(t1, rest, room - 1, ordinal + 1, clock);
      var t' := AdmitBatch(t1, rest, room - 1, ordinal + 1, clock);
      var chosen :| Promotes(t1, t', chosen) && TakesEarliest(t1.deadlines, rest, room - 1, chosen);
      FirstIsPromoted(t, d, ordinal, clock);
      ChosenAmong(t1, rest, room - 1, chosen);
      PromotedToo(t, t1, t', d, chosen);
      ChosenToo(t, t1, ids, room, d, chosen);
      assert Promotes(t, t', chosen + {d}) && TakesEarliest(t.deadlines, ids, room, chosen + {d});
    }
  }

  lemma NothingPromotes(t: Tables, ids: set<string>, room: nat)
    requires ids <= t.deadlines.Keys && (room == 0 || ids == {})
    ensures Promotes(t, t, {}) && TakesEarliest(t.deadlines, ids, room, {})
  {
  }

  lemma ChosenAmong(t: Tables, ids: set<string>, room: nat, chosen: set<string>)
    requires ids <= t.deadlines.Keys && TakesEarliest(t.deadlines, ids, room, chosen)
    ensures chosen <= ids
  {
  }

  lemma FirstIsPromoted(t: Tables, d: string, ordinal: nat, clock: int)
    requires d in t.deadlines
    ensures Promotes(t, AdmitDeadline(t, d, ordinal, clock), {d})
  {
  }

  lemma PromotedToo(t: Tables, t1: Tables, t': Tables, d: string, chosen: set<string>)
    requires d in t.deadlines && d !in chosen && Promotes(t, t1, {d}) && Promotes(t1, t', chosen)
    ensures Promotes(t, t', chosen + {d})
  {
  }

  lemma ChosenToo(t: Tables, t1: Tables, ids: set<string>, room: nat, d: string, chosen: set<string>)
    requires ids <= t.deadlines.Keys && IsEarliest(t.deadlines, ids, d) && room > 0 && Promotes(t, t1, {d})
    requires TakesEarliest(t1.deadlines, ids - {d}, room - 1, chosen)
    ensures TakesEarliest(t.deadlines, ids, room, chosen + {d})
  {
    forall a, b | a in chosen + {d} && b in ids && b !in chosen + {d} ensures DueBefore(t.deadlines, a, b) {
      if a != d { assert DueBefore(t1.deadlines, a, b); }
    }
    hide DueBefore;
  }

  /** The deadline is waiting, its time has come, and its slot is not blocked. */
  predicate Ripe(d: Deadline, now: int, blocked: set<string>) {
    d.state == Scheduled && d.dueAt <= now && d.slot !in blocked
  }

  /** Nothing about deadlines changes but that the admitted ones are; and all of these are ripe and there is room. */
  ghost predicate AdmitsOnly(t: Tables, t': Tables, room: nat, now: int, blocked: set<string>) {
    var admitted := Promoted(t.deadlines, t'.deadlines);
    && Promotes(t, t', admitted) && |admitted| <= room
    && forall d :: d in admitted ==> Ripe(t.deadlines[d], now, blocked)
  }

  /** A ripe deadline is left waiting only when the room is used up, by deadlines that are due no later. */
  ghost predicate LeavesOnly(t: Tables, t': Tables, room: nat, now: int, blocked: set<string>) {
    var admitted := Promoted(t.deadlines, t'.deadlines);
    forall e :: e in t.deadlines && Ripe(t.deadlines[e], now, blocked) && e !in admitted ==>
      && |admitted| == room
      && forall d :: d in admitted && d in t.deadlines ==> t.deadlines[d].dueAt <= t.deadlines[e].dueAt
  }

  /**
   A call admits only deadlines that wait, whose time has come and whose slot is not blocked, and leaves such a deadline
   waiting only when the room is used up, by deadlines that are due no later.
   */
  lemma AdmitsOnlyRipe(t: Tables, now: int, capacity: nat, blocked: set<string>, clock: int)
    ensures AdmitsOnly(t, AdmitDue(t, now, capacity, blocked, clock), Room(t, capacity), now, blocked)
    ensures LeavesOnly(t, AdmitDue(t, now, capacity, blocked, clock), Room(t, capacity), now, blocked)
  {
    hide AdmitBatch, TakesEarliest, Promotes, AdmitsOnly, LeavesOnly, Ripe;
    var t' := AdmitDue(t, now, capacity, blocked, clock);
    assert PendingIds(t.inbox) == set k | k in t.inbox && t.inbox[k].status == PendingUnprepared;
    if |PendingIds(t.inbox)| < capacity {
      var ids := DueIds(t.deadlines, now, blocked);
      BatchPromotes(t, ids, Room(t, capacity), NextOrdinal(t.inbox), clock);
      var chosen :| Promotes(t, t', chosen) && TakesEarliest(t.deadlines, ids, Room(t, capacity), chosen);
      RipeAreTaken(t, t', ids, Room(t, capacity), chosen, now, blocked);
    } else {
      NothingIsTaken(t, now, blocked);
    }
  }

  lemma NothingIsTaken(t: Tables, now: int, blocked: set<string>)
    ensures AdmitsOnly(t, t, 0, now, blocked) && LeavesOnly(t, t, 0, now, blocked)
  {
    assert Promoted(t.deadlines, t.deadlines) == {};
  }

  lemma RipeAreTaken(t: Tables, t': Tables, ids: set<string>, room: nat, chosen: set<string>, now: int,
                     blocked: set<string>)
    requires ids == DueIds(t.deadlines, now, blocked)
    requires Promotes(t, t', chosen) && TakesEarliest(t.deadlines, ids, room, chosen)
    ensures AdmitsOnly(t, t', room, now, blocked) && LeavesOnly(t, t', room, now, blocked)
  {
    RoomIsUsed(t, t', ids, room, chosen);
    hide Promotes, Promoted;
    forall e, d | e in t.deadlines && Ripe(t.deadlines[e], now, blocked) && e !in chosen && d in chosen
      ensures t.deadlines[d].dueAt <= t.deadlines[e].dueAt
    {
      assert DueBefore(t.deadlines, d, e);
    }
    forall e | e in t.deadlines && Ripe(t.deadlines[e], now, blocked) && e !in chosen ensures |chosen| == room {
      assert e in ids - chosen;
    }
  }

  lemma RoomIsUsed(t: Tables, t': Tables, ids: set<string>, room: nat, chosen: set<string>)
    requires ids <= t.deadlines.Keys && Promotes(t, t', chosen) && TakesEarliest(t.deadlines, ids, room, chosen)
    requires forall d :: d in ids ==> t.deadlines[d].state == Scheduled
    ensures Promoted(t.deadlines, t'.deadlines) == chosen
    ensures ids - chosen != {} ==> |chosen| == room
  {
    if |ids| < room { SubsetOfSameSize(chosen, ids); }
  }

  lemma {:induction false} SubsetOfSameSize(a: set<string>, b: set<string>)
    requires a <= b && |a| == |b|
    ensures a == b
  {
    assert |b - a| == |b| - |a|;
  }

  // ----- the commands -----

  /** The row waits with the command of that deadline: same slot, due time, session, generation and attempt. */
  predicate Describes(r: Row, id: string, d: Deadline) {
    && r.status == PendingUnprepared && r.command.kind == ExitDeadline && r.command.slot == d.slot
    && r.command.identity == id && r.command.dueAt == d.dueAt && r.command.payload.Payload?
    && r.command.payload.deadlineId == id && r.command.payload.expectedSession == Some(d.session)
    && r.command.payload.expectedGeneration == d.generation && r.command.payload.expectedAttempt == d.attempt
    && r.command.payload.hybridOr == d.hybridOr && r.nextAttemptAt == 0
  }

  /** The deadline's command id, or its identity, is in the inbox. */
  predicate Known(inbox: map<string, Row>, id: string) {
    DeadlineCommandId(id) in inbox ||
    exists k :: k in inbox && inbox[k].command.kind == ExitDeadline && inbox[k].command.identity == id
  }

  /** Old rows stay, and the inbox has the command of every deadline that the call admits. */
  ghost predicate Delivers(t: Tables, t': Tables) {
    && (forall k :: k in t.inbox ==> k in t'.inbox && t'.inbox[k] == t.inbox[k])
    && (forall d :: d in Promoted(t.deadlines, t'.deadlines) ==>
          Known(t.inbox, d) ||
          (DeadlineCommandId(d) in t'.inbox && Describes(t'.inbox[DeadlineCommandId(d)], d, t.deadlines[d])))
    && (forall k :: k in t'.inbox && k !in t.inbox ==>
          exists d :: d in Promoted(t.deadlines, t'.deadlines) && k == DeadlineCommandId(d))
  }

  lemma CommandIdIsInjective(a: string, b: string)
    requires DeadlineCommandId(a) == DeadlineCommandId(b)
    ensures a == b
  {
    assert a == DeadlineCommandId(a)[|"deadline-command:"|..] && b == DeadlineCommandId(b)[|"deadline-command:"|..];
  }

  lemma NothingDelivers(t: Tables)
    ensures Delivers(t, t)
  {
    assert Promoted(t.deadlines, t.deadlines) == {};
  }

  lemma OneDelivers(t: Tables, id: string, ordinal: nat, clock: int)
    requires id in t.deadlines && t.deadlines[id].state == Scheduled
    ensures Delivers(t, AdmitDeadline(t, id, ordinal, clock))
    ensures Promoted(t.deadlines, AdmitDeadline(t, id, ordinal, clock).deadlines) == {id}
  {
    assert Promoted(t.deadlines, AdmitDeadline(t, id, ordinal, clock).deadlines) == {id};
    hide DeadlineCommandId;
  }

  lemma PromotedFirst(t: Tables, t1: Tables, t': Tables, id: string, chosen: set<string>)
    requires id in t.deadlines && t.deadlines[id].state == Scheduled && Promotes(t, t1, {id})
    requires chosen == Promoted(t1.deadlines, t'.deadlines) && Promotes(t1, t', chosen)
    ensures Promoted(t.deadlines, t'.deadlines) == chosen + {id} && id !in chosen
    ensures forall d :: d in chosen ==> t1.deadlines[d] == t.deadlines[d]
  {
  }

  /** The first deadline's command can be nobody else's. */
  lemma DeliversToo(t: Tables, id: string, ordinal: nat, clock: int, t': Tables)
    requires id in t.deadlines && t.deadlines[id].state == Scheduled
    requires var t1 := AdmitDeadline(t, id, ordinal, clock);
             Delivers(t1, t') && Promotes(t1, t', Promoted(t1.deadlines, t'.deadlines))
    ensures Delivers(t, t')
  {
    hide AdmitDeadline, Known, Describes, DeadlineCommandId, Promoted, Promotes;
    var t1 := AdmitDeadline(t, id, ordinal, clock);
    var chosen := Promoted(t1.deadlines, t'.deadlines);
    OneDelivers(t, id, ordinal, clock);
    FirstIsPromoted(t, id, ordinal, clock);
    PromotedFirst(t, t1, t', id, chosen);
    forall d | d in chosen && Known(t1.inbox, d) ensures Known(t.inbox, d) {
      if !Known(t.inbox, d) { OnlyItsOwn(t, id, ordinal, clock, d); }
    }
  }

  lemma OnlyItsOwn(t: Tables, id: string, ordinal: nat, clock: int, d: string)
    requires id in t.deadlines && !Known(t.inbox, d) && Known(AdmitDeadline(t, id, ordinal, clock).inbox, d)
    ensures d == id
  {
    var inbox' := AdmitDeadline(t, id, ordinal, clock).inbox;
    if DeadlineCommandId(d) in inbox' && DeadlineCommandId(d) == DeadlineCommandId(id) { CommandIdIsInjective(d, id); }
    hide DeadlineCommandId;
  }

  lemma {:induction false} BatchDelivers(t: Tables, ids: set<string>, room: nat, ordinal: nat, clock: int)
    requires ids <= t.deadlines.Keys && forall d :: d in ids ==> t.deadlines[d].state == Scheduled
    ensures Delivers(t, AdmitBatch(t, ids, room, ordinal, clock))
    decreases room
  {
    hide Earliest, Delivers, SameIdentity, TakesEarliest, AdmitDeadline, Promotes, Promoted;
    if room == 0 || ids == {} {
      NothingDelivers(t);
    } else {
      var d := Earliest(t.deadlines, ids);
      assert d in ids;
      var t1, rest := AdmitDeadline(t, d, ordinal, clock), ids - {d};
      OthersStayScheduled(t, d, ordinal, clock);
      BatchDelivers(t1, rest, room - 1, ordinal + 1, clock);
      BatchPromotes(t1, rest, room - 1, ordinal + 1, clock);
      var t' := AdmitBatch(t1, rest, room - 1, ordinal + 1, clock);
      var chosen :| Promotes(t1, t', chosen) && TakesEarliest(t1.deadlines, rest, room - 1, chosen);
      ChosenIsPromoted(t1, t', rest, chosen, room - 1);
      DeliversToo(t, d, ordinal, clock, t');
    }
  }

  lemma OthersStayScheduled(t: Tables, id: string, ordinal: nat, clock: int)
    requires id in t.deadlines
    ensures var t1 := AdmitDeadline(t, id, ordinal, clock);
            && t1.deadlines.Keys == t.deadlines.Keys
            && forall d :: d in t.deadlines && d != id ==> t1.deadlines[d] == t.deadlines[d]
  {
  }

  lemma ChosenIsPromoted(t: Tables, t': Tables, ids: set<string>, chosen: set<string>, room: nat)
    requires ids <= t.deadlines.Keys && forall d :: d in ids ==> t.deadlines[d].state == Scheduled
    requires Promotes(t, t', chosen) && TakesEarliest(t.deadlines, ids, room, chosen)
    ensures Promoted(t.deadlines, t'.deadlines) == chosen
  {
  }

  /**
   For every admitted deadline that was not known before, its own command waits in the inbox; no other row is new, and
   no row changes.
   */
  lemma AdmitDueDelivers(t: Tables, now: int, capacity: nat, blocked: set<string>, clock: int)
    ensures Delivers(t, AdmitDue(t, now, capacity, blocked, clock))
  {
    hide Delivers, AdmitBatch, PendingIds;
    NothingDelivers(t);
    if |PendingIds(t.inbox)| < capacity {
      BatchDelivers(t, DueIds(t.deadlines, now, blocked), capacity - |PendingIds(t.inbox)|, NextOrdinal(t.inbox),
                    clock);
    }
  }
}
