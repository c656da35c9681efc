/** Admission ordinals over whole runs: when the next one has passed every ordinal ever given out, and when not. */
module OccupancyOrdinals {
  import opened Option
  import opened OccupancyTables
  import opened OccupancyInvariant
  import opened OccupancyRun
  import opened OccupancyQueue
  import opened ParkingCorrelation

  /** Some row of the inbox carries the ordinal. */
  ghost predicate Carried(inbox: map<string, Row>, n: nat) {
    exists id :: id in inbox && inbox[id].ordinal == n
  }

  /** Some state of the run had a row with the ordinal. */
  ghost predicate EverGiven(run: Run, n: nat) {
    Carried(Final(run).inbox, n) || (run.Then? && EverGiven(run.prior, n))
  }

  ghost predicate IsHighestGiven(run: Run, h: nat) {
    && (forall n: nat :: EverGiven(run, n) ==> n <= h)
    && (h == 0 || EverGiven(run, h))
  }

  /** The highest ordinal that any state of the run has had a row with; 0 if there was never a row. */
  ghost function HighestGiven(run: Run): (h: nat)
    ensures IsHighestGiven(run, h)
  {
    HighestExists(run);
    var h: nat :| IsHighestGiven(run, h);
    h
  }

  lemma HighestPresent(inbox: map<string, Row>)
    ensures forall n: nat :: Carried(inbox, n) ==> n < NextOrdinal(inbox)
    ensures NextOrdinal(inbox) == 1 || Carried(inbox, NextOrdinal(inbox) - 1)
  {
    assert IsNextOrdinal(inbox, NextOrdinal(inbox));
  }

  lemma {:induction false} HighestExists(run: Run)
    ensures exists h: nat :: IsHighestGiven(run, h)
  {
    hide Final, Carried, NextOrdinal;
    var m: nat := NextOrdinal(Final(run).inbox) - 1;
    HighestPresent(Final(run).inbox);
    match run
    case Start(_) => assert IsHighestGiven(run, m);
    case Then(prior, _) =>
      HighestExists(prior);
      var h: nat :| IsHighestGiven(prior, h);
      var k := if m < h then h else m;
      forall n: nat | EverGiven(run, n) ensures n <= k {
        if !EverGiven(prior, n) { assert Carried(Final(run).inbox, n); }
      }
      assert EverGiven(prior, h) ==> EverGiven(run, h);
      assert IsHighestGiven(run, k);
  }

  /**
   After every run the next ordinal is not above everything ever given out exactly when the row that got the
   highest ordinal is no longer there.
   */
  lemma NextIsNotNewExactlyWhen(run: Run)
    ensures NextOrdinal(Final(run).inbox) <= HighestGiven(run)
            <==> HighestGiven(run) > 0 && !Carried(Final(run).inbox, HighestGiven(run))
  {
    hide Carried, NextOrdinal, Final;
    var h, n := HighestGiven(run), NextOrdinal(Final(run).inbox);
    HighestPresent(Final(run).inbox);
    if n > 1 { assert EverGiven(run, n - 1); }
  }

  // ----- only retention takes ordinals away -----

  /** Rows keep their ordinals until they are purged. */
  ghost predicate OrdinalsStay(inbox: map<string, Row>, inbox': map<string, Row>) {
    forall id :: id in inbox ==> id in inbox' && inbox'[id].ordinal == inbox[id].ordinal
  }

  lemma StayingNeverLowers(inbox: map<string, Row>, inbox': map<string, Row>)
    requires OrdinalsStay(inbox, inbox')
    ensures NextOrdinal(inbox) <= NextOrdinal(inbox')
  {
    hide NextOrdinal;
    HighestPresent(inbox);
    HighestPresent(inbox');
    if NextOrdinal(inbox) > 1 {
      var id :| id in inbox && inbox[id].ordinal == NextOrdinal(inbox) - 1;
      assert Carried(inbox', inbox'[id].ordinal);
    }
  }

  lemma {:induction false} BatchStays(t: Tables, ids: set<string>, room: nat, ordinal: nat, clock: int)
    requires ids <= t.deadlines.Keys
    ensures OrdinalsStay(t.inbox, AdmitBatch(t, ids, room, ordinal, clock).inbox)
    decreases room
  {
    hide Earliest;
    if room != 0 && ids != {} {
      var d := Earliest(t.deadlines, ids);
      assert d in ids;
      BatchStays(AdmitDeadline(t, d, ordinal, clock), ids - {d}, room - 1, ordinal + 1, clock);
    }
  }

  lemma InsertStays(t: Tables, prepared: Tables, c: Command, capacity: nat, clock: int)
    requires OrdinalsStay(t.inbox, prepared.inbox)
    ensures OrdinalsStay(t.inbox, InsertCommand(t, prepared, c, capacity, clock).t.inbox)
  {
    hide NextOrdinal, PendingIds;
  }

  lemma AdmitStays(t: Tables, c: Command, capacity: nat, clock: int)
    ensures OrdinalsStay(t.inbox, Admit(t, c, capacity, clock).t.inbox)
  {
    hide FindIdentity, SameSourceFact, FirstConfirmation, InsertCommand, OrdinalsStay, IsConfirmation;
    SameStays(t.inbox);
    InsertStays(t, t, c, capacity, clock);
    FirstIsConfirmation(t.inbox, c.slot);
    var w := FirstConfirmation(t.inbox, c.slot);
    if w.Some? {
      RowStays(t.inbox, w.value, CanceledRow(t.inbox[w.value]));
      InsertStays(t, SetRow(t, w.value, CanceledRow(t.inbox[w.value])), c, capacity, clock);
    }
  }

  lemma ApplyStays(t: Tables, id: string)
    requires Sound(t)
    ensures OrdinalsStay(t.inbox, Apply(t, id).t.inbox)
  {
    hide Sound, Apply;
    ApplySettlesOwnRow(t, id);
  }

  /** No call but a purge lowers the next ordinal. */
  lemma OnlyPurgeLowers(t: Tables, e: Event)
    requires Sound(t) && !e.PurgeCall?
    ensures NextOrdinal(t.inbox) <= NextOrdinal(Step(t, e).inbox)
  {
    hide Sound, Apply, Admit, AdmitBatch, NextOrdinal, OrdinalsStay, Attach, PendingIds;
    assert OrdinalsStay(t.inbox, Step(t, e).inbox) by {
      SameStays(t.inbox);
      match e
      case AdmitCall(c, capacity, clock) => AdmitStays(t, c, capacity, clock);
      case AdmitDueCall(now, capacity, blocked, clock) =>
        if |PendingIds(t.inbox)| < capacity {
          BatchStays(t, DueIds(t.deadlines, now, blocked), capacity - |PendingIds(t.inbox)|, NextOrdinal(t.inbox),
                     clock);
        }
      case ApplyCall(id) => ApplyStays(t, id);
      case DeferCall(id, next) => if id in t.inbox { RowStays(t.inbox, id, t.inbox[id].(nextAttemptAt := next)); }
      case CompleteCall(id) =>
        if id in t.inbox { RowStays(t.inbox, id, t.inbox[id].(effect := EffectApplied, effectNextAttemptAt := 0)); }
      case DeferEffectCall(id, next) =>
        if id in t.inbox { RowStays(t.inbox, id, t.inbox[id].(effectNextAttemptAt := next)); }
      case ViolationCall(session) =>
      case AttachCall(l, evidence, now) => AttachInbox(t, l, evidence, now);
    }
    StayingNeverLowers(t.inbox, Step(t, e).inbox);
  }

  lemma SameStays(inbox: map<string, Row>)
    ensures OrdinalsStay(inbox, inbox)
  {
  }

  lemma RowStays(inbox: map<string, Row>, id: string, r: Row)
    requires id in inbox && r.ordinal == inbox[id].ordinal
    ensures OrdinalsStay(inbox, inbox[id := r])
  {
  }
}
