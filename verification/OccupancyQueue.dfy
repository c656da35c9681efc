/** The inbox as one queue per slot: admission order, capacity, and canceled confirmations. */
module OccupancyQueue {
  import opened Option
  import opened OccupancyTables
  import opened OccupancyInvariant
  import opened OccupancyEffects
  import opened OccupancyRun
  import opened ParkingCorrelation
  import S = SensorSequence

  // ----- which rows wait -----

  /** What a row waits with, the time of its next attempt aside. */
  function Waiting(inbox: map<string, Row>, id: string): Option<Row> {
    if id in inbox && IsPending(inbox[id]) then Some(inbox[id].(nextAttemptAt := 0)) else None
  }

  ghost predicate SameQueue(inbox: map<string, Row>, inbox': map<string, Row>) {
    forall id :: Waiting(inbox', id) == Waiting(inbox, id)
  }

  predicate WaitsIn(inbox: map<string, Row>, slot: string, id: string) {
    id in inbox && IsPending(inbox[id]) && inbox[id].command.slot == slot
  }

  ghost predicate AllWait(inbox: map<string, Row>, slot: string, q: seq<string>) {
    forall i :: 0 <= i < |q| ==> WaitsIn(inbox, slot, q[i])
  }

  ghost predicate OrderedBy(inbox: map<string, Row>, q: seq<string>) {
    forall i, j | 0 <= i < j < |q| :: q[i] in inbox && q[j] in inbox ==> inbox[q[i]].ordinal < inbox[q[j]].ordinal
  }

  ghost predicate AllListed(inbox: map<string, Row>, slot: string, q: seq<string>) {
    forall id :: WaitsIn(inbox, slot, id) ==> id in q
  }

  /** The list names exactly the pending rows of the slot, in the order of their ordinals. */
  ghost predicate ListsPending(inbox: map<string, Row>, slot: string, q: seq<string>) {
    AllWait(inbox, slot, q) && OrderedBy(inbox, q) && AllListed(inbox, slot, q)
  }

  // ----- the queue a run builds -----

  function Without(q: seq<string>, id: string): seq<string> {
    if q == [] then [] else if q[0] == id then q[1..] else [q[0]] + Without(q[1..], id)
  }

  /** The waiting confirmation that an admitted VACANT takes back. */
  ghost function Canceled(t: Tables, c: Command): Option<string> {
    var w := FirstConfirmation(t.inbox, c.slot);
    if c.kind.HallObservation? && w.Some? && OccurredAt(c) < t.inbox[w.value].command.dueAt then w else None
  }

  /** The deadline commands of a slot that one call inserts. */
  ghost function BatchArrivals(t: Tables, ids: set<string>, room: nat, ordinal: nat, clock: int,
                               slot: string): seq<string>
    requires ids <= t.deadlines.Keys
    decreases room
  {
    if room == 0 || ids == {} then []
    else
      var d := Earliest(t.deadlines, ids);
      var t1 := AdmitDeadline(t, d, ordinal, clock);
      (if t1.inbox != t.inbox && t.deadlines[d].slot == slot then [DeadlineCommandId(d)] else []) +
      BatchArrivals(t1, ids - {d}, room - 1, ordinal + 1, clock, slot)
  }

  /** The row was pending and no longer is. */
  ghost predicate Settles(t: Tables, t': Tables, id: string, slot: string) {
    WaitsIn(t.inbox, slot, id) && !WaitsIn(t'.inbox, slot, id)
  }

  /** Admitted commands join the queue at the back, canceled ones drop out, applied ones leave at the front. */
  ghost function QueueAfter(t: Tables, e: Event, slot: string, q: seq<string>): seq<string> {
    match e
    case AdmitCall(c, capacity, clock) =>
      if Admit(t, c, capacity, clock).code.AdmittedNow? && c.slot == slot
      then (if Canceled(t, c).Some? then Without(q, Canceled(t, c).value) else q) + [c.id]
      else q
    case AdmitDueCall(now, capacity, blocked, clock) =>
      if |PendingIds(t.inbox)| >= capacity then q
      else q + BatchArrivals(t, DueIds(t.deadlines, now, blocked), capacity - |PendingIds(t.inbox)|,
                             NextOrdinal(t.inbox), clock, slot)
    case ApplyCall(id) => if Settles(t, Apply(t, id).t, id, slot) && |q| > 0 then q[1..] else q
    case _ => q
  }

  /** The queue of a slot as its history built it. */
  ghost function Queue(run: Run, slot: string): seq<string> {
    match run
    case Start(_) => []
    case Then(prior, e) => QueueAfter(Final(prior), e, slot, Queue(prior, slot))
  }

  // ----- list lemmas -----

  lemma SameQueueKeeps(inbox: map<string, Row>, inbox': map<string, Row>, slot: string, q: seq<string>)
    requires ListsPending(inbox, slot, q) && SameQueue(inbox, inbox')
    ensures ListsPending(inbox', slot, q)
  {
    forall i | 0 <= i < |q| ensures WaitsIn(inbox', slot, q[i]) && inbox'[q[i]].ordinal == inbox[q[i]].ordinal {
      assert WaitsIn(inbox, slot, q[i]) && Waiting(inbox', q[i]) == Waiting(inbox, q[i]);
    }
    forall id | WaitsIn(inbox', slot, id) ensures id in q {
      assert Waiting(inbox', id) == Waiting(inbox, id);
    }
  }

  lemma JoinKeeps(inbox: map<string, Row>, slot: string, q: seq<string>, id: string, r: Row)
    requires ListsPending(inbox, slot, q) && id !in inbox && IsPending(r)
    requires forall k :: k in inbox ==> inbox[k].ordinal < r.ordinal
    ensures ListsPending(inbox[id := r], slot, if r.command.slot == slot then q + [id] else q)
  {
    forall i | 0 <= i < |q| ensures WaitsIn(inbox, slot, q[i]) {}
  }

  lemma {:induction false} WithoutIs(q: seq<string>, id: string, n: nat)
    requires n < |q| && q[n] == id && forall i :: 0 <= i < n ==> q[i] != id
    ensures Without(q, id) == q[..n] + q[n + 1..]
  {
    if n > 0 {
      WithoutIs(q[1..], id, n - 1);
      assert q[..n] == [q[0]] + q[1..][..n - 1] && q[1..][n..] == q[n + 1..];
    }
  }

  lemma ListedOnce(inbox: map<string, Row>, slot: string, q: seq<string>, n: nat)
    requires AllWait(inbox, slot, q) && OrderedBy(inbox, q) && n < |q|
    ensures forall i :: 0 <= i < |q| && i != n ==> q[i] != q[n]
  {
    forall i | 0 <= i < |q| ensures WaitsIn(inbox, slot, q[i]) {}
  }

  lemma RemoveAt(inbox: map<string, Row>, slot: string, q: seq<string>, n: nat, r: Row)
    requires ListsPending(inbox, slot, q) && n < |q| && !IsPending(r)
    requires forall i :: 0 <= i < |q| && i != n ==> q[i] != q[n]
    ensures ListsPending(inbox[q[n] := r], slot, q[..n] + q[n + 1..])
  {
    RemoveAtWaits(inbox, slot, q, n, r);
    RemoveAtLists(inbox, slot, q, n, r);
    RemoveAtOrders(inbox, slot, q, n, r);
  }

  lemma RemoveAtWaits(inbox: map<string, Row>, slot: string, q: seq<string>, n: nat, r: Row)
    requires AllWait(inbox, slot, q) && n < |q|
    requires forall i :: 0 <= i < |q| && i != n ==> q[i] != q[n]
    ensures AllWait(inbox[q[n] := r], slot, q[..n] + q[n + 1..])
  {
    var q' := q[..n] + q[n + 1..];
    forall i | 0 <= i < |q'| ensures WaitsIn(inbox[q[n] := r], slot, q'[i]) {
      assert WaitsIn(inbox, slot, q[if i < n then i else i + 1]);
    }
  }

  lemma RemoveAtLists(inbox: map<string, Row>, slot: string, q: seq<string>, n: nat, r: Row)
    requires AllListed(inbox, slot, q) && n < |q| && !IsPending(r)
    ensures AllListed(inbox[q[n] := r], slot, q[..n] + q[n + 1..])
  {
    var q' := q[..n] + q[n + 1..];
    forall k | WaitsIn(inbox[q[n] := r], slot, k) ensures k in q' {
      assert WaitsIn(inbox, slot, k);
      var m :| 0 <= m < |q| && q[m] == k;
      assert q'[if m < n then m else m - 1] == k;
    }
  }

  lemma RemoveAtOrders(inbox: map<string, Row>, slot: string, q: seq<string>, n: nat, r: Row)
    requires AllWait(inbox, slot, q) && OrderedBy(inbox, q) && n < |q|
    requires forall i :: 0 <= i < |q| && i != n ==> q[i] != q[n]
    ensures OrderedBy(inbox[q[n] := r], q[..n] + q[n + 1..])
  {
    var q' := q[..n] + q[n + 1..];
    var inbox' := inbox[q[n] := r];
    forall i, j | 0 <= i < j < |q'| && q'[i] in inbox' && q'[j] in inbox'
      ensures inbox'[q'[i]].ordinal < inbox'[q'[j]].ordinal
    {
      var i0, j0 := if i < n then i else i + 1, if j < n then j else j + 1;
      assert q'[i] == q[i0] && q'[j] == q[j0] && WaitsIn(inbox, slot, q[i0]) && WaitsIn(inbox, slot, q[j0]);
    }
  }

  lemma PendingHeadIsFirst(inbox: map<string, Row>, slot: string, q: seq<string>, n: nat)
    requires ListsPending(inbox, slot, q) && n < |q| && IsHead(inbox, q[n])
    ensures n == 0
  {
    assert WaitsIn(inbox, slot, q[0]) && WaitsIn(inbox, slot, q[n]);
  }

  lemma OtherSlotKeeps(inbox: map<string, Row>, slot: string, q: seq<string>, id: string, r: Row)
    requires ListsPending(inbox, slot, q) && id in inbox && inbox[id].command.slot != slot && r.command.slot != slot
    ensures ListsPending(inbox[id := r], slot, q)
  {
    forall i | 0 <= i < |q| ensures WaitsIn(inbox, slot, q[i]) {}
  }

  /** Settling one row takes it, and nothing else, out of the list; the head of the slot is its front. */
  lemma LeaveKeeps(inbox: map<string, Row>, slot: string, q: seq<string>, id: string, r: Row)
    requires ListsPending(inbox, slot, q) && id in inbox && IsPending(inbox[id]) && !IsPending(r)
    requires r.command == inbox[id].command
    ensures ListsPending(inbox[id := r], slot, if inbox[id].command.slot == slot then Without(q, id) else q)
    ensures inbox[id].command.slot == slot && IsHead(inbox, id) ==> |q| > 0 && q[0] == id && Without(q, id) == q[1..]
  {
    if inbox[id].command.slot == slot {
      assert WaitsIn(inbox, slot, id);
      var n :| 0 <= n < |q| && q[n] == id;
      ListedOnce(inbox, slot, q, n);
      WithoutIs(q, id, n);
      RemoveAt(inbox, slot, q, n, r);
      if IsHead(inbox, id) { PendingHeadIsFirst(inbox, slot, q, n); }
    } else {
      OtherSlotKeeps(inbox, slot, q, id, r);
    }
  }

  // ----- each call -----

  lemma NothingSameQueue(inbox: map<string, Row>)
    ensures SameQueue(inbox, inbox)
  {
  }

  lemma SetRowSameQueue(inbox: map<string, Row>, id: string, r: Row)
    requires id in inbox
    requires (!IsPending(inbox[id]) && !IsPending(r)) || r == inbox[id].(nextAttemptAt := r.nextAttemptAt)
    ensures SameQueue(inbox, inbox[id := r])
  {
  }

  lemma RemoveSameQueue(inbox: map<string, Row>, ids: set<string>)
    requires forall id :: id in ids && id in inbox ==> !IsPending(inbox[id])
    ensures SameQueue(inbox, inbox - ids)
  {
  }

  lemma InsertLists(t: Tables, prepared: Tables, c: Command, capacity: nat, clock: int, slot: string, q: seq<string>)
    requires ListsPending(prepared.inbox, slot, q)
    ensures var a := InsertCommand(t, prepared, c, capacity, clock);
            a.code.AdmittedNow? ==> ListsPending(a.t.inbox, slot, if c.slot == slot then q + [c.id] else q)
  {
    hide ListsPending;
    var a := InsertCommand(t, prepared, c, capacity, clock);
    if a.code.AdmittedNow? {
      var correlation := if c.kind.CameraObservation? && c.payload.Payload? then c.payload.correlationId else "";
      JoinKeeps(prepared.inbox, slot, q, c.id, NewRow(c, NextOrdinal(prepared.inbox), correlation, clock));
    }
  }

  lemma AdmitHallLists(t: Tables, c: Command, capacity: nat, clock: int, slot: string, q: seq<string>)
    requires ListsPending(t.inbox, slot, q) && c.kind.HallObservation?
    ensures var a := AdmitHall(t, c, capacity, clock);
            a.code.AdmittedNow? ==>
              ListsPending(a.t.inbox, slot,
                           if c.slot == slot
                           then (if Canceled(t, c).Some? then Without(q, Canceled(t, c).value) else q) + [c.id]
                           else q)
  {
    hide ListsPending, S.Evaluate, FirstConfirmation, InsertCommand, CanceledRow, Without, IsConfirmation, OccurredAt,
         SetRow;
    InsertLists(t, t, c, capacity, clock, slot, q);
    var w := FirstConfirmation(t.inbox, c.slot);
    FirstIsConfirmation(t.inbox, c.slot);
    if w.Some? {
      CancelLists(t, w.value, c.slot, slot, q);
      InsertLists(t, SetRow(t, w.value, CanceledRow(t.inbox[w.value])), c, capacity, clock, slot,
                  if c.slot == slot then Without(q, w.value) else q);
    }
  }

  lemma CancelLists(t: Tables, id: string, of: string, slot: string, q: seq<string>)
    requires ListsPending(t.inbox, slot, q) && id in t.inbox && IsConfirmation(t.inbox[id], of)
    ensures ListsPending(SetRow(t, id, CanceledRow(t.inbox[id])).inbox, slot, if of == slot then Without(q, id) else q)
  {
    hide ListsPending, Without, IsHead;
    LeaveKeeps(t.inbox, slot, q, id, CanceledRow(t.inbox[id]));
  }

  lemma AdmitLists(t: Tables, c: Command, capacity: nat, clock: int, slot: string, q: seq<string>)
    requires InboxOk(t.inbox) && ListsPending(t.inbox, slot, q)
    ensures var a := Admit(t, c, capacity, clock);
            ListsPending(a.t.inbox, slot,
                         if a.code.AdmittedNow? && c.slot == slot
                         then (if Canceled(t, c).Some? then Without(q, Canceled(t, c).value) else q) + [c.id]
                         else q)
  {
    hide ListsPending, InboxOk, FindIdentity, SameSourceFact, InsertCommand, AdmitHall, Without;
    AdmitKeeps(t, c, capacity, clock);
    if c.kind.HallObservation? {
      AdmitHallLists(t, c, capacity, clock, slot, q);
    } else {
      InsertLists(t, t, c, capacity, clock, slot, q);
    }
  }

  lemma DeadlineJoins(t: Tables, d: string, ordinal: nat, clock: int, slot: string, q: seq<string>)
    requires d in t.deadlines && ListsPending(t.inbox, slot, q)
    requires forall k :: k in t.inbox ==> t.inbox[k].ordinal < ordinal
    ensures var t1 := AdmitDeadline(t, d, ordinal, clock);
            && t1.deadlines.Keys == t.deadlines.Keys
            && (forall k :: k in t1.inbox ==> t1.inbox[k].ordinal < ordinal + 1)
            && ListsPending(t1.inbox, slot, q + if t1.inbox != t.inbox && t.deadlines[d].slot == slot
                                                then [DeadlineCommandId(d)] else [])
  {
    hide ListsPending;
    assert q + [] == q;
    if AdmitDeadline(t, d, ordinal, clock).inbox != t.inbox {
      JoinKeeps(t.inbox, slot, q, DeadlineCommandId(d), DeadlineRow(d, t.deadlines[d], ordinal, clock));
    }
  }

  lemma {:induction false} BatchLists(t: Tables, ids: set<string>, room: nat, ordinal: nat, clock: int,
                                      slot: string, q: seq<string>)
    requires ids <= t.deadlines.Keys && ListsPending(t.inbox, slot, q)
    requires forall k :: k in t.inbox ==> t.inbox[k].ordinal < ordinal
    ensures ListsPending(AdmitBatch(t, ids, room, ordinal, clock).inbox, slot,
                         q + BatchArrivals(t, ids, room, ordinal, clock, slot))
    decreases room
  {
    hide ListsPending, AdmitDeadline, Earliest;
    if room == 0 || ids == {} {
      assert q + [] == q;
    } else {
      var d := Earliest(t.deadlines, ids);
      var t1 := AdmitDeadline(t, d, ordinal, clock);
      var one := if t1.inbox != t.inbox && t.deadlines[d].slot == slot then [DeadlineCommandId(d)] else [];
      DeadlineJoins(t, d, ordinal, clock, slot, q);
      BatchLists(t1, ids - {d}, room - 1, ordinal + 1, clock, slot, q + one);
      var more := BatchArrivals(t1, ids - {d}, room - 1, ordinal + 1, clock, slot);
      assert (q + one) + more == q + (one + more);
    }
  }

  lemma ApplyListsPending(t: Tables, id: string, slot: string, q: seq<string>)
    requires Sound(t) && Listed(t, ApplyCall(id)) && ListsPending(t.inbox, slot, q)
    ensures var t' := Apply(t, id).t;
            && ListsPending(t'.inbox, slot, if Settles(t, t', id, slot) && |q| > 0 then q[1..] else q)
            && (Settles(t, t', id, slot) ==> |q| > 0 && q[0] == id)
  {
    hide DomainOk, ImagesOk, InboxOk, ListsPending, Apply, FinishedRow, RejectedRow, IsHead, Without;
    var a := Apply(t, id);
    ApplySettlesOwnRow(t, id);
    if id in t.inbox {
      var row := t.inbox[id];
      SettledRows(row, a.out);
      var r := if InboxFinishes(t, a.t, id, a.out) then FinishedRow(row, a.out) else RejectedRow(row);
      if IsPending(row) {
        LeaveKeeps(t.inbox, slot, q, id, r);
      } else {
        SetRowSameQueue(t.inbox, id, r);
        SameQueueKeeps(t.inbox, t.inbox[id := r], slot, q);
      }
    }
  }

  lemma SettledRows(row: Row, out: Outcome)
    ensures FinishedRow(row, out).command == row.command && !IsPending(FinishedRow(row, out))
    ensures RejectedRow(row).command == row.command && !IsPending(RejectedRow(row))
  {
  }

  lemma RestSameQueue(t: Tables, e: Event)
    requires !e.AdmitCall? && !e.AdmitDueCall? && !e.ApplyCall?
    ensures SameQueue(t.inbox, Step(t, e).inbox)
  {
    hide SameQueue, PurgedIds, Attach;
    NothingSameQueue(t.inbox);
    match e
    case DeferCall(id, next) =>
      if id in t.inbox { SetRowSameQueue(t.inbox, id, t.inbox[id].(nextAttemptAt := next)); }
    case CompleteCall(id) =>
      if id in t.inbox && OwesEffect(t.inbox[id]) {
        SetRowSameQueue(t.inbox, id, t.inbox[id].(effect := EffectApplied, effectNextAttemptAt := 0));
      }
    case DeferEffectCall(id, next) =>
      if id in t.inbox && OwesEffect(t.inbox[id]) {
        SetRowSameQueue(t.inbox, id, t.inbox[id].(effectNextAttemptAt := next));
      }
    case PurgeCall(before, limit) =>
      forall id | id in PurgedIds(t.inbox, before, limit) && id in t.inbox ensures !IsPending(t.inbox[id]) {
        PurgedIsNotPending(t.inbox, before, limit, id);
      }
      RemoveSameQueue(t.inbox, PurgedIds(t.inbox, before, limit));
    case ViolationCall(session) =>
    case AttachCall(l, evidence, now) => AttachInbox(t, l, evidence, now);
  }

  lemma PurgedIsNotPending(inbox: map<string, Row>, before: int, limit: nat, id: string)
    requires id in PurgedIds(inbox, before, limit) && id in inbox
    ensures !IsPending(inbox[id])
  {
    assert id in SettledIds(inbox, before);
  }

  lemma StepLists(t: Tables, e: Event, slot: string, q: seq<string>)
    requires Sound(t) && Listed(t, e) && ListsPending(t.inbox, slot, q)
    ensures ListsPending(Step(t, e).inbox, slot, QueueAfter(t, e, slot, q))
    ensures e.ApplyCall? && Settles(t, Step(t, e), e.id, slot) ==> |q| > 0 && q[0] == e.id
  {
    hide Sound, ListsPending, Apply, Admit, AdmitBatch, BatchArrivals, Settles, Canceled, SameQueue, Listed;
    match e
    case AdmitCall(c, capacity, clock) =>
      InboxOf(t);
      AdmitLists(t, c, capacity, clock, slot, q);
    case AdmitDueCall(now, capacity, blocked, clock) =>
      if |PendingIds(t.inbox)| < capacity {
        BatchLists(t, DueIds(t.deadlines, now, blocked), capacity - |PendingIds(t.inbox)|, NextOrdinal(t.inbox), clock,
                   slot, q);
      }
    case ApplyCall(id) => ApplyListsPending(t, id, slot, q);
    case _ =>
      RestSameQueue(t, e);
      SameQueueKeeps(t.inbox, Step(t, e).inbox, slot, q);
  }

  /** Over any run the pending rows of a slot are its queue, and an application settles only the queue's front. */
  lemma {:induction false} InboxIsAQueue(run: Run, slot: string)
    requires Valid(run)
    ensures ListsPending(Final(run).inbox, slot, Queue(run, slot))
    ensures run.Then? && run.event.ApplyCall? && Settles(Final(run.prior), Final(run), run.event.id, slot) ==>
              |Queue(run.prior, slot)| > 0 && Queue(run.prior, slot)[0] == run.event.id
  {
    hide Sound, ListsPending, Step, QueueAfter, Settles, Listed;
    match run
    case Start(t) => EmptyQueue(t.inbox, slot);
    case Then(prior, e) =>
      InboxIsAQueue(prior, slot);
      ReachableIsSound(prior);
      StepLists(Final(prior), e, slot, Queue(prior, slot));
  }

  lemma EmptyQueue(inbox: map<string, Row>, slot: string)
    requires inbox == map[]
    ensures ListsPending(inbox, slot, [])
  {
  }

  // ----- capacity -----

  /** Every admitting call of the run is given at most `n` places. */
  ghost predicate WithinCapacity(run: Run, n: nat) {
    match run
    case Start(_) => true
    case Then(prior, e) =>
      && WithinCapacity(prior, n)
      && (e.AdmitCall? ==> e.capacity <= n) && (e.AdmitDueCall? ==> e.capacity <= n)
  }

  lemma PendingShrinks(inbox: map<string, Row>, inbox': map<string, Row>)
    requires forall id :: id in inbox' && IsPending(inbox'[id]) ==> id in inbox && IsPending(inbox[id])
    ensures |PendingIds(inbox')| <= |PendingIds(inbox)|
  {
    assert PendingIds(inbox') <= PendingIds(inbox);
    SubsetSize(PendingIds(inbox'), PendingIds(inbox));
  }

  lemma PendingJoins(inbox: map<string, Row>, id: string, r: Row)
    requires id !in inbox && IsPending(r)
    ensures |PendingIds(inbox[id := r])| == |PendingIds(inbox)| + 1
  {
    assert PendingIds(inbox[id := r]) == PendingIds(inbox) + {id};
  }

  lemma SameQueueSamePending(inbox: map<string, Row>, inbox': map<string, Row>)
    requires SameQueue(inbox, inbox')
    ensures |PendingIds(inbox')| <= |PendingIds(inbox)|
  {
    forall id | id in inbox' && IsPending(inbox'[id]) ensures id in inbox && IsPending(inbox[id]) {
      assert Waiting(inbox', id) == Waiting(inbox, id);
    }
    PendingShrinks(inbox, inbox');
  }

  lemma InsertWithin(t: Tables, prepared: Tables, c: Command, capacity: nat, clock: int)
    ensures var a := InsertCommand(t, prepared, c, capacity, clock);
            a.code.AdmittedNow? ==> |PendingIds(a.t.inbox)| <= capacity
  {
    var a := InsertCommand(t, prepared, c, capacity, clock);
    if a.code.AdmittedNow? {
      var correlation := if c.kind.CameraObservation? && c.payload.Payload? then c.payload.correlationId else "";
      PendingJoins(prepared.inbox, c.id, NewRow(c, NextOrdinal(prepared.inbox), correlation, clock));
    }
  }

  lemma AdmitWithin(t: Tables, c: Command, capacity: nat, clock: int)
    requires InboxOk(t.inbox)
    ensures var a := Admit(t, c, capacity, clock);
            if a.code.AdmittedNow? then |PendingIds(a.t.inbox)| <= capacity else a.t == t
  {
    hide InboxOk, FindIdentity, SameSourceFact, InsertCommand, FirstConfirmation, S.Evaluate, PendingIds, CanceledRow;
    AdmitKeeps(t, c, capacity, clock);
    InsertWithin(t, t, c, capacity, clock);
    FirstIsConfirmation(t.inbox, c.slot);
    var w := FirstConfirmation(t.inbox, c.slot);
    if w.Some? {
      InsertWithin(t, SetRow(t, w.value, CanceledRow(t.inbox[w.value])), c, capacity, clock);
    }
  }

  lemma {:induction false} BatchWithin(t: Tables, ids: set<string>, room: nat, ordinal: nat, clock: int)
    requires ids <= t.deadlines.Keys
    ensures |PendingIds(AdmitBatch(t, ids, room, ordinal, clock).inbox)| <= |PendingIds(t.inbox)| + room
    decreases room
  {
    hide PendingIds;
    if room != 0 && ids != {} {
      var d := Earliest(t.deadlines, ids);
      var t1 := AdmitDeadline(t, d, ordinal, clock);
      if t1.inbox != t.inbox {
        PendingJoins(t.inbox, DeadlineCommandId(d), DeadlineRow(d, t.deadlines[d], ordinal, clock));
      }
      BatchWithin(t1, ids - {d}, room - 1, ordinal + 1, clock);
    }
  }

  lemma ApplyWithin(t: Tables, id: string)
    requires Sound(t)
    ensures |PendingIds(Apply(t, id).t.inbox)| <= |PendingIds(t.inbox)|
  {
    hide Sound, Apply, FinishedRow, RejectedRow, PendingIds;
    ApplySettlesOwnRow(t, id);
    if id in t.inbox { SettledRows(t.inbox[id], Apply(t, id).out); }
    PendingShrinks(t.inbox, Apply(t, id).t.inbox);
  }

  /** Over any run the pending rows never exceed the capacity, whatever mixture of admissions and due deadlines. */
  lemma {:induction false} PendingWithinCapacity(run: Run, n: nat)
    requires Valid(run) && WithinCapacity(run, n)
    ensures |PendingIds(Final(run).inbox)| <= n
  {
    hide Sound, Apply, Admit, AdmitBatch, Listed, PendingIds, Initial;
    match run
    case Start(t) => NonePending(t);
    case Then(prior, e) =>
      var t := Final(prior);
      PendingWithinCapacity(prior, n);
      ReachableIsSound(prior);
      InboxOf(t);
      match e {
        case AdmitCall(c, capacity, clock) => AdmitWithin(t, c, capacity, clock);
        case AdmitDueCall(now, capacity, blocked, clock) =>
          if |PendingIds(t.inbox)| < capacity {
            BatchWithin(t, DueIds(t.deadlines, now, blocked), capacity - |PendingIds(t.inbox)|, NextOrdinal(t.inbox),
                        clock);
          }
        case ApplyCall(id) => ApplyWithin(t, id);
        case _ =>
          RestSameQueue(t, e);
          SameQueueSamePending(t.inbox, Final(run).inbox);
      }
  }

  lemma NonePending(t: Tables)
    requires Initial(t)
    ensures PendingIds(t.inbox) == {}
  {
  }

  // ----- settled rows -----

  /** The answer a settled row gives. */
  function Answer(inbox: map<string, Row>, id: string): Option<Code> {
    if id in inbox && IsTerminal(inbox[id]) then inbox[id].result else None
  }

  /** A settled row, if it is still there, answers as before. */
  ghost predicate AnswersKept(inbox: map<string, Row>, inbox': map<string, Row>) {
    forall id :: id in inbox && IsTerminal(inbox[id]) && id in inbox' ==>
      IsTerminal(inbox'[id]) && inbox'[id].result == inbox[id].result
  }

  lemma SetRowKeepsAnswers(inbox: map<string, Row>, id: string, r: Row)
    requires id in inbox && IsTerminal(inbox[id]) ==> IsTerminal(r) && r.result == inbox[id].result
    ensures AnswersKept(inbox, inbox[id := r])
  {
  }

  lemma InsertKeepsAnswers(t: Tables, prepared: Tables, c: Command, capacity: nat, clock: int)
    requires AnswersKept(t.inbox, prepared.inbox) && prepared.inbox.Keys == t.inbox.Keys
    ensures AnswersKept(t.inbox, InsertCommand(t, prepared, c, capacity, clock).t.inbox)
  {
  }

  lemma AdmitKeepsAnswers(t: Tables, c: Command, capacity: nat, clock: int)
    requires InboxOk(t.inbox)
    ensures AnswersKept(t.inbox, Admit(t, c, capacity, clock).t.inbox)
  {
    hide InboxOk, FindIdentity, SameSourceFact, FirstConfirmation, S.Evaluate, AnswersKept, InsertCommand, CanceledRow;
    FirstIsConfirmation(t.inbox, c.slot);
    UnmovedKeepsAnswers(t.inbox);
    InsertKeepsAnswers(t, t, c, capacity, clock);
    var w := FirstConfirmation(t.inbox, c.slot);
    if w.Some? {
      SetRowKeepsAnswers(t.inbox, w.value, CanceledRow(t.inbox[w.value]));
      InsertKeepsAnswers(t, SetRow(t, w.value, CanceledRow(t.inbox[w.value])), c, capacity, clock);
    }
  }

  lemma {:induction false} BatchKeepsAnswers(t: Tables, ids: set<string>, room: nat, ordinal: nat, clock: int)
    requires ids <= t.deadlines.Keys
    ensures forall id :: id in t.inbox ==> id in AdmitBatch(t, ids, room, ordinal, clock).inbox &&
                                           AdmitBatch(t, ids, room, ordinal, clock).inbox[id] == t.inbox[id]
    decreases room
  {
    if room != 0 && ids != {} {
      var d := Earliest(t.deadlines, ids);
      var t1 := AdmitDeadline(t, d, ordinal, clock);
      BatchKeepsAnswers(t1, ids - {d}, room - 1, ordinal + 1, clock);
    }
  }

  lemma ApplyKeepsAnswers(t: Tables, id: string)
    requires Sound(t)
    ensures AnswersKept(t.inbox, Apply(t, id).t.inbox)
  {
    hide DomainOk, ImagesOk, InboxOk, Apply, FinishedRow, RejectedRow, AnswersKept;
    ApplySettlesOwnRow(t, id);
    if id in t.inbox && IsTerminal(t.inbox[id]) {
      SettledStaysSettled(t, id);
    } else if id in t.inbox {
      SetRowKeepsAnswers(t.inbox, id, FinishedRow(t.inbox[id], Apply(t, id).out));
      SetRowKeepsAnswers(t.inbox, id, RejectedRow(t.inbox[id]));
    }
    UnmovedKeepsAnswers(t.inbox);
  }

  lemma UnmovedKeepsAnswers(inbox: map<string, Row>)
    ensures AnswersKept(inbox, inbox)
  {
  }

  lemma RestKeepsAnswers(t: Tables, e: Event)
    requires e.DeferCall? || e.CompleteCall? || e.DeferEffectCall? || e.PurgeCall? || e.ViolationCall?
    ensures AnswersKept(t.inbox, Step(t, e).inbox)
  {
    hide AnswersKept, PurgedIds;
    UnmovedKeepsAnswers(t.inbox);
    match e
    case DeferCall(id, next) =>
      if id in t.inbox { SetRowKeepsAnswers(t.inbox, id, t.inbox[id].(nextAttemptAt := next)); }
    case CompleteCall(id) =>
      if id in t.inbox {
        SetRowKeepsAnswers(t.inbox, id, t.inbox[id].(effect := EffectApplied, effectNextAttemptAt := 0));
      }
    case DeferEffectCall(id, next) =>
      if id in t.inbox { SetRowKeepsAnswers(t.inbox, id, t.inbox[id].(effectNextAttemptAt := next)); }
    case PurgeCall(before, limit) => RemovalKeepsAnswers(t.inbox, PurgedIds(t.inbox, before, limit));
    case _ =>
  }

  lemma RemovalKeepsAnswers(inbox: map<string, Row>, ids: set<string>)
    ensures AnswersKept(inbox, inbox - ids)
  {
  }

  lemma StepKeepsAnswers(t: Tables, e: Event)
    requires Sound(t)
    ensures AnswersKept(t.inbox, Step(t, e).inbox)
  {
    hide Sound, Apply, Admit, AdmitBatch, Attach, AnswersKept;
    InboxOf(t);
    UnmovedKeepsAnswers(t.inbox);
    match e
    case AdmitCall(c, capacity, clock) => AdmitKeepsAnswers(t, c, capacity, clock);
    case AdmitDueCall(now, capacity, blocked, clock) =>
      if |PendingIds(t.inbox)| < capacity {
        var ids, room, n := DueIds(t.deadlines, now, blocked), capacity - |PendingIds(t.inbox)|, NextOrdinal(t.inbox);
        BatchKeepsAnswers(t, ids, room, n, clock);
        SameRowsKeepAnswers(t.inbox, AdmitBatch(t, ids, room, n, clock).inbox);
      }
    case ApplyCall(id) => ApplyKeepsAnswers(t, id);
    case AttachCall(l, evidence, now) => AttachInbox(t, l, evidence, now);
    case _ => RestKeepsAnswers(t, e);
  }

  lemma SameRowsKeepAnswers(inbox: map<string, Row>, inbox': map<string, Row>)
    requires forall id :: id in inbox ==> id in inbox' && inbox'[id] == inbox[id]
    ensures AnswersKept(inbox, inbox')
  {
  }

  /** `run` continues `base`, and the row has been in the inbox all the while. */
  ghost predicate Retained(base: Run, run: Run, id: string) {
    run == base || (run.Then? && id in Final(run).inbox && Retained(base, run.prior, id))
  }

  /** Until retention removes it, a settled command gives its one answer and applying it changes nothing. */
  lemma {:induction false} SettledAnswerIsStable(base: Run, run: Run, id: string)
    requires Valid(run) && Retained(base, run, id)
    requires id in Final(base).inbox && IsTerminal(Final(base).inbox[id])
    ensures id in Final(run).inbox && IsTerminal(Final(run).inbox[id])
    ensures Apply(Final(run), id).t == Final(run)
    ensures Some(Apply(Final(run), id).out.code) == Final(base).inbox[id].result == Final(run).inbox[id].result
  {
    hide Sound, Apply, Step, Listed;
    if run != base {
      SettledAnswerIsStable(base, run.prior, id);
      ReachableIsSound(run.prior);
      StepKeepsAnswers(Final(run.prior), run.event);
    }
    ReachableIsSound(run);
    InboxOf(Final(run));
    SettledStaysSettled(Final(run), id);
  }

  /** A confirmation that a VACANT took back is settled as NO_CHANGE, so it never starts a session. */
  lemma CanceledConfirmationNeverStarts(base: Run, c: Command, capacity: nat, clock: int, run: Run, id: string)
    requires Valid(base) && Canceled(Final(base), c) == Some(id)
    requires c.payload.Payload? && c.payload.hallState.HallVacant?
    requires Admit(Final(base), c, capacity, clock).code.AdmittedNow?
    requires Valid(run) && Retained(Then(base, AdmitCall(c, capacity, clock)), run, id)
    ensures Apply(Final(run), id).t == Final(run) && Apply(Final(run), id).out.code == NoChange
  {
    hide Sound, Apply, Listed, Valid, Retained;
    CancelingAnswers(Final(base), c, capacity, clock);
    SettledAnswerIsStable(Then(base, AdmitCall(c, capacity, clock)), run, id);
  }

  lemma CancelingAnswers(t: Tables, c: Command, capacity: nat, clock: int)
    requires Canceled(t, c).Some? && Admit(t, c, capacity, clock).code.AdmittedNow?
    requires c.payload.Payload? && c.payload.hallState.HallVacant?
    ensures var id := Canceled(t, c).value;
            var inbox := Admit(t, c, capacity, clock).t.inbox;
            id in inbox && IsTerminal(inbox[id]) && inbox[id].result == Some(NoChange)
  {
    hide FindIdentity, SameSourceFact, S.Evaluate;
  }
}
