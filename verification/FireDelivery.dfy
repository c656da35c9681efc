/**
 What the outbox promises over whole runs: no outcome but a commit changes anything, a mutation may be sent twice,
 a PUBACK credits only the revision it was sent for, and nothing unacknowledged is forgotten.
 */
module FireDelivery {
  import opened Option
  import opened FireTables
  import opened FireRun

  // ----- outcomes that change nothing -----

  lemma {:induction false} NothingInserted(t: Tables, topology: seq<Bootstrap>)
    ensures InstallAll(t, topology).Going? && !InstallAll(t, topology).inserted ==> InstallAll(t, topology).t == t
  {
    if topology != [] { NothingInserted(t, topology[..|topology| - 1]); }
  }

  /** Of the five outcomes of a bootstrap only a commit changes a table. */
  lemma OnlyCommittedBootstrapChanges(t: Tables, topology: seq<Bootstrap>)
    ensures var r := InitializeTopology(t, topology); !r.outcome.Committed? ==> r.t == t
  {
    hide ValidTopology;
    NothingInserted(t, topology);
  }

  // ----- sending a mutation twice -----

  /** The row a transition writes is, in everything sent, the delivery it was given. */
  lemma RefreshedIsSame(d: Delivery, r: Delivery)
    requires ValidDelivery(r) && d.key == r.key && d.sink == r.sink == RetainedState && d.logicalKey == r.logicalKey
    ensures SameDelivery(Refreshed(d, r), r) && Readable(Refreshed(d, r)) == Readable(d)
  {
  }

  lemma CommitStores(t: Tables, m: Mutation)
    requires Sound(t) && Commits(t, m)
    ensures IsTransition(m) ==>
              && var o := ApplyMutation(t, m).t.outbox;
              && StoredAlike(o, m.retained.value)
              && m.lifecycle.value.key in o && o[m.lifecycle.value.key] == m.lifecycle.value
  {
    hide ApplyMutation, Commits, Sound, FreeDelivery;
    CommitMovesState(t, m);
    if IsTransition(m) {
      TransitionAnnounces(t, m);
      var r := m.retained.value;
      RowKey(t, r.key);
      RefreshedIsSame(t.outbox[r.key], r);
    }
  }

  lemma RowKey(t: Tables, k: string)
    requires Sound(t) && k in t.outbox
    ensures t.outbox[k].key == k
  {
  }

  /** The call commits no mutation of the channel; deliveries, bootstraps and other channels' commits all qualify. */
  predicate LeavesChannel(t: Tables, e: Event, c: string) {
    !(e.MutateCall? && e.mutation.next.channel == c && Commits(t, e.mutation))
  }

  predicate LeaveChannel(t: Tables, later: seq<Event>, c: string) {
    later != [] ==>
      var before := later[..|later| - 1];
      LeaveChannel(t, before, c) && LeavesChannel(After(t, before), later[|later| - 1], c)
  }

  predicate Acknowledged(t: Tables, e: Event, k: string) {
    e.AcknowledgeCall? && e.key == k && Acknowledge(t, k, e.revision, e.now).done
  }

  /** The row was acknowledged, at whatever revision, by one of the later calls. */
  predicate AcknowledgedSince(t: Tables, later: seq<Event>, k: string) {
    later != [] &&
    var before := later[..|later| - 1];
    AcknowledgedSince(t, before, k) || Acknowledged(After(t, before), later[|later| - 1], k)
  }

  /** The row announces the same thing, and can be read if it could be before or was acknowledged. */
  predicate RowStands(o: map<string, Delivery>, o': map<string, Delivery>, k: string, acknowledged: bool)
    requires k in o
  {
    && k in o' && SameDelivery(o[k], o'[k])
    && (Readable(o'[k]) <==> Readable(o[k]) || acknowledged)
  }

  lemma DeliveryLeavesRow(t: Tables, e: Event, k: string)
    requires IsDelivery(e) && k in t.outbox
    ensures RowStands(t.outbox, Step(t, e).outbox, k, Acknowledged(t, e, k))
  {
  }

  lemma CommitLeavesRow(t: Tables, m: Mutation, k: string)
    requires Sound(t) && Commits(t, m) && k in t.outbox && t.outbox[k].channel != m.next.channel
    ensures k in ApplyMutation(t, m).t.outbox && ApplyMutation(t, m).t.outbox[k] == t.outbox[k]
  {
    hide ApplyMutation, Commits, Sound, FreeDelivery;
    CommitMovesState(t, m);
    if IsTransition(m) { TransitionAnnounces(t, m); }
  }

  /** A call that leaves a channel leaves its state row, and its outbox rows but for how far the sending got. */
  lemma StepLeavesChannel(t: Tables, e: Event, c: string, k: string)
    requires Sound(t) && LeavesChannel(t, e, c)
    ensures c in t.states ==> c in Step(t, e).states && Step(t, e).states[c] == t.states[c]
    ensures k in t.outbox && t.outbox[k].channel == c ==>
              RowStands(t.outbox, Step(t, e).outbox, k, Acknowledged(t, e, k))
  {
    hide Sound, InitializeTopology, ApplyMutation, Commits;
    match e {
      case InitializeCall(topology) => InitializeKeeps(t, topology);
      case MutateCall(m) =>
        OnlyCommitsChange(t, m);
        if Commits(t, m) {
          CommitMovesState(t, m);
          if k in t.outbox && t.outbox[k].channel == c { CommitLeavesRow(t, m, k); }
        }
      case _ =>
        DeliveryKeepsIntents(t, e);
        if k in t.outbox { DeliveryLeavesRow(t, e, k); }
    }
  }

  lemma StandsTwice(a: map<string, Delivery>, b: map<string, Delivery>, c: map<string, Delivery>, k: string, p: bool,
                    q: bool)
    requires k in a && RowStands(a, b, k, p) && RowStands(b, c, k, q)
    ensures RowStands(a, c, k, p || q)
  {
  }

  /**
   Calls that leave a channel keep it so, whatever else they do; a row becomes readable only by an acknowledgement.
   */
  lemma {:induction false} ChannelStands(t: Tables, later: seq<Event>, c: string, k: string)
    requires Sound(t) && LeaveChannel(t, later, c)
    ensures Sound(After(t, later))
    ensures c in t.states ==> c in After(t, later).states && After(t, later).states[c] == t.states[c]
    ensures k in t.outbox && t.outbox[k].channel == c ==>
              RowStands(t.outbox, After(t, later).outbox, k, AcknowledgedSince(t, later, k))
  {
    hide Sound, Step, LeavesChannel, Acknowledged, Readable, SameDelivery;
    if later == [] {
      RowIsItself(t.outbox, k);
    } else {
      var before, e := later[..|later| - 1], later[|later| - 1];
      ChannelStands(t, before, c, k);
      StepKeeps(After(t, before), e);
      StepLeavesChannel(After(t, before), e, c, k);
      if k in t.outbox && t.outbox[k].channel == c {
        RowIsOfChannel(t.outbox, After(t, before).outbox, k, AcknowledgedSince(t, before, k));
        StandsTwice(t.outbox, After(t, before).outbox, After(t, later).outbox, k,
                    AcknowledgedSince(t, before, k), Acknowledged(After(t, before), e, k));
      }
    }
  }

  /**
   As long as a row's channel is left alone, the row can be read exactly when it could be or has been acknowledged.
   */
  lemma ReadableExactlyWhen(t: Tables, later: seq<Event>, k: string)
    requires Sound(t) && k in t.outbox && LeaveChannel(t, later, t.outbox[k].channel)
    ensures k in After(t, later).outbox
    ensures Readable(After(t, later).outbox[k]) <==> Readable(t.outbox[k]) || AcknowledgedSince(t, later, k)
  {
    hide Sound, After, LeaveChannel, AcknowledgedSince, Readable;
    ChannelStands(t, later, t.outbox[k].channel, k);
  }

  lemma RowIsItself(o: map<string, Delivery>, k: string)
    ensures k in o ==> RowStands(o, o, k, false)
  {
  }

  lemma RowIsOfChannel(o: map<string, Delivery>, o': map<string, Delivery>, k: string, acknowledged: bool)
    requires k in o && RowStands(o, o', k, acknowledged)
    ensures k in o' && o'[k].channel == o[k].channel
  {
  }

  /** The lifecycle row that a mutation brings could be read at once, or has been acknowledged by a later call. */
  predicate CanBeReadBack(t: Tables, m: Mutation, later: seq<Event>) {
    IsTransition(m) ==>
      Readable(m.lifecycle.value) || AcknowledgedSince(ApplyMutation(t, m).t, later, m.lifecycle.value.key)
  }

  lemma StoredStands(o: map<string, Delivery>, o': map<string, Delivery>, d: Delivery, acknowledged: bool)
    requires d.key in o && SameDelivery(o[d.key], d) && RowStands(o, o', d.key, acknowledged)
    ensures StoredAlike(o', d) <==> Readable(o[d.key]) || acknowledged
  {
  }

  /** What is left of a committed mutation's rows after the later calls. */
  lemma RowsAfter(t: Tables, m: Mutation, later: seq<Event>)
    requires Sound(t) && Commits(t, m) && LeaveChannel(ApplyMutation(t, m).t, later, m.next.channel)
    ensures var t' := After(ApplyMutation(t, m).t, later);
            && ValidMutation(m) && m.next.channel in t'.states && t'.states[m.next.channel] == m.next
            && (IsTransition(m) ==>
                  && StoredAlike(t'.outbox, m.retained.value)
                  && (StoredAlike(t'.outbox, m.lifecycle.value) <==> CanBeReadBack(t, m, later)))
  {
    var u, c := ApplyMutation(t, m).t, m.next.channel;
    var t' := After(u, later);
    MutationChannels(t, m);
    hide ApplyMutation, Commits, Sound, Readable, AcknowledgedSince, LeaveChannel, ValidMutation, After, RowStands;
    CommitMovesState(t, m);
    MutationKeeps(t, m);
    CommitStores(t, m);
    ChannelStands(u, later, c, "");
    if IsTransition(m) {
      var r, l := m.retained.value, m.lifecycle.value;
      ChannelStands(u, later, c, r.key);
      ChannelStands(u, later, c, l.key);
      StoredStands(u.outbox, t'.outbox, r, AcknowledgedSince(u, later, r.key));
      StoredStands(u.outbox, t'.outbox, l, AcknowledgedSince(u, later, l.key));
    }
  }

  lemma MutationChannels(t: Tables, m: Mutation)
    requires Commits(t, m)
    ensures IsTransition(m) ==>
              m.retained.value.channel == m.next.channel && m.lifecycle.value.channel == m.next.channel
  {
    hide ApplyMutation, Commits;
    CommitMovesState(t, m);
  }

  /**
   A committed mutation sent again before another one of its channel commits changes nothing, whatever else happened:
   deliveries, acknowledgements, restarts, bootstraps, commits of other channels. It is found idempotent exactly when
   the lifecycle row it brought could be read at once or has been acknowledged since; otherwise it fails.
   */
  lemma ResubmissionExactly(t: Tables, m: Mutation, later: seq<Event>)
    requires Sound(t) && Commits(t, m) && LeaveChannel(ApplyMutation(t, m).t, later, m.next.channel)
    ensures var t' := After(ApplyMutation(t, m).t, later);
            ApplyMutation(t', m) ==
            if CanBeReadBack(t, m, later) then Result(t', Idempotent, m.next.revision)
              else Result(t', Failed, m.expected)
  {
    var t' := After(ApplyMutation(t, m).t, later);
    assert ValidMutation(m) && m.next.channel in t'.states && t'.states[m.next.channel] == m.next
           && (IsTransition(m) ==> StoredAlike(t'.outbox, m.retained.value) &&
                                   (StoredAlike(t'.outbox, m.lifecycle.value) <==> CanBeReadBack(t, m, later)))
           && (!IsTransition(m) ==> CanBeReadBack(t, m, later)) by {
      hide ApplyMutation, Commits, Sound, StoredAlike, ValidMutation, After, LeaveChannel;
      RowsAfter(t, m, later);
    }
    hide StoredAlike, CanBeReadBack, CursorChanged, Announce, ValidMutation, Sound, Commits, After, LeaveChannel;
  }

  /** In particular a readable lifecycle row, the only kind the fire service builds, makes it idempotent. */
  lemma ResubmissionIsIdempotent(t: Tables, m: Mutation, later: seq<Event>)
    requires Sound(t) && Commits(t, m) && LeaveChannel(ApplyMutation(t, m).t, later, m.next.channel)
    requires IsTransition(m) ==> Readable(m.lifecycle.value)
    ensures var t' := After(ApplyMutation(t, m).t, later);
            ApplyMutation(t', m) == Result(t', Idempotent, m.next.revision)
  {
    hide ApplyMutation, Sound, Commits, After, Readable, LeaveChannel;
    ResubmissionExactly(t, m, later);
  }

  // ----- acknowledgements -----

  /** New lifecycle rows start undelivered. */
  predicate Clean(e: Event) {
    e.MutateCall? && e.mutation.lifecycle.Some? ==>
      e.mutation.lifecycle.value.progress.Pending? && e.mutation.lifecycle.value.acked.None?
  }

  predicate CleanRun(run: seq<Event>) {
    forall i :: 0 <= i < |run| ==> Clean(run[i])
  }

  predicate CreditOk(d: Delivery) {
    && (d.acked.Some? ==> 0 < d.acked.value <= d.revision)
    && (d.progress.Acked? ==> d.acked == Some(d.revision))
  }

  ghost predicate CreditsOk(outbox: map<string, Delivery>) {
    forall k :: k in outbox ==> CreditOk(outbox[k])
  }

  /** Whether the call acknowledged the row at that revision. */
  predicate Acknowledges(t: Tables, e: Event, k: string, r: nat) {
    e.AcknowledgeCall? && e.key == k && e.revision == r && Acknowledge(t, k, r, e.now).done
  }

  predicate Sends(t: Tables, e: Event, k: string, r: nat) {
    e.InFlightCall? && e.key == k && e.revision == r && MarkInFlight(t, k, r, e.now).done
  }

  predicate AcknowledgedAt(run: seq<Event>, k: string, r: nat) {
    run != [] &&
    (AcknowledgedAt(run[..|run| - 1], k, r) || Acknowledges(After(EMPTY, run[..|run| - 1]), run[|run| - 1], k, r))
  }

  predicate SentAt(run: seq<Event>, k: string, r: nat) {
    run != [] && (SentAt(run[..|run| - 1], k, r) || Sends(After(EMPTY, run[..|run| - 1]), run[|run| - 1], k, r))
  }

  /** What one step does to a row that was there before. */
  predicate RowMoves(d: Delivery, d': Delivery, acknowledged: bool, sent: bool) {
    && d.revision <= d'.revision
    && (if acknowledged then d'.acked == Some(d.revision) && d.progress.InFlight? else d'.acked == d.acked)
    && (d'.progress.InFlight? ==> d'.revision == d.revision && (sent || d.progress.InFlight?))
    && (d'.progress.Acked? ==> d'.revision == d.revision && (acknowledged || d.progress.Acked?))
  }

  lemma TransitionMovesRows(t: Tables, m: Mutation)
    requires Sound(t) && Commits(t, m)
    ensures forall k :: k in t.outbox ==>
              k in ApplyMutation(t, m).t.outbox && RowMoves(t.outbox[k], ApplyMutation(t, m).t.outbox[k], false, false)
    ensures forall k :: k in ApplyMutation(t, m).t.outbox && k !in t.outbox ==>
              m.lifecycle.Some? && ApplyMutation(t, m).t.outbox[k] == m.lifecycle.value
  {
    hide ApplyMutation, Commits, Sound, FreeDelivery;
    CommitMovesState(t, m);
    if IsTransition(m) {
      TransitionAnnounces(t, m);
      OneRetainedRow(t, m.next.channel);
    }
  }

  lemma DeliveryMovesRow(t: Tables, e: Event, k: string)
    requires IsDelivery(e) && k in t.outbox
    ensures k in Step(t, e).outbox
    ensures RowMoves(t.outbox[k], Step(t, e).outbox[k],
                     Acknowledges(t, e, k, t.outbox[k].revision), Sends(t, e, k, t.outbox[k].revision))
  {
  }

  /** Every call moves the old rows so, and adds only rows that nobody has acknowledged or sent. */
  lemma StepMovesRows(t: Tables, e: Event)
    requires Sound(t) && Clean(e)
    ensures forall k :: k in t.outbox ==>
              k in Step(t, e).outbox &&
              RowMoves(t.outbox[k], Step(t, e).outbox[k],
                       Acknowledges(t, e, k, t.outbox[k].revision), Sends(t, e, k, t.outbox[k].revision))
    ensures forall k :: k in Step(t, e).outbox && k !in t.outbox ==>
              Step(t, e).outbox[k].progress.Pending? && Step(t, e).outbox[k].acked.None?
  {
    hide Sound, InitializeTopology, ApplyMutation, Commits, Acknowledges, Sends;
    match e {
      case InitializeCall(topology) =>
        InitializeKeeps(t, topology);
        NoAcknowledgement(t, e);
      case MutateCall(m) =>
        NoAcknowledgement(t, e);
        OnlyCommitsChange(t, m);
        if Commits(t, m) { TransitionMovesRows(t, m); }
      case _ =>
        DeliveryKeepsIntents(t, e);
        forall k | k in t.outbox
          ensures k in Step(t, e).outbox &&
                  RowMoves(t.outbox[k], Step(t, e).outbox[k],
                           Acknowledges(t, e, k, t.outbox[k].revision), Sends(t, e, k, t.outbox[k].revision))
        {
          DeliveryMovesRow(t, e, k);
        }
    }
  }

  lemma NoAcknowledgement(t: Tables, e: Event)
    requires !IsDelivery(e)
    ensures forall k, r :: !Acknowledges(t, e, k, r) && !Sends(t, e, k, r)
  {
  }

  lemma {:induction false} CreditsReachable(run: seq<Event>)
    requires CleanRun(run)
    ensures CreditsOk(After(EMPTY, run).outbox)
  {
    hide Step, Sound, Acknowledges, Sends, Clean;
    if run != [] {
      var before, e := run[..|run| - 1], run[|run| - 1];
      CreditsReachable(before);
      ReachableIsSound(before);
      StepMovesRows(After(EMPTY, before), e);
      RowsPositive(before);
    }
  }

  lemma RowsPositive(run: seq<Event>)
    ensures forall k :: k in After(EMPTY, run).outbox ==> After(EMPTY, run).outbox[k].revision > 0
  {
    hide After;
    ReachableIsSound(run);
  }

  /** Along a clean run a row's acknowledged revision never goes back, nor does its revision. */
  lemma CreditNeverDecreases(run: seq<Event>, e: Event, k: string)
    requires CleanRun(run) && Clean(e) && k in After(EMPTY, run).outbox
    ensures var t := After(EMPTY, run);
            && k in Step(t, e).outbox
            && t.outbox[k].revision <= Step(t, e).outbox[k].revision
            && (t.outbox[k].acked.Some? ==>
                  && Step(t, e).outbox[k].acked.Some?
                  && t.outbox[k].acked.value <= Step(t, e).outbox[k].acked.value)
  {
    hide Step, Sound, Acknowledges, Sends, Clean, After;
    CreditsReachable(run);
    ReachableIsSound(run);
    StepMovesRows(After(EMPTY, run), e);
  }

  /** The progress of a row is accounted for by the calls of the run. */
  predicate Earned(run: seq<Event>, k: string, d: Delivery) {
    && (d.acked.Some? ==> AcknowledgedAt(run, k, d.acked.value) && SentAt(run, k, d.acked.value))
    && (d.progress.InFlight? ==> SentAt(run, k, d.revision))
  }

  lemma EarnedStep(run: seq<Event>, k: string)
    requires run != []
    requires var t, e := After(EMPTY, run[..|run| - 1]), run[|run| - 1];
             && k in t.outbox && k in After(EMPTY, run).outbox
             && RowMoves(t.outbox[k], After(EMPTY, run).outbox[k],
                         Acknowledges(t, e, k, t.outbox[k].revision), Sends(t, e, k, t.outbox[k].revision))
             && Earned(run[..|run| - 1], k, t.outbox[k])
    ensures Earned(run, k, After(EMPTY, run).outbox[k])
  {
    hide After, Acknowledges, Sends;
  }

  /**
   A PUBACK never credits another revision: an acknowledged revision was sent and then acknowledged at exactly
   that revision, and a row is acknowledged only at the revision that it announces.
   */
  lemma {:induction false} CreditIsEarned(run: seq<Event>, k: string)
    requires CleanRun(run) && k in After(EMPTY, run).outbox
    ensures Earned(run, k, After(EMPTY, run).outbox[k]) && CreditOk(After(EMPTY, run).outbox[k])
  {
    hide Step, Sound, Acknowledges, Sends, Clean, Earned, RowMoves;
    CreditsReachable(run);
    hide CreditOk;
    if run != [] {
      var before, e := run[..|run| - 1], run[|run| - 1];
      ReachableIsSound(before);
      StepMovesRows(After(EMPTY, before), e);
      if k in After(EMPTY, before).outbox {
        CreditIsEarned(before, k);
        EarnedStep(run, k);
      } else {
        NewIsEarned(run, k, After(EMPTY, run).outbox[k]);
      }
    }
  }

  lemma NewIsEarned(run: seq<Event>, k: string, d: Delivery)
    requires d.progress.Pending? && d.acked.None?
    ensures Earned(run, k, d)
  {
  }

  /** A lifecycle row whose revision was never acknowledged is on every pending list that covers its channel. */
  lemma UnacknowledgedStaysListed(run: seq<Event>, k: string, channel: Option<string>, list: seq<Delivery>)
    requires CleanRun(run) && k in After(EMPTY, run).outbox
    requires IsPendingList(After(EMPTY, run), channel, list)
    requires var d := After(EMPTY, run).outbox[k];
             d.sink.LifecycleEvent? && (channel.Some? ==> d.channel == channel.value) &&
               !AcknowledgedAt(run, k, d.revision)
    ensures After(EMPTY, run).outbox[k] in list
  {
    hide After, AcknowledgedAt, SentAt;
    CreditIsEarned(run, k);
  }

  /** The pending list of one channel is in strictly rising revision order. */
  lemma PendingListRises(run: seq<Event>, channel: string, list: seq<Delivery>)
    requires IsPendingList(After(EMPTY, run), Some(channel), list)
    ensures forall i, j :: 0 <= i < j < |list| ==> list[i].revision < list[j].revision
  {
    hide After;
    ReachableIsSound(run);
    forall i, j | 0 <= i < j < |list| ensures list[i].revision < list[j].revision {
      assert Precedes(list[i], list[j]);
      PrecedesIsStrict(list[i], list[j]);
      PrecedesIsStrict(list[i], list[i]);
    }
  }
}
