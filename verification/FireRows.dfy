/** What every row of the fire store is complete in, and when a bootstrap finds everything as it left it. */
module FireRows {
  import opened Option
  import opened FireTables
  import opened FireRun

  predicate Counts(n: nat) {
    0 < n <= 0x7FFF_FFFF_FFFF_FFFF
  }

  /** A state row names what it is about, and when it changed. */
  predicate CompleteState(s: State) {
    && s.channel != "" && s.sensor != "" && s.topic != "" && s.event != "" && s.signal != "" && s.updatedAt != ""
    && Counts(s.revision)
  }

  /** An outbox row can be sent as it stands. */
  predicate CompleteDelivery(d: Delivery) {
    && d.key != "" && d.logicalKey != "" && d.sensor != "" && d.channel != "" && d.event != "" && d.alarm != ""
    && d.topic != "" && d.payload != "" && d.nextAttemptAt != "" && d.createdAt != "" && d.updatedAt != ""
    && Counts(d.revision) && d.qos == 1 && (d.retain <==> d.sink == RetainedState)
  }

  ghost predicate Complete(t: Tables) {
    && (forall c :: c in t.states ==> CompleteState(t.states[c]))
    && (forall k :: k in t.outbox ==> CompleteDelivery(t.outbox[k]))
  }

  /** The store's clock always has something to say. */
  predicate Timed(e: Event) {
    match e
    case InFlightCall(_, _, now) => now != ""
    case PendingCall(_, _, _, now) => now != ""
    case AcknowledgeCall(_, _, now) => now != ""
    case ResetCall(now) => now != ""
    case _ => true
  }

  predicate TimedRun(run: seq<Event>) {
    forall i :: 0 <= i < |run| ==> Timed(run[i])
  }

  lemma {:induction false} InstalledAreComplete(t: Tables, topology: seq<Bootstrap>)
    requires Complete(t) && InstallAll(t, topology).Going?
    requires forall i :: 0 <= i < |topology| ==> ValidBootstrap(topology[i])
    ensures Complete(InstallAll(t, topology).t)
  {
    hide Announces, FreeState, FreeDelivery;
    if topology != [] {
      assert ValidBootstrap(topology[|topology| - 1]);
      InstalledAreComplete(t, topology[..|topology| - 1]);
    }
  }

  lemma MutationIsComplete(t: Tables, m: Mutation)
    requires Complete(t) && Commits(t, m)
    ensures Complete(ApplyMutation(t, m).t)
  {
    CommitMovesState(t, m);
    hide ApplyMutation, Commits, StoredAlike, FreeDelivery;
  }

  lemma DeliveryIsComplete(t: Tables, e: Event)
    requires Complete(t) && IsDelivery(e) && Timed(e)
    ensures Complete(Step(t, e))
  {
  }

  /** In every reachable state every row is complete: nothing can be announced that lacks a field. */
  lemma {:induction false} ReachableIsComplete(run: seq<Event>)
    requires TimedRun(run)
    ensures Complete(After(EMPTY, run))
  {
    hide Complete, ApplyMutation, InstallAll, ValidBootstrap, Timed;
    if run == [] {
      NothingIsComplete();
    } else {
      var before, e := After(EMPTY, run[..|run| - 1]), run[|run| - 1];
      ReachableIsComplete(run[..|run| - 1]);
      match e
      case InitializeCall(topology) =>
        if ValidTopology(topology) && InstallAll(before, topology).Going? { InstalledAreComplete(before, topology); }
      case MutateCall(m) =>
        OnlyCommitsChange(before, m);
        if Commits(before, m) { MutationIsComplete(before, m); }
      case _ => DeliveryIsComplete(before, e);
    }
  }

  lemma NothingIsComplete()
    ensures Complete(EMPTY)
  {
  }

  // ----- a bootstrap that changes nothing -----

  /** The channel is there for that sensor and topic, and the retained row of that key announces its state. */
  predicate Known(t: Tables, b: Bootstrap) {
    var c, k := b.state.channel, b.retained.key;
    && c in t.states && t.states[c].sensor == b.state.sensor && t.states[c].topic == b.state.topic
    && k in t.outbox && t.outbox[k].acked != Some(0) && t.outbox[k].sink == RetainedState
    && t.outbox[k].logicalKey == t.states[c].topic && t.outbox[k].topic == t.states[c].topic
    && t.outbox[k].sensor == t.states[c].sensor && t.outbox[k].channel == t.states[c].channel
    && t.outbox[k].event == t.states[c].event && t.outbox[k].revision == t.states[c].revision
  }

  ghost predicate AllKnown(t: Tables, topology: seq<Bootstrap>) {
    forall i :: 0 <= i < |topology| ==> Known(t, topology[i])
  }

  lemma {:induction false} InstallsNothingExactlyWhen(t: Tables, topology: seq<Bootstrap>)
    ensures InstallAll(t, topology).Going? && !InstallAll(t, topology).inserted <==> AllKnown(t, topology)
    ensures AllKnown(t, topology) ==> InstallAll(t, topology).t == t
  {
    if topology != [] {
      var init, b := topology[..|topology| - 1], topology[|topology| - 1];
      InstallsNothingExactlyWhen(t, init);
      assert AllKnown(t, topology) <==> AllKnown(t, init) && Known(t, b);
      hide FreeState, FreeDelivery, AllKnown;
    }
  }

  /**
   A bootstrap of a valid topology is idempotent exactly when it is the topology of the store: all its channels are
   there, announced as they stand, and there are no others.
   */
  lemma IdempotentExactlyWhen(t: Tables, topology: seq<Bootstrap>)
    requires ValidTopology(topology)
    ensures InitializeTopology(t, topology).outcome == Idempotent <==>
              && AllKnown(t, topology) && |t.states| == |topology|
              && |set k | k in t.outbox && t.outbox[k].sink == RetainedState| == |topology|
  {
    hide InstallAll, ValidTopology, AllKnown;
    InstallsNothingExactlyWhen(t, topology);
    assert RetainedKeys(t.outbox) == set k | k in t.outbox && t.outbox[k].sink == RetainedState;
    hide RetainedKeys;
    NothingBetween(t, topology);
  }

  lemma NothingBetween(t: Tables, topology: seq<Bootstrap>)
    ensures InitializeTopology(t, topology).outcome == Idempotent ==>
              InstallAll(t, topology).Going? && !InstallAll(t, topology).inserted
  {
    hide ValidTopology;
    if InstallAll(t, topology).Stopped? { StopsAreErrors(t, topology); }
    hide InstallAll;
  }

  lemma {:induction false} StopsAreErrors(t: Tables, topology: seq<Bootstrap>)
    requires InstallAll(t, topology).Stopped?
    ensures InstallAll(t, topology).outcome == Conflict || InstallAll(t, topology).outcome == Failed
  {
    hide Announces, FreeState, FreeDelivery;
    if topology != [] && InstallAll(t, topology[..|topology| - 1]).Stopped? {
      StopsAreErrors(t, topology[..|topology| - 1]);
    }
  }
}
