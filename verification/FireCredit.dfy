/**
 When a PUBACK counts: what a row's progress says about the calls that were made about it, and about nothing else.
 */
module FireCredit {
  import opened Option
  import opened FireTables
  import opened FireRun
  import opened FireDelivery

  /** The row is there and announces that revision. */
  predicate Stands(t: Tables, k: string, r: nat) {
    k != "" && 0 < r <= 0x7FFF_FFFF_FFFF_FFFF && k in t.outbox && t.outbox[k].revision == r
  }

  /** Of the calls about the row at that revision the last one marked it in flight, and there was no restart since. */
  predicate SentLast(run: seq<Event>, k: string, r: nat) {
    run != [] &&
    var before, e := run[..|run| - 1], run[|run| - 1];
    match e
    case InFlightCall(key, revision, _) =>
      SentLast(before, k, r) || (key == k && revision == r && Stands(After(EMPTY, before), k, r))
    case PendingCall(key, revision, _, _) => SentLast(before, k, r) && !(key == k && revision == r)
    case AcknowledgeCall(key, revision, _) => SentLast(before, k, r) && !(key == k && revision == r)
    case ResetCall(_) => false
    case _ => SentLast(before, k, r)
  }

  /** The last one acknowledged it while it was in flight; restarts make no difference. */
  predicate AcknowledgedLast(run: seq<Event>, k: string, r: nat) {
    run != [] &&
    var before, e := run[..|run| - 1], run[|run| - 1];
    match e
    case InFlightCall(key, revision, _) => AcknowledgedLast(before, k, r) && !(key == k && revision == r)
    case PendingCall(key, revision, _, _) => AcknowledgedLast(before, k, r) && !(key == k && revision == r)
    case AcknowledgeCall(key, revision, _) =>
      AcknowledgedLast(before, k, r) || (key == k && revision == r && SentLast(before, k, r))
    case _ => AcknowledgedLast(before, k, r)
  }

  /** How often the row was marked in flight at that revision. */
  function Sendings(run: seq<Event>, k: string, r: nat): nat {
    if run == [] then 0
    else
      var before, e := run[..|run| - 1], run[|run| - 1];
      Sendings(before, k, r) +
      if e.InFlightCall? && e.key == k && e.revision == r && Stands(After(EMPTY, before), k, r) then 1 else 0
  }

  /** New lifecycle rows have not been tried. */
  predicate Untried(e: Event) {
    e.MutateCall? && e.mutation.lifecycle.Some? ==> e.mutation.lifecycle.value.attempts == 0
  }

  predicate UntriedRun(run: seq<Event>) {
    forall i :: 0 <= i < |run| ==> Untried(run[i])
  }

  // ----- one call -----

  /** Bootstraps and mutations leave a row as it is or move it to a later revision, to be sent for the first time. */
  predicate RowRests(d: Delivery, d': Delivery) {
    d' == d || (d.revision < d'.revision && NotTried(d'))
  }

  predicate NotTried(d: Delivery) {
    d.progress.Pending? && d.attempts == 0
  }

  lemma OtherCallRests(t: Tables, e: Event)
    requires Sound(t) && Clean(e) && !IsDelivery(e)
    ensures forall k :: k in t.outbox ==> k in Step(t, e).outbox && RowRests(t.outbox[k], Step(t, e).outbox[k])
    ensures forall k :: k in Step(t, e).outbox && k !in t.outbox ==>
              Step(t, e).outbox[k].progress.Pending? && (Untried(e) ==> Step(t, e).outbox[k].attempts == 0)
  {
    hide Sound, ApplyMutation, Commits, Announce, InstallAll;
    match e
    case InitializeCall(topology) =>
      InitializeKeeps(t, topology);
      BootstrapsAreUntried(t, topology);
    case MutateCall(m) =>
      OnlyCommitsChange(t, m);
      if Commits(t, m) { CommitRests(t, m); }
  }

  lemma BootstrapsAreUntried(t: Tables, topology: seq<Bootstrap>)
    ensures forall k :: k in InitializeTopology(t, topology).t.outbox && k !in t.outbox ==>
              NotTried(InitializeTopology(t, topology).t.outbox[k])
  {
    hide InstallAll, ValidBootstrap;
    if ValidTopology(topology) && InstallAll(t, topology).Going? { InstalledAreUntried(t, topology); }
  }

  lemma {:induction false} InstalledAreUntried(t: Tables, topology: seq<Bootstrap>)
    requires InstallAll(t, topology).Going? && forall i :: 0 <= i < |topology| ==> ValidBootstrap(topology[i])
    ensures forall k :: k in InstallAll(t, topology).t.outbox && k !in t.outbox ==>
              NotTried(InstallAll(t, topology).t.outbox[k])
  {
    hide Announces, FreeState, FreeDelivery;
    if topology != [] {
      var b := topology[|topology| - 1];
      assert ValidBootstrap(b);
      InstalledAreUntried(t, topology[..|topology| - 1]);
    }
  }

  lemma CommitRests(t: Tables, m: Mutation)
    requires Sound(t) && Commits(t, m) && Clean(MutateCall(m))
    ensures var o, o' := t.outbox, ApplyMutation(t, m).t.outbox;
            && (forall k :: k in o ==> k in o' && RowRests(o[k], o'[k]))
            && (forall k :: k in o' && k !in o ==>
                  o'[k].progress.Pending? && (Untried(MutateCall(m)) ==> o'[k].attempts == 0))
  {
    hide ApplyMutation, Commits, Sound, FreeDelivery, Announce;
    CommitMovesState(t, m);
    if IsTransition(m) {
      TransitionAnnounces(t, m);
      OneRetainedRow(t, m.next.channel);
    }
  }

  // ----- over runs -----

  lemma StepAfter(run: seq<Event>)
    requires run != []
    ensures After(EMPTY, run) == Step(After(EMPTY, run[..|run| - 1]), run[|run| - 1])
  {
    hide Step;
  }

  /** No call was ever about a revision that the row had not reached. */
  lemma {:induction false} NothingAhead(run: seq<Event>, k: string, r: nat)
    requires CleanRun(run)
    ensures SentLast(run, k, r) || AcknowledgedLast(run, k, r) || Sendings(run, k, r) > 0 ==>
              k in After(EMPTY, run).outbox && r <= After(EMPTY, run).outbox[k].revision
  {
    hide Step, Sound, Clean;
    if run != [] {
      var before, e := run[..|run| - 1], run[|run| - 1];
      NothingAhead(before, k, r);
      StepAfter(run);
      hide After;
      ReachableIsSound(before);
      StepMovesRows(After(EMPTY, before), e);
    }
  }

  /** The row's progress is what the calls about its revision made of it. */
  predicate Accounted(run: seq<Event>, k: string, d: Delivery) {
    && (d.progress.InFlight? <==> SentLast(run, k, d.revision))
    && (d.progress.Acked? <==> AcknowledgedLast(run, k, d.revision))
  }

  predicate Counted(run: seq<Event>, k: string, d: Delivery) {
    d.attempts == Sendings(run, k, d.revision)
  }

  /** The call is about the row at the revision that it announces. */
  predicate About(e: Event, k: string, r: nat) {
    match e
    case InFlightCall(key, revision, _) => key == k && revision == r
    case PendingCall(key, revision, _, _) => key == k && revision == r
    case AcknowledgeCall(key, revision, _) => key == k && revision == r
    case _ => false
  }

  function ProgressAfter(e: Event, k: string, d: Delivery): Progress {
    if e.ResetCall? then (if d.progress.InFlight? then Pending else d.progress)
    else if !About(e, k, d.revision) then d.progress
    else if e.InFlightCall? then InFlight
    else if e.PendingCall? then Pending
    else if d.progress.InFlight? then Acked
    else d.progress
  }

  lemma DeliveryProgress(t: Tables, e: Event, k: string)
    requires IsDelivery(e) && k in t.outbox && Stands(t, k, t.outbox[k].revision)
    ensures k in Step(t, e).outbox
    ensures var d, d' := t.outbox[k], Step(t, e).outbox[k];
            && d'.revision == d.revision && d'.progress == ProgressAfter(e, k, d)
            && d'.attempts == d.attempts + if e.InFlightCall? && About(e, k, d.revision) then 1 else 0
  {
  }

  lemma DeliveryAccounts(run: seq<Event>, k: string)
    requires run != [] && IsDelivery(run[|run| - 1])
    requires var t := After(EMPTY, run[..|run| - 1]);
             && k in t.outbox && Stands(t, k, t.outbox[k].revision)
             && Accounted(run[..|run| - 1], k, t.outbox[k])
    ensures k in After(EMPTY, run).outbox && Accounted(run, k, After(EMPTY, run).outbox[k])
    ensures Counted(run[..|run| - 1], k, After(EMPTY, run[..|run| - 1]).outbox[k]) ==>
              Counted(run, k, After(EMPTY, run).outbox[k])
  {
    StepAfter(run);
    hide After, Step;
    DeliveryProgress(After(EMPTY, run[..|run| - 1]), run[|run| - 1], k);
  }

  lemma OtherCallAccounts(run: seq<Event>, k: string)
    requires run != [] && !IsDelivery(run[|run| - 1]) && CleanRun(run) && k in After(EMPTY, run).outbox
    requires var t := After(EMPTY, run[..|run| - 1]);
             k in t.outbox ==> Accounted(run[..|run| - 1], k, t.outbox[k])
    ensures Accounted(run, k, After(EMPTY, run).outbox[k])
    ensures Untried(run[|run| - 1]) &&
            (k in After(EMPTY, run[..|run| - 1]).outbox ==>
               Counted(run[..|run| - 1], k, After(EMPTY, run[..|run| - 1]).outbox[k])) ==>
              Counted(run, k, After(EMPTY, run).outbox[k])
  {
    var before, e := run[..|run| - 1], run[|run| - 1];
    StepAfter(run);
    hide After, Step, Sound, Clean;
    ReachableIsSound(before);
    OtherCallRests(After(EMPTY, before), e);
    NothingAhead(before, k, After(EMPTY, run).outbox[k].revision);
  }

  /** In every reachable state the outbox keys are set and the revisions within the counters' width. */
  predicate Numbered(o: map<string, Delivery>) {
    forall k :: k in o ==> k != "" && 0 < o[k].revision <= 0x7FFF_FFFF_FFFF_FFFF
  }

  lemma {:induction false} InstalledAreNumbered(t: Tables, topology: seq<Bootstrap>)
    requires Numbered(t.outbox) && forall i :: 0 <= i < |topology| ==> ValidBootstrap(topology[i])
    requires InstallAll(t, topology).Going?
    ensures Numbered(InstallAll(t, topology).t.outbox)
  {
    hide Announces, FreeState, FreeDelivery;
    if topology != [] {
      var b := topology[|topology| - 1];
      assert ValidBootstrap(b);
      InstalledAreNumbered(t, topology[..|topology| - 1]);
    }
  }

  lemma MutationNumbers(t: Tables, m: Mutation)
    requires Numbered(t.outbox)
    ensures Numbered(ApplyMutation(t, m).t.outbox)
  {
    hide CursorChanged, LoadedCursor, SameState, Retired, StoredAlike, FreeDelivery;
  }

  lemma {:induction false} ReachableIsNumbered(run: seq<Event>)
    ensures Numbered(After(EMPTY, run).outbox)
  {
    hide ApplyMutation, InstallAll, ValidBootstrap;
    if run != [] {
      var before := After(EMPTY, run[..|run| - 1]);
      ReachableIsNumbered(run[..|run| - 1]);
      match run[|run| - 1]
      case InitializeCall(topology) =>
        if ValidTopology(topology) && InstallAll(before, topology).Going? { InstalledAreNumbered(before, topology); }
      case MutateCall(m) => MutationNumbers(before, m);
      case _ =>
    }
  }

  /** The progress of every row is accounted for by the calls of the run, and by nothing else. */
  lemma {:induction false} ProgressIsAccounted(run: seq<Event>, k: string)
    requires CleanRun(run) && k in After(EMPTY, run).outbox
    ensures Accounted(run, k, After(EMPTY, run).outbox[k])
    ensures UntriedRun(run) ==> Counted(run, k, After(EMPTY, run).outbox[k])
  {
    hide Step, Sound, Accounted, Counted, Clean, Untried;
    assert run != [];
    var before, e := run[..|run| - 1], run[|run| - 1];
    if k in After(EMPTY, before).outbox { ProgressIsAccounted(before, k); }
    ReachableIsNumbered(before);
    if IsDelivery(e) {
      SameKeys(After(EMPTY, before), e);
      StepAfter(run);
      DeliveryAccounts(run, k);
    } else {
      OtherCallAccounts(run, k);
    }
  }

  lemma SameKeys(t: Tables, e: Event)
    requires IsDelivery(e)
    ensures Step(t, e).outbox.Keys == t.outbox.Keys
  {
  }

  /**
   A PUBACK counts exactly when the row stands at its revision and the last call about the row at that revision, with
   no restart since, marked it in flight.
   */
  lemma AcknowledgedExactlyWhen(run: seq<Event>, k: string, r: nat, now: string)
    requires CleanRun(run)
    ensures var t := After(EMPTY, run);
            Acknowledge(t, k, r, now).done <==> Stands(t, k, r) && SentLast(run, k, r)
  {
    hide After, SentLast, AcknowledgedLast, Sendings;
    if Stands(After(EMPTY, run), k, r) { ProgressIsAccounted(run, k); }
  }

  /** Afterwards the row is credited with that revision, every other row is as it was, and no pending list has it. */
  lemma AcknowledgedIsCredited(run: seq<Event>, k: string, r: nat, now: string, channel: Option<string>,
                               list: seq<Delivery>)
    requires CleanRun(run) && Acknowledge(After(EMPTY, run), k, r, now).done
    requires IsPendingList(Acknowledge(After(EMPTY, run), k, r, now).t, channel, list)
    ensures var t, t' := After(EMPTY, run), Acknowledge(After(EMPTY, run), k, r, now).t;
            && k in t'.outbox && t'.outbox[k].progress.Acked? && t'.outbox[k].acked == Some(r)
            && t'.outbox[k].revision == r
            && (forall j :: j in t.outbox && j != k ==> j in t'.outbox && t'.outbox[j] == t.outbox[j])
            && (forall i :: 0 <= i < |list| ==> list[i].key != k)
  {
    hide After;
  }

  /** A lifecycle row is on a pending list of its channel exactly until the last call about it acknowledged it. */
  lemma ListedExactlyWhen(run: seq<Event>, k: string, channel: Option<string>, list: seq<Delivery>)
    requires CleanRun(run) && k in After(EMPTY, run).outbox && IsPendingList(After(EMPTY, run), channel, list)
    ensures var d := After(EMPTY, run).outbox[k];
            d in list <==>
              && d.sink.LifecycleEvent? && (channel.None? || d.channel == channel.value)
              && !AcknowledgedLast(run, k, d.revision)
  {
    hide After, SentLast, AcknowledgedLast, Sendings;
    ProgressIsAccounted(run, k);
    ReachableIsSound(run);
  }

  /** The attempt counter is the number of sendings since the row announces its revision. */
  lemma AttemptsAreSendings(run: seq<Event>, k: string)
    requires CleanRun(run) && UntriedRun(run) && k in After(EMPTY, run).outbox
    ensures After(EMPTY, run).outbox[k].attempts == Sendings(run, k, After(EMPTY, run).outbox[k].revision)
  {
    hide After, SentLast, AcknowledgedLast, Sendings;
    ProgressIsAccounted(run, k);
  }
}
