/**
 Whole runs of the fire store, from empty tables through any interleaving of bootstraps, mutations,
 deliveries, acknowledgements and restarts.
 */
module FireRun {
  import opened Option
  import opened FireTables

  datatype Event =
    | InitializeCall(topology: seq<Bootstrap>)
    | MutateCall(mutation: Mutation)
    | InFlightCall(key: string, revision: nat, now: string)
    | PendingCall(key: string, revision: nat, error: string, now: string)
    | AcknowledgeCall(key: string, revision: nat, now: string)
    | ResetCall(now: string)

  function Step(t: Tables, e: Event): Tables {
    match e
    case InitializeCall(topology) => InitializeTopology(t, topology).t
    case MutateCall(m) => ApplyMutation(t, m).t
    case InFlightCall(key, revision, now) => MarkInFlight(t, key, revision, now).t
    case PendingCall(key, revision, error, now) => MarkPending(t, key, revision, error, now).t
    case AcknowledgeCall(key, revision, now) => Acknowledge(t, key, revision, now).t
    case ResetCall(now) => ResetInFlight(t, now)
  }

  const EMPTY := Tables(map[], map[], {})

  /** The tables after a list of calls. */
  function After(t: Tables, run: seq<Event>): Tables {
    if run == [] then t else Step(After(t, run[..|run| - 1]), run[|run| - 1])
  }

  predicate IsDelivery(e: Event) {
    !e.InitializeCall? && !e.MutateCall?
  }

  // ----- the invariant of the tables -----

  ghost predicate StatesOk(states: map<string, State>) {
    && (forall c :: c in states ==> states[c].channel == c && 0 < states[c].revision)
    && (forall c, d | c in states && d in states ::
          c != d ==> states[c].sensor != states[d].sensor && states[c].topic != states[d].topic)
  }

  ghost predicate KeysUnique(outbox: map<string, Delivery>) {
    && (forall k :: k in outbox ==> outbox[k].key == k && 0 < outbox[k].revision)
    && (forall j, k | j in outbox && k in outbox ::
          outbox[j].sink == outbox[k].sink && outbox[j].logicalKey == outbox[k].logicalKey ==> j == k)
  }

  predicate IsRetained(outbox: map<string, Delivery>, k: string, channel: string) {
    k in outbox && outbox[k].sink.RetainedState? && outbox[k].channel == channel
  }

  predicate IsLifecycle(outbox: map<string, Delivery>, k: string, channel: string) {
    k in outbox && outbox[k].sink.LifecycleEvent? && outbox[k].channel == channel
  }

  ghost predicate RowsFit(states: map<string, State>, outbox: map<string, Delivery>) {
    forall k :: k in outbox ==> RowFits(states, outbox[k])
  }

  /** A retained row carries its channel's revision; a lifecycle row carries one no later. */
  predicate RowFits(states: map<string, State>, d: Delivery) {
    && d.channel in states
    && (d.sink.RetainedState? ==> d.logicalKey == states[d.channel].topic && d.revision == states[d.channel].revision)
    && (d.sink.LifecycleEvent? ==> d.revision <= states[d.channel].revision)
  }

  ghost predicate RetainedExist(states: map<string, State>, outbox: map<string, Delivery>) {
    forall c :: c in states ==> exists k :: IsRetained(outbox, k, c)
  }

  ghost predicate OnePerRevision(outbox: map<string, Delivery>) {
    forall j, k | j in outbox && k in outbox && outbox[j].sink.LifecycleEvent? && outbox[k].sink.LifecycleEvent? ::
      outbox[j].channel == outbox[k].channel && outbox[j].revision == outbox[k].revision ==> j == k
  }

  ghost predicate RetiredRefer(retired: set<Boot>, states: map<string, State>) {
    forall b :: b in retired ==> exists c :: c in states && states[c].sensor == b.sensor
  }

  ghost predicate Sound(t: Tables) {
    && StatesOk(t.states) && KeysUnique(t.outbox) && RowsFit(t.states, t.outbox)
    && RetainedExist(t.states, t.outbox) && OnePerRevision(t.outbox) && RetiredRefer(t.retired, t.states)
  }

  // ----- deliveries change progress only -----

  /** The rows announce the same things; only how far the sending got may differ. */
  ghost predicate SameIntents(a: map<string, Delivery>, b: map<string, Delivery>) {
    a.Keys == b.Keys && forall k :: k in a ==> SameDelivery(a[k], b[k])
  }

  lemma DeliveryKeepsIntents(t: Tables, e: Event)
    requires IsDelivery(e)
    ensures var t' := Step(t, e);
            t'.states == t.states && t'.retired == t.retired && SameIntents(t.outbox, t'.outbox)
  {
  }

  lemma IntentsAreEnough(t: Tables, t': Tables)
    requires Sound(t) && t'.states == t.states && t'.retired == t.retired && SameIntents(t.outbox, t'.outbox)
    ensures Sound(t')
  {
    hide KeysUnique, OnePerRevision, StatesOk, RetiredRefer, RowsFit, RetainedExist, SameIntents;
    IntentsKeepUnique(t.outbox, t'.outbox);
    IntentsFit(t.states, t.outbox, t'.outbox);
    IntentsRetained(t.states, t.outbox, t'.outbox);
  }

  lemma IntentsFit(states: map<string, State>, a: map<string, Delivery>, b: map<string, Delivery>)
    requires RowsFit(states, a) && SameIntents(a, b)
    ensures RowsFit(states, b)
  {
    forall k | k in b ensures RowFits(states, b[k]) {
      assert SameDelivery(a[k], b[k]);
    }
  }

  lemma IntentsRetained(states: map<string, State>, a: map<string, Delivery>, b: map<string, Delivery>)
    requires RetainedExist(states, a) && SameIntents(a, b)
    ensures RetainedExist(states, b)
  {
    forall c | c in states ensures exists k :: IsRetained(b, k, c) {
      var k :| IsRetained(a, k, c);
      assert IsRetained(b, k, c);
    }
  }

  lemma IntentsKeepUnique(a: map<string, Delivery>, b: map<string, Delivery>)
    requires KeysUnique(a) && OnePerRevision(a) && SameIntents(a, b)
    ensures KeysUnique(b) && OnePerRevision(b)
  {
  }

  // ----- bootstrap -----

  function Inserted(t: Tables, b: Bootstrap): Tables {
    t.(states := t.states[b.state.channel := b.state], outbox := t.outbox[b.retained.key := b.retained])
  }

  predicate Insertable(t: Tables, b: Bootstrap) {
    ValidBootstrap(b) && FreeState(t.states, b.state) && FreeDelivery(t.outbox, b.retained)
  }

  lemma InsertKeepsStates(t: Tables, b: Bootstrap)
    requires Insertable(t, b) && StatesOk(t.states) && RetiredRefer(t.retired, t.states)
    ensures StatesOk(Inserted(t, b).states) && RetiredRefer(t.retired, Inserted(t, b).states)
  {
    var t' := Inserted(t, b);
    forall r | r in t.retired ensures exists c :: c in t'.states && t'.states[c].sensor == r.sensor {
      var c :| c in t.states && t.states[c].sensor == r.sensor;
      assert c in t'.states && t'.states[c].sensor == r.sensor;
    }
  }

  lemma InsertKeepsKeys(t: Tables, b: Bootstrap)
    requires Insertable(t, b) && KeysUnique(t.outbox) && OnePerRevision(t.outbox)
    ensures KeysUnique(Inserted(t, b).outbox) && OnePerRevision(Inserted(t, b).outbox)
  {
  }

  lemma InsertKeepsFit(t: Tables, b: Bootstrap)
    requires Insertable(t, b) && RowsFit(t.states, t.outbox)
    ensures RowsFit(Inserted(t, b).states, Inserted(t, b).outbox)
  {
  }

  lemma InsertKeepsRetained(t: Tables, b: Bootstrap)
    requires Insertable(t, b) && RetainedExist(t.states, t.outbox)
    ensures RetainedExist(Inserted(t, b).states, Inserted(t, b).outbox)
  {
    var t' := Inserted(t, b);
    forall c | c in t'.states ensures exists k :: IsRetained(t'.outbox, k, c) {
      if c == b.state.channel {
        assert IsRetained(t'.outbox, b.retained.key, c);
      } else {
        var k :| IsRetained(t.outbox, k, c);
        assert IsRetained(t'.outbox, k, c);
      }
    }
  }

  lemma InstallOneKeeps(t: Tables, inserted: bool, highest: nat, b: Bootstrap)
    requires Sound(t) && ValidBootstrap(b) && InstallOne(t, inserted, highest, b).Going?
    ensures Sound(InstallOne(t, inserted, highest, b).t)
  {
    hide ValidBootstrap, FreeState, FreeDelivery, Announces;
    hide StatesOk, KeysUnique, RowsFit, RetainedExist, OnePerRevision, RetiredRefer;
    if b.state.channel !in t.states {
      InsertKeepsStates(t, b);
      InsertKeepsKeys(t, b);
      InsertKeepsFit(t, b);
      InsertKeepsRetained(t, b);
    }
  }

  /** What a bootstrap may change: new channels, each with the one row it brings. */
  ghost predicate OnlyAdds(t: Tables, t': Tables) {
    && t'.retired == t.retired
    && (forall c :: c in t.states ==> c in t'.states && t'.states[c] == t.states[c])
    && (forall k :: k in t.outbox ==> k in t'.outbox && t'.outbox[k] == t.outbox[k])
    && (forall k :: k in t'.outbox && k !in t.outbox ==>
          t'.outbox[k].sink.RetainedState? && t'.outbox[k].acked.None? && t'.outbox[k].progress.Pending?)
    && (forall c :: c in t'.states && c !in t.states ==> Untouched(t'.states[c]))
  }

  predicate Untouched(s: State) {
    s.mode.Unseen? && s.boot.None? && s.sequence.None?
  }

  lemma {:induction false} InstallAllKeeps(t: Tables, topology: seq<Bootstrap>)
    requires Sound(t) && (forall i :: 0 <= i < |topology| ==> ValidBootstrap(topology[i]))
    requires InstallAll(t, topology).Going?
    ensures Sound(InstallAll(t, topology).t) && OnlyAdds(t, InstallAll(t, topology).t)
  {
    hide Sound, ValidBootstrap;
    if topology != [] {
      var init, b := topology[..|topology| - 1], topology[|topology| - 1];
      InstallAllKeeps(t, init);
      var g := InstallAll(t, init);
      InstallOneKeeps(g.t, g.inserted, g.highest, b);
      InstallOneAdds(g.t, g.inserted, g.highest, b);
      AddsTwice(t, g.t, InstallAll(t, topology).t);
    }
  }

  lemma InstallOneAdds(t: Tables, inserted: bool, highest: nat, b: Bootstrap)
    requires ValidBootstrap(b) && InstallOne(t, inserted, highest, b).Going?
    ensures OnlyAdds(t, InstallOne(t, inserted, highest, b).t)
  {
  }

  lemma AddsTwice(a: Tables, b: Tables, c: Tables)
    requires OnlyAdds(a, b) && OnlyAdds(b, c)
    ensures OnlyAdds(a, c)
  {
  }

  lemma InitializeKeeps(t: Tables, topology: seq<Bootstrap>)
    requires Sound(t)
    ensures Sound(InitializeTopology(t, topology).t) && OnlyAdds(t, InitializeTopology(t, topology).t)
  {
    hide Sound, InstallAll, ValidBootstrap;
    if ValidTopology(topology) && InstallAll(t, topology).Going? {
      InstallAllKeeps(t, topology);
    }
  }

  // ----- mutation -----

  /** The channel has exactly one retained row, and it carries the channel's revision. */
  lemma OneRetainedRow(t: Tables, c: string)
    requires Sound(t) && c in t.states
    ensures exists k :: IsRetained(t.outbox, k, c) && t.outbox[k].revision == t.states[c].revision
    ensures forall j, k :: IsRetained(t.outbox, j, c) && IsRetained(t.outbox, k, c) ==> j == k
  {
    var k :| IsRetained(t.outbox, k, c);
    assert RowFits(t.states, t.outbox[k]);
    forall i, j | IsRetained(t.outbox, i, c) && IsRetained(t.outbox, j, c) ensures i == j {
      assert RowFits(t.states, t.outbox[i]) && RowFits(t.states, t.outbox[j]);
    }
  }

  predicate Commits(t: Tables, m: Mutation) {
    ApplyMutation(t, m).outcome.Committed?
  }

  /** What a committed mutation does to the state row. */
  lemma CommitMovesState(t: Tables, m: Mutation)
    requires Commits(t, m)
    ensures var c, t' := m.next.channel, ApplyMutation(t, m).t;
            && ValidMutation(m) && c in t.states && t.states[c].revision == m.expected
            && t.states[c].sensor == m.next.sensor && t.states[c].topic == m.next.topic
            && t'.states == t.states[c := m.next] && t'.retired == Retired(t, t.states[c], m.next)
            && m.next.revision == m.expected + if IsTransition(m) then 1 else 0
    ensures !IsTransition(m) ==> ApplyMutation(t, m).t.outbox == t.outbox
    ensures IsTransition(m) ==>
              Announce(t.outbox, m.retained.value, m.lifecycle.value, m.next.channel) ==
              Some(ApplyMutation(t, m).t.outbox)
  {
    hide Announce, CursorChanged, LoadedCursor, SameState, Retired, StoredAlike;
  }

  /** Every outcome but a commit leaves every table as it was. */
  lemma OnlyCommitsChange(t: Tables, m: Mutation)
    ensures !Commits(t, m) ==> ApplyMutation(t, m).t == t
  {
    hide Announce, CursorChanged, LoadedCursor, SameState, Retired, StoredAlike;
  }

  /** A transition moves the one retained row and inserts its lifecycle row: it never finds one there already. */
  lemma TransitionAnnounces(t: Tables, m: Mutation)
    requires Sound(t) && Commits(t, m) && IsTransition(m)
    ensures var r, l, o := m.retained.value, m.lifecycle.value, t.outbox;
            && IsRetained(o, r.key, m.next.channel) && l.key !in o &&
               FreeDelivery(o[r.key := Refreshed(o[r.key], r)], l)
            && o[r.key].logicalKey == r.logicalKey
            && ApplyMutation(t, m).t.outbox == o[r.key := Refreshed(o[r.key], r)][l.key := l]
  {
    hide ApplyMutation, Commits;
    CommitMovesState(t, m);
    var r, l, c := m.retained.value, m.lifecycle.value, m.next.channel;
    forall k | k in t.outbox ensures RowFits(t.states, t.outbox[k]) {}
  }

  lemma NewRowsFit(t: Tables, m: Mutation)
    requires Sound(t) && Commits(t, m) && IsTransition(m)
    ensures RowsFit(ApplyMutation(t, m).t.states, ApplyMutation(t, m).t.outbox)
  {
    hide ApplyMutation, Commits;
    CommitMovesState(t, m);
    TransitionAnnounces(t, m);
    OneRetainedRow(t, m.next.channel);
    var t', r, l, c := ApplyMutation(t, m).t, m.retained.value, m.lifecycle.value, m.next.channel;
    forall k | k in t'.outbox ensures RowFits(t'.states, t'.outbox[k]) {
      if k == l.key {
      } else if k == r.key {
        assert RowFits(t.states, t.outbox[k]);
      } else {
        assert RowFits(t.states, t.outbox[k]);
        assert t.outbox[k].channel == c ==> !IsRetained(t.outbox, k, c);
      }
    }
  }

  /** Rewriting one row in place and inserting a free one keeps the keys unique. */
  lemma RewriteKeepsKeys(o: map<string, Delivery>, key: string, d: Delivery, l: Delivery)
    requires KeysUnique(o) && key in o && d.key == key && d.sink == o[key].sink && d.logicalKey == o[key].logicalKey
    requires d.revision > 0 && l.revision > 0 && FreeDelivery(o[key := d], l)
    ensures KeysUnique(o[key := d][l.key := l])
  {
  }

  lemma RewriteKeepsRevisions(o: map<string, Delivery>, key: string, d: Delivery, l: Delivery)
    requires OnePerRevision(o) && key in o && d.sink.RetainedState? && o[key].sink.RetainedState? && l.key !in o
    requires forall k :: k in o && o[k].sink.LifecycleEvent? && o[k].channel == l.channel ==>
               o[k].revision != l.revision
    ensures OnePerRevision(o[key := d][l.key := l])
  {
  }

  lemma NewKeysUnique(t: Tables, m: Mutation)
    requires Sound(t) && Commits(t, m) && IsTransition(m)
    ensures KeysUnique(ApplyMutation(t, m).t.outbox) && OnePerRevision(ApplyMutation(t, m).t.outbox)
  {
    hide ApplyMutation, Commits, StatesOk, RetainedExist, OnePerRevision, RetiredRefer, FreeDelivery;
    CommitMovesState(t, m);
    TransitionAnnounces(t, m);
    var r, l := m.retained.value, m.lifecycle.value;
    var d := Refreshed(t.outbox[r.key], r);
    forall k | k in t.outbox ensures RowFits(t.states, t.outbox[k]) {}
    RowIsKeyed(t.outbox, r.key);
    hide KeysUnique, RowsFit;
    RewriteKeepsKeys(t.outbox, r.key, d, l);
    RewriteKeepsRevisions(t.outbox, r.key, d, l);
  }

  lemma RowIsKeyed(o: map<string, Delivery>, k: string)
    requires KeysUnique(o) && k in o
    ensures o[k].key == k
  {
  }

  lemma NewRetainedExist(t: Tables, m: Mutation)
    requires Sound(t) && Commits(t, m) && IsTransition(m)
    ensures RetainedExist(ApplyMutation(t, m).t.states, ApplyMutation(t, m).t.outbox)
  {
    hide ApplyMutation, Commits;
    CommitMovesState(t, m);
    TransitionAnnounces(t, m);
    var t', r, l := ApplyMutation(t, m).t, m.retained.value, m.lifecycle.value;
    forall c | c in t'.states ensures exists k :: IsRetained(t'.outbox, k, c) {
      var k :| IsRetained(t.outbox, k, c);
      assert IsRetained(t'.outbox, k, c);
    }
  }

  lemma MovedStatesOk(t: Tables, m: Mutation)
    requires Sound(t) && Commits(t, m)
    ensures StatesOk(ApplyMutation(t, m).t.states)
  {
    hide ApplyMutation, Commits, KeysUnique, RowsFit, RetainedExist, OnePerRevision, RetiredRefer, Announce;
    CommitMovesState(t, m);
  }

  lemma MovedRetiredRefer(t: Tables, m: Mutation)
    requires Sound(t) && Commits(t, m)
    ensures RetiredRefer(ApplyMutation(t, m).t.retired, ApplyMutation(t, m).t.states)
  {
    hide ApplyMutation, Commits, KeysUnique, RowsFit, RetainedExist, OnePerRevision, Announce, ValidMutation;
    CommitMovesState(t, m);
    var t', c := ApplyMutation(t, m).t, m.next.channel;
    forall b | b in t'.retired ensures exists d :: d in t'.states && t'.states[d].sensor == b.sensor {
      if b in t.retired {
        var d :| d in t.states && t.states[d].sensor == b.sensor;
        assert d in t'.states && t'.states[d].sensor == b.sensor;
      } else {
        assert t'.states[c].sensor == b.sensor;
      }
    }
  }

  lemma OldRowsFit(t: Tables, m: Mutation)
    requires Sound(t) && Commits(t, m) && !IsTransition(m)
    ensures RowsFit(ApplyMutation(t, m).t.states, t.outbox) && RetainedExist(ApplyMutation(t, m).t.states, t.outbox)
  {
    hide ApplyMutation, Commits, KeysUnique, StatesOk, OnePerRevision, RetiredRefer, Announce;
    CommitMovesState(t, m);
    forall k | k in t.outbox ensures RowFits(ApplyMutation(t, m).t.states, t.outbox[k]) {
      assert RowFits(t.states, t.outbox[k]);
    }
  }

  lemma MutationKeeps(t: Tables, m: Mutation)
    requires Sound(t)
    ensures Sound(ApplyMutation(t, m).t)
  {
    hide ApplyMutation, Commits, StatesOk, KeysUnique, RowsFit, RetainedExist, OnePerRevision, RetiredRefer;
    OnlyCommitsChange(t, m);
    if Commits(t, m) {
      CommitMovesState(t, m);
      MovedStatesOk(t, m);
      MovedRetiredRefer(t, m);
      if !IsTransition(m) {
        OldRowsFit(t, m);
      } else {
        NewRowsFit(t, m);
        NewKeysUnique(t, m);
        NewRetainedExist(t, m);
      }
    }
  }

  lemma StepKeeps(t: Tables, e: Event)
    requires Sound(t)
    ensures Sound(Step(t, e))
  {
    hide Sound, SameIntents, OnlyAdds, InitializeTopology, ApplyMutation;
    match e {
      case InitializeCall(topology) => InitializeKeeps(t, topology);
      case MutateCall(m) => MutationKeeps(t, m);
      case _ =>
        DeliveryKeepsIntents(t, e);
        IntentsAreEnough(t, Step(t, e));
    }
  }

  /** In every reachable state the invariant holds. */
  lemma {:induction false} ReachableIsSound(run: seq<Event>)
    ensures Sound(After(EMPTY, run))
  {
    hide Step;
    if run == [] {
      assert Sound(EMPTY);
    } else {
      hide Sound;
      ReachableIsSound(run[..|run| - 1]);
      StepKeeps(After(EMPTY, run[..|run| - 1]), run[|run| - 1]);
    }
  }

  // ----- revisions are counted, and every one is announced once -----

  /** The revision at which a channel was bootstrapped. */
  function Base(run: seq<Event>, c: string): nat {
    if run == [] then 0
    else
      var before := run[..|run| - 1];
      if c in After(EMPTY, before).states then Base(before, c)
      else if c in After(EMPTY, run).states then After(EMPTY, run).states[c].revision
      else 0
  }

  predicate CommitsTransition(t: Tables, e: Event, c: string) {
    e.MutateCall? && e.mutation.next.channel == c && IsTransition(e.mutation) && Commits(t, e.mutation)
  }

  function Transitions(run: seq<Event>, c: string): nat {
    if run == [] then 0
    else
      var before := run[..|run| - 1];
      Transitions(before, c) + if CommitsTransition(After(EMPTY, before), run[|run| - 1], c) then 1 else 0
  }

  /** The lifecycle rows of a channel are one for each revision after its base. */
  ghost predicate AnnouncesFrom(t: Tables, c: string, base: nat)
    requires c in t.states
  {
    && (forall k :: IsLifecycle(t.outbox, k, c) ==> base < t.outbox[k].revision <= t.states[c].revision)
    && (forall r: nat :: base < r <= t.states[c].revision ==> Announced(t.outbox, c, r))
  }

  ghost predicate Announced(outbox: map<string, Delivery>, c: string, r: nat) {
    exists k :: IsLifecycle(outbox, k, c) && outbox[k].revision == r
  }

  lemma SameLifecyclesAnnounce(t: Tables, t': Tables, c: string, base: nat)
    requires c in t.states && c in t'.states && t'.states[c].revision == t.states[c].revision
    requires forall k :: IsLifecycle(t'.outbox, k, c) <==> IsLifecycle(t.outbox, k, c)
    requires forall k :: IsLifecycle(t.outbox, k, c) ==> k in t'.outbox && t'.outbox[k].revision == t.outbox[k].revision
    requires AnnouncesFrom(t, c, base)
    ensures AnnouncesFrom(t', c, base)
  {
    forall r: nat | base < r <= t'.states[c].revision ensures Announced(t'.outbox, c, r) {
      assert Announced(t.outbox, c, r);
      var k :| IsLifecycle(t.outbox, k, c) && t.outbox[k].revision == r;
      assert IsLifecycle(t'.outbox, k, c) && t'.outbox[k].revision == r;
    }
  }

  lemma NewChannelAnnounces(t: Tables, t': Tables, c: string)
    requires Sound(t) && OnlyAdds(t, t') && c !in t.states && c in t'.states
    ensures AnnouncesFrom(t', c, t'.states[c].revision)
  {
    forall k | k in t.outbox ensures t.outbox[k].channel != c {
      assert RowFits(t.states, t.outbox[k]);
    }
  }

  lemma TransitionAddsOne(t: Tables, m: Mutation, base: nat)
    requires Sound(t) && Commits(t, m) && IsTransition(m)
    requires m.next.channel in t.states && AnnouncesFrom(t, m.next.channel, base)
    requires base <= t.states[m.next.channel].revision
    ensures ApplyMutation(t, m).t.states.Keys == t.states.Keys
    ensures AnnouncesFrom(ApplyMutation(t, m).t, m.next.channel, base)
  {
    hide ApplyMutation, Commits, Sound, FreeDelivery;
    CommitMovesState(t, m);
    TransitionAnnounces(t, m);
    var t', r, l, c := ApplyMutation(t, m).t, m.retained.value, m.lifecycle.value, m.next.channel;
    forall v: nat | base < v <= t'.states[c].revision ensures Announced(t'.outbox, c, v) {
      if v <= t.states[c].revision {
        assert Announced(t.outbox, c, v);
        var k :| IsLifecycle(t.outbox, k, c) && t.outbox[k].revision == v;
        assert IsLifecycle(t'.outbox, k, c) && t'.outbox[k].revision == v;
      } else {
        assert IsLifecycle(t'.outbox, l.key, c);
      }
    }
  }

  lemma OtherMutationAnnounces(t: Tables, m: Mutation, c: string, base: nat)
    requires Sound(t) && Commits(t, m) && (IsTransition(m) ==> m.next.channel != c)
    requires c in t.states && AnnouncesFrom(t, c, base)
    ensures ApplyMutation(t, m).t.states.Keys == t.states.Keys
    ensures ApplyMutation(t, m).t.states[c].revision == t.states[c].revision
    ensures AnnouncesFrom(ApplyMutation(t, m).t, c, base)
  {
    hide ApplyMutation, Commits, Sound, FreeDelivery, AnnouncesFrom;
    CommitMovesState(t, m);
    if IsTransition(m) { TransitionAnnounces(t, m); }
    SameLifecyclesAnnounce(t, ApplyMutation(t, m).t, c, base);
  }

  lemma AnnouncedStep(t: Tables, e: Event, c: string, base: nat)
    requires Sound(t) && c in t.states && AnnouncesFrom(t, c, base) && base <= t.states[c].revision
    ensures c in Step(t, e).states && AnnouncesFrom(Step(t, e), c, base)
    ensures Step(t, e).states[c].revision == t.states[c].revision + if CommitsTransition(t, e, c) then 1 else 0
  {
    hide Sound, InitializeTopology, ApplyMutation, AnnouncesFrom, Commits;
    match e {
      case InitializeCall(topology) =>
        InitializeKeeps(t, topology);
        OldLifecycles(t, Step(t, e), c);
        SameLifecyclesAnnounce(t, Step(t, e), c, base);
      case MutateCall(m) =>
        OnlyCommitsChange(t, m);
        if CommitsTransition(t, e, c) {
          CommitMovesState(t, m);
          TransitionAddsOne(t, m, base);
        } else if Commits(t, m) {
          OtherMutationAnnounces(t, m, c, base);
        }
      case _ =>
        DeliveryKeepsIntents(t, e);
        SameLifecyclesAnnounce(t, Step(t, e), c, base);
    }
  }

  lemma OldLifecycles(t: Tables, t': Tables, c: string)
    requires OnlyAdds(t, t')
    ensures forall k :: IsLifecycle(t'.outbox, k, c) <==> IsLifecycle(t.outbox, k, c)
  {
  }

  lemma BornByBootstrap(t: Tables, e: Event, c: string)
    requires Sound(t) && c !in t.states && c in Step(t, e).states
    ensures e.InitializeCall? && OnlyAdds(t, Step(t, e))
  {
    hide Sound, InitializeTopology, ApplyMutation, Commits;
    match e {
      case InitializeCall(topology) => InitializeKeeps(t, topology);
      case MutateCall(m) =>
        OnlyCommitsChange(t, m);
        if Commits(t, m) { CommitMovesState(t, m); }
      case _ => DeliveryKeepsIntents(t, e);
    }
  }

  /**
   A channel's revision is its first revision plus the number of its committed transitions, and it has exactly
   one lifecycle row for each revision in between: no transition is lost and none is doubled.
   */
  lemma {:induction false} RevisionsAreCounted(run: seq<Event>, c: string)
    requires c in After(EMPTY, run).states
    ensures After(EMPTY, run).states[c].revision == Base(run, c) + Transitions(run, c)
    ensures AnnouncesFrom(After(EMPTY, run), c, Base(run, c))
  {
    hide Step, Sound, AnnouncesFrom, CommitsTransition;
    if run != [] {
      var before, e := run[..|run| - 1], run[|run| - 1];
      var t := After(EMPTY, before);
      ReachableIsSound(before);
      if c in t.states {
        RevisionsAreCounted(before, c);
        AnnouncedStep(t, e, c, Base(before, c));
      } else {
        BornByBootstrap(t, e, c);
        NewChannelAnnounces(t, Step(t, e), c);
        NeverMutated(before, c);
        NotATransition(t, e, c);
      }
    }
  }

  lemma NotATransition(t: Tables, e: Event, c: string)
    requires c !in t.states
    ensures !CommitsTransition(t, e, c)
  {
    hide ApplyMutation;
    if e.MutateCall? && Commits(t, e.mutation) { CommitMovesState(t, e.mutation); }
  }

  lemma {:induction false} NeverMutated(run: seq<Event>, c: string)
    requires c !in After(EMPTY, run).states
    ensures Transitions(run, c) == 0
  {
    hide Step, Sound, CommitsTransition, AnnouncesFrom;
    if run != [] {
      var before, e := run[..|run| - 1], run[|run| - 1];
      ReachableIsSound(before);
      if c in After(EMPTY, before).states {
        RevisionsAreCounted(before, c);
        AnnouncedStep(After(EMPTY, before), e, c, Base(before, c));
      }
      NeverMutated(before, c);
      NotATransition(After(EMPTY, before), e, c);
    }
  }

  /**
   The rows of a channel in any reachable state: one retained row at the current revision, one lifecycle row a
   revision.
   */
  lemma ReachableRows(run: seq<Event>, c: string)
    requires c in After(EMPTY, run).states
    ensures var t := After(EMPTY, run);
            && (exists k :: IsRetained(t.outbox, k, c) && t.outbox[k].revision == t.states[c].revision)
            && (forall j, k :: IsRetained(t.outbox, j, c) && IsRetained(t.outbox, k, c) ==> j == k)
            && (forall j, k | IsLifecycle(t.outbox, j, c) && IsLifecycle(t.outbox, k, c) ::
                  t.outbox[j].revision == t.outbox[k].revision ==> j == k)
  {
    ReachableIsSound(run);
    OneRetainedRow(After(EMPTY, run), c);
  }
}
