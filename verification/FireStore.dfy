/**
 The fire store itself: tables as fields, calls that update them row by row inside a transaction, rollback on
 every outcome but a commit. Every call is specified by its function in `FireTables`.
 */
module FireStore {
  import opened Option
  import opened Text
  import opened FireTables
  import opened FireRun
  import T = FireTables
  import S = SensorSequence

  lemma DistinctPrefix(topology: seq<Bootstrap>, n: nat)
    requires n < |topology|
    ensures Distinct(topology[..n + 1]) <==>
            Distinct(topology[..n]) && forall i :: 0 <= i < n ==> Apart(topology[i], topology[n])
  {
    var p, q := topology[..n], topology[..n + 1];
    assert forall i :: 0 <= i < n ==> p[i] == q[i] == topology[i];
    assert q[n] == topology[n];
    if Distinct(q) {
      forall i, j | 0 <= i < j < n ensures Apart(p[i], p[j]) {
        assert Apart(q[i], q[j]);
      }
      forall i | 0 <= i < n ensures Apart(topology[i], topology[n]) {
        assert Apart(q[i], q[n]);
      }
    } else {
      var i, j :| 0 <= i < j < n + 1 && !Apart(q[i], q[j]);
      assert j < n ==> !Apart(p[i], p[j]);
    }
  }

  lemma DistinctShrinks(topology: seq<Bootstrap>, n: nat)
    requires n <= |topology| && Distinct(topology)
    ensures Distinct(topology[..n])
  {
    var p := topology[..n];
    forall i, j | 0 <= i < j < n ensures Apart(p[i], p[j]) {
      assert p[i] == topology[i] && p[j] == topology[j];
    }
  }

  /** What the four sets hold after some of the topology has been looked at. */
  ghost predicate Collected(seen: seq<Bootstrap>, channels: set<string>, sensors: set<string>, topics: set<string>,
                            keys: set<string>) {
    && (forall x :: x in channels <==> exists i :: 0 <= i < |seen| && seen[i].state.channel == x)
    && (forall x :: x in sensors <==> exists i :: 0 <= i < |seen| && seen[i].state.sensor == x)
    && (forall x :: x in topics <==> exists i :: 0 <= i < |seen| && seen[i].state.topic == x)
    && (forall x :: x in keys <==> exists i :: 0 <= i < |seen| && seen[i].retained.key == x)
  }

  lemma CollectOne(seen: seq<Bootstrap>, b: Bootstrap, channels: set<string>, sensors: set<string>, topics: set<string>,
                   keys: set<string>)
    requires Collected(seen, channels, sensors, topics, keys)
    ensures Collected(seen + [b], channels + {b.state.channel}, sensors + {b.state.sensor},
                      topics + {b.state.topic}, keys + {b.retained.key})
  {
    var all := seen + [b];
    forall x ensures x in channels + {b.state.channel} <==> exists i :: 0 <= i < |all| && all[i].state.channel == x {
      if x in channels { var i :| 0 <= i < |seen| && seen[i].state.channel == x; assert all[i].state.channel == x; }
      assert all[|seen|] == b;
    }
    forall x ensures x in sensors + {b.state.sensor} <==> exists i :: 0 <= i < |all| && all[i].state.sensor == x {
      if x in sensors { var i :| 0 <= i < |seen| && seen[i].state.sensor == x; assert all[i].state.sensor == x; }
      assert all[|seen|] == b;
    }
    forall x ensures x in topics + {b.state.topic} <==> exists i :: 0 <= i < |all| && all[i].state.topic == x {
      if x in topics { var i :| 0 <= i < |seen| && seen[i].state.topic == x; assert all[i].state.topic == x; }
      assert all[|seen|] == b;
    }
    forall x ensures x in keys + {b.retained.key} <==> exists i :: 0 <= i < |all| && all[i].retained.key == x {
      if x in keys { var i :| 0 <= i < |seen| && seen[i].retained.key == x; assert all[i].retained.key == x; }
      assert all[|seen|] == b;
    }
  }

  lemma CollectedSaysApart(seen: seq<Bootstrap>, b: Bootstrap, channels: set<string>, sensors: set<string>,
                           topics: set<string>, keys: set<string>)
    requires Collected(seen, channels, sensors, topics, keys)
    ensures (b.state.channel !in channels && b.state.sensor !in sensors && b.state.topic !in topics &&
             b.retained.key !in keys)
            <==> forall i :: 0 <= i < |seen| ==> Apart(seen[i], b)
  {
    if forall i :: 0 <= i < |seen| ==> Apart(seen[i], b) {
      forall i | 0 <= i < |seen|
        ensures seen[i].state.channel != b.state.channel && seen[i].state.sensor != b.state.sensor
                && seen[i].state.topic != b.state.topic && seen[i].retained.key != b.retained.key
      {
        assert Apart(seen[i], b);
      }
    }
  }

  /** The configured topology is sound in itself. */
  method CheckTopology(topology: seq<Bootstrap>) returns (valid: bool)
    ensures valid == ValidTopology(topology)
  {
    hide ValidBootstrap, Collected, Distinct, Apart;
    if topology == [] { return false; }
    var channels, sensors, topics, keys: set<string> := {}, {}, {}, {};
    NothingCollected();
    for i := 0 to |topology|
      invariant Distinct(topology[..i]) && forall k :: 0 <= k < i ==> ValidBootstrap(topology[k])
      invariant Collected(topology[..i], channels, sensors, topics, keys)
    {
      var b := topology[i];
      DistinctPrefix(topology, i);
      CollectedSaysApart(topology[..i], b, channels, sensors, topics, keys);
      assert forall k :: 0 <= k < i ==> topology[..i][k] == topology[k];
      if !ValidBootstrap(b) || b.state.channel in channels || b.state.sensor in sensors || b.state.topic in topics
         || b.retained.key in keys {
        if Distinct(topology) { DistinctShrinks(topology, i + 1); }
        return false;
      }
      CollectOne(topology[..i], b, channels, sensors, topics, keys);
      assert topology[..i] + [b] == topology[..i + 1];
      channels, sensors, topics, keys :=
        channels + {b.state.channel}, sensors + {b.state.sensor}, topics + {b.state.topic}, keys + {b.retained.key};
    }
    assert topology[..|topology|] == topology;
    valid := true;
  }

  lemma NothingCollected()
    ensures Collected([], {}, {}, {}, {}) && Distinct([])
  {
  }

  lemma {:induction false} StoppedStays(t: Tables, topology: seq<Bootstrap>, n: nat)
    requires n <= |topology| && InstallAll(t, topology[..n]).Stopped?
    ensures InstallAll(t, topology) == InstallAll(t, topology[..n])
    decreases |topology| - n
  {
    hide InstallOne;
    if n == |topology| {
      assert topology[..n] == topology;
    } else {
      InstallNext(t, topology, n);
      StoppedStays(t, topology, n + 1);
    }
  }

  lemma InstallNext(t: Tables, topology: seq<Bootstrap>, n: nat)
    requires n < |topology|
    ensures InstallAll(t, topology[..n + 1]) ==
            match InstallAll(t, topology[..n])
            case Going(t', inserted, highest) => InstallOne(t', inserted, highest, topology[n])
            case Stopped(outcome, revision) => Stopped(outcome, revision)
  {
    hide InstallOne;
    assert topology[..n + 1][..n] == topology[..n];
  }

  lemma Keyed(t: Tables)
    requires Sound(t)
    ensures forall c :: c in t.states ==> t.states[c].channel == c
    ensures forall k :: k in t.outbox ==> t.outbox[k].key == k
  {
  }

  /** The rows already listed: those no longer to do, in order, and before all that are. */
  ghost predicate SortedOf(outbox: map<string, Delivery>, all: set<string>, todo: set<string>, rows: seq<Delivery>) {
    && all <= outbox.Keys && todo <= all
    && (forall i :: 0 <= i < |rows| ==> rows[i].key in all && rows[i].key !in todo && outbox[rows[i].key] == rows[i])
    && (forall i, j :: 0 <= i < j < |rows| ==> Precedes(rows[i], rows[j]))
    && (forall i, k :: 0 <= i < |rows| && k in todo ==> Precedes(rows[i], outbox[k]))
    && (forall k :: k in all && k !in todo ==> outbox[k] in rows)
  }

  lemma SortedNone(outbox: map<string, Delivery>, all: set<string>)
    requires all <= outbox.Keys
    ensures SortedOf(outbox, all, all, [])
  {
  }

  lemma SortedNext(outbox: map<string, Delivery>, all: set<string>, todo: set<string>, rows: seq<Delivery>, k: string)
    requires SortedOf(outbox, all, todo, rows) && k in todo && outbox[k].key == k
    requires forall j :: j in todo && j != k ==> Precedes(outbox[k], outbox[j])
    ensures SortedOf(outbox, all, todo - {k}, rows + [outbox[k]])
  {
    hide Precedes;
  }

  lemma SortedAll(t: Tables, all: set<string>, rows: seq<Delivery>, channel: Option<string>)
    requires SortedOf(t.outbox, all, {}, rows)
    requires forall k :: k in all <==> k in t.outbox && AwaitsDelivery(t.outbox[k], channel)
    ensures IsPendingList(t, channel, rows)
  {
    hide Precedes, AwaitsDelivery;
    forall i | 0 <= i < |rows| ensures AwaitsDelivery(rows[i], channel) {
      assert rows[i].key in all;
    }
  }

  class Store {
    var states: map<string, State>
    var outbox: map<string, Delivery>
    var retired: set<Boot>

    constructor ()
      ensures Valid() && Value() == EMPTY
    {
      states, outbox, retired := map[], map[], {};
      new;
      ReachableIsSound([]);
    }

    ghost predicate Valid()
      reads this
    {
      Sound(Value())
    }

    function Value(): Tables
      reads this
    {
      Tables(states, outbox, retired)
    }

    /** Bring the tables back to where the transaction began. */
    method Rollback(t: Tables)
      modifies this
      ensures Value() == t
    {
      states, outbox, retired := t.states, t.outbox, t.retired;
    }

    method InitializeTopology(topology: seq<Bootstrap>) returns (outcome: Outcome, revision: nat)
      requires Valid()
      modifies this
      ensures Valid()
      ensures T.InitializeTopology(old(Value()), topology) == Result(Value(), outcome, revision)
    {
      hide ValidTopology, InstallAll, Sound;
      InitializeKeeps(Value(), topology);
      var valid := CheckTopology(topology);
      if !valid { return Invalid, 0; }
      var begin := Value();
      var ok, inserted, highest, why, at := InstallRows(topology);
      if !ok {
        Rollback(begin);
        return why, at;
      }
      if |states| != |topology| || |RetainedKeys(outbox)| != |topology| {
        Rollback(begin);
        return Conflict, highest;
      }
      return if inserted then Committed else Idempotent, highest;
    }

    method InstallRows(topology: seq<Bootstrap>)
      returns (ok: bool, inserted: bool, highest: nat, why: Outcome, at: nat)
      modifies this
      ensures InstallAll(old(Value()), topology) == if ok then Going(Value(), inserted, highest) else Stopped(why, at)
    {
      hide InstallAll, Announces, FreeState, FreeDelivery;
      ok, inserted, highest, why, at := true, false, 0, Failed, 0;
      ghost var begin := Value();
      NothingInstalled(begin);
      for i := 0 to |topology|
        invariant ok && InstallAll(begin, topology[..i]) == Going(Value(), inserted, highest)
      {
        var b := topology[i];
        var c := b.state.channel;
        InstallNext(begin, topology, i);
        if c in states {
          var s := states[c];
          highest := Max(highest, s.revision);
          if s.sensor != b.state.sensor || s.topic != b.state.topic {
            ok, why, at := false, Conflict, s.revision;
            StoppedStays(begin, topology, i + 1);
            return;
          }
          if !Announces(outbox, b.retained.key, s) {
            ok := false;
            StoppedStays(begin, topology, i + 1);
            return;
          }
        } else {
          if !FreeState(states, b.state) || !FreeDelivery(outbox, b.retained) {
            ok := false;
            StoppedStays(begin, topology, i + 1);
            return;
          }
          states := states[c := b.state];
          outbox := outbox[b.retained.key := b.retained];
          inserted := true;
          highest := Max(highest, b.state.revision);
        }
      }
      assert topology[..|topology|] == topology;
    }

    method ApplyMutation(m: Mutation) returns (outcome: Outcome, revision: nat)
      requires Valid()
      modifies this
      ensures Valid()
      ensures T.ApplyMutation(old(Value()), m) == Result(Value(), outcome, revision)
    {
      hide Sound, Commits, ValidMutation, SameState, StoredAlike, CursorChanged, LoadedCursor, Retired, Announce;
      MutationKeeps(Value(), m);
      Keyed(Value());
      if !ValidMutation(m) { return Invalid, m.expected; }
      var begin := Value();
      var n := m.next;
      if n.channel !in states { return Conflict, 0; }
      var s := states[n.channel];
      if s.revision == n.revision && SameState(s, n) {
        if IsTransition(m) && !(StoredAlike(outbox, m.retained.value) && StoredAlike(outbox, m.lifecycle.value)) {
          return Failed, m.expected;
        }
        return Idempotent, s.revision;
      }
      if s.revision != m.expected || s.sensor != n.sensor || s.topic != n.topic { return Conflict, s.revision; }
      var accepted := MoveCursor(s, n);
      if !accepted { return Invalid, s.revision; }
      UpdateState(s, n);
      if IsTransition(m) {
        var announced := AnnounceTransition(m.retained.value, m.lifecycle.value, n.channel);
        if !announced {
          Rollback(begin);
          return Failed, m.expected;
        }
      }
      return Committed, n.revision;
    }

    /** Check the sequence cursor and retire the boot that the mutation leaves. */
    method MoveCursor(s: State, n: State) returns (accepted: bool)
      modifies this`retired
      ensures accepted ==
              (CursorChanged(s, n) ==>
                 !n.mode.Unseen? && S.Accepts(LoadedCursor(old(Value()), s, n), FactOf(n)))
      ensures retired == if accepted then Retired(old(Value()), s, n) else old(retired)
    {
      hide S.Evaluate;
      if !CursorChanged(s, n) { return true; }
      if n.mode.Unseen? { return false; }
      var known := {};
      if n.boot.Some? && Boot(n.sensor, n.boot.value) in retired {
        known := {n.boot.value};
      }
      var cursor := S.Cursor(s.mode, s.boot, s.sequence, known);
      assert cursor == LoadedCursor(Value(), s, n);
      if !S.Accepts(cursor, FactOf(n)) { return false; }
      if s.mode.Versioned? && s.boot.Some? && n.boot.Some? && s.boot.value != n.boot.value {
        retired := retired + {Boot(n.sensor, s.boot.value)};
      }
      accepted := true;
    }

    /** The columns that the update statement sets; the others already have the mutation's values. */
    method UpdateState(s: State, n: State)
      requires n.channel in states && states[n.channel] == s
      requires s.channel == n.channel && s.sensor == n.sensor && s.topic == n.topic
      modifies this`states
      ensures states == old(states)[n.channel := n]
    {
      var row := s;
      row := row.(lifecycle := n.lifecycle, alarm := n.alarm, event := n.event);
      row := row.(revision := n.revision, mode := n.mode, boot := n.boot, sequence := n.sequence);
      row := row.(signal := n.signal, updatedAt := n.updatedAt);
      states := states[n.channel := row];
    }

    /** Write the two delivery intents of a transition. */
    method AnnounceTransition(r: Delivery, l: Delivery, channel: string) returns (ok: bool)
      modifies this`outbox
      ensures T.Announce(old(outbox), r, l, channel).Some? == ok
      ensures ok ==> T.Announce(old(outbox), r, l, channel) == Some(outbox)
    {
      hide FreeDelivery, StoredAlike, Refreshed;
      if !RetainedFits(outbox, r, channel) { return false; }
      outbox := outbox[r.key := Refreshed(outbox[r.key], r)];
      if l.key in outbox { return StoredAlike(outbox, l); }
      if !FreeDelivery(outbox, l) { return false; }
      outbox := outbox[l.key := l];
      ok := true;
    }

    method MarkInFlight(key: string, revision: nat, now: string) returns (done: bool)
      requires Valid()
      modifies this`outbox
      ensures Valid()
      ensures T.MarkInFlight(old(Value()), key, revision, now) == Mark(Value(), done)
    {
      hide Sound, T.InitializeTopology, T.ApplyMutation, T.MarkPending, T.Acknowledge, T.ResetInFlight, T.ValidMutation;
      StepKeeps(Value(), InFlightCall(key, revision, now));
      done := Names(Value(), key, revision);
      if done {
        var d := outbox[key];
        outbox := outbox[key := d.(progress := InFlight, attempts := d.attempts + 1, lastError := "",
                                   updatedAt := now)];
      }
    }

    method MarkPending(key: string, revision: nat, error: string, now: string) returns (done: bool)
      requires Valid()
      modifies this`outbox
      ensures Valid()
      ensures T.MarkPending(old(Value()), key, revision, error, now) == Mark(Value(), done)
    {
      hide Sound, T.InitializeTopology, T.ApplyMutation, T.MarkInFlight, T.Acknowledge, T.ResetInFlight,
           T.ValidMutation;
      StepKeeps(Value(), PendingCall(key, revision, error, now));
      done := Names(Value(), key, revision);
      if done {
        var d := outbox[key];
        outbox := outbox[key := d.(progress := Pending, lastError := error, nextAttemptAt := now, updatedAt := now)];
      }
    }

    method Acknowledge(key: string, revision: nat, now: string) returns (done: bool)
      requires Valid()
      modifies this`outbox
      ensures Valid()
      ensures T.Acknowledge(old(Value()), key, revision, now) == Mark(Value(), done)
    {
      hide Sound, T.InitializeTopology, T.ApplyMutation, T.MarkInFlight, T.MarkPending, T.ResetInFlight,
           T.ValidMutation;
      StepKeeps(Value(), AcknowledgeCall(key, revision, now));
      done := Names(Value(), key, revision) && outbox[key].progress.InFlight?;
      if done {
        var d := outbox[key];
        outbox := outbox[key := d.(progress := Acked, acked := Some(revision), lastError := "", updatedAt := now)];
      }
    }

    /** Row by row, every delivery that a restart interrupted becomes pending again. */
    method ResetInFlight(now: string)
      requires Valid()
      modifies this`outbox
      ensures Valid()
      ensures Value() == T.ResetInFlight(old(Value()), now)
    {
      hide Sound, T.InitializeTopology, T.ApplyMutation, T.MarkInFlight, T.MarkPending, T.Acknowledge, T.ValidMutation;
      StepKeeps(Value(), ResetCall(now));
      var todo := outbox.Keys;
      ghost var before := outbox;
      while todo != {}
        invariant todo <= before.Keys && outbox.Keys == before.Keys
        invariant forall k :: k in before ==> outbox[k] == if k in todo then before[k] else Restarted(before[k], now)
        decreases |todo|
      {
        var k :| k in todo;
        outbox := outbox[k := Restarted(outbox[k], now)];
        todo := todo - {k};
      }
      assert outbox == (map k | k in before :: Restarted(before[k], now));
    }

    /** The rows still to be delivered, in delivery order; none when a row cannot be read. */
    method ListPendingLifecycle(channel: Option<string>) returns (list: Option<seq<Delivery>>)
      requires Valid()
      ensures list.Some? ==> IsPendingList(Value(), channel, list.value)
      ensures list.None? <==> exists k :: k in outbox && AwaitsDelivery(outbox[k], channel) && !Readable(outbox[k])
    {
      hide Sound, SortedOf;
      Keyed(Value());
      var todo := set k | k in outbox && AwaitsDelivery(outbox[k], channel);
      hide AwaitsDelivery, Precedes;
      ghost var all := todo;
      var rows: seq<Delivery> := [];
      SortedNone(outbox, all);
      while todo != {}
        invariant todo <= all && SortedOf(outbox, all, todo, rows)
        invariant forall k :: k in all - todo ==> Readable(outbox[k])
        decreases |todo|
      {
        var k := First(todo);
        if !Readable(outbox[k]) { return None; }
        SortedNext(outbox, all, todo, rows, k);
        rows := rows + [outbox[k]];
        todo := todo - {k};
      }
      SortedAll(Value(), all, rows, channel);
      assert all - todo == all;
      list := Some(rows);
    }

    method First(keys: set<string>) returns (first: string)
      requires keys != {} && keys <= outbox.Keys && forall k :: k in outbox ==> outbox[k].key == k
      ensures first in keys && forall k :: k in keys && k != first ==> Precedes(outbox[first], outbox[k])
    {
      hide Precedes;
      first :| first in keys;
      var rest := keys - {first};
      while rest != {}
        invariant first in keys && first !in rest && rest <= keys
        invariant forall k :: k in keys - rest && k != first ==> Precedes(outbox[first], outbox[k])
        decreases |rest|
      {
        var k :| k in rest;
        PrecedesIsStrict(outbox[first], outbox[k]);
        if Precedes(outbox[k], outbox[first]) {
          forall j | j in keys - rest && j != first ensures Precedes(outbox[k], outbox[j]) {
            PrecedesIsTransitive(outbox[k], outbox[first], outbox[j]);
          }
          first := k;
        }
        rest := rest - {k};
      }
    }
  }

  lemma NothingInstalled(t: Tables)
    ensures forall topology: seq<Bootstrap> :: InstallAll(t, topology[..0]) == Going(t, false, 0)
  {
  }
}
