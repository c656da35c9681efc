/**
 The fire alarm store: one state row per channel, the outbox rows that announce it, and the boots a sensor
 has left behind. Each call is a function from tables to tables; an error leaves the tables as they were.
 */
module FireTables {
  import opened Option
  import opened Text
  import S = SensorSequence

  datatype Lifecycle = Open | Acknowledged | Resolved

  datatype State = State(
    channel: string, sensor: string, topic: string,
    lifecycle: Lifecycle, alarm: string, event: string, revision: nat,
    mode: S.Mode, boot: Option<string>, sequence: Option<nat>, signal: string,
    updatedAt: string)

  datatype Sink = RetainedState | LifecycleEvent

  datatype Progress = Pending | InFlight | Acked

  datatype Delivery = Delivery(
    key: string, sink: Sink, logicalKey: string, sensor: string, channel: string, event: string, alarm: string,
    revision: nat, topic: string, payload: string, qos: int, retain: bool,
    attempts: nat, nextAttemptAt: string, lastError: string,
    progress: Progress, acked: Option<nat>, createdAt: string, updatedAt: string)

  datatype Boot = Boot(sensor: string, boot: string)

  datatype Tables = Tables(states: map<string, State>, outbox: map<string, Delivery>, retired: set<Boot>)

  datatype Bootstrap = Bootstrap(state: State, retained: Delivery)

  /** A transition carries both delivery intents; a mutation of the cursor alone carries neither. */
  datatype Mutation = Mutation(expected: nat, next: State, retained: Option<Delivery>, lifecycle: Option<Delivery>)

  datatype Outcome = Committed | Idempotent | Conflict | Invalid | Failed

  datatype Result = Result(t: Tables, outcome: Outcome, revision: nat)

  // ----- what a row must be -----

  predicate ValidDelivery(d: Delivery) {
    && d.key != "" && d.logicalKey != "" && d.sensor != "" && d.channel != "" && d.event != "" && d.alarm != ""
    && 0 < d.revision <= MAX_INT64 && d.topic != "" && d.payload != "" && d.qos == 1
    && d.retain == d.sink.RetainedState?
    && d.nextAttemptAt != "" && d.createdAt != "" && d.updatedAt != ""
  }

  predicate ValidBootstrap(b: Bootstrap) {
    var s, d := b.state, b.retained;
    && s.channel != "" && s.sensor != "" && s.topic != "" && 0 < s.revision <= MAX_INT64
    && s.lifecycle.Resolved? && s.alarm == "" && s.event != ""
    && s.mode.Unseen? && s.boot.None? && s.sequence.None? && s.signal != "" && s.updatedAt != ""
    && ValidDelivery(d) && d.sink.RetainedState?
    && d.logicalKey == s.topic && d.sensor == s.sensor && d.channel == s.channel && d.event == s.event
    && d.revision == s.revision && d.topic == s.topic
    && d.attempts == 0 && d.lastError == "" && d.progress.Pending? && d.acked.None?
  }

  predicate IsTransition(m: Mutation) {
    m.retained.Some? && m.lifecycle.Some?
  }

  predicate ValidMutation(m: Mutation) {
    var n := m.next;
    && m.expected <= MAX_INT64 && n.revision <= MAX_INT64
    && n.channel != "" && n.sensor != "" && n.topic != "" && n.event != "" && n.signal != "" && n.updatedAt != ""
    && m.retained.Some? == m.lifecycle.Some?
    && (if !IsTransition(m) then n.revision == m.expected
        else
          && m.expected != MAX_INT64 && n.revision == m.expected + 1
          && ValidDelivery(m.retained.value) && ValidDelivery(m.lifecycle.value)
          && m.retained.value.sink.RetainedState? && m.lifecycle.value.sink.LifecycleEvent?
          && m.retained.value.revision == n.revision && m.lifecycle.value.revision == n.revision
          && m.retained.value.channel == n.channel && m.lifecycle.value.channel == n.channel)
  }

  predicate SameState(a: State, b: State) {
    a == b.(updatedAt := a.updatedAt)
  }

  /** Equal in everything that is sent; how far the sending got does not matter. */
  predicate SameDelivery(a: Delivery, b: Delivery) {
    a == b.(attempts := a.attempts, nextAttemptAt := a.nextAttemptAt, lastError := a.lastError,
            progress := a.progress, acked := a.acked, createdAt := a.createdAt, updatedAt := a.updatedAt)
  }

  // ----- single rows -----

  /** Reading a row whose acknowledged revision is not positive is an error. */
  predicate Readable(d: Delivery) {
    d.acked != Some(0)
  }

  /** The constraints of the state table. */
  predicate FreeState(states: map<string, State>, s: State) {
    && s.channel !in states
    && forall c :: c in states ==> states[c].sensor != s.sensor && states[c].topic != s.topic
  }

  /** The constraints of the outbox table, and the width of its counters. */
  predicate FreeDelivery(outbox: map<string, Delivery>, d: Delivery) {
    && d.key !in outbox
    && d.attempts <= MAX_INT64 && (d.acked.Some? ==> d.acked.value <= MAX_INT64)
    && forall k :: k in outbox && outbox[k].sink == d.sink ==>
         && outbox[k].logicalKey != d.logicalKey
         && (d.sink.LifecycleEvent? ==> outbox[k].event != d.event)
  }

  predicate StoredAlike(outbox: map<string, Delivery>, d: Delivery) {
    d.key in outbox && Readable(outbox[d.key]) && SameDelivery(outbox[d.key], d)
  }

  // ----- bootstrap -----

  predicate Distinct(topology: seq<Bootstrap>) {
    forall i, j :: 0 <= i < j < |topology| ==> Apart(topology[i], topology[j])
  }

  predicate Apart(a: Bootstrap, b: Bootstrap) {
    && a.state.channel != b.state.channel && a.state.sensor != b.state.sensor && a.state.topic != b.state.topic
    && a.retained.key != b.retained.key
  }

  predicate ValidTopology(topology: seq<Bootstrap>) {
    && topology != [] && Distinct(topology)
    && forall i :: 0 <= i < |topology| ==> ValidBootstrap(topology[i])
  }

  /** The retained row still announces the state it was written with. */
  predicate Announces(outbox: map<string, Delivery>, key: string, s: State) {
    && key in outbox && Readable(outbox[key])
    && var d := outbox[key];
       && d.sink.RetainedState? && d.logicalKey == s.topic && d.sensor == s.sensor && d.channel == s.channel
       && d.event == s.event && d.revision == s.revision && d.topic == s.topic
  }

  datatype Install = Going(t: Tables, inserted: bool, highest: nat) | Stopped(outcome: Outcome, revision: nat)

  function Max(a: nat, b: nat): nat {
    if a < b then b else a
  }

  function InstallOne(t: Tables, inserted: bool, highest: nat, b: Bootstrap): Install {
    var c := b.state.channel;
    if c in t.states then
      var s := t.states[c];
      if s.sensor != b.state.sensor || s.topic != b.state.topic then Stopped(Conflict, s.revision)
      else if !Announces(t.outbox, b.retained.key, s) then Stopped(Failed, 0)
      else Going(t, inserted, Max(highest, s.revision))
    else if !FreeState(t.states, b.state) || !FreeDelivery(t.outbox, b.retained) then Stopped(Failed, 0)
    else
      Going(t.(states := t.states[c := b.state], outbox := t.outbox[b.retained.key := b.retained]),
            true, Max(highest, b.state.revision))
  }

  function InstallAll(t: Tables, topology: seq<Bootstrap>): Install {
    if topology == [] then Going(t, false, 0)
    else
      match InstallAll(t, topology[..|topology| - 1])
      case Going(t', inserted, highest) => InstallOne(t', inserted, highest, topology[|topology| - 1])
      case Stopped(outcome, revision) => Stopped(outcome, revision)
  }

  function RetainedKeys(outbox: map<string, Delivery>): set<string> {
    set k | k in outbox && outbox[k].sink.RetainedState?
  }

  function InitializeTopology(t: Tables, topology: seq<Bootstrap>): Result {
    if !ValidTopology(topology) then Result(t, Invalid, 0)
    else
      match InstallAll(t, topology)
      case Stopped(outcome, revision) => Result(t, outcome, revision)
      case Going(t', inserted, highest) =>
        if |t'.states| != |topology| || |RetainedKeys(t'.outbox)| != |topology| then Result(t, Conflict, highest)
        else Result(t', if inserted then Committed else Idempotent, highest)
  }

  // ----- mutation -----

  predicate CursorChanged(s: State, n: State) {
    s.mode != n.mode || s.boot != n.boot || s.sequence != n.sequence || s.signal != n.signal
  }

  function FactOf(n: State): S.Fact {
    S.Fact(if n.mode.Versioned? then S.BootEpochV2 else S.LegacyV1, n.boot, n.sequence)
  }

  /** The cursor as the store loads it: of the retired boots only the one that the mutation names. */
  function LoadedCursor(t: Tables, s: State, n: State): S.Cursor {
    S.Cursor(s.mode, s.boot, s.sequence,
             if n.boot.Some? && Boot(n.sensor, n.boot.value) in t.retired then {n.boot.value} else {})
  }

  function Retired(t: Tables, s: State, n: State): set<Boot> {
    if CursorChanged(s, n) && s.mode.Versioned? && s.boot.Some? && n.boot.Some? && s.boot.value != n.boot.value
    then t.retired + {Boot(n.sensor, s.boot.value)}
    else t.retired
  }

  /** The retained row after a transition: a new thing to announce, with what was acknowledged before kept. */
  function Refreshed(d: Delivery, r: Delivery): Delivery {
    d.(sensor := r.sensor, channel := r.channel, event := r.event, alarm := r.alarm, revision := r.revision,
       topic := r.topic, payload := r.payload, qos := 1, retain := true, attempts := 0,
       nextAttemptAt := r.nextAttemptAt, lastError := "", progress := Pending, updatedAt := r.updatedAt)
  }

  predicate RetainedFits(outbox: map<string, Delivery>, r: Delivery, channel: string) {
    && r.key in outbox && Readable(outbox[r.key])
    && var d := outbox[r.key];
       d.sink.RetainedState? && d.channel == channel && d.logicalKey == r.logicalKey
  }

  /** The two delivery intents of a transition, or nothing when they do not fit. */
  function Announce(outbox: map<string, Delivery>, r: Delivery, l: Delivery, channel: string)
    : Option<map<string, Delivery>>
  {
    if !RetainedFits(outbox, r, channel) then None
    else
      var outbox' := outbox[r.key := Refreshed(outbox[r.key], r)];
      if l.key in outbox' then
        if StoredAlike(outbox', l) then Some(outbox') else None
      else if FreeDelivery(outbox', l) then Some(outbox'[l.key := l])
      else None
  }

  function ApplyMutation(t: Tables, m: Mutation): Result {
    if !ValidMutation(m) then Result(t, Invalid, m.expected)
    else if m.next.channel !in t.states then Result(t, Conflict, 0)
    else
      var s, n := t.states[m.next.channel], m.next;
      if s.revision == n.revision && SameState(s, n) then
        if IsTransition(m) && !(StoredAlike(t.outbox, m.retained.value) && StoredAlike(t.outbox, m.lifecycle.value))
        then Result(t, Failed, m.expected)
        else Result(t, Idempotent, s.revision)
      else if s.revision != m.expected || s.sensor != n.sensor || s.topic != n.topic then
        Result(t, Conflict, s.revision)
      else if CursorChanged(s, n) && (n.mode.Unseen? || !S.Accepts(LoadedCursor(t, s, n), FactOf(n))) then
        Result(t, Invalid, s.revision)
      else
        var moved := t.(states := t.states[n.channel := n], retired := Retired(t, s, n));
        if !IsTransition(m) then Result(moved, Committed, n.revision)
        else
          match Announce(t.outbox, m.retained.value, m.lifecycle.value, n.channel)
          case None => Result(t, Failed, m.expected)
          case Some(outbox) => Result(moved.(outbox := outbox), Committed, n.revision)
  }

  // ----- delivery -----

  datatype Mark = Mark(t: Tables, done: bool)

  predicate Names(t: Tables, key: string, revision: nat) {
    key != "" && 0 < revision <= MAX_INT64 && key in t.outbox && t.outbox[key].revision == revision
  }

  function MarkInFlight(t: Tables, key: string, revision: nat, now: string): Mark {
    if !Names(t, key, revision) then Mark(t, false)
    else
      var d := t.outbox[key];
      var d' := d.(progress := InFlight, attempts := d.attempts + 1, lastError := "", updatedAt := now);
      Mark(t.(outbox := t.outbox[key := d']), true)
  }

  function MarkPending(t: Tables, key: string, revision: nat, error: string, now: string): Mark {
    if !Names(t, key, revision) then Mark(t, false)
    else
      var d' := t.outbox[key].(progress := Pending, lastError := error, nextAttemptAt := now, updatedAt := now);
      Mark(t.(outbox := t.outbox[key := d']), true)
  }

  function Acknowledge(t: Tables, key: string, revision: nat, now: string): Mark {
    if !Names(t, key, revision) || !t.outbox[key].progress.InFlight? then Mark(t, false)
    else
      var d' := t.outbox[key].(progress := Acked, acked := Some(revision), lastError := "", updatedAt := now);
      Mark(t.(outbox := t.outbox[key := d']), true)
  }

  function Restarted(d: Delivery, now: string): Delivery {
    if d.progress.InFlight?
    then d.(progress := Pending, lastError := "process restart before PUBACK", nextAttemptAt := now, updatedAt := now)
    else d
  }

  function ResetInFlight(t: Tables, now: string): Tables {
    t.(outbox := map k | k in t.outbox :: Restarted(t.outbox[k], now))
  }

  // ----- the pending list -----

  predicate AwaitsDelivery(d: Delivery, channel: Option<string>) {
    d.sink.LifecycleEvent? && !d.progress.Acked? && (channel.Some? ==> d.channel == channel.value)
  }

  predicate Precedes(a: Delivery, b: Delivery) {
    || a.revision < b.revision
    || (a.revision == b.revision && Before(a.createdAt, b.createdAt))
    || (a.revision == b.revision && a.createdAt == b.createdAt && Before(a.key, b.key))
  }

  /** The rows still to be delivered, each once, by revision, then creation, then key. */
  ghost predicate IsPendingList(t: Tables, channel: Option<string>, list: seq<Delivery>) {
    && (forall i :: 0 <= i < |list| ==>
          list[i].key in t.outbox && t.outbox[list[i].key] == list[i] && AwaitsDelivery(list[i], channel))
    && (forall i, j :: 0 <= i < j < |list| ==> Precedes(list[i], list[j]))
    && (forall k :: k in t.outbox && AwaitsDelivery(t.outbox[k], channel) ==> t.outbox[k] in list)
  }

  lemma PrecedesIsStrict(a: Delivery, b: Delivery)
    ensures Precedes(a, b) || Precedes(b, a) || a.key == b.key
    ensures !(Precedes(a, b) && Precedes(b, a))
  {
    BeforeIsTotal(a.createdAt, b.createdAt);
    BeforeIsTotal(a.key, b.key);
  }

  lemma PrecedesIsTransitive(a: Delivery, b: Delivery, c: Delivery)
    requires Precedes(a, b) && Precedes(b, c)
    ensures Precedes(a, c)
  {
    if Before(a.createdAt, b.createdAt) && Before(b.createdAt, c.createdAt) {
      BeforeIsTransitive(a.createdAt, b.createdAt, c.createdAt);
    }
    if Before(a.key, b.key) && Before(b.key, c.key) {
      BeforeIsTransitive(a.key, b.key, c.key);
    }
  }
}
