/**
 The bounded quarantine of evidence whose correlation has not committed yet: a queue, the index of the
 identities it holds, and the reconciliations that have taken items out of the queue and not settled them.
 Every event is one critical section, so a run is any interleaving of threads.
 */
module BestShotQuarantine {
  import opened Option
  import opened Text
  import O = OccupancyTables

  datatype Metadata = Metadata(
    camera: string, channel: string, objectId: string, kind: O.EvidenceKind, imageRef: string, plate: string,
      url: string)

  /** A quarantined item with the time at which its evidence was first seen. */
  datatype Item = Item(metadata: Metadata, firstSeen: int) {
    function Key(): string {
      IdentityKey(metadata)
    }
  }

  // ----- the identity key -----

  function KindName(kind: O.EvidenceKind): string {
    match kind
    case VehicleShot => "BESTSHOT_VEHICLE"
    case PlateShot => "BESTSHOT_PLATE"
  }

  /** A text with its length in front. */
  function Field(s: string): string {
    Decimal(|s|) + ":" + s + "|"
  }

  function IdentityKey(m: Metadata): string {
    Field(m.camera) + Field(m.channel) + Field(m.objectId) + Field(KindName(m.kind)) + Field(m.imageRef)
  }

  predicate SameEvidence(a: Metadata, b: Metadata) {
    a.camera == b.camera && a.channel == b.channel && a.objectId == b.objectId && a.kind == b.kind &&
      a.imageRef == b.imageRef
  }

  /** One field can be read off the front of anything. */
  lemma FieldPrefix(a: string, b: string, x: string, y: string)
    requires Field(a) + x == Field(b) + y
    ensures a == b && x == y
  {
    hide Decimal;
    var u, v := a + "|" + x, b + "|" + y;
    assert Field(a) + x == Decimal(|a|) + [':'] + u;
    assert Field(b) + y == Decimal(|b|) + [':'] + v;
    NumeralPrefix(|a|, |b|, ':', u, v);
    assert a == u[..|a|] && b == v[..|b|];
    assert x == u[|a| + 1..] && y == v[|b| + 1..];
  }

  lemma KindNameIsInjective(a: O.EvidenceKind, b: O.EvidenceKind)
    requires KindName(a) == KindName(b)
    ensures a == b
  {
    assert |KindName(O.VehicleShot)| == 16 && |KindName(O.PlateShot)| == 14;
  }

  lemma KeyUnfolds(m: Metadata)
    ensures IdentityKey(m) ==
            Field(m.camera) +
              (Field(m.channel) + (Field(m.objectId) + (Field(KindName(m.kind)) + (Field(m.imageRef) + ""))))
  {
    hide Field, KindName;
  }

  /** Two records have the same key exactly when all five identifying fields agree, whatever text they hold. */
  lemma IdentityKeyIsInjective(a: Metadata, b: Metadata)
    ensures IdentityKey(a) == IdentityKey(b) <==> SameEvidence(a, b)
  {
    if IdentityKey(a) == IdentityKey(b) {
      hide Field, KindName, IdentityKey;
      KeyUnfolds(a);
      KeyUnfolds(b);
      var a4, b4 := Field(a.imageRef) + "", Field(b.imageRef) + "";
      var a3, b3 := Field(KindName(a.kind)) + a4, Field(KindName(b.kind)) + b4;
      var a2, b2 := Field(a.objectId) + a3, Field(b.objectId) + b3;
      var a1, b1 := Field(a.channel) + a2, Field(b.channel) + b2;
      FieldPrefix(a.camera, b.camera, a1, b1);
      FieldPrefix(a.channel, b.channel, a2, b2);
      FieldPrefix(a.objectId, b.objectId, a3, b3);
      FieldPrefix(KindName(a.kind), KindName(b.kind), a4, b4);
      KindNameIsInjective(a.kind, b.kind);
      FieldPrefix(a.imageRef, b.imageRef, "", "");
    }
  }

  method Append(destination: string, value: string) returns (result: string)
    ensures result == destination + Field(value)
  {
    hide Decimal;
    result := destination + Decimal(|value|);
    result := result + ":";
    result := result + value;
    result := result + "|";
  }

  method ExactIdentityKey(m: Metadata) returns (key: string)
    ensures key == IdentityKey(m)
  {
    hide Field, KindName;
    key := "";
    key := Append(key, m.camera);
    key := Append(key, m.channel);
    key := Append(key, m.objectId);
    key := Append(key, KindName(m.kind));
    key := Append(key, m.imageRef);
  }

  // ----- the quarantine -----

  /** The items that one reconciliation still has to settle, and the time it read once it had taken them. */
  datatype Flight = Flight(now: Option<int>, items: seq<Item>)

  const IDLE := Flight(None, [])

  datatype Quarantine = Quarantine(queue: seq<Item>, index: set<string>, flights: seq<Flight>)

  datatype Code =
    | RoutedExternally | Attached | AlreadyAttached | DuplicateInFlight | PendingResult | Ambiguous | Unmatched
    | DownloadFailed | AttachRejected(retryable: bool) | ExpiredPending | InvalidMetadata

  datatype Event =
    | EnqueueCall(item: Item)
    | BeginCall(worker: nat)
    | ClockCall(worker: nat, now: int)
    | SettleCall(worker: nat, code: Code)

  predicate Retries(code: Code) {
    code.PendingResult? || code.DownloadFailed? || (code.AttachRejected? && code.retryable)
  }

  predicate Due(item: Item, now: int, window: int) {
    now - item.firstSeen >= window
  }

  function Enqueue(q: Quarantine, item: Item, capacity: nat): Quarantine {
    if item.Key() in q.index then q
    else if |q.index| < capacity then q.(queue := q.queue + [item], index := q.index + {item.Key()})
    else if q.queue == [] then q
    else
      q.(queue := q.queue[1..] + [item], index := q.index - {q.queue[0].Key()} + {item.Key()})
  }

  /** A worker with nothing left to settle takes the whole queue. */
  function Begin(q: Quarantine, worker: nat): Quarantine {
    if worker >= |q.flights| || q.flights[worker].items != [] then q
    else q.(queue := [], flights := q.flights[worker := Flight(None, q.queue)])
  }

  /** It reads the clock once, outside the lock. */
  function ReadClock(q: Quarantine, worker: nat, now: int): Quarantine {
    if worker >= |q.flights| || q.flights[worker].now.Some? then q
    else q.(flights := q.flights[worker := q.flights[worker].(now := Some(now))])
  }

  /** A worker settles its next item, with the result of processing it. */
  function Settle(q: Quarantine, worker: nat, code: Code, window: int): Quarantine {
    if worker >= |q.flights| || q.flights[worker].items == [] || q.flights[worker].now.None? then q
    else
      var f := q.flights[worker];
      var item, later := f.items[0], q.flights[worker := f.(items := f.items[1..])];
      if !Due(item, f.now.value, window) && Retries(code) then q.(queue := q.queue + [item], flights := later)
      else q.(index := q.index - {item.Key()}, flights := later)
  }

  function Step(q: Quarantine, e: Event, capacity: nat, window: int): Quarantine {
    match e
    case EnqueueCall(item) => Enqueue(q, item, capacity)
    case BeginCall(worker) => Begin(q, worker)
    case ClockCall(worker, now) => ReadClock(q, worker, now)
    case SettleCall(worker, code) => Settle(q, worker, code, window)
  }

  function After(q: Quarantine, run: seq<Event>, capacity: nat, window: int): Quarantine {
    if run == [] then q else Step(After(q, run[..|run| - 1], capacity, window), run[|run| - 1], capacity, window)
  }

  function Empty(workers: nat): Quarantine {
    Quarantine([], {}, seq(workers, _ => IDLE))
  }

  // ----- the index is exact -----

  /** How many of the items carry the key. */
  function Count(items: seq<Item>, key: string): nat {
    if items == [] then 0 else (if items[0].Key() == key then 1 else 0) + Count(items[1..], key)
  }

  function InFlight(flights: seq<Flight>, key: string): nat {
    if flights == [] then 0 else Count(flights[0].items, key) + InFlight(flights[1..], key)
  }

  /** Each identity in the index is held exactly once, in the queue or in one flight; and nothing else is held. */
  ghost predicate Exact(q: Quarantine) {
    forall key :: Count(q.queue, key) + InFlight(q.flights, key) == if key in q.index then 1 else 0
  }

  lemma ExactAt(q: Quarantine, key: string)
    requires Exact(q)
    ensures Count(q.queue, key) + InFlight(q.flights, key) == if key in q.index then 1 else 0
  {
  }

  lemma {:induction false} CountConcat(a: seq<Item>, b: seq<Item>, key: string)
    ensures Count(a + b, key) == Count(a, key) + Count(b, key)
  {
    hide IdentityKey;
    if a == [] {
      assert a + b == b;
    } else {
      assert (a + b)[1..] == a[1..] + b;
      CountConcat(a[1..], b, key);
    }
  }

  lemma {:induction false} FlightChanges(flights: seq<Flight>, w: nat, f: Flight, key: string)
    requires w < |flights|
    ensures InFlight(flights[w := f], key) + Count(flights[w].items, key) == InFlight(flights, key) +
            Count(f.items, key)
  {
    hide Count;
    if w == 0 {
      assert flights[w := f][1..] == flights[1..];
    } else {
      assert flights[w := f][1..] == flights[1..][w - 1 := f];
      FlightChanges(flights[1..], w - 1, f, key);
    }
  }

  lemma {:induction false} IdleHoldNothing(workers: nat, key: string)
    ensures InFlight(seq(workers, _ => IDLE), key) == 0
  {
    if workers > 0 {
      assert seq(workers, _ => IDLE)[1..] == seq(workers - 1, _ => IDLE);
      IdleHoldNothing(workers - 1, key);
    }
  }

  lemma EnqueueKeepsExact(q: Quarantine, item: Item, capacity: nat)
    requires Exact(q) && |q.index| <= capacity
    ensures Exact(Enqueue(q, item, capacity)) && |Enqueue(q, item, capacity).index| <= capacity
  {
    hide IdentityKey, InFlight;
    var q' := Enqueue(q, item, capacity);
    if q' != q {
      var rest := if |q.index| < capacity then q.queue else q.queue[1..];
      if |q.index| >= capacity { ExactAt(q, q.queue[0].Key()); }
      forall key ensures Count(q'.queue, key) + InFlight(q'.flights, key) == if key in q'.index then 1 else 0 {
        ExactAt(q, key);
        CountConcat(rest, [item], key);
      }
    }
  }

  lemma BeginKeepsExact(q: Quarantine, worker: nat)
    requires Exact(q)
    ensures Exact(Begin(q, worker)) && Begin(q, worker).index == q.index
  {
    hide IdentityKey, InFlight;
    var q' := Begin(q, worker);
    if q' != q {
      forall key ensures Count(q'.queue, key) + InFlight(q'.flights, key) == if key in q'.index then 1 else 0 {
        ExactAt(q, key);
        FlightChanges(q.flights, worker, Flight(None, q.queue), key);
      }
    }
  }

  lemma ClockKeepsExact(q: Quarantine, worker: nat, now: int)
    requires Exact(q)
    ensures Exact(ReadClock(q, worker, now)) && ReadClock(q, worker, now).index == q.index
  {
    hide IdentityKey, InFlight;
    var q' := ReadClock(q, worker, now);
    if q' != q {
      forall key ensures Count(q'.queue, key) + InFlight(q'.flights, key) == if key in q'.index then 1 else 0 {
        ExactAt(q, key);
        FlightChanges(q.flights, worker, q.flights[worker].(now := Some(now)), key);
      }
    }
  }

  lemma SettleKeepsExact(q: Quarantine, worker: nat, code: Code, window: int)
    requires Exact(q)
    ensures Exact(Settle(q, worker, code, window)) && |Settle(q, worker, code, window).index| <= |q.index|
  {
    hide IdentityKey, InFlight, Due, Retries;
    if worker < |q.flights| && q.flights[worker].items != [] && q.flights[worker].now.Some? {
      var q' := Settle(q, worker, code, window);
      var f := q.flights[worker];
      var item := f.items[0];
      forall key ensures Count(q'.queue, key) + InFlight(q'.flights, key) == if key in q'.index then 1 else 0 {
        ExactAt(q, key);
        FlightChanges(q.flights, worker, f.(items := f.items[1..]), key);
        CountConcat(q.queue, [item], key);
        InFlightSome(q.flights, worker, key);
      }
    }
  }

  lemma InFlightSome(flights: seq<Flight>, w: nat, key: string)
    requires w < |flights|
    ensures Count(flights[w].items, key) <= InFlight(flights, key)
  {
    FlightChanges(flights, w, IDLE, key);
  }

  /** Under any interleaving of enqueues and reconciliations the index is exact and never exceeds the capacity. */
  lemma {:induction false} IndexIsExact(workers: nat, run: seq<Event>, capacity: nat, window: int)
    ensures var q := After(Empty(workers), run, capacity, window);
            Exact(q) && |q.index| <= capacity
  {
    hide Exact, Settle, Enqueue, Begin, ReadClock;
    if run == [] {
      EmptyIsExact(workers);
    } else {
      var before, e := run[..|run| - 1], run[|run| - 1];
      IndexIsExact(workers, before, capacity, window);
      var q := After(Empty(workers), before, capacity, window);
      match e {
        case EnqueueCall(item) => EnqueueKeepsExact(q, item, capacity);
        case BeginCall(worker) => BeginKeepsExact(q, worker);
        case ClockCall(worker, now) => ClockKeepsExact(q, worker, now);
        case SettleCall(worker, code) => SettleKeepsExact(q, worker, code, window);
      }
    }
  }

  lemma EmptyIsExact(workers: nat)
    ensures Exact(Empty(workers)) && |Empty(workers).index| == 0
  {
    var q := Empty(workers);
    forall key ensures Count(q.queue, key) + InFlight(q.flights, key) == if key in q.index then 1 else 0 {
      IdleHoldNothing(workers, key);
    }
  }

  // ----- an item keeps its first-seen time and leaves in time -----

  predicate Flies(q: Quarantine, item: Item, worker: nat) {
    worker < |q.flights| && item in q.flights[worker].items
  }

  ghost predicate Holds(q: Quarantine, item: Item) {
    item in q.queue || exists w: nat :: Flies(q, item, w)
  }

  lemma {:induction false} ItemCounts(items: seq<Item>, item: Item)
    ensures item in items ==> Count(items, item.Key()) > 0
  {
    hide IdentityKey;
    if items != [] { ItemCounts(items[1..], item); }
  }

  lemma HeldIsIndexed(q: Quarantine, item: Item)
    requires Exact(q) && Holds(q, item)
    ensures item.Key() in q.index
  {
    hide IdentityKey, Count, InFlight;
    ExactAt(q, item.Key());
    if item in q.queue {
      ItemCounts(q.queue, item);
    } else {
      var w: nat :| Flies(q, item, w);
      ItemCounts(q.flights[w].items, item);
      InFlightSome(q.flights, w, item.Key());
    }
  }

  /** A call lets go of an item only together with its identity. */
  lemma LeavesIndex(q: Quarantine, e: Event, item: Item, capacity: nat, window: int)
    requires Exact(q) && Holds(q, item)
    ensures Holds(Step(q, e, capacity, window), item) || item.Key() !in Step(q, e, capacity, window).index
  {
    hide Exact, Count, InFlight, IdentityKey, Due, Retries, Holds, Enqueue, Begin, ReadClock, Settle;
    HeldIsIndexed(q, item);
    match e {
      case EnqueueCall(arrival) => EnqueueDrops(q, item, arrival, capacity);
      case BeginCall(worker) => BeginDropsNothing(q, item, worker);
      case ClockCall(worker, now) => ClockDropsNothing(q, item, worker, now);
      case SettleCall(worker, code) => SettleDrops(q, item, worker, code, window);
    }
  }

  lemma EnqueueDrops(q: Quarantine, item: Item, arrival: Item, capacity: nat)
    requires Holds(q, item) && item.Key() in q.index
    ensures Holds(Enqueue(q, arrival, capacity), item) || item.Key() !in Enqueue(q, arrival, capacity).index
  {
    hide IdentityKey;
    var q' := Enqueue(q, arrival, capacity);
    if item in q.queue {
      assert q.queue == [q.queue[0]] + q.queue[1..];
    } else {
      var w: nat :| Flies(q, item, w);
      assert Flies(q', item, w);
    }
  }

  lemma BeginDropsNothing(q: Quarantine, item: Item, worker: nat)
    requires Holds(q, item)
    ensures Holds(Begin(q, worker), item)
  {
    var q' := Begin(q, worker);
    if q' != q {
      if item in q.queue {
        assert Flies(q', item, worker);
      } else {
        var w: nat :| Flies(q, item, w);
        assert Flies(q', item, w);
      }
    }
  }

  lemma ClockDropsNothing(q: Quarantine, item: Item, worker: nat, now: int)
    requires Holds(q, item)
    ensures Holds(ReadClock(q, worker, now), item)
  {
    if item !in q.queue {
      var w: nat :| Flies(q, item, w);
      assert Flies(ReadClock(q, worker, now), item, w);
    }
  }

  lemma SettleDrops(q: Quarantine, item: Item, worker: nat, code: Code, window: int)
    requires Holds(q, item)
    ensures Holds(Settle(q, worker, code, window), item) || item.Key() !in Settle(q, worker, code, window).index
  {
    hide IdentityKey, Due, Retries;
    var q' := Settle(q, worker, code, window);
    if item !in q.queue && q' != q {
      var w: nat :| Flies(q, item, w);
      var items := q.flights[worker].items;
      assert items == [items[0]] + items[1..];
      if w != worker || item != items[0] { assert Flies(q', item, w); }
    }
  }

  /**
   As long as an identity stays in the index, the item held for it is the very record that was enqueued:
   delivering the evidence again neither replaces it nor moves its first-seen time.
   */
  lemma {:induction false} FirstSeenIsKept(workers: nat, before: seq<Event>, item: Item, later: seq<Event>,
                                           capacity: nat, window: int)
    requires Holds(After(Empty(workers), before, capacity, window), item)
    requires forall n :: 0 <= n <= |later| ==>
               item.Key() in After(Empty(workers), before + later[..n], capacity, window).index
    ensures Holds(After(Empty(workers), before + later, capacity, window), item)
  {
    hide Exact, Holds, Step, IdentityKey;
    if later == [] {
      assert before + later == before;
    } else {
      var init, e := later[..|later| - 1], later[|later| - 1];
      forall n | 0 <= n <= |init|
        ensures item.Key() in After(Empty(workers), before + init[..n], capacity, window).index
      {
        assert init[..n] == later[..n];
      }
      FirstSeenIsKept(workers, before, item, init, capacity, window);
      assert (before + later)[..|before + later| - 1] == before + init;
      IndexIsExact(workers, before + init, capacity, window);
      assert later[..|later|] == later;
      var q := After(Empty(workers), before + init, capacity, window);
      LeavesIndex(q, e, item, capacity, window);
    }
  }

  // ----- leaving at the window's end -----

  /** The item is in a reconciliation that read the clock at or after the end of its window. */
  predicate Doomed(q: Quarantine, item: Item, worker: nat, window: int) {
    Flies(q, item, worker) && q.flights[worker].now.Some? && Due(item, q.flights[worker].now.value, window)
  }

  lemma DoomedStep(q: Quarantine, e: Event, item: Item, worker: nat, capacity: nat, window: int)
    requires Doomed(q, item, worker, window)
    ensures Doomed(Step(q, e, capacity, window), item, worker, window) ||
            item.Key() !in Step(q, e, capacity, window).index
  {
    hide IdentityKey, Retries;
    if e.SettleCall? && e.worker == worker {
      var items := q.flights[worker].items;
      assert items == [items[0]] + items[1..];
    }
  }

  /**
   An item that is queued when a reconciliation begins stays with it until the clock is read, whatever else happens.
   */
  lemma {:induction false} QueuedItemAwaitsClock(q: Quarantine, item: Item, worker: nat, between: seq<Event>,
                                                 capacity: nat, window: int)
    requires item in q.queue && worker < |q.flights| && q.flights[worker].items == []
    requires forall i :: 0 <= i < |between| ==> !(between[i].ClockCall? && between[i].worker == worker)
    ensures var q' := After(Begin(q, worker), between, capacity, window);
            AwaitsClock(q', item, worker)
  {
    hide Step, Flies;
    if between == [] {
      BeginTakesAll(q, item, worker);
    } else {
      var before := between[..|between| - 1];
      QueuedItemAwaitsClock(q, item, worker, before, capacity, window);
      AwaitsClockStep(After(Begin(q, worker), before, capacity, window), between[|between| - 1], item, worker, capacity,
                      window);
    }
  }

  predicate AwaitsClock(q: Quarantine, item: Item, worker: nat) {
    Flies(q, item, worker) && q.flights[worker].now.None?
  }

  lemma BeginTakesAll(q: Quarantine, item: Item, worker: nat)
    requires item in q.queue && worker < |q.flights| && q.flights[worker].items == []
    ensures AwaitsClock(Begin(q, worker), item, worker)
  {
  }

  lemma AwaitsClockStep(q: Quarantine, e: Event, item: Item, worker: nat, capacity: nat, window: int)
    requires AwaitsClock(q, item, worker) && !(e.ClockCall? && e.worker == worker)
    ensures AwaitsClock(Step(q, e, capacity, window), item, worker)
  {
    hide IdentityKey, Due, Retries;
  }

  /**
   An item in a reconciliation that reads the clock at or after the end of the item's window has left the quarantine
   at some point before that reconciliation is through, whatever the processing returned and whoever else runs.
   */
  lemma DueItemLeaves(q: Quarantine, item: Item, worker: nat, now: int, later: seq<Event>, capacity: nat, window: int)
    requires AwaitsClock(q, item, worker) && Due(item, now, window)
    requires !Flies(After(ReadClock(q, worker, now), later, capacity, window), item, worker)
    ensures exists n :: 0 < n <= |later| &&
              item.Key() !in After(ReadClock(q, worker, now), later[..n], capacity, window).index
  {
    hide After, IdentityKey;
    AfterNothing(ReadClock(q, worker, now), capacity, window);
    DoomedUntilOut(ReadClock(q, worker, now), item, worker, later, capacity, window);
  }

  lemma AfterNothing(q: Quarantine, capacity: nat, window: int)
    ensures After(q, [], capacity, window) == q
  {
  }

  lemma {:induction false} DoomedUntilOut(q: Quarantine, item: Item, worker: nat, later: seq<Event>, capacity: nat,
                                          window: int)
    requires Doomed(q, item, worker, window)
    requires !Doomed(After(q, later, capacity, window), item, worker, window)
    ensures exists n :: 0 < n <= |later| && item.Key() !in After(q, later[..n], capacity, window).index
  {
    hide Step, IdentityKey, Doomed;
    if later != [] {
      var init, e := later[..|later| - 1], later[|later| - 1];
      if Doomed(After(q, init, capacity, window), item, worker, window) {
        DoomedStep(After(q, init, capacity, window), e, item, worker, capacity, window);
        assert later[..|later|] == later;
      } else {
        DoomedUntilOut(q, item, worker, init, capacity, window);
        var n :| 0 < n <= |init| && item.Key() !in After(q, init[..n], capacity, window).index;
        assert init[..n] == later[..n];
      }
    }
  }

  // ----- one item for each piece of evidence -----

  lemma {:induction false} TwoCount(items: seq<Item>, a: Item, b: Item)
    requires a in items && b in items && a != b && a.Key() == b.Key()
    ensures Count(items, a.Key()) >= 2
  {
    hide IdentityKey;
    if items[0] == a {
      ItemCounts(items[1..], b);
    } else if items[0] == b {
      ItemCounts(items[1..], a);
    } else {
      TwoCount(items[1..], a, b);
    }
  }

  lemma TwoFlights(flights: seq<Flight>, v: nat, w: nat, key: string)
    requires v < |flights| && w < |flights| && v != w
    ensures Count(flights[v].items, key) + Count(flights[w].items, key) <= InFlight(flights, key)
  {
    FlightChanges(flights, v, IDLE, key);
    InFlightSome(flights[v := IDLE], w, key);
  }

  /** In every reachable state two held items about the same evidence are one and the same, held in one place. */
  lemma OneItemPerEvidence(workers: nat, run: seq<Event>, a: Item, b: Item, capacity: nat, window: int)
    requires var q := After(Empty(workers), run, capacity, window);
             Holds(q, a) && Holds(q, b) && SameEvidence(a.metadata, b.metadata)
    ensures a == b
    ensures var q := After(Empty(workers), run, capacity, window);
            && (a in q.queue ==> forall w: nat :: !Flies(q, a, w))
            && (forall v: nat, w: nat :: Flies(q, a, v) && Flies(q, a, w) ==> v == w)
  {
    IndexIsExact(workers, run, capacity, window);
    IdentityKeyIsInjective(a.metadata, b.metadata);
    hide IdentityKey, Count, InFlight, Exact, After;
    var q := After(Empty(workers), run, capacity, window);
    ExactAt(q, a.Key());
    OnePlace(q, a, b);
    OnePlace(q, a, a);
  }

  lemma OnePlace(q: Quarantine, a: Item, b: Item)
    requires Count(q.queue, a.Key()) + InFlight(q.flights, a.Key()) <= 1
    requires Holds(q, a) && Holds(q, b) && a.Key() == b.Key()
    ensures a == b
    ensures a in q.queue ==> forall w: nat :: !Flies(q, b, w)
    ensures forall v: nat, w: nat :: Flies(q, a, v) && Flies(q, b, w) ==> v == w
  {
    hide IdentityKey, Count, InFlight;
    var key := a.Key();
    ItemCounts(q.queue, a);
    ItemCounts(q.queue, b);
    if a in q.queue && b in q.queue && a != b { TwoCount(q.queue, a, b); }
    forall w: nat | w < |q.flights|
      ensures Flies(q, a, w) || Flies(q, b, w) ==> Count(q.queue, key) == 0
      ensures Flies(q, a, w) && Flies(q, b, w) ==> a == b
    {
      InFlightSome(q.flights, w, key);
      ItemCounts(q.flights[w].items, a);
      ItemCounts(q.flights[w].items, b);
      if Flies(q, a, w) && Flies(q, b, w) && a != b { TwoCount(q.flights[w].items, a, b); }
    }
    forall v: nat, w: nat | Flies(q, a, v) && Flies(q, b, w) ensures v == w {
      ItemCounts(q.flights[v].items, a);
      ItemCounts(q.flights[w].items, b);
      if v != w { TwoFlights(q.flights, v, w, key); }
    }
  }

  // ----- what a full quarantine holds -----

  function Keys(items: seq<Item>): set<string> {
    set i | 0 <= i < |items| :: items[i].Key()
  }

  predicate Different(items: seq<Item>) {
    forall i, j :: 0 <= i < j < |items| ==> items[i].Key() != items[j].Key()
  }

  lemma {:induction false} AsManyKeys(items: seq<Item>)
    requires Different(items)
    ensures |Keys(items)| == |items|
  {
    hide IdentityKey;
    if items != [] {
      var init, last := items[..|items| - 1], items[|items| - 1];
      DifferentPart(items, 0, |items| - 1);
      assert items == init + [last];
      AsManyKeys(init);
      KeysSnoc(init, last);
      NewKey(init, last);
    }
  }

  function Enqueues(items: seq<Item>): seq<Event> {
    seq(|items|, i requires 0 <= i < |items| => EnqueueCall(items[i]))
  }

  /** The newest items, as many as the capacity. */
  function Newest(items: seq<Item>, capacity: nat): seq<Item> {
    if |items| <= capacity then items else items[|items| - capacity..]
  }

  lemma OneMoreHeld(items: seq<Item>, item: Item, capacity: nat, workers: nat)
    requires Different(items + [item]) && capacity > 0
    ensures var held := Newest(items, capacity);
            var q := Quarantine(held, Keys(held), seq(workers, _ => IDLE));
            var held' := Newest(items + [item], capacity);
            Enqueue(q, item, capacity) == Quarantine(held', Keys(held'), seq(workers, _ => IDLE))
  {
    hide IdentityKey, Keys, Different;
    var held, held' := Newest(items, capacity), Newest(items + [item], capacity);
    NewKey(items, item);
    DifferentPart(items + [item], |items| - |held|, |items|);
    assert held == (items + [item])[|items| - |held|..|items|];
    KeysPart(items, |items| - |held|);
    AsManyKeys(held);
    if |items| < capacity {
      assert held' == held + [item];
      KeysSnoc(held, item);
    } else {
      assert held' == held[1..] + [item] && held == [held[0]] + held[1..];
      KeysSnoc(held[1..], item);
      FirstKeyGoes(held);
    }
  }

  lemma NewKey(items: seq<Item>, item: Item)
    requires Different(items + [item])
    ensures item.Key() !in Keys(items)
  {
    hide IdentityKey;
    forall i | 0 <= i < |items| ensures items[i].Key() != item.Key() {
      assert (items + [item])[i] == items[i] && (items + [item])[|items|] == item;
    }
  }

  lemma DifferentPart(items: seq<Item>, i: nat, j: nat)
    requires Different(items) && i <= j <= |items|
    ensures Different(items[i..j])
  {
    hide IdentityKey;
    forall a, b | 0 <= a < b < j - i ensures items[i..j][a].Key() != items[i..j][b].Key() {
      assert items[i + a].Key() != items[i + b].Key();
    }
  }

  lemma KeysPart(items: seq<Item>, i: nat)
    requires i <= |items|
    ensures Keys(items[i..]) <= Keys(items)
  {
    hide IdentityKey;
    forall k | k in Keys(items[i..]) ensures k in Keys(items) {
      var a :| 0 <= a < |items[i..]| && items[i..][a].Key() == k;
      assert items[i + a].Key() == k;
    }
  }

  lemma KeysSnoc(items: seq<Item>, item: Item)
    ensures Keys(items + [item]) == Keys(items) + {item.Key()}
  {
    hide IdentityKey;
    var all := items + [item];
    assert all[|items|] == item;
    forall i | 0 <= i < |items| ensures items[i].Key() in Keys(all) { assert all[i] == items[i]; }
  }

  lemma FirstKeyGoes(items: seq<Item>)
    requires items != [] && Different(items)
    ensures Keys(items[1..]) == Keys(items) - {items[0].Key()}
  {
    hide IdentityKey;
    forall i | 0 < i < |items| ensures items[i].Key() in Keys(items[1..]) && items[i].Key() != items[0].Key() {
      assert items[1..][i - 1] == items[i];
    }
  }

  /**
   As long as nothing is reconciled, the quarantine holds the newest pieces of evidence, as many as it has room for.
   */
  lemma {:induction false} NewestAreHeld(workers: nat, items: seq<Item>, capacity: nat, window: int)
    requires Different(items) && capacity > 0
    ensures After(Empty(workers), Enqueues(items), capacity, window) ==
            Quarantine(Newest(items, capacity), Keys(Newest(items, capacity)), seq(workers, _ => IDLE))
  {
    hide Enqueue, IdentityKey;
    if items != [] {
      var init, last := items[..|items| - 1], items[|items| - 1];
      DifferentPart(items, 0, |items| - 1);
      NewestAreHeld(workers, init, capacity, window);
      assert items == init + [last] && Enqueues(items)[..|items| - 1] == Enqueues(init);
      OneMoreHeld(init, last, capacity, workers);
    } else {
      assert Keys([]) == {};
    }
  }

  /** New evidence is turned away only when every place is taken by evidence in flight. */
  lemma TurnedAwayExactlyWhen(q: Quarantine, item: Item, capacity: nat)
    ensures item.Key() in Enqueue(q, item, capacity).index <==>
              item.Key() in q.index || |q.index| < capacity || q.queue != []
    ensures item.Key() in q.index ==> Enqueue(q, item, capacity) == q
  {
    hide IdentityKey;
  }

  // ----- one reconciliation on its own -----

  function Result(item: Item, now: int, process: Item -> Code, window: int): Code {
    if Due(item, now, window) then ExpiredPending else process(item)
  }

  /** Everything one reconciliation does when no other thread comes in between. */
  function Drain(q: Quarantine, process: Item -> Code, window: int): Quarantine
    requires q.flights != [] && q.flights[0].now.Some?
    decreases |q.flights[0].items|
  {
    var items := q.flights[0].items;
    if items == [] then q else Drain(Settle(q, 0, process(items[0]), window), process, window)
  }

  function Kept(items: seq<Item>, now: int, process: Item -> Code, window: int): seq<Item> {
    if items == [] then []
    else
      (if Retries(Result(items[0], now, process, window)) then [items[0]] else []) +
        Kept(items[1..], now, process, window)
  }

  /** A reconciliation puts back, in order, exactly the items that are not due and are to be tried again. */
  lemma {:induction false} DrainKeeps(q: Quarantine, process: Item -> Code, window: int)
    requires q.flights != [] && q.flights[0].now.Some?
    ensures Drain(q, process, window).queue == q.queue +
            Kept(q.flights[0].items, q.flights[0].now.value, process, window)
    decreases |q.flights[0].items|
  {
    hide IdentityKey, Due, Item.Key;
    var items := q.flights[0].items;
    if items != [] {
      DrainKeeps(Settle(q, 0, process(items[0]), window), process, window);
    }
  }

  lemma {:induction false} KeptMembers(items: seq<Item>, now: int, process: Item -> Code, window: int)
    ensures forall item :: item in Kept(items, now, process, window) <==>
              && item in items && now - item.firstSeen < window
              && (process(item) == PendingResult || process(item) == DownloadFailed ||
                  process(item) == AttachRejected(true))
  {
    if items != [] { KeptMembers(items[1..], now, process, window); }
  }

  class Receiver {
    var queue: seq<Item>
    var index: set<string>
    const capacity: nat
    const window: int

    constructor (requested: nat, window: int)
      ensures Value(seq(1, _ => IDLE)) == Empty(1)
      ensures this.window == window && capacity == if requested == 0 then 1 else requested
    {
      queue, index := [], {};
      capacity := if requested == 0 then 1 else requested;
      this.window := window;
    }

    function Value(flights: seq<Flight>): Quarantine
      reads this
    {
      Quarantine(queue, index, flights)
    }

    method EnqueuePending(item: Item) returns (queued: bool)
      modifies this
      ensures forall flights :: Value(flights) == Enqueue(old(Value(flights)), item, capacity)
      ensures queued <==> item.Key() !in old(index) && item.Key() in index
    {
      hide IdentityKey;
      if item.Key() in index { return false; }
      if |index| >= capacity {
        if queue == [] { return false; }
        index := index - {queue[0].Key()};
        queue := queue[1..];
      }
      index := index + {item.Key()};
      queue := queue + [item];
      queued := true;
    }

    /** Re-resolve everything queued; `process` stands for the resolution, download and attachment of one item. */
    method ReconcilePending(now: int, process: Item -> Code) returns (results: seq<Code>)
      modifies this
      ensures Value([Flight(Some(now), [])]) == Drain(ReadClock(Begin(old(Value([IDLE])), 0), 0, now), process, window)
      ensures |results| == |old(queue)|
      ensures forall i :: 0 <= i < |results| ==> results[i] == Result(old(queue)[i], now, process, window)
    {
      hide IdentityKey, Retries, Due, Drain, Begin, ReadClock;
      DrainStarts(queue, index, now);
      var pending := queue;
      assert pending[0..] == pending;
      queue := [];
      results := [];
      ghost var all := Drain(Value([Flight(Some(now), pending)]), process, window);
      for i := 0 to |pending|
        invariant |results| == i
        invariant forall k :: 0 <= k < i ==> results[k] == Result(pending[k], now, process, window)
        invariant Drain(Value([Flight(Some(now), pending[i..])]), process, window) == all
      {
        var item := pending[i];
        assert pending[i..][0] == item && pending[i..][1..] == pending[i + 1..];
        DrainOne(Value([Flight(Some(now), pending[i..])]), process, window);
        if Due(item, now, window) {
          index := index - {item.Key()};
          results := results + [ExpiredPending];
        } else {
          var code := process(item);
          if Retries(code) {
            queue := queue + [item];
          } else {
            index := index - {item.Key()};
          }
          results := results + [code];
        }
      }
      assert pending[|pending|..] == [];
      DrainEnds(queue, index, now, process, window);
    }
  }

  lemma DrainStarts(queue: seq<Item>, index: set<string>, now: int)
    ensures ReadClock(Begin(Quarantine(queue, index, [IDLE]), 0), 0, now) ==
            Quarantine([], index, [Flight(Some(now), queue)])
  {
    assert [IDLE][0 := Flight(None, queue)][0 := Flight(Some(now), queue)] == [Flight(Some(now), queue)];
  }

  lemma DrainEnds(queue: seq<Item>, index: set<string>, now: int, process: Item -> Code, window: int)
    ensures var q := Quarantine(queue, index, [Flight(Some(now), [])]); Drain(q, process, window) == q
  {
  }

  lemma DrainOne(q: Quarantine, process: Item -> Code, window: int)
    requires |q.flights| == 1 && q.flights[0].items != [] && q.flights[0].now.Some?
    ensures var f := q.flights[0];
            var item, later := f.items[0], [Flight(f.now, f.items[1..])];
            Drain(q, process, window) ==
            if !Due(item, f.now.value, window) && Retries(process(item))
            then Drain(Quarantine(q.queue + [item], q.index, later), process, window)
            else Drain(Quarantine(q.queue, q.index - {item.Key()}, later), process, window)
  {
    hide IdentityKey;
    assert q.flights[0 := Flight(q.flights[0].now, q.flights[0].items[1..])] ==
           [Flight(q.flights[0].now, q.flights[0].items[1..])];
  }
}
