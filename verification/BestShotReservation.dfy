/**
 The reservation that keeps two threads from downloading and attaching the same evidence of the same correlation
 at once: a shared set of identities, entered by whoever comes first and left when that one's scope ends.
 */
module BestShotReservation {
  import opened BestShotQuarantine

  function ReservationKey(correlation: string, m: Metadata): string {
    Field(correlation) + IdentityKey(m)
  }

  /** Reservations clash exactly when correlation and evidence are the same, whatever text they hold. */
  lemma ReservationKeyIsInjective(c: string, a: Metadata, d: string, b: Metadata)
    ensures ReservationKey(c, a) == ReservationKey(d, b) <==> c == d && SameEvidence(a, b)
  {
    hide Field, IdentityKey;
    IdentityKeyIsInjective(a, b);
    if ReservationKey(c, a) == ReservationKey(d, b) {
      FieldPrefix(c, d, IdentityKey(a), IdentityKey(b));
    }
  }

  /** The shared set, and what each thread that acquired a reservation holds. */
  datatype Reservations = Reservations(identities: set<string>, holders: map<nat, string>)

  datatype Action = Enter(thread: nat, key: string) | Leave(thread: nat)

  function Do(r: Reservations, a: Action): Reservations {
    match a
    case Enter(thread, key) =>
      if thread in r.holders || key in r.identities then r
      else Reservations(r.identities + {key}, r.holders[thread := key])
    case Leave(thread) =>
      if thread !in r.holders then r
      else Reservations(r.identities - {r.holders[thread]}, r.holders - {thread})
  }

  function Done(run: seq<Action>): Reservations {
    if run == [] then Reservations({}, map[]) else Do(Done(run[..|run| - 1]), run[|run| - 1])
  }

  /** The set is what the holders hold, each identity held once. */
  ghost predicate Balanced(r: Reservations) {
    && (forall key :: key in r.identities <==> exists w :: w in r.holders && r.holders[w] == key)
    && (forall v, w | v in r.holders && w in r.holders :: r.holders[v] == r.holders[w] ==> v == w)
  }

  lemma DoKeepsBalance(r: Reservations, a: Action)
    requires Balanced(r)
    ensures Balanced(Do(r, a))
  {
    var r' := Do(r, a);
    forall key ensures key in r'.identities <==> exists w :: w in r'.holders && r'.holders[w] == key {
      if key in r'.identities {
        if a.Enter? && key == a.key && r' != r {
          assert r'.holders[a.thread] == key;
        } else {
          var w :| w in r.holders && r.holders[w] == key;
          assert w in r'.holders && r'.holders[w] == key;
        }
      }
    }
  }

  /** Over any interleaving of threads the set is exactly what is held, so it never leaks an identity. */
  lemma {:induction false} AlwaysBalanced(run: seq<Action>)
    ensures Balanced(Done(run))
  {
    if run != [] {
      hide Balanced;
      AlwaysBalanced(run[..|run| - 1]);
      DoKeepsBalance(Done(run[..|run| - 1]), run[|run| - 1]);
    }
  }

  /** No two threads ever hold a reservation for the same evidence of the same correlation. */
  lemma OneHolder(run: seq<Action>, v: nat, w: nat, c: string, a: Metadata, d: string, b: Metadata)
    requires v in Done(run).holders && Done(run).holders[v] == ReservationKey(c, a)
    requires w in Done(run).holders && Done(run).holders[w] == ReservationKey(d, b)
    requires c == d && SameEvidence(a, b)
    ensures v == w
  {
    hide Done, ReservationKey;
    AlwaysBalanced(run);
    ReservationKeyIsInjective(c, a, d, b);
  }

  // ----- the reservation object -----

  /** The receiver's set of identities in flight. */
  class InFlightIndex {
    var identities: set<string>

    constructor ()
      ensures identities == {}
    {
      identities := {};
    }
  }

  class InFlightReservation {
    const shared: InFlightIndex
    const identity: string
    const acquired: bool

    constructor (shared: InFlightIndex, identity: string)
      modifies shared
      ensures this.shared == shared && this.identity == identity
      ensures acquired == (identity !in old(shared.identities))
      ensures shared.identities == old(shared.identities) + {identity}
      ensures forall holders, thread :: thread !in holders ==>
                Do(Reservations(old(shared.identities), holders), Enter(thread, identity)).identities ==
                  shared.identities
    {
      this.shared, this.identity := shared, identity;
      acquired := identity !in shared.identities;
      new;
      shared.identities := shared.identities + {identity};
    }

    /** The end of the reservation's scope. */
    method Close()
      modifies shared
      ensures shared.identities == old(shared.identities) - if acquired then {identity} else {}
    {
      if !acquired { return; }
      shared.identities := shared.identities - {identity};
    }
  }
}
