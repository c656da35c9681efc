/**
 The sequence policy that Hall and Fire sensors share: which facts a cursor accepts,
 and how an accepted fact moves it.

 A boot-epoch sensor names the boot it is in. Opening a new boot retires the previous
 one for ever; a legacy sensor has only a counter, and a large drop of it counts as a reboot.
 */
module SensorSequence {
  import opened Option

  /** A legacy counter that falls by more than this is taken for a rebooted sensor. */
  const REBOOT_DROP_THRESHOLD: nat := 1000

  datatype Protocol = LegacyV1 | BootEpochV2

  datatype Mode = Unseen | Legacy | Versioned

  datatype Cursor = Cursor(mode: Mode, activeBoot: Option<string>, last: Option<nat>, retired: set<string>)

  datatype Fact = Fact(protocol: Protocol, boot: Option<string>, sequence: Option<nat>)

  datatype Decision = Accept | Duplicate | Stale | LegacyDowngrade | RetiredBootId | Invalid

  const EMPTY := Cursor(Unseen, None, None, {})

  function Evaluate(c: Cursor, f: Fact): Decision {
    match f.protocol
    case LegacyV1 => EvaluateLegacy(c, f)
    case BootEpochV2 => EvaluateVersioned(c, f)
  }

  function EvaluateLegacy(c: Cursor, f: Fact): Decision {
    if f.boot.Some? && f.boot.value != "" then Invalid
    else if c.mode.Versioned? then LegacyDowngrade
    else if f.sequence.None? || c.mode.Unseen? || c.last.None? then Accept
    else if f.sequence.value == c.last.value then Duplicate
    else if f.sequence.value < c.last.value then
      if c.last.value - f.sequence.value > REBOOT_DROP_THRESHOLD then Accept else Stale
    else Accept
  }

  function EvaluateVersioned(c: Cursor, f: Fact): Decision {
    if f.boot.None? || f.boot.value == "" || f.sequence.None? then Invalid
    else if f.boot.value in c.retired then RetiredBootId
    else if !c.mode.Versioned? then Accept
    else if c.activeBoot.None? || c.activeBoot.value == "" || c.last.None? then Invalid
    else if f.boot.value != c.activeBoot.value then Accept
    else if f.sequence.value == c.last.value then Duplicate
    else if f.sequence.value < c.last.value then Stale
    else Accept
  }

  predicate Accepts(c: Cursor, f: Fact) {
    Evaluate(c, f).Accept?
  }

  predicate RetiresActive(c: Cursor, f: Fact) {
    c.mode.Versioned? && c.activeBoot.Some? && f.boot.Some? && c.activeBoot.value != f.boot.value
  }

  function Committed(c: Cursor, f: Fact): Cursor {
    match f.protocol
    case LegacyV1 =>
      Cursor(Legacy, None, if f.sequence.Some? then f.sequence else c.last, c.retired)
    case BootEpochV2 =>
      Cursor(Versioned, f.boot, f.sequence,
             if RetiresActive(c, f) then c.retired + {c.activeBoot.value} else c.retired)
  }

  /** One fact offered to a cursor: committed when accepted, ignored otherwise. */
  function Offer(c: Cursor, f: Fact): Cursor {
    if Accepts(c, f) then Committed(c, f) else c
  }

  function Replay(c: Cursor, facts: seq<Fact>): Cursor {
    if facts == [] then c else Offer(Replay(c, facts[..|facts| - 1]), facts[|facts| - 1])
  }

  /** What every cursor grown from the empty one satisfies. */
  predicate WellFormed(c: Cursor) {
    && "" !in c.retired
    && (c.mode.Versioned? ==>
          && c.activeBoot.Some? && c.last.Some?
          && c.activeBoot.value != "" && c.activeBoot.value !in c.retired)
    && (!c.mode.Versioned? ==> c.retired == {} && c.activeBoot.None?)
    && (c.mode.Unseen? ==> c.last.None?)
  }

  lemma OfferKeepsWellFormed(c: Cursor, f: Fact)
    requires WellFormed(c)
    ensures WellFormed(Offer(c, f))
    ensures c.retired <= Offer(c, f).retired
    ensures c.mode.Versioned? ==> Offer(c, f).mode.Versioned?
  {
  }

  /** The active boot is never a retired one, and versioned mode is never left. */
  lemma {:induction false} ReplayKeepsWellFormed(c: Cursor, facts: seq<Fact>)
    requires WellFormed(c)
    ensures WellFormed(Replay(c, facts))
    ensures c.retired <= Replay(c, facts).retired
    ensures c.mode.Versioned? ==> Replay(c, facts).mode.Versioned?
  {
    if facts != [] {
      ReplayKeepsWellFormed(c, facts[..|facts| - 1]);
      OfferKeepsWellFormed(Replay(c, facts[..|facts| - 1]), facts[|facts| - 1]);
    }
  }

  /** A boot-epoch fact refused once is refused for ever after. */
  lemma {:induction false} RejectionIsForEver(c: Cursor, f: Fact, later: seq<Fact>)
    requires WellFormed(c) && f.protocol.BootEpochV2? && !Accepts(c, f)
    ensures !Accepts(Replay(c, later), f)
  {
    if later != [] {
      var before := later[..|later| - 1];
      RejectionIsForEver(c, f, before);
      ReplayKeepsWellFormed(c, before);
    }
  }

  /** A committed boot-epoch fact is never accepted again, whatever arrives in between. */
  lemma {:induction false} CommittedFactIsNeverAcceptedAgain(c: Cursor, f: Fact, later: seq<Fact>)
    requires WellFormed(c) && f.protocol.BootEpochV2? && Accepts(c, f)
    ensures !Accepts(Replay(Committed(c, f), later), f)
  {
    OfferKeepsWellFormed(c, f);
    RejectionIsForEver(Committed(c, f), f, later);
  }

  /**
   A sequenced legacy fact, heard before or not, is accepted exactly when the counter rose past or fell far enough
   from it.
   */
  lemma LegacyRepeatsExactlyWhen(c: Cursor, f: Fact)
    requires WellFormed(c) && f.protocol.LegacyV1? && f.boot.GetOr("") == "" && f.sequence.Some?
    ensures Accepts(c, f) <==>
              && !c.mode.Versioned?
              && (c.last.None? || c.last.value < f.sequence.value || c.last.value - f.sequence.value > 1000)
  {
  }

  // ----- the decision, over the history alone -----

  function Before(h: seq<Fact>): seq<Fact>
    requires h != []
  {
    h[..|h| - 1]
  }

  /** The last boot-epoch fact that was accepted. */
  function LastEpochFact(h: seq<Fact>): Option<Fact> {
    if h == [] then None
    else
      var f := h[|h| - 1];
      if f.protocol == BootEpochV2 && Accepts(Replay(EMPTY, Before(h)), f) then Some(f) else LastEpochFact(Before(h))
  }

  /** The boots of all boot-epoch facts that were accepted. */
  function AcceptedBoots(h: seq<Fact>): set<string> {
    if h == [] then {}
    else
      var f := h[|h| - 1];
      AcceptedBoots(Before(h)) +
      if f.protocol == BootEpochV2 && f.boot.Some? && Accepts(Replay(EMPTY, Before(h)), f) then {f.boot.value} else {}
  }

  /** The counter of the last sequenced legacy fact that was accepted. */
  function LastCounter(h: seq<Fact>): Option<nat> {
    if h == [] then None
    else
      var f := h[|h| - 1];
      if f.protocol == LegacyV1 && f.sequence.Some? && Accepts(Replay(EMPTY, Before(h)), f) then f.sequence
      else LastCounter(Before(h))
  }

  /** What a cursor that has heard the history holds of it. */
  lemma {:induction false} ReplayHolds(h: seq<Fact>)
    ensures var c, last := Replay(EMPTY, h), LastEpochFact(h);
            if last.Some?
            then && last.value.boot.Some? && last.value.sequence.Some? && last.value.boot.value != ""
                 && c == Cursor(Versioned, last.value.boot, last.value.sequence,
                                AcceptedBoots(h) - {last.value.boot.value})
                 && last.value.boot.value in AcceptedBoots(h)
            else c.retired == {} == AcceptedBoots(h) && !c.mode.Versioned? && c.last == LastCounter(h)
                 && (c.last.Some? ==> c.mode == Legacy)
  {
    if h != [] { ReplayHolds(Before(h)); }
  }

  /**
   A boot-epoch fact is accepted exactly when its boot was never accepted before, or is the current one and its number
   is higher than the last; a lower one is stale, the same a duplicate, and a boot given up for another is retired.
   */
  lemma EpochFactDecided(h: seq<Fact>, f: Fact)
    requires f.protocol == BootEpochV2 && f.boot.GetOr("") != "" && f.sequence.Some?
    ensures var d, last := Evaluate(Replay(EMPTY, h), f), LastEpochFact(h);
            var current := last.Some? && last.value.boot == f.boot;
            && (current ==> last.value.sequence.Some?)
            && (d == Accept <==>
                  f.boot.value !in AcceptedBoots(h) || (current && last.value.sequence.value < f.sequence.value))
            && (d == Stale <==> current && f.sequence.value < last.value.sequence.value)
            && (d == Duplicate <==> current && f.sequence == last.value.sequence)
            && (d == RetiredBootId <==> f.boot.value in AcceptedBoots(h) && !current)
  {
    ReplayHolds(h);
    hide Replay, LastEpochFact, AcceptedBoots, LastCounter;
  }

  /** A boot-epoch fact without boot or number makes no sense; neither does a legacy fact with a boot. */
  lemma InvalidExactlyWhen(h: seq<Fact>, f: Fact)
    ensures Evaluate(Replay(EMPTY, h), f) == Invalid <==>
              if f.protocol == BootEpochV2 then f.boot.GetOr("") == "" || f.sequence.None? else f.boot.GetOr("") != ""
  {
    ReplayHolds(h);
    hide Replay, LastEpochFact, AcceptedBoots, LastCounter;
  }

  /**
   A legacy fact is a downgrade once a boot-epoch fact was accepted; before that an unsequenced one is always accepted,
   and a sequenced one by how its number lies to the last counter.
   */
  lemma LegacyFactDecided(h: seq<Fact>, f: Fact)
    requires f.protocol == LegacyV1 && f.boot.GetOr("") == ""
    ensures var d, last := Evaluate(Replay(EMPTY, h), f), LastCounter(h);
            && (d == LegacyDowngrade <==> LastEpochFact(h).Some?)
            && (LastEpochFact(h).None? && (f.sequence.None? || last.None?) ==> d == Accept)
            && (LastEpochFact(h).None? && f.sequence.Some? && last.Some? ==>
                  d == if f.sequence.value == last.value then Duplicate
                       else if f.sequence.value < last.value <= f.sequence.value + 1000 then Stale
                       else Accept)
  {
    ReplayHolds(h);
    hide Replay, LastEpochFact, AcceptedBoots, LastCounter;
  }

  /** So unlike a boot-epoch fact a legacy one may repeat: counter 5, then 2000, then 5 again. */
  lemma LegacyFactsMayRepeat()
    ensures var five, high := Fact(LegacyV1, None, Some(5)), Fact(LegacyV1, None, Some(2000));
            && Accepts(EMPTY, five) && Accepts(Replay(EMPTY, [five]), high) &&
               Accepts(Replay(EMPTY, [five, high]), five)
  {
    var five, high := Fact(LegacyV1, None, Some(5)), Fact(LegacyV1, None, Some(2000));
    assert [five, high][..1] == [five] && [five][..0] == [];
    assert Replay(EMPTY, [five]) == Cursor(Legacy, None, Some(5), {});
    assert Replay(EMPTY, [five, high]) == Cursor(Legacy, None, Some(2000), {});
  }

  // ----- the accepted boot-epoch facts of a whole history -----

  datatype Epoch = Epoch(boot: string, sequence: nat)

  /** The boot-epoch facts that a history commits, in order. */
  function AcceptedEpochs(c: Cursor, facts: seq<Fact>): seq<Epoch> {
    if facts == [] then []
    else
      var before := Replay(c, facts[..|facts| - 1]);
      var f := facts[|facts| - 1];
      AcceptedEpochs(c, facts[..|facts| - 1]) +
      if f.protocol.BootEpochV2? && Accepts(before, f) then [Epoch(f.boot.value, f.sequence.value)] else []
  }

  /** Boots come in consecutive runs that never return, and each run's sequence numbers strictly increase. */
  ghost predicate ConsecutiveEpochs(es: seq<Epoch>) {
    forall i, j {:trigger es[i], es[j]} :: 0 <= i < j < |es| && es[i].boot == es[j].boot ==>
      && es[i].sequence < es[j].sequence
      && forall k {:trigger es[k]} :: i <= k <= j ==> es[k].boot == es[i].boot
  }

  /** How the cursor remembers the facts committed so far. */
  ghost predicate Remembers(c: Cursor, es: seq<Epoch>) {
    && (es != [] ==> c.mode.Versioned? && c.activeBoot == Some(es[|es| - 1].boot) &&
                     c.last == Some(es[|es| - 1].sequence))
    && (es == [] ==> !c.mode.Versioned?)
    && forall i {:trigger es[i]} :: 0 <= i < |es| ==>
         es[i].boot == es[|es| - 1].boot || es[i].boot in c.retired
  }

  /** From the empty cursor, committed boot-epoch facts form consecutive epochs with distinct boots. */
  lemma {:induction false} AcceptedEpochsAreConsecutive(facts: seq<Fact>)
    ensures ConsecutiveEpochs(AcceptedEpochs(EMPTY, facts))
    ensures Remembers(Replay(EMPTY, facts), AcceptedEpochs(EMPTY, facts))
  {
    if facts != [] {
      var init, f := facts[..|facts| - 1], facts[|facts| - 1];
      AcceptedEpochsAreConsecutive(init);
      ReplayKeepsWellFormed(EMPTY, init);
      AppendKeepsEpochs(Replay(EMPTY, init), AcceptedEpochs(EMPTY, init), f);
    }
  }

  lemma AppendKeepsEpochs(c: Cursor, es: seq<Epoch>, f: Fact)
    requires WellFormed(c) && ConsecutiveEpochs(es) && Remembers(c, es)
    ensures var es' := es + if f.protocol.BootEpochV2? && Accepts(c, f)
                            then [Epoch(f.boot.value, f.sequence.value)] else [];
            ConsecutiveEpochs(es') && Remembers(Offer(c, f), es')
  {
    if f.protocol.BootEpochV2? && Accepts(c, f) {
      var es' := es + [Epoch(f.boot.value, f.sequence.value)];
      forall i, j | 0 <= i < j < |es'| && es'[i].boot == es'[j].boot
        ensures es'[i].sequence < es'[j].sequence
        ensures forall k {:trigger es'[k]} :: i <= k <= j ==> es'[k].boot == es'[i].boot
      {
        if j == |es| {
          assert es'[i] == es[i];
          if i < |es| - 1 { assert es[|es| - 1].boot == es[i].boot; }
        }
      }
    }
  }

  // ----- the cursors as the stores persist them -----

  /** The Hall store commits a fact only when it carries a sequence number. */
  function HallCommitted(c: Cursor, f: Fact): Cursor {
    if f.sequence.None? then c else Committed(c, f)
  }

  function HallReplay(c: Cursor, facts: seq<Fact>): Cursor {
    if facts == [] then c
    else
      var before := HallReplay(c, facts[..|facts| - 1]);
      var f := facts[|facts| - 1];
      if Accepts(before, f) then HallCommitted(before, f) else before
  }

  /** The persisted Hall cursor lags only in not having noticed unsequenced legacy facts. */
  predicate HallAgrees(memory: Cursor, stored: Cursor) {
    || stored == memory
    || (stored == EMPTY && memory == Cursor(Legacy, None, None, {}))
  }

  /** The persisted Hall cursor decides every fact of every history as the in-memory policy does. */
  lemma {:induction false} HallCursorRefinesPolicy(facts: seq<Fact>, f: Fact)
    ensures HallAgrees(Replay(EMPTY, facts), HallReplay(EMPTY, facts))
    ensures Evaluate(HallReplay(EMPTY, facts), f) == Evaluate(Replay(EMPTY, facts), f)
  {
    if facts != [] {
      var init, last := facts[..|facts| - 1], facts[|facts| - 1];
      HallCursorRefinesPolicy(init, last);
      ReplayKeepsWellFormed(EMPTY, init);
    }
  }

  /** The Fire store loads of the retired boots only the one that the fact itself names. */
  function FireView(c: Cursor, f: Fact): Cursor {
    c.(retired := if f.boot.Some? && f.boot.value in c.retired then {f.boot.value} else {})
  }

  /** The row the Fire store writes is the fact itself; the retired boots grow as in the policy. */
  function FireCommitted(c: Cursor, f: Fact): Cursor {
    Cursor(if f.protocol.LegacyV1? then Legacy else Versioned, f.boot, f.sequence, Committed(c, f).retired)
  }

  function FireReplay(c: Cursor, facts: seq<Fact>): Cursor {
    if facts == [] then c
    else
      var before := FireReplay(c, facts[..|facts| - 1]);
      var f := facts[|facts| - 1];
      FireOffer(before, f)
  }

  /** The one-element view gives the decision that the whole retired set gives. */
  lemma FireViewDecidesAlike(c: Cursor, f: Fact)
    ensures Evaluate(FireView(c, f), f) == Evaluate(c, f)
  {
  }

  predicate FireAgrees(memory: Cursor, stored: Cursor) {
    && stored.mode == memory.mode && stored.last == memory.last && stored.retired == memory.retired
    && (memory.mode.Versioned? ==> stored.activeBoot == memory.activeBoot)
  }

  /** An unsequenced legacy fact that arrives when a counter is already stored. */
  predicate ForgetsCounter(c: Cursor, f: Fact) {
    f.protocol.LegacyV1? && f.sequence.None? && c.last.Some?
  }

  /** One accepted fact leaves the Fire row agreeing with the policy exactly when it forgets no counter. */
  lemma FireCommitAgreesExactly(memory: Cursor, stored: Cursor, f: Fact)
    requires FireAgrees(memory, stored) && Accepts(memory, f)
    ensures FireAgrees(Committed(memory, f), FireCommitted(stored, f)) <==> !ForgetsCounter(memory, f)
  {
  }

  function FireOffer(c: Cursor, f: Fact): Cursor {
    if Accepts(FireView(c, f), f) then FireCommitted(c, f) else c
  }

  lemma FireOfferAgrees(memory: Cursor, stored: Cursor, f: Fact)
    requires WellFormed(memory) && FireAgrees(memory, stored)
    ensures Evaluate(FireView(stored, f), f) == Evaluate(memory, f)
    ensures (Accepts(memory, f) && ForgetsCounter(memory, f)) || FireAgrees(Offer(memory, f), FireOffer(stored, f))
  {
    FireViewDecidesAlike(stored, f);
  }

  ghost predicate NeverForgetsCounter(facts: seq<Fact>) {
    facts != [] ==>
      var before := Replay(EMPTY, facts[..|facts| - 1]);
      var f := facts[|facts| - 1];
      && !(Accepts(before, f) && ForgetsCounter(before, f))
      && NeverForgetsCounter(facts[..|facts| - 1])
  }

  /** The Fire cursor decides as the policy on every history in which no counter is forgotten. */
  lemma {:induction false} FireCursorRefinesPolicy(facts: seq<Fact>, f: Fact)
    requires NeverForgetsCounter(facts)
    ensures FireAgrees(Replay(EMPTY, facts), FireReplay(EMPTY, facts))
    ensures Evaluate(FireView(FireReplay(EMPTY, facts), f), f) == Evaluate(Replay(EMPTY, facts), f)
  {
    if facts != [] {
      var init, last := facts[..|facts| - 1], facts[|facts| - 1];
      FireCursorRefinesPolicy(init, last);
      ReplayKeepsWellFormed(EMPTY, init);
      FireOfferAgrees(Replay(EMPTY, init), FireReplay(EMPTY, init), last);
    }
    ReplayKeepsWellFormed(EMPTY, facts);
    FireOfferAgrees(Replay(EMPTY, facts), FireReplay(EMPTY, facts), f);
  }

  /** A forgotten counter always shows: the stored row accepts the number that the policy calls a duplicate. */
  lemma ForgettingChangesADecision(c: Cursor, f: Fact)
    requires WellFormed(c) && Accepts(c, f) && ForgetsCounter(c, f)
    ensures Evaluate(Committed(c, f), Fact(LegacyV1, None, c.last)) == Duplicate
    ensures Evaluate(FireCommitted(c, f), Fact(LegacyV1, None, c.last)) == Accept
  {
  }

  /** On every prefix of the history the Fire cursor decides every fact as the policy does. */
  ghost predicate DecidesAsPolicy(facts: seq<Fact>) {
    forall n, f :: 0 <= n <= |facts| ==>
      Evaluate(FireView(FireReplay(EMPTY, facts[..n]), f), f) == Evaluate(Replay(EMPTY, facts[..n]), f)
  }

  lemma {:induction false} NeverForgetsPrefix(facts: seq<Fact>, n: nat)
    requires NeverForgetsCounter(facts) && n <= |facts|
    ensures NeverForgetsCounter(facts[..n])
    decreases |facts|
  {
    if n < |facts| {
      assert facts[..|facts| - 1][..n] == facts[..n];
      NeverForgetsPrefix(facts[..|facts| - 1], n);
    } else {
      assert facts[..n] == facts;
    }
  }

  /** A history that forgets a counter in its last fact ends with a fact that the two decide differently. */
  lemma ForgettingParts(facts: seq<Fact>)
    requires facts != [] && NeverForgetsCounter(facts[..|facts| - 1]) && !NeverForgetsCounter(facts)
    ensures exists f :: Evaluate(FireView(FireReplay(EMPTY, facts), f), f) != Evaluate(Replay(EMPTY, facts), f)
  {
    var init, g := facts[..|facts| - 1], facts[|facts| - 1];
    var memory, stored := Replay(EMPTY, init), FireReplay(EMPTY, init);
    FireCursorRefinesPolicy(init, g);
    ReplayKeepsWellFormed(EMPTY, init);
    ForgettingChangesADecision(memory, g);
    var f := Fact(LegacyV1, None, memory.last);
    assert Replay(EMPTY, facts) == Committed(memory, g) && FireReplay(EMPTY, facts) == FireCommitted(stored, g);
    assert Evaluate(Replay(EMPTY, facts), f) == Duplicate &&
           Evaluate(FireView(FireReplay(EMPTY, facts), f), f) == Accept;
  }

  /** The Fire cursor decides as the policy throughout a history exactly when the history forgets no counter. */
  lemma {:induction false} FireDecidesExactlyWhen(facts: seq<Fact>)
    ensures DecidesAsPolicy(facts) <==> NeverForgetsCounter(facts)
  {
    hide Evaluate, FireView, FireReplay, Replay;
    if NeverForgetsCounter(facts) {
      forall n, f | 0 <= n <= |facts|
        ensures Evaluate(FireView(FireReplay(EMPTY, facts[..n]), f), f) == Evaluate(Replay(EMPTY, facts[..n]), f)
      {
        NeverForgetsPrefix(facts, n);
        FireCursorRefinesPolicy(facts[..n], f);
      }
    } else {
      var init := facts[..|facts| - 1];
      FireDecidesExactlyWhen(init);
      if NeverForgetsCounter(init) {
        ForgettingParts(facts);
        assert facts[..|facts|] == facts;
      } else {
        forall n | 0 <= n <= |init| ensures init[..n] == facts[..n] {}
      }
    }
  }

  /** When a counter is forgotten the two part: counter 5, an unsequenced frame, then counter 3. */
  lemma ForgottenCounterParts()
    ensures var facts := [Fact(LegacyV1, None, Some(5)), Fact(LegacyV1, None, None)];
            var f := Fact(LegacyV1, None, Some(3));
            && Evaluate(Replay(EMPTY, facts), f) == Stale
            && Evaluate(FireView(FireReplay(EMPTY, facts), f), f) == Accept
  {
    var a, b := Fact(LegacyV1, None, Some(5)), Fact(LegacyV1, None, None);
    assert [a, b][..1] == [a] && [a][..0] == [];
    assert Replay(EMPTY, [a]) == Cursor(Legacy, None, Some(5), {});
    assert FireReplay(EMPTY, [a]) == Cursor(Legacy, None, Some(5), {});
    assert Replay(EMPTY, [a, b]) == Cursor(Legacy, None, Some(5), {});
    assert FireReplay(EMPTY, [a, b]) == Cursor(Legacy, None, None, {});
  }

  /** The record that `commitSensorSequence` moves in place. */
  class SequenceRecord {
    var mode: Mode
    var activeBoot: Option<string>
    var last: Option<nat>
    var retired: set<string>

    constructor ()
      ensures Value() == EMPTY
    {
      mode, activeBoot, last, retired := Unseen, None, None, {};
    }

    function Value(): Cursor
      reads this
    {
      Cursor(mode, activeBoot, last, retired)
    }

    method Commit(f: Fact)
      modifies this
      ensures Value() == Committed(old(Value()), f)
    {
      if f.protocol.LegacyV1? {
        mode := Legacy;
        activeBoot := None;
        if f.sequence.Some? {
          last := f.sequence;
        }
        return;
      }
      if mode.Versioned? && activeBoot.Some? && f.boot.Some? && activeBoot.value != f.boot.value {
        retired := retired + {activeBoot.value};
      }
      mode := Versioned;
      activeBoot := f.boot;
      last := f.sequence;
    }
  }
}
