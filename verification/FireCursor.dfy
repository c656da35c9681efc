/**
 The sequence cursor that the fire store persists is the shared policy, replayed over the facts that the
 committed mutations of a channel carried.
 */
module FireCursor {
  import opened Option
  import opened FireTables
  import opened FireRun
  import S = SensorSequence

  /** The whole cursor of a channel: its state row and all the boots its sensor left behind. */
  function CursorOf(t: Tables, c: string): S.Cursor
    requires c in t.states
  {
    var s := t.states[c];
    S.Cursor(s.mode, s.boot, s.sequence, BootsOf(t.retired, s.sensor))
  }

  function BootsOf(retired: set<Boot>, sensor: string): set<string> {
    set b | b in retired && b.sensor == sensor :: b.boot
  }

  lemma BootsMembers(retired: set<Boot>, sensor: string, boot: string)
    ensures boot in BootsOf(retired, sensor) <==> Boot(sensor, boot) in retired
  {
  }

  /** What the store loads is the policy's cursor, with the retired boots cut down to the one that is asked for. */
  lemma LoadedIsView(t: Tables, n: State)
    requires n.channel in t.states && t.states[n.channel].sensor == n.sensor
    ensures LoadedCursor(t, t.states[n.channel], n) == S.FireView(CursorOf(t, n.channel), FactOf(n))
  {
    if n.boot.Some? { BootsMembers(t.retired, n.sensor, n.boot.value); }
  }

  /** Whether the call commits a mutation that moves the cursor of the channel. */
  predicate MovesCursor(t: Tables, e: Event, c: string) {
    && e.MutateCall? && e.mutation.next.channel == c && Commits(t, e.mutation)
    && c in t.states && CursorChanged(t.states[c], e.mutation.next)
  }

  lemma CommitIsAccepted(t: Tables, m: Mutation)
    requires Commits(t, m) && m.next.channel in t.states
    ensures var s := t.states[m.next.channel];
            CursorChanged(s, m.next) ==> !m.next.mode.Unseen? && S.Accepts(LoadedCursor(t, s, m.next), FactOf(m.next))
  {
    hide Announce, LoadedCursor, StoredAlike, ValidMutation, Retired;
    var s, n := t.states[m.next.channel], m.next;
    assert CursorChanged(s, n) ==> !SameState(s, n);
  }

  lemma RetiredBoots(t: Tables, s: State, n: State)
    requires s.sensor == n.sensor
    ensures BootsOf(Retired(t, s, n), s.sensor) ==
            if CursorChanged(s, n) && s.mode.Versioned? && s.boot.Some? && n.boot.Some? && s.boot.value != n.boot.value
            then BootsOf(t.retired, s.sensor) + {s.boot.value}
            else BootsOf(t.retired, s.sensor)
    ensures forall other :: other != s.sensor ==> BootsOf(Retired(t, s, n), other) == BootsOf(t.retired, other)
  {
    if Retired(t, s, n) != t.retired {
      var b := BootsOf(t.retired, s.sensor) + {s.boot.value};
      forall boot ensures boot in BootsOf(Retired(t, s, n), s.sensor) <==> boot in b {
        BootsMembers(t.retired, s.sensor, boot);
        BootsMembers(Retired(t, s, n), s.sensor, boot);
      }
      forall other | other != s.sensor ensures BootsOf(Retired(t, s, n), other) == BootsOf(t.retired, other) {
        forall boot ensures boot in BootsOf(Retired(t, s, n), other) <==> boot in BootsOf(t.retired, other) {
          BootsMembers(t.retired, other, boot);
          BootsMembers(Retired(t, s, n), other, boot);
        }
      }
    }
  }

  /** A committed mutation that moves the cursor moves it as the policy commits an accepted fact. */
  lemma MutationFollowsPolicy(t: Tables, m: Mutation)
    requires Sound(t) && Commits(t, m) && m.next.channel in t.states
    requires CursorChanged(t.states[m.next.channel], m.next)
    ensures var c, t' := m.next.channel, ApplyMutation(t, m).t;
            && c in t'.states
            && S.Accepts(CursorOf(t, c), FactOf(m.next))
            && CursorOf(t', c) == S.FireOffer(CursorOf(t, c), FactOf(m.next))
  {
    hide Sound;
    var c := m.next.channel;
    var s, n := t.states[c], m.next;
    assert n.sensor == s.sensor && ApplyMutation(t, m).t.states == t.states[c := n]
           && ApplyMutation(t, m).t.retired == Retired(t, s, n)
           && !n.mode.Unseen? && S.Accepts(LoadedCursor(t, s, n), FactOf(n)) by {
      hide ApplyMutation, Commits;
      CommitMovesState(t, m);
      CommitIsAccepted(t, m);
    }
    hide ApplyMutation, Commits, LoadedCursor, BootsOf, Retired;
    LoadedIsView(t, n);
    S.FireViewDecidesAlike(CursorOf(t, c), FactOf(n));
    RetiredBoots(t, s, n);
  }

  lemma OtherCursorsStay(t: Tables, m: Mutation, c: string)
    requires Sound(t) && Commits(t, m) && c in t.states && m.next.channel in t.states
    requires m.next.channel != c || !CursorChanged(t.states[c], m.next)
    ensures c in ApplyMutation(t, m).t.states && CursorOf(ApplyMutation(t, m).t, c) == CursorOf(t, c)
  {
    var s, n := t.states[m.next.channel], m.next;
    assert StatesOk(t.states);
    hide ApplyMutation, Commits, Sound, BootsOf, Retired, CursorChanged, StatesOk;
    CommitMovesState(t, m);
    RetiredBoots(t, s, n);
    if m.next.channel == c {
      Unchanged(s, n);
    } else {
      SensorsDiffer(t.states, c, n.channel);
    }
  }

  lemma Unchanged(s: State, n: State)
    requires !CursorChanged(s, n)
    ensures s.mode == n.mode && s.boot == n.boot && s.sequence == n.sequence
  {
  }

  lemma SensorsDiffer(states: map<string, State>, c: string, d: string)
    requires StatesOk(states) && c in states && d in states && c != d
    ensures states[c].sensor != states[d].sensor
  {
  }

  lemma CursorStep(t: Tables, e: Event, c: string)
    requires Sound(t) && c in t.states
    ensures c in Step(t, e).states
    ensures CursorOf(Step(t, e), c) ==
            if MovesCursor(t, e, c) then S.FireOffer(CursorOf(t, c), FactOf(e.mutation.next)) else CursorOf(t, c)
  {
    hide Sound, InitializeTopology, ApplyMutation, Commits, CursorChanged, BootsOf;
    match e {
      case InitializeCall(topology) => InitializeKeeps(t, topology);
      case MutateCall(m) =>
        OnlyCommitsChange(t, m);
        if MovesCursor(t, e, c) {
          MutationFollowsPolicy(t, m);
        } else if Commits(t, m) {
          CommitMovesState(t, m);
          OtherCursorsStay(t, m, c);
        }
      case _ => DeliveryKeepsIntents(t, e);
    }
  }

  lemma NewCursorIsEmpty(t: Tables, t': Tables, c: string)
    requires Sound(t) && Sound(t') && OnlyAdds(t, t') && c !in t.states && c in t'.states
    ensures CursorOf(t', c) == S.EMPTY
  {
    var sensor := t'.states[c].sensor;
    forall b | b in t.retired ensures b.sensor != sensor {
      var d :| d in t.states && t.states[d].sensor == b.sensor;
      SensorsDiffer(t'.states, c, d);
    }
    assert BootsOf(t'.retired, sensor) == {};
  }

  /** The facts that the committed mutations of a channel carried, in order. */
  function Facts(run: seq<Event>, c: string): seq<S.Fact> {
    if run == [] then []
    else
      var before, e := run[..|run| - 1], run[|run| - 1];
      Facts(before, c) + if MovesCursor(After(EMPTY, before), e, c) then [FactOf(e.mutation.next)] else []
  }

  lemma {:induction false} NoFactsBefore(run: seq<Event>, c: string)
    requires c !in After(EMPTY, run).states
    ensures Facts(run, c) == []
  {
    hide Step, Sound, Commits, CursorChanged;
    if run != [] {
      var before, e := run[..|run| - 1], run[|run| - 1];
      ReachableIsSound(before);
      if c in After(EMPTY, before).states {
        CursorStep(After(EMPTY, before), e, c);
      } else {
        NoFactsBefore(before, c);
      }
    }
  }

  lemma FactsStep(run: seq<Event>, c: string)
    requires run != []
    ensures var before, e := run[..|run| - 1], run[|run| - 1];
            Facts(run, c) == if MovesCursor(After(EMPTY, before), e, c)
                             then Facts(before, c) + [FactOf(e.mutation.next)] else Facts(before, c)
  {
    hide After, Commits, CursorChanged;
  }

  lemma ReplayOne(facts: seq<S.Fact>, f: S.Fact)
    ensures S.FireReplay(S.EMPTY, facts + [f]) == S.FireOffer(S.FireReplay(S.EMPTY, facts), f)
  {
    assert (facts + [f])[..|facts|] == facts;
  }

  /** In every reachable state a channel's persisted cursor is the replay of the facts committed for it. */
  lemma {:induction false} CursorIsReplay(run: seq<Event>, c: string)
    requires c in After(EMPTY, run).states
    ensures CursorOf(After(EMPTY, run), c) == S.FireReplay(S.EMPTY, Facts(run, c))
  {
    hide Step, Sound, Commits, CursorChanged, CursorOf, S.FireOffer;
    if run != [] {
      var before, e := run[..|run| - 1], run[|run| - 1];
      var t := After(EMPTY, before);
      ReachableIsSound(before);
      ReachableIsSound(run);
      FactsStep(run, c);
      if c in t.states {
        CursorIsReplay(before, c);
        CursorStep(t, e, c);
        if MovesCursor(t, e, c) { ReplayOne(Facts(before, c), FactOf(e.mutation.next)); }
      } else {
        BornByBootstrap(t, e, c);
        NewCursorIsEmpty(t, Step(t, e), c);
        NoFactsBefore(before, c);
        NotYet(t, e, c);
      }
    }
  }

  lemma NotYet(t: Tables, e: Event, c: string)
    requires c !in t.states
    ensures !MovesCursor(t, e, c)
  {
  }

  /**
   So the fire store decides every fact as the in-memory policy with all the retired boots, as long as no
   unsequenced legacy fact was committed over a stored counter.
   */
  lemma StoreDecidesAsPolicy(run: seq<Event>, c: string, f: S.Fact)
    requires c in After(EMPTY, run).states && S.NeverForgetsCounter(Facts(run, c))
    ensures S.Evaluate(S.FireView(CursorOf(After(EMPTY, run), c), f), f) ==
            S.Evaluate(S.Replay(S.EMPTY, Facts(run, c)), f)
  {
    hide S.Evaluate, S.FireView, CursorOf, After, Facts;
    CursorIsReplay(run, c);
    S.FireCursorRefinesPolicy(Facts(run, c), f);
  }

  /** In every state that the run passes through, the channel's stored cursor decides every fact as the policy. */
  ghost predicate DecidesThroughout(run: seq<Event>, c: string) {
    forall n, f :: 0 <= n <= |run| && c in After(EMPTY, run[..n]).states ==>
      S.Evaluate(S.FireView(CursorOf(After(EMPTY, run[..n]), c), f), f) ==
      S.Evaluate(S.Replay(S.EMPTY, Facts(run[..n], c)), f)
  }

  lemma {:induction false} FactsOfPrefix(run: seq<Event>, n: nat, c: string)
    requires n <= |run|
    ensures Facts(run[..n], c) <= Facts(run, c)
    decreases |run|
  {
    hide Facts;
    if n == |run| {
      assert run[..n] == run;
    } else {
      FactsStep(run, c);
      assert run[..|run| - 1][..n] == run[..n];
      FactsOfPrefix(run[..|run| - 1], n, c);
    }
  }

  /** Every prefix of a channel's facts is what some prefix of the run committed. */
  lemma {:induction false} PrefixOfFacts(run: seq<Event>, c: string, k: nat) returns (n: nat)
    requires c in After(EMPTY, run).states && k <= |Facts(run, c)|
    ensures n <= |run| && c in After(EMPTY, run[..n]).states && Facts(run[..n], c) == Facts(run, c)[..k]
    decreases |run|
  {
    hide Facts, After, MovesCursor;
    if k == |Facts(run, c)| {
      n := |run|;
      assert run[..n] == run;
    } else {
      RunsWithFacts(run, c);
      var before := run[..|run| - 1];
      FactsStep(run, c);
      n := PrefixOfFacts(before, c, k);
      assert before[..n] == run[..n];
    }
  }

  /** A run that has committed a fact for a channel had the channel before its last call. */
  lemma RunsWithFacts(run: seq<Event>, c: string)
    requires c in After(EMPTY, run).states && Facts(run, c) != []
    ensures run != [] && c in After(EMPTY, run[..|run| - 1]).states
  {
    hide Step, Commits, CursorChanged;
    var before := run[..|run| - 1];
    if c !in After(EMPTY, before).states {
      NotYet(After(EMPTY, before), run[|run| - 1], c);
      NoFactsBefore(before, c);
    }
  }

  /**
   The fire store decides every fact as the in-memory policy throughout a run exactly when no unsequenced legacy
   fact was committed over a stored counter.
   */
  lemma StoreDecidesExactlyWhen(run: seq<Event>, c: string)
    requires c in After(EMPTY, run).states
    ensures DecidesThroughout(run, c) <==> S.NeverForgetsCounter(Facts(run, c))
  {
    hide S.Evaluate, S.FireView, S.FireReplay, S.Replay, S.NeverForgetsCounter, CursorOf, After, Facts;
    var facts := Facts(run, c);
    if S.NeverForgetsCounter(facts) {
      forall n, f | 0 <= n <= |run| && c in After(EMPTY, run[..n]).states
        ensures S.Evaluate(S.FireView(CursorOf(After(EMPTY, run[..n]), c), f), f) ==
                S.Evaluate(S.Replay(S.EMPTY, Facts(run[..n], c)), f)
      {
        FactsOfPrefix(run, n, c);
        assert Facts(run[..n], c) == facts[..|Facts(run[..n], c)|];
        S.NeverForgetsPrefix(facts, |Facts(run[..n], c)|);
        StoreDecidesAsPolicy(run[..n], c, f);
      }
    } else {
      S.FireDecidesExactlyWhen(facts);
      var k, f :| 0 <= k <= |facts| &&
        S.Evaluate(S.FireView(S.FireReplay(S.EMPTY, facts[..k]), f), f) != S.Evaluate(S.Replay(S.EMPTY, facts[..k]), f);
      var n := PrefixOfFacts(run, c, k);
      CursorIsReplay(run[..n], c);
    }
  }
}
