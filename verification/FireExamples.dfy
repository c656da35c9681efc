/** Concrete runs of the fire store in which it departs from what one would expect of it. */
module FireExamples {
  import opened Option
  import opened FireTables
  import opened FireRun
  import opened FireDelivery
  import opened FireCursor
  import S = SensorSequence

  const FIRST := State("c", "s", "t", Resolved, "", "e", 1, S.Unseen, None, None, "{}", "now")

  const ROW := Delivery("k", RetainedState, "t", "s", "c", "e", "a", 1, "t", "p", 1, true,
                        0, "now", "", Pending, None, "now", "now")

  const BOOT := Bootstrap(FIRST, ROW)

  const BOOTED := Tables(map["c" := FIRST], map["k" := ROW], {})

  /** A legacy frame that opens or closes nothing: it only moves the cursor. */
  function Frame(sequence: Option<nat>, signal: string): Mutation {
    Mutation(1, FIRST.(mode := S.Legacy, sequence := sequence, signal := signal), None, None)
  }

  lemma BootstrapCommits()
    ensures ValidTopology([BOOT]) && After(EMPTY, [InitializeCall([BOOT])]) == BOOTED
  {
    assert [BOOT][..0] == [] && [InitializeCall([BOOT])][..0] == [];
    assert InstallAll(EMPTY, []) == Going(EMPTY, false, 0);
    assert InstallAll(EMPTY, [BOOT]) == Going(BOOTED, true, 1);
    assert RetainedKeys(BOOTED.outbox) == {"k"};
    assert |BOOTED.states| == 1;
  }

  // ----- a forgotten counter -----

  const FORGETS := [InitializeCall([BOOT]), MutateCall(Frame(Some(5), "5")), MutateCall(Frame(None, "-"))]

  lemma FrameCommits(t: Tables, s: State, m: Mutation)
    requires ValidMutation(m) && !IsTransition(m) && t == BOOTED.(states := map["c" := s])
    requires m.next.channel == "c" && s.sensor == m.next.sensor && s.topic == m.next.topic && s.revision == m.expected
    requires CursorChanged(s, m.next) && m.next.mode.Legacy? && S.Accepts(LoadedCursor(t, s, m.next), FactOf(m.next))
    requires !s.mode.Versioned?
    ensures ApplyMutation(t, m) == Result(BOOTED.(states := map["c" := m.next]), Committed, m.next.revision)
  {
  }

  lemma ForgettingRun()
    ensures var before := [InitializeCall([BOOT]), MutateCall(Frame(Some(5), "5"))];
            && After(EMPTY, before) == BOOTED.(states := map["c" := Frame(Some(5), "5").next])
            && After(EMPTY, FORGETS) == BOOTED.(states := map["c" := Frame(None, "-").next])
            && Facts(FORGETS, "c") == [S.Fact(S.LegacyV1, None, Some(5)), S.Fact(S.LegacyV1, None, None)]
  {
    var five, none := Frame(Some(5), "5"), Frame(None, "-");
    var start := [InitializeCall([BOOT])];
    var before := start + [MutateCall(five)];
    assert start[..0] == [] && before[..1] == start && FORGETS[..2] == before;
    BootstrapCommits();
    FrameCommits(BOOTED, FIRST, five);
    var t := BOOTED.(states := map["c" := five.next]);
    FrameCommits(t, five.next, none);
    hide ApplyMutation, InitializeTopology;
    assert Facts([], "c") == [] && Facts(start, "c") == [];
    assert Facts(before, "c") == [FactOf(five.next)];
  }

  /** After counter 5 and an unsequenced frame the store commits counter 3, which the policy calls stale. */
  lemma StoreForgetsCounter()
    ensures Commits(After(EMPTY, FORGETS), Frame(Some(3), "3"))
    ensures S.Evaluate(S.Replay(S.EMPTY, Facts(FORGETS, "c")), FactOf(Frame(Some(3), "3").next)) == S.Stale
    ensures !DecidesThroughout(FORGETS, "c")
  {
    ForgettingRun();
    S.ForgottenCounterParts();
    FrameCommits(After(EMPTY, FORGETS), Frame(None, "-").next, Frame(Some(3), "3"));
    CursorIsReplay(FORGETS, "c");
    assert FORGETS[..|FORGETS|] == FORGETS;
  }

  // ----- a lifecycle row that cannot be read back -----

  const MOVED := FIRST.(lifecycle := Open, alarm := "a", event := "e2", revision := 2)

  const UNREADABLE := Delivery("l", LifecycleEvent, "l", "s", "c", "e2", "a", 2, "t", "p", 1, false,
                               0, "now", "", Pending, Some(0), "now", "now")

  const ALARM := Mutation(1, MOVED, Some(ROW.(event := "e2", revision := 2)), Some(UNREADABLE))

  /** In reachable, sound tables a transition can commit that fails when it is sent again. */
  lemma UnreadableRowFailsAgain()
    ensures var t := After(EMPTY, [InitializeCall([BOOT])]);
            && Sound(t) && Commits(t, ALARM)
            && ApplyMutation(ApplyMutation(t, ALARM).t, ALARM).outcome == Failed
  {
    var t := After(EMPTY, [InitializeCall([BOOT])]);
    BootstrapCommits();
    ReachableIsSound([InitializeCall([BOOT])]);
    assert Commits(t, ALARM);
    ResubmissionExactly(t, ALARM, []);
    hide ApplyMutation;
    assert After(ApplyMutation(t, ALARM).t, []) == ApplyMutation(t, ALARM).t;
  }
}
