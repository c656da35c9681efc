/**
 The login rate limiter: per key a sliding window of failures and a cooldown, in a bounded table that is swept
 when a new key needs room. Times are whole seconds since the epoch.
 */
module RateLimiter {
  import opened Option

  const MAX_ENTRIES: nat := 4096
  const INT_MAX: nat := 0x7FFF_FFFF

  datatype Config = Config(window: nat, maxFailures: nat, cooldown: nat)

  /** What the service accepts as its configuration. */
  predicate ValidConfig(c: Config) {
    c.window > 0 && c.maxFailures > 0 && c.cooldown > 0
  }

  datatype RateState = RateState(failures: seq<nat>, blockedUntil: nat, lastSeen: nat)

  const FRESH := RateState([], 0, 0)

  type Table = map<string, RateState>

  // ----- one state -----

  /** The times after the cutoff, dropped from the front as the deque is. */
  function Recent(times: seq<nat>, cutoff: int): seq<nat> {
    if times != [] && times[0] <= cutoff then Recent(times[1..], cutoff) else times
  }

  function Prune(c: Config, s: RateState, now: nat): RateState {
    RateState(Recent(s.failures, now - c.window), if s.blockedUntil <= now then 0 else s.blockedUntil, s.lastSeen)
  }

  predicate Idle(s: RateState) {
    s.failures == [] && s.blockedUntil == 0
  }

  // ----- the table -----

  function Swept(c: Config, t: Table, now: nat): Table {
    map k | k in t && !Idle(Prune(c, t[k], now)) :: Prune(c, t[k], now)
  }

  /** The keys that make room: as many as needed, none seen later than one that stays. */
  ghost predicate MakesRoom(t: Table, evicted: set<string>) {
    && evicted <= t.Keys
    && (if |t| < MAX_ENTRIES then evicted == {} else |t| - |evicted| == MAX_ENTRIES - 1)
    && forall j, k :: j in evicted && k in t && k !in evicted ==> t[j].lastSeen <= t[k].lastSeen
  }

  datatype Checked = Checked(t: Table, retryAfter: Option<nat>)

  function Min(a: nat, b: nat): nat {
    if a < b then a else b
  }

  function Check(c: Config, t: Table, key: string, now: nat): Checked {
    if key !in t then Checked(t, None)
    else
      var s := Prune(c, t[key], now).(lastSeen := now);
      Checked(t[key := s], if s.blockedUntil > now then Some(Min(s.blockedUntil - now, INT_MAX)) else None)
  }

  function Failed(c: Config, s: RateState, now: nat): RateState {
    var p := Prune(c, s, now);
    var failures := p.failures + [now];
    RateState(failures, if |failures| >= c.maxFailures then now + c.cooldown else p.blockedUntil, now)
  }

  function Record(c: Config, t: Table, key: string, now: nat, evicted: set<string>): Table {
    if key in t then t[key := Failed(c, t[key], now)]
    else (Swept(c, t, now) - evicted)[key := Failed(c, FRESH, now)]
  }

  // ----- a login -----

  /** What checking the credentials and storing a session came to. */
  datatype Verdict = BadCredentials | SessionStored(reported: bool) | DatabaseFailed

  datatype Status = RateLimited(retryAfter: nat) | InvalidCredentials | Success | Unavailable

  datatype Login = Login(key: string, now: nat, verdict: Verdict, evicted: set<string>)

  predicate LetThrough(c: Config, t: Table, e: Login) {
    Check(c, t, e.key, e.now).retryAfter.None?
  }

  function Answer(c: Config, t: Table, e: Login): Status {
    match Check(c, t, e.key, e.now).retryAfter
    case Some(seconds) => RateLimited(seconds)
    case None =>
      match e.verdict
      case BadCredentials => InvalidCredentials
      case SessionStored(reported) => if reported then Success else Unavailable
      case DatabaseFailed => Unavailable
  }

  function Step(c: Config, t: Table, e: Login): Table {
    var checked := Check(c, t, e.key, e.now);
    if checked.retryAfter.Some? then checked.t
    else
      match e.verdict
      case BadCredentials => Record(c, checked.t, e.key, e.now, e.evicted)
      case SessionStored(_) => checked.t - {e.key}
      case DatabaseFailed => checked.t
  }

  predicate Sweeps(c: Config, t: Table, e: Login) {
    LetThrough(c, t, e) && e.verdict.BadCredentials? && e.key !in t
  }

  /** Keys are evicted only when a new key is recorded. */
  ghost predicate Fits(c: Config, t: Table, e: Login) {
    if Sweeps(c, t, e) then MakesRoom(Swept(c, t, e.now), e.evicted) else e.evicted == {}
  }

  function After(c: Config, run: seq<Login>): Table {
    if run == [] then map[] else Step(c, After(c, run[..|run| - 1]), run[|run| - 1])
  }

  function Clock(run: seq<Login>): nat {
    if run == [] then 0 else run[|run| - 1].now
  }

  /** One login after another, by a clock that does not go back. */
  ghost predicate Valid(c: Config, run: seq<Login>) {
    run != [] ==>
      var before, e := run[..|run| - 1], run[|run| - 1];
      Valid(c, before) && Clock(before) <= e.now && Fits(c, After(c, before), e)
  }

  // ----- the reference: what a key's history alone says -----

  /** The failures of a key since its last success or size eviction. */
  function History(c: Config, run: seq<Login>, key: string): seq<nat> {
    if run == [] then []
    else
      var before, e := run[..|run| - 1], run[|run| - 1];
      var h := History(c, before, key);
      if key in e.evicted then []
      else if e.key != key || !LetThrough(c, After(c, before), e) then h
      else
        match e.verdict
        case BadCredentials => h + [e.now]
        case SessionStored(_) => []
        case DatabaseFailed => h
  }

  function Last(h: seq<nat>): nat
    requires h != []
  {
    h[|h| - 1]
  }

  /** The last failure filled the window: the key rests until its cooldown is over. */
  function RestsUntil(c: Config, h: seq<nat>, now: nat): nat {
    if h != [] && |Recent(h, Last(h) - c.window)| >= c.maxFailures && Last(h) + c.cooldown > now
    then Last(h) + c.cooldown else 0
  }

  function RetryAfter(c: Config, h: seq<nat>, now: nat): Option<nat> {
    var until := RestsUntil(c, h, now);
    if until > now then Some(Min(until - now, INT_MAX)) else None
  }

  function StateOf(t: Table, key: string): RateState {
    if key in t then t[key] else FRESH
  }

  /** The table knows of a key what its history says. */
  predicate Agrees(c: Config, t: Table, key: string, h: seq<nat>, now: nat) {
    var s := Prune(c, StateOf(t, key), now);
    s.failures == Recent(h, now - c.window) && s.blockedUntil == RestsUntil(c, h, now)
  }

  lemma {:induction false} RecentTwice(times: seq<nat>, a: int, b: int)
    requires a <= b
    ensures Recent(Recent(times, a), b) == Recent(times, b)
  {
    if times != [] && times[0] <= a { RecentTwice(times[1..], a, b); }
  }

  lemma PruneTwice(c: Config, s: RateState, now: nat, later: nat)
    requires now <= later
    ensures Prune(c, Prune(c, s, now), later) == Prune(c, s, later)
  {
    hide Recent;
    RecentTwice(s.failures, now - c.window, later - c.window);
  }

  lemma AgreesLater(c: Config, t: Table, key: string, h: seq<nat>, now: nat, later: nat)
    requires Agrees(c, t, key, h, now) && now <= later
    ensures Agrees(c, t, key, h, later)
  {
    hide Recent;
    PruneTwice(c, StateOf(t, key), now, later);
    RecentTwice(h, now - c.window, later - c.window);
  }

  /** Agreement depends only on the pruned state: touching, sweeping and erasing idle entries do not matter. */
  lemma SamePrunedAgrees(c: Config, t: Table, t': Table, key: string, h: seq<nat>, now: nat)
    requires Agrees(c, t, key, h, now)
    requires Prune(c, StateOf(t', key), now).(lastSeen := 0) == Prune(c, StateOf(t, key), now).(lastSeen := 0)
    ensures Agrees(c, t', key, h, now)
  {
    hide RestsUntil;
  }

  lemma CheckSamePruned(c: Config, t: Table, key: string, k: string, now: nat)
    ensures Prune(c, StateOf(Check(c, t, key, now).t, k), now).(lastSeen := 0) ==
            Prune(c, StateOf(t, k), now).(lastSeen := 0)
  {
    if key in t && k == key { PruneTwice(c, t[key], now, now); }
  }

  lemma SweepSamePruned(c: Config, t: Table, evicted: set<string>, k: string, now: nat)
    requires k !in evicted
    ensures Prune(c, StateOf(Swept(c, t, now) - evicted, k), now).(lastSeen := 0) ==
            Prune(c, StateOf(t, k), now).(lastSeen := 0)
  {
    if k in t { PruneTwice(c, t[k], now, now); }
  }

  lemma {:induction false} RecentSnoc(times: seq<nat>, x: nat, cutoff: int)
    requires cutoff < x
    ensures Recent(times + [x], cutoff) == Recent(times, cutoff) + [x]
  {
    if times != [] && times[0] <= cutoff {
      assert (times + [x])[1..] == times[1..] + [x];
      RecentSnoc(times[1..], x, cutoff);
    }
  }

  /** A failure recorded in an agreeing state appends itself to the history. */
  lemma FailureAgrees(c: Config, s: RateState, t: Table, key: string, h: seq<nat>, now: nat)
    requires ValidConfig(c)
    requires Prune(c, s, now).failures == Recent(h, now - c.window) && Prune(c, s, now).blockedUntil == 0
    requires key in t && t[key] == Failed(c, s, now)
    ensures Agrees(c, t, key, h + [now], now)
  {
    hide Recent;
    RecentSnoc(h, now, now - c.window);
    RecentTwice(s.failures, now - c.window, now - c.window);
    RecentSnoc(Recent(s.failures, now - c.window), now, now - c.window);
  }

  lemma NotBlocked(c: Config, t: Table, e: Login, h: seq<nat>)
    requires Agrees(c, t, e.key, h, e.now)
    ensures LetThrough(c, t, e) <==> RestsUntil(c, h, e.now) == 0
    ensures Check(c, t, e.key, e.now).retryAfter == RetryAfter(c, h, e.now)
  {
    hide Recent;
  }

  lemma NothingAgrees(c: Config, t: Table, key: string, now: nat)
    requires key !in t
    ensures Agrees(c, t, key, [], now)
  {
  }

  /** The key that logs in. */
  lemma OwnKeyAgrees(c: Config, t: Table, e: Login, h: seq<nat>)
    requires ValidConfig(c) && Fits(c, t, e) && Agrees(c, t, e.key, h, e.now) && LetThrough(c, t, e)
    ensures e.verdict.BadCredentials? ==> Agrees(c, Step(c, t, e), e.key, h + [e.now], e.now)
    ensures e.verdict.SessionStored? ==> Agrees(c, Step(c, t, e), e.key, [], e.now)
  {
    hide Agrees, Swept, Failed, Prune, RestsUntil;
    var checked := Check(c, t, e.key, e.now).t;
    CheckSamePruned(c, t, e.key, e.key, e.now);
    SamePrunedAgrees(c, t, checked, e.key, h, e.now);
    NotBlocked(c, t, e, h);
    match e.verdict {
      case BadCredentials =>
        AgreesParts(c, checked, e.key, h, e.now);
        FailureAgrees(c, StateOf(checked, e.key), Step(c, t, e), e.key, h, e.now);
      case SessionStored(_) => NothingAgrees(c, Step(c, t, e), e.key, e.now);
      case DatabaseFailed =>
    }
  }

  lemma AgreesParts(c: Config, t: Table, key: string, h: seq<nat>, now: nat)
    requires Agrees(c, t, key, h, now)
    ensures Prune(c, StateOf(t, key), now).failures == Recent(h, now - c.window)
    ensures Prune(c, StateOf(t, key), now).blockedUntil == RestsUntil(c, h, now)
  {
  }

  lemma StepAgrees(c: Config, t: Table, e: Login, key: string, h: seq<nat>)
    requires ValidConfig(c) && Fits(c, t, e) && Agrees(c, t, key, h, e.now)
    ensures var h' :=
              if key in e.evicted then []
              else if e.key != key || !LetThrough(c, t, e) then h
              else
                match e.verdict
                case BadCredentials => h + [e.now]
                case SessionStored(_) => []
                case DatabaseFailed => h;
            Agrees(c, Step(c, t, e), key, h', e.now)
  {
    hide Agrees, Swept, Failed, Prune, RestsUntil, RetryAfter, MakesRoom;
    var checked := Check(c, t, e.key, e.now).t;
    CheckSamePruned(c, t, e.key, key, e.now);
    SamePrunedAgrees(c, t, checked, key, h, e.now);
    EvictedAreOthers(c, t, e);
    if key in e.evicted {
      NothingAgrees(c, Step(c, t, e), key, e.now);
    } else if e.key == key && LetThrough(c, t, e) && !e.verdict.DatabaseFailed? {
      OwnKeyAgrees(c, t, e, h);
    } else if Sweeps(c, t, e) {
      SweepSamePruned(c, checked, e.evicted, key, e.now);
      SamePrunedAgrees(c, checked, Step(c, t, e), key, h, e.now);
    } else {
      SamePrunedAgrees(c, checked, Step(c, t, e), key, h, e.now);
    }
  }

  lemma EvictedAreOthers(c: Config, t: Table, e: Login)
    requires Fits(c, t, e)
    ensures e.key !in e.evicted && (e.evicted != {} ==> Sweeps(c, t, e))
  {
  }

  /** In every run the table agrees with every key's history. */
  lemma {:induction false} TableAgrees(c: Config, run: seq<Login>, key: string)
    requires ValidConfig(c) && Valid(c, run)
    ensures Agrees(c, After(c, run), key, History(c, run, key), Clock(run))
  {
    if run == [] {
      NothingAgrees(c, map[], key, 0);
    } else {
      hide Agrees, Fits, Step, LetThrough;
      var before, e := run[..|run| - 1], run[|run| - 1];
      TableAgrees(c, before, key);
      AgreesLater(c, After(c, before), key, History(c, before, key), Clock(before), e.now);
      StepAgrees(c, After(c, before), e, key, History(c, before, key));
    }
  }

  /**
   After any run, the answer to a login depends only on the failures of its own key since that key's last success
   or size eviction. In particular the sweep that erases idle entries never changes a later decision.
   */
  lemma DecisionFollowsHistory(c: Config, run: seq<Login>, key: string, now: nat)
    requires ValidConfig(c) && Valid(c, run) && Clock(run) <= now
    ensures Check(c, After(c, run), key, now).retryAfter == RetryAfter(c, History(c, run, key), now)
  {
    hide Agrees, After, History, Valid;
    TableAgrees(c, run, key);
    AgreesLater(c, After(c, run), key, History(c, run, key), Clock(run), now);
    NotBlocked(c, After(c, run), Login(key, now, DatabaseFailed, {}), History(c, run, key));
  }

  /** The answer to a login after any run: what the history of its key and the verdict on its credentials say. */
  lemma AnsweredExactlyWhen(c: Config, run: seq<Login>, e: Login)
    requires ValidConfig(c) && Valid(c, run) && Clock(run) <= e.now
    ensures var rest, answer := RetryAfter(c, History(c, run, e.key), e.now), Answer(c, After(c, run), e);
            && (forall seconds: nat :: answer == RateLimited(seconds) <==> rest == Some(seconds))
            && (answer == InvalidCredentials <==> rest.None? && e.verdict == BadCredentials)
            && (answer == Success <==> rest.None? && e.verdict == SessionStored(true))
            && (answer == Unavailable <==>
                  rest.None? && (e.verdict == SessionStored(false) || e.verdict == DatabaseFailed))
  {
    hide After, History, Valid, RetryAfter, Check;
    DecisionFollowsHistory(c, run, e.key, e.now);
  }

  /** Who waits as long as told is let through, and who comes a second earlier is not. */
  lemma RetryAfterIsExact(c: Config, run: seq<Login>, key: string, now: nat, seconds: nat, later: nat)
    requires ValidConfig(c) && Valid(c, run) && Clock(run) <= now <= later && seconds < 0x7FFF_FFFF
    requires Check(c, After(c, run), key, now).retryAfter == Some(seconds)
    ensures 0 < seconds <= c.cooldown
    ensures Check(c, After(c, run), key, later).retryAfter.None? <==> now + seconds <= later
  {
    hide After, History, Valid, Check;
    DecisionFollowsHistory(c, run, key, now);
    DecisionFollowsHistory(c, run, key, later);
    if History(c, run, key) != [] { LastIsPast(c, run, key); }
    hide Recent;
  }

  lemma {:induction false} LastIsPast(c: Config, run: seq<Login>, key: string)
    requires Valid(c, run) && History(c, run, key) != []
    ensures Last(History(c, run, key)) <= Clock(run)
  {
    hide Check, Step, Fits, After;
    var before, e := run[..|run| - 1], run[|run| - 1];
    if History(c, before, key) != [] { LastIsPast(c, before, key); }
  }

  /** A stored session wipes the key's record, also when the caller was told that the service is unavailable. */
  lemma StoredSessionClears(c: Config, run: seq<Login>, e: Login, now: nat)
    requires ValidConfig(c) && Valid(c, run + [e]) && e.now <= now
    requires LetThrough(c, After(c, run), e) && e.verdict.SessionStored?
    ensures Check(c, After(c, run + [e]), e.key, now).retryAfter.None?
  {
    assert (run + [e])[..|run|] == run;
    hide After, Valid, Check;
    DecisionFollowsHistory(c, run + [e], e.key, now);
    assert History(c, run + [e], e.key) == [];
  }

  // ----- the bound -----

  /** Every failure but the first came when the history before it let it through. */
  predicate Spaced(c: Config, h: seq<nat>) {
    forall n :: 0 < n < |h| ==> h[n - 1] <= h[n] && RestsUntil(c, h[..n], h[n]) == 0
  }

  lemma SpacedSnoc(c: Config, h: seq<nat>, x: nat)
    requires Spaced(c, h) && (h != [] ==> Last(h) <= x) && RestsUntil(c, h, x) == 0
    ensures Spaced(c, h + [x])
  {
    hide RestsUntil;
    var h' := h + [x];
    forall n | 0 < n < |h'| ensures h'[n - 1] <= h'[n] && RestsUntil(c, h'[..n], h'[n]) == 0 {
      assert h'[..n] == h[..n];
      assert h[..|h|] == h;
    }
  }

  lemma {:induction false} HistoryIsSpaced(c: Config, run: seq<Login>, key: string)
    requires ValidConfig(c) && Valid(c, run)
    ensures var h := History(c, run, key); Spaced(c, h) && (h != [] ==> Last(h) <= Clock(run))
  {
    hide Agrees, Fits, Step, LetThrough, Spaced, RestsUntil;
    if run == [] {
      NothingIsSpaced(c);
    } else {
      var before, e := run[..|run| - 1], run[|run| - 1];
      var h := History(c, before, key);
      HistoryIsSpaced(c, before, key);
      NothingIsSpaced(c);
      if e.key == key && LetThrough(c, After(c, before), e) {
        TableAgrees(c, before, key);
        AgreesLater(c, After(c, before), key, h, Clock(before), e.now);
        NotBlocked(c, After(c, before), e, h);
        SpacedSnoc(c, h, e.now);
      }
    }
  }

  lemma NothingIsSpaced(c: Config)
    ensures Spaced(c, [])
  {
  }

  lemma {:induction false} Ordered(c: Config, h: seq<nat>, i: nat, j: nat)
    requires Spaced(c, h) && i <= j < |h|
    ensures h[i] <= h[j]
    decreases j
  {
    hide RestsUntil;
    if i < j { Ordered(c, h, i, j - 1); }
  }

  lemma {:induction false} RecentSpan(times: seq<nat>, cutoff: int, i: nat)
    requires i < |times| && forall n :: i <= n < |times| ==> times[n] > cutoff
    ensures |Recent(times, cutoff)| >= |times| - i
  {
    if i > 0 && times[0] <= cutoff { RecentSpan(times[1..], cutoff, i - 1); }
  }

  /** Once the window is full, the next failure waits for the cooldown. */
  lemma FullRests(c: Config, p: seq<nat>, i: nat, now: nat)
    requires i < |p| && (forall n :: i <= n < |p| ==> p[n] > Last(p) - c.window) && |p| - i >= c.maxFailures
    requires RestsUntil(c, p, now) == 0
    ensures now >= Last(p) + c.cooldown
  {
    hide Recent;
    RecentSpan(p, Last(p) - c.window, i);
  }

  lemma FullWindowWaits(c: Config, h: seq<nat>, i: nat, j: nat)
    requires Spaced(c, h) && i <= j && j + 1 < |h| && h[j] - h[i] < c.window && j - i + 1 >= c.maxFailures
    ensures h[j + 1] >= h[j] + c.cooldown
  {
    hide RestsUntil;
    var p := h[..j + 1];
    forall n | i <= n < |p| ensures p[n] > Last(p) - c.window {
      Ordered(c, h, i, n);
    }
    assert RestsUntil(c, p, h[j + 1]) == 0;
    FullRests(c, p, i, h[j + 1]);
  }

  lemma OneMore(n: nat, d: nat)
    ensures (n + 1) * d == n * d + d
  {
  }

  lemma {:induction false} CooldownsAdd(c: Config, h: seq<nat>, i: nat, j: nat)
    requires Spaced(c, h) && c.maxFailures > 0 && i <= j < |h| && h[j] - h[i] < c.window && j - i + 1 >= c.maxFailures
    ensures h[j] - h[i] >= (j - i + 1 - c.maxFailures) * c.cooldown
    decreases j
  {
    hide Spaced;
    Ordered(c, h, i, j);
    if j - i + 1 > c.maxFailures {
      Ordered(c, h, j - 1, j);
      CooldownsAdd(c, h, i, j - 1);
      FullWindowWaits(c, h, i, j - 1);
      OneMore(j - i - c.maxFailures, c.cooldown);
    }
  }

  lemma TimesKeepsOrder(a: nat, b: nat, d: nat)
    requires a <= b
    ensures a * d <= b * d
  {
  }

  lemma QuotientAbove(x: nat, d: nat)
    requires d > 0
    ensures x < (x / d + 1) * d
  {
  }

  lemma QuotientBounds(n: nat, d: nat, x: nat)
    requires d > 0 && n * d <= x
    ensures n <= x / d
  {
    var q := x / d;
    QuotientAbove(x, d);
    if q + 1 <= n { TimesKeepsOrder(q + 1, n, d); }
  }

  /**
   Between two resets of its history, a key is let through at most maxFailures + (window - 1) / cooldown times
   in any stretch shorter than the window.
   */
  lemma WindowBound(c: Config, run: seq<Login>, key: string, i: nat, j: nat)
    requires ValidConfig(c) && Valid(c, run)
    requires var h := History(c, run, key); i <= j < |h| && h[j] - h[i] < c.window
    ensures j - i + 1 <= c.maxFailures + (c.window - 1) / c.cooldown
  {
    hide Valid, History, Spaced;
    HistoryIsSpaced(c, run, key);
    if j - i + 1 > c.maxFailures {
      CooldownsAdd(c, History(c, run, key), i, j);
      QuotientBounds(j - i + 1 - c.maxFailures, c.cooldown, c.window - 1);
    }
  }

  /** The times at which the key was told that its credentials were wrong. */
  function FailuresOf(c: Config, run: seq<Login>, key: string): seq<nat> {
    if run == [] then []
    else
      var before, e := run[..|run| - 1], run[|run| - 1];
      FailuresOf(c, before, key) +
      if e.key == key && Answer(c, After(c, before), e).InvalidCredentials? then [e.now] else []
  }

  predicate Undisturbed(run: seq<Login>, key: string) {
    forall i :: 0 <= i < |run| ==> key !in run[i].evicted && (run[i].key == key ==> !run[i].verdict.SessionStored?)
  }

  /** With no success and no size eviction for the key, its history is all its failures. */
  lemma {:induction false} UndisturbedHistory(c: Config, run: seq<Login>, key: string)
    requires Undisturbed(run, key)
    ensures History(c, run, key) == FailuresOf(c, run, key)
  {
    hide After;
    if run != [] {
      var before := run[..|run| - 1];
      assert forall i :: 0 <= i < |before| ==> before[i] == run[i];
      UndisturbedHistory(c, before, key);
    }
  }

  /** So in any window at most maxFailures + (window - 1) / cooldown failures of an undisturbed key get through. */
  lemma UndisturbedBound(c: Config, run: seq<Login>, key: string, i: nat, j: nat)
    requires ValidConfig(c) && Valid(c, run) && Undisturbed(run, key)
    requires var f := FailuresOf(c, run, key); i <= j < |f| && f[j] - f[i] < c.window
    ensures j - i + 1 <= c.maxFailures + (c.window - 1) / c.cooldown
  {
    hide Valid, History, FailuresOf, Undisturbed;
    UndisturbedHistory(c, run, key);
    WindowBound(c, run, key, i, j);
  }

  // ----- the bound is reached -----

  /** The failing logins of one key at the given times. */
  function Attempts(key: string, times: seq<nat>): seq<Login> {
    seq(|times|, i requires 0 <= i < |times| => Login(key, times[i], BadCredentials, {}))
  }

  /** Every spaced history is the history of a run, so the reference describes exactly what the limiter allows. */
  lemma {:induction false} SpacedIsReachable(c: Config, key: string, h: seq<nat>)
    requires ValidConfig(c) && Spaced(c, h)
    ensures Valid(c, Attempts(key, h)) && History(c, Attempts(key, h), key) == h
    ensures After(c, Attempts(key, h)).Keys <= {key}
  {
    hide RestsUntil, Spaced;
    if h != [] {
      var before, x := h[..|h| - 1], Last(h);
      var run := Attempts(key, h);
      SpacedPrefix(c, h);
      SpacedIsReachable(c, key, before);
      assert run[..|run| - 1] == Attempts(key, before);
      HistoryIsSpaced(c, Attempts(key, before), key);
      var t := After(c, Attempts(key, before));
      TableAgrees(c, Attempts(key, before), key);
      AgreesLater(c, t, key, before, Clock(Attempts(key, before)), x);
      NotBlocked(c, t, run[|run| - 1], before);
      AloneFits(c, t, run[|run| - 1]);
      assert before + [x] == h;
    }
  }

  lemma SpacedPrefix(c: Config, h: seq<nat>)
    requires Spaced(c, h) && h != []
    ensures Spaced(c, h[..|h| - 1])
    ensures |h| > 1 ==> h[|h| - 2] <= Last(h)
    ensures RestsUntil(c, h[..|h| - 1], Last(h)) == 0
  {
    hide RestsUntil;
    var p := h[..|h| - 1];
    forall n | 0 < n < |p| ensures p[n - 1] <= p[n] && RestsUntil(c, p[..n], p[n]) == 0 {
      assert p[..n] == h[..n];
    }
    if |h| == 1 { NoRest(c, p, Last(h)); }
  }

  lemma NoRest(c: Config, h: seq<nat>, now: nat)
    requires h == []
    ensures RestsUntil(c, h, now) == 0
  {
  }

  lemma AloneFits(c: Config, t: Table, e: Login)
    requires t.Keys <= {e.key} && e.evicted == {}
    ensures Fits(c, t, e) && Step(c, t, e).Keys <= {e.key}
  {
    hide Prune;
    if e.key !in t { assert Swept(c, t, e.now) == map[]; }
  }

  /** The first failures all at once, then one at the end of each cooldown. */
  function Burst(c: Config): (h: seq<nat>)
    requires ValidConfig(c)
    ensures |h| == c.maxFailures + (c.window - 1) / c.cooldown
  {
    seq(c.maxFailures + (c.window - 1) / c.cooldown, i requires 0 <= i => BurstAt(c, i))
  }

  function BurstAt(c: Config, i: nat): nat {
    if i < c.maxFailures then 0 else (i + 1 - c.maxFailures) * c.cooldown
  }

  lemma QuotientFits(x: nat, d: nat)
    requires d > 0
    ensures x / d * d <= x
  {
  }

  lemma {:induction false} RecentShorter(times: seq<nat>, cutoff: int)
    ensures |Recent(times, cutoff)| <= |times|
  {
    if times != [] && times[0] <= cutoff { RecentShorter(times[1..], cutoff); }
  }

  lemma BurstIsSpaced(c: Config)
    requires ValidConfig(c)
    ensures Spaced(c, Burst(c))
  {
    hide Recent;
    var h := Burst(c);
    forall n | 0 < n < |h| ensures h[n - 1] <= h[n] && RestsUntil(c, h[..n], h[n]) == 0 {
      RecentShorter(h[..n], Last(h[..n]) - c.window);
      if n >= c.maxFailures { OneMore(n - c.maxFailures, c.cooldown); }
    }
  }

  /** The bound is reached: a run of one key gets exactly that many failures through inside one window. */
  lemma BoundIsReached(c: Config, key: string)
    requires ValidConfig(c)
    ensures var h := Burst(c);
            && Valid(c, Attempts(key, h)) && History(c, Attempts(key, h), key) == h
            && Last(h) - h[0] < c.window && |h| == c.maxFailures + (c.window - 1) / c.cooldown
  {
    hide Spaced, Valid, History, Attempts;
    BurstIsSpaced(c);
    SpacedIsReachable(c, key, Burst(c));
    QuotientFits(c.window - 1, c.cooldown);
  }

  // ----- the table stays bounded -----

  lemma SizeAfterRemoval(t: Table, keys: set<string>)
    requires keys <= t.Keys
    ensures |t - keys| == |t| - |keys|
  {
    assert (t - keys).Keys == t.Keys - keys;
    assert |t| == |t.Keys| && |t - keys| == |(t - keys).Keys|;
  }

  lemma SizeAfterUpdate(t: Table, key: string, s: RateState)
    ensures |t[key := s]| == if key in t then |t| else |t| + 1
  {
    assert t[key := s].Keys == t.Keys + {key};
    assert |t| == |t.Keys| && |t[key := s]| == |t[key := s].Keys|;
  }

  /** However many keys fail, the table never holds more than its limit. */
  lemma {:induction false} TableIsBounded(c: Config, run: seq<Login>)
    requires Valid(c, run)
    ensures |After(c, run)| <= 4096
  {
    if run != [] {
      hide Prune, Failed, Swept;
      var before, e := run[..|run| - 1], run[|run| - 1];
      TableIsBounded(c, before);
      StepIsBounded(c, After(c, before), e);
    }
  }

  /** Room is made exactly when 4096 entries are there, for one more, and by those that were seen longest ago. */
  lemma RoomIsMadeExactly(t: Table, evicted: set<string>)
    ensures MakesRoom(t, evicted) <==>
              && evicted <= t.Keys && |evicted| == (if |t| < 4096 then 0 else |t| - 4095)
              && forall j, k :: j in evicted && k in t && k !in evicted ==> t[j].lastSeen <= t[k].lastSeen
  {
    assert evicted == {} <==> |evicted| == 0;
  }

  lemma StepIsBounded(c: Config, t: Table, e: Login)
    requires |t| <= MAX_ENTRIES && Fits(c, t, e)
    ensures |Step(c, t, e)| <= MAX_ENTRIES
  {
    hide Prune, Failed, Swept;
    var checked := Check(c, t, e.key, e.now).t;
    if e.key in t {
      SizeAfterUpdate(t, e.key, checked[e.key]);
      SizeAfterUpdate(checked, e.key, Failed(c, checked[e.key], e.now));
      SizeAfterRemoval(checked, {e.key});
    } else {
      assert checked - {e.key} == t;
      if Sweeps(c, t, e) {
        SizeAfterRemoval(Swept(c, t, e.now), e.evicted);
        SizeAfterUpdate(Swept(c, t, e.now) - e.evicted, e.key, Failed(c, FRESH, e.now));
      }
    }
  }

  // ----- the limiter -----

  class Limiter {
    const config: Config
    var states: Table

    constructor (config: Config)
      ensures this.config == config && states == After(config, [])
    {
      this.config := config;
      states := map[];
    }

    method PruneFailures(s: RateState, now: nat) returns (r: RateState)
      ensures r == Prune(config, s, now)
    {
      var cutoff := now - config.window;
      var failures: seq<nat> := s.failures;
      while failures != [] && failures[0] <= cutoff
        invariant Recent(failures, cutoff) == Recent(s.failures, cutoff)
        decreases |failures|
      {
        failures := failures[1..];
      }
      var until := s.blockedUntil;
      if until <= now { until := 0; }
      r := RateState(failures, until, s.lastSeen);
    }

    /** Prune every state and erase the idle ones. */
    method Sweep(now: nat)
      modifies this
      ensures states == Swept(config, old(states), now)
    {
      hide Prune;
      var todo := states.Keys;
      ghost var before := states;
      while todo != {}
        invariant todo <= before.Keys && states.Keys <= before.Keys
        invariant forall k :: k in todo ==> k in states && states[k] == before[k]
        invariant forall k :: k in before && k !in todo ==>
                    if Idle(Prune(config, before[k], now)) then k !in states
                    else k in states && states[k] == Prune(config, before[k], now)
        decreases |todo|
      {
        var k :| k in todo;
        var s := PruneFailures(states[k], now);
        if Idle(s) {
          states := states - {k};
        } else {
          states := states[k := s];
        }
        todo := todo - {k};
      }
      assert states == Swept(config, before, now);
    }

    /** Sweep, then evict the entries seen longest ago until there is room for one more. */
    method BoundRateTable(now: nat) returns (ghost evicted: set<string>)
      modifies this
      ensures MakesRoom(Swept(config, old(states), now), evicted)
      ensures states == Swept(config, old(states), now) - evicted
    {
      hide Swept;
      Sweep(now);
      ghost var swept := states;
      evicted := {};
      while |states| >= MAX_ENTRIES
        invariant evicted <= swept.Keys && states == swept - evicted
        invariant if |swept| < MAX_ENTRIES then evicted == {} else |swept| - |evicted| >= MAX_ENTRIES - 1
        invariant forall j, k :: j in evicted && k in states ==> swept[j].lastSeen <= states[k].lastSeen
        decreases |states|
      {
        SizeAfterRemoval(swept, evicted);
        var oldest := Oldest();
        SizeAfterRemoval(states, {oldest});
        states := states - {oldest};
        evicted := evicted + {oldest};
        assert states == swept - evicted;
      }
      SizeAfterRemoval(swept, evicted);
      assert forall k :: k in swept && k !in evicted ==> k in states && states[k] == swept[k];
    }

    method Oldest() returns (oldest: string)
      requires states != map[]
      ensures oldest in states && forall k :: k in states ==> states[oldest].lastSeen <= states[k].lastSeen
    {
      oldest :| oldest in states;
      var rest := states.Keys - {oldest};
      while rest != {}
        invariant oldest in states && rest <= states.Keys
        invariant forall k :: k in states && k !in rest ==> states[oldest].lastSeen <= states[k].lastSeen
        decreases |rest|
      {
        var k :| k in rest;
        if states[k].lastSeen < states[oldest].lastSeen { oldest := k; }
        rest := rest - {k};
      }
    }

    method RateLimitRetryAfter(key: string, now: nat) returns (retryAfter: Option<nat>)
      modifies this
      ensures Check(config, old(states), key, now) == Checked(states, retryAfter)
    {
      hide Prune;
      if key !in states { return None; }
      var s := PruneFailures(states[key], now);
      s := s.(lastSeen := now);
      states := states[key := s];
      if s.blockedUntil > now {
        return Some(Min(s.blockedUntil - now, INT_MAX));
      }
      retryAfter := None;
    }

    method RecordFailure(key: string, now: nat) returns (ghost evicted: set<string>)
      modifies this
      ensures states == Record(config, old(states), key, now, evicted)
      ensures if key in old(states) then evicted == {} else MakesRoom(Swept(config, old(states), now), evicted)
    {
      hide Prune, Swept, MakesRoom;
      evicted := {};
      var s := FRESH;
      if key in states {
        s := states[key];
      } else {
        evicted := BoundRateTable(now);
      }
      var p := PruneFailures(s, now);
      var failures := p.failures + [now];
      p := p.(failures := failures, lastSeen := now);
      if |failures| >= config.maxFailures {
        p := p.(blockedUntil := now + config.cooldown);
      }
      states := states[key := p];
    }

    method ClearFailures(key: string)
      modifies this
      ensures states == old(states) - {key}
    {
      states := states - {key};
    }

    /** One login with well-formed credentials; `verdict` stands for the database and the password check. */
    method Attempt(key: string, now: nat, verdict: Verdict) returns (status: Status, ghost evicted: set<string>)
      modifies this
      ensures Fits(config, old(states), Login(key, now, verdict, evicted))
      ensures states == Step(config, old(states), Login(key, now, verdict, evicted))
      ensures status == Answer(config, old(states), Login(key, now, verdict, evicted))
    {
      hide Prune, Swept, MakesRoom, Failed;
      evicted := {};
      var retryAfter := RateLimitRetryAfter(key, now);
      if retryAfter.Some? {
        return RateLimited(retryAfter.value), {};
      }
      match verdict
      case BadCredentials =>
        evicted := RecordFailure(key, now);
        status := InvalidCredentials;
      case SessionStored(reported) =>
        ClearFailures(key);
        status := if reported then Success else Unavailable;
      case DatabaseFailed =>
        status := Unavailable;
    }
  }
}
