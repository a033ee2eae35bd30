/** The tick loop with its cycle and child as a timed step system (agent-rust/src/agent.rs,
    cycle.rs, child.rs, config.rs). Time is an integer in units of which `second` make a second;
    timers fire and pending wake-ups run without delay, any other delay is overhead of a cycle. */
module AgentLoop {
  import opened Basics

  datatype Config = Config(second: nat, periodSecs: nat, timeoutSecs: nat)

  /** `Config::resolve`: the timeout, in whole seconds and at least one, must be below the period. */
  predicate Accepted(cfg: Config) {
    cfg.second > 0 && 0 < cfg.timeoutSecs < cfg.periodSecs
  }

  function Period(cfg: Config): nat { cfg.periodSecs * cfg.second }
  function Timeout(cfg: Config): nat { cfg.timeoutSecs * cfg.second }

  /** What is left of the period after the timeout is at least a second. */
  lemma Slack(cfg: Config)
    requires Accepted(cfg)
    ensures Timeout(cfg) + cfg.second <= Period(cfg)
  {
    var d: nat := cfg.periodSecs - cfg.timeoutSecs - 1;
    Distribute(cfg.timeoutSecs + 1, d, cfg.second);
    Distribute(cfg.timeoutSecs, 1, cfg.second);
  }

  lemma Distribute(a: nat, b: nat, c: nat)
    ensures (a + b) * c == a * c + b * c && b * c >= 0
  {
  }

  /** The loop selects between tick and cancellation, or awaits a cycle, which works or waits for
      its child, or has ended. */
  datatype Phase = Selecting | Working | WaitingForChild | Ended

  datatype State = State(
    now: int,
    next: int,               // deadline of the ticker
    phase: Phase,
    cancelled: Option<int>,  // when the token was cancelled
    starts: seq<int>,        // when cycles started
    late: nat,               // cycles started after the cancellation
    overhead: nat,           // time the current or last cycle did not spend waiting for its child
    spawned: bool,           // the current cycle has got to its child
    giveUp: int,             // deadline of the child wait
    alive: nat)              // children alive

  function Init(t0: int): State {
    State(t0, t0, Selecting, None, [], 0, 0, false, t0, 0)
  }

  datatype CycleResult = Succeeded | Failed | Panicked

  datatype Action =
    | Elapse(d: nat)
    | Cancel
    | Tick            // the select takes the tick and starts a cycle
    | Stop            // the select takes the cancellation
    | Spawn
    | SpawnFails      // no child: missing binary, or bound too late and killed at once
    | ChildEnds       // exited, or waiting for it failed
    | ChildTimesOut
    | ChildCancelled  // the child wait sees the token and drops, that is kills, the child
    | CycleEnds(result: CycleResult)

  predicate Enabled(cfg: Config, s: State, a: Action) {
    match a
    case Elapse(d) =>
      d > 0 && (match s.phase
                case Selecting => s.cancelled.None? && s.now + d <= s.next
                case Working => true
                case WaitingForChild => s.cancelled.None? && s.now + d <= s.giveUp
                case Ended => false)
    case Cancel => s.cancelled.None?
    case Tick => s.phase == Selecting && s.now >= s.next
    case Stop => s.phase == Selecting && s.cancelled.Some?
    case Spawn => s.phase == Working && !s.spawned
    case SpawnFails => s.phase == Working && !s.spawned
    case ChildEnds => s.phase == WaitingForChild
    case ChildTimesOut => s.phase == WaitingForChild && s.now >= s.giveUp
    case ChildCancelled => s.phase == WaitingForChild && s.cancelled.Some?
    case CycleEnds(_) => s.phase == Working
  }

  function Do(cfg: Config, s: State, a: Action): State {
    match a
    case Elapse(d) => s.(now := s.now + d, overhead := if s.phase == Working then s.overhead + d else s.overhead)
    case Cancel => s.(cancelled := Some(s.now))
    case Tick => s.(phase := Working, next := s.now + Period(cfg), starts := s.starts + [s.now],
                    late := if s.cancelled.Some? then s.late + 1 else s.late, overhead := 0, spawned := false)
    case Stop => s.(phase := Ended)
    case Spawn => s.(phase := WaitingForChild, spawned := true, giveUp := s.now + Timeout(cfg), alive := s.alive + 1)
    case SpawnFails => s.(spawned := true)
    case ChildEnds | ChildTimesOut | ChildCancelled => s.(phase := Working, alive := if s.alive > 0 then s.alive - 1 else 0)
    case CycleEnds(_) => s.(phase := Selecting)
  }

  function After(cfg: Config, s: State, run: seq<Action>): State
    decreases |run|
  {
    if run == [] then s else After(cfg, Do(cfg, s, run[0]), run[1..])
  }

  /** A run of the system in which no cycle has `bound` or more overhead. */
  ghost predicate Run(cfg: Config, s: State, run: seq<Action>, bound: nat)
    decreases |run|
  {
    s.overhead < bound
    && (run == [] || (Enabled(cfg, s, run[0]) && Run(cfg, Do(cfg, s, run[0]), run[1..], bound)))
  }

  // ---------------------------------------------------------------- children and the end of the loop

  /** At most one child is alive, only while its own cycle waits for it; the loop ends only once it
      has been cancelled. */
  ghost predicate Orderly(s: State) {
    && s.alive == (if s.phase == WaitingForChild then 1 else 0)
    && (s.phase == Ended ==> s.cancelled.Some?)
    && (s.phase == WaitingForChild ==> s.spawned)
    && (s.late > 0 ==> s.cancelled.Some?)
  }

  lemma {:induction false} AlwaysOrderly(cfg: Config, s: State, run: seq<Action>, bound: nat)
    requires Orderly(s) && Run(cfg, s, run, bound)
    ensures Orderly(After(cfg, s, run))
    decreases |run|
  {
    if run != [] {
      AlwaysOrderly(cfg, Do(cfg, s, run[0]), run[1..], bound);
    }
  }

  /** Whatever mix of successes, errors, panics and child outcomes occurs: never two children, the
      loop ends only because of a cancellation, and no child is alive when it has ended. */
  lemma OneChildAndCleanEnd(cfg: Config, t0: int, run: seq<Action>, bound: nat)
    requires Run(cfg, Init(t0), run, bound)
    ensures var s := After(cfg, Init(t0), run);
            s.alive <= 1 && (s.phase == Ended ==> s.cancelled.Some? && s.alive == 0)
  {
    AlwaysOrderly(cfg, Init(t0), run, bound);
  }

  // ---------------------------------------------------------------- cadence

  ghost predicate Spaced(starts: seq<int>, period: nat) {
    forall i, j :: 0 <= i < j < |starts| && j == i + 1 ==> starts[j] - starts[i] >= period
  }

  ghost predicate Paced(cfg: Config, s: State) {
    Spaced(s.starts, Period(cfg)) && (s.starts != [] ==> s.next == s.starts[|s.starts| - 1] + Period(cfg))
  }

  lemma {:induction false} AlwaysPaced(cfg: Config, s: State, run: seq<Action>, bound: nat)
    requires Paced(cfg, s) && Run(cfg, s, run, bound)
    ensures Paced(cfg, After(cfg, s, run))
    decreases |run|
  {
    hide Period;
    if run != [] {
      AlwaysPaced(cfg, Do(cfg, s, run[0]), run[1..], bound);
    }
  }

  /** Consecutive cycles never start closer together than the period, however long they take. */
  lemma NeverTooClose(cfg: Config, t0: int, run: seq<Action>, bound: nat)
    requires Run(cfg, Init(t0), run, bound)
    ensures Spaced(After(cfg, Init(t0), run).starts, Period(cfg))
  {
    AlwaysPaced(cfg, Init(t0), run, bound);
  }

  /** Start of the current or last cycle. */
  function LastStart(s: State): int
    requires s.starts != []
  {
    s.starts[|s.starts| - 1]
  }

  /** When cycle `k` should start. */
  function Grid(cfg: Config, t0: int, k: nat): int {
    t0 + k * Period(cfg)
  }

  lemma GridNext(cfg: Config, t0: int, k: nat)
    ensures Grid(cfg, t0, k + 1) == Grid(cfg, t0, k) + Period(cfg) && Grid(cfg, t0, 0) == t0
  {
    Distribute(k, 1, Period(cfg));
  }

  /** Every start so far was exactly on the grid, and the time of the current cycle is made up of its
      overhead and at most one child wait of at most the timeout. */
  ghost predicate OnGrid(cfg: Config, t0: int, s: State) {
    && (forall k :: 0 <= k < |s.starts| ==> s.starts[k] == Grid(cfg, t0, k))
    && s.next == Grid(cfg, t0, |s.starts|)
    && (s.starts == [] ==> s.phase in {Selecting, Ended} && s.now == t0)
    && (s.phase == Selecting ==> s.now <= s.next)
    && (s.phase == Working && !s.spawned ==> s.now == LastStart(s) + s.overhead)
    && (s.phase == WaitingForChild ==> s.spawned && s.giveUp == LastStart(s) + s.overhead + Timeout(cfg) && s.now <= s.giveUp)
    && (s.phase == Working ==> s.now <= LastStart(s) + s.overhead + Timeout(cfg))
  }

  lemma StepOnGrid(cfg: Config, t0: int, s: State, a: Action, overhead: nat)
    requires OnGrid(cfg, t0, s) && Enabled(cfg, s, a) && overhead + Timeout(cfg) <= Period(cfg)
    requires s.overhead <= overhead && Do(cfg, s, a).overhead <= overhead
    ensures OnGrid(cfg, t0, Do(cfg, s, a))
  {
    GridNext(cfg, t0, |s.starts|);
    if s.starts != [] {
      GridNext(cfg, t0, |s.starts| - 1);
    }
    hide Period, Timeout, Grid;
    var s' := Do(cfg, s, a);
    if a == Tick {
      forall k | 0 <= k < |s'.starts| ensures s'.starts[k] == Grid(cfg, t0, k) {
        assert k < |s.starts| ==> s'.starts[k] == s.starts[k];
      }
    } else {
      assert s'.starts == s.starts && s'.next == s.next;
    }
  }

  lemma {:induction false} AlwaysOnGrid(cfg: Config, t0: int, s: State, run: seq<Action>, overhead: nat)
    requires OnGrid(cfg, t0, s) && Run(cfg, s, run, overhead + 1) && overhead + Timeout(cfg) <= Period(cfg)
    ensures OnGrid(cfg, t0, After(cfg, s, run))
    decreases |run|
  {
    hide OnGrid, Period, Timeout;
    if run != [] {
      StepOnGrid(cfg, t0, s, run[0], overhead);
      AlwaysOnGrid(cfg, t0, Do(cfg, s, run[0]), run[1..], overhead);
    }
  }

  /** Cycle `k` started at exactly `k` periods. */
  ghost predicate OnTime(cfg: Config, t0: int, starts: seq<int>) {
    forall k :: 0 <= k < |starts| ==> starts[k] == t0 + k * Period(cfg)
  }

  /** No drift, and exactly when: all runs whose cycles spend at most `overhead` on anything but waiting
      for their child start every cycle on time, children that run into the timeout included, if and
      only if that overhead and the timeout fit into the period. */
  lemma ExactCadenceIff(cfg: Config, t0: int, overhead: nat)
    requires Period(cfg) > 0
    ensures (forall run | Run(cfg, Init(t0), run, overhead + 1) :: OnTime(cfg, t0, After(cfg, Init(t0), run).starts))
       <==> overhead + Timeout(cfg) <= Period(cfg)
  {
    if overhead + Timeout(cfg) <= Period(cfg) {
      forall run | Run(cfg, Init(t0), run, overhead + 1) ensures OnTime(cfg, t0, After(cfg, Init(t0), run).starts) {
        GridNext(cfg, t0, 0);
        AlwaysOnGrid(cfg, t0, Init(t0), run, overhead);
      }
    } else {
      var run := MoreOverheadDrifts(cfg, t0, overhead);
      assert After(cfg, Init(t0), run).starts[1] != t0 + 1 * Period(cfg);
    }
  }

  /** What the check of the configuration is for: a timeout in whole seconds is below the period if and
      only if it leaves a second for the overhead, with which every cycle still starts on time. */
  lemma AcceptedIff(cfg: Config, t0: int)
    requires cfg.second > 0 && cfg.periodSecs > 0 && cfg.timeoutSecs > 0
    ensures Accepted(cfg)
       <==> forall run | Run(cfg, Init(t0), run, cfg.second + 1) :: OnTime(cfg, t0, After(cfg, Init(t0), run).starts)
  {
    PeriodPositive(cfg);
    ExactCadenceIff(cfg, t0, cfg.second);
    if Accepted(cfg) {
      Slack(cfg);
    } else {
      var d: nat := cfg.timeoutSecs - cfg.periodSecs;
      Distribute(cfg.periodSecs, d, cfg.second);
    }
    hide Run, After;
  }

  lemma PeriodPositive(cfg: Config)
    requires cfg.second > 0 && cfg.periodSecs > 0
    ensures Period(cfg) > 0
  {
    Distribute(cfg.periodSecs - 1, 1, cfg.second);
  }

  /** Putting one step in front of a run. */
  lemma Chain(cfg: Config, s: State, a: Action, rest: seq<Action>, bound: nat, s': State, end: State) returns (run: seq<Action>)
    requires s.overhead < bound && Enabled(cfg, s, a) && s' == Do(cfg, s, a)
    requires Run(cfg, s', rest, bound) && After(cfg, s', rest) == end
    ensures Run(cfg, s, run, bound) && After(cfg, s, run) == end && run == [a] + rest
  {
    run := [a] + rest;
    assert run[1..] == rest;
  }

  /** Time passes, if any. */
  lemma Wait(cfg: Config, s: State, d: nat, rest: seq<Action>, bound: nat, s': State, end: State) returns (run: seq<Action>)
    requires s.overhead < bound && (d > 0 ==> Enabled(cfg, s, Elapse(d))) && s' == Do(cfg, s, Elapse(d))
    requires Run(cfg, s', rest, bound) && After(cfg, s', rest) == end
    ensures Run(cfg, s, run, bound) && After(cfg, s, run) == end
  {
    if d > 0 {
      run := Chain(cfg, s, Elapse(d), rest, bound, s', end);
    } else {
      run := rest;
    }
  }

  /** The first cycle has started, and its child is being waited for since then. */
  function FirstWait(t0: int, p: nat, t: nat): State {
    State(t0, t0 + p, WaitingForChild, None, [t0], 0, 0, true, t0 + t, 1)
  }

  /** The child takes as long as it may, or one unit more than the period, and the cycle then works up
      to one unit more than the period. */
  lemma SlowCycle(cfg: Config, t0: int, t: nat, p: nat, bound: nat) returns (run: seq<Action>, end: State)
    requires 0 < p == Period(cfg) && t == Timeout(cfg) && p - t + 1 < bound && bound > 0
    ensures Run(cfg, FirstWait(t0, p, t), run, bound) && After(cfg, FirstWait(t0, p, t), run) == end
    ensures end.starts == [t0, t0 + p + 1]
  {
    hide Period, Timeout;
    var d: nat := if t <= p then t else p + 1;
    var o: nat := p + 1 - d;
    var s3 := State(t0 + d, t0 + p, WaitingForChild, None, [t0], 0, 0, true, t0 + t, 1);
    var s4 := State(t0 + d, t0 + p, Working, None, [t0], 0, 0, true, t0 + t, 0);
    var s5 := State(t0 + p + 1, t0 + p, Working, None, [t0], 0, o, true, t0 + t, 0);
    var s6 := State(t0 + p + 1, t0 + p, Selecting, None, [t0], 0, o, true, t0 + t, 0);
    end := State(t0 + p + 1, t0 + p + 1 + p, Working, None, [t0, t0 + p + 1], 0, 0, false, t0 + t, 0);
    run := [];
    assert Run(cfg, end, run, bound) && After(cfg, end, run) == end;
    hide Run, After;
    run := Chain(cfg, s6, Tick, run, bound, end, end);
    run := Chain(cfg, s5, CycleEnds(Failed), run, bound, s6, end);
    run := Wait(cfg, s4, o, run, bound, s5, end);
    run := Chain(cfg, s3, ChildEnds, run, bound, s4, end);
    run := Wait(cfg, FirstWait(t0, p, t), d, run, bound, s3, end);
  }

  /** More overhead than fits drifts: after a child that takes its time the next cycle starts late. */
  lemma MoreOverheadDrifts(cfg: Config, t0: int, overhead: nat) returns (run: seq<Action>)
    requires Period(cfg) > 0 && overhead + Timeout(cfg) > Period(cfg)
    ensures Run(cfg, Init(t0), run, overhead + 1) && After(cfg, Init(t0), run).starts == [t0, t0 + Period(cfg) + 1]
  {
    var t, p, bound := Timeout(cfg), Period(cfg), overhead + 1;
    hide Period, Timeout, Run, After;
    var end: State;
    run, end := SlowCycle(cfg, t0, t, p, bound);
    var s1 := State(t0, t0 + p, Working, None, [t0], 0, 0, false, t0, 0);
    run := Chain(cfg, s1, Spawn, run, bound, FirstWait(t0, p, t), end);
    run := Chain(cfg, Init(t0), Tick, run, bound, s1, end);
  }

  // ---------------------------------------------------------------- cycles are isolated

  /** What a cycle ends with makes no difference: whenever one can end, it can end with any result, and
      the loop goes back to its select. */
  lemma CyclesEndAlike(cfg: Config, s: State, a: CycleResult, b: CycleResult)
    ensures Enabled(cfg, s, CycleEnds(a)) <==> Enabled(cfg, s, CycleEnds(b))
    ensures Do(cfg, s, CycleEnds(a)) == Do(cfg, s, CycleEnds(b)) && Do(cfg, s, CycleEnds(a)).phase == Selecting
    ensures s.phase == Working ==> Enabled(cfg, s, CycleEnds(a))
  {
  }

  /** Time since the latest spawn. */
  function SinceSpawn(run: seq<Action>): nat {
    if run == [] then 0
    else match run[|run| - 1]
         case Spawn => 0
         case Elapse(d) => SinceSpawn(run[..|run| - 1]) + d
         case _ => SinceSpawn(run[..|run| - 1])
  }

  /** While a child is waited for, its deadline is a timeout after its spawn. */
  lemma {:induction false} WaitingSince(cfg: Config, s: State, past: seq<Action>, run: seq<Action>, bound: nat)
    requires Run(cfg, s, run, bound) && (s.phase == WaitingForChild ==> s.giveUp == s.now - SinceSpawn(past) + Timeout(cfg) && s.now <= s.giveUp)
    requires s.cancelled.Some? <==> Cancel in past
    ensures var end := After(cfg, s, run);
            && (end.phase == WaitingForChild ==> end.giveUp == end.now - SinceSpawn(past + run) + Timeout(cfg) && end.now <= end.giveUp)
            && (end.cancelled.Some? <==> Cancel in past + run)
    decreases |run|
  {
    if run == [] {
      assert past + run == past;
    } else {
      assert (past + [run[0]])[..|past|] == past;
      hide Timeout, Period;
      WaitingSince(cfg, Do(cfg, s, run[0]), past + [run[0]], run[1..], bound);
      assert past + [run[0]] + run[1..] == past + run;
    }
  }

  /** The outcomes are what they say: a child times out exactly a timeout after its spawn, its wait is
      cancelled and the loop stops only after a cancellation. */
  lemma OutcomesAreTrue(cfg: Config, t0: int, run: seq<Action>, bound: nat)
    requires Run(cfg, Init(t0), run, bound)
    ensures var s := After(cfg, Init(t0), run);
            && (Enabled(cfg, s, ChildTimesOut) ==> SinceSpawn(run) == Timeout(cfg))
            && (Enabled(cfg, s, ChildCancelled) || Enabled(cfg, s, Stop) ==> Cancel in run)
  {
    WaitingSince(cfg, Init(t0), [], run, bound);
    assert [] + run == run;
  }

  /** What a cycle comes to: what becomes of its child, and its own result. */
  datatype Course = Course(child: ChildCourse, result: CycleResult)
  datatype ChildCourse = NoChild | NotSpawned | Exited | TimedOut

  /** What can be seen of a course in a run. */
  function Seen(c: Course): seq<Action> {
    (match c.child
     case NoChild => []
     case NotSpawned => [SpawnFails]
     case Exited => [Spawn, ChildEnds]
     case TimedOut => [Spawn, ChildTimesOut]) + [CycleEnds(c.result)]
  }

  function AllSeen(cs: seq<Course>): seq<Action> {
    if cs == [] then [] else Seen(cs[0]) + AllSeen(cs[1..])
  }

  /** A run without the passing of time and the ticks. */
  function Visible(run: seq<Action>): seq<Action> {
    if run == [] then [] else (if run[0].Elapse? || run[0].Tick? then [] else [run[0]]) + Visible(run[1..])
  }

  /** A run without overhead that shows exactly `shown`. */
  ghost predicate Shows(cfg: Config, s: State, run: seq<Action>, shown: seq<Action>, end: State) {
    Run(cfg, s, run, 1) && After(cfg, s, run) == end && Visible(run) == shown
  }

  lemma Show(cfg: Config, s: State, a: Action, s': State, run: seq<Action>, shown: seq<Action>, end: State) returns (run': seq<Action>)
    requires s.overhead == 0 && Enabled(cfg, s, a) && s' == Do(cfg, s, a) && Shows(cfg, s', run, shown, end)
    ensures Shows(cfg, s, run', (if a.Elapse? || a.Tick? then [] else [a]) + shown, end)
  {
    run' := [a] + run;
    assert run'[1..] == run;
  }

  /** A cycle has just started on the grid. */
  function Started(cfg: Config, s: State): State {
    s.(now := s.next, next := s.next + Period(cfg), phase := Working, starts := s.starts + [s.next], overhead := 0, spawned := false)
  }

  /** A cycle that is done with its child. */
  function AfterChild(cfg: Config, s: State, c: ChildCourse): State {
    match c
    case NoChild => s
    case NotSpawned => s.(spawned := true)
    case Exited => s.(spawned := true, giveUp := s.now + Timeout(cfg))
    case TimedOut => s.(now := s.now + Timeout(cfg), spawned := true, giveUp := s.now + Timeout(cfg))
  }

  /** The child of a cycle. */
  lemma ChildTakesCourse(cfg: Config, s: State, c: Course, run: seq<Action>, shown: seq<Action>, end: State) returns (run': seq<Action>)
    requires s.phase == Working && !s.spawned && s.overhead == 0 && s.cancelled.None? && s.alive == 0 && Timeout(cfg) > 0
    requires Shows(cfg, AfterChild(cfg, s, c.child), run, shown, end)
    ensures Shows(cfg, s, run', (Seen(c)[..|Seen(c)| - 1]) + shown, end)
  {
    hide Timeout, Period, Shows;
    var t := Timeout(cfg);
    var waiting := s.(phase := WaitingForChild, spawned := true, giveUp := s.now + t, alive := 1);
    match c.child {
      case NoChild =>
        run' := run;
        assert Seen(c)[..0] + shown == shown;
      case NotSpawned =>
        run' := Show(cfg, s, SpawnFails, s.(spawned := true), run, shown, end);
        assert Seen(c)[..1] == [SpawnFails];
      case Exited =>
        run' := Show(cfg, waiting, ChildEnds, s.(spawned := true, giveUp := s.now + t), run, shown, end);
        run' := Show(cfg, s, Spawn, waiting, run', [ChildEnds] + shown, end);
        assert Seen(c)[..2] + shown == [Spawn] + ([ChildEnds] + shown);
      case TimedOut =>
        var over := waiting.(now := s.now + t);
        run' := Show(cfg, over, ChildTimesOut, s.(now := s.now + t, spawned := true, giveUp := s.now + t), run, shown, end);
        run' := Show(cfg, waiting, Elapse(t), over, run', [ChildTimesOut] + shown, end);
        assert [] + ([ChildTimesOut] + shown) == [ChildTimesOut] + shown;
        run' := Show(cfg, s, Spawn, waiting, run', [ChildTimesOut] + shown, end);
        assert Seen(c)[..2] + shown == [Spawn] + ([ChildTimesOut] + shown);
    }
  }

  /** One cycle after the other, from the start of one on. */
  lemma {:induction false} CoursesFrom(cfg: Config, s: State, cs: seq<Course>) returns (run: seq<Action>, end: State)
    requires Accepted(cfg) && s.phase == Working && !s.spawned && s.overhead == 0 && s.cancelled.None? && s.alive == 0
    requires s.next == s.now + Period(cfg)
    ensures Shows(cfg, s, run, AllSeen(cs), end) && |end.starts| == |s.starts| + |cs|
    ensures end.phase == Working && end.cancelled.None?
    decreases |cs|
  {
    Slack(cfg);
    Distribute(cfg.timeoutSecs - 1, 1, cfg.second);
    assert 0 < Timeout(cfg) < Period(cfg);
    run, end := [], s;
    if cs != [] {
      hide Timeout, Period, Accepted, Shows, Seen, Started, AfterChild;
      var next := NextStart(cfg, s, cs[0].child);
      NextStarts(cfg, s, cs[0].child);
      run, end := CoursesFrom(cfg, next, cs[1..]);
      run := CourseThenTick(cfg, s, cs[0], run, AllSeen(cs[1..]), end);
    }
  }

  /** The next cycle, once one has taken its course without delay. */
  function NextStart(cfg: Config, s: State, c: ChildCourse): State {
    Started(cfg, AfterChild(cfg, s, c).(phase := Selecting, now := s.next))
  }

  lemma NextStarts(cfg: Config, s: State, c: ChildCourse)
    ensures var next := NextStart(cfg, s, c);
            && next.phase == Working && !next.spawned && next.overhead == 0 && next.cancelled == s.cancelled && next.alive == s.alive
            && next.next == next.now + Period(cfg) && |next.starts| == |s.starts| + 1
  {
    hide Period, Timeout;
  }

  lemma CourseThenTick(cfg: Config, s: State, c: Course, run: seq<Action>, shown: seq<Action>, end: State) returns (run': seq<Action>)
    requires s.phase == Working && !s.spawned && s.overhead == 0 && s.cancelled.None? && s.alive == 0
    requires s.next == s.now + Period(cfg) && 0 < Timeout(cfg) < Period(cfg)
    requires Shows(cfg, NextStart(cfg, s, c.child), run, shown, end)
    ensures Shows(cfg, s, run', Seen(c) + shown, end)
  {
    hide Timeout, Period, Shows, Seen;
    var ended := AfterChild(cfg, s, c.child);
    var selecting := ended.(phase := Selecting);
    var due := selecting.(now := s.next);
    run' := Show(cfg, due, Tick, NextStart(cfg, s, c.child), run, shown, end);
    assert [] + shown == shown;
    run' := Show(cfg, selecting, Elapse(due.now - selecting.now), due, run', shown, end);
    run' := Show(cfg, ended, CycleEnds(c.result), selecting, run', shown, end);
    run' := ChildTakesCourse(cfg, s, c, run', [CycleEnds(c.result)] + shown, end);
    SeenEnds(c);
    assert Seen(c)[..|Seen(c)| - 1] + ([CycleEnds(c.result)] + shown) == Seen(c) + shown;
  }

  lemma SeenEnds(c: Course)
    ensures Seen(c) != [] && Seen(c)[|Seen(c)| - 1] == CycleEnds(c.result)
  {
  }

  /** A run without overhead or cancellation takes its cycles through exactly these courses, one after the
      other on the grid, and then starts the next one. */
  ghost predicate RunsThrough(cfg: Config, t0: int, cs: seq<Course>, run: seq<Action>) {
    var end := After(cfg, Init(t0), run);
    && Run(cfg, Init(t0), run, 1) && Visible(run) == AllSeen(cs) && end.cancelled.None?
    && |end.starts| == |cs| + 1 && OnTime(cfg, t0, end.starts)
  }

  /** Neither an error nor a panic nor anything a child does stops the loop: every sequence of courses is
      run through. */
  lemma AnyCoursesRun(cfg: Config, t0: int, cs: seq<Course>)
    requires Accepted(cfg)
    ensures exists run :: RunsThrough(cfg, t0, cs, run)
  {
    var first := Started(cfg, Init(t0));
    var run, end := CoursesFrom(cfg, first, cs);
    run := Show(cfg, Init(t0), Tick, first, run, AllSeen(cs), end);
    assert [] + AllSeen(cs) == AllSeen(cs);
    Slack(cfg);
    PeriodPositive(cfg);
    ExactCadenceIff(cfg, t0, 0);
    hide Period, Timeout, OnTime;
    assert Run(cfg, Init(t0), run, 0 + 1) && OnTime(cfg, t0, After(cfg, Init(t0), run).starts);
    assert |end.starts| == |first.starts| + |cs| == |cs| + 1;
    assert RunsThrough(cfg, t0, cs, run);
  }

  // ---------------------------------------------------------------- shutdown

  /** After the cancellation at most one more cycle starts; only working takes time any more. */
  ghost predicate ShuttingDown(cfg: Config, s: State, bound: nat) {
    && Orderly(s) && s.overhead < bound
    && (s.cancelled.None? ==> s.late == 0)
    && (s.cancelled.Some? ==>
          && s.late <= 1
          && (s.late == 0 ==> s.now - s.cancelled.value <= s.overhead)
          && (s.late == 1 ==> s.now - s.cancelled.value <= bound - 1 + s.overhead
                              && s.now < s.next && (s.phase in {Working, WaitingForChild} ==> s.now + Period(cfg) == s.next + s.overhead)))
  }

  lemma StepShutsDown(cfg: Config, s: State, a: Action, bound: nat)
    requires bound <= Period(cfg) && ShuttingDown(cfg, s, bound) && Enabled(cfg, s, a)
    requires Do(cfg, s, a).overhead < bound
    ensures ShuttingDown(cfg, Do(cfg, s, a), bound)
  {
    hide Period, Timeout;
  }

  lemma {:induction false} AlwaysShutsDown(cfg: Config, s: State, run: seq<Action>, bound: nat)
    requires bound <= Period(cfg) && ShuttingDown(cfg, s, bound) && Run(cfg, s, run, bound)
    ensures ShuttingDown(cfg, After(cfg, s, run), bound)
    decreases |run|
  {
    hide ShuttingDown, Period;
    if run != [] {
      StepShutsDown(cfg, s, run[0], bound);
      AlwaysShutsDown(cfg, Do(cfg, s, run[0]), run[1..], bound);
    }
  }

  /** If every cycle's overhead is below `bound`, at most a period, then for either choice of the
      select at most one cycle starts after the cancellation, and the time since the cancellation
      stays below two such overheads until the loop has ended. */
  lemma BoundedShutdown(cfg: Config, t0: int, run: seq<Action>, bound: nat)
    requires 0 < bound <= Period(cfg) && Run(cfg, Init(t0), run, bound)
    ensures var s := After(cfg, Init(t0), run);
            s.late <= 1 && (s.cancelled.Some? ==> s.now - s.cancelled.value <= 2 * (bound - 1))
  {
    AlwaysShutsDown(cfg, Init(t0), run, bound);
  }

  /** What follows a cycle that works for a whole period after the cancellation: its end, and the next
      tick, which the select may take however long it has been cancelled. */
  lemma TickAgain(cfg: Config, s: State, p: nat, s': State, rest: seq<Action>, end: State) returns (run: seq<Action>)
    requires s.phase == Working && s.overhead == 0 && s.cancelled.Some? && 0 < p == Period(cfg) && s.next == s.now + p
    requires s' == s.(now := s.now + p, next := s.now + p + p, starts := s.starts + [s.now + p], late := s.late + 1, spawned := false)
    requires Run(cfg, s', rest, p + 1) && After(cfg, s', rest) == end
    ensures Run(cfg, s, run, p + 1) && After(cfg, s, run) == end
  {
    hide Period, Run, After;
    var s1 := s.(now := s.now + p, overhead := p);
    var s2 := s1.(phase := Selecting);
    run := Chain(cfg, s2, Tick, rest, p + 1, s', end);
    run := Chain(cfg, s1, CycleEnds(Succeeded), run, p + 1, s2, end);
    run := Chain(cfg, s, Elapse(p), run, p + 1, s1, end);
  }

  lemma {:induction false} LateCycles(cfg: Config, s: State, p: nat, n: nat) returns (run: seq<Action>)
    requires s.phase == Working && s.overhead == 0 && s.cancelled.Some? && 0 < p == Period(cfg) && s.next == s.now + p
    ensures Run(cfg, s, run, p + 1) && After(cfg, s, run).late == s.late + n
    decreases n
  {
    run := [];
    if n > 0 {
      var s' := s.(now := s.now + p, next := s.now + p + p, starts := s.starts + [s.now + p], late := s.late + 1, spawned := false);
      var rest := LateCycles(cfg, s', p, n - 1);
      run := TickAgain(cfg, s, p, s', rest, After(cfg, s', rest));
    }
  }

  /** A period is the limit: if cycles may have a whole period of overhead, any number of them can start
      after the cancellation. */
  lemma MoreOverheadKeepsGoing(cfg: Config, n: nat)
    requires Accepted(cfg)
    ensures exists run :: Run(cfg, Init(0), run, Period(cfg) + 1) && After(cfg, Init(0), run).late == n
  {
    var p := Period(cfg);
    Slack(cfg);
    assert p > 0;
    hide Period, Run, After;
    var s1 := State(0, p, Working, None, [0], 0, 0, false, 0, 0);
    var s2 := s1.(cancelled := Some(0));
    var run := LateCycles(cfg, s2, p, n);
    var end := After(cfg, s2, run);
    run := Chain(cfg, s1, Cancel, run, p + 1, s2, end);
    run := Chain(cfg, Init(0), Tick, run, p + 1, s1, end);
  }

  /** Steps other than the passing of time that a cancelled loop can still take. */
  function Remaining(s: State): nat {
    (if s.late == 0 then 5 else 0) +
    match s.phase
    case Ended => 0
    case Selecting => 1
    case Working => if s.spawned then 2 else 4
    case WaitingForChild => 3
  }

  /** A cancelled loop gets on: each step other than the passing of time brings the end nearer, and
      until the end there always is such a step. */
  lemma ShutdownProgresses(cfg: Config, s: State, a: Action, bound: nat)
    requires bound <= Period(cfg) && ShuttingDown(cfg, s, bound) && s.cancelled.Some?
    ensures Enabled(cfg, s, a) && !a.Elapse? ==> s.phase != Ended && Remaining(Do(cfg, s, a)) < Remaining(s)
    ensures s.phase != Ended ==> exists b :: Enabled(cfg, s, b) && !b.Elapse?
  {
    if s.phase == Selecting {
      assert Enabled(cfg, s, Stop);
    } else if s.phase == Working {
      assert Enabled(cfg, s, CycleEnds(Succeeded));
    } else if s.phase == WaitingForChild {
      assert Enabled(cfg, s, ChildCancelled);
    }
  }

  /** The token can be cancelled at any time, whatever the loop is at. */
  lemma CancelAnyTime(cfg: Config, s: State)
    requires s.cancelled.None?
    ensures Enabled(cfg, s, Cancel) && Do(cfg, s, Cancel) == s.(cancelled := Some(s.now))
  {
  }

  /** Once it has been, the loop can end at once, whether a child is being waited for or not: without time
      passing, without the child ending by itself, and without another cycle. */
  lemma EndsAtOnce(cfg: Config, s: State) returns (run: seq<Action>)
    requires Orderly(s) && s.cancelled.Some?
    ensures Run(cfg, s, run, s.overhead + 1)
    ensures forall a <- run :: a == ChildCancelled || a.CycleEnds? || a == Stop
    ensures After(cfg, s, run).phase == Ended && After(cfg, s, run).now == s.now
  {
    var bound := s.overhead + 1;
    var over := s.(phase := Ended, alive := 0);
    var selecting := over.(phase := Selecting);
    var working := over.(phase := Working);
    run := [];
    assert Run(cfg, over, run, bound) && After(cfg, over, run) == over;
    hide Run, After;
    if s.phase != Ended {
      run := Chain(cfg, selecting, Stop, run, bound, over, over);
    }
    if s.phase == Working || s.phase == WaitingForChild {
      run := Chain(cfg, working, CycleEnds(Failed), run, bound, selecting, over);
    }
    if s.phase == WaitingForChild {
      run := Chain(cfg, s, ChildCancelled, run, bound, working, over);
    }
  }
}
