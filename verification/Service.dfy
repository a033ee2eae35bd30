/** The Windows service life cycle (agent-rust/src/service/windows.rs): `run_service` on one thread,
    the control handler on another, and the statuses the service control manager (SCM) is told.
    Status and event calls succeed; the SCM calls the handler one control at a time, and only while
    the last status it was told accepts stop and shutdown, which Running alone does. */
module Service {
  import opened Basics

  datatype ExitCode = Win32(code: nat) | ServiceSpecific(code: nat)
  datatype Status = StartPending | Running | StopPending | Stopped(exit: ExitCode)

  const EVENT_STARTED := 1
  const EVENT_STOPPED := 2
  const EVENT_BOOTSTRAP_FAILED := 3
  const EVENT_PANIC := 4
  const EVENT_BAD_ARGUMENTS := 5

  const EXIT_BOOTSTRAP_FAILED := 1
  const EXIT_PANIC := 2
  const EXIT_BAD_ARGUMENTS := 3

  /** How `run_service` came to its end. */
  datatype Ending = OnRequest | BootstrapFailed | Panic | BadArguments

  function ExitOf(e: Ending): ExitCode {
    match e
    case OnRequest => Win32(0)
    case BootstrapFailed => ServiceSpecific(EXIT_BOOTSTRAP_FAILED)
    case Panic => ServiceSpecific(EXIT_PANIC)
    case BadArguments => ServiceSpecific(EXIT_BAD_ARGUMENTS)
  }

  function EventOf(e: Ending): nat {
    match e
    case OnRequest => EVENT_STOPPED
    case BootstrapFailed => EVENT_BOOTSTRAP_FAILED
    case Panic => EVENT_PANIC
    case BadArguments => EVENT_BAD_ARGUMENTS
  }

  /** Where the main thread is. */
  datatype Main =
    | Registered              // the handler can be called; nothing reported yet
    | Parsing                 // StartPending reported
    | Bootstrapping
    | Ready                   // Running reported, event 1 not yet
    | Looping
    | Finishing(how: Ending)  // `run_agent_blocking` has returned or unwound
    | Reporting(how: Ending)  // StopPending reported, or not needed for bad arguments
    | LastReport(how: Ending) // the final event is out
    | Done(how: Ending)

  /** Where the handler is: called with a stop or shutdown control, then past its own report. */
  datatype Handler = Idle | Called | HasReported

  datatype State = State(
    main: Main, handler: Handler, cancelled: bool,
    told: seq<Status>, events: seq<nat>)

  function Init(): State {
    State(Registered, Idle, false, [], [])
  }

  datatype Action =
    | ReportStart
    | Parse(ok: bool)
    | Bootstrap(ok: bool)
    | ReportEvent
    | LoopEnds
    | Unwind          // a panic on the main thread, caught by `catch_unwind`
    | ReportStopPending
    | ReportStopped
    | Deliver         // the SCM calls the handler
    | HandlerReports
    | HandlerCancels

  function Accepting(told: seq<Status>): bool {
    told != [] && told[|told| - 1] == Running
  }

  predicate Enabled(s: State, a: Action) {
    match a
    case ReportStart => s.main == Registered
    case Parse(_) => s.main == Parsing
    case Bootstrap(_) => s.main == Bootstrapping
    case ReportEvent => s.main == Ready || s.main.Reporting?
    case LoopEnds => s.main == Looping && s.cancelled
    case Unwind => (s.main == Bootstrapping || s.main == Ready || s.main == Looping)
    case ReportStopPending => s.main.Finishing?
    case ReportStopped => s.main.LastReport?
    case Deliver => s.handler == Idle && Accepting(s.told)
    case HandlerReports => s.handler == Called
    case HandlerCancels => s.handler == HasReported
  }

  function Tell(s: State, status: Status): State {
    s.(told := s.told + [status])
  }

  function Do(s: State, a: Action): State {
    match a
    case ReportStart => Tell(s, StartPending).(main := Parsing)
    case Parse(ok) => s.(main := if ok then Bootstrapping else Reporting(BadArguments))
    case Bootstrap(ok) => if ok then Tell(s, Running).(main := Ready) else s.(main := Finishing(BootstrapFailed))
    case ReportEvent =>
      if s.main == Ready then s.(events := s.events + [EVENT_STARTED], main := Looping)
      else if s.main.Reporting? then s.(events := s.events + [EventOf(s.main.how)], main := LastReport(s.main.how))
      else s
    case LoopEnds => s.(main := Finishing(OnRequest))
    case Unwind => s.(main := Finishing(Panic))
    case ReportStopPending => if s.main.Finishing? then Tell(s, StopPending).(main := Reporting(s.main.how)) else s
    case ReportStopped =>
      if s.main.LastReport? then Tell(s, Stopped(ExitOf(s.main.how))).(main := Done(s.main.how)) else s
    case Deliver => s.(handler := Called)
    case HandlerReports => Tell(s, StopPending).(handler := HasReported)
    case HandlerCancels => s.(handler := Idle, cancelled := true)
  }

  function After(s: State, run: seq<Action>): State
    decreases |run|
  {
    if run == [] then s else After(Do(s, run[0]), run[1..])
  }

  predicate Possible(s: State, run: seq<Action>)
    decreases |run|
  {
    run == [] || (Enabled(s, run[0]) && Possible(Do(s, run[0]), run[1..]))
  }

  // ---------------------------------------------------------------- traces the SCM may see

  /** What a trace of statuses amounts to. */
  datatype Reading =
    | Nothing
    | Starting                               // StartPending
    | Up                                     // ... Running
    | Stopping(up: bool)                     // ... one or more StopPending
    | Down(direct: bool, up: bool, exit: ExitCode)  // ... Stopped, directly or after StopPending
    | Late(exit: ExitCode)                   // ... one StopPending after Stopped
    | Wrong

  function Extend(r: Reading, status: Status): Reading {
    match (r, status)
    case (Nothing, StartPending) => Starting
    case (Starting, Running) => Up
    case (Starting, StopPending) => Stopping(false)
    case (Starting, Stopped(e)) => if e == ServiceSpecific(EXIT_BAD_ARGUMENTS) then Down(true, false, e) else Wrong
    case (Up, StopPending) => Stopping(true)
    case (Stopping(up), StopPending) => Stopping(up)
    case (Stopping(up), Stopped(e)) => Down(false, up, e)
    case (Down(false, true, e), StopPending) => Late(e)
    case _ => Wrong
  }

  function Read(told: seq<Status>): Reading {
    if told == [] then Nothing else Extend(Read(told[..|told| - 1]), told[|told| - 1])
  }

  function Pendings(n: nat): seq<Status> {
    if n == 0 then [] else Pendings(n - 1) + [StopPending]
  }

  /** StartPending, Running if it got that far, then `n` times StopPending. */
  function Open(up: bool, n: nat): seq<Status> {
    [StartPending] + (if up then [Running] else []) + Pendings(n)
  }

  /** A complete trace: StartPending and Stopped for bad arguments, otherwise optional Running and at
      least one StopPending in between. */
  ghost predicate Complete(told: seq<Status>, up: bool, exit: ExitCode) {
    (told == [StartPending, Stopped(exit)] && Direct(up, exit)) || Closed(told, up, exit)
  }

  /** The traces with a given reading, said without it. */
  ghost predicate Shaped(told: seq<Status>, r: Reading) {
    match r
    case Nothing => told == []
    case Starting => told == [StartPending]
    case Up => told == [StartPending, Running]
    case Stopping(up) => exists n: nat :: n > 0 && told == Open(up, n)
    case Down(direct, up, exit) => if direct then told == [StartPending, Stopped(exit)] && Direct(up, exit) else Closed(told, up, exit)
    case Late(exit) => told != [] && told[|told| - 1] == StopPending && Closed(told[..|told| - 1], true, exit)
    case Wrong => false
  }

  predicate Direct(up: bool, exit: ExitCode) {
    !up && exit == ServiceSpecific(EXIT_BAD_ARGUMENTS)
  }

  ghost predicate Closed(told: seq<Status>, up: bool, exit: ExitCode) {
    exists n: nat :: n > 0 && told == Open(up, n) + [Stopped(exit)]
  }

  lemma {:induction false} ReadOpen(up: bool, n: nat)
    requires n > 0
    ensures Read(Open(up, n)) == Stopping(up)
  {
    ReadUp();
    if n > 1 {
      ReadOpen(up, n - 1);
      assert Open(up, n) == Open(up, n - 1) + [StopPending];
      ReadSnoc(Open(up, n - 1), StopPending);
    } else {
      OpenOne(up);
      ReadSnoc(if up then [StartPending, Running] else [StartPending], StopPending);
    }
  }

  lemma OpenOne(up: bool)
    ensures Open(up, 1) == (if up then [StartPending, Running] else [StartPending]) + [StopPending]
  {
    assert Pendings(1) == [] + [StopPending];
  }

  lemma ReadUp()
    ensures Read([StartPending]) == Starting && Read([StartPending, Running]) == Up
  {
    ReadSnoc([], StartPending);
    ReadSnoc([StartPending], Running);
    assert [] + [StartPending] == [StartPending] && [StartPending] + [Running] == [StartPending, Running];
  }

  lemma ReadClosed(told: seq<Status>, up: bool, exit: ExitCode)
    requires Closed(told, up, exit)
    ensures Read(told) == Down(false, up, exit)
  {
    var n: nat :| n > 0 && told == Open(up, n) + [Stopped(exit)];
    ReadOpen(up, n);
    ReadSnoc(Open(up, n), Stopped(exit));
  }

  /** Every shaped trace has its reading. */
  lemma ShapedReads(told: seq<Status>, r: Reading)
    requires Shaped(told, r)
    ensures Read(told) == r
  {
    ReadUp();
    match r {
      case Stopping(up) =>
        var n: nat :| n > 0 && told == Open(up, n);
        ReadOpen(up, n);
      case Down(true, up, exit) =>
        ReadSnoc([StartPending], Stopped(exit));
        assert told == [StartPending] + [Stopped(exit)];
      case Down(false, up, exit) => ReadClosed(told, up, exit);
      case Late(exit) => ReadClosed(told[..|told| - 1], true, exit);
      case _ =>
    }
  }

  /** One more status keeps the shape that its reading says. */
  lemma ShapeExtends(init: seq<Status>, r: Reading, last: Status)
    requires Shaped(init, r) && Extend(r, last) != Wrong
    ensures Shaped(init + [last], Extend(r, last))
  {
    var told := init + [last];
    match r {
      case Nothing => assert told == [last];
      case Starting =>
        OpenOne(false);
        assert told == [StartPending, last];
      case Up => OpenOne(true);
      case Stopping(up) =>
        var n: nat :| n > 0 && init == Open(up, n);
        assert Open(up, n) + [StopPending] == Open(up, n + 1);
      case Down(_, up, exit) => assert told[..|told| - 1] == init;
      case _ =>
    }
  }

  /** Every trace that does not read as wrong has the shape of its reading. */
  lemma {:induction false} ReadingShapes(told: seq<Status>)
    requires Read(told) != Wrong
    ensures Shaped(told, Read(told))
  {
    if told != [] {
      var init, last := told[..|told| - 1], told[|told| - 1];
      assert told == init + [last];
      ReadingShapes(init);
      ShapeExtends(init, Read(init), last);
    }
  }

  /** The reading of a trace is its shape, in both directions. */
  lemma ShapeOfReading(told: seq<Status>, r: Reading)
    requires r != Wrong
    ensures Read(told) == r <==> Shaped(told, r)
  {
    if Read(told) == r {
      ReadingShapes(told);
    } else if Shaped(told, r) {
      ShapedReads(told, r);
    }
  }

  /** The last status is Running exactly while the reading is `Up`, or the trace is wrong. */
  lemma AcceptingMeansUp(told: seq<Status>)
    requires Accepting(told) && Read(told) != Wrong
    ensures Read(told) == Up
  {
  }

  // ---------------------------------------------------------------- the invariant

  predicate InEnding(m: Main, how: Ending) {
    (m == Finishing(how) || m == Reporting(how) || m == LastReport(how))
  }

  /** The threads agree with what the SCM has been told. */
  predicate Agree(s: State, r: Reading) {
    match r
    case Nothing => s.main == Registered && s.handler == Idle && !s.cancelled
    case Starting =>
      && (s.main == Parsing || s.main == Bootstrapping || s.main == Finishing(BootstrapFailed) || s.main == Finishing(Panic) || s.main == Reporting(BadArguments) || s.main == LastReport(BadArguments))
      && s.handler == Idle && !s.cancelled
    case Up =>
      (s.main == Ready || s.main == Looping || s.main == Finishing(Panic)) && (s.handler == Idle || s.handler == Called) && !s.cancelled
    case Stopping(false) =>
      && (s.main == Reporting(BootstrapFailed) || s.main == Reporting(Panic) || s.main == LastReport(BootstrapFailed) || s.main == LastReport(Panic))
      && s.handler == Idle && !s.cancelled
    case Stopping(true) =>
      && ((s.main == Ready || s.main == Looping) || InEnding(s.main, OnRequest) || InEnding(s.main, Panic))
      && (s.handler == Called ==> (s.main == Reporting(Panic) || s.main == LastReport(Panic)))
      && (s.main == Ready || s.main == Looping ==> s.handler == HasReported || s.cancelled)
      && (InEnding(s.main, OnRequest) ==> s.cancelled)
      && (s.cancelled ==> s.handler == Idle)
    case Down(direct, up, exit) =>
      && s.main.Done? && exit == ExitOf(s.main.how) && (direct <==> s.main.how == BadArguments)
      && (s.main.how == OnRequest ==> s.cancelled && up) && (s.main.how == BootstrapFailed ==> !up)
      && (s.handler == Called ==> s.main.how == Panic && up)
      && (s.cancelled ==> s.handler == Idle && up) && (s.handler != Idle ==> up)
    case Late(exit) =>
      s.main == Done(Panic) && exit == ExitOf(Panic) && s.handler != Called && (s.cancelled ==> s.handler == Idle)
    case Wrong => false
  }

  /** The events so far. */
  predicate EventsAgree(s: State) {
    match s.main
    case Looping => s.events == [EVENT_STARTED]
    case Finishing(how) => s.events == Before(how) || (how == Panic && s.events == [])
    case Reporting(how) => s.events == Before(how) || (how == Panic && s.events == [])
    case LastReport(how) => s.events == Before(how) + [EventOf(how)] || (how == Panic && s.events == [EVENT_PANIC])
    case Done(how) => s.events == Before(how) + [EventOf(how)] || (how == Panic && s.events == [EVENT_PANIC])
    case _ => s.events == []
  }

  /** Events before the final one; a panic during bootstrap comes before event 1. */
  function Before(how: Ending): seq<nat> {
    if (how == OnRequest || how == Panic) then [EVENT_STARTED] else []
  }

  predicate Inv(s: State) {
    Agree(s, Read(s.told)) && EventsAgree(s)
  }

  lemma ReadSnoc(told: seq<Status>, status: Status)
    ensures Read(told + [status]) == Extend(Read(told), status)
  {
    assert (told + [status])[..|told|] == told;
  }

  lemma StepEvents(s: State, a: Action)
    requires EventsAgree(s) && Enabled(s, a)
    ensures EventsAgree(Do(s, a))
  {
    hide Accepting;
  }

  /** What a step tells the SCM. */
  function Telling(s: State, a: Action): Option<Status> {
    match a
    case ReportStart => Some(StartPending)
    case Bootstrap(true) => Some(Running)
    case ReportStopPending => Some(StopPending)
    case ReportStopped => if s.main.LastReport? then Some(Stopped(ExitOf(s.main.how))) else None
    case HandlerReports => Some(StopPending)
    case _ => None
  }

  lemma StepTells(s: State, a: Action)
    requires Enabled(s, a)
    ensures Do(s, a).told == match Telling(s, a) case None => s.told case Some(status) => s.told + [status]
  {
    hide Accepting;
  }

  lemma StepAgrees(s: State, a: Action, r: Reading)
    requires Agree(s, r) && Enabled(s, a) && (a == Deliver ==> r == Up)
    ensures Agree(Do(s, a), match Telling(s, a) case None => r case Some(status) => Extend(r, status))
  {
    hide Accepting;
  }

  lemma StepKeepsInv(s: State, a: Action)
    requires Inv(s) && Enabled(s, a)
    ensures Inv(Do(s, a))
  {
    StepEvents(s, a);
    StepTells(s, a);
    if Telling(s, a).Some? {
      ReadSnoc(s.told, Telling(s, a).value);
    }
    if a == Deliver {
      AcceptingMeansUp(s.told);
    }
    StepAgrees(s, a, Read(s.told));
    hide Read, Accepting, Agree, EventsAgree, Do, Enabled, Telling, Extend;
  }

  lemma {:induction false} AlwaysInv(s: State, run: seq<Action>)
    requires Inv(s) && Possible(s, run)
    ensures Inv(After(s, run))
    decreases |run|
  {
    hide Inv;
    if run != [] {
      StepKeepsInv(s, run[0]);
      AlwaysInv(Do(s, run[0]), run[1..]);
    }
  }

  // ---------------------------------------------------------------- the properties

  /** A complete trace with the exit code of `how`, followed by nothing or, after a panic only, by one
      late StopPending. */
  ghost predicate FinalTrace(told: seq<Status>, how: Ending) {
    exists t, up ::
      && Complete(t, up, ExitOf(how)) && (told == t || (told == t + [StopPending] && how == Panic && up))
      && (how == OnRequest ==> up) && (how == BootstrapFailed ==> !up)
  }

  lemma DownTrace(told: seq<Status>, direct: bool, up: bool, how: Ending)
    requires Shaped(told, Down(direct, up, ExitOf(how)))
    requires (how == OnRequest ==> up) && (how == BootstrapFailed ==> !up)
    ensures FinalTrace(told, how)
  {
    assert Complete(told, up, ExitOf(how));
    hide Closed, Direct, Complete;
  }

  lemma LateTrace(told: seq<Status>)
    requires Shaped(told, Late(ExitOf(Panic)))
    ensures FinalTrace(told, Panic)
  {
    var t := told[..|told| - 1];
    assert told == t + [StopPending] && Complete(t, true, ExitOf(Panic));
    hide Closed, Direct, Complete;
  }

  /** Every interleaving, panics included: once `run_service` has returned, the SCM has been told a
      complete trace with the exit code of the way it ended, followed by nothing or, after a panic
      only, by one late StopPending. */
  lemma ServiceTrace(run: seq<Action>)
    requires Possible(Init(), run)
    ensures var s := After(Init(), run); s.main.Done? ==> FinalTrace(s.told, s.main.how)
  {
    AlwaysInv(Init(), run);
    var s := After(Init(), run);
    var r := Read(s.told);
    assert r != Wrong;
    ReadingShapes(s.told);
    hide After, Read, Shaped, FinalTrace, EventsAgree;
    if r.Late? {
      LateTrace(s.told);
    } else if r.Down? {
      DownTrace(s.told, r.direct, r.up, s.main.how);
    }
  }

  /** Without a panic nothing follows Stopped, and at every earlier moment the trace is a legal
      beginning. */
  lemma NothingAfterStopped(run: seq<Action>)
    requires Possible(Init(), run) && Unwind !in run
    ensures var r := Read(After(Init(), run).told); !r.Wrong? && !r.Late?
  {
    AlwaysInv(Init(), run);
    NoPanic(Init(), run);
  }

  predicate Ended(s: State, how: Ending) {
    InEnding(s.main, how) || s.main == Done(how)
  }

  lemma {:induction false} NoPanic(s: State, run: seq<Action>)
    requires Possible(s, run) && Unwind !in run && !Ended(s, Panic)
    ensures !Ended(After(s, run), Panic)
    decreases |run|
  {
    if run != [] {
      assert run[0] != Unwind;
      NoPanic(Do(s, run[0]), run[1..]);
    }
  }

  /** What brings an ending about. */
  function Cause(how: Ending): Action {
    match how
    case OnRequest => LoopEnds
    case BootstrapFailed => Bootstrap(false)
    case Panic => Unwind
    case BadArguments => Parse(false)
  }

  /** Every finished run reports the exit code and the event of what happened in it, and no other: 0 and
      event 2 for a loop that a stop or shutdown control ended, 1 and event 3 for a failed bootstrap, 2 and
      event 4 for a panic, 3 and event 5 for arguments that do not parse. */
  lemma ExitCodesAndEvents(run: seq<Action>)
    requires Possible(Init(), run) && After(Init(), run).main.Done?
    ensures var told, events := After(Init(), run).told, After(Init(), run).events;
            && (LoopEnds in run <==> Stopped(Win32(0)) in told) && (LoopEnds in run <==> 2 in events)
            && (Bootstrap(false) in run <==> Stopped(ServiceSpecific(1)) in told) && (Bootstrap(false) in run <==> 3 in events)
            && (Unwind in run <==> Stopped(ServiceSpecific(2)) in told) && (Unwind in run <==> 4 in events)
            && (Parse(false) in run <==> Stopped(ServiceSpecific(3)) in told) && (Parse(false) in run <==> 5 in events)
  {
    AlwaysInv(Init(), run);
    var s := After(Init(), run);
    hide Possible, After, Inv;
    forall how: Ending ensures Cause(how) in run <==> s.main.how == how {
      EndedByCause(run, how);
    }
    assert Cause(OnRequest) == LoopEnds && Cause(BootstrapFailed) == Bootstrap(false);
    assert Cause(Panic) == Unwind && Cause(BadArguments) == Parse(false);
    Reports(s);
  }

  /** What has been reported in the end, by the way it came. */
  lemma Reports(s: State)
    requires Inv(s) && s.main.Done?
    ensures Stopped(Win32(0)) in s.told <==> s.main.how == OnRequest
    ensures Stopped(ServiceSpecific(1)) in s.told <==> s.main.how == BootstrapFailed
    ensures Stopped(ServiceSpecific(2)) in s.told <==> s.main.how == Panic
    ensures Stopped(ServiceSpecific(3)) in s.told <==> s.main.how == BadArguments
    ensures 2 in s.events <==> s.main.how == OnRequest
    ensures 3 in s.events <==> s.main.how == BootstrapFailed
    ensures 4 in s.events <==> s.main.how == Panic
    ensures 5 in s.events <==> s.main.how == BadArguments
  {
    ToldByReading(s.told);
  }

  /** Running and event 1 are for a bootstrap that works: a service that was asked to stop has reported
      both, one whose bootstrap or arguments failed neither. */
  lemma StartedWhenBootstrapped(run: seq<Action>)
    requires Possible(Init(), run) && After(Init(), run).main.Done?
    ensures var s := After(Init(), run);
            && (Running in s.told ==> Bootstrap(true) in run) && (1 in s.events ==> Running in s.told)
            && (LoopEnds in run ==> s.cancelled && Running in s.told && 1 in s.events)
            && (Bootstrap(false) in run || Parse(false) in run ==> Running !in s.told && 1 !in s.events)
  {
    AlwaysInv(Init(), run);
    var s := After(Init(), run);
    RunningInShape(s.told);
    RunningByBootstrap(Init(), run);
    EndedByCause(run, OnRequest);
    EndedByCause(run, BootstrapFailed);
    EndedByCause(run, BadArguments);
    EventsByEnding(run);
    assert Cause(OnRequest) == LoopEnds && Cause(BootstrapFailed) == Bootstrap(false) && Cause(BadArguments) == Parse(false);
    hide After, Possible, Read, EventsAgree;
  }

  lemma EventsByEnding(run: seq<Action>)
    requires Possible(Init(), run) && After(Init(), run).main.Done?
    ensures var s := After(Init(), run);
            && (s.main.how == OnRequest ==> 1 in s.events)
            && (s.main.how == BootstrapFailed || s.main.how == BadArguments ==> 1 !in s.events)
            && (1 in s.events ==> Running in s.told)
  {
    AlwaysInv(Init(), run);
    StartedOnceRunning(Init(), run);
  }

  /** Event 1 is out, or about to be, only once Running has been told. */
  predicate StartedIsRunning(s: State) {
    1 in s.events || s.main == Ready ==> Running in s.told
  }

  lemma StepStarted(s: State, a: Action)
    requires Enabled(s, a) && StartedIsRunning(s)
    ensures StartedIsRunning(Do(s, a))
  {
    StepTells(s, a);
    hide Accepting;
    if Telling(s, a).Some? {
      KeepsTold(s.told, Telling(s, a).value);
    }
  }

  lemma KeepsTold(told: seq<Status>, status: Status)
    ensures status in told + [status] && forall t <- told :: t in told + [status]
  {
    assert (told + [status])[|told|] == status;
  }

  lemma {:induction false} StartedOnceRunning(s: State, run: seq<Action>)
    requires Possible(s, run) && StartedIsRunning(s)
    ensures StartedIsRunning(After(s, run))
    decreases |run|
  {
    hide StartedIsRunning;
    if run != [] {
      StepStarted(s, run[0]);
      StartedOnceRunning(Do(s, run[0]), run[1..]);
    }
  }

  lemma {:induction false} RunningByBootstrap(s: State, run: seq<Action>)
    requires Possible(s, run) && Running !in s.told
    ensures Running in After(s, run).told ==> Bootstrap(true) in run
    decreases |run|
  {
    if run != [] && run[0] != Bootstrap(true) {
      RunningByBootstrap(Do(s, run[0]), run[1..]);
    }
  }

  /** Which traces hold Running. */
  lemma RunningInShape(told: seq<Status>)
    requires Read(told).Down? || Read(told).Late?
    ensures Running in told <==> Read(told).Late? || Read(told).up
  {
    ReadingShapes(told);
    ToldByReading(told);
    if Read(told).Late? || (Read(told).up && !Read(told).direct) {
      assert told[1] == Running;
    }
  }

  /** No Stopped but with this code, and Running only if `up`. */
  predicate OnlySays(told: seq<Status>, exit: Option<ExitCode>, up: bool) {
    forall t <- told :: (t.Stopped? ==> exit == Some(t.exit)) && (t.Running? ==> up)
  }

  /** What a trace with a given reading says. */
  predicate Says(told: seq<Status>, r: Reading) {
    match r
    case Nothing => OnlySays(told, None, false)
    case Starting => OnlySays(told, None, false)
    case Up => OnlySays(told, None, true)
    case Stopping(up) => OnlySays(told, None, up)
    case Down(_, up, exit) => Stopped(exit) in told && OnlySays(told, Some(exit), up)
    case Late(exit) => Stopped(exit) in told && OnlySays(told, Some(exit), true)
    case Wrong => true
  }

  lemma OnlySaysSnoc(told: seq<Status>, status: Status, exit: Option<ExitCode>, up: bool)
    requires OnlySays(told, exit, up)
    ensures status.StartPending? || status.StopPending? ==> OnlySays(told + [status], exit, up)
    ensures status.Running? ==> OnlySays(told + [status], exit, true)
    ensures status.Stopped? && exit.None? ==> OnlySays(told + [status], Some(status.exit), up)
    ensures status in told + [status] && forall t <- told :: t in told + [status]
    ensures up ==> OnlySays(told, exit, true)
  {
    KeepsTold(told, status);
    assert forall t <- told + [status] :: t == status || t in told;
  }

  lemma SaysSnoc(told: seq<Status>, r: Reading, status: Status)
    requires Says(told, r)
    ensures Says(told + [status], Extend(r, status))
  {
    hide OnlySays;
    match r {
      case Nothing => OnlySaysSnoc(told, status, None, false);
      case Starting => OnlySaysSnoc(told, status, None, false);
      case Up => OnlySaysSnoc(told, status, None, true);
      case Stopping(up) => OnlySaysSnoc(told, status, None, up);
      case Down(_, up, exit) => OnlySaysSnoc(told, status, Some(exit), up);
      case _ =>
    }
  }

  lemma {:induction false} ToldByReading(told: seq<Status>)
    ensures Says(told, Read(told))
  {
    if told != [] {
      hide Says, Extend;
      var init, last := told[..|told| - 1], told[|told| - 1];
      assert told == init + [last];
      ToldByReading(init);
      SaysSnoc(init, Read(init), last);
    }
  }

  lemma StepEnds(s: State, a: Action, how: Ending)
    requires Enabled(s, a)
    ensures Ended(s, how) || a == Cause(how) ==> Ended(Do(s, a), how)
    ensures Ended(Do(s, a), how) ==> Ended(s, how) || a == Cause(how)
  {
    hide Accepting;
  }

  lemma {:induction false} CausedBefore(s: State, run: seq<Action>, how: Ending)
    requires Possible(s, run) && !Ended(s, how) && Ended(After(s, run), how)
    ensures Cause(how) in run
    decreases |run|
  {
    hide Ended, Do, Enabled, Cause;
    if run != [] {
      StepEnds(s, run[0], how);
      if run[0] != Cause(how) {
        CausedBefore(Do(s, run[0]), run[1..], how);
      }
    }
  }

  lemma {:induction false} EndingStays(s: State, run: seq<Action>, how: Ending)
    requires Possible(s, run) && Ended(s, how)
    ensures Ended(After(s, run), how)
    decreases |run|
  {
    hide Ended, Do, Enabled, Cause;
    if run != [] {
      StepEnds(s, run[0], how);
      EndingStays(Do(s, run[0]), run[1..], how);
    }
  }

  lemma {:induction false} CauseEnds(s: State, run: seq<Action>, how: Ending)
    requires Possible(s, run) && Cause(how) in run
    ensures Ended(After(s, run), how)
    decreases |run|
  {
    hide Ended, Do, Enabled, Cause;
    StepEnds(s, run[0], how);
    if run[0] == Cause(how) {
      EndingStays(Do(s, run[0]), run[1..], how);
    } else {
      CauseEnds(Do(s, run[0]), run[1..], how);
    }
  }

  lemma EndedByCause(run: seq<Action>, how: Ending)
    requires Possible(Init(), run)
    ensures Cause(how) in run <==> Ended(After(Init(), run), how)
  {
    if Cause(how) in run {
      CauseEnds(Init(), run, how);
    } else if Ended(After(Init(), run), how) {
      CausedBefore(Init(), run, how);
    }
  }

  /** A panic can happen at any time while the agent runs, and a bootstrap can fail or work. */
  lemma PanicAnyTime(s: State)
    requires s.main == Bootstrapping || s.main == Ready || s.main == Looping
    ensures Enabled(s, Unwind) && Do(s, Unwind) == s.(main := Finishing(Panic))
    ensures s.main == Bootstrapping ==> Enabled(s, Bootstrap(true)) && Enabled(s, Bootstrap(false))
  {
  }

  // ---------------------------------------------------------------- no run gets stuck

  function Remaining(s: State): nat {
    4 * (match s.main
         case Registered => 8
         case Parsing => 7
         case Bootstrapping => 6
         case Ready => 5
         case Looping => 4
         case Finishing(_) => 3
         case Reporting(_) => 2
         case LastReport(_) => 1
         case Done(_) => 0)
    + if s.cancelled then 0 else match s.handler case Idle => 3 case Called => 2 case HasReported => 1
  }

  /** Every run comes to an end, since each step of either thread leaves less to do; and until the service
      has stopped there is always a step to take, without any panic. A loop that is not cancelled waits
      for the SCM, whose stop is then accepted and leads to the cancellation. */
  lemma ServiceProgresses(run: seq<Action>, a: Action)
    requires Possible(Init(), run)
    ensures var s := After(Init(), run);
            && (Enabled(s, a) ==> Remaining(Do(s, a)) < Remaining(s))
            && (!s.main.Done? ==> exists b :: b != Unwind && Enabled(s, b))
            && (s.main == Looping && !s.cancelled && s.handler == Idle ==> Enabled(s, Deliver))
  {
    AlwaysInv(Init(), run);
    var s := After(Init(), run);
    hide After, Possible;
    if Enabled(s, a) {
      if a == Deliver {
        AcceptingMeansUp(s.told);
      }
      StepsLeaveLess(s, a);
    }
    if !s.main.Done? {
      SomeStep(s);
    }
  }

  lemma StepsLeaveLess(s: State, a: Action)
    requires Inv(s) && Enabled(s, a) && (a == Deliver ==> Read(s.told) == Up)
    ensures Remaining(Do(s, a)) < Remaining(s)
  {
  }

  lemma SomeStep(s: State)
    requires Inv(s) && !s.main.Done?
    ensures exists b :: b != Unwind && Enabled(s, b)
    ensures s.main == Looping && !s.cancelled && s.handler == Idle ==> Enabled(s, Deliver)
  {
    var b := match s.main
             case Registered => ReportStart
             case Parsing => Parse(true)
             case Bootstrapping => Bootstrap(true)
             case Ready => ReportEvent
             case Looping =>
               (if s.cancelled then LoopEnds else match s.handler case Idle => Deliver case Called => HandlerReports case HasReported => HandlerCancels)
             case Finishing(_) => ReportStopPending
             case Reporting(_) => ReportEvent
             case LastReport(_) => ReportStopped
             case Done(_) => Deliver;
    if b == Deliver {
      LoopIsUp(s);
    }
    assert Enabled(s, b);
  }

  /** A loop that has not been asked to stop is what the SCM takes for running. */
  lemma LoopIsUp(s: State)
    requires Inv(s) && s.main == Looping && !s.cancelled && s.handler == Idle
    ensures Accepting(s.told)
  {
    ReadingShapes(s.told);
  }

  // ---------------------------------------------------------------- the late report

  /** Nothing has been reported after Stopped. */
  predicate StoppedIsLast(told: seq<Status>) {
    forall i :: 0 <= i < |told| - 1 ==> !told[i].Stopped?
  }

  /** After a panic: no stop is on its way to being reported and none can be delivered. */
  predicate Settled(s: State) {
    && Ended(s, Panic) && s.handler != Called && !Accepting(s.told)
    && StoppedIsLast(s.told) && (s.told != [] && s.told[|s.told| - 1].Stopped? ==> s.main.Done?)
  }

  lemma {:induction false} SettledStays(s: State, run: seq<Action>)
    requires Settled(s) && Possible(s, run)
    ensures Settled(After(s, run))
    decreases |run|
  {
    if run != [] {
      SettledStep(s, run[0]);
      SettledStays(Do(s, run[0]), run[1..]);
    }
  }

  lemma SettledStep(s: State, a: Action)
    requires Settled(s) && Enabled(s, a)
    ensures Settled(Do(s, a))
  {
  }

  lemma StoppedThenPending(told: seq<Status>)
    ensures !StoppedIsLast(told + [Stopped(ServiceSpecific(EXIT_PANIC))] + [StopPending])
  {
    assert (told + [Stopped(ServiceSpecific(EXIT_PANIC))] + [StopPending])[|told|] == Stopped(ServiceSpecific(EXIT_PANIC));
  }

  /** A panic was caught while the SCM still takes the service for running. */
  lemma LateReportHappens(s: State) returns (more: seq<Action>)
    requires s.main == Finishing(Panic) && Accepting(s.told) && (s.handler == Idle || s.handler == Called)
    ensures Possible(s, more) && !StoppedIsLast(After(s, more).told)
    ensures After(s, more).told == s.told + [StopPending] + [Stopped(ServiceSpecific(EXIT_PANIC))] + [StopPending]
  {
    var t2 := s.told + [StopPending];
    var t3 := t2 + [Stopped(ServiceSpecific(EXIT_PANIC))];
    var events := s.events + [EVENT_PANIC];
    var s1 := s.(handler := Called);
    var s2 := s1.(main := Reporting(Panic), told := t2);
    var s3 := s2.(main := LastReport(Panic), events := events);
    var s4 := s3.(main := Done(Panic), told := t3);
    var end := s4.(handler := HasReported, told := t3 + [StopPending]);
    StoppedThenPending(t2);
    more := [];
    assert Possible(end, more) && After(end, more) == end;
    hide Possible, After, Accepting, StoppedIsLast;
    more := Chain(s4, HandlerReports, more, end, end);
    more := Chain(s3, ReportStopped, more, s4, end);
    more := Chain(s2, ReportEvent, more, s3, end);
    more := Chain(s1, ReportStopPending, more, s2, end);
    if s.handler == Idle {
      more := Chain(s, Deliver, more, s1, end);
    }
  }

  /** When a panic has been caught it is decided whether a report can follow Stopped: none ever does
      if and only if the last status told is no longer Running. */
  lemma LateReportIff(run: seq<Action>)
    requires Possible(Init(), run) && After(Init(), run).main == Finishing(Panic)
    ensures var s := After(Init(), run);
            (forall more | Possible(s, more) :: StoppedIsLast(After(s, more).told)) <==> !Accepting(s.told)
  {
    AlwaysInv(Init(), run);
    var s := After(Init(), run);
    if Accepting(s.told) {
      AcceptingMeansUp(s.told);
      var more := LateReportHappens(s);
    } else {
      NotCalled(s);
      forall more | Possible(s, more) ensures StoppedIsLast(After(s, more).told) {
        SettledStays(s, more);
      }
    }
  }

  lemma UpIsAccepting(told: seq<Status>)
    ensures Read(told) == Up ==> Accepting(told)
  {
    if Read(told) == Up {
      ReadingShapes(told);
    }
    hide Read;
  }

  lemma NoStopYet(told: seq<Status>, up: bool)
    requires OnlySays(told, None, up)
    ensures StoppedIsLast(told) && (told != [] ==> !told[|told| - 1].Stopped?)
  {
  }

  lemma NotCalled(s: State)
    requires Inv(s) && s.main == Finishing(Panic) && !Accepting(s.told)
    ensures Settled(s)
  {
    ToldByReading(s.told);
    UpIsAccepting(s.told);
    var r := Read(s.told);
    assert r == Starting || r == Stopping(true);
    hide Read, OnlySays, StoppedIsLast, EventsAgree, Accepting;
    NoStopYet(s.told, r == Stopping(true));
  }

  /** Both cases occur: the condition is not decided by the panic alone. */
  lemma LateReportReachable()
    ensures exists run :: Possible(Init(), run) && After(Init(), run).main == Finishing(Panic) && Accepting(After(Init(), run).told)
  {
    var t0, t1 := [StartPending], [StartPending, Running];
    assert [] + [StartPending] == t0 && t0 + [Running] == t1;
    var s1 := State(Parsing, Idle, false, t0, []);
    var s2 := State(Bootstrapping, Idle, false, t0, []);
    var s3 := State(Ready, Idle, false, t1, []);
    var end := State(Finishing(Panic), Idle, false, t1, []);
    var run: seq<Action> := [];
    assert Possible(end, run) && After(end, run) == end && Accepting(t1);
    hide Possible, After, Accepting;
    run := Chain(s3, Unwind, run, end, end);
    run := Chain(s2, Bootstrap(true), run, s3, end);
    run := Chain(s1, Parse(true), run, s2, end);
    run := Chain(Init(), ReportStart, run, s1, end);
  }

  lemma Chain(s: State, a: Action, rest: seq<Action>, s': State, end: State) returns (run: seq<Action>)
    requires Enabled(s, a) && s' == Do(s, a) && Possible(s', rest) && After(s', rest) == end
    ensures Possible(s, run) && After(s, run) == end
  {
    run := [a] + rest;
    assert run[1..] == rest;
  }
}
