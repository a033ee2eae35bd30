/** Any number of agents on one log directory (agent-rust/src/app.rs, platform/unix.rs): the order
    in which each acquires and releases the instance lock and its log, with every interleaving and
    with crashes at any point. The lock is a single flag here; `Agents` is about the lock file. */
module Instances {
  import opened Basics

  type Pid = nat

  // ---------------------------------------------------------------- what the code does

  /** How far `run_agent_blocking` has got. */
  datatype Stage =
    | Started         // nothing done yet
    | DirSecured
    | LockHeld
    | LogOpen         // the log guard lives; bootstrap continues
    | Looping         // the loop runs; a child may be alive
    | LogClosed       // the guard has been dropped, flushing the log; the lock is dropped next
    | Exited(code: nat)
    | Dead            // crashed or killed

  datatype Agent = Agent(stage: Stage, child: bool, failed: bool)

  datatype Log = AgentLog | ChildLog

  /** What can be observed from outside. */
  datatype Event =
    | Acquired(p: Pid)
    | Refused(p: Pid)
    | Opened(p: Pid)
    | Wrote(p: Pid, log: Log)
    | Closed(p: Pid)
    | Released(p: Pid)
    | Crashed(p: Pid)

  /** The agents and the kernel's lock on `agent.lock`, with everything that has happened. */
  datatype System = System(agents: map<Pid, Agent>, lock: Option<Pid>, trace: seq<Event>)

  const EXIT_OK := 0
  const EXIT_FAILURE := 1
  const EXIT_ALREADY_RUNNING := 5

  datatype Action =
    | Launch
    | SecureDir(ok: bool)
    | TryLock(ioError: bool)  // `flock` without blocking; may also fail to open the file
    | InitLog(ok: bool)
    | Bootstrap(ok: bool)     // securing the child log, building the runtime
    | WriteLine               // the background writer appends to agent.log
    | SpawnChild
    | ChildWrites
    | ChildGone
    | LoopEnds                // without a child, see `AgentLoop.OneChildAndCleanEnd`
    | DropLogGuard
    | DropLock
    | Die                     // crash or kill; the kernel frees the lock and ends the child

  /** What an agent that has got to `g` can do next. */
  predicate Ready(g: Agent, a: Action) {
    match a
    case Launch => false
    case SecureDir(_) => g.stage == Started
    case TryLock(_) => g.stage == DirSecured
    case InitLog(_) => g.stage == LockHeld && !g.failed
    case Bootstrap(_) => g.stage == LogOpen && !g.failed
    case WriteLine => g.stage in {LogOpen, Looping}
    case SpawnChild => g.stage == Looping && !g.child
    case ChildWrites => g.stage == Looping && g.child
    case ChildGone => g.stage == Looping && g.child
    case LoopEnds => g.stage == Looping && !g.child
    case DropLogGuard => g.stage == LogOpen && g.failed
    case DropLock => g.stage == LogClosed || (g.stage == LockHeld && g.failed)
    case Die => !g.stage.Exited? && !g.stage.Dead?
  }

  predicate Enabled(s: System, p: Pid, a: Action) {
    if a == Launch then p !in s.agents else p in s.agents && Ready(s.agents[p], a)
  }

  /** What a step makes of the agent and of the lock, and what is seen of it. */
  datatype Effect = Effect(agent: Agent, lock: Option<Pid>, note: Option<Event>)

  function EffectOf(p: Pid, g: Agent, lock: Option<Pid>, a: Action): Effect {
    match a
    case Launch => Effect(Agent(Started, false, false), lock, None)
    case SecureDir(ok) => Effect(g.(stage := if ok then DirSecured else Exited(EXIT_FAILURE)), lock, None)
    case TryLock(ioError) =>
      if ioError then Effect(g.(stage := Exited(EXIT_FAILURE)), lock, None)
      else if lock.Some? then Effect(g.(stage := Exited(EXIT_ALREADY_RUNNING)), lock, Some(Refused(p)))
      else Effect(g.(stage := LockHeld), Some(p), Some(Acquired(p)))
    case InitLog(ok) =>
      if ok then Effect(g.(stage := LogOpen), lock, Some(Opened(p))) else Effect(g.(failed := true), lock, None)
    case Bootstrap(ok) => Effect(if ok then g.(stage := Looping) else g.(failed := true), lock, None)
    case WriteLine => Effect(g, lock, Some(Wrote(p, AgentLog)))
    case SpawnChild => Effect(g.(child := true), lock, None)
    case ChildWrites => Effect(g, lock, Some(Wrote(p, ChildLog)))
    case ChildGone => Effect(g.(child := false), lock, None)
    case LoopEnds => Effect(g.(stage := LogClosed), lock, Some(Closed(p)))
    case DropLogGuard => Effect(g.(stage := LogClosed), lock, Some(Closed(p)))
    case DropLock => Effect(g.(stage := Exited(if g.failed then EXIT_FAILURE else EXIT_OK)), None, Some(Released(p)))
    case Die => Effect(g.(stage := Dead, child := false), if lock == Some(p) then None else lock, Some(Crashed(p)))
  }

  function Notes(note: Option<Event>): seq<Event> {
    match note case None => [] case Some(e) => [e]
  }

  function Do(s: System, p: Pid, a: Action): System {
    var e := EffectOf(p, if p in s.agents then s.agents[p] else Agent(Started, false, false), s.lock, a);
    System(s.agents[p := e.agent], e.lock, s.trace + Notes(e.note))
  }

  // ---------------------------------------------------------------- the property, on traces alone

  function GoneIf(p: Pid, before: Option<Pid>): Option<Pid> {
    if before == Some(p) then None else before
  }

  function HolderAfter(before: Option<Pid>, e: Event): Option<Pid> {
    match e
    case Acquired(p) => Some(p)
    case Released(p) => GoneIf(p, before)
    case Crashed(p) => GoneIf(p, before)
    case _ => before
  }

  function LoggerAfter(before: Option<Pid>, e: Event): Option<Pid> {
    match e
    case Opened(p) => Some(p)
    case Closed(p) => GoneIf(p, before)
    case Crashed(p) => GoneIf(p, before)
    case _ => before
  }

  /** Who holds the lock after a trace. */
  function Holder(trace: seq<Event>): Option<Pid> {
    if trace == [] then None else HolderAfter(Holder(trace[..|trace| - 1]), trace[|trace| - 1])
  }

  /** Who has agent.log open after a trace. */
  function Logger(trace: seq<Event>): Option<Pid> {
    if trace == [] then None else LoggerAfter(Logger(trace[..|trace| - 1]), trace[|trace| - 1])
  }

  /** What may happen next after a trace. */
  predicate Allowed(trace: seq<Event>, e: Event) {
    match e
    case Acquired(p) => Holder(trace) == None
    case Refused(p) => Holder(trace).Some? && Holder(trace) != Some(p)
    case Opened(p) => Holder(trace) == Some(p) && Logger(trace) == None
    case Wrote(p, AgentLog) => Holder(trace) == Some(p) && Logger(trace) == Some(p)
    case Wrote(p, ChildLog) => Holder(trace) == Some(p)
    case Closed(p) => Holder(trace) == Some(p) && Logger(trace) == Some(p)
    case Released(p) => Holder(trace) == Some(p) && Logger(trace) == None
    case Crashed(p) => true
  }

  predicate Exclusive(trace: seq<Event>) {
    forall i :: 0 <= i < |trace| ==> Allowed(trace[..i], trace[i])
  }

  /** `p` has written nothing. */
  predicate Silent(trace: seq<Event>, p: Pid) {
    forall i :: 0 <= i < |trace| ==> trace[i] != Wrote(p, AgentLog) && trace[i] != Wrote(p, ChildLog)
  }

  // ---------------------------------------------------------------- the invariant

  predicate HoldsLock(g: Agent) {
    g.stage in {LockHeld, LogOpen, Looping, LogClosed}
  }

  predicate HasLog(g: Agent) {
    g.stage in {LogOpen, Looping}
  }

  /** The kernel's lock, the open log and the agents' stages agree with what the trace says. */
  ghost predicate Agree(s: System, holder: Option<Pid>, logger: Option<Pid>) {
    && holder == s.lock
    && (forall p <- s.agents :: HoldsLock(s.agents[p]) <==> holder == Some(p))
    && (forall p <- s.agents :: HasLog(s.agents[p]) <==> logger == Some(p))
    && (holder.Some? ==> holder.value in s.agents)
    && (logger.Some? ==> logger.value in s.agents)
    && (forall p <- s.agents :: s.agents[p].child ==> s.agents[p].stage == Looping)
  }

  /** Who has not got past the lock has written nothing, and stays refused once refused. */
  ghost predicate Quiet(s: System) {
    && (forall p: Pid :: p in s.agents || Silent(s.trace, p))
    && (forall p <- s.agents :: Early(s.agents[p]) ==> Silent(s.trace, p))
    && (forall i :: 0 <= i < |s.trace| && s.trace[i].Refused? ==>
          s.trace[i].p in s.agents && s.agents[s.trace[i].p].stage == Exited(EXIT_ALREADY_RUNNING))
  }

  ghost predicate Inv(s: System) {
    Exclusive(s.trace) && Agree(s, Holder(s.trace), Logger(s.trace)) && Quiet(s)
  }

  lemma ExclusiveSnoc(trace: seq<Event>, e: Event)
    requires Exclusive(trace) && Allowed(trace, e)
    ensures Exclusive(trace + [e])
  {
    forall i | 0 <= i < |trace| + 1 ensures Allowed((trace + [e])[..i], (trace + [e])[i]) {
      assert (trace + [e])[..i] == trace[..i];
      assert trace[..|trace|] == trace;
    }
  }

  function NoteOf(s: System, p: Pid, a: Action): Option<Event> {
    EffectOf(p, if p in s.agents then s.agents[p] else Agent(Started, false, false), s.lock, a).note
  }

  lemma StepAllowed(s: System, p: Pid, a: Action)
    requires Inv(s) && Enabled(s, p, a) && NoteOf(s, p, a).Some?
    ensures Allowed(s.trace, NoteOf(s, p, a).value)
  {
    hide Exclusive, Holder, Logger, Quiet;
  }

  lemma HoldersSnoc(trace: seq<Event>, e: Event)
    ensures Holder(trace + [e]) == HolderAfter(Holder(trace), e)
    ensures Logger(trace + [e]) == LoggerAfter(Logger(trace), e)
  {
    assert (trace + [e])[..|trace|] == trace;
  }

  /** An agent moves on to `g` while `holder` and `logger` become `holder'` and `logger'`. */
  lemma PutAgrees(s: System, p: Pid, g: Agent, holder: Option<Pid>, logger: Option<Pid>, s': System,
                  holder': Option<Pid>, logger': Option<Pid>)
    requires Agree(s, holder, logger) && s'.agents == s.agents[p := g] && s'.lock == holder'
    requires HoldsLock(g) <==> holder' == Some(p)
    requires HasLog(g) <==> logger' == Some(p)
    requires holder' == holder || (holder in {None, Some(p)} && holder' in {None, Some(p)})
    requires logger' == logger || (logger in {None, Some(p)} && logger' in {None, Some(p)})
    requires g.child ==> g.stage == Looping
    ensures Agree(s', holder', logger')
  {
    hide HoldsLock, HasLog;
  }

  lemma StepAgrees(s: System, p: Pid, a: Action)
    requires Inv(s) && Enabled(s, p, a)
    ensures var s' := Do(s, p, a); Agree(s', Holder(s'.trace), Logger(s'.trace))
  {
    hide Allowed, Exclusive, Quiet, Holder, Logger;
    var s', note := Do(s, p, a), NoteOf(s, p, a);
    if note.Some? {
      HoldersSnoc(s.trace, note.value);
    } else {
      assert s.trace + [] == s.trace;
    }
    assert p in s.agents ==> (HoldsLock(s.agents[p]) <==> s.lock == Some(p)) && (HasLog(s.agents[p]) <==> Logger(s.trace) == Some(p));
    LoggerHolds(s);
    hide Agree;
    PutAgrees(s, p, s'.agents[p], Holder(s.trace), Logger(s.trace), s', Holder(s'.trace), Logger(s'.trace));
  }

  /** Whoever has the log open holds the lock. */
  lemma LoggerHolds(s: System)
    requires Inv(s)
    ensures Logger(s.trace) == None || Logger(s.trace) == s.lock
    ensures Holder(s.trace) == s.lock
    ensures s.lock.Some? ==> s.lock.value in s.agents
    ensures Logger(s.trace).Some? ==> Logger(s.trace).value in s.agents
  {
  }

  lemma SilentSnoc(trace: seq<Event>, e: Event, p: Pid)
    requires e != Wrote(p, AgentLog) && e != Wrote(p, ChildLog)
    ensures Silent(trace + [e], p) == Silent(trace, p)
  {
    assert Silent(trace + [e], p) ==> forall i :: 0 <= i < |trace| ==> trace[i] == (trace + [e])[i];
  }

  predicate Early(g: Agent) {
    g.stage in {Started, DirSecured, Exited(EXIT_ALREADY_RUNNING)}
  }

  /** What a step has to do with silence and refusal. */
  lemma StepIsQuiet(s: System, p: Pid, a: Action)
    requires Enabled(s, p, a)
    ensures var s', note := Do(s, p, a), NoteOf(s, p, a);
            && s'.trace == s.trace + Notes(note) && p in s'.agents && s'.agents == s.agents[p := s'.agents[p]]
            && (Early(s'.agents[p]) ==> a != WriteLine && a != ChildWrites && (p in s.agents ==> Early(s.agents[p])))
            && (note.Some? && note.value.Refused? ==> note.value.p == p && s'.agents[p].stage == Exited(EXIT_ALREADY_RUNNING))
            && (note.Some? && note.value.Wrote? ==> note.value.p == p && (a == WriteLine || a == ChildWrites))
            && (p in s.agents ==> s.agents[p].stage != Exited(EXIT_ALREADY_RUNNING))
  {
  }

  lemma SilentOn(trace: seq<Event>, note: Option<Event>, q: Pid)
    requires note.Some? && note.value.Wrote? ==> note.value.p != q
    ensures Silent(trace + Notes(note), q) == Silent(trace, q)
  {
    if note.Some? {
      SilentSnoc(trace, note.value, q);
    } else {
      assert trace + [] == trace;
    }
  }

  lemma StepQuiet(s: System, p: Pid, a: Action)
    requires Inv(s) && Enabled(s, p, a)
    ensures Quiet(Do(s, p, a))
  {
    hide Allowed, Exclusive, Agree, Holder, Logger, Silent, EffectOf, Enabled, Do;
    StepIsQuiet(s, p, a);
    var s', note := Do(s, p, a), NoteOf(s, p, a);
    forall q: Pid | q != p || (a != WriteLine && a != ChildWrites) ensures Silent(s'.trace, q) == Silent(s.trace, q) {
      SilentOn(s.trace, note, q);
    }
    hide NoteOf;
    forall i | 0 <= i < |s'.trace| && s'.trace[i].Refused?
      ensures s'.trace[i].p in s'.agents && s'.agents[s'.trace[i].p].stage == Exited(EXIT_ALREADY_RUNNING) {
      assert i < |s.trace| ==> s'.trace[i] == s.trace[i];
    }
  }

  lemma StepKeepsInv(s: System, p: Pid, a: Action)
    requires Inv(s) && Enabled(s, p, a)
    ensures Inv(Do(s, p, a))
  {
    hide Allowed, Exclusive, Agree, Quiet;
    StepAgrees(s, p, a);
    StepQuiet(s, p, a);
    if NoteOf(s, p, a).Some? {
      StepAllowed(s, p, a);
      ExclusiveSnoc(s.trace, NoteOf(s, p, a).value);
    } else {
      assert s.trace + [] == s.trace;
    }
  }

  /** A trace in which the lock changes hands at most by way of nobody: no two lock intervals
      overlap. */
  lemma {:induction false} IntervalsDisjoint(trace: seq<Event>, i: nat, j: nat)
    requires Exclusive(trace) && i < j < |trace|
    requires trace[i].Acquired? && trace[j].Acquired?
    ensures exists k :: i < k < j && (trace[k] == Released(trace[i].p) || trace[k] == Crashed(trace[i].p))
  {
    var p := trace[i].p;
    if forall k :: i < k < j ==> trace[k] != Released(p) && trace[k] != Crashed(p) {
      assert Allowed(trace[..j], trace[j]);
      StillHolds(trace, i, j);
      assert false;
    }
  }

  lemma {:induction false} StillHolds(trace: seq<Event>, i: nat, j: nat)
    requires Exclusive(trace) && i < j <= |trace| && trace[i].Acquired?
    requires forall k :: i < k < j ==> trace[k] != Released(trace[i].p) && trace[k] != Crashed(trace[i].p)
    ensures Holder(trace[..j]) == Some(trace[i].p)
    decreases j
  {
    var t := trace[..j];
    assert t[..j - 1] == trace[..j - 1] && t[j - 1] == trace[j - 1];
    if j - 1 > i {
      assert Allowed(trace[..j - 1], trace[j - 1]);
      StillHolds(trace, i, j - 1);
    }
  }
}
