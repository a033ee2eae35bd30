/** How agents start, leave and what they exit with (agent-rust/src/app.rs), on the directory and
    the locks of `Agents`. */
module AgentsExit {
  import opened Basics
  import opened Names
  import opened FileSystem
  import opened Rotation
  import opened Writer
  import opened Accounting
  import opened Cycle
  import opened Confinement
  import opened LateFailures
  import opened Agents
  import D = Durability
  import I = Instances

  // ---------------------------------------------------------------- exit codes

  /** What has been observed of an agent, and whether its loop has ended. */
  datatype Facts = Facts(acquired: bool, refused: bool, logOpened: bool, logClosed: bool, released: bool, looped: bool)

  /** An agent has taken a step. */
  predicate Took(turns: seq<Turn>, p: I.Pid, a: I.Action) {
    exists i :: 0 <= i < |turns| && turns[i].Own? && turns[i].p == p && turns[i].a == a
  }

  function FactsOf(trace: seq<I.Event>, turns: seq<Turn>, p: I.Pid): Facts {
    Facts(I.Acquired(p) in trace, I.Refused(p) in trace, I.Opened(p) in trace, I.Closed(p) in trace, I.Released(p) in trace,
          Took(turns, p, I.LoopEnds))
  }

  /** How far an agent has got, and what must have been observed of it by then. */
  predicate Fits(g: I.Agent, x: Facts) {
    match g.stage
    case Started => x == Facts(false, false, false, false, false, false)
    case DirSecured => x == Facts(false, false, false, false, false, false)
    case LockHeld => x == Facts(true, false, false, false, false, false)
    case LogOpen => x == Facts(true, false, true, false, false, false)
    case Looping => x == Facts(true, false, true, false, false, false) && !g.failed
    case LogClosed => x == Facts(true, false, true, true, false, !g.failed)
    case Exited(code) =>
      || (code == 0 && x == Facts(true, false, true, true, true, true))
      || (code == 1 && !x.refused && !x.looped && x.acquired == x.released && x.logOpened == x.logClosed)
      || (code == 5 && x == Facts(false, true, false, false, false, false))
    case Dead => true
  }

  function Nothing(): Facts {
    Facts(false, false, false, false, false, false)
  }

  function Observed(x: Facts, p: I.Pid, note: Option<I.Event>, a: I.Action): Facts {
    Facts(x.acquired || note == Some(I.Acquired(p)), x.refused || note == Some(I.Refused(p)), x.logOpened || note == Some(I.Opened(p)),
          x.logClosed || note == Some(I.Closed(p)), x.released || note == Some(I.Released(p)), x.looped || a == I.LoopEnds)
  }

  lemma StepFits(p: I.Pid, g: I.Agent, seen: Option<I.Pid>, a: I.Action, x: Facts)
    requires if a == I.Launch then x == Nothing() else I.Ready(g, a) && Fits(g, x)
    requires a == I.Launch ==> g == NewProc().agent
    ensures var e := I.EffectOf(p, g, seen, a); Fits(e.agent, Observed(x, p, e.note, a))
    ensures var e := I.EffectOf(p, g, seen, a);
            forall q: I.Pid | q != p :: e.note !in {Some(I.Acquired(q)), Some(I.Refused(q)), Some(I.Opened(q)), Some(I.Closed(q)), Some(I.Released(q))}
  {
  }

  ghost predicate AllFit(w: World, past: seq<Turn>) {
    forall p: I.Pid :: if p in w.procs then Fits(w.procs[p].agent, FactsOf(w.trace, past, p)) else FactsOf(w.trace, past, p) == Nothing()
  }

  lemma FactsSnoc(trace: seq<I.Event>, past: seq<Turn>, turn: Turn, note: Option<I.Event>, p: I.Pid)
    ensures var a := if turn.Own? && turn.p == p then turn.a else I.Launch;
            FactsOf(trace + I.Notes(note), past + [turn], p) == Observed(FactsOf(trace, past, p), p, note, a)
  {
    TookSnoc(past, turn, p, I.LoopEnds);
    hide Took;
  }

  lemma TookSnoc(past: seq<Turn>, turn: Turn, p: I.Pid, a: I.Action)
    ensures Took(past + [turn], p, a) <==> Took(past, p, a) || (turn.Own? && turn.p == p && turn.a == a)
  {
    var all := past + [turn];
    assert all[|past|] == turn && forall i :: 0 <= i < |past| ==> all[i] == past[i];
    if Took(past, p, a) {
      var i :| 0 <= i < |past| && past[i].Own? && past[i].p == p && past[i].a == a;
      assert all[i] == past[i];
    }
  }

  /** A step of `p`, which some turn brings about. */
  lemma OwnFits(policy: Policy, w: World, p: I.Pid, a: I.Action, line: Record, past: seq<Turn>, turn: Turn)
    requires AllFit(w, past) && (if a == I.Launch then p !in w.procs else p in w.procs && I.Ready(w.procs[p].agent, a))
    requires turn == Own(p, a, line) || (turn == OpenLock(p) && a == I.TryLock(true))
    ensures AllFit(DoOwn(policy, w, p, a, line), past + [turn])
  {
    var proc, w' := ProcOf(w, p), DoOwn(policy, w, p, a, line);
    var e := I.EffectOf(p, proc.agent, Seen(w, proc), a);
    assert Fits(proc.agent, FactsOf(w.trace, past, p)) || (a == I.Launch && FactsOf(w.trace, past, p) == Nothing());
    OwnOnlyMoves(policy, w, p, a, line);
    OwnTrace(policy, w, p, a, line);
    StepFits(p, proc.agent, Seen(w, proc), a, FactsOf(w.trace, past, p));
    hide DoOwn, I.EffectOf, I.Ready, FactsOf, Fits;
    forall q: I.Pid
      ensures if q in w'.procs then Fits(w'.procs[q].agent, FactsOf(w'.trace, past + [turn], q))
              else FactsOf(w'.trace, past + [turn], q) == Nothing() {
      FactsSnoc(w.trace, past, turn, e.note, q);
      assert q != p ==> (q in w'.procs <==> q in w.procs);
    }
  }

  lemma QuietFits(w: World, w': World, past: seq<Turn>, turn: Turn)
    requires AllFit(w, past) && !turn.Own? && w'.trace == w.trace && w'.procs.Keys == w.procs.Keys
    requires forall p <- w.procs :: w'.procs[p].agent == w.procs[p].agent
    ensures AllFit(w', past + [turn])
  {
    hide FactsOf, Fits;
    forall p: I.Pid ensures FactsOf(w'.trace, past + [turn], p) == FactsOf(w.trace, past, p) {
      FactsSnoc(w.trace, past, turn, None, p);
      assert w.trace + I.Notes(None) == w.trace;
    }
  }

  lemma TurnFits(policy: Policy, w: World, turn: Turn, past: seq<Turn>)
    requires AllFit(w, past) && Enabled(policy, w, turn)
    ensures AllFit(Do(policy, w, turn), past + [turn])
  {
    hide DoOwn, AllFit, OpenAppend, RunCycle, Possible;
    match turn {
      case OpenLock(p) =>
        var (fs', r) := OpenAppend(w.fs, LOCK_FILE, true);
        if r.Err? {
          SameFits(w, w.(fs := fs'), past);
          OwnFits(policy, w.(fs := fs'), p, I.TryLock(true), [], past, turn);
        } else {
          QuietFits(w, Do(policy, w, turn), past, turn);
        }
      case Own(p, a, line) => OwnFits(policy, w, p, a, line, past, turn);
      case IdleCycle(_) => QuietFits(w, Do(policy, w, turn), past, turn);
      case Unlink => QuietFits(w, Do(policy, w, turn), past, turn);
    }
  }

  lemma SameFits(w: World, w': World, past: seq<Turn>)
    requires AllFit(w, past) && w'.procs == w.procs && w'.trace == w.trace
    ensures AllFit(w', past)
  {
    hide Fits, FactsOf;
  }

  lemma {:induction false} RunFits(policy: Policy, w: World, past: seq<Turn>, turns: seq<Turn>)
    requires AllFit(w, past) && Run(policy, w, turns)
    ensures AllFit(After(policy, w, turns), past + turns)
    decreases |turns|
  {
    hide Do, Enabled, AllFit;
    if turns == [] {
      assert past + turns == past;
    } else {
      TurnFits(policy, w, turns[0], past);
      RunFits(policy, Do(policy, w, turns[0]), past + [turns[0]], turns[1..]);
      assert past + [turns[0]] + turns[1..] == past + turns;
    }
  }

  /** Over all runs, deleted lock files included: an agent that has exited did so with 5 if and only if it
      was refused the lock, with 0 if and only if its loop came to its end, and with 1 otherwise; it has
      given its lock back if it had got it, has closed its log if it had opened it, and holds nothing. */
  lemma ExitCodes(fs: Fs, policy: Policy, turns: seq<Turn>, p: I.Pid, code: nat)
    requires Valid(fs) && Run(policy, Start(fs, policy), turns)
    requires var end := After(policy, Start(fs, policy), turns); p in end.procs && end.procs[p].agent.stage == I.Exited(code)
    ensures var end := After(policy, Start(fs, policy), turns);
            && (code == 5 <==> I.Refused(p) in end.trace) && (code == 0 <==> Took(turns, p, I.LoopEnds))
            && code in {0, 1, 5}
            && (I.Acquired(p) in end.trace <==> I.Released(p) in end.trace)
            && (I.Opened(p) in end.trace <==> I.Closed(p) in end.trace)
            && end.procs[p].lockFile == None && forall id <- end.locks :: end.locks[id] != p
  {
    StartsSane(fs, policy);
    StartFits(fs, policy);
    hide Start, Run, After, AllFit, Sane, Took;
    RunFits(policy, Start(fs, policy), [], turns);
    assert [] + turns == turns;
    StaysSane(policy, Start(fs, policy), turns);
    var end := After(policy, Start(fs, policy), turns);
    FitSays(end, turns, p, code);
    NothingHeld(end, p, code);
  }

  lemma StartFits(fs: Fs, policy: Policy)
    ensures AllFit(Start(fs, policy), [])
  {
  }

  lemma FitSays(w: World, turns: seq<Turn>, p: I.Pid, code: nat)
    requires AllFit(w, turns) && p in w.procs && w.procs[p].agent.stage == I.Exited(code)
    ensures (code == 5 <==> I.Refused(p) in w.trace) && (code == 0 <==> Took(turns, p, I.LoopEnds)) && code in {0, 1, 5}
    ensures (I.Acquired(p) in w.trace <==> I.Released(p) in w.trace) && (I.Opened(p) in w.trace <==> I.Closed(p) in w.trace)
  {
    hide Took;
    assert Fits(w.procs[p].agent, FactsOf(w.trace, turns, p));
  }

  lemma NothingHeld(w: World, p: I.Pid, code: nat)
    requires Sane(w) && p in w.procs && w.procs[p].agent.stage == I.Exited(code)
    ensures w.procs[p].lockFile == None && forall id <- w.locks :: w.locks[id] != p
  {
  }

  /** A second agent is refused at once and exits with 5, and the first keeps its lock. */
  lemma SecondIsRefused(policy: Policy, w: World, p: I.Pid, q: I.Pid)
    requires Sane(w) && Named(w) && p in w.procs && q in w.procs && Holds(w.procs[p])
    requires w.procs[q].agent.stage == I.DirSecured && w.procs[q].lockFile.Some?
    ensures var turn := Own(q, I.TryLock(false), []);
            Enabled(policy, w, turn) &&
            var w' := Do(policy, w, turn);
            && w'.procs[q].agent.stage == I.Exited(5) && w'.trace == w.trace + [I.Refused(q)]
            && w'.locks == w.locks && w'.fs == w.fs && p in w'.procs && w'.procs[p] == w.procs[p]
  {
    assert FsAfter(policy, w.fs, w.procs[q].writer, I.TryLock(false), []) == w.fs;
    hide FsAfter, WriterAfter, Valid;
  }

  // ---------------------------------------------------------------- starting

  /** Where nothing is in the way and nothing fails, an agent gets as far as its loop, with its log open. */
  lemma AgentStarts(fs: Fs, policy: Policy) returns (turns: seq<Turn>)
    requires Valid(fs) && fs.faults == [] && !IsDirectory(fs, Lookup(fs, LOCK_FILE))
    requires Securable(fs, AGENT_LOG) && Securable(fs, CHILD_LOG)
    ensures Run(policy, Start(fs, policy), turns)
    ensures var end := After(policy, Start(fs, policy), turns);
            0 in end.procs && end.procs[0].agent.stage == I.Looping && end.procs[0].writer.Some?
  {
    var first := GetsLock(fs, policy);
    var w := After(policy, Start(fs, policy), first);
    var open, boot := Own(0, I.InitLog(true), []), Own(0, I.Bootstrap(true), []);
    OpensLog(policy, w);
    var w1 := Do(policy, w, open);
    Boots(policy, w1);
    hide Start, Do, Enabled, Run, After;
    OneTurn(policy, w, open);
    OneTurn(policy, w1, boot);
    AfterBoth(policy, Start(fs, policy), first, [open]);
    AfterBoth(policy, Start(fs, policy), first + [open], [boot]);
    turns := first + [open] + [boot];
  }

  /** An agent on its own that has the lock, in a directory whose logs can be secured. */
  ghost predicate HasLock(w: World) {
    && Valid(w.fs) && w.fs.faults == [] && Securable(w.fs, AGENT_LOG) && Securable(w.fs, CHILD_LOG)
    && 0 in w.procs && w.procs[0].agent == I.Agent(I.LockHeld, false, false)
  }

  lemma GetsLock(fs: Fs, policy: Policy) returns (turns: seq<Turn>)
    requires Valid(fs) && fs.faults == [] && !IsDirectory(fs, Lookup(fs, LOCK_FILE))
    requires Securable(fs, AGENT_LOG) && Securable(fs, CHILD_LOG)
    ensures Run(policy, Start(fs, policy), turns) && HasLock(After(policy, Start(fs, policy), turns))
  {
    var w := Start(fs, policy);
    var w2 := w.(procs := w.procs[0 := Proc(I.Agent(I.DirSecured, false, false), None, None)]);
    var prefix := GetsToDirectory(policy, w, 0);
    Opens(policy, w2, 0);
    OpensSecurable(policy, w2);
    var w3 := Do(policy, w2, OpenLock(0));
    var lock := Own(0, I.TryLock(false), []);
    Locks(policy, w3);
    hide Start, Do, Enabled, Run, After, IsDirectory, Securable, Valid;
    OneTurn(policy, w2, OpenLock(0));
    OneTurn(policy, w3, lock);
    AfterBoth(policy, w, prefix, [OpenLock(0)]);
    AfterBoth(policy, w, prefix + [OpenLock(0)], [lock]);
    turns := prefix + [OpenLock(0)] + [lock];
  }

  lemma OpensSecurable(policy: Policy, w: World)
    requires Valid(w.fs) && w.fs.faults == [] && !IsDirectory(w.fs, Lookup(w.fs, LOCK_FILE))
    requires Securable(w.fs, AGENT_LOG) && Securable(w.fs, CHILD_LOG)
    requires 0 in w.procs && w.procs[0] == Proc(I.Agent(I.DirSecured, false, false), None, None)
    ensures var w' := Do(policy, w, OpenLock(0));
            Valid(w'.fs) && Securable(w'.fs, AGENT_LOG) && Securable(w'.fs, CHILD_LOG)
  {
    OpenEffect(w.fs, LOCK_FILE);
    assert AGENT_LOG != LOCK_FILE && CHILD_LOG != LOCK_FILE by {
      assert AGENT_LOG[6] == 'l' && CHILD_LOG[0] == 'c' && |LOCK_FILE| == 10;
    }
  }

  lemma Locks(policy: Policy, w: World)
    requires Valid(w.fs) && w.fs.faults == [] && Securable(w.fs, AGENT_LOG) && Securable(w.fs, CHILD_LOG)
    requires 0 in w.procs && w.procs[0].agent == I.Agent(I.DirSecured, false, false) && w.procs[0].lockFile.Some? && w.locks == map[]
    ensures var lock := Own(0, I.TryLock(false), []); Enabled(policy, w, lock) && HasLock(Do(policy, w, lock))
  {
    assert FsAfter(policy, w.fs, w.procs[0].writer, I.TryLock(false), []) == w.fs;
    hide FsAfter, WriterAfter, Valid, Securable;
  }

  lemma OpensLog(policy: Policy, w: World)
    requires HasLock(w)
    ensures var open := Own(0, I.InitLog(true), []);
            Enabled(policy, w, open) &&
            var w' := Do(policy, w, open);
            && Valid(w'.fs) && w'.fs.faults == [] && Securable(w'.fs, CHILD_LOG)
            && 0 in w'.procs && w'.procs[0].agent == I.Agent(I.LogOpen, false, false) && w'.procs[0].writer.Some?
  {
    FaultFreeOpenIff(w.fs, AGENT_LOG, policy);
    OpenHandleConfined(w.fs, AGENT_LOG, policy);
    StillSecurable(w.fs, OpenHandle(w.fs, AGENT_LOG, policy).0);
    hide OpenHandle, Confined, Securable, Valid;
  }

  /** What happens to agent.log leaves child.log securable. */
  lemma StillSecurable(a: Fs, b: Fs)
    requires Confined(a, b, AGENT_LOG, None) && Securable(a, CHILD_LOG)
    ensures Securable(b, CHILD_LOG) && Valid(b)
  {
    LogsApart();
    assert GenName(CHILD_LOG, 0) == CHILD_LOG;
    hide GenName;
    assert Elsewhere(AGENT_LOG, CHILD_LOG);
    assert Lookup(b, CHILD_LOG) == Lookup(a, CHILD_LOG);
    if CHILD_LOG in a.dir {
      assert Gen(a, CHILD_LOG, 0) == Some(a.dir[CHILD_LOG]);
      NotInBoth(a, AGENT_LOG, CHILD_LOG, a.dir[CHILD_LOG]);
    }
  }

  lemma Boots(policy: Policy, w: World)
    requires Valid(w.fs) && w.fs.faults == [] && Securable(w.fs, CHILD_LOG)
    requires 0 in w.procs && w.procs[0].agent == I.Agent(I.LogOpen, false, false) && w.procs[0].writer.Some?
    ensures var boot := Own(0, I.Bootstrap(true), []);
            Enabled(policy, w, boot) &&
            var w' := Do(policy, w, boot);
            0 in w'.procs && w'.procs[0].agent.stage == I.Looping && w'.procs[0].writer.Some?
  {
    FaultFreeSecureSucceedsIff(w.fs, CHILD_LOG);
    hide SecureFile, Securable, Valid;
  }

  // ---------------------------------------------------------------- working

  /** A looping agent can write a line to its log at any time; when nothing fails the whole line gets
      there. */
  lemma AgentWrites(policy: Policy, w: World, p: I.Pid, line: Record)
    requires p in w.procs && w.procs[p].agent.stage in {I.LogOpen, I.Looping} && w.procs[p].writer.Some? && w.fs.faults == []
    ensures var turn := Own(p, I.WriteLine, line);
            Enabled(policy, w, turn) &&
            var w' := Do(policy, w, turn);
            && w'.agentHistory == w.agentHistory + [line] && w'.childHistory == w.childHistory
            && w'.trace == w.trace + [I.Wrote(p, I.AgentLog)] && w'.procs[p].agent == w.procs[p].agent && w'.procs[p].writer.Some?
  {
    PrepareAhead(w.fs, w.procs[p].writer.value, line, 0, []);
    assert w.childHistory + [] == w.childHistory;
    hide AfterWrite, Prepare, PrepareOps;
  }

  /** A looping agent without a child can spawn one if its log can be secured, when nothing fails. */
  lemma AgentSpawns(policy: Policy, w: World, p: I.Pid)
    requires Valid(w.fs) && w.fs.faults == [] && Securable(w.fs, CHILD_LOG)
    requires p in w.procs && w.procs[p].agent.stage == I.Looping && !w.procs[p].agent.child
    ensures var turn := Own(p, I.SpawnChild, []);
            Enabled(policy, w, turn) &&
            var w' := Do(policy, w, turn);
            && p in w'.procs && w'.procs[p].agent == w.procs[p].agent.(child := true) && Locked(w'.fs, CHILD_LOG)
            && w'.childHistory == w.childHistory && w'.agentHistory == w.agentHistory && w'.trace == w.trace
  {
    FaultFreeCycleSpawnsIff(w.fs, CHILD_LOG, policy, PREPARING);
    LockedAtSpawn(w.fs, CHILD_LOG, policy, PREPARING);
    SpawnIsEnd(w.fs, policy);
    NothingAdded(w);
    var fs' := RunCycle(w.fs, CHILD_LOG, policy, PREPARING).0;
    assert FsAfter(policy, w.fs, w.procs[p].writer, I.SpawnChild, []) == fs';
    hide RunCycle, Securable, Valid, Locked, FsAfter, WriterAfter;
  }

  /** The child then writes whole lines for as long as it is there. */
  lemma ChildWrites(policy: Policy, w: World, p: I.Pid, line: Record)
    requires p in w.procs && w.procs[p].agent.stage == I.Looping && w.procs[p].agent.child && Locked(w.fs, CHILD_LOG)
    ensures var turn := Own(p, I.ChildWrites, line);
            Enabled(policy, w, turn) && Enabled(policy, w, Own(p, I.ChildGone, [])) &&
            var w' := Do(policy, w, turn);
            && w'.childHistory == w.childHistory + [line] && w'.agentHistory == w.agentHistory
            && w'.trace == w.trace + [I.Wrote(p, I.ChildLog)]
            && p in w'.procs && w'.procs[p].agent == w.procs[p].agent && Locked(w'.fs, CHILD_LOG)
  {
    NothingAdded(w);
  }

  /** A cycle whose child writes nothing yet ends where it spawned. */
  lemma SpawnIsEnd(fs: Fs, policy: Policy)
    ensures var (fs', out) := RunCycle(fs, CHILD_LOG, policy, PREPARING); out.spawn.Some? ==> out.spawn.value == fs'
  {
    hide SecureFile, RotateIfLarge, ChildAppends;
  }

  // ---------------------------------------------------------------- leaving

  /** The step that brings an agent nearer to its exit, without needing anything to work. */
  function WayOut(g: I.Agent): I.Action {
    match g.stage
    case Started => I.SecureDir(false)
    case DirSecured => I.TryLock(true)
    case LockHeld => if g.failed then I.DropLock else I.InitLog(false)
    case LogOpen => if g.failed then I.DropLogGuard else I.Bootstrap(false)
    case Looping => if g.child then I.ChildGone else I.LoopEnds
    case LogClosed => I.DropLock
    case _ => I.Die
  }

  function Distance(g: I.Agent): nat {
    match g.stage
    case Started => 1
    case DirSecured => 1
    case LockHeld => if g.failed then 1 else 2
    case LogOpen => if g.failed then 2 else 3
    case Looping => if g.child then 3 else 2
    case LogClosed => 1
    case _ => 0
  }

  lemma StepsOut(p: I.Pid, g: I.Agent, seen: Option<I.Pid>)
    requires !Over(g)
    ensures I.Ready(g, WayOut(g)) && WayOut(g) != I.Die
    ensures var g' := I.EffectOf(p, g, seen, WayOut(g)).agent; !g'.stage.Dead? && Distance(g') < Distance(g)
  {
  }

  /** No agent is ever stuck, with the lock or without: whatever has failed, each that has not exited or
      crashed can get to its exit by its own steps alone, and then holds nothing. */
  lemma {:induction false} AgentCanLeave(policy: Policy, w: World, p: I.Pid) returns (turns: seq<Turn>)
    requires Sane(w) && p in w.procs && !w.procs[p].agent.stage.Dead?
    ensures Run(policy, w, turns) && forall i :: 0 <= i < |turns| ==> turns[i].Own? && turns[i].p == p && turns[i].a != I.Die
    ensures var end := After(policy, w, turns);
            && p in end.procs && end.procs[p].agent.stage.Exited?
            && end.procs[p].lockFile == None && forall id <- end.locks :: end.locks[id] != p
    decreases Distance(w.procs[p].agent)
  {
    var g := w.procs[p].agent;
    turns := [];
    if Over(g) {
      NothingHeld(w, p, g.stage.code);
    } else {
      var turn := Own(p, WayOut(g), []);
      StepsOut(p, g, Seen(w, w.procs[p]));
      OutEnabled(policy, w, p);
      OwnOnlyMoves(policy, w, p, WayOut(g), []);
      hide Sane, DoOwn, WayOut, Distance, I.EffectOf, I.Ready, Possible, FsAfter, WriterAfter, Over;
      StepSane(policy, w, turn);
      var rest := AgentCanLeave(policy, Do(policy, w, turn), p);
      turns := [turn] + rest;
      assert turns[1..] == rest;
    }
  }

  lemma OutEnabled(policy: Policy, w: World, p: I.Pid)
    requires p in w.procs && !Over(w.procs[p].agent)
    ensures Enabled(policy, w, Own(p, WayOut(w.procs[p].agent), []))
  {
    StepsOut(p, w.procs[p].agent, None);
    hide OpenHandle, SecureFile, RunCycle;
  }

  /** An agent can crash at any time; then the kernel has its lock back, and the name is left alone. */
  lemma AgentCanCrash(policy: Policy, w: World, p: I.Pid)
    requires Sane(w) && p in w.procs && !Over(w.procs[p].agent)
    ensures var turn := Own(p, I.Die, []);
            Enabled(policy, w, turn) &&
            var w' := Do(policy, w, turn);
            && p in w'.procs && w'.procs[p].agent.stage == I.Dead && !w'.procs[p].agent.child
            && w'.procs[p].lockFile == None && w'.procs[p].writer == None && (forall id <- w'.locks :: w'.locks[id] != p)
            && (forall id <- w.locks :: w.locks[id] != p ==> id in w'.locks && w'.locks[id] == w.locks[id])
            && w'.fs == w.fs && w'.trace == w.trace + [I.Crashed(p)]
  {
    hide Valid;
  }

  // ---------------------------------------------------------------- what success means

  /** Each step that succeeds has done what it is for: the log is open on the file its name leads to, the
      child's log is locked before the loop starts, and again whenever a child is spawned. */
  lemma SuccessMeans(policy: Policy, w: World, p: I.Pid, line: Record)
    requires Sane(w) && p in w.procs
    ensures var turn := Own(p, I.InitLog(true), line);
            Enabled(policy, w, turn) ==>
              var w' := Do(policy, w, turn);
              w'.procs[p].writer.Some? && Gen(w'.fs, AGENT_LOG, 0) == Some(w'.procs[p].writer.value.file) && Locked(w'.fs, AGENT_LOG)
    ensures var turn := Own(p, I.Bootstrap(true), line); Enabled(policy, w, turn) ==> Locked(Do(policy, w, turn).fs, CHILD_LOG)
    ensures var turn := Own(p, I.SpawnChild, line); Enabled(policy, w, turn) ==> Locked(Do(policy, w, turn).fs, CHILD_LOG)
  {
    OpensLocked(policy, w.fs);
    SecureFileEffect(w.fs, CHILD_LOG);
    LockedAtSpawn(w.fs, CHILD_LOG, policy, PREPARING);
    SpawnIsEnd(w.fs, policy);
    hide OpenHandle, SecureFile, RunCycle, Locked, Secured, Valid, LocksAgree;
  }

  lemma OpensLocked(policy: Policy, fs: Fs)
    requires Valid(fs)
    ensures var (fs', w) := OpenHandle(fs, AGENT_LOG, policy);
            w.Ok? ==> Gen(fs', AGENT_LOG, 0) == Some(w.value.file) && Locked(fs', AGENT_LOG)
  {
    D.OpenLockedOutcome(fs, AGENT_LOG);
    hide OpenLocked;
  }
}
