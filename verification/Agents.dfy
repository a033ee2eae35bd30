/** Any number of agents on one log directory, with the lock as the kernel keeps it
    (agent-rust/src/platform/unix.rs, app.rs): `agent.lock` is opened by name, and what is locked is the
    inode behind it. Whoever deletes the name while it is locked lets a second agent in; as long as
    nobody does, the agents behave as if there were one lock, which is what `Instances` is about. */
module Agents {
  import opened Basics
  import opened Names
  import opened FileSystem
  import opened Rotation
  import opened Writer
  import opened Cycle
  import opened Confinement
  import I = Instances

  // ---------------------------------------------------------------- the system

  /** An agent with the lock file and the log it has open. */
  datatype Proc = Proc(agent: I.Agent, lockFile: Option<FileId>, writer: Option<Handle>)

  /** The agents, their directory, the locked inodes, everything that has been appended to each log,
      and what has been observed. */
  datatype World = World(
    procs: map<I.Pid, Proc>, fs: Fs, locks: map<FileId, I.Pid>,
    agentHistory: seq<Record>, childHistory: seq<Record>, trace: seq<I.Event>)

  function Start(fs: Fs, policy: Policy): World {
    World(map[], fs, map[], Chronicle(fs, AGENT_LOG, policy.keep + 1), Chronicle(fs, CHILD_LOG, policy.keep + 1), [])
  }

  datatype Turn =
    | OpenLock(p: I.Pid)                           // open agent.lock, creating it if it is missing
    | Own(p: I.Pid, a: I.Action, line: Record)     // a step of an agent, with the line it writes if any
    | IdleCycle(p: I.Pid)                          // a cycle that spawns no child
    | Unlink                                       // somebody deletes the name agent.lock

  const PREPARING := Input(true, false, [])

  function NewProc(): Proc {
    Proc(I.Agent(I.Started, false, false), None, None)
  }

  function ProcOf(w: World, p: I.Pid): Proc {
    if p in w.procs then w.procs[p] else NewProc()
  }

  /** Who holds the lock on the inode that an agent has open. */
  function Seen(w: World, proc: Proc): Option<I.Pid> {
    if proc.lockFile.Some? && proc.lockFile.value in w.locks then Some(w.locks[proc.lockFile.value]) else None
  }

  function Lock(locks: map<FileId, I.Pid>, lockFile: Option<FileId>, holder: Option<I.Pid>): map<FileId, I.Pid> {
    if lockFile.None? then locks
    else if holder.Some? then locks[lockFile.value := holder.value]
    else locks - {lockFile.value}
  }

  /** What a step of an agent does to the directory. */
  function FsAfter(policy: Policy, fs: Fs, writer: Option<Handle>, a: I.Action, line: Record): Fs {
    match a
    case InitLog(ok) =>
      var (fs', h) := OpenHandle(fs, AGENT_LOG, policy);
      if ok || h.Err? then fs' else fs
    case Bootstrap(_) => SecureFile(fs, CHILD_LOG).0
    case WriteLine => if writer.Some? then AfterWrite(fs, writer.value, line).0 else fs
    case SpawnChild => RunCycle(fs, CHILD_LOG, policy, PREPARING).0
    case ChildWrites => ChildAppends(fs, CHILD_LOG, [line])
    case _ => fs
  }

  function WriterAfter(policy: Policy, fs: Fs, writer: Option<Handle>, a: I.Action, line: Record): Option<Handle> {
    match a
    case InitLog(_) =>
      var h := OpenHandle(fs, AGENT_LOG, policy).1;
      if h.Ok? then Some(h.value) else None
    case WriteLine => if writer.Some? then Some(AfterWrite(fs, writer.value, line).1) else None
    case _ => writer
  }

  /** What a step gets into agent.log and into child.log. */
  function AgentAdds(fs: Fs, writer: Option<Handle>, a: I.Action, line: Record): seq<Record> {
    if a == I.WriteLine && writer.Some? then Landed(Fate(Prepare(fs, writer.value, line).0), line) else []
  }

  function ChildAdds(fs: Fs, a: I.Action, line: Record): seq<Record> {
    if a == I.ChildWrites && !IsDirectory(fs, Lookup(fs, CHILD_LOG)) then [line] else []
  }

  predicate Over(g: I.Agent) {
    g.stage.Exited? || g.stage.Dead?
  }

  /** A step of an agent: the lock it sees is the one on the inode it has open. */
  function DoOwn(policy: Policy, w: World, p: I.Pid, a: I.Action, line: Record): World {
    var proc := ProcOf(w, p);
    var e := I.EffectOf(p, proc.agent, Seen(w, proc), a);
    World(
      w.procs[p := Proc(e.agent,
                        if Over(e.agent) then None else proc.lockFile,
                        if I.HasLog(e.agent) then WriterAfter(policy, w.fs, proc.writer, a, line) else None)],
      FsAfter(policy, w.fs, proc.writer, a, line),
      Lock(w.locks, proc.lockFile, e.lock),
      w.agentHistory + AgentAdds(w.fs, proc.writer, a, line),
      w.childHistory + ChildAdds(w.fs, a, line),
      w.trace + I.Notes(e.note))
  }

  function Do(policy: Policy, w: World, turn: Turn): World {
    match turn
    case OpenLock(p) =>
      var (fs', r) := OpenAppend(w.fs, LOCK_FILE, true);
      if r.Err? then DoOwn(policy, w.(fs := fs'), p, I.TryLock(true), [])
      else w.(fs := fs', procs := w.procs[p := ProcOf(w, p).(lockFile := Some(r.value))])
    case Own(p, a, line) => DoOwn(policy, w, p, a, line)
    case IdleCycle(_) => w.(fs := RunCycle(w.fs, CHILD_LOG, policy, PREPARING).0)
    case Unlink => w.(fs := w.fs.(dir := w.fs.dir - {LOCK_FILE}))
  }

  /** What the directory must allow for a step to succeed. */
  predicate Possible(policy: Policy, w: World, proc: Proc, a: I.Action) {
    match a
    case TryLock(ioError) => ioError || proc.lockFile.Some?
    case InitLog(ok) => ok ==> OpenHandle(w.fs, AGENT_LOG, policy).1.Ok?
    case Bootstrap(ok) => ok ==> SecureFile(w.fs, CHILD_LOG).1.Ok?
    case SpawnChild => RunCycle(w.fs, CHILD_LOG, policy, PREPARING).1.spawn.Some?
    case _ => true
  }

  predicate Enabled(policy: Policy, w: World, turn: Turn) {
    match turn
    case OpenLock(p) => p in w.procs && w.procs[p].agent.stage == I.DirSecured && w.procs[p].lockFile == None
    case Own(p, a, line) =>
      && (if a == I.Launch then p !in w.procs else p in w.procs && I.Ready(w.procs[p].agent, a))
      && Possible(policy, w, ProcOf(w, p), a)
    case IdleCycle(p) =>
      && p in w.procs && w.procs[p].agent.stage == I.Looping && !w.procs[p].agent.child
      && RunCycle(w.fs, CHILD_LOG, policy, PREPARING).1.spawn.None?
    case Unlink => true
  }

  function After(policy: Policy, w: World, turns: seq<Turn>): World
    decreases |turns|
  {
    if turns == [] then w else After(policy, Do(policy, w, turns[0]), turns[1..])
  }

  predicate Run(policy: Policy, w: World, turns: seq<Turn>)
    decreases |turns|
  {
    turns == [] || (Enabled(policy, w, turns[0]) && Run(policy, Do(policy, w, turns[0]), turns[1..]))
  }

  // ---------------------------------------------------------------- what the agents see of it

  /** Who holds the lock on the inode that the name leads to. */
  function HolderOf(w: World): Option<I.Pid> {
    if LOCK_FILE in w.fs.dir && w.fs.dir[LOCK_FILE] in w.locks then Some(w.locks[w.fs.dir[LOCK_FILE]]) else None
  }

  /** The system with a single lock. */
  function Abs(w: World): I.System {
    I.System(map p | p in w.procs :: w.procs[p].agent, HolderOf(w), w.trace)
  }

  // ---------------------------------------------------------------- what holds whatever others do

  predicate Holds(proc: Proc) {
    I.HoldsLock(proc.agent)
  }

  /** Locks, open lock files and stages agree. */
  ghost predicate LocksAgree(procs: map<I.Pid, Proc>, locks: map<FileId, I.Pid>) {
    && (forall p <- procs :: Holds(procs[p]) <==>
          procs[p].lockFile.Some? && procs[p].lockFile.value in locks && locks[procs[p].lockFile.value] == p)
    && (forall id <- locks :: locks[id] in procs && procs[locks[id]].lockFile == Some(id))
    && (forall p <- procs :: procs[p].lockFile.Some? ==> Holds(procs[p]) || procs[p].agent.stage == I.DirSecured)
  }

  /** Open lock files are inodes, and agents write agent.log. */
  predicate OpenFiles(fs: Fs, proc: Proc) {
    (proc.lockFile.Some? ==> proc.lockFile.value in fs.files) && (proc.writer.Some? ==> proc.writer.value.log == AGENT_LOG)
  }

  ghost predicate Sane(w: World) {
    Valid(w.fs) && LocksAgree(w.procs, w.locks) && forall p <- w.procs :: OpenFiles(w.fs, w.procs[p])
  }

  ghost predicate AtMostOne(w: World) {
    forall p <- w.procs, q <- w.procs :: Holds(w.procs[p]) && Holds(w.procs[q]) ==> p == q
  }

  /** Every lock file that an agent has open is the one that the name leads to. */
  ghost predicate Named(w: World) {
    forall p <- w.procs :: w.procs[p].lockFile.Some? ==> Lookup(w.fs, LOCK_FILE) == w.procs[p].lockFile
  }

  lemma NamedMeansAtMostOne(w: World)
    requires Sane(w) && Named(w)
    ensures AtMostOne(w)
  {
  }

  /** No step of an agent changes what the name leads to, or removes an inode. */
  lemma FsAfterKeepsLockFile(policy: Policy, fs: Fs, writer: Option<Handle>, a: I.Action, line: Record)
    requires Valid(fs) && (writer.Some? ==> writer.value.log == AGENT_LOG)
    ensures var fs' := FsAfter(policy, fs, writer, a, line);
            Valid(fs') && Lookup(fs', LOCK_FILE) == Lookup(fs, LOCK_FILE) && fs.files.Keys <= fs'.files.Keys
  {
    hide OpenHandle, SecureFile, AfterWrite, RunCycle, ChildAppends, Elsewhere, Valid;
    LogsApart();
    match a {
      case InitLog(_) => OpenHandleConfined(fs, AGENT_LOG, policy);
      case Bootstrap(_) => SecureConfined(fs, CHILD_LOG);
      case WriteLine => if writer.Some? { WriteConfined(fs, writer.value, line); }
      case SpawnChild => CycleConfined(fs, CHILD_LOG, policy, PREPARING);
      case ChildWrites => ChildAppendsConfined(fs, CHILD_LOG, [line]);
      case _ =>
    }
  }

  // ---------------------------------------------------------------- one step

  /** What a step does to the lock that its agent sees. */
  lemma EffectOnLock(p: I.Pid, g: I.Agent, seen: Option<I.Pid>, a: I.Action)
    requires I.HoldsLock(g) ==> seen == Some(p)
    requires if a == I.Launch then g == NewProc().agent else I.Ready(g, a)
    ensures var e := I.EffectOf(p, g, seen, a);
            && (e.lock == seen || (e.lock == Some(p) && seen == None && a == I.TryLock(false)) || (e.lock == None && seen == Some(p)))
            && ((I.HoldsLock(g) <==> seen == Some(p)) ==> (I.HoldsLock(e.agent) <==> e.lock == Some(p)))
            && (e.lock != Some(p) && (I.HoldsLock(g) || g.stage == I.DirSecured) ==> Over(e.agent))
            && (I.HoldsLock(e.agent) || Over(e.agent) || e.agent.stage in {I.Started, I.DirSecured})
  {
  }

  /** An agent that moves on to `g` leaves locks, open lock files and stages in agreement. */
  lemma LockStep(procs: map<I.Pid, Proc>, locks: map<FileId, I.Pid>, p: I.Pid, proc: Proc, seen: Option<I.Pid>, a: I.Action, writer: Option<Handle>)
    requires LocksAgree(procs, locks) && proc == if p in procs then procs[p] else NewProc()
    requires seen == if proc.lockFile.Some? && proc.lockFile.value in locks then Some(locks[proc.lockFile.value]) else None
    requires if a == I.Launch then p !in procs else I.Ready(proc.agent, a)
    requires a == I.TryLock(false) ==> proc.lockFile.Some?
    ensures var e := I.EffectOf(p, proc.agent, seen, a);
            LocksAgree(procs[p := Proc(e.agent, if Over(e.agent) then None else proc.lockFile, writer)], Lock(locks, proc.lockFile, e.lock))
  {
    EffectOnLock(p, proc.agent, seen, a);
    OverHoldsNothing(I.EffectOf(p, proc.agent, seen, a).agent);
    hide I.EffectOf, I.HoldsLock, I.Ready, Over;
  }

  lemma OverHoldsNothing(g: I.Agent)
    ensures Over(g) ==> !I.HoldsLock(g)
  {
  }

  lemma WriterAfterOnLog(policy: Policy, fs: Fs, writer: Option<Handle>, a: I.Action, line: Record)
    requires writer.Some? ==> writer.value.log == AGENT_LOG
    ensures var w' := WriterAfter(policy, fs, writer, a, line); w'.Some? ==> w'.value.log == AGENT_LOG
  {
    hide Rotate, OpenLocked, Append;
  }

  lemma FilesStayOpen(procs: map<I.Pid, Proc>, fs: Fs, fs': Fs, p: I.Pid, proc: Proc, procs': map<I.Pid, Proc>)
    requires (forall q <- procs :: OpenFiles(fs, procs[q])) && fs.files.Keys <= fs'.files.Keys && OpenFiles(fs', proc)
    requires procs' == procs[p := proc]
    ensures forall q <- procs' :: OpenFiles(fs', procs'[q])
  {
  }

  /** The agent after its step. */
  function NextProc(policy: Policy, w: World, p: I.Pid, a: I.Action, line: Record): Proc {
    var proc := ProcOf(w, p);
    var g := I.EffectOf(p, proc.agent, Seen(w, proc), a).agent;
    Proc(g, if Over(g) then None else proc.lockFile, if I.HasLog(g) then WriterAfter(policy, w.fs, proc.writer, a, line) else None)
  }

  lemma OwnOnlyMoves(policy: Policy, w: World, p: I.Pid, a: I.Action, line: Record)
    ensures var w', proc := DoOwn(policy, w, p, a, line), ProcOf(w, p);
            && w'.procs == w.procs[p := NextProc(policy, w, p, a, line)]
            && w'.fs == FsAfter(policy, w.fs, proc.writer, a, line)
            && w'.locks == Lock(w.locks, proc.lockFile, I.EffectOf(p, proc.agent, Seen(w, proc), a).lock)
            && w'.procs[p].lockFile in {None, proc.lockFile}
  {
    hide FsAfter, WriterAfter, I.EffectOf, I.HasLog, Lock, AgentAdds, ChildAdds;
  }

  lemma NextProcOpen(policy: Policy, w: World, p: I.Pid, a: I.Action, line: Record)
    requires OpenFiles(w.fs, ProcOf(w, p))
    ensures OpenFiles(w.fs, NextProc(policy, w, p, a, line))
  {
    WriterAfterOnLog(policy, w.fs, ProcOf(w, p).writer, a, line);
    hide WriterAfter, I.EffectOf, I.HasLog;
  }

  lemma OwnSane(policy: Policy, w: World, p: I.Pid, a: I.Action, line: Record)
    requires Sane(w) && (if a == I.Launch then p !in w.procs else p in w.procs && I.Ready(w.procs[p].agent, a))
    requires a == I.TryLock(false) ==> ProcOf(w, p).lockFile.Some?
    ensures var w' := DoOwn(policy, w, p, a, line); Sane(w') && Lookup(w'.fs, LOCK_FILE) == Lookup(w.fs, LOCK_FILE)
  {
    var proc, w', next := ProcOf(w, p), DoOwn(policy, w, p, a, line), NextProc(policy, w, p, a, line);
    OwnOnlyMoves(policy, w, p, a, line);
    NextProcOpen(policy, w, p, a, line);
    LockStep(w.procs, w.locks, p, proc, Seen(w, proc), a, next.writer);
    FsAfterKeepsLockFile(policy, w.fs, proc.writer, a, line);
    hide DoOwn, FsAfter, LocksAgree, Valid, I.EffectOf, I.HasLog, I.Ready, Lock;
    FilesStayOpen(w.procs, w.fs, w'.fs, p, next, w'.procs);
  }

  lemma OpenLockFile(fs: Fs)
    requires Valid(fs)
    ensures var (fs', r) := OpenAppend(fs, LOCK_FILE, true);
            && Valid(fs') && fs.files.Keys <= fs'.files.Keys
            && (r.Ok? ==> Lookup(fs', LOCK_FILE) == Some(r.value) && r.value in fs'.files)
            && (LOCK_FILE in fs.dir || r.Err? ==> Lookup(fs', LOCK_FILE) == Lookup(fs, LOCK_FILE))
  {
    OpenEffect(fs, LOCK_FILE);
  }

  /** An agent that opens the lock file without locking it. */
  lemma OpenedAgrees(procs: map<I.Pid, Proc>, locks: map<FileId, I.Pid>, p: I.Pid, id: FileId)
    requires LocksAgree(procs, locks) && p in procs && procs[p].agent.stage == I.DirSecured && procs[p].lockFile == None
    ensures LocksAgree(procs[p := procs[p].(lockFile := Some(id))], locks)
  {
  }

  /** Locks and open lock files stay in agreement, whatever anybody does; and unless it is deleted, the
      lock file stays the one that the name leads to. */
  lemma StepSane(policy: Policy, w: World, turn: Turn)
    requires Sane(w) && Enabled(policy, w, turn)
    ensures Sane(Do(policy, w, turn))
    ensures turn != Unlink && Named(w) ==> Named(Do(policy, w, turn))
  {
    hide DoOwn, LocksAgree, OpenAppend, RunCycle, Possible, Valid, Elsewhere;
    match turn {
      case OpenLock(p) =>
        OpenLockFile(w.fs);
        var (fs', r) := OpenAppend(w.fs, LOCK_FILE, true);
        if r.Err? {
          OwnSane(policy, w.(fs := fs'), p, I.TryLock(true), []);
          OwnOnlyMoves(policy, w.(fs := fs'), p, I.TryLock(true), []);
        } else {
          OpenedAgrees(w.procs, w.locks, p, r.value);
        }
      case Own(p, a, line) =>
        PossibleTryLock(policy, w, ProcOf(w, p), a);
        OwnSane(policy, w, p, a, line);
        OwnOnlyMoves(policy, w, p, a, line);
      case IdleCycle(_) =>
        LogsApart();
        CycleConfined(w.fs, CHILD_LOG, policy, PREPARING);
      case Unlink =>
        UnlinkKeeps(w.fs);
    }
  }

  lemma UnlinkKeeps(fs: Fs)
    requires Valid(fs)
    ensures Valid(fs.(dir := fs.dir - {LOCK_FILE}))
  {
  }

  lemma PossibleTryLock(policy: Policy, w: World, proc: Proc, a: I.Action)
    requires Possible(policy, w, proc, a)
    ensures a == I.TryLock(false) ==> proc.lockFile.Some?
  {
  }

  // ---------------------------------------------------------------- exclusion, and when it breaks

  predicate NobodyUnlinks(turns: seq<Turn>) {
    forall i :: 0 <= i < |turns| ==> turns[i] != Unlink
  }

  lemma {:induction false} StaysNamed(policy: Policy, w: World, turns: seq<Turn>)
    requires Sane(w) && Named(w) && Run(policy, w, turns) && NobodyUnlinks(turns)
    ensures Sane(After(policy, w, turns)) && Named(After(policy, w, turns))
    decreases |turns|
  {
    hide Do, Enabled, Sane, Named;
    if turns != [] {
      StepSane(policy, w, turns[0]);
      StaysNamed(policy, Do(policy, w, turns[0]), turns[1..]);
    }
  }

  lemma {:induction false} StaysSane(policy: Policy, w: World, turns: seq<Turn>)
    requires Sane(w) && Run(policy, w, turns)
    ensures Sane(After(policy, w, turns))
    decreases |turns|
  {
    hide Do, Enabled, Sane, Named;
    if turns != [] {
      StepSane(policy, w, turns[0]);
      StaysSane(policy, Do(policy, w, turns[0]), turns[1..]);
    }
  }

  lemma {:induction false} AfterBoth(policy: Policy, w: World, a: seq<Turn>, b: seq<Turn>)
    requires Run(policy, w, a) && Run(policy, After(policy, w, a), b)
    ensures Run(policy, w, a + b) && After(policy, w, a + b) == After(policy, After(policy, w, a), b)
    decreases |a|
  {
    hide Do, Enabled;
    if a == [] {
      assert a + b == b;
    } else {
      assert (a + b)[1..] == a[1..] + b;
      AfterBoth(policy, Do(policy, w, a[0]), a[1..], b);
    }
  }

  lemma OneTurn(policy: Policy, w: World, turn: Turn)
    requires Enabled(policy, w, turn)
    ensures Run(policy, w, [turn]) && After(policy, w, [turn]) == Do(policy, w, turn)
  {
    hide Do, Enabled;
    assert [turn][1..] == [] && Run(policy, Do(policy, w, turn), []) && After(policy, Do(policy, w, turn), []) == Do(policy, w, turn);
  }

  lemma {:induction false} FreshPid(pids: set<I.Pid>) returns (p: I.Pid)
    ensures forall q <- pids :: q < p
  {
    p := 0;
    if pids != {} {
      var q :| q in pids;
      var r := FreshPid(pids - {q});
      p := if r > q then r else q + 1;
      assert forall x <- pids :: x == q || x in pids - {q};
    }
  }

  /** An agent that has a lock file open on which there is no lock gets it. */
  lemma Grants(policy: Policy, w: World, p: I.Pid)
    requires p in w.procs && w.procs[p].agent.stage == I.DirSecured && w.procs[p].lockFile.Some?
    requires w.procs[p].lockFile.value !in w.locks
    ensures var turn := Own(p, I.TryLock(false), []);
            && Enabled(policy, w, turn)
            && Do(policy, w, turn).procs.Keys == w.procs.Keys && Holds(Do(policy, w, turn).procs[p])
            && Do(policy, w, turn).procs[p].lockFile == w.procs[p].lockFile && Do(policy, w, turn).fs == w.fs
            && forall q <- w.procs :: q != p ==> Do(policy, w, turn).procs[q] == w.procs[q]
  {
    assert FsAfter(policy, w.fs, w.procs[p].writer, I.TryLock(false), []) == w.fs;
    hide FsAfter, WriterAfter;
  }

  /** A new agent that gets as far as opening the lock file. */
  lemma Arrives(policy: Policy, w: World, p: I.Pid) returns (turns: seq<Turn>)
    requires Sane(w) && p !in w.procs && w.fs.faults == [] && !IsDirectory(w.fs, Lookup(w.fs, LOCK_FILE))
    ensures Run(policy, w, turns) && NobodyUnlinks(turns)
    ensures var w' := After(policy, w, turns);
            && w'.procs.Keys == w.procs.Keys + {p} && w'.locks == w.locks && w'.fs.faults == []
            && w'.procs[p].agent.stage == I.DirSecured && w'.procs[p].lockFile.Some?
            && Lookup(w'.fs, LOCK_FILE) == w'.procs[p].lockFile && !IsDirectory(w'.fs, w'.procs[p].lockFile)
            && (if LOCK_FILE in w.fs.dir then w'.procs[p].lockFile == Lookup(w.fs, LOCK_FILE)
                else w'.procs[p].lockFile == Some(w.fs.next))
            && forall q <- w.procs :: w'.procs[q] == w.procs[q]
  {
    var w2 := w.(procs := w.procs[p := Proc(I.Agent(I.DirSecured, false, false), None, None)]);
    var prefix := GetsToDirectory(policy, w, p);
    Opens(policy, w2, p);
    hide Do, Enabled, IsDirectory, Run, After, Sane;
    OneTurn(policy, w2, OpenLock(p));
    AfterBoth(policy, w, prefix, [OpenLock(p)]);
    turns := prefix + [OpenLock(p)];
  }

  lemma GetsToDirectory(policy: Policy, w: World, p: I.Pid) returns (turns: seq<Turn>)
    requires p !in w.procs
    ensures Run(policy, w, turns) && NobodyUnlinks(turns)
    ensures After(policy, w, turns) == w.(procs := w.procs[p := Proc(I.Agent(I.DirSecured, false, false), None, None)])
  {
    var t1, t2 := Own(p, I.Launch, []), Own(p, I.SecureDir(true), []);
    var w1 := w.(procs := w.procs[p := NewProc()]);
    Launches(policy, w, p);
    Secures(policy, w1, p);
    hide Do, Enabled, Run, After;
    OneTurn(policy, w, t1);
    OneTurn(policy, w1, t2);
    AfterBoth(policy, w, [t1], [t2]);
    turns := [t1] + [t2];
    assert w1.procs[p := Proc(I.Agent(I.DirSecured, false, false), None, None)]
        == w.procs[p := Proc(I.Agent(I.DirSecured, false, false), None, None)];
  }

  lemma Launches(policy: Policy, w: World, p: I.Pid)
    requires p !in w.procs
    ensures Enabled(policy, w, Own(p, I.Launch, [])) && Do(policy, w, Own(p, I.Launch, [])) == w.(procs := w.procs[p := NewProc()])
  {
    NothingAdded(w);
  }

  lemma NothingAdded(w: World)
    ensures w.trace + [] == w.trace && w.agentHistory + [] == w.agentHistory && w.childHistory + [] == w.childHistory
  {
  }

  lemma Secures(policy: Policy, w: World, p: I.Pid)
    requires p in w.procs && w.procs[p] == NewProc()
    ensures Enabled(policy, w, Own(p, I.SecureDir(true), []))
    ensures Do(policy, w, Own(p, I.SecureDir(true), []))
         == w.(procs := w.procs[p := Proc(I.Agent(I.DirSecured, false, false), None, None)])
  {
    NothingAdded(w);
  }

  lemma Opens(policy: Policy, w: World, p: I.Pid)
    requires Valid(w.fs) && w.fs.faults == [] && !IsDirectory(w.fs, Lookup(w.fs, LOCK_FILE))
    requires p in w.procs && w.procs[p] == Proc(I.Agent(I.DirSecured, false, false), None, None)
    ensures Enabled(policy, w, OpenLock(p))
    ensures var w' := Do(policy, w, OpenLock(p));
            && w'.procs == w.procs[p := w.procs[p].(lockFile := Lookup(w'.fs, LOCK_FILE))] && w'.locks == w.locks
            && Lookup(w'.fs, LOCK_FILE) == (if LOCK_FILE in w.fs.dir then Lookup(w.fs, LOCK_FILE) else Some(w.fs.next))
            && w'.fs.faults == [] && !IsDirectory(w'.fs, Lookup(w'.fs, LOCK_FILE))
  {
  }

  /** An open lock file other than the holder's is all that a second holder needs. */
  lemma SecondHolder(policy: Policy, w: World, p: I.Pid, q: I.Pid)
    requires Sane(w) && AtMostOne(w) && p in w.procs && Holds(w.procs[p]) && q in w.procs && w.procs[q].lockFile.Some?
    requires w.procs[q].lockFile != w.procs[p].lockFile
    ensures Enabled(policy, w, Own(q, I.TryLock(false), [])) && !AtMostOne(Do(policy, w, Own(q, I.TryLock(false), [])))
  {
    assert w.procs[q].lockFile.value !in w.locks;
    Grants(policy, w, q);
    hide Do, Enabled;
  }

  /** While one agent holds the lock: no agent, however many arrive, gets it too if and only if every
      lock file that is open, the holder's included, is still the one that the name leads to. */
  lemma ExclusiveIff(policy: Policy, w: World, p: I.Pid)
    requires Sane(w) && AtMostOne(w) && p in w.procs && Holds(w.procs[p])
    requires w.fs.faults == [] && !IsDirectory(w.fs, Lookup(w.fs, LOCK_FILE))
    ensures (forall turns | Run(policy, w, turns) && NobodyUnlinks(turns) :: AtMostOne(After(policy, w, turns))) <==> Named(w)
  {
    if Named(w) {
      forall turns | Run(policy, w, turns) && NobodyUnlinks(turns) ensures AtMostOne(After(policy, w, turns)) {
        StaysNamed(policy, w, turns);
        NamedMeansAtMostOne(After(policy, w, turns));
      }
    } else {
      var turns := Intrudes(policy, w, p);
    }
  }

  lemma Intrudes(policy: Policy, w: World, p: I.Pid) returns (turns: seq<Turn>)
    requires Sane(w) && AtMostOne(w) && p in w.procs && Holds(w.procs[p]) && !Named(w)
    requires w.fs.faults == [] && !IsDirectory(w.fs, Lookup(w.fs, LOCK_FILE))
    ensures Run(policy, w, turns) && NobodyUnlinks(turns) && !AtMostOne(After(policy, w, turns))
  {
    if q :| q in w.procs && w.procs[q].lockFile.Some? && w.procs[q].lockFile != w.procs[p].lockFile {
      SecondHolder(policy, w, p, q);
      OneTurn(policy, w, Own(q, I.TryLock(false), []));
      turns := [Own(q, I.TryLock(false), [])];
    } else {
      var q := FreshPid(w.procs.Keys);
      var arrival := Arrives(policy, w, q);
      var w' := After(policy, w, arrival);
      StaysSane(policy, w, arrival);
      assert w.fs.next !in w.fs.files;
      assert w'.procs[p] == w.procs[p] && w'.procs[q].lockFile != w.procs[p].lockFile;
      assert AtMostOne(w');
      SecondHolder(policy, w', p, q);
      OneTurn(policy, w', Own(q, I.TryLock(false), []));
      AfterBoth(policy, w, arrival, [Own(q, I.TryLock(false), [])]);
      turns := arrival + [Own(q, I.TryLock(false), [])];
    }
  }

  /** An agent that comes to a directory without agents gets the lock. */
  lemma FirstHolder(fs: Fs, policy: Policy) returns (turns: seq<Turn>)
    requires Valid(fs) && fs.faults == [] && !IsDirectory(fs, Lookup(fs, LOCK_FILE))
    ensures Run(policy, Start(fs, policy), turns)
    ensures var w := After(policy, Start(fs, policy), turns);
            w.procs.Keys == {0} && Holds(w.procs[0]) && w.procs[0].lockFile.Some? && w.fs.faults == []
  {
    var w := Start(fs, policy);
    StartsSane(fs, policy);
    var arrival := Arrives(policy, w, 0);
    var w1 := After(policy, w, arrival);
    var lock := Own(0, I.TryLock(false), []);
    assert w1.locks == map[];
    Grants(policy, w1, 0);
    hide Start, Do, Enabled, IsDirectory;
    OneTurn(policy, w1, lock);
    AfterBoth(policy, w, arrival, [lock]);
    turns := arrival + [lock];
  }

  /** From every directory in which nothing fails, deleting the name while an agent holds the lock lets
      a second one in. */
  lemma UnlinkAdmitsSecond(fs: Fs, policy: Policy) returns (turns: seq<Turn>)
    requires Valid(fs) && fs.faults == [] && !IsDirectory(fs, Lookup(fs, LOCK_FILE))
    ensures Run(policy, Start(fs, policy), turns) && !AtMostOne(After(policy, Start(fs, policy), turns))
  {
    hide Start, Do, Enabled, IsDirectory, Sane;
    var w := Start(fs, policy);
    var first := FirstHolder(fs, policy);
    var w1 := After(policy, w, first);
    UnlinkDoes(policy, w1);
    OneTurn(policy, w1, Unlink);
    AfterBoth(policy, w, first, [Unlink]);
    StartsSane(fs, policy);
    StaysSane(policy, w, first + [Unlink]);
    var intrusion := Intrudes(policy, Do(policy, w1, Unlink), 0);
    AfterBoth(policy, w, first + [Unlink], intrusion);
    turns := first + [Unlink] + intrusion;
  }

  lemma StartsSane(fs: Fs, policy: Policy)
    requires Valid(fs)
    ensures Sane(Start(fs, policy)) && Named(Start(fs, policy)) && Start(fs, policy).procs == map[]
  {
  }

  lemma UnlinkDoes(policy: Policy, w: World)
    ensures Enabled(policy, w, Unlink)
    ensures var w' := Do(policy, w, Unlink);
            && w'.procs == w.procs && Lookup(w'.fs, LOCK_FILE) == None && w'.fs.faults == w.fs.faults
            && !IsDirectory(w'.fs, None)
  {
  }

  // ---------------------------------------------------------------- as if there were one lock

  /** A run in which the name is deleted only while no agent has the lock file open. */
  ghost predicate Guarded(policy: Policy, w: World, turns: seq<Turn>)
    decreases |turns|
  {
    turns == []
    || ((turns[0] == Unlink ==> NobodyHasItOpen(w)) && Guarded(policy, Do(policy, w, turns[0]), turns[1..]))
  }

  ghost predicate NobodyHasItOpen(w: World) {
    forall p <- w.procs :: w.procs[p].lockFile == None
  }

  /** The agent sees the one lock, or does not look. */
  lemma SameEffect(w: World, p: I.Pid, a: I.Action)
    requires Sane(w) && Named(w)
    requires if a == I.Launch then p !in w.procs else p in w.procs && I.Ready(w.procs[p].agent, a)
    requires a == I.TryLock(false) ==> ProcOf(w, p).lockFile.Some?
    ensures var proc := ProcOf(w, p);
            var e, one := I.EffectOf(p, proc.agent, Seen(w, proc), a), I.EffectOf(p, proc.agent, HolderOf(w), a);
            && e.agent == one.agent && e.note == one.note
            && (if proc.lockFile.Some? then e.lock == one.lock else one.lock == HolderOf(w))
  {
  }

  lemma OwnAbstracts(policy: Policy, w: World, p: I.Pid, a: I.Action, line: Record)
    requires Sane(w) && Named(w)
    requires if a == I.Launch then p !in w.procs else p in w.procs && I.Ready(w.procs[p].agent, a)
    requires a == I.TryLock(false) ==> ProcOf(w, p).lockFile.Some?
    ensures I.Enabled(Abs(w), p, a) && Abs(DoOwn(policy, w, p, a, line)) == I.Do(Abs(w), p, a)
  {
    SameEffect(w, p, a);
    OwnOnlyMoves(policy, w, p, a, line);
    FsAfterKeepsLockFile(policy, w.fs, ProcOf(w, p).writer, a, line);
    var w', proc := DoOwn(policy, w, p, a, line), ProcOf(w, p);
    var e, one := I.EffectOf(p, proc.agent, Seen(w, proc), a), I.EffectOf(p, proc.agent, HolderOf(w), a);
    OwnTrace(policy, w, p, a, line);
    AbsDo(w, p, a);
    NamedProc(w, p);
    hide DoOwn, FsAfter, WriterAfter, I.EffectOf, AgentAdds, ChildAdds, Valid, LocksAgree, Named, HolderOf, Lock, Sane, I.Ready;
    LockHolder(w, proc, e.lock, w');
    AgentsOf(w, w', p);
  }

  lemma NamedProc(w: World, p: I.Pid)
    requires Named(w)
    ensures ProcOf(w, p).lockFile.Some? ==> Lookup(w.fs, LOCK_FILE) == ProcOf(w, p).lockFile
  {
  }

  lemma OwnTrace(policy: Policy, w: World, p: I.Pid, a: I.Action, line: Record)
    ensures DoOwn(policy, w, p, a, line).trace == w.trace + I.Notes(I.EffectOf(p, ProcOf(w, p).agent, Seen(w, ProcOf(w, p)), a).note)
  {
    hide FsAfter, WriterAfter, I.EffectOf, I.HasLog, Lock, AgentAdds, ChildAdds;
  }

  lemma AbsDo(w: World, p: I.Pid, a: I.Action)
    requires if a == I.Launch then p !in w.procs else p in w.procs && I.Ready(w.procs[p].agent, a)
    ensures var one := I.EffectOf(p, ProcOf(w, p).agent, HolderOf(w), a);
            && I.Enabled(Abs(w), p, a)
            && I.Do(Abs(w), p, a) == I.System(Abs(w).agents[p := one.agent], one.lock, w.trace + I.Notes(one.note))
  {
    hide I.EffectOf, I.Ready, HolderOf;
  }

  /** Who holds the lock on the inode behind the name once the lock of one agent has changed. */
  lemma LockHolder(w: World, proc: Proc, holder: Option<I.Pid>, w': World)
    requires w'.locks == Lock(w.locks, proc.lockFile, holder) && Lookup(w'.fs, LOCK_FILE) == Lookup(w.fs, LOCK_FILE)
    requires proc.lockFile.Some? ==> Lookup(w.fs, LOCK_FILE) == proc.lockFile
    ensures HolderOf(w') == if proc.lockFile.Some? then holder else HolderOf(w)
  {
  }

  lemma AgentsOf(w: World, w': World, p: I.Pid)
    requires p in w'.procs && w'.procs == w.procs[p := w'.procs[p]]
    ensures Abs(w').agents == Abs(w).agents[p := w'.procs[p].agent]
  {
  }

  /** Two worlds that look the same to the agents with one lock. */
  lemma SameAbs(w: World, w': World)
    requires w'.procs.Keys == w.procs.Keys && w'.locks == w.locks && w'.trace == w.trace
    requires forall p <- w.procs :: w'.procs[p].agent == w.procs[p].agent
    requires Lookup(w'.fs, LOCK_FILE) == Lookup(w.fs, LOCK_FILE) || w.locks == map[]
    ensures Abs(w') == Abs(w)
  {
    assert Abs(w').agents == Abs(w).agents;
  }

  lemma OpenAbstracts(policy: Policy, w: World, p: I.Pid)
    requires Sane(w) && Named(w) && Enabled(policy, w, OpenLock(p))
    ensures var w', a := Do(policy, w, OpenLock(p)), I.TryLock(true);
            Abs(w') == Abs(w) || (I.Enabled(Abs(w), p, a) && Abs(w') == I.Do(Abs(w), p, a))
  {
    OpenLockFile(w.fs);
    hide DoOwn, I.Do, OpenAppend, LocksAgree, Abs, Valid;
    var (fs', r) := OpenAppend(w.fs, LOCK_FILE, true);
    if r.Err? {
      SameAbs(w, w.(fs := fs'));
      OwnAbstracts(policy, w.(fs := fs'), p, I.TryLock(true), []);
    } else {
      if LOCK_FILE !in w.fs.dir {
        NoNameNoLocks(w);
      }
      SameAbs(w, Do(policy, w, OpenLock(p)));
    }
  }

  lemma NobodyOpenNoLocks(w: World)
    requires Sane(w) && NobodyHasItOpen(w)
    ensures w.locks == map[]
  {
  }

  /** While the lock file is left alone, every turn is a step of the agents with one lock, or nothing
      that they can see. */
  lemma TurnAbstracts(policy: Policy, w: World, turn: Turn)
    requires Sane(w) && Named(w) && Enabled(policy, w, turn) && (turn == Unlink ==> NobodyHasItOpen(w))
    ensures var w' := Do(policy, w, turn);
            Abs(w') == Abs(w) || exists p, a :: I.Enabled(Abs(w), p, a) && Abs(w') == I.Do(Abs(w), p, a)
  {
    hide DoOwn, I.Do, I.Enabled, Abs, OpenAppend, RunCycle, Possible, Elsewhere, LocksAgree, Named, Valid;
    match turn {
      case OpenLock(p) => OpenAbstracts(policy, w, p);
      case Own(p, a, line) =>
        PossibleTryLock(policy, w, ProcOf(w, p), a);
        OwnAbstracts(policy, w, p, a, line);
      case IdleCycle(_) =>
        LogsApart();
        CycleConfined(w.fs, CHILD_LOG, policy, PREPARING);
        SameAbs(w, Do(policy, w, turn));
      case Unlink =>
        NobodyOpenNoLocks(w);
        SameAbs(w, Do(policy, w, turn));
    }
  }

  lemma NoNameNoLocks(w: World)
    requires Sane(w) && Named(w) && LOCK_FILE !in w.fs.dir
    ensures w.locks == map[]
  {
  }

  lemma {:induction false} StaysExclusive(policy: Policy, w: World, turns: seq<Turn>)
    requires Sane(w) && Named(w) && I.Inv(Abs(w)) && Run(policy, w, turns) && Guarded(policy, w, turns)
    ensures var end := After(policy, w, turns); Sane(end) && Named(end) && I.Inv(Abs(end))
    decreases |turns|
  {
    hide Do, Enabled, Sane, I.Inv, I.Enabled, I.Do, Abs, Named;
    if turns != [] {
      var w' := Do(policy, w, turns[0]);
      TurnAbstracts(policy, w, turns[0]);
      if Abs(w') != Abs(w) {
        var p, a :| I.Enabled(Abs(w), p, a) && Abs(w') == I.Do(Abs(w), p, a);
        I.StepKeepsInv(Abs(w), p, a);
      }
      StepSane(policy, w, turns[0]);
      if turns[0] == Unlink {
        UnlinkNamed(policy, w);
      }
      StaysExclusive(policy, w', turns[1..]);
    }
  }

  lemma UnlinkNamed(policy: Policy, w: World)
    requires NobodyHasItOpen(w)
    ensures Named(Do(policy, w, Unlink))
  {
  }

  lemma InvSays(w: World)
    requires I.Inv(Abs(w))
    ensures I.Exclusive(w.trace)
    ensures forall i :: 0 <= i < |w.trace| && w.trace[i].Refused? ==>
              && I.Silent(w.trace, w.trace[i].p)
              && w.trace[i].p in w.procs && w.procs[w.trace[i].p].agent.stage == I.Exited(I.EXIT_ALREADY_RUNNING)
  {
    hide I.Exclusive, I.Agree, I.Silent, HolderOf;
    assert forall p <- w.procs :: Abs(w).agents[p] == w.procs[p].agent;
  }

  /** Over all runs of any number of agents, crashes and failures included, in which the lock file is
      not deleted while an agent has it open: at most one agent holds the lock; every line of either
      log is written by the agent that holds it at that moment, agent.log between the opening and the
      closing of its own log, which lies inside its lock interval; a refused agent writes neither log
      and exits with 5. */
  lemma OneAgentAtATime(fs: Fs, policy: Policy, turns: seq<Turn>)
    requires Valid(fs) && Run(policy, Start(fs, policy), turns) && Guarded(policy, Start(fs, policy), turns)
    ensures var end := After(policy, Start(fs, policy), turns);
            && AtMostOne(end) && I.Exclusive(end.trace)
            && forall i :: 0 <= i < |end.trace| && end.trace[i].Refused? ==>
                 && I.Silent(end.trace, end.trace[i].p)
                 && end.trace[i].p in end.procs && end.procs[end.trace[i].p].agent.stage == I.Exited(I.EXIT_ALREADY_RUNNING)
  {
    StartsSane(fs, policy);
    assert I.Inv(Abs(Start(fs, policy)));
    hide Start, Run, After, Guarded, Sane, Named, I.Inv, I.Exclusive, I.Silent, AtMostOne;
    StaysExclusive(policy, Start(fs, policy), turns);
    NamedMeansAtMostOne(After(policy, Start(fs, policy), turns));
    InvSays(After(policy, Start(fs, policy), turns));
  }

  /** Between two acquisitions the first holder has released the lock or crashed. */
  lemma LockIntervalsDisjoint(fs: Fs, policy: Policy, turns: seq<Turn>, i: nat, j: nat)
    requires Valid(fs) && Run(policy, Start(fs, policy), turns) && Guarded(policy, Start(fs, policy), turns)
    requires var trace := After(policy, Start(fs, policy), turns).trace;
             i < j < |trace| && trace[i].Acquired? && trace[j].Acquired?
    ensures var trace := After(policy, Start(fs, policy), turns).trace;
            exists k :: i < k < j && (trace[k] == I.Released(trace[i].p) || trace[k] == I.Crashed(trace[i].p))
  {
    hide Start, Run, After, Guarded, I.Exclusive, I.Silent, AtMostOne;
    OneAgentAtATime(fs, policy, turns);
    I.IntervalsDisjoint(After(policy, Start(fs, policy), turns).trace, i, j);
  }
}
