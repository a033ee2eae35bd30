/** Both logs of a directory under all agents that ever run on it (agent-rust/src/app.rs, rotation.rs,
    cycle.rs): writers come and go with the agents, their operations interleave with the cycles and
    with the children's writes, any of them may fail, and agents may crash. */
module AgentsLogs {
  import opened Basics
  import opened Names
  import opened FileSystem
  import opened Rotation
  import opened Writer
  import D = Durability
  import opened Cycle
  import H = ChildLogHistory
  import opened Confinement
  import opened Agents
  import I = Instances

  // ---------------------------------------------------------------- the invariant

  /** An open writer has its place in agent.log, and its file is none of child.log's. */
  ghost predicate Writing(policy: Policy, fs: Fs, w: Handle, history: seq<Record>) {
    && w.log == AGENT_LOG && w.policy == policy && !InFamily(fs, CHILD_LOG, w.file)
    && exists f: nat :: D.Intact(D.Run(fs, w, history, f))
  }

  ghost predicate Kept(policy: Policy, fs: Fs, log: string, history: seq<Record>) {
    D.IsSuffix(Chronicle(fs, log, policy.keep + 1), history)
  }

  ghost predicate LogsKept(policy: Policy, w: World) {
    && Kept(policy, w.fs, AGENT_LOG, w.agentHistory) && Kept(policy, w.fs, CHILD_LOG, w.childHistory)
    && forall p <- w.procs :: w.procs[p].writer.Some? ==>
         I.HasLog(w.procs[p].agent) && Writing(policy, w.fs, w.procs[p].writer.value, w.agentHistory)
  }

  // ---------------------------------------------------------------- what does not concern a log

  lemma UntouchedKept(policy: Policy, a: Fs, b: Fs, log: string, history: seq<Record>)
    requires Kept(policy, a, log, history) && Untouched(a, b, log)
    ensures Kept(policy, b, log, history)
  {
    UntouchedChronicle(a, b, log, policy.keep + 1);
  }

  lemma UntouchedWriting(policy: Policy, a: Fs, b: Fs, w: Handle, history: seq<Record>)
    requires Writing(policy, a, w, history) && Valid(b) && Untouched(a, b, AGENT_LOG)
    requires w.file in a.files ==> w.file in b.files && b.files[w.file] == a.files[w.file]
    requires !InFamily(b, CHILD_LOG, w.file)
    ensures Writing(policy, b, w, history)
  {
    hide Gen, ContentOf, InFamily, Valid;
    var f: nat :| D.Intact(D.Run(a, w, history, f));
    UntouchedChronicle(a, b, AGENT_LOG, policy.keep + 1);
    var h: nat :| h <= f && D.Newest(a, AGENT_LOG, w.file, policy.keep + 1, h);
    assert D.Newest(b, AGENT_LOG, w.file, policy.keep + 1, h);
    assert D.Intact(D.Run(b, w, history, f));
  }

  /** An operation on child.log leaves a writer of agent.log where it is. */
  lemma ChildOpWriting(policy: Policy, a: Fs, b: Fs, w: Handle, history: seq<Record>)
    requires Writing(policy, a, w, history) && Confined(a, b, CHILD_LOG, None)
    ensures Writing(policy, b, w, history)
  {
    hide InFamily, Elsewhere, Gen;
    WritingFile(policy, a, w, history);
    LogsApart();
    ConfinedUntouches(a, b, CHILD_LOG, AGENT_LOG, None);
    UntouchedWriting(policy, a, b, w, history);
  }

  lemma WritingFile(policy: Policy, fs: Fs, w: Handle, history: seq<Record>)
    requires Writing(policy, fs, w, history)
    ensures D.Sound(fs, w)
  {
  }

  lemma ChildOpAgentKept(policy: Policy, a: Fs, b: Fs, history: seq<Record>)
    requires Kept(policy, a, AGENT_LOG, history) && Confined(a, b, CHILD_LOG, None)
    ensures Kept(policy, b, AGENT_LOG, history)
  {
    hide Confined;
    LogsApart();
    ConfinedUntouches(a, b, CHILD_LOG, AGENT_LOG, None);
    UntouchedKept(policy, a, b, AGENT_LOG, history);
  }

  lemma AgentOpChildKept(policy: Policy, a: Fs, b: Fs, extra: Option<FileId>, history: seq<Record>)
    requires Kept(policy, a, CHILD_LOG, history) && Confined(a, b, AGENT_LOG, extra)
    requires extra.Some? ==> !InFamily(a, CHILD_LOG, extra.value)
    ensures Kept(policy, b, CHILD_LOG, history)
  {
    hide Confined, InFamily;
    LogsApart();
    ConfinedUntouches(a, b, AGENT_LOG, CHILD_LOG, extra);
    UntouchedKept(policy, a, b, CHILD_LOG, history);
  }

  /** Only the name of the lock file has changed, and files may have been added. */
  ghost predicate LockFileOnly(a: Fs, b: Fs) {
    && Valid(b) && (forall n | n != LOCK_FILE :: Lookup(b, n) == Lookup(a, n))
    && forall id <- a.files :: id in b.files && b.files[id] == a.files[id]
  }

  lemma LockFileOnlyUntouches(a: Fs, b: Fs, log: string)
    requires Valid(a) && LockFileOnly(a, b) && Elsewhere(log, LOCK_FILE)
    ensures Untouched(a, b, log)
    ensures forall id: FileId :: InFamily(b, log, id) ==> InFamily(a, log, id)
  {
    hide GenName;
    forall j: nat ensures Gen(b, log, j) == Gen(a, log, j) && ContentOf(b, Gen(b, log, j)) == ContentOf(a, Gen(a, log, j)) {
    }
  }

  lemma LockFileOnlyKeepsLogs(policy: Policy, w: World, w': World)
    requires LogsKept(policy, w) && Valid(w.fs) && LockFileOnly(w.fs, w'.fs)
    requires w'.agentHistory == w.agentHistory && w'.childHistory == w.childHistory
    requires forall p <- w'.procs :: w'.procs[p].writer.Some? ==>
               p in w.procs && w'.procs[p].writer == w.procs[p].writer && w'.procs[p].agent == w.procs[p].agent
    ensures LogsKept(policy, w')
  {
    LogsApart();
    LockFileOnlyUntouches(w.fs, w'.fs, AGENT_LOG);
    LockFileOnlyUntouches(w.fs, w'.fs, CHILD_LOG);
    UntouchedKept(policy, w.fs, w'.fs, AGENT_LOG, w.agentHistory);
    UntouchedKept(policy, w.fs, w'.fs, CHILD_LOG, w.childHistory);
    hide Untouched, Elsewhere, InFamily, I.HasLog, Kept, Valid;
    forall p | p in w'.procs && w'.procs[p].writer.Some?
      ensures I.HasLog(w'.procs[p].agent) && Writing(policy, w'.fs, w'.procs[p].writer.value, w'.agentHistory) {
      UntouchedWriting(policy, w.fs, w'.fs, w.procs[p].writer.value, w.agentHistory);
    }
  }

  // ---------------------------------------------------------------- what does

  /** A new file under the live name. */
  ghost predicate NewLive(a: Fs, b: Fs, log: string, file: File) {
    && Valid(a) && log !in a.dir
    && b == a.(dir := a.dir[log := a.next], files := a.files[a.next := file], next := a.next + 1)
  }

  lemma NewLiveGen(a: Fs, b: Fs, log: string, file: File, j: nat)
    requires NewLive(a, b, log, file)
    ensures ContentOf(b, Gen(b, log, j)) == if j == 0 then file.content else ContentOf(a, Gen(a, log, j))
    ensures Gen(a, log, 0) == None
  {
    GenNamesDistinct(log);
    assert GenName(log, 0) == log;
    hide GenName;
  }

  lemma {:induction false} NewLiveChronicle(a: Fs, b: Fs, log: string, file: File, n: nat)
    requires NewLive(a, b, log, file) && n > 0
    ensures Chronicle(b, log, n) == Chronicle(a, log, n) + file.content
    decreases n
  {
    NewLiveGen(a, b, log, file, n - 1);
    assert n == 1 ==> ContentOf(a, Gen(a, log, 0)) == [];
    hide Gen, NewLive, ContentOf;
    var c, c' := ContentOf(a, Gen(a, log, n - 1)), ContentOf(b, Gen(b, log, n - 1));
    if n == 1 {
      NoOlder(a, log, c);
      NoOlder(b, log, c');
      NoMore(file.content);
      assert [] + file.content == file.content;
    } else {
      NewLiveChronicle(a, b, log, file, n - 1);
      Regroup(c, Chronicle(a, log, n - 1), file.content);
    }
  }

  lemma NoOlder(fs: Fs, log: string, c: seq<Record>)
    requires c == ContentOf(fs, Gen(fs, log, 0))
    ensures Chronicle(fs, log, 1) == c
  {
    assert Chronicle(fs, log, 0) == [] && c + [] == c;
  }

  lemma Regroup(a: seq<Record>, b: seq<Record>, c: seq<Record>)
    ensures a + (b + c) == a + b + c
  {
  }

  /** A child's line becomes the new end of its log, whatever is at the log's name but a directory. */
  lemma ChildAppendsToEnd(fs: Fs, log: string, records: seq<Record>, n: nat)
    requires Valid(fs) && n > 0
    ensures Chronicle(ChildAppends(fs, log, records), log, n)
         == Chronicle(fs, log, n) + if IsDirectory(fs, Lookup(fs, log)) then [] else records
  {
    assert Gen(fs, log, 0) == Lookup(fs, log);
    hide GenName;
    var fs' := ChildAppends(fs, log, records);
    if log !in fs.dir {
      NewLiveChronicle(fs, fs', log, File(Regular, fs.uid, UMASKED_MODE, records), n);
    } else if !IsDirectory(fs, Lookup(fs, log)) {
      var id := fs.dir[log];
      assert D.Newest(fs, log, id, n, 0);
      D.AppendedChronicle(fs, fs', log, id, records, n, 0, n);
    } else {
      assert Chronicle(fs, log, n) + [] == Chronicle(fs, log, n);
    }
  }

  lemma GrowsKept(policy: Policy, a: Fs, b: Fs, log: string, history: seq<Record>, more: seq<Record>)
    requires Kept(policy, a, log, history) && Chronicle(b, log, policy.keep + 1) == Chronicle(a, log, policy.keep + 1) + more
    ensures Kept(policy, b, log, history + more)
  {
    D.WholeIsSuffix(Chronicle(a, log, policy.keep + 1));
    D.SuffixGrows(Chronicle(a, log, policy.keep + 1), Chronicle(a, log, policy.keep + 1), history, more);
  }

  /** Preparing a cycle, whatever it comes to. */
  lemma CycleKept(policy: Policy, fs: Fs, history: seq<Record>)
    requires Valid(fs) && Kept(policy, fs, CHILD_LOG, history)
    ensures Kept(policy, RunCycle(fs, CHILD_LOG, policy, PREPARING).0, CHILD_LOG, history)
  {
    H.CycleKeepsSuffix(fs, CHILD_LOG, policy, PREPARING, history);
    assert history + [] == history;
    hide RunCycle, D.IsSuffix;
  }

  lemma SecureKept(policy: Policy, fs: Fs, history: seq<Record>)
    requires Valid(fs) && Kept(policy, fs, CHILD_LOG, history)
    ensures Kept(policy, SecureFile(fs, CHILD_LOG).0, CHILD_LOG, history)
  {
    SecureFileEffect(fs, CHILD_LOG);
    D.SecuredChronicle(fs, SecureFile(fs, CHILD_LOG).0, CHILD_LOG, policy.keep + 1);
  }

  /** Opening a writer. */
  lemma OpenKept(policy: Policy, fs: Fs, agentHistory: seq<Record>, childHistory: seq<Record>)
    requires Valid(fs) && Kept(policy, fs, AGENT_LOG, agentHistory) && Kept(policy, fs, CHILD_LOG, childHistory)
    ensures var (fs', w) := OpenHandle(fs, AGENT_LOG, policy);
            && Kept(policy, fs', AGENT_LOG, agentHistory) && Kept(policy, fs', CHILD_LOG, childHistory)
            && (w.Ok? ==> Writing(policy, fs', w.value, agentHistory))
  {
    OpenHandleConfined(fs, AGENT_LOG, policy);
    D.OpenIntact(fs, AGENT_LOG, policy);
    var (fs', w) := OpenHandle(fs, AGENT_LOG, policy);
    OpensLive(fs, policy);
    hide OpenHandle, Confined, D.IsSuffix, Chronicle, InFamily, D.Newest;
    AgentOpChildKept(policy, fs, fs', None, childHistory);
    if w.Ok? {
      LogsApart();
      NotInBoth(fs', CHILD_LOG, AGENT_LOG, w.value.file);
      assert D.Intact(D.Run(fs', w.value, agentHistory, 0));
    }
  }

  lemma OpensLive(fs: Fs, policy: Policy)
    requires Valid(fs)
    ensures var (fs', w) := OpenHandle(fs, AGENT_LOG, policy); Valid(fs') && (w.Ok? ==> InFamily(fs', AGENT_LOG, w.value.file))
  {
    D.OpenLockedOutcome(fs, AGENT_LOG);
    hide OpenLocked;
    var (fs', w) := OpenHandle(fs, AGENT_LOG, policy);
    assert w.Ok? ==> Gen(fs', AGENT_LOG, 0) == Some(w.value.file);
  }

  /** Writing a line. */
  lemma WriteKept(policy: Policy, fs: Fs, w: Handle, line: Record, agentHistory: seq<Record>, childHistory: seq<Record>)
    requires Writing(policy, fs, w, agentHistory) && Kept(policy, fs, CHILD_LOG, childHistory)
    ensures var (fs', w', _, _) := AfterWrite(fs, w, line);
            && Writing(policy, fs', w', agentHistory + Landed(Fate(Prepare(fs, w, line).0), line))
            && Kept(policy, fs', AGENT_LOG, agentHistory + Landed(Fate(Prepare(fs, w, line).0), line))
            && Kept(policy, fs', CHILD_LOG, childHistory)
  {
    WritingFile(policy, fs, w, agentHistory);
    var f: nat :| D.Intact(D.Run(fs, w, agentHistory, f));
    var run := D.Run(fs, w, agentHistory, f);
    D.WriteKeepsIntact(run, line);
    WriteConfined(fs, w, line);
    WriteStaysOnLog(fs, w, line);
    hide AfterWrite, Prepare, Landed, D.Intact, Confined, InFamily, Valid;
    AgentOpChildKept(policy, fs, AfterWrite(fs, w, line).0, Some(w.file), childHistory);
    NextIs(run, line);
    IntactKept(policy, D.Next(run, line));
  }

  lemma NextIs(run: D.Run, line: Record)
    ensures var next, (fs', w', _, _) := D.Next(run, line), AfterWrite(run.fs, run.w, line);
            && next.fs == fs' && next.w == w' && next.history == run.history + Landed(Fate(Prepare(run.fs, run.w, line).0), line)
            && w'.log == run.w.log && w'.policy == run.w.policy
  {
    hide AfterRotateNow, Append, Landed;
    RotateKeepsHandle(run.fs, run.w);
  }

  lemma RotateKeepsHandle(fs: Fs, w: Handle)
    ensures AfterRotateNow(fs, w).1.log == w.log && AfterRotateNow(fs, w).1.policy == w.policy
  {
    hide Rotate, OpenLocked;
  }

  lemma IntactKept(policy: Policy, run: D.Run)
    requires D.Intact(run) && run.w.log == AGENT_LOG && run.w.policy == policy
    ensures Kept(policy, run.fs, AGENT_LOG, run.history)
  {
  }

  lemma WriteStaysOnLog(fs: Fs, w: Handle, line: Record)
    requires D.Sound(fs, w) && w.log == AGENT_LOG && !InFamily(fs, CHILD_LOG, w.file)
    ensures var (fs', w', _, _) := AfterWrite(fs, w, line); !InFamily(fs', CHILD_LOG, w'.file)
  {
    PrepareConfined(fs, w, line);
    hide AfterRotateNow, Append, InFamily, Elsewhere, Prepare;
    var (fs1, w1, _) := Prepare(fs, w, line);
    LogsApart();
    SameFamily(fs, fs1, AGENT_LOG, CHILD_LOG, Some(w.file));
    if InFamily(fs1, AGENT_LOG, w1.file) {
      NotInBoth(fs1, CHILD_LOG, AGENT_LOG, w1.file);
    }
    AppendKeepsFamilies(fs1, w1.file, line);
  }

  lemma AppendKeepsFamilies(fs: Fs, file: FileId, line: Record)
    ensures forall log, id: FileId :: InFamily(Append(fs, file, line).0, log, id) ==> InFamily(fs, log, id)
  {
    hide GenName;
    var fs' := Append(fs, file, line).0;
    forall log, id: FileId | InFamily(fs', log, id) ensures InFamily(fs, log, id) {
      var j: nat :| Gen(fs', log, j) == Some(id);
      assert Gen(fs, log, j) == Some(id);
    }
  }

  lemma SameFamily(a: Fs, b: Fs, log: string, other: string, extra: Option<FileId>)
    requires Confined(a, b, log, extra) && Apart(log, other)
    ensures forall id: FileId :: InFamily(b, other, id) ==> InFamily(a, other, id)
  {
    hide GenName;
    forall id: FileId | InFamily(b, other, id) ensures InFamily(a, other, id) {
      var j: nat :| Gen(b, other, j) == Some(id);
      assert Elsewhere(log, GenName(other, j));
      assert Gen(a, other, j) == Some(id);
    }
  }

  // ---------------------------------------------------------------- one turn

  /** Both logs and the agent's own writer before its step. */
  ghost predicate Before(policy: Policy, fs: Fs, writer: Option<Handle>, agentHistory: seq<Record>, childHistory: seq<Record>) {
    && Valid(fs) && Kept(policy, fs, AGENT_LOG, agentHistory) && Kept(policy, fs, CHILD_LOG, childHistory)
    && (writer.Some? ==> Writing(policy, fs, writer.value, agentHistory))
  }

  /** What a step of an agent leaves of both logs and of its own writer. */
  ghost predicate Leaves(policy: Policy, fs: Fs, writer: Option<Handle>, a: I.Action, line: Record, agentHistory: seq<Record>, childHistory: seq<Record>) {
    var fs', w' := FsAfter(policy, fs, writer, a, line), WriterAfter(policy, fs, writer, a, line);
    var agentHistory', childHistory' := agentHistory + AgentAdds(fs, writer, a, line), childHistory + ChildAdds(fs, a, line);
    && Kept(policy, fs', AGENT_LOG, agentHistory') && Kept(policy, fs', CHILD_LOG, childHistory')
    && (w'.Some? && a != I.InitLog(false) ==> Writing(policy, fs', w'.value, agentHistory'))
  }

  lemma ChildOp(policy: Policy, a: Fs, b: Fs, writer: Option<Handle>, history: seq<Record>)
    requires Kept(policy, a, AGENT_LOG, history) && Confined(a, b, CHILD_LOG, None)
    requires writer.Some? ==> Writing(policy, a, writer.value, history)
    ensures Kept(policy, b, AGENT_LOG, history) && (writer.Some? ==> Writing(policy, b, writer.value, history))
  {
    hide Confined, Kept, Writing;
    ChildOpAgentKept(policy, a, b, history);
    if writer.Some? {
      ChildOpWriting(policy, a, b, writer.value, history);
    }
  }

  predicate TouchesLogs(a: I.Action) {
    a.InitLog? || a.Bootstrap? || a == I.WriteLine || a == I.SpawnChild || a == I.ChildWrites
  }

  lemma NoTouch(policy: Policy, fs: Fs, writer: Option<Handle>, a: I.Action, line: Record)
    requires !TouchesLogs(a)
    ensures FsAfter(policy, fs, writer, a, line) == fs && WriterAfter(policy, fs, writer, a, line) == writer
    ensures AgentAdds(fs, writer, a, line) == [] && ChildAdds(fs, a, line) == []
  {
  }

  /** The four parts of a step, and what they leave. */
  lemma LeavesBy(policy: Policy, fs: Fs, writer: Option<Handle>, a: I.Action, line: Record, agentHistory: seq<Record>, childHistory: seq<Record>,
                 fs': Fs, w': Option<Handle>, agentMore: seq<Record>, childMore: seq<Record>)
    requires FsAfter(policy, fs, writer, a, line) == fs' && WriterAfter(policy, fs, writer, a, line) == w'
    requires AgentAdds(fs, writer, a, line) == agentMore && ChildAdds(fs, a, line) == childMore
    requires Kept(policy, fs', AGENT_LOG, agentHistory + agentMore) && Kept(policy, fs', CHILD_LOG, childHistory + childMore)
    requires w'.Some? && a != I.InitLog(false) ==> Writing(policy, fs', w'.value, agentHistory + agentMore)
    ensures Leaves(policy, fs, writer, a, line, agentHistory, childHistory)
  {
    hide FsAfter, WriterAfter, AgentAdds, ChildAdds, Kept, Writing;
  }

  lemma NoMore(s: seq<Record>)
    ensures s + [] == s
  {
  }

  lemma OwnOpens(policy: Policy, fs: Fs, writer: Option<Handle>, ok: bool, line: Record, agentHistory: seq<Record>, childHistory: seq<Record>)
    requires Before(policy, fs, writer, agentHistory, childHistory)
    ensures Leaves(policy, fs, writer, I.InitLog(ok), line, agentHistory, childHistory)
  {
    hide OpenHandle, Kept, Valid, Writing, Leaves;
    OpenKept(policy, fs, agentHistory, childHistory);
    NoMore(agentHistory);
    NoMore(childHistory);
    var a := I.InitLog(ok);
    var fs', w' := FsAfter(policy, fs, writer, a, line), WriterAfter(policy, fs, writer, a, line);
    LeavesBy(policy, fs, writer, a, line, agentHistory, childHistory, fs', w', [], []);
  }

  lemma OwnSecures(policy: Policy, fs: Fs, writer: Option<Handle>, ok: bool, line: Record, agentHistory: seq<Record>, childHistory: seq<Record>)
    requires Before(policy, fs, writer, agentHistory, childHistory)
    ensures Leaves(policy, fs, writer, I.Bootstrap(ok), line, agentHistory, childHistory)
  {
    hide SecureFile, Kept, Valid, Writing, Confined, Leaves;
    var fs' := SecureFile(fs, CHILD_LOG).0;
    SecureConfined(fs, CHILD_LOG);
    SecureKept(policy, fs, childHistory);
    ChildOp(policy, fs, fs', writer, agentHistory);
    NoMore(agentHistory);
    NoMore(childHistory);
    LeavesBy(policy, fs, writer, I.Bootstrap(ok), line, agentHistory, childHistory, fs', writer, [], []);
  }

  lemma OwnWrites(policy: Policy, fs: Fs, writer: Option<Handle>, line: Record, agentHistory: seq<Record>, childHistory: seq<Record>)
    requires Before(policy, fs, writer, agentHistory, childHistory)
    ensures Leaves(policy, fs, writer, I.WriteLine, line, agentHistory, childHistory)
  {
    hide AfterWrite, Prepare, Landed, Kept, Valid, Writing, Leaves;
    NoMore(agentHistory);
    NoMore(childHistory);
    if writer.Some? {
      WriteKept(policy, fs, writer.value, line, agentHistory, childHistory);
      var (fs', w', _, _) := AfterWrite(fs, writer.value, line);
      var more := Landed(Fate(Prepare(fs, writer.value, line).0), line);
      LeavesBy(policy, fs, writer, I.WriteLine, line, agentHistory, childHistory, fs', Some(w'), more, []);
    } else {
      LeavesBy(policy, fs, writer, I.WriteLine, line, agentHistory, childHistory, fs, None, [], []);
    }
  }

  lemma OwnSpawns(policy: Policy, fs: Fs, writer: Option<Handle>, line: Record, agentHistory: seq<Record>, childHistory: seq<Record>)
    requires Before(policy, fs, writer, agentHistory, childHistory)
    ensures Leaves(policy, fs, writer, I.SpawnChild, line, agentHistory, childHistory)
  {
    hide RunCycle, Kept, Valid, Writing, Confined, Leaves;
    var fs' := RunCycle(fs, CHILD_LOG, policy, PREPARING).0;
    CycleConfined(fs, CHILD_LOG, policy, PREPARING);
    CycleKept(policy, fs, childHistory);
    ChildOp(policy, fs, fs', writer, agentHistory);
    NoMore(agentHistory);
    NoMore(childHistory);
    LeavesBy(policy, fs, writer, I.SpawnChild, line, agentHistory, childHistory, fs', writer, [], []);
  }

  lemma OwnChildWrites(policy: Policy, fs: Fs, writer: Option<Handle>, line: Record, agentHistory: seq<Record>, childHistory: seq<Record>)
    requires Before(policy, fs, writer, agentHistory, childHistory)
    ensures Leaves(policy, fs, writer, I.ChildWrites, line, agentHistory, childHistory)
  {
    hide ChildAppends, Kept, Valid, Writing, Confined, IsDirectory, Leaves, Chronicle;
    var fs' := ChildAppends(fs, CHILD_LOG, [line]);
    var more := if IsDirectory(fs, Lookup(fs, CHILD_LOG)) then [] else [line];
    ChildAppendsConfined(fs, CHILD_LOG, [line]);
    ChildAppendsToEnd(fs, CHILD_LOG, [line], policy.keep + 1);
    GrowsKept(policy, fs, fs', CHILD_LOG, childHistory, more);
    ChildOp(policy, fs, fs', writer, agentHistory);
    NoMore(agentHistory);
    LeavesBy(policy, fs, writer, I.ChildWrites, line, agentHistory, childHistory, fs', writer, [], more);
  }

  lemma OwnNothing(policy: Policy, fs: Fs, writer: Option<Handle>, a: I.Action, line: Record, agentHistory: seq<Record>, childHistory: seq<Record>)
    requires Before(policy, fs, writer, agentHistory, childHistory) && !TouchesLogs(a)
    ensures Leaves(policy, fs, writer, a, line, agentHistory, childHistory)
  {
    hide FsAfter, WriterAfter, AgentAdds, ChildAdds, Kept, Valid, Writing, Leaves;
    NoTouch(policy, fs, writer, a, line);
    NoMore(agentHistory);
    NoMore(childHistory);
    LeavesBy(policy, fs, writer, a, line, agentHistory, childHistory, fs, writer, [], []);
  }

  lemma OwnFs(policy: Policy, fs: Fs, writer: Option<Handle>, a: I.Action, line: Record, agentHistory: seq<Record>, childHistory: seq<Record>)
    requires Before(policy, fs, writer, agentHistory, childHistory)
    ensures Leaves(policy, fs, writer, a, line, agentHistory, childHistory)
  {
    hide Before, Leaves;
    match a {
      case InitLog(ok) => OwnOpens(policy, fs, writer, ok, line, agentHistory, childHistory);
      case Bootstrap(ok) => OwnSecures(policy, fs, writer, ok, line, agentHistory, childHistory);
      case WriteLine => OwnWrites(policy, fs, writer, line, agentHistory, childHistory);
      case SpawnChild => OwnSpawns(policy, fs, writer, line, agentHistory, childHistory);
      case ChildWrites => OwnChildWrites(policy, fs, writer, line, agentHistory, childHistory);
      case _ => OwnNothing(policy, fs, writer, a, line, agentHistory, childHistory);
    }
  }

  /** Only the agent that holds the lock touches the logs, and it is the only one with a writer. */
  lemma OnlyWriter(w: World, p: I.Pid, q: I.Pid, a: I.Action)
    requires AtMostOne(w) && p in w.procs && I.Ready(w.procs[p].agent, a) && TouchesLogs(a)
    requires q in w.procs && I.HasLog(w.procs[q].agent)
    ensures q == p
  {
  }

  lemma OwnBefore(policy: Policy, w: World, p: I.Pid)
    requires Sane(w) && LogsKept(policy, w)
    ensures Before(policy, w.fs, ProcOf(w, p).writer, w.agentHistory, w.childHistory)
  {
    hide Kept, Writing, Valid, LocksAgree;
  }

  lemma OwnLogs(policy: Policy, w: World, p: I.Pid, a: I.Action, line: Record)
    requires Sane(w) && Named(w) && LogsKept(policy, w)
    requires if a == I.Launch then p !in w.procs else p in w.procs && I.Ready(w.procs[p].agent, a)
    ensures LogsKept(policy, DoOwn(policy, w, p, a, line))
  {
    var proc, w', next := ProcOf(w, p), DoOwn(policy, w, p, a, line), NextProc(policy, w, p, a, line);
    NamedMeansAtMostOne(w);
    OwnOnlyMoves(policy, w, p, a, line);
    OwnHistories(policy, w, p, a, line);
    OwnBefore(policy, w, p);
    OwnFs(policy, w.fs, proc.writer, a, line, w.agentHistory, w.childHistory);
    NextWriter(policy, w, p, a, line);
    hide DoOwn, FsAfter, WriterAfter, AgentAdds, ChildAdds, NextProc, ProcOf, Kept, Writing, Named, Sane, AtMostOne, I.HasLog, I.Ready, TouchesLogs, Before;
    forall q | q in w'.procs && w'.procs[q].writer.Some?
      ensures I.HasLog(w'.procs[q].agent) && Writing(policy, w'.fs, w'.procs[q].writer.value, w'.agentHistory) {
      if q != p {
        OthersKeepWriting(policy, w, p, q, a, line, w');
      }
    }
  }

  /** Another agent's writer: there is none unless the step leaves the logs alone. */
  lemma OthersKeepWriting(policy: Policy, w: World, p: I.Pid, q: I.Pid, a: I.Action, line: Record, w': World)
    requires AtMostOne(w) && LogsKept(policy, w) && q in w.procs && q != p && w.procs[q].writer.Some?
    requires if a == I.Launch then p !in w.procs else p in w.procs && I.Ready(w.procs[p].agent, a)
    requires w'.fs == FsAfter(policy, w.fs, ProcOf(w, p).writer, a, line)
    requires w'.agentHistory == w.agentHistory + AgentAdds(w.fs, ProcOf(w, p).writer, a, line)
    ensures I.HasLog(w.procs[q].agent) && Writing(policy, w'.fs, w.procs[q].writer.value, w'.agentHistory)
  {
    if TouchesLogs(a) {
      LaunchTouchesNothing(a);
      OnlyWriter(w, p, q, a);
    } else {
      NoTouch(policy, w.fs, ProcOf(w, p).writer, a, line);
      assert w.agentHistory + [] == w.agentHistory;
    }
    hide FsAfter, AgentAdds, Writing, Kept, ProcOf, I.HasLog, AtMostOne, I.Ready;
  }

  lemma LaunchTouchesNothing(a: I.Action)
    requires TouchesLogs(a)
    ensures a != I.Launch
  {
  }

  lemma OwnHistories(policy: Policy, w: World, p: I.Pid, a: I.Action, line: Record)
    ensures var w', proc := DoOwn(policy, w, p, a, line), ProcOf(w, p);
            && w'.agentHistory == w.agentHistory + AgentAdds(w.fs, proc.writer, a, line)
            && w'.childHistory == w.childHistory + ChildAdds(w.fs, a, line)
  {
    hide FsAfter, WriterAfter, I.EffectOf, I.HasLog, Lock, AgentAdds, ChildAdds;
  }

  /** An agent that has a writer after its step has the log, and the writer its step leaves it. */
  lemma NextWriter(policy: Policy, w: World, p: I.Pid, a: I.Action, line: Record)
    requires if a == I.Launch then p !in w.procs else p in w.procs && I.Ready(w.procs[p].agent, a)
    ensures var next, proc := NextProc(policy, w, p, a, line), ProcOf(w, p);
            next.writer.Some? ==> I.HasLog(next.agent) && next.writer == WriterAfter(policy, w.fs, proc.writer, a, line) && a != I.InitLog(false)
  {
    hide WriterAfter;
  }

  lemma OpenTurnLogs(policy: Policy, w: World, p: I.Pid)
    requires Sane(w) && Named(w) && LogsKept(policy, w) && Enabled(policy, w, OpenLock(p))
    ensures LogsKept(policy, Do(policy, w, OpenLock(p)))
  {
    OpensLockFileOnly(w.fs);
    hide DoOwn, LogsKept, OpenAppend, Sane, Named, LockFileOnly, Possible;
    var w' := Do(policy, w, OpenLock(p));
    var (fs', r) := OpenAppend(w.fs, LOCK_FILE, true);
    SaneIsValid(w);
    if r.Err? {
      var w1 := w.(fs := fs');
      LockFileOnlyKeepsLogs(policy, w, w1);
      FailedOpen(w, w1);
      OwnLogs(policy, w1, p, I.TryLock(true), []);
    } else {
      LockFileOnlyKeepsLogs(policy, w, w');
    }
  }

  lemma IdleTurnLogs(policy: Policy, w: World, p: I.Pid)
    requires Sane(w) && LogsKept(policy, w)
    ensures LogsKept(policy, Do(policy, w, IdleCycle(p)))
  {
    hide RunCycle, Kept, Writing, Valid, Confined;
    var fs' := RunCycle(w.fs, CHILD_LOG, policy, PREPARING).0;
    CycleConfined(w.fs, CHILD_LOG, policy, PREPARING);
    CycleKept(policy, w.fs, w.childHistory);
    ChildOpAgentKept(policy, w.fs, fs', w.agentHistory);
    forall p | p in w.procs && w.procs[p].writer.Some? ensures Writing(policy, fs', w.procs[p].writer.value, w.agentHistory) {
      ChildOpWriting(policy, w.fs, fs', w.procs[p].writer.value, w.agentHistory);
    }
  }

  lemma UnlinkTurnLogs(policy: Policy, w: World)
    requires Sane(w) && LogsKept(policy, w)
    ensures LogsKept(policy, Do(policy, w, Unlink))
  {
    hide LogsKept;
    UnlinkKeeps(w.fs);
    LockFileOnlyKeepsLogs(policy, w, Do(policy, w, Unlink));
  }

  lemma TurnLogs(policy: Policy, w: World, turn: Turn)
    requires Sane(w) && Named(w) && LogsKept(policy, w) && Enabled(policy, w, turn)
    ensures LogsKept(policy, Do(policy, w, turn))
  {
    hide DoOwn, LogsKept, Sane, Named, Possible;
    match turn {
      case OpenLock(p) => OpenTurnLogs(policy, w, p);
      case Own(p, a, line) => OwnLogs(policy, w, p, a, line);
      case IdleCycle(p) => IdleTurnLogs(policy, w, p);
      case Unlink => UnlinkTurnLogs(policy, w);
    }
  }

  lemma SaneIsValid(w: World)
    requires Sane(w)
    ensures Valid(w.fs)
  {
  }

  lemma OpensLockFileOnly(fs: Fs)
    requires Valid(fs)
    ensures LockFileOnly(fs, OpenAppend(fs, LOCK_FILE, true).0)
  {
    OpenEffect(fs, LOCK_FILE);
  }

  lemma FailedOpen(w: World, w1: World)
    requires Sane(w) && Named(w) && w1 == w.(fs := OpenAppend(w.fs, LOCK_FILE, true).0) && OpenAppend(w.fs, LOCK_FILE, true).1.Err?
    ensures Sane(w1) && Named(w1)
  {
    OpenLockFile(w.fs);
    hide OpenAppend, LocksAgree, Valid;
  }

  // ---------------------------------------------------------------- whole runs

  lemma {:induction false} LogsStayKept(policy: Policy, w: World, turns: seq<Turn>)
    requires Sane(w) && Named(w) && LogsKept(policy, w) && Run(policy, w, turns) && Guarded(policy, w, turns)
    ensures LogsKept(policy, After(policy, w, turns))
    decreases |turns|
  {
    hide Do, Enabled, Sane, Named, LogsKept;
    if turns != [] {
      TurnLogs(policy, w, turns[0]);
      StepSane(policy, w, turns[0]);
      if turns[0] == Unlink {
        UnlinkNamed(policy, w);
      }
      LogsStayKept(policy, Do(policy, w, turns[0]), turns[1..]);
    }
  }

  /** Over all runs of any number of agents on one directory, with every pattern of failures, crashes
      and restarts, in which the lock file is not deleted while an agent has it open: both logs, each
      read from generation `keep` down to the live file, are at every moment a suffix of what the log
      held at first followed by everything any agent or child has ever got into it, in order. */
  lemma BothLogsAreSuffixesOfHistory(fs: Fs, policy: Policy, turns: seq<Turn>)
    requires Valid(fs) && Run(policy, Start(fs, policy), turns) && Guarded(policy, Start(fs, policy), turns)
    ensures var end := After(policy, Start(fs, policy), turns);
            && D.IsSuffix(Chronicle(end.fs, AGENT_LOG, policy.keep + 1), end.agentHistory)
            && D.IsSuffix(Chronicle(end.fs, CHILD_LOG, policy.keep + 1), end.childHistory)
  {
    StartsSane(fs, policy);
    D.WholeIsSuffix(Chronicle(fs, AGENT_LOG, policy.keep + 1));
    D.WholeIsSuffix(Chronicle(fs, CHILD_LOG, policy.keep + 1));
    hide D.IsSuffix, Chronicle, Sane, Named, Run, After, Guarded;
    LogsStayKept(policy, Start(fs, policy), turns);
  }
}
