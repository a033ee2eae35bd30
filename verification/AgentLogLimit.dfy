/** The bound on agent.log is attained, and when the documented one holds in spite of failures
    (agent-rust/src/rotation.rs). */
module AgentLogLimit {
  import opened Basics
  import opened FileSystem
  import opened Names
  import opened Rotation
  import opened Writer
  import opened Durability
  import opened Accounting
  import opened Chunking
  import opened LogSizes
  import opened LateFailures
  import opened AgentLogSize

  // ---------------------------------------------------------------- one write, whatever comes after it

  function WithFaults(run: Run, faults: seq<Fault>): Run {
    run.(fs := run.fs.(faults := faults))
  }

  /** A write during which nothing fails. */
  function WorkingScript(run: Run, buf: Record): seq<Fault> {
    Fines(PrepareOps(run.fs.(faults := []), run.w, buf) + 1)
  }

  function Working(run: Run, buf: Record): Run {
    Next(WithFaults(run, []), buf)
  }

  /** What a write makes of a run, by its parts. */
  lemma NextParts(run: Run, buf: Record, fs': Fs, w': Handle, attempt: Attempt, r: Status, fate: Fault)
    requires AfterWrite(run.fs, run.w, buf) == (fs', w', attempt, r) && Fate(Prepare(run.fs, run.w, buf).0) == fate
    ensures AttemptOf(run, buf) == attempt
    ensures Next(run, buf) == Run(fs', w', run.history + Landed(fate, buf),
                                  match attempt case Done => 0 case Failed => run.failed + 1 case NotDue => run.failed)
  {
    AttemptIs(run, buf);
    hide Prepare, AfterWrite, Landed;
  }

  lemma WorksAhead(run: Run, buf: Record, rest: seq<Fault>)
    ensures var start := WithFaults(run, WorkingScript(run, buf) + rest);
            && Next(start, buf) == WithFaults(Working(run, buf), rest)
            && AttemptOf(start, buf) == AttemptOf(WithFaults(run, []), buf)
  {
    hide Prepare, PrepareOps, Append, Fines, AfterWrite, Landed, Next, AttemptOf;
    var fs := run.fs.(faults := []);
    var start := WithFaults(run, WorkingScript(run, buf) + rest);
    WriteWorks(fs, run.w, buf, rest);
    assert start.fs == Ahead(fs, PrepareOps(fs, run.w, buf) + 1, rest);
    hide Ahead, WorkingScript;
    var (fs', w', attempt, r) := AfterWrite(fs, run.w, buf);
    NextParts(start, buf, fs'.(faults := rest), w', attempt, r, Fine);
    NextParts(WithFaults(run, []), buf, fs', w', attempt, r, Fine);
  }

  lemma WriteWorks(fs: Fs, w: Handle, buf: Record, rest: seq<Fault>)
    requires fs.faults == []
    ensures var (fs', w', attempt, r), start := AfterWrite(fs, w, buf), Ahead(fs, PrepareOps(fs, w, buf) + 1, rest);
            && AfterWrite(start, w, buf) == (fs'.(faults := rest), w', attempt, r)
            && Fate(Prepare(start, w, buf).0) == Fate(Prepare(fs, w, buf).0) == Fine
  {
    hide Prepare, PrepareOps, Append, Fines, AfterWrite;
    WriteAhead(fs, w, buf, rest);
    PrepareAhead(fs, w, buf, 1, rest);
    AheadOne(Prepare(fs, w, buf).0, 1, rest);
  }

  lemma AttemptIs(run: Run, buf: Record)
    ensures AfterWrite(run.fs, run.w, buf).2 == AttemptOf(run, buf)
  {
    hide Prepare, Append;
  }

  /** A write whose rotation fails at once and whose append works. */
  const FAILING: seq<Fault> := [Fail(0), Fine]

  function Failing(run: Run, buf: Record): Run {
    Next(WithFaults(run, [Fail(0)]), buf)
  }

  lemma FirstFails(fs: Fs, w: Handle, buf: Record, rest: seq<Fault>)
    requires Due(w, buf) && fs.faults == [Fail(0)] + rest
    ensures Prepare(fs, w, buf) == (fs.(faults := rest), w, Failed)
  {
    assert fs.faults[1..] == rest;
  }

  lemma FailsAhead(run: Run, buf: Record, rest: seq<Fault>)
    requires Due(run.w, buf)
    ensures var start := WithFaults(run, FAILING + rest);
            && Next(start, buf) == WithFaults(Failing(run, buf), rest) && AttemptOf(start, buf) == Failed
  {
    assert FAILING + rest == [Fail(0)] + ([Fine] + rest) && ([Fine] + rest)[1..] == rest;
    assert [Fail(0)] + [] == [Fail(0)];
    FirstFails(run.fs.(faults := FAILING + rest), run.w, buf, [Fine] + rest);
    FirstFails(run.fs.(faults := [Fail(0)]), run.w, buf, []);
    hide Prepare;
  }

  // ---------------------------------------------------------------- how far the log is filled

  /** The writer is on the live file, and the files are filled like that. */
  ghost predicate Stands(fs: Fs, w: Handle, full: nat, k: nat, s: nat) {
    && Sound(fs, w) && Gen(fs, w.log, 0) == Some(w.file) && w.size == s
    && Filled(fs, w.log, w.policy, full, k, s)
    && forall i: nat | i <= w.policy.keep :: !IsDirectory(fs, Gen(fs, w.log, i))
  }

  /** A file of the log after an append to the live one. */
  lemma AppendFills(fs: Fs, w: Handle, full: nat, k: nat, s: nat, buf: Record, i: nat)
    requires Stands(fs, w, full, k, s) && Fate(fs).Fine? && i <= w.policy.keep
    ensures var fs' := Append(fs, w.file, buf).0;
            && SizeOf(fs', w.log, i) == (if i == 0 then s + |buf| else if i <= k then full else 0)
            && !IsDirectory(fs', Gen(fs', w.log, i))
  {
    GenNamesDistinct(w.log);
    LiveSize(fs, w.log, w.file);
    LengthSnoc(Content(fs, w.file), buf);
    AppendSizes(fs, w.file, buf, w.log, i);
    hide GenName, SizeOf, Length;
    assert Gen(Append(fs, w.file, buf).0, w.log, i) == Gen(fs, w.log, i);
    assert !IsDirectory(fs, Gen(fs, w.log, i));
  }

  lemma AppendStands(fs: Fs, w: Handle, full: nat, k: nat, s: nat, buf: Record)
    requires Stands(fs, w, full, k, s) && Fate(fs).Fine?
    ensures var (fs', r) := Append(fs, w.file, buf);
            r.Ok? && Stands(fs', w.(size := w.size + |buf|), full, k, s + |buf|)
  {
    hide SizeOf, IsDirectory, GenName;
    var fs' := Append(fs, w.file, buf).0;
    assert Gen(fs', w.log, 0) == Gen(fs, w.log, 0);
    forall i: nat | i <= w.policy.keep
      ensures SizeOf(fs', w.log, i) == (if i == 0 then s + |buf| else if i <= k then full else 0)
      ensures !IsDirectory(fs', Gen(fs', w.log, i)) {
      AppendFills(fs, w, full, k, s, buf, i);
    }
  }

  /** A file of the log after a rotation that has succeeded. */
  lemma TurnFills(fs: Fs, w: Handle, full: nat, k: nat, fs': Fs, w': Handle, i: nat)
    requires Stands(fs, w, full, k, full) && OnFreshFile(fs', w') && w'.log == w.log && i <= w.policy.keep
    requires i > 0 ==> Gen(fs', w.log, i) == SlidGen(fs, w.log, w.policy.keep, 0, i)
    requires (forall id <- fs.files :: id in fs'.files && fs'.files[id] == fs.files[id])
    ensures SizeOf(fs', w.log, i) == (if i == 0 then 0 else if i <= k + 1 then full else 0)
    ensures !IsDirectory(fs', Gen(fs', w.log, i))
  {
    LiveSize(fs', w.log, w'.file);
    LengthOfNothing();
    hide Length, GenName;
    if i > 0 {
      assert !IsDirectory(fs, Gen(fs, w.log, i - 1));
      assert SizeOf(fs, w.log, i - 1) == if i - 1 <= k then full else 0;
      SameContent(fs, fs', Gen(fs, w.log, i - 1));
    }
  }

  lemma TurnStands(fs: Fs, w: Handle, full: nat, k: nat, buf: Record)
    requires Stands(fs, w, full, k, full) && fs.faults == [] && Due(w, buf)
    ensures var (fs', w', attempt) := Prepare(fs, w, buf);
            && attempt == Done && Stands(fs', w', full, k + 1, 0) && fs'.faults == [] && w' == w.(file := w'.file, size := 0)
  {
    assert !IsDirectory(fs, Gen(fs, w.log, w.policy.keep));
    FaultFreeRotationSucceeds(fs, w, buf);
    var (fs', w', _) := Prepare(fs, w, buf);
    DoneSlides(fs, w, buf, fs', w');
    hide Prepare, Due, GenName, SizeOf, IsDirectory, SlidGen;
    forall i: nat | i <= w.policy.keep
      ensures SizeOf(fs', w.log, i) == (if i == 0 then 0 else if i <= k + 1 then full else 0)
      ensures !IsDirectory(fs', Gen(fs', w.log, i)) {
      TurnFills(fs, w, full, k, fs', w', i);
    }
  }

  lemma SameContent(fs: Fs, fs': Fs, id: Option<FileId>)
    requires forall i <- fs.files :: i in fs'.files && fs'.files[i] == fs.files[i]
    requires id.Some? ==> id.value in fs.files
    ensures ContentOf(fs', id) == ContentOf(fs, id) && IsDirectory(fs', id) == IsDirectory(fs, id)
  {
  }

  lemma StandsAnyFaults(fs: Fs, w: Handle, full: nat, k: nat, s: nat, faults: seq<Fault>)
    requires Stands(fs, w, full, k, s)
    ensures Stands(fs.(faults := faults), w, full, k, s)
  {
    hide GenName;
    var fs' := fs.(faults := faults);
    forall i: nat | i <= w.policy.keep
      ensures SizeOf(fs', w.log, i) == (if i == 0 then s else if i <= k then full else 0)
      ensures !IsDirectory(fs', Gen(fs', w.log, i)) {
      SameSizes(fs, fs', w.log, i);
      assert !IsDirectory(fs, Gen(fs, w.log, i));
    }
  }

  /** One more line, by whether it fits, turns the log or fails to. */
  lemma WorkingStands(run: Run, full: nat, k: nat, s: nat, buf: Record)
    requires Stands(run.fs, run.w, full, k, s) && (Due(run.w, buf) ==> s == full)
    ensures var next, due := Working(run, buf), Due(run.w, buf);
            && Stands(next.fs, next.w, full, if due then k + 1 else k, if due then |buf| else s + |buf|)
            && next.w.log == run.w.log && next.w.policy == run.w.policy
            && AttemptOf(WithFaults(run, []), buf) == (if due then Done else NotDue)
  {
    hide Stands, AfterRotateNow, Append;
    StandsAnyFaults(run.fs, run.w, full, k, s, []);
    var fs := run.fs.(faults := []);
    if Due(run.w, buf) {
      TurnStands(fs, run.w, full, k, buf);
      var (fs1, w1, _) := Prepare(fs, run.w, buf);
      AppendStands(fs1, w1, full, k + 1, 0, buf);
    } else {
      AppendStands(fs, run.w, full, k, s, buf);
    }
  }

  lemma FailingStands(run: Run, full: nat, k: nat, s: nat, buf: Record)
    requires Stands(run.fs, run.w, full, k, s) && Due(run.w, buf)
    ensures var next := Failing(run, buf);
            Stands(next.fs, next.w, full, k, s + |buf|) && next.w.log == run.w.log && next.w.policy == run.w.policy
  {
    assert [Fail(0)] + [] == [Fail(0)];
    FirstFails(run.fs.(faults := [Fail(0)]), run.w, buf, []);
    hide Stands, Prepare, Append;
    StandsAnyFaults(run.fs, run.w, full, k, s, []);
    AppendStands(run.fs.(faults := []), run.w, full, k, s, buf);
  }

  // ---------------------------------------------------------------- filling every file

  /** The live file still lacks `m` bytes to its base, or has `j` lines on top of it. */
  function At(policy: Policy, longest: nat, m: nat, j: nat): nat
    requires m <= Base(policy, longest)
  {
    Base(policy, longest) - m + j * longest
  }

  lemma AtSteps(policy: Policy, longest: nat, m: nat, j: nat)
    requires m <= Base(policy, longest)
    ensures m > 0 ==> At(policy, longest, m, 0) + 1 == At(policy, longest, m - 1, 0)
    ensures At(policy, longest, Base(policy, longest), 0) == 0
    ensures At(policy, longest, 0, j + 1) == At(policy, longest, 0, j) + longest
    ensures At(policy, longest, 0, j) >= Base(policy, longest) && At(policy, longest, m, 0) == Base(policy, longest) - m
    ensures At(policy, longest, 0, j) == Cap(policy, longest, j)
  {
    assert (j + 1) * longest == j * longest + longest && j * longest >= 0;
  }

  /** From `run`, `script` and `bufs` end with every file at the cap, and stay within the streaks. */
  ghost predicate Fills(run: Run, longest: nat, f: nat, streak: nat, script: seq<Fault>, bufs: seq<Record>) {
    var start := WithFaults(run, script);
    var end := Writes(start, bufs);
    && AllOrNothing(script) && NoneLonger(bufs, longest) && NeverMoreInARow(streak, Attempts(start, bufs), f)
    && end.w.log == run.w.log && end.w.policy == run.w.policy
    && forall i: nat | i <= run.w.policy.keep :: SizeOf(end.fs, run.w.log, i) == Cap(run.w.policy, longest, f)
  }

  /** One write in front. */
  lemma FillsFront(run: Run, longest: nat, f: nat, streak: nat, first: seq<Fault>, buf: Record, next: Run, attempt: Attempt,
                   script: seq<Fault>, bufs: seq<Record>)
    requires Fills(next, longest, f, NextStreak(streak, attempt), script, bufs) && streak <= f
    requires Next(WithFaults(run, first + script), buf) == WithFaults(next, script)
    requires AttemptOf(WithFaults(run, first + script), buf) == attempt
    requires AllOrNothing(first) && |buf| <= longest && next.w.log == run.w.log && next.w.policy == run.w.policy
    ensures Fills(run, longest, f, streak, first + script, [buf] + bufs)
  {
    var all := [buf] + bufs;
    assert all[0] == buf && all[1..] == bufs;
    var start := WithFaults(run, first + script);
    hide Next, AttemptOf, SizeOf, Cap;
    var attempts := Attempts(start, all);
    assert attempts == [attempt] + Attempts(WithFaults(next, script), bufs);
    assert attempts[0] == attempt && attempts[1..] == Attempts(WithFaults(next, script), bufs);
    assert Writes(start, all) == Writes(WithFaults(next, script), bufs);
  }

  lemma {:induction false} FinesWhole(k: nat)
    ensures AllOrNothing(Fines(k))
  {
    if k > 0 {
      FinesWhole(k - 1);
    }
  }

  /** The line that comes next: one that fills the live file up, one whose rotation fails, or one that
      turns the log. */
  function NextLine(policy: Policy, longest: nat, m: nat, j: nat, f: nat): Record {
    if (m == 0 && j < f) || longest > policy.maxBytes then Bytes(longest) else Bytes(1)
  }

  /** The place is one that the filling comes through. */
  predicate OnTheWay(policy: Policy, longest: nat, f: nat, k: nat, m: nat, j: nat) {
    && longest >= 1 && k <= policy.keep && m <= Base(policy, longest) && j <= f && (m > 0 ==> j == 0)
    && (longest > policy.maxBytes ==> m == 0 || m == Base(policy, longest))
  }

  /** Where the next line leads. */
  lemma Course(w: Handle, longest: nat, f: nat, k: nat, m: nat, j: nat)
    requires OnTheWay(w.policy, longest, f, k, m, j) && w.size == At(w.policy, longest, m, j)
    ensures var policy, buf := w.policy, NextLine(w.policy, longest, m, j, f);
            var base := Base(policy, longest);
            && |buf| <= longest
            && (m == 0 && j < f ==>
                  Due(w, buf) && OnTheWay(policy, longest, f, k, 0, j + 1) && At(policy, longest, 0, j + 1) == w.size + |buf|)
            && (m == 0 && j == f ==>
                  Due(w, buf) && w.size == Cap(policy, longest, f) && |buf| <= base
                  && (k < policy.keep ==> OnTheWay(policy, longest, f, k + 1, base - |buf|, 0))
                  && At(policy, longest, base - |buf|, 0) == |buf|)
            && (m > 0 ==>
                  !Due(w, buf) && |buf| <= m && OnTheWay(policy, longest, f, k, m - |buf|, 0)
                  && At(policy, longest, m - |buf|, 0) == w.size + |buf|)
  {
    AtSteps(w.policy, longest, m, j);
    AtSteps(w.policy, longest, 0, 0);
    var buf := NextLine(w.policy, longest, m, j, f);
    if m > 0 {
      AtSteps(w.policy, longest, m - |buf|, 0);
    } else if j == f {
      AtSteps(w.policy, longest, Base(w.policy, longest) - |buf|, 0);
    }
    hide At, Cap;
  }

  lemma OnTheWayIs(policy: Policy, longest: nat, f: nat, k: nat, m: nat, j: nat)
    requires OnTheWay(policy, longest, f, k, m, j)
    ensures k <= policy.keep && m <= Base(policy, longest) && j <= f && (m > 0 ==> j == 0)
  {
  }

  lemma {:induction false} Fill(run: Run, longest: nat, f: nat, k: nat, m: nat, j: nat) returns (script: seq<Fault>, bufs: seq<Record>)
    requires OnTheWay(run.w.policy, longest, f, k, m, j)
    requires Stands(run.fs, run.w, Cap(run.w.policy, longest, f), k, At(run.w.policy, longest, m, j))
    ensures Fills(run, longest, f, j, script, bufs)
    decreases run.w.policy.keep - k, m, f - j
  {
    var policy, full, s := run.w.policy, Cap(run.w.policy, longest, f), At(run.w.policy, longest, m, j);
    var buf := NextLine(policy, longest, m, j, f);
    var due := Due(run.w, buf);
    SizeAt(run.fs, run.w, full, k, s);
    Course(run.w, longest, f, k, m, j);
    OnTheWayIs(policy, longest, f, k, m, j);
    hide Stands, Fills, At, Cap, Base, Due, NextLine, Failing, Working, WithFaults, WorkingScript, OnTheWay, AttemptOf;
    if m == 0 && j < f {
      var next := Failing(run, buf);
      FailingStands(run, full, k, s, buf);
      script, bufs := Fill(next, longest, f, k, 0, j + 1);
      FailsFront(run, longest, f, j, buf, script, bufs);
      script, bufs := FAILING + script, [buf] + bufs;
    } else if m == 0 && k == policy.keep {
      script, bufs := [], [];
      FilledFills(run, longest, f, j);
    } else {
      var next := Working(run, buf);
      WorkingStands(run, full, k, s, buf);
      var k', m' := if m == 0 then k + 1 else k, (if m == 0 then Base(policy, longest) else m) - |buf|;
      script, bufs := Fill(next, longest, f, k', m', 0);
      WorksFront(run, longest, f, j, buf, script, bufs, if due then Done else NotDue);
      script, bufs := WorkingScript(run, buf) + script, [buf] + bufs;
    }
  }

  lemma FailsFront(run: Run, longest: nat, f: nat, streak: nat, buf: Record, script: seq<Fault>, bufs: seq<Record>)
    requires Fills(Failing(run, buf), longest, f, streak + 1, script, bufs) && streak <= f && |buf| <= longest && Due(run.w, buf)
    requires Failing(run, buf).w.log == run.w.log && Failing(run, buf).w.policy == run.w.policy
    ensures Fills(run, longest, f, streak, FAILING + script, [buf] + bufs)
  {
    hide Fills, Failing, WithFaults, Next, AttemptOf;
    FailsAhead(run, buf, script);
    FillsFront(run, longest, f, streak, FAILING, buf, Failing(run, buf), Failed, script, bufs);
  }

  lemma WorksFront(run: Run, longest: nat, f: nat, streak: nat, buf: Record, script: seq<Fault>, bufs: seq<Record>, attempt: Attempt)
    requires Fills(Working(run, buf), longest, f, 0, script, bufs) && streak <= f && |buf| <= longest
    requires attempt == AttemptOf(WithFaults(run, []), buf) && attempt != Failed
    requires Working(run, buf).w.log == run.w.log && Working(run, buf).w.policy == run.w.policy
    ensures Fills(run, longest, f, streak, WorkingScript(run, buf) + script, [buf] + bufs)
  {
    hide Fills, Working, WithFaults, WorkingScript, Next, AttemptOf;
    WorksAhead(run, buf, script);
    ScriptWhole(run, buf);
    FillsFront(run, longest, f, streak, WorkingScript(run, buf), buf, Working(run, buf), attempt, script, bufs);
  }

  lemma ScriptWhole(run: Run, buf: Record)
    ensures AllOrNothing(WorkingScript(run, buf))
  {
    FinesWhole(PrepareOps(run.fs.(faults := []), run.w, buf) + 1);
    hide AllOrNothing, Fines, PrepareOps;
  }

  lemma SizeAt(fs: Fs, w: Handle, full: nat, k: nat, s: nat)
    requires Stands(fs, w, full, k, s)
    ensures w.size == s
  {
  }

  lemma FilledFills(run: Run, longest: nat, f: nat, streak: nat)
    requires Stands(run.fs, run.w, Cap(run.w.policy, longest, f), run.w.policy.keep, Cap(run.w.policy, longest, f)) && streak <= f
    ensures Fills(run, longest, f, streak, [], [])
  {
    hide SizeOf, Cap;
    StandsAnyFaults(run.fs, run.w, Cap(run.w.policy, longest, f), run.w.policy.keep, Cap(run.w.policy, longest, f), []);
  }

  // ---------------------------------------------------------------- the bound and the documented one

  /** A run with all-or-nothing appends, lines of at most `longest` bytes, and at most `f` failed
      rotations in a row; a writer that cannot be opened writes nothing. */
  ghost predicate Moderate(fs: Fs, log: string, policy: Policy, bufs: seq<Record>, longest: nat, f: nat) {
    var (fs1, w) := OpenHandle(fs, log, policy);
    && AllOrNothing(fs.faults) && NoneLonger(bufs, longest)
    && (w.Ok? ==> NeverMoreInARow(0, Attempts(Opened(fs1, w.value), bufs), f))
  }

  lemma OpensToStand(fs: Fs, log: string, policy: Policy, full: nat)
    requires Valid(fs) && NoFiles(fs, log, policy) && fs.faults == []
    ensures var (fs1, w) := OpenHandle(fs, log, policy);
            w.Ok? && w.value.log == log && w.value.policy == policy && Stands(fs1, w.value, full, 0, 0)
  {
    OpenHoldsNothing(fs, log, policy);
    OpenSizes(fs, log, policy);
    hide OpenHandle, GenName, SizeOf, Sound;
    var (fs1, w) := OpenHandle(fs, log, policy);
    forall i: nat | i <= policy.keep ensures !IsDirectory(fs1, Gen(fs1, log, i)) {
      assert Slot(fs1, log, [[]], i);
    }
  }

  lemma OpensAhead(fs: Fs, log: string, policy: Policy, rest: seq<Fault>)
    requires fs.faults == [] && OpenHandle(fs, log, policy).1.Ok?
    ensures var (fs1, w) := OpenHandle(fs, log, policy);
            var start := fs.(faults := Fines(OpenHandleOps(fs, log)) + rest);
            && OpenHandle(start, log, policy) == (fs1.(faults := rest), w)
            && Opened(fs1.(faults := rest), w.value) == WithFaults(Opened(fs1, w.value), rest)
  {
    OpenHandleAhead(fs, log, policy, rest);
    hide OpenHandle, OpenHandleOps, Fines, Chronicle;
    var (fs1, w) := OpenHandle(fs, log, policy);
    SameTreeChronicle(fs1, fs1.(faults := rest), w.value.log, Files(w.value));
  }

  /** The bound is attained by all files at once: for every limit, every `keep`, lines of at least one
      byte and every number `f` of failures in a row some run fills the log to exactly `keep + 1` times
      the cap. */
  lemma AgentLogBoundIsAttained(fs: Fs, log: string, policy: Policy, longest: nat, f: nat) returns (faults: seq<Fault>, bufs: seq<Record>)
    requires Valid(fs) && NoFiles(fs, log, policy) && longest >= 1
    ensures Moderate(fs.(faults := faults), log, policy, bufs, longest, f)
    ensures TotalAfter(fs.(faults := faults), log, policy, bufs) == (policy.keep + 1) * Cap(policy, longest, f)
  {
    var fs0 := fs.(faults := []);
    NoFilesAnyFaults(fs, log, policy);
    var full := Cap(policy, longest, f);
    OpensToStand(fs0, log, policy, full);
    var base := Base(policy, longest);
    AtSteps(policy, longest, base, 0);
    hide OpenHandle, Stands, Fills, At, Cap, NoFiles, Base;
    var (fs1, w) := OpenHandle(fs0, log, policy);
    var script: seq<Fault>;
    script, bufs := Fill(Opened(fs1, w.value), longest, f, 0, base, 0);
    faults := Fines(OpenHandleOps(fs0, log)) + script;
    OpensAhead(fs0, log, policy, script);
    FinesWhole(OpenHandleOps(fs0, log));
    FilledRun(fs.(faults := faults), log, policy, bufs, longest, f, Opened(fs1, w.value), script);
  }

  lemma NoFilesAnyFaults(fs: Fs, log: string, policy: Policy)
    requires Valid(fs) && NoFiles(fs, log, policy)
    ensures forall faults :: Valid(fs.(faults := faults)) && NoFiles(fs.(faults := faults), log, policy)
  {
    hide GenName;
    forall faults: seq<Fault>, i: nat | i <= policy.keep ensures Gen(fs.(faults := faults), log, i) == None {
      assert Gen(fs, log, i) == None;
    }
  }

  lemma FilledRun(fs: Fs, log: string, policy: Policy, bufs: seq<Record>, longest: nat, f: nat, run: Run, script: seq<Fault>)
    requires Fills(run, longest, f, 0, script, bufs) && AllOrNothing(fs.faults) && run.w.log == log && run.w.policy == policy
    requires var (fs1, w) := OpenHandle(fs, log, policy); w.Ok? && Opened(fs1, w.value) == WithFaults(run, script)
    ensures Moderate(fs, log, policy, bufs, longest, f)
    ensures TotalAfter(fs, log, policy, bufs) == (policy.keep + 1) * Cap(policy, longest, f)
  {
    hide OpenHandle, Cap, SizeOf, Chronicle, Length, WithFaults, Opened;
    TotalOfFull(Writes(WithFaults(run, script), bufs).fs, log, policy.keep + 1, Cap(policy, longest, f));
  }

  lemma ModerateTotal(fs: Fs, log: string, policy: Policy, bufs: seq<Record>, longest: nat, f: nat)
    requires Valid(fs) && NoFiles(fs, log, policy) && Moderate(fs, log, policy, bufs, longest, f)
    ensures TotalAfter(fs, log, policy, bufs) <= (policy.keep + 1) * Cap(policy, longest, f)
  {
    if OpenHandle(fs, log, policy).1.Ok? {
      hide OpenHandle, Cap, Chronicle, Length, NoFiles, AllWithin, Valid, Attempts, Writes, NeverMoreInARow;
      AgentLogBound(fs, log, policy, bufs, longest, f);
      var (fs1, w) := OpenHandle(fs, log, policy);
      TotalOfWithin(Writes(Opened(fs1, w.value), bufs).fs, log, policy, Cap(policy, longest, f));
    } else {
      hide OpenHandle, Cap;
      Monotone(policy.keep + 1, 0, Cap(policy, longest, f));
    }
  }

  lemma TotalOfWithin(fs: Fs, log: string, policy: Policy, cap: nat)
    requires AllWithin(fs, log, policy, cap)
    ensures Length(Chronicle(fs, log, policy.keep + 1)) <= (policy.keep + 1) * cap
  {
  }

  lemma CapAgainstLimit(policy: Policy, longest: nat, f: nat)
    requires longest > 0
    ensures Cap(policy, longest, f) >= policy.maxBytes
    ensures Cap(policy, longest, f) == policy.maxBytes <==> longest <= policy.maxBytes && f == 0
  {
    assert f > 0 ==> f * longest == (f - 1) * longest + longest && (f - 1) * longest >= 0;
  }

  /** The documented bound in spite of failures: over all patterns of failures with all-or-nothing
      appends, lines of at most `longest` bytes and at most `f` failed rotations in a row, a log that
      starts without generations stays within `(keep + 1) * max_bytes` if and only if there is nothing to
      write, or no line is longer than the limit and no rotation fails. */
  lemma AgentLogWithinLimitIff(fs: Fs, log: string, policy: Policy, longest: nat, f: nat)
    requires Valid(fs) && NoFiles(fs, log, policy)
    ensures (forall faults, bufs | Moderate(fs.(faults := faults), log, policy, bufs, longest, f) ::
               TotalAfter(fs.(faults := faults), log, policy, bufs) <= (policy.keep + 1) * policy.maxBytes)
       <==> longest == 0 || (longest <= policy.maxBytes && f == 0)
  {
    NoFilesAnyFaults(fs, log, policy);
    if longest > 0 {
      CapAgainstLimit(policy, longest, f);
    } else {
      assert Cap(policy, 0, f) == policy.maxBytes;
    }
    hide Moderate, TotalAfter, Cap, Valid, NoFiles;
    if longest == 0 || (longest <= policy.maxBytes && f == 0) {
      forall faults, bufs | Moderate(fs.(faults := faults), log, policy, bufs, longest, f)
        ensures TotalAfter(fs.(faults := faults), log, policy, bufs) <= (policy.keep + 1) * policy.maxBytes {
        ModerateTotal(fs.(faults := faults), log, policy, bufs, longest, f);
      }
    } else {
      var faults, bufs := AgentLogBoundIsAttained(fs, log, policy, longest, f);
      Larger(policy.keep + 1, policy.maxBytes, Cap(policy, longest, f));
    }
  }
}
