/** How large agent.log can get when rotations fail (agent-rust/src/rotation.rs). */
module AgentLogSize {
  import opened Basics
  import opened FileSystem
  import opened Names
  import opened Rotation
  import opened Writer
  import opened Durability
  import opened Accounting
  import opened Chunking
  import opened LogSizes

  /** How many of the latest rotations have failed in a row; a write that need not rotate ends the streak. */
  function NextStreak(streak: nat, attempt: Attempt): nat {
    if attempt == Failed then streak + 1 else 0
  }

  /** From a streak of `streak` on there are never more than `f` failed rotations in a row. */
  predicate NeverMoreInARow(streak: nat, attempts: seq<Attempt>, f: nat)
    decreases |attempts|
  {
    streak <= f && (attempts == [] || NeverMoreInARow(NextStreak(streak, attempts[0]), attempts[1..], f))
  }

  /** What a file can hold without any failure: the limit, or one longer line. */
  function Base(policy: Policy, longest: nat): nat {
    if policy.maxBytes > longest then policy.maxBytes else longest
  }

  /** The bound after `f` failures in a row, with lines of at most `longest` bytes. */
  function Cap(policy: Policy, longest: nat, f: nat): nat {
    Base(policy, longest) + f * longest
  }

  lemma CapGrows(policy: Policy, longest: nat, f: nat, g: nat)
    requires f <= g
    ensures Cap(policy, longest, f) <= Cap(policy, longest, g)
    ensures Cap(policy, longest, f + 1) == Cap(policy, longest, f) + longest
    ensures Cap(policy, longest, 0) == Base(policy, longest)
  {
    assert g * longest == f * longest + (g - f) * longest;
    assert (f + 1) * longest == f * longest + longest;
  }

  // ---------------------------------------------------------------- one write

  /** A slide followed by any attempt to reopen. */
  lemma SlideThenSecureSizes(fs: Fs, mid: Fs, fs': Fs, log: string, top: nat, k: nat, j: nat)
    requires Slid(fs, mid, log, top, k) && Valid(mid) && Secured(mid, fs', log)
    ensures SizeFrom(fs, fs', log, j)
  {
    hide SizeOf, Slid, Secured, Valid;
    SlidSizes(fs, mid, log, top, k, j);
    SecuredSizes(mid, fs', log, j);
  }

  lemma PrepareSizes(fs: Fs, w: Handle, buf: Record, j: nat)
    requires Valid(fs)
    ensures SizeFrom(fs, Prepare(fs, w, buf).0, w.log, j)
  {
    hide Rotate, OpenLocked, SizeFrom, Slid, Secured, Valid;
    if Due(w, buf) {
      var (fs1, rotated) := Rotate(fs, w.log, w.policy.keep);
      RotateOutcome(fs, w.log, w.policy.keep);
      var k: nat :| Slid(fs, fs1, w.log, w.policy.keep, k);
      SecuredSelf(fs1, w.log);
      OpenLockedOutcome(fs1, w.log);
      SlideThenSecureSizes(fs, fs1, Prepare(fs, w, buf).0, w.log, w.policy.keep, k, j);
    } else {
      SameSizes(fs, fs, w.log, j);
      SizeFromSelf(fs, w.log, j);
    }
  }

  lemma SizeFromSelf(fs: Fs, log: string, j: nat)
    ensures SizeFrom(fs, fs, log, j)
  {
  }

  lemma AppendSizes(fs: Fs, file: FileId, buf: Record, log: string, j: nat)
    requires file in fs.files
    ensures var fs' := Append(fs, file, buf).0;
            SizeOf(fs', log, j) == if Gen(fs, log, j) == Some(file) then Length(Content(fs', file)) else SizeOf(fs, log, j)
  {
    hide GenName;
    assert Gen(Append(fs, file, buf).0, log, j) == Gen(fs, log, j);
  }

  /** The handle's file is within the cap of the current streak, and every file within that of `f`. */
  ghost predicate Within(run: Run, longest: nat, streak: nat, f: nat) {
    && Intact(run) && Exact(run.fs, run.w) && AllOrNothing(run.fs.faults) && streak <= f
    && run.w.size <= Cap(run.w.policy, longest, streak)
    && forall i: nat | i <= run.w.policy.keep :: SizeOf(run.fs, run.w.log, i) <= Cap(run.w.policy, longest, f)
  }

  /** What a write does to the byte count. */
  lemma NextSize(run: Run, buf: Record)
    ensures var (run', attempt) := (Next(run, buf), AttemptOf(run, buf));
            var before := if attempt == Done then 0 else run.w.size;
            && (run'.w.size == before || run'.w.size == before + |buf|)
            && (attempt == NotDue ==> before == 0 || before + |buf| <= run.w.policy.maxBytes)
  {
    hide Rotate, OpenLocked, Append;
  }

  lemma HandleWithin(run: Run, buf: Record, longest: nat, streak: nat)
    requires run.w.size <= Cap(run.w.policy, longest, streak) && |buf| <= longest
    ensures Next(run, buf).w.size <= Cap(run.w.policy, longest, NextStreak(streak, AttemptOf(run, buf)))
  {
    NextSize(run, buf);
    CapGrows(run.w.policy, longest, 0, streak);
    CapGrows(run.w.policy, longest, streak, streak);
    hide Cap, Next, AttemptOf;
  }

  lemma WriteKeepsWithin(run: Run, buf: Record, longest: nat, streak: nat, f: nat)
    requires Within(run, longest, streak, f) && |buf| <= longest && NextStreak(streak, AttemptOf(run, buf)) <= f
    ensures Within(Next(run, buf), longest, NextStreak(streak, AttemptOf(run, buf)), f)
    ensures Next(run, buf).w.log == run.w.log && Next(run, buf).w.policy == run.w.policy
  {
    var log, policy, streak' := run.w.log, run.w.policy, NextStreak(streak, AttemptOf(run, buf));
    WriteExact(run, buf);
    HandleWithin(run, buf, longest, streak);
    CapGrows(policy, longest, streak', f);
    WritesKeepHandle(run, [buf]);
    NextIsWrites(run, buf);
    var (fs1, w1, _) := Prepare(run.fs, run.w, buf);
    var run' := Next(run, buf);
    SoundAfterPrepare(run, buf);
    hide Intact, AllOrNothing, Cap, Prepare, SizeFrom, AttemptOf, Writes;
    hide SizeOf;
    forall i: nat | i <= policy.keep ensures SizeOf(run'.fs, log, i) <= Cap(policy, longest, f) {
      PrepareSizes(run.fs, run.w, buf, i);
      FromWithin(run.fs, fs1, log, i, Cap(policy, longest, f), policy.keep);
      AppendSizes(fs1, w1.file, buf, log, i);
    }
  }

  lemma FromWithin(fs: Fs, fs': Fs, log: string, i: nat, cap: nat, keep: nat)
    requires SizeFrom(fs, fs', log, i) && i <= keep && forall j: nat | j <= keep :: SizeOf(fs, log, j) <= cap
    ensures SizeOf(fs', log, i) <= cap
  {
    hide SizeOf;
  }

  lemma SoundAfterPrepare(run: Run, buf: Record)
    requires Intact(run)
    ensures var (fs1, w1, _) := Prepare(run.fs, run.w, buf);
            && Valid(run.fs) && w1.file in fs1.files
            && Next(run, buf).fs == Append(fs1, w1.file, buf).0 && Next(run, buf).w.file == w1.file
  {
    hide Prepare, Newest, IsSuffix, Chronicle, Append;
    var h: nat :| h <= run.failed && Newest(run.fs, run.w.log, run.w.file, Files(run.w), h);
    PrepareOutcome(run.fs, run.w, buf, h);
  }

  lemma NextIsWrites(run: Run, buf: Record)
    ensures Writes(run, [buf]) == Next(run, buf)
  {
    assert [buf][1..] == [];
    hide Next;
    assert Writes(Next(run, buf), []) == Next(run, buf);
  }

  // ---------------------------------------------------------------- runs

  lemma {:induction false} WritesStayWithin(run: Run, bufs: seq<Record>, longest: nat, streak: nat, f: nat)
    requires Within(run, longest, streak, f) && NoneLonger(bufs, longest)
    requires NeverMoreInARow(streak, Attempts(run, bufs), f)
    ensures var end := Writes(run, bufs);
            && end.w.log == run.w.log && end.w.policy == run.w.policy
            && Length(Content(end.fs, end.w.file)) <= Cap(run.w.policy, longest, f)
            && forall i: nat | i <= run.w.policy.keep :: SizeOf(end.fs, run.w.log, i) <= Cap(run.w.policy, longest, f)
    decreases |bufs|
  {
    CapGrows(run.w.policy, longest, streak, f);
    hide Next, AttemptOf, SizeOf, Cap;
    if bufs == [] {
      WithinSays(run, longest, streak, f);
    } else {
      hide Within;
      var attempts := Attempts(run, bufs);
      assert attempts[1..] == Attempts(Next(run, bufs[0]), bufs[1..]);
      StreakSoFar(NextStreak(streak, attempts[0]), attempts[1..], f);
      WriteKeepsWithin(run, bufs[0], longest, streak, f);
      WritesStayWithin(Next(run, bufs[0]), bufs[1..], longest, NextStreak(streak, attempts[0]), f);
    }
  }

  lemma WithinSays(run: Run, longest: nat, streak: nat, f: nat)
    requires Within(run, longest, streak, f)
    ensures Length(Content(run.fs, run.w.file)) == run.w.size <= Cap(run.w.policy, longest, streak)
  {
  }

  lemma StreakSoFar(streak: nat, attempts: seq<Attempt>, f: nat)
    requires NeverMoreInARow(streak, attempts, f)
    ensures streak <= f
  {
  }

  lemma OpensWithin(fs: Fs, log: string, policy: Policy, longest: nat, f: nat)
    requires Valid(fs) && NoFiles(fs, log, policy) && AllOrNothing(fs.faults) && OpenHandle(fs, log, policy).1.Ok?
    ensures var (fs1, w) := OpenHandle(fs, log, policy);
            Within(Opened(fs1, w.value), longest, 0, f) && w.value.log == log && w.value.policy == policy
  {
    OpenIntact(fs, log, policy);
    OpenFaults(fs, log, policy);
    NoFilesNoBytes(fs, log, policy);
    CapGrows(policy, longest, 0, f);
    OpenSizes(fs, log, policy);
    hide OpenHandle, SizeOf, Cap, Intact, AllOrNothing;
  }

  lemma OpenSizes(fs: Fs, log: string, policy: Policy)
    requires Valid(fs) && NoFiles(fs, log, policy) && OpenHandle(fs, log, policy).1.Ok?
    ensures var (fs1, w) := OpenHandle(fs, log, policy);
            && w.value.size == 0 && Gen(fs1, log, 0) == Some(w.value.file)
            && forall i: nat | i <= policy.keep :: SizeOf(fs1, log, i) == 0
  {
    OpenLockedOutcome(fs, log);
    NoFilesNoBytes(fs, log, policy);
    hide OpenLocked, SizeOf, NoFiles, Secured, Valid;
    var fs0 := OpenLocked(fs, log).0;
    var (fs1, w) := OpenHandle(fs, log, policy);
    forall i: nat | i <= policy.keep ensures SizeOf(fs1, log, i) == 0 {
      SecuredSizes(fs, fs0, log, i);
      SameSizes(fs0, fs1, log, i);
    }
    LiveSize(fs1, log, w.value.file);
  }

  lemma LiveSize(fs: Fs, log: string, file: FileId)
    requires Gen(fs, log, 0) == Some(file)
    ensures SizeOf(fs, log, 0) == Length(Content(fs, file))
  {
  }

  /** Over every run that starts without generations and every pattern of failures with all-or-nothing
      appends: if no line is longer than `longest` and at most `f` rotations in a row fail, no file
      exceeds the limit or the longest line by more than `f` lines, and the log stays within `keep + 1`
      times that. */
  lemma AgentLogBound(fs: Fs, log: string, policy: Policy, bufs: seq<Record>, longest: nat, f: nat)
    requires Valid(fs) && NoFiles(fs, log, policy) && AllOrNothing(fs.faults) && OpenHandle(fs, log, policy).1.Ok?
    requires NoneLonger(bufs, longest)
    requires var (fs1, w) := OpenHandle(fs, log, policy); NeverMoreInARow(0, Attempts(Opened(fs1, w.value), bufs), f)
    ensures var (fs1, w) := OpenHandle(fs, log, policy);
            var end := Writes(Opened(fs1, w.value), bufs);
            && Length(Content(end.fs, end.w.file)) <= Cap(policy, longest, f)
            && AllWithin(end.fs, log, policy, Cap(policy, longest, f))
  {
    OpensWithin(fs, log, policy, longest, f);
    hide OpenHandle, Writes, Attempts, Within, SizeOf, Cap, Chronicle, Length, NoFiles, AllOrNothing, NeverMoreInARow, NoneLonger, Valid, AllWithin;
    var (fs1, w) := OpenHandle(fs, log, policy);
    WritesStayWithin(Opened(fs1, w.value), bufs, longest, 0, f);
    AllWithinIf(Writes(Opened(fs1, w.value), bufs).fs, log, policy, Cap(policy, longest, f));
  }
}
