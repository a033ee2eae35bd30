/** How the child's log grows when nothing fails, and that the bounds on it are attained
    (agent-rust/src/cycle.rs, rotation.rs). */
module ChildLogLimit {
  import opened Basics
  import opened Names
  import opened FileSystem
  import opened Rotation
  import opened Durability
  import opened Cycle
  import opened LogSizes
  import opened LateFailures
  import opened ChildLogSize

  // ---------------------------------------------------------------- the sizes, cycle by cycle

  /** Nothing is in the way of the log: its name can be secured, and no directory has a name that a
      rotation uses. */
  ghost predicate Tame(fs: Fs, log: string, policy: Policy) {
    && Valid(fs) && Securable(fs, log)
    && forall i: nat | i <= policy.keep :: !IsDirectory(fs, Gen(fs, log, i))
  }

  lemma SecuredTame(fs: Fs, fs': Fs, log: string, policy: Policy)
    requires Tame(fs, log, policy) && Secured(fs, fs', log) && Valid(fs')
    ensures Tame(fs', log, policy)
  {
    GenNamesDistinct(log);
    assert GenName(log, 0) == log;
    hide GenName;
    forall i: nat | i <= policy.keep ensures !IsDirectory(fs', Gen(fs', log, i)) {
      SecuredGens(fs, fs', log, i);
      assert !IsDirectory(fs, Gen(fs, log, i));
    }
  }

  lemma SlidTame(fs: Fs, fs': Fs, log: string, policy: Policy, k: nat)
    requires Tame(fs, log, policy) && Slid(fs, fs', log, policy.keep, k) && Valid(fs')
    ensures Tame(fs', log, policy)
  {
    assert Gen(fs, log, 0) == Lookup(fs, log) && Gen(fs', log, 0) == Lookup(fs', log);
    hide GenName;
    assert Gen(fs', log, 0) == SlidGen(fs, log, policy.keep, k, 0);
    forall i: nat | i <= policy.keep ensures !IsDirectory(fs', Gen(fs', log, i)) {
      assert Gen(fs', log, i) == SlidGen(fs, log, policy.keep, k, i);
    }
  }

  lemma SpawnTame(fs: Fs, log: string, policy: Policy, input: Input)
    requires Tame(fs, log, policy) && Locked(fs, log)
    ensures Tame(Spawn(fs, log, input), log, policy)
  {
    hide GenName;
    forall i: nat ensures Gen(Spawn(fs, log, input), log, i) == Gen(fs, log, i) {
    }
  }

  /** What the size of generation `j` becomes when the live file gets `n` more bytes. */
  function SizeAfter(fs: Fs, log: string, policy: Policy, n: nat, j: nat): nat {
    if SizeOf(fs, log, 0) < policy.maxBytes then SizeOf(fs, log, j) + (if j == 0 then n else 0)
    else if j == 0 then n
    else if j <= policy.keep then SizeOf(fs, log, j - 1)
    else SizeOf(fs, log, j)
  }

  lemma SpawnExactSizes(fs: Fs, log: string, input: Input, j: nat)
    requires Valid(fs) && Locked(fs, log) && input.started
    ensures SizeOf(Spawn(fs, log, input), log, j) == SizeOf(fs, log, j) + if j == 0 then Length(input.appended) else 0
  {
    hide Length;
    SpawnSizes(fs, log, input, j);
    assert GenName(log, 0) == log;
    LengthConcat(Content(fs, fs.dir[log]), input.appended);
  }

  /** Securing the log changes no size. */
  lemma SecureTame(fs: Fs, log: string, policy: Policy, j: nat)
    requires Tame(fs, log, policy) && fs.faults == []
    ensures var (fs', r) := SecureFile(fs, log);
            r.Ok? && Tame(fs', log, policy) && Locked(fs', log) && fs'.faults == [] && SizeOf(fs', log, j) == SizeOf(fs, log, j)
  {
    SecureFileEffect(fs, log);
    FaultFreeSecureSucceedsIff(fs, log);
    hide SecureFile, SizeOf, Secured, Locked;
    var fs' := SecureFile(fs, log).0;
    SecuredTame(fs, fs', log, policy);
    SecuredSizes(fs, fs', log, j);
  }

  /** The rotation in between either leaves all sizes or moves them up by one. */
  lemma RotateTame(fs: Fs, log: string, policy: Policy, j: nat)
    requires Tame(fs, log, policy) && Locked(fs, log) && fs.faults == []
    ensures var (fs', r) := RotateIfLarge(fs, log, policy);
            && Tame(fs', log, policy) && fs'.faults == []
            && r == Ok(SizeOf(fs, log, 0) >= policy.maxBytes)
            && SizeOf(fs', log, j) == SizeAfter(fs, log, policy, 0, j)
            && (r == Ok(false) ==> Locked(fs', log))
  {
    FaultFreeRotateIfLarge(fs, log, policy);
    assert !IsDirectory(fs, Gen(fs, log, policy.keep));
    SizeIs(fs, log);
    RotateIfLargeOutcome(fs, log, policy);
    hide RotateIfLarge, SizeOf, IsDirectory, Length, GenName;
    var (fs', r) := RotateIfLarge(fs, log, policy);
    if r == Ok(true) {
      SlidTame(fs, fs', log, policy, 0);
      SlidExactSizes(fs, fs', log, policy.keep, j);
    } else {
      SlidSelf(fs, fs', log, policy.keep);
      SlidTame(fs, fs', log, policy, policy.keep + 1);
      SameSizes(fs, fs', log, j);
    }
  }

  /** A cycle in which nothing fails and a child runs: whether it rotates depends on the live file's
      size before the child alone, so the child's own line can take it past the limit. */
  lemma FaultFreeSizes(fs: Fs, log: string, policy: Policy, input: Input, j: nat)
    requires Tame(fs, log, policy) && fs.faults == [] && input.collected && input.started
    ensures var (fs', out) := RunCycle(fs, log, policy, input);
            && Tame(fs', log, policy) && fs'.faults == []
            && out.branch == (if SizeOf(fs, log, 0) < policy.maxBytes then Kept else Rotated)
            && SizeOf(fs', log, j) == SizeAfter(fs, log, policy, Length(input.appended), j)
  {
    SpawnKeepsFaults(log, input);
    hide SecureFile, RotateIfLarge, Spawn, SizeOf, Length, Tame, Locked;
    SecureTame(fs, log, policy, j);
    SecureTame(fs, log, policy, 0);
    if j > 0 {
      SecureTame(fs, log, policy, j - 1);
    }
    var fs1 := SecureFile(fs, log).0;
    RotateTame(fs1, log, policy, j);
    var (fs2, rotated) := RotateIfLarge(fs1, log, policy);
    SecureTame(fs2, log, policy, j);
    var fs3 := if rotated == Ok(true) then SecureFile(fs2, log).0 else fs2;
    TameIsValid(fs3, log, policy);
    SpawnTame(fs3, log, policy, input);
    SpawnExactSizes(fs3, log, input, j);
  }

  lemma SpawnKeepsFaults(log: string, input: Input)
    ensures forall fs: Fs :: Spawn(fs, log, input).faults == fs.faults
  {
  }

  lemma TameIsValid(fs: Fs, log: string, policy: Policy)
    requires Tame(fs, log, policy)
    ensures Valid(fs)
  {
  }

  lemma SizeIs(fs: Fs, log: string)
    ensures SizeOf(fs, log, 0) == Length(ContentOf(fs, Gen(fs, log, 0)))
  {
  }

  // ---------------------------------------------------------------- a run that fills every file

  /** An undisturbed cycle whose child appends `n` bytes. */
  function Appending(n: nat): Step {
    Step(Leave, Input(true, true, [Bytes(n)]))
  }

  lemma AppendingLength(n: nat)
    ensures Length(Appending(n).input.appended) == n
  {
    LengthSnoc([], Bytes(n));
    assert [] + [Bytes(n)] == [Bytes(n)];
  }

  lemma QuietSnoc(steps: seq<Step>, line: nat, n: nat)
    requires Quiet(steps, line) && n <= line
    ensures Quiet(steps + [Appending(n)], line)
  {
    AppendingLength(n);
    assert Appending(n).act == Leave;
    hide Appending, Length;
  }

  /** One more cycle on a directory that is filled like that. */
  lemma FilledAfter(fs: Fs, log: string, policy: Policy, full: nat, k: nat, s: nat, n: nat)
    requires Tame(fs, log, policy) && fs.faults == [] && Filled(fs, log, policy, full, k, s)
    requires s < policy.maxBytes || s == full
    ensures var fs' := RunCycle(fs, log, policy, Appending(n).input).0;
            && Tame(fs', log, policy) && fs'.faults == []
            && if s < policy.maxBytes then Filled(fs', log, policy, full, k, s + n) else Filled(fs', log, policy, full, k + 1, n)
  {
    AppendingLength(n);
    hide RunCycle, SizeOf, Tame, Length;
    var fs' := RunCycle(fs, log, policy, Appending(n).input).0;
    FaultFreeSizes(fs, log, policy, Appending(n).input, 0);
    forall j: nat | j <= policy.keep
      ensures SizeOf(fs', log, j) == if s < policy.maxBytes then (if j == 0 then s + n else if j <= k then full else 0)
                                     else (if j == 0 then n else if j <= k + 1 then full else 0) {
      FaultFreeSizes(fs, log, policy, Appending(n).input, j);
    }
  }

  lemma NoFilesTame(fs: Fs, log: string, policy: Policy)
    requires Valid(fs) && NoFiles(fs, log, policy)
    ensures Tame(fs, log, policy)
  {
    assert Gen(fs, log, 0) == None;
  }

  lemma StreaksSnoc(outs: seq<Outcome>, out: Outcome, f: nat)
    requires AtMostInARow(outs, f) && Streak(outs + [out]) <= f
    ensures AtMostInARow(outs + [out], f)
    ensures Streak(outs + [out]) == match out.branch case RotationFailed => Streak(outs) + 1 case NotReached => Streak(outs) case _ => 0
  {
    var all := outs + [out];
    assert all[..|outs|] == outs && all[..|all|] == all;
    forall i: nat | i <= |all| ensures Streak(all[..i]) <= f {
      assert i <= |outs| ==> all[..i] == outs[..i];
    }
  }

  // ---------------------------------------------------------------- cycles, whatever comes after them

  function Scripted(fs: Fs, script: seq<Fault>, rest: seq<Fault>): Fs {
    fs.(faults := script + rest)
  }

  /** A cycle that uses up `first`, comes to `base'` and takes `branch`, ahead of `rest`. */
  ghost predicate Gives(base: Fs, log: string, policy: Policy, input: Input, first: seq<Fault>, base': Fs, branch: Branch, rest: seq<Fault>) {
    var (end, out) := RunCycle(Scripted(base, first, rest), log, policy, input);
    end == base'.(faults := rest) && out.branch == branch
  }

  lemma WorkingGives(base: Fs, log: string, policy: Policy, input: Input, rest: seq<Fault>)
    requires base.faults == [] && input.collected
    ensures var (base', out) := RunCycle(base, log, policy, input);
            base'.faults == [] && Gives(base, log, policy, input, Fines(CycleOps(base, log, policy)), base', out.branch, rest)
  {
    CycleAhead(base, log, policy, input, rest);
    hide RunCycle, CycleOps, Fines;
  }

  /** A cycle that secures the log and then cannot measure it. */
  function FailingScript(base: Fs, log: string): seq<Fault> {
    Fines(SecureOps(base, log)) + [Fail(0)]
  }

  function Failing(base: Fs, log: string, input: Input): Fs {
    Spawn(SecureFile(base, log).0, log, input)
  }

  lemma MeasureFails(fs: Fs, log: string, policy: Policy, rest: seq<Fault>)
    requires fs.faults == [Fail(0)] + rest
    ensures RotateIfLarge(fs, log, policy) == (fs.(faults := rest), Err(Io))
  {
    assert fs.faults[1..] == rest;
  }

  lemma FailingGives(base: Fs, log: string, policy: Policy, input: Input, rest: seq<Fault>)
    requires Tame(base, log, policy) && base.faults == [] && input.collected
    ensures Failing(base, log, input).faults == []
    ensures Gives(base, log, policy, input, FailingScript(base, log), Failing(base, log, input), RotationFailed, rest)
  {
    hide SecureFile, SecureOps, RotateIfLarge, Spawn, Fines, Tame, Locked;
    SecureTame(base, log, policy, 0);
    var fs1 := SecureFile(base, log).0;
    var rest' := [Fail(0)] + rest;
    SecureAhead(base, log, 0, rest');
    AheadNone(fs1, rest');
    assert Scripted(base, FailingScript(base, log), rest) == Ahead(base, SecureOps(base, log), rest') by {
      assert Fines(SecureOps(base, log)) + [Fail(0)] + rest == Fines(SecureOps(base, log)) + rest';
    }
    hide FailingScript, Scripted, Ahead;
    MeasureFails(fs1.(faults := rest'), log, policy, rest);
    SpawnAhead(fs1, log, input, rest);
  }

  lemma FailedAfter(base: Fs, log: string, policy: Policy, full: nat, k: nat, s: nat, n: nat)
    requires Tame(base, log, policy) && base.faults == [] && Filled(base, log, policy, full, k, s)
    ensures var base' := Failing(base, log, Appending(n).input);
            Tame(base', log, policy) && Filled(base', log, policy, full, k, s + n)
  {
    AppendingLength(n);
    hide SecureFile, Spawn, SizeOf, Length, Tame, Locked;
    var fs1 := SecureFile(base, log).0;
    SecureTame(base, log, policy, 0);
    TameIsValid(fs1, log, policy);
    SpawnTame(fs1, log, policy, Appending(n).input);
    forall j: nat | j <= policy.keep
      ensures SizeOf(Failing(base, log, Appending(n).input), log, j) == if j == 0 then s + n else if j <= k then full else 0 {
      SecureTame(base, log, policy, j);
      SpawnExactSizes(fs1, log, Appending(n).input, j);
    }
  }

  /** Ahead of `rest`, `script` and `steps` lead from `fs` to `base`, with this streak at the end and none
      above `f`. */
  ghost predicate LeadsAhead(fs: Fs, log: string, policy: Policy, script: seq<Fault>, steps: seq<Step>, base: Fs, streak: nat, f: nat,
                             rest: seq<Fault>) {
    var (end, outs) := Cycles(Scripted(fs, script, rest), log, policy, steps);
    end == base.(faults := rest) && Streak(outs) == streak && AtMostInARow(outs, f)
  }

  /** So they do whatever comes after them, and without a script if nothing fails on the way. */
  ghost predicate Leads(fs: Fs, log: string, policy: Policy, script: seq<Fault>, steps: seq<Step>, base: Fs, streak: nat, f: nat) {
    && base.faults == [] && (f == 0 ==> Cycles(fs.(faults := []), log, policy, steps).0 == base)
    && forall rest: seq<Fault> :: LeadsAhead(fs, log, policy, script, steps, base, streak, f, rest)
  }

  function NextStreak(streak: nat, branch: Branch): nat {
    if branch == RotationFailed then streak + 1 else 0
  }

  lemma UndisturbedSnoc(fs: Fs, log: string, policy: Policy, steps: seq<Step>, step: Step)
    requires step.act == Leave
    ensures var (end, outs) := Cycles(fs, log, policy, steps);
            var (end', out) := RunCycle(end, log, policy, step.input);
            Cycles(fs, log, policy, steps + [step]) == (end', outs + [out])
  {
    CyclesSnoc(fs, log, policy, steps, step);
    hide Cycles, RunCycle;
  }

  lemma StreakOn(outs: seq<Outcome>, out: Outcome, f: nat)
    requires AtMostInARow(outs, f) && out.branch != NotReached && NextStreak(Streak(outs), out.branch) <= f
    ensures AtMostInARow(outs + [out], f) && Streak(outs + [out]) == NextStreak(Streak(outs), out.branch)
  {
    assert (outs + [out])[..|outs|] == outs;
    StreaksSnoc(outs, out, f);
  }

  lemma LeadsOnAhead(fs: Fs, log: string, policy: Policy, script: seq<Fault>, steps: seq<Step>, base: Fs, streak: nat, f: nat,
                     step: Step, first: seq<Fault>, base': Fs, branch: Branch, rest: seq<Fault>)
    requires LeadsAhead(fs, log, policy, script, steps, base, streak, f, first + rest) && step.act == Leave && branch != NotReached
    requires Gives(base, log, policy, step.input, first, base', branch, rest) && NextStreak(streak, branch) <= f
    ensures LeadsAhead(fs, log, policy, script + first, steps + [step], base', NextStreak(streak, branch), f, rest)
  {
    ScriptedOn(fs, script, first, rest);
    ScriptedOn(base, script, first, rest);
    hide Cycles, RunCycle, AtMostInARow, Streak, Scripted;
    var start := Scripted(fs, script, first + rest);
    UndisturbedSnoc(start, log, policy, steps, step);
    StreakOn(Cycles(start, log, policy, steps).1, RunCycle(Scripted(base, first, rest), log, policy, step.input).1, f);
  }

  lemma ScriptedOn(fs: Fs, script: seq<Fault>, first: seq<Fault>, rest: seq<Fault>)
    ensures Scripted(fs, script + first, rest) == Scripted(fs, script, first + rest)
    ensures Scripted(fs, first, rest) == fs.(faults := first + rest)
  {
    assert script + first + rest == script + (first + rest);
  }

  lemma LeadsOn(fs: Fs, log: string, policy: Policy, script: seq<Fault>, steps: seq<Step>, base: Fs, streak: nat, f: nat,
                step: Step, first: seq<Fault>, base': Fs, branch: Branch)
    requires Leads(fs, log, policy, script, steps, base, streak, f) && step.act == Leave && branch != NotReached && base'.faults == []
    requires forall rest: seq<Fault> :: Gives(base, log, policy, step.input, first, base', branch, rest)
    requires f == 0 ==> RunCycle(base, log, policy, step.input).0 == base'
    requires NextStreak(streak, branch) <= f
    ensures Leads(fs, log, policy, script + first, steps + [step], base', NextStreak(streak, branch), f)
  {
    UndisturbedSnoc(fs.(faults := []), log, policy, steps, step);
    hide Cycles, RunCycle, LeadsAhead, Gives;
    forall rest: seq<Fault>
      ensures LeadsAhead(fs, log, policy, script + first, steps + [step], base', NextStreak(streak, branch), f, rest) {
      assert LeadsAhead(fs, log, policy, script, steps, base, streak, f, first + rest);
      LeadsOnAhead(fs, log, policy, script, steps, base, streak, f, step, first, base', branch, rest);
    }
  }

  // ---------------------------------------------------------------- filling every file

  /** The live file lacks `m` cycles to its cap without failures, or is `j` failures above it. */
  function At(policy: Policy, line: nat, m: nat, j: nat): int {
    if m > 0 then policy.maxBytes - m else Cap(policy, line, j)
  }

  /** What the next child appends: a byte, or a whole line to reach or raise the cap. */
  function NextLine(policy: Policy, line: nat, m: nat, j: nat, f: nat): nat {
    if m == 1 || (m == 0 && (j < f || policy.maxBytes == 1)) then line else 1
  }

  ghost predicate Climbs(fs: Fs, log: string, policy: Policy, line: nat, f: nat, script: seq<Fault>, steps: seq<Step>, base: Fs,
                         k: nat, m: nat, j: nat) {
    && policy.maxBytes > 0 && line >= 1 && k <= policy.keep && m <= policy.maxBytes && j <= f && (m > 0 ==> j == 0)
    && Quiet(steps, line) && Leads(fs, log, policy, script, steps, base, j, f)
    && Tame(base, log, policy) && Cap(policy, line, f) >= 0 && At(policy, line, m, j) >= 0
    && Filled(base, log, policy, Cap(policy, line, f), k, At(policy, line, m, j))
  }

  lemma Course(policy: Policy, line: nat, m: nat, j: nat, f: nat)
    requires policy.maxBytes > 0 && line >= 1 && m <= policy.maxBytes && j <= f && (m > 0 ==> j == 0)
    ensures var n := NextLine(policy, line, m, j, f);
            && n <= line && 0 <= At(policy, line, m, j) && 0 <= Cap(policy, line, f)
            && (m > 0 ==> At(policy, line, m, j) < policy.maxBytes && At(policy, line, m - 1, 0) == At(policy, line, m, j) + n)
            && (m == 0 && j < f ==> At(policy, line, 0, j + 1) == At(policy, line, 0, j) + n)
            && (m == 0 && j == f ==> policy.maxBytes <= At(policy, line, 0, j) == Cap(policy, line, f)
                                     && At(policy, line, policy.maxBytes - 1, 0) == n)
  {
    CapGrows(policy, line, 0, j);
    CapGrows(policy, line, 0, f);
    CapGrows(policy, line, j, f);
    hide Cap;
  }

  lemma ClimbFails(fs: Fs, log: string, policy: Policy, line: nat, f: nat, script: seq<Fault>, steps: seq<Step>, base: Fs, k: nat, j: nat)
    requires Climbs(fs, log, policy, line, f, script, steps, base, k, 0, j) && j < f
    ensures Climbs(fs, log, policy, line, f, script + FailingScript(base, log), steps + [Appending(line)],
                   Failing(base, log, Appending(line).input), k, 0, j + 1)
  {
    Course(policy, line, 0, j, f);
    CapGrows(policy, line, 0, j + 1);
    var s := At(policy, line, 0, j);
    FailedAfter(base, log, policy, Cap(policy, line, f), k, s, line);
    QuietSnoc(steps, line, line);
    hide Leads, Failing, FailingScript, Tame, Filled, Gives, Cap, Quiet;
    LeadsBase(fs, log, policy, script, steps, base, j, f);
    forall rest: seq<Fault>
      ensures Gives(base, log, policy, Appending(line).input, FailingScript(base, log), Failing(base, log, Appending(line).input), RotationFailed, rest)
      ensures Failing(base, log, Appending(line).input).faults == [] {
      FailingGives(base, log, policy, Appending(line).input, rest);
    }
    FailingGives(base, log, policy, Appending(line).input, []);
    LeadsOn(fs, log, policy, script, steps, base, j, f, Appending(line), FailingScript(base, log),
            Failing(base, log, Appending(line).input), RotationFailed);
  }

  lemma LeadsBase(fs: Fs, log: string, policy: Policy, script: seq<Fault>, steps: seq<Step>, base: Fs, streak: nat, f: nat)
    requires Leads(fs, log, policy, script, steps, base, streak, f)
    ensures base.faults == []
  {
  }

  /** The next file, or the same one, and how far it will be filled. */
  lemma FilledOn(base: Fs, log: string, policy: Policy, line: nat, f: nat, k: nat, m: nat, j: nat)
    requires policy.maxBytes > 0 && line >= 1 && m <= policy.maxBytes && j <= f && (m > 0 ==> j == 0) && (m > 0 || j == f)
    requires Tame(base, log, policy) && base.faults == [] && Cap(policy, line, f) >= 0 && At(policy, line, m, j) >= 0
    requires Filled(base, log, policy, Cap(policy, line, f), k, At(policy, line, m, j))
    ensures var (base', out) := RunCycle(base, log, policy, Appending(NextLine(policy, line, m, j, f)).input);
            var (k', m') := if m > 0 then (k, m - 1) else (k + 1, policy.maxBytes - 1);
            && Tame(base', log, policy) && base'.faults == [] && out.branch != NotReached && out.branch != RotationFailed
            && At(policy, line, m', 0) >= 0 && Filled(base', log, policy, Cap(policy, line, f), k', At(policy, line, m', 0))
  {
    var n, s := NextLine(policy, line, m, j, f), At(policy, line, m, j);
    Course(policy, line, m, j, f);
    Course(policy, line, if m > 0 then m - 1 else policy.maxBytes - 1, 0, f);
    hide RunCycle, Tame, Filled, Cap, At, NextLine, SizeOf, Appending;
    FilledAfter(base, log, policy, Cap(policy, line, f), k, s, n);
    Appends(n);
    FaultFreeSizes(base, log, policy, Appending(n).input, 0);
  }

  lemma Appends(n: nat)
    ensures Appending(n).act == Leave && Appending(n).input.collected && Appending(n).input.started
  {
  }

  lemma ClimbWorks(fs: Fs, log: string, policy: Policy, line: nat, f: nat, script: seq<Fault>, steps: seq<Step>, base: Fs, k: nat, m: nat, j: nat)
    requires Climbs(fs, log, policy, line, f, script, steps, base, k, m, j) && (m > 0 || (j == f && k < policy.keep))
    ensures var n := NextLine(policy, line, m, j, f);
            Climbs(fs, log, policy, line, f, script + Fines(CycleOps(base, log, policy)), steps + [Appending(n)],
                   RunCycle(base, log, policy, Appending(n).input).0,
                   if m > 0 then k else k + 1, if m > 0 then m - 1 else policy.maxBytes - 1, 0)
  {
    var n := NextLine(policy, line, m, j, f);
    hide Leads, RunCycle, CycleOps, Fines, Tame, Filled, Gives, Cap, Quiet, At, NextLine, SizeOf, Appending;
    Course(policy, line, m, j, f);
    LeadsBase(fs, log, policy, script, steps, base, j, f);
    FilledOn(base, log, policy, line, f, k, m, j);
    Appends(n);
    QuietSnoc(steps, line, n);
    var (base', out) := RunCycle(base, log, policy, Appending(n).input);
    forall rest: seq<Fault>
      ensures Gives(base, log, policy, Appending(n).input, Fines(CycleOps(base, log, policy)), base', out.branch, rest) {
      WorkingGives(base, log, policy, Appending(n).input, rest);
    }
    LeadsOn(fs, log, policy, script, steps, base, j, f, Appending(n), Fines(CycleOps(base, log, policy)), base', out.branch);
  }

  lemma {:induction false} ClimbOn(fs: Fs, log: string, policy: Policy, line: nat, f: nat, script: seq<Fault>, steps: seq<Step>, base: Fs,
                                   k: nat, m: nat, j: nat) returns (script': seq<Fault>, steps': seq<Step>, base': Fs)
    requires Climbs(fs, log, policy, line, f, script, steps, base, k, m, j)
    ensures Climbs(fs, log, policy, line, f, script', steps', base', policy.keep, 0, f)
    decreases policy.keep - k, m, f - j
  {
    ClimbsSays(fs, log, policy, line, f, script, steps, base, k, m, j);
    hide Climbs, RunCycle, CycleOps, Fines, Failing, FailingScript;
    if m == 0 && j < f {
      ClimbFails(fs, log, policy, line, f, script, steps, base, k, j);
      script', steps', base' := ClimbOn(fs, log, policy, line, f, script + FailingScript(base, log), steps + [Appending(line)],
                                        Failing(base, log, Appending(line).input), k, 0, j + 1);
    } else if m == 0 && k == policy.keep {
      script', steps', base' := script, steps, base;
    } else {
      var n := NextLine(policy, line, m, j, f);
      ClimbWorks(fs, log, policy, line, f, script, steps, base, k, m, j);
      script', steps', base' := ClimbOn(fs, log, policy, line, f, script + Fines(CycleOps(base, log, policy)), steps + [Appending(n)],
                                        RunCycle(base, log, policy, Appending(n).input).0,
                                        if m > 0 then k else k + 1, if m > 0 then m - 1 else policy.maxBytes - 1, 0);
    }
  }

  lemma ClimbsSays(fs: Fs, log: string, policy: Policy, line: nat, f: nat, script: seq<Fault>, steps: seq<Step>, base: Fs, k: nat, m: nat, j: nat)
    requires Climbs(fs, log, policy, line, f, script, steps, base, k, m, j)
    ensures policy.maxBytes > 0 && k <= policy.keep && m <= policy.maxBytes && j <= f && (m > 0 ==> j == 0)
  {
  }

  lemma StartsClimbing(fs: Fs, log: string, policy: Policy, line: nat, f: nat)
    requires Valid(fs) && NoFiles(fs, log, policy) && policy.maxBytes > 0 && line >= 1
    ensures Climbs(fs, log, policy, line, f, [], [], fs.(faults := []), 0, policy.maxBytes, 0)
  {
    var base := fs.(faults := []);
    NoFilesHere(fs, base, log, policy);
    NoFilesNoBytes(base, log, policy);
    NoFilesTame(base, log, policy);
    Course(policy, line, policy.maxBytes, 0, f);
    hide SizeOf, Tame, Cap, NoFiles;
    forall rest: seq<Fault> ensures LeadsAhead(fs, log, policy, [], [], base, 0, f, rest) {
      assert [] + rest == rest;
    }
  }

  /** All files hold the cap. */
  ghost predicate Full(fs: Fs, log: string, policy: Policy, cap: int) {
    && (forall i: nat | i <= policy.keep :: SizeOf(fs, log, i) == cap)
    && Length(Chronicle(fs, log, policy.keep + 1)) == (policy.keep + 1) * cap
  }

  lemma FilledIsFull(base: Fs, fs: Fs, log: string, policy: Policy, cap: nat)
    requires Filled(base, log, policy, cap, policy.keep, cap) && SameTree(base, fs)
    ensures Full(fs, log, policy, cap)
  {
    hide SizeOf, Length, Chronicle;
    forall i: nat | i <= policy.keep ensures SizeOf(fs, log, i) == cap {
      SameSizes(base, fs, log, i);
    }
    TotalOfFull(fs, log, policy.keep + 1, cap);
  }

  /** The bound is attained by all files at once: for every limit, every `keep`, children that append at
      most `line` bytes, of at least one, and every number `f` of failures in a row some run fills the log
      to exactly `keep + 1` times the cap; with `f == 0` also when nothing fails at all. */
  lemma ChildLogBoundIsAttained(fs: Fs, log: string, policy: Policy, line: nat, f: nat) returns (faults: seq<Fault>, steps: seq<Step>)
    requires Valid(fs) && NoFiles(fs, log, policy) && policy.maxBytes > 0 && line >= 1
    ensures Quiet(steps, line) && AtMostInARow(Cycles(fs.(faults := faults), log, policy, steps).1, f)
    ensures Full(Cycles(fs.(faults := faults), log, policy, steps).0, log, policy, Cap(policy, line, f))
    ensures f == 0 ==> Full(Cycles(fs.(faults := []), log, policy, steps).0, log, policy, Cap(policy, line, 0))
  {
    StartsClimbing(fs, log, policy, line, f);
    var base: Fs;
    faults, steps, base := ClimbOn(fs, log, policy, line, f, [], [], fs.(faults := []), 0, policy.maxBytes, 0);
    Course(policy, line, 0, f, f);
    assert faults + [] == faults;
    assert LeadsAhead(fs, log, policy, faults, steps, base, f, f, []);
    hide Cycles, Streak, AtMostInARow, Quiet, Tame, Filled, Full, Cap;
    FilledIsFull(base, base, log, policy, Cap(policy, line, f));
    FilledIsFull(base, base.(faults := []), log, policy, Cap(policy, line, f));
  }

  // ---------------------------------------------------------------- the documented bound

  lemma CalmCycle(fs: Fs, log: string, policy: Policy, input: Input)
    requires Tame(fs, log, policy) && fs.faults == []
    ensures var (fs', out) := RunCycle(fs, log, policy, input);
            Tame(fs', log, policy) && fs'.faults == [] && out.branch != RotationFailed
  {
    hide SecureFile, RotateIfLarge, Tame, Locked, ChildAppends;
    SecureTame(fs, log, policy, 0);
    var fs1 := SecureFile(fs, log).0;
    RotateTame(fs1, log, policy, 0);
    var fs2 := RotateIfLarge(fs1, log, policy).0;
    SecureTame(fs2, log, policy, 0);
    var fs3 := if RotateIfLarge(fs1, log, policy).1 == Ok(true) then SecureFile(fs2, log).0 else fs2;
    SpawnTame(fs3, log, policy, input);
    SpawnKeepsFaults(log, input);
  }

  lemma {:induction false} NothingFails(fs: Fs, log: string, policy: Policy, steps: seq<Step>)
    requires Tame(fs, log, policy) && fs.faults == [] && Undisturbed(steps)
    ensures var (end, outs) := Cycles(fs, log, policy, steps);
            Tame(end, log, policy) && end.faults == [] && Streak(outs) == 0 && AtMostInARow(outs, 0)
    decreases |steps|
  {
    hide RunCycle, Tame;
    if steps != [] {
      var n := |steps| - 1;
      NothingFails(fs, log, policy, steps[..n]);
      var (fs1, outs1) := Cycles(fs, log, policy, steps[..n]);
      CalmCycle(fs1, log, policy, steps[n].input);
      var outs := Cycles(fs, log, policy, steps).1;
      StreaksSnoc(outs1, outs[n], 0);
    }
  }

  lemma CapAgainstLimit(policy: Policy, line: nat, f: nat)
    requires policy.maxBytes > 0
    ensures 0 <= Cap(policy, line, f)
    ensures Cap(policy, line, f) <= policy.maxBytes <==> line == 0 || (line == 1 && f == 0)
  {
    assert (f + 1) * line == f * line + line && f * line >= 0;
    assert f > 0 && line > 0 ==> f * line >= line by {
      if f > 0 {
        assert f * line == (f - 1) * line + line && (f - 1) * line >= 0;
      }
    }
  }

  /** A log within `(keep + 1) * max_bytes`, and each of its files within `max_bytes`. */
  ghost predicate WithinLimit(fs: Fs, log: string, policy: Policy) {
    && Length(Chronicle(fs, log, policy.keep + 1)) <= (policy.keep + 1) * policy.maxBytes
    && forall i: nat | i <= policy.keep :: SizeOf(fs, log, i) <= policy.maxBytes
  }

  lemma BoundedWithinLimit(fs: Fs, log: string, policy: Policy, steps: seq<Step>, line: nat, f: nat)
    requires Valid(fs) && policy.maxBytes > 0 && NoFiles(fs, log, policy)
    requires Quiet(steps, line) && AtMostInARow(Cycles(fs, log, policy, steps).1, f) && Cap(policy, line, f) <= policy.maxBytes
    ensures WithinLimit(Cycles(fs, log, policy, steps).0, log, policy)
  {
    CapAgainstLimit(policy, line, f);
    hide Cycles, SizeOf, Length, Chronicle, NoFiles, AtMostInARow, Quiet, Valid, Cap;
    ChildLogBound(fs, log, policy, steps, line, f);
    Monotone(policy.keep + 1, Cap(policy, line, f), policy.maxBytes);
  }

  lemma FullExceedsLimit(fs: Fs, log: string, policy: Policy, cap: nat)
    requires Full(fs, log, policy, cap) && cap > policy.maxBytes
    ensures Length(Chronicle(fs, log, policy.keep + 1)) > (policy.keep + 1) * policy.maxBytes
    ensures SizeOf(fs, log, 0) > policy.maxBytes
  {
    hide SizeOf, Length, Chronicle;
    Larger(policy.keep + 1, policy.maxBytes, cap);
  }

  /** The documented bound on the child's log, which is checked only between children: over all patterns
      of failures, at most `line` bytes from each child and at most `f` failed rotations in a row, the log
      stays within `(keep + 1) * max_bytes`, and each of its files within `max_bytes`, if and only if
      children append nothing, or at most a byte and no rotation fails. */
  lemma ChildLogWithinLimitIff(fs: Fs, log: string, policy: Policy, line: nat, f: nat)
    requires Valid(fs) && NoFiles(fs, log, policy) && policy.maxBytes > 0
    ensures (forall faults, steps | Quiet(steps, line) && AtMostInARow(Cycles(fs.(faults := faults), log, policy, steps).1, f) ::
               WithinLimit(Cycles(fs.(faults := faults), log, policy, steps).0, log, policy))
       <==> line == 0 || (line == 1 && f == 0)
    ensures (forall faults, steps | Quiet(steps, line) && AtMostInARow(Cycles(fs.(faults := faults), log, policy, steps).1, f) ::
               Length(Chronicle(Cycles(fs.(faults := faults), log, policy, steps).0, log, policy.keep + 1)) <= (policy.keep + 1) * policy.maxBytes)
       <==> line == 0 || (line == 1 && f == 0)
  {
    CapAgainstLimit(policy, line, f);
    hide Cycles, SizeOf, Length, Chronicle, Quiet, AtMostInARow, NoFiles, Valid, Cap, Full;
    if line == 0 || (line == 1 && f == 0) {
      forall faults, steps | Quiet(steps, line) && AtMostInARow(Cycles(fs.(faults := faults), log, policy, steps).1, f)
        ensures WithinLimit(Cycles(fs.(faults := faults), log, policy, steps).0, log, policy) {
        AnyFaults(fs, log, policy, faults);
        BoundedWithinLimit(fs.(faults := faults), log, policy, steps, line, f);
      }
    } else {
      var faults, steps := ChildLogBoundIsAttained(fs, log, policy, line, f);
      FullExceedsLimit(Cycles(fs.(faults := faults), log, policy, steps).0, log, policy, Cap(policy, line, f));
    }
  }

  lemma AnyFaults(fs: Fs, log: string, policy: Policy, faults: seq<Fault>)
    requires Valid(fs) && NoFiles(fs, log, policy)
    ensures Valid(fs.(faults := faults)) && NoFiles(fs.(faults := faults), log, policy)
  {
    NoFilesHere(fs, fs.(faults := faults), log, policy);
  }

  /** The same when nothing fails at all. */
  lemma FaultFreeChildLogWithinLimitIff(fs: Fs, log: string, policy: Policy, line: nat)
    requires Valid(fs) && fs.faults == [] && NoFiles(fs, log, policy) && policy.maxBytes > 0
    ensures (forall steps | Quiet(steps, line) :: WithinLimit(Cycles(fs, log, policy, steps).0, log, policy)) <==> line <= 1
  {
    CapAgainstLimit(policy, line, 0);
    NoFilesTame(fs, log, policy);
    hide Cycles, SizeOf, Length, Chronicle, AtMostInARow, NoFiles, Valid, Cap, Full, Tame;
    if line <= 1 {
      forall steps | Quiet(steps, line) ensures WithinLimit(Cycles(fs, log, policy, steps).0, log, policy) {
        NothingFails(fs, log, policy, steps);
        BoundedWithinLimit(fs, log, policy, steps, line, 0);
      }
    } else {
      var _, steps := ChildLogBoundIsAttained(fs, log, policy, line, 0);
      assert fs.(faults := []) == fs;
      FullExceedsLimit(Cycles(fs, log, policy, steps).0, log, policy, Cap(policy, line, 0));
    }
  }
}
