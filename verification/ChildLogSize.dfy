/** How large the child's log can get: it is checked only between children
    (agent-rust/src/cycle.rs, rotation.rs). */
module ChildLogSize {
  import opened Names
  import opened FileSystem
  import opened Rotation
  import opened Durability
  import opened Cycle
  import opened LogSizes

  /** How many of the latest rotations have failed in a row; a cycle that finds its log below the limit
      ends the streak, and one that does not get to it does not count. */
  function Streak(outs: seq<Outcome>): nat {
    if outs == [] then 0
    else match outs[|outs| - 1].branch
         case RotationFailed => Streak(outs[..|outs| - 1]) + 1
         case NotReached => Streak(outs[..|outs| - 1])
         case _ => 0
  }

  ghost predicate AtMostInARow(outs: seq<Outcome>, f: nat) {
    forall i: nat | i <= |outs| :: Streak(outs[..i]) <= f
  }

  /** Cycles that nobody disturbs, with at most `line` bytes from each child. */
  predicate Quiet(steps: seq<Step>, line: nat) {
    Undisturbed(steps) && forall i :: 0 <= i < |steps| ==> Length(steps[i].input.appended) <= line
  }

  /** The bound after `f` failures in a row, with at most `line` bytes from each child. */
  function Cap(policy: Policy, line: nat, f: nat): int {
    policy.maxBytes - 1 + (f + 1) * line
  }

  // ---------------------------------------------------------------- what one cycle does to the sizes

  lemma SpawnSizes(fs: Fs, log: string, input: Input, j: nat)
    requires Valid(fs)
    ensures j > 0 ==> SizeOf(Spawn(fs, log, input), log, j) == SizeOf(fs, log, j)
    ensures SizeOf(Spawn(fs, log, input), log, 0) <= SizeOf(fs, log, 0) + Length(input.appended)
  {
    hide Length;
    GenNamesDistinct(log);
    assert GenName(log, 0) == log;
    hide GenName;
    LengthOfNothing();
    if log in fs.dir {
      LengthConcat(Content(fs, fs.dir[log]), input.appended);
    }
    assert j > 0 ==> Gen(Spawn(fs, log, input), log, j) == Gen(fs, log, j);
  }

  lemma RotateIfLargeSizes(fs: Fs, log: string, policy: Policy, j: nat)
    requires Valid(fs)
    ensures var (fs', r) := RotateIfLarge(fs, log, policy);
            && Valid(fs') && SizeFrom(fs, fs', log, j)
            && (r == Ok(true) ==> SizeOf(fs', log, 0) == 0)
            && (r == Ok(false) ==> SizeOf(fs', log, 0) == SizeOf(fs, log, 0) && (policy.maxBytes > 0 ==> SizeOf(fs, log, 0) < policy.maxBytes))
            && (r.Err? ==> SizeOf(fs', log, 0) == SizeOf(fs, log, 0))
  {
    RotateIfLargeOutcome(fs, log, policy);
    assert Gen(fs, log, 0) == Lookup(fs, log);
    LengthOfNothing();
    hide RotateIfLarge, GenName;
    var (fs', r) := RotateIfLarge(fs, log, policy);
    if r == Ok(false) {
      SlidSelf(fs, fs', log, policy.keep);
    }
    hide SizeOf;
    var k: nat :| Slid(fs, fs', log, policy.keep, k) && (r != Ok(true) ==> k > 0) && (r == Ok(true) ==> k == 0);
    SlidSizes(fs, fs', log, policy.keep, k, j);
    SlidSizes(fs, fs', log, policy.keep, k, 0);
  }

  /** The sizes after one cycle, by what its rotation did. */
  lemma CycleSizes(fs: Fs, log: string, policy: Policy, input: Input, j: nat)
    requires Valid(fs) && policy.maxBytes > 0
    ensures var (fs', out) := RunCycle(fs, log, policy, input);
            var more := Length(input.appended);
            && Valid(fs') && (j > 0 ==> SizeFrom(fs, fs', log, j))
            && match out.branch
               case Rotated => SizeOf(fs', log, 0) <= more
               case Kept => SizeOf(fs', log, 0) <= policy.maxBytes - 1 + more
               case RotationFailed => SizeOf(fs', log, 0) <= SizeOf(fs, log, 0) + more
               case NotReached => SizeOf(fs', log, 0) == SizeOf(fs, log, 0)
  {
    hide SecureFile, RotateIfLarge, Spawn, SizeOf, Secured;
    SecureFileEffect(fs, log);
    var (fs1, secured) := SecureFile(fs, log);
    Sizes(fs, fs1, log, j);
    if secured.Ok? {
      RotateIfLargeSizes(fs1, log, policy, j);
      var (fs2, rotated) := RotateIfLarge(fs1, log, policy);
      SpawnSizes(fs2, log, input, j);
      SpawnValid(fs2, log, input);
      if rotated == Ok(true) {
        SecureFileEffect(fs2, log);
        var fs3 := SecureFile(fs2, log).0;
        Sizes(fs2, fs3, log, j);
        SpawnSizes(fs3, log, input, j);
        SpawnValid(fs3, log, input);
      }
    }
  }

  lemma Sizes(fs: Fs, fs': Fs, log: string, j: nat)
    requires Valid(fs) && Secured(fs, fs', log)
    ensures SizeOf(fs', log, j) == SizeOf(fs, log, j) && SizeOf(fs', log, 0) == SizeOf(fs, log, 0)
    ensures j > 0 ==> SizeOf(fs', log, j - 1) == SizeOf(fs, log, j - 1)
  {
    SecuredSizes(fs, fs', log, j);
    SecuredSizes(fs, fs', log, 0);
    if j > 0 {
      SecuredSizes(fs, fs', log, j - 1);
    }
  }

  // ---------------------------------------------------------------- runs

  ghost predicate Within(fs: Fs, log: string, policy: Policy, line: nat, streak: nat, f: nat) {
    && Valid(fs) && streak <= f
    && SizeOf(fs, log, 0) <= Cap(policy, line, streak)
    && forall i: nat | i <= policy.keep :: SizeOf(fs, log, i) <= Cap(policy, line, f)
  }

  lemma CapGrows(policy: Policy, line: nat, f: nat, g: nat)
    requires f <= g
    ensures Cap(policy, line, f) <= Cap(policy, line, g)
    ensures Cap(policy, line, f + 1) == Cap(policy, line, f) + line
    ensures Cap(policy, line, 0) == policy.maxBytes - 1 + line
  {
    assert (g + 1) * line == (f + 1) * line + (g - f) * line;
    assert (f + 2) * line == (f + 1) * line + line;
  }

  lemma CycleKeepsWithin(fs: Fs, log: string, policy: Policy, input: Input, line: nat, outs: seq<Outcome>, f: nat)
    requires Within(fs, log, policy, line, Streak(outs), f) && policy.maxBytes > 0 && Length(input.appended) <= line
    requires Streak(outs + [RunCycle(fs, log, policy, input).1]) <= f
    ensures var (fs', out) := RunCycle(fs, log, policy, input); Within(fs', log, policy, line, Streak(outs + [out]), f)
  {
    hide RunCycle, SizeOf, Cap;
    var (fs', out) := RunCycle(fs, log, policy, input);
    assert (outs + [out])[..|outs|] == outs;
    CapGrows(policy, line, 0, Streak(outs));
    CapGrows(policy, line, Streak(outs), f);
    CapGrows(policy, line, Streak(outs + [out]), f);
    CycleSizes(fs, log, policy, input, 0);
    forall i: nat | i <= policy.keep ensures SizeOf(fs', log, i) <= Cap(policy, line, f) {
      CycleSizes(fs, log, policy, input, i);
    }
  }

  lemma {:induction false} CyclesStayWithin(fs: Fs, log: string, policy: Policy, steps: seq<Step>, line: nat, f: nat)
    requires Within(fs, log, policy, line, 0, f) && policy.maxBytes > 0 && Quiet(steps, line)
    requires AtMostInARow(Cycles(fs, log, policy, steps).1, f)
    ensures var (end, outs) := Cycles(fs, log, policy, steps); Within(end, log, policy, line, Streak(outs), f)
    decreases |steps|
  {
    hide RunCycle, Within;
    if steps != [] {
      var n := |steps| - 1;
      var (fs1, outs1) := Cycles(fs, log, policy, steps[..n]);
      var outs := Cycles(fs, log, policy, steps).1;
      assert outs == outs1 + [outs[n]];
      forall i: nat | i <= n ensures Streak(outs1[..i]) <= f {
        assert outs1[..i] == outs[..i];
      }
      assert outs[..n + 1] == outs;
      CyclesStayWithin(fs, log, policy, steps[..n], line, f);
      CycleKeepsWithin(fs1, log, policy, steps[n].input, line, outs1, f);
    }
  }

  /** Over every run that starts without files: if each child appends at most `line` bytes and at
      most `f` rotations in a row fail, no file exceeds `max_bytes - 1 + (f + 1) * line` bytes, the cap,
      and the whole log stays within `keep + 1` times that. */
  lemma ChildLogBound(fs: Fs, log: string, policy: Policy, steps: seq<Step>, line: nat, f: nat)
    requires Valid(fs) && policy.maxBytes > 0 && NoFiles(fs, log, policy)
    requires Quiet(steps, line) && AtMostInARow(Cycles(fs, log, policy, steps).1, f)
    ensures var end := Cycles(fs, log, policy, steps).0;
            && (forall i: nat | i <= policy.keep :: SizeOf(end, log, i) <= Cap(policy, line, f))
            && Length(Chronicle(end, log, policy.keep + 1)) <= (policy.keep + 1) * Cap(policy, line, f)
  {
    CapGrows(policy, line, 0, f);
    NoFilesNoBytes(fs, log, policy);
    hide GenName, SizeOf, Length, Cap, Cycles, Chronicle;
    CyclesStayWithin(fs, log, policy, steps, line, f);
    TotalAtMost(Cycles(fs, log, policy, steps).0, log, policy.keep + 1, Cap(policy, line, f));
  }
}
