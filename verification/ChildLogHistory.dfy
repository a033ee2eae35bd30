/** What the child's log keeps over runs of cycles (agent-rust/src/cycle.rs, rotation.rs): the child
    opens it by name, after it has been secured, so no failure can make it lose a line. */
module ChildLogHistory {
  import opened Basics
  import opened Names
  import opened FileSystem
  import opened Rotation
  import opened Durability
  import opened Cycle

  /** The records a cycle adds. */
  function Added(out: Outcome, input: Input): seq<Record> {
    if out.spawn.Some? && input.started then input.appended else []
  }

  function AllAdded(outs: seq<Outcome>, steps: seq<Step>): seq<Record>
    requires |outs| == |steps|
    decreases |steps|
  {
    if steps == [] then []
    else
      var n := |steps| - 1;
      AllAdded(outs[..n], steps[..n]) + Added(outs[n], steps[n].input)
  }

  lemma SuffixOfConcat(a: seq<Record>, b: seq<Record>)
    ensures IsSuffix(b, a + b)
  {
    assert (a + b)[|a|..] == b;
  }

  /** Securing and rotating can only take whole old generations from the front of the log. */
  lemma RotationKeepsSuffix(fs: Fs, fs': Fs, log: string, policy: Policy, r: Result<bool>)
    requires RotatedIfLarge(fs, fs', log, policy, r)
    ensures IsSuffix(Chronicle(fs', log, policy.keep + 1), Chronicle(fs, log, policy.keep + 1))
  {
    hide GenName, IsSuffix, Chronicle;
    if r == Ok(false) {
      SlidSelf(fs, fs', log, policy.keep);
    }
    var k: nat :| Slid(fs, fs', log, policy.keep, k);
    SlideConserves(fs, fs', log, policy.keep, k);
    SuffixOfConcat(if k <= policy.keep then ContentOf(fs, Gen(fs, log, policy.keep)) else [], Chronicle(fs', log, policy.keep + 1));
  }

  /** A child that finds its log adds to the end of it. */
  lemma SpawnAddsToEnd(fs: Fs, log: string, input: Input, n: nat)
    requires Valid(fs) && Locked(fs, log) && n > 0
    ensures Chronicle(Spawn(fs, log, input), log, n) == Chronicle(fs, log, n) + (if input.started then input.appended else [])
  {
    assert Gen(fs, log, 0) == Some(fs.dir[log]);
    hide GenName;
    if input.started {
      var id := fs.dir[log];
      assert Newest(fs, log, id, n, 0);
      AppendedChronicle(fs, Spawn(fs, log, input), log, id, input.appended, n, 0, n);
    }
  }

  /** One cycle, whatever fails in it: the log stays a suffix of everything appended, and what this
      cycle's child appended is its end. */
  lemma CycleKeepsSuffix(fs: Fs, log: string, policy: Policy, input: Input, history: seq<Record>)
    requires Valid(fs) && IsSuffix(Chronicle(fs, log, policy.keep + 1), history)
    ensures var (fs', out) := RunCycle(fs, log, policy, input);
            var added := Added(out, input);
            && Valid(fs') && IsSuffix(Chronicle(fs', log, policy.keep + 1), history + added)
            && IsSuffix(added, Chronicle(fs', log, policy.keep + 1))
  {
    hide SecureFile, RotateIfLarge, Spawn, Chronicle, Locked, Secured, IsSuffix;
    var n := policy.keep + 1;
    var (fs', out) := RunCycle(fs, log, policy, input);
    var added := Added(out, input);
    LockedAtSpawn(fs, log, policy, input);
    SecureFileEffect(fs, log);
    var (fs1, secured) := SecureFile(fs, log);
    SecuredChronicle(fs, fs1, log, n);
    RotateIfLargeOutcome(fs1, log, policy);
    var (fs2, rotated) := RotateIfLarge(fs1, log, policy);
    RotationKeepsSuffix(fs1, fs2, log, policy, rotated);
    SecureFileEffect(fs2, log);
    var fs3 := SecureFile(fs2, log).0;
    SecuredChronicle(fs2, fs3, log, n);
    var at := if !input.collected then fs else if secured.Err? then fs1 else if rotated == Ok(true) then fs3 else fs2;
    WholeIsSuffix(Chronicle(fs, log, n));
    assert Valid(at) && IsSuffix(Chronicle(at, log, n), Chronicle(fs, log, n));
    if out.spawn.Some? {
      assert out.spawn == Some(at) && fs' == Spawn(at, log, input);
      SpawnAddsToEnd(at, log, input, n);
    } else {
      assert fs' == at && Chronicle(at, log, n) + [] == Chronicle(at, log, n);
    }
    assert Chronicle(fs', log, n) == Chronicle(at, log, n) + added;
    SuffixGrows(Chronicle(at, log, n), Chronicle(fs, log, n), history, added);
    SuffixOfConcat(Chronicle(at, log, n), added);
  }

  /** Over every run of cycles and every pattern of failures the child's log, read from generation
      `keep` down to the live file, is a suffix of what it held at first followed by everything the
      children have appended. */
  lemma {:induction false} ChildLogIsSuffixOfHistory(fs: Fs, log: string, policy: Policy, steps: seq<Step>)
    requires Valid(fs) && Undisturbed(steps)
    ensures var (end, outs) := Cycles(fs, log, policy, steps);
            && Valid(end)
            && IsSuffix(Chronicle(end, log, policy.keep + 1), Chronicle(fs, log, policy.keep + 1) + AllAdded(outs, steps))
    decreases |steps|
  {
    hide RunCycle, Added, Chronicle, IsSuffix, Valid;
    var old' := Chronicle(fs, log, policy.keep + 1);
    if steps == [] {
      assert old' + [] == old';
      WholeIsSuffix(old');
    } else {
      var n := |steps| - 1;
      var init := steps[..n];
      ChildLogIsSuffixOfHistory(fs, log, policy, init);
      var (fs1, outs1) := Cycles(fs, log, policy, init);
      var (end, outs) := Cycles(fs, log, policy, steps);
      assert outs[..n] == outs1;
      CycleKeepsSuffix(fs1, log, policy, steps[n].input, old' + AllAdded(outs1, init));
      assert old' + AllAdded(outs, steps) == old' + AllAdded(outs1, init) + Added(outs[n], steps[n].input);
    }
  }
}
