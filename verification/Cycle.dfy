/** One collection cycle and runs of cycles (agent-rust/src/cycle.rs): secure the child log, rotate
    it between children, secure the new one, spawn. */
module Cycle {
  import opened Basics
  import opened Names
  import opened FileSystem
  import opened Disks
  import opened Rotation
  import opened Durability

  // ---------------------------------------------------------------- what the code does

  /** What is decided outside the cycle: whether sampling works, whether the child starts, and what
      it appends to its log. */
  datatype Input = Input(collected: bool, started: bool, appended: seq<Record>)

  datatype Branch = NotReached | Kept | Rotated | RotationFailed

  /** The directory at the moment of the spawn, if there is one. */
  datatype Outcome = Outcome(branch: Branch, spawn: Option<Fs>, ok: bool)

  const UMASKED_MODE := 420 // 0o644, what the child's own creation of a file gets under the usual umask

  /** The child opens its log by name, creating it if it is missing, and appends. */
  function ChildAppends(fs: Fs, log: string, records: seq<Record>): Fs {
    if log !in fs.dir then
      fs.(dir := fs.dir[log := fs.next],
          files := fs.files[fs.next := File(Regular, fs.uid, UMASKED_MODE, records)],
          next := fs.next + 1)
    else if fs.dir[log] in fs.files && !fs.files[fs.dir[log]].kind.Directory? then
      var id := fs.dir[log];
      fs.(files := fs.files[id := fs.files[id].(content := fs.files[id].content + records)])
    else fs
  }

  function Spawn(fs: Fs, log: string, input: Input): Fs {
    if input.started then ChildAppends(fs, log, input.appended) else fs
  }

  function RunCycle(fs: Fs, log: string, policy: Policy, input: Input): (Fs, Outcome) {
    if !input.collected then (fs, Outcome(NotReached, None, false))
    else
      var (fs1, secured) := SecureFile(fs, log);
      if secured.Err? then (fs1, Outcome(NotReached, None, false))
      else
        var (fs2, rotated) := RotateIfLarge(fs1, log, policy);
        match rotated
        case Ok(false) => (Spawn(fs2, log, input), Outcome(Kept, Some(fs2), true))
        case Err(_) => (Spawn(fs2, log, input), Outcome(RotationFailed, Some(fs2), true))
        case Ok(true) =>
          var (fs3, again) := SecureFile(fs2, log);
          if again.Err? then (fs3, Outcome(Rotated, None, false))
          else (Spawn(fs3, log, input), Outcome(Rotated, Some(fs3), true))
  }

  method RunChild(disk: Disk, log: string, input: Input)
    modifies disk
    ensures disk.State() == Spawn(old(disk.State()), log, input)
  {
    if !input.started { return; }
    if log !in disk.dir {
      var id := disk.next;
      disk.dir, disk.next := disk.dir[log := id], id + 1;
      disk.files := disk.files[id := File(Regular, disk.uid, UMASKED_MODE, input.appended)];
    } else if disk.dir[log] in disk.files && !disk.files[disk.dir[log]].kind.Directory? {
      var id := disk.dir[log];
      disk.files := disk.files[id := disk.files[id].(content := disk.files[id].content + input.appended)];
    }
  }

  method RunCycleWith(disk: Disk, log: string, policy: Policy, input: Input) returns (out: Outcome)
    modifies disk
    ensures (disk.State(), out) == RunCycle(old(disk.State()), log, policy, input)
  {
    if !input.collected { return Outcome(NotReached, None, false); }
    var secured := disk.SecureFile(log);
    if secured.Err? { return Outcome(NotReached, None, false); }
    var rotated := RotateLogIfLarge(disk, log, policy);
    var branch := Kept;
    match rotated {
      case Ok(false) =>
      case Ok(true) =>
        branch := Rotated;
        var again := disk.SecureFile(log);
        if again.Err? { return Outcome(Rotated, None, false); }
      case Err(_) =>
        branch := RotationFailed;
    }
    out := Outcome(branch, Some(disk.State()), true);
    RunChild(disk, log, input);
  }

  // ---------------------------------------------------------------- one cycle

  lemma SlidSelf(fs: Fs, fs': Fs, log: string, top: nat)
    requires SameTree(fs, fs')
    ensures Slid(fs, fs', log, top, top + 1)
  {
  }

  /** `rotate_if_large` either leaves everything alone (and a file it measured is below the limit),
      or rotates, or fails with the live file in place. */
  ghost predicate RotatedIfLarge(fs: Fs, fs': Fs, log: string, policy: Policy, r: Result<bool>) {
    && Valid(fs')
    && match r
       case Ok(false) => SameTree(fs, fs') && (log in fs.dir ==> Length(Content(fs, fs.dir[log])) < policy.maxBytes)
       case Ok(true) => Slid(fs, fs', log, policy.keep, 0)
       case Err(_) => exists k: nat :: 1 <= k <= policy.keep + 1 && Slid(fs, fs', log, policy.keep, k)
  }

  lemma RotateIfLargeOutcome(fs: Fs, log: string, policy: Policy)
    requires Valid(fs)
    ensures var (fs', r) := RotateIfLarge(fs, log, policy); RotatedIfLarge(fs, fs', log, policy, r)
  {
    var (fs1, size) := Size(fs, log);
    SlidSelf(fs, fs1, log, policy.keep);
    if size.Ok? && size.value >= policy.maxBytes {
      RotateOutcome(fs1, log, policy.keep);
      hide Rotate, GenName;
      var (fs2, r) := Rotate(fs1, log, policy.keep);
      SlidFrom(fs, fs1, fs2, log, policy.keep);
    }
  }

  lemma SlidFrom(a: Fs, b: Fs, c: Fs, log: string, top: nat)
    requires SameTree(a, b)
    ensures forall k: nat | Slid(b, c, log, top, k) :: Slid(a, c, log, top, k)
  {
    hide GenName;
    forall k: nat | Slid(b, c, log, top, k) ensures Slid(a, c, log, top, k) {
      forall j: nat ensures Gen(c, log, j) == SlidGen(a, log, top, k, j) {
        assert Gen(c, log, j) == SlidGen(b, log, top, k, j);
      }
    }
  }

  lemma LiveStaysLocked(fs: Fs, fs': Fs, log: string, policy: Policy, r: Result<bool>)
    requires Locked(fs, log) && RotatedIfLarge(fs, fs', log, policy, r) && r != Ok(true)
    ensures Locked(fs', log)
  {
    if r.Err? {
      var k: nat :| 1 <= k <= policy.keep + 1 && Slid(fs, fs', log, policy.keep, k);
      assert Gen(fs', log, 0) == SlidGen(fs, log, policy.keep, k, 0);
    }
  }

  lemma SpawnValid(fs: Fs, log: string, input: Input)
    requires Valid(fs)
    ensures Valid(Spawn(fs, log, input))
  {
  }

  /** Whichever branch the rotation took, the child is spawned with its log existing, ours, a
      regular file and of mode 0600. */
  lemma LockedAtSpawn(fs: Fs, log: string, policy: Policy, input: Input)
    requires Valid(fs)
    ensures var (fs', out) := RunCycle(fs, log, policy, input);
            Valid(fs') && (out.spawn.Some? ==> Locked(out.spawn.value, log))
  {
    hide SecureFile, RotateIfLarge, Spawn, Locked, Secured, Slid;
    SecureFileEffect(fs, log);
    var (fs1, secured) := SecureFile(fs, log);
    if secured.Ok? {
      RotateIfLargeOutcome(fs1, log, policy);
      var (fs2, rotated) := RotateIfLarge(fs1, log, policy);
      SpawnValid(fs2, log, input);
      if rotated == Ok(true) {
        SecureFileEffect(fs2, log);
        SpawnValid(SecureFile(fs2, log).0, log, input);
      } else {
        LiveStaysLocked(fs1, fs2, log, policy, rotated);
      }
    }
  }

  /** A cycle whose first trust check refuses spawns nothing and changes no file. */
  lemma RefusedCycleChangesNothing(fs: Fs, log: string, policy: Policy, input: Input)
    requires AssertTrusted(fs, log).1.Err? || !input.collected
    ensures var (fs', out) := RunCycle(fs, log, policy, input);
            out == Outcome(NotReached, None, false) && SameTree(fs, fs')
  {
    hide RotateIfLarge;
    if input.collected {
      RefusalChangesNothing(fs, log);
    }
  }

  /** When nothing fails by itself, `rotate_if_large` rotates exactly a log that is there and has reached
      the limit, and fails exactly if a directory is then in the way of the deletion. */
  lemma FaultFreeRotateIfLarge(fs: Fs, log: string, policy: Policy)
    requires Valid(fs) && fs.faults == []
    ensures var (fs', r) := RotateIfLarge(fs, log, policy);
            var large := log in fs.dir && Length(ContentOf(fs, Gen(fs, log, 0))) >= policy.maxBytes;
            && (r == Ok(false) <==> !large)
            && (r.Err? <==> large && IsDirectory(fs, Gen(fs, log, policy.keep)))
            && (r.Ok? ==> fs'.faults == [])
  {
    RotateOutcome(fs, log, policy.keep);
    hide Length;
  }

  /** When nothing fails by itself, a cycle spawns its child if and only if sampling worked and the
      log could be secured: in particular a rotation that fails never stops it. Which branch it
      takes depends on the size of the log and on what is at generation `keep` alone. */
  lemma FaultFreeCycleSpawnsIff(fs: Fs, log: string, policy: Policy, input: Input)
    requires Valid(fs) && fs.faults == []
    ensures var out := RunCycle(fs, log, policy, input).1;
            var large := Length(ContentOf(fs, Gen(fs, log, 0))) >= policy.maxBytes;
            var blocked := IsDirectory(fs, Gen(fs, log, policy.keep));
            && (out.spawn.Some? <==> input.collected && Securable(fs, log)) && (out.ok <==> out.spawn.Some?)
            && (out.spawn.Some? ==> out.branch == if !large then Kept else if blocked then RotationFailed else Rotated)
  {
    FaultFreeSecureSucceedsIff(fs, log);
    SecureFileEffect(fs, log);
    hide SecureFile, RotateIfLarge, Spawn, Slid, Length, GenName;
    var (fs1, secured) := SecureFile(fs, log);
    if secured.Ok? {
      SecuredGens(fs, fs1, log, 0);
      SecuredGens(fs, fs1, log, policy.keep);
      FaultFreeRotateIfLarge(fs1, log, policy);
      RotateIfLargeOutcome(fs1, log, policy);
      var (fs2, rotated) := RotateIfLarge(fs1, log, policy);
      if rotated == Ok(true) {
        assert Slid(fs1, fs2, log, policy.keep, 0);
        LiveGone(fs1, fs2, log, policy.keep);
        FaultFreeSecureSucceedsIff(fs2, log);
      }
    }
  }

  lemma LiveGone(fs: Fs, fs': Fs, log: string, top: nat)
    requires Slid(fs, fs', log, top, 0)
    ensures log !in fs'.dir
  {
    assert Gen(fs', log, 0) == SlidGen(fs, log, top, 0, 0);
  }

  /** Under any failures: a cycle fails, and then spawns nothing, if and only if sampling or one of the two
      attempts to secure the log failed. A log that was not rotated or could not be is no reason. */
  lemma CycleFailsIff(fs: Fs, log: string, policy: Policy, input: Input)
    ensures var (fs1, secured) := SecureFile(fs, log);
            var (fs2, rotated) := RotateIfLarge(fs1, log, policy);
            var out := RunCycle(fs, log, policy, input).1;
            && (out.ok <==> out.spawn.Some?)
            && (!out.ok <==> !input.collected || secured.Err? || (rotated == Ok(true) && SecureFile(fs2, log).1.Err?))
            && (out.branch == NotReached <==> !input.collected || secured.Err?)
            && (out.branch == RotationFailed <==> input.collected && secured.Ok? && rotated.Err?)
            && (out.branch == Rotated <==> input.collected && secured.Ok? && rotated == Ok(true))
  {
    hide SecureFile, RotateIfLarge, Spawn;
    var (fs1, secured) := SecureFile(fs, log);
    var (fs2, rotated) := RotateIfLarge(fs1, log, policy);
    if input.collected && secured.Ok? {
      assert rotated.Ok? ==> rotated == Ok(rotated.value);
    }
  }

  // ---------------------------------------------------------------- runs of cycles

  /** What others may do to the live child log between two cycles. */
  datatype Act = Leave | Delete | Chmod(mode: nat) | Replace(file: File)

  function Disturb(fs: Fs, log: string, act: Act): Fs {
    match act
    case Leave => fs
    case Delete => fs.(dir := fs.dir - {log})
    case Chmod(mode) =>
      if log in fs.dir && fs.dir[log] in fs.files then
        fs.(files := fs.files[fs.dir[log] := fs.files[fs.dir[log]].(mode := mode)])
      else fs
    case Replace(file) => fs.(dir := fs.dir[log := fs.next], files := fs.files[fs.next := file], next := fs.next + 1)
  }

  datatype Step = Step(act: Act, input: Input)

  predicate Undisturbed(steps: seq<Step>) {
    forall i :: 0 <= i < |steps| ==> steps[i].act == Leave
  }

  function DisturbedCycle(fs: Fs, log: string, policy: Policy, step: Step): (Fs, Outcome) {
    RunCycle(Disturb(fs, log, step.act), log, policy, step.input)
  }

  /** The directory after a run, and the outcome of each of its cycles. */
  function Cycles(fs: Fs, log: string, policy: Policy, steps: seq<Step>): (end: (Fs, seq<Outcome>))
    ensures |end.1| == |steps|
    decreases |steps|
  {
    if steps == [] then (fs, [])
    else
      var n := |steps| - 1;
      var (fs1, outs) := Cycles(fs, log, policy, steps[..n]);
      var (fs2, out) := DisturbedCycle(fs1, log, policy, steps[n]);
      (fs2, outs + [out])
  }

  lemma CyclesSnoc(fs: Fs, log: string, policy: Policy, steps: seq<Step>, step: Step)
    ensures var (end, outs) := Cycles(fs, log, policy, steps);
            Cycles(fs, log, policy, steps + [step]) == (DisturbedCycle(end, log, policy, step).0, outs + [DisturbedCycle(end, log, policy, step).1])
  {
    assert (steps + [step])[..|steps|] == steps;
  }

  /** Every rotated generation is locked, save those that were there before. */
  ghost predicate GenerationsLocked(fs: Fs, log: string, before: set<FileId>) {
    forall j: nat | j > 0 :: GenerationLocked(fs, log, before, j)
  }

  ghost predicate GenerationLocked(fs: Fs, log: string, before: set<FileId>, j: nat) {
    Gen(fs, log, j).Some? ==> Gen(fs, log, j).value in before || LockedFile(fs, Gen(fs, log, j).value)
  }

  lemma SecureKeepsGenerations(fs: Fs, fs': Fs, log: string, before: set<FileId>)
    requires Valid(fs) && Secured(fs, fs', log) && GenerationsLocked(fs, log, before)
    ensures GenerationsLocked(fs', log, before)
  {
    GenNamesDistinct(log);
    forall j: nat | j > 0 ensures GenerationLocked(fs', log, before, j) {
      SecuredGens(fs, fs', log, j);
      assert GenerationLocked(fs, log, before, j);
      assert GenName(log, 0) == log;
    }
  }

  lemma SlideKeepsGenerations(fs: Fs, fs': Fs, log: string, before: set<FileId>, top: nat, k: nat)
    requires Locked(fs, log) && Slid(fs, fs', log, top, k) && GenerationsLocked(fs, log, before)
    ensures GenerationsLocked(fs', log, before)
  {
    assert Gen(fs, log, 0) == Some(fs.dir[log]);
    hide GenName;
    forall j: nat | j > 0 ensures GenerationLocked(fs', log, before, j) {
      assert Gen(fs', log, j) == SlidGen(fs, log, top, k, j);
      assert GenerationLocked(fs, log, before, j);
      if j > 1 {
        assert GenerationLocked(fs, log, before, j - 1);
      }
    }
  }

  /** Changes to the live name or the file behind it leave the generations alone. */
  lemma LiveChangeKeepsGenerations(fs: Fs, fs': Fs, log: string, before: set<FileId>)
    requires Valid(fs) && GenerationsLocked(fs, log, before) && fs'.uid == fs.uid
    requires forall n: string | n != log :: Lookup(fs', n) == Lookup(fs, n)
    requires forall id <- fs.files :: id in fs'.files
    requires forall id <- fs.files :: (log in fs.dir && id == fs.dir[log]) || LockedFile(fs, id) == LockedFile(fs', id)
    ensures GenerationsLocked(fs', log, before)
  {
    GenNamesDistinct(log);
    assert GenName(log, 0) == log;
    hide GenName;
    forall j: nat | j > 0 ensures GenerationLocked(fs', log, before, j) {
      assert GenerationLocked(fs, log, before, j);
    }
  }

  lemma DisturbKeepsGenerations(fs: Fs, log: string, act: Act, before: set<FileId>)
    requires Valid(fs) && GenerationsLocked(fs, log, before)
    ensures Valid(Disturb(fs, log, act)) && GenerationsLocked(Disturb(fs, log, act), log, before)
  {
    hide GenerationsLocked;
    LiveChangeKeepsGenerations(fs, Disturb(fs, log, act), log, before);
  }

  lemma SpawnKeepsGenerations(fs: Fs, log: string, input: Input, before: set<FileId>)
    requires Valid(fs) && GenerationsLocked(fs, log, before)
    ensures GenerationsLocked(Spawn(fs, log, input), log, before)
  {
    hide GenerationsLocked;
    LiveChangeKeepsGenerations(fs, Spawn(fs, log, input), log, before);
  }

  lemma CycleKeepsGenerations(fs: Fs, log: string, policy: Policy, input: Input, before: set<FileId>)
    requires Valid(fs) && GenerationsLocked(fs, log, before)
    ensures GenerationsLocked(RunCycle(fs, log, policy, input).0, log, before)
  {
    hide SecureFile, RotateIfLarge, GenerationsLocked, Spawn, Slid;
    SecureFileEffect(fs, log);
    var (fs1, secured) := SecureFile(fs, log);
    SecureKeepsGenerations(fs, fs1, log, before);
    if secured.Ok? {
      RotateIfLargeOutcome(fs1, log, policy);
      var (fs2, rotated) := RotateIfLarge(fs1, log, policy);
      SlidSelf(fs1, fs1, log, policy.keep);
      if rotated == Ok(false) {
        SlidSelf(fs1, fs2, log, policy.keep);
      }
      var k: nat :| Slid(fs1, fs2, log, policy.keep, k);
      SlideKeepsGenerations(fs1, fs2, log, before, policy.keep, k);
      SpawnKeepsGenerations(fs2, log, input, before);
      if rotated == Ok(true) {
        SecureFileEffect(fs2, log);
        var fs3 := SecureFile(fs2, log).0;
        SecureKeepsGenerations(fs2, fs3, log, before);
        SpawnKeepsGenerations(fs3, log, input, before);
      }
    }
  }

  predicate SpawnedLocked(out: Outcome, log: string) {
    out.spawn.Some? ==> Locked(out.spawn.value, log)
  }

  lemma {:induction false} RunStaysLocked(fs: Fs, log: string, policy: Policy, steps: seq<Step>, before: set<FileId>)
    requires Valid(fs) && GenerationsLocked(fs, log, before)
    ensures var (end, outs) := Cycles(fs, log, policy, steps);
            && Valid(end) && GenerationsLocked(end, log, before)
            && forall i :: 0 <= i < |outs| ==> SpawnedLocked(outs[i], log)
    decreases |steps|
  {
    hide RunCycle, Disturb, GenerationsLocked, Locked, Valid;
    if steps != [] {
      var n := |steps| - 1;
      RunStaysLocked(fs, log, policy, steps[..n], before);
      var fs1 := Cycles(fs, log, policy, steps[..n]).0;
      var fs2 := Disturb(fs1, log, steps[n].act);
      DisturbKeepsGenerations(fs1, log, steps[n].act, before);
      LockedAtSpawn(fs2, log, policy, steps[n].input);
      CycleKeepsGenerations(fs2, log, policy, steps[n].input, before);
    }
  }

  /** Over every run, whatever fails and whatever others do to the live child log between cycles:
      each spawn finds it locked, and every generation the run created is locked at the end. */
  lemma LockedAtEverySpawn(fs: Fs, log: string, policy: Policy, steps: seq<Step>)
    requires Valid(fs)
    ensures var (end, outs) := Cycles(fs, log, policy, steps);
            && (forall i :: 0 <= i < |outs| ==> SpawnedLocked(outs[i], log))
            && forall j: nat | j > 0 && Gen(end, log, j).Some? ::
                 LockedFile(end, Gen(end, log, j).value) || exists i: nat :: i > 0 && Gen(fs, log, i) == Gen(end, log, j)
  {
    var before := set n <- fs.dir | exists i: nat :: i > 0 && GenName(log, i) == n :: fs.dir[n];
    hide GenName, RunCycle, Disturb, Cycles;
    forall j: nat | j > 0 ensures GenerationLocked(fs, log, before, j) {
      assert GenName(log, j) == GenName(log, j);
    }
    RunStaysLocked(fs, log, policy, steps, before);
    var end := Cycles(fs, log, policy, steps).0;
    forall j: nat | j > 0 && Gen(end, log, j).Some?
      ensures LockedFile(end, Gen(end, log, j).value) || exists i: nat :: i > 0 && Gen(fs, log, i) == Gen(end, log, j) {
      assert GenerationLocked(end, log, before, j);
      if !LockedFile(end, Gen(end, log, j).value) {
        var n :| n in fs.dir && (exists i: nat :: i > 0 && GenName(log, i) == n) && fs.dir[n] == Gen(end, log, j).value;
        var i: nat :| i > 0 && GenName(log, i) == n;
        assert Gen(fs, log, i) == Gen(end, log, j);
      }
    }
  }
}
