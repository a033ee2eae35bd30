/** Failures can come as late as one likes: an operation that takes place when nothing fails takes place
    in the same way ahead of any failures, once it is known how many system calls it makes. */
module LateFailures {
  import opened FileSystem
  import opened Names
  import opened Rotation
  import opened Writer
  import opened Cycle

  function Fines(k: nat): seq<Fault> {
    if k == 0 then [] else [Fine] + Fines(k - 1)
  }

  /** The same directory with `k` operations that work ahead of `rest`. */
  function Ahead(fs: Fs, k: nat, rest: seq<Fault>): Fs {
    fs.(faults := Fines(k) + rest)
  }

  lemma AheadOne(fs: Fs, k: nat, rest: seq<Fault>)
    requires k > 0
    ensures Fate(Ahead(fs, k, rest)) == Fine && Tick(Ahead(fs, k, rest)) == Ahead(fs, k - 1, rest)
  {
    assert (Fines(k) + rest)[1..] == Fines(k - 1) + rest;
  }

  lemma AheadNone(fs: Fs, rest: seq<Fault>)
    ensures Ahead(fs, 0, rest) == fs.(faults := rest)
  {
    assert [] + rest == rest;
  }

  // ---------------------------------------------------------------- single operations

  lemma NamedOpsAhead(fs: Fs, name: string, to: string, k: nat, rest: seq<Fault>)
    requires fs.faults == [] && k > 0
    ensures Remove(Ahead(fs, k, rest), name) == (Ahead(Remove(fs, name).0, k - 1, rest), Remove(fs, name).1)
    ensures Rename(Ahead(fs, k, rest), name, to) == (Ahead(Rename(fs, name, to).0, k - 1, rest), Rename(fs, name, to).1)
    ensures AssertTrusted(Ahead(fs, k, rest), name) == (Ahead(AssertTrusted(fs, name).0, k - 1, rest), AssertTrusted(fs, name).1)
    ensures Remove(fs, name).0.faults == Rename(fs, name, to).0.faults == AssertTrusted(fs, name).0.faults == []
  {
    AheadOne(fs, k, rest);
    hide Fines;
  }

  lemma FileOpsAhead(fs: Fs, name: string, create: bool, k: nat, rest: seq<Fault>)
    requires fs.faults == [] && k > 0
    ensures OpenAppend(Ahead(fs, k, rest), name, create) == (Ahead(OpenAppend(fs, name, create).0, k - 1, rest), OpenAppend(fs, name, create).1)
    ensures Tighten(Ahead(fs, k, rest), name) == (Ahead(Tighten(fs, name).0, k - 1, rest), Tighten(fs, name).1)
    ensures Size(Ahead(fs, k, rest), name) == (Ahead(Size(fs, name).0, k - 1, rest), Size(fs, name).1)
    ensures OpenAppend(fs, name, create).0.faults == Tighten(fs, name).0.faults == Size(fs, name).0.faults == []
  {
    AheadOne(fs, k, rest);
    hide Fines;
  }

  lemma AppendAhead(fs: Fs, file: FileId, buf: Record, k: nat, rest: seq<Fault>)
    requires fs.faults == [] && k > 0
    ensures Append(Ahead(fs, k, rest), file, buf) == (Ahead(Append(fs, file, buf).0, k - 1, rest), Append(fs, file, buf).1)
    ensures Append(fs, file, buf).0.faults == []
  {
    AheadOne(fs, k, rest);
    hide Fines;
  }

  // ---------------------------------------------------------------- rotation

  function ShiftOps(fs: Fs, log: string, i: nat): nat
    decreases i
  {
    if i == 0 then 0
    else if Exists(fs, RotatedName(log, i)) then
      var (fs', r) := Rename(fs, RotatedName(log, i), RotatedName(log, i + 1));
      1 + if r.Err? then 0 else ShiftOps(fs', log, i - 1)
    else ShiftOps(fs, log, i - 1)
  }

  lemma {:induction false} ShiftAhead(fs: Fs, log: string, i: nat, k: nat, rest: seq<Fault>)
    requires fs.faults == []
    ensures Shift(Ahead(fs, ShiftOps(fs, log, i) + k, rest), log, i) == (Ahead(Shift(fs, log, i).0, k, rest), Shift(fs, log, i).1)
    ensures Shift(fs, log, i).0.faults == []
    decreases i
  {
    hide RotatedName, Rename, Fines;
    if i > 0 {
      if Exists(fs, RotatedName(log, i)) {
        NamedOpsAhead(fs, RotatedName(log, i), RotatedName(log, i + 1), ShiftOps(fs, log, i) + k, rest);
        ShiftAhead(Rename(fs, RotatedName(log, i), RotatedName(log, i + 1)).0, log, i - 1, k, rest);
      } else {
        ShiftAhead(fs, log, i - 1, k, rest);
      }
    }
  }

  function RotateOps(fs: Fs, log: string, keep: nat): nat {
    if keep == 0 then 1
    else
      var (fs1, removed) := Remove(fs, RotatedName(log, keep));
      1 + if Tolerate(removed).Err? then 0
          else ShiftOps(fs1, log, keep - 1) + if Shift(fs1, log, keep - 1).1.Err? then 0 else 1
  }

  lemma RotateAhead(fs: Fs, log: string, keep: nat, k: nat, rest: seq<Fault>)
    requires fs.faults == []
    ensures Rotate(Ahead(fs, RotateOps(fs, log, keep) + k, rest), log, keep) == (Ahead(Rotate(fs, log, keep).0, k, rest), Rotate(fs, log, keep).1)
    ensures Rotate(fs, log, keep).0.faults == []
  {
    hide RotatedName, Remove, Rename, Fines, Shift, ShiftOps;
    var n := RotateOps(fs, log, keep) + k;
    if keep == 0 {
      NamedOpsAhead(fs, log, log, n, rest);
    } else {
      NamedOpsAhead(fs, RotatedName(log, keep), log, n, rest);
      var (fs1, removed) := Remove(fs, RotatedName(log, keep));
      if Tolerate(removed).Ok? {
        var (fs2, shifted) := Shift(fs1, log, keep - 1);
        ShiftAhead(fs1, log, keep - 1, k + if shifted.Err? then 0 else 1, rest);
        if shifted.Ok? {
          NamedOpsAhead(fs2, log, RotatedName(log, 1), k + 1, rest);
        }
      }
    }
  }

  function RotateIfLargeOps(fs: Fs, log: string, policy: Policy): nat {
    var (fs1, size) := Size(fs, log);
    1 + if size.Ok? && size.value >= policy.maxBytes then RotateOps(fs1, log, policy.keep) else 0
  }

  lemma RotateIfLargeAhead(fs: Fs, log: string, policy: Policy, k: nat, rest: seq<Fault>)
    requires fs.faults == []
    ensures RotateIfLarge(Ahead(fs, RotateIfLargeOps(fs, log, policy) + k, rest), log, policy)
         == (Ahead(RotateIfLarge(fs, log, policy).0, k, rest), RotateIfLarge(fs, log, policy).1)
    ensures RotateIfLarge(fs, log, policy).0.faults == []
  {
    hide Size, Rotate, RotateOps, Fines;
    FileOpsAhead(fs, log, false, RotateIfLargeOps(fs, log, policy) + k, rest);
    RotateAhead(Size(fs, log).0, log, policy.keep, k, rest);
  }

  // ---------------------------------------------------------------- securing, opening, writing

  function SecureOps(fs: Fs, name: string): nat {
    var (fs1, trusted) := AssertTrusted(fs, name);
    1 + if trusted.Err? then 0 else 1 + if OpenAppend(fs1, name, true).1.Err? then 0 else 1
  }

  lemma SecureAhead(fs: Fs, name: string, k: nat, rest: seq<Fault>)
    requires fs.faults == []
    ensures SecureFile(Ahead(fs, SecureOps(fs, name) + k, rest), name) == (Ahead(SecureFile(fs, name).0, k, rest), SecureFile(fs, name).1)
    ensures SecureFile(fs, name).0.faults == []
  {
    hide AssertTrusted, OpenAppend, Tighten, Fines;
    var n := SecureOps(fs, name) + k;
    NamedOpsAhead(fs, name, name, n, rest);
    var (fs1, trusted) := AssertTrusted(fs, name);
    if trusted.Ok? {
      FileOpsAhead(fs1, name, true, n - 1, rest);
      var (fs2, target) := OpenAppend(fs1, name, true);
      if target.Ok? {
        FileOpsAhead(fs2, name, true, n - 2, rest);
      }
    }
  }

  function OpenLockedOps(fs: Fs, log: string): nat {
    SecureOps(fs, log) + if SecureFile(fs, log).1.Err? then 0 else 1
  }

  lemma OpenLockedAhead(fs: Fs, log: string, k: nat, rest: seq<Fault>)
    requires fs.faults == []
    ensures OpenLocked(Ahead(fs, OpenLockedOps(fs, log) + k, rest), log) == (Ahead(OpenLocked(fs, log).0, k, rest), OpenLocked(fs, log).1)
    ensures OpenLocked(fs, log).0.faults == []
  {
    hide SecureFile, SecureOps, OpenAppend, Fines;
    var (fs1, secured) := SecureFile(fs, log);
    SecureAhead(fs, log, k + if secured.Err? then 0 else 1, rest);
    if secured.Ok? {
      FileOpsAhead(fs1, log, false, k + 1, rest);
    }
  }

  function OpenHandleOps(fs: Fs, log: string): nat {
    OpenLockedOps(fs, log) + if OpenLocked(fs, log).1.Err? then 0 else 1
  }

  lemma OpenHandleAhead(fs: Fs, log: string, policy: Policy, rest: seq<Fault>)
    requires fs.faults == []
    ensures var (fs', w) := OpenHandle(fs, log, policy);
            fs'.faults == [] && OpenHandle(Ahead(fs, OpenHandleOps(fs, log), rest), log, policy) == (fs'.(faults := rest), w)
  {
    hide OpenLocked, OpenLockedOps, Fines;
    var (fs1, file) := OpenLocked(fs, log);
    OpenLockedAhead(fs, log, if file.Err? then 0 else 1, rest);
    AheadNone(fs1, rest);
    if file.Ok? {
      AheadOne(fs1, 1, rest);
    }
  }

  function PrepareOps(fs: Fs, w: Handle, buf: Record): nat {
    if Due(w, buf) then
      var (fs1, rotated) := Rotate(fs, w.log, w.policy.keep);
      RotateOps(fs, w.log, w.policy.keep) + if rotated.Err? then 0 else OpenLockedOps(fs1, w.log)
    else 0
  }

  lemma PrepareAhead(fs: Fs, w: Handle, buf: Record, k: nat, rest: seq<Fault>)
    requires fs.faults == []
    ensures var (fs', w', attempt) := Prepare(fs, w, buf);
            fs'.faults == [] && Prepare(Ahead(fs, PrepareOps(fs, w, buf) + k, rest), w, buf) == (Ahead(fs', k, rest), w', attempt)
  {
    hide Rotate, RotateOps, OpenLocked, OpenLockedOps, Fines;
    if Due(w, buf) {
      var (fs1, rotated) := Rotate(fs, w.log, w.policy.keep);
      RotateAhead(fs, w.log, w.policy.keep, k + if rotated.Err? then 0 else OpenLockedOps(fs1, w.log), rest);
      if rotated.Ok? {
        OpenLockedAhead(fs1, w.log, k, rest);
      }
    }
  }

  lemma WriteAhead(fs: Fs, w: Handle, buf: Record, rest: seq<Fault>)
    requires fs.faults == []
    ensures var (fs', w', attempt, r) := AfterWrite(fs, w, buf);
            && fs'.faults == []
            && AfterWrite(Ahead(fs, PrepareOps(fs, w, buf) + 1, rest), w, buf) == (fs'.(faults := rest), w', attempt, r)
  {
    hide Prepare, PrepareOps, Append, Fines;
    PrepareAhead(fs, w, buf, 1, rest);
    var (fs1, w1, _) := Prepare(fs, w, buf);
    AppendAhead(fs1, w1.file, buf, 1, rest);
    AheadNone(Append(fs1, w1.file, buf).0, rest);
  }

  // ---------------------------------------------------------------- cycles

  function CycleOps(fs: Fs, log: string, policy: Policy): nat {
    var (fs1, secured) := SecureFile(fs, log);
    SecureOps(fs, log) +
    if secured.Err? then 0
    else
      var (fs2, rotated) := RotateIfLarge(fs1, log, policy);
      RotateIfLargeOps(fs1, log, policy) + if rotated == Ok(true) then SecureOps(fs2, log) else 0
  }

  lemma SpawnAhead(fs: Fs, log: string, input: Input, rest: seq<Fault>)
    ensures Spawn(fs.(faults := rest), log, input) == Spawn(fs, log, input).(faults := rest)
    ensures Spawn(fs, log, input).faults == fs.faults
  {
  }

  /** A cycle, but for the moment of its spawn, which sees the failures still to come. */
  lemma CycleAhead(fs: Fs, log: string, policy: Policy, input: Input, rest: seq<Fault>)
    requires fs.faults == [] && input.collected
    ensures var (fs', out) := RunCycle(fs, log, policy, input);
            var (fs'', out') := RunCycle(Ahead(fs, CycleOps(fs, log, policy), rest), log, policy, input);
            fs'.faults == [] && fs'' == fs'.(faults := rest) && out'.branch == out.branch
  {
    hide SecureFile, SecureOps, RotateIfLarge, RotateIfLargeOps, Fines, Spawn;
    var (fs1, secured) := SecureFile(fs, log);
    SecureAhead(fs, log, CycleOps(fs, log, policy) - SecureOps(fs, log), rest);
    AheadNone(fs1, rest);
    if secured.Ok? {
      var (fs2, rotated) := RotateIfLarge(fs1, log, policy);
      RotateIfLargeAhead(fs1, log, policy, if rotated == Ok(true) then SecureOps(fs2, log) else 0, rest);
      AheadNone(fs2, rest);
      var fs3 := if rotated == Ok(true) then SecureFile(fs2, log).0 else fs2;
      if rotated == Ok(true) {
        SecureAhead(fs2, log, 0, rest);
        AheadNone(fs3, rest);
      }
      SpawnAhead(fs3, log, input, rest);
    }
  }
}
