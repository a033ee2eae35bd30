/** Size-based rotation (agent-rust/src/rotation.rs): shifting the generations of one log. */
module Rotation {
  import opened Basics
  import opened Names
  import opened FileSystem
  import opened Disks

  datatype Policy = Policy(maxBytes: nat, keep: nat)

  // ---------------------------------------------------------------- what the code does

  /** "Not found" is not an error for a deletion or for the rename of the live file. */
  function Tolerate(r: Status): Status {
    if r == Err(NotFound) then Ok(()) else r
  }

  /** The descending loop, from generation `i` down to 1. */
  function Shift(fs: Fs, log: string, i: nat): (Fs, Status)
    decreases i
  {
    if i == 0 then (fs, Ok(()))
    else if Exists(fs, RotatedName(log, i)) then
      var (fs', r) := Rename(fs, RotatedName(log, i), RotatedName(log, i + 1));
      if r.Err? then (fs', r) else Shift(fs', log, i - 1)
    else Shift(fs, log, i - 1)
  }

  function Rotate(fs: Fs, log: string, keep: nat): (Fs, Status) {
    if keep == 0 then
      var (fs', r) := Remove(fs, log);
      (fs', Tolerate(r))
    else
      var (fs1, removed) := Remove(fs, RotatedName(log, keep));
      if Tolerate(removed).Err? then (fs1, removed)
      else
        var (fs2, shifted) := Shift(fs1, log, keep - 1);
        if shifted.Err? then (fs2, shifted)
        else
          var (fs3, moved) := Rename(fs2, log, RotatedName(log, 1));
          (fs3, Tolerate(moved))
  }

  /** `rotate_if_large`; the result says whether the log was rotated. */
  function RotateIfLarge(fs: Fs, log: string, policy: Policy): (Fs, Result<bool>) {
    var (fs1, size) := Size(fs, log);
    if size == Err(NotFound) then (fs1, Ok(false))
    else if size.Err? then (fs1, Err(size.error))
    else if size.value < policy.maxBytes then (fs1, Ok(false))
    else
      var (fs2, r) := Rotate(fs1, log, policy.keep);
      (fs2, if r.Err? then Err(r.error) else Ok(true))
  }

  method RotateLog(disk: Disk, log: string, keep: nat) returns (r: Status)
    modifies disk
    ensures (disk.State(), r) == Rotate(old(disk.State()), log, keep)
  {
    if keep == 0 {
      r := disk.Remove(log);
      return Tolerate(r);
    }
    r := disk.Remove(RotatedName(log, keep));
    if r.Err? && r.error != NotFound { return; }
    ghost var start := disk.State();
    var index := keep - 1;
    while index > 0
      invariant 0 <= index < keep
      invariant Shift(disk.State(), log, index) == Shift(start, log, keep - 1)
    {
      if RotatedName(log, index) in disk.dir {
        r := disk.Rename(RotatedName(log, index), RotatedName(log, index + 1));
        if r.Err? { return; }
      }
      index := index - 1;
    }
    r := disk.Rename(log, RotatedName(log, 1));
    return Tolerate(r);
  }

  method RotateLogIfLarge(disk: Disk, log: string, policy: Policy) returns (r: Result<bool>)
    modifies disk
    ensures (disk.State(), r) == RotateIfLarge(old(disk.State()), log, policy)
  {
    var size := disk.Size(log);
    if size == Err(NotFound) { return Ok(false); }
    if size.Err? { return Err(size.error); }
    if size.value < policy.maxBytes { return Ok(false); }
    var rotated := RotateLog(disk, log, policy.keep);
    if rotated.Err? { return Err(rotated.error); }
    return Ok(true);
  }

  // ---------------------------------------------------------------- generations

  /** The inode of generation `i`. */
  function Gen(fs: Fs, log: string, i: nat): Option<FileId> {
    Lookup(fs, GenName(log, i))
  }

  /** No generation exists yet. */
  ghost predicate NoFiles(fs: Fs, log: string, policy: Policy) {
    forall i: nat | i <= policy.keep :: Gen(fs, log, i) == None
  }

  function ContentOf(fs: Fs, id: Option<FileId>): seq<Record> {
    match id case None => [] case Some(i) => Content(fs, i)
  }

  /** The log read from generation `n - 1` down to the live file, oldest record first. */
  function Chronicle(fs: Fs, log: string, n: nat): seq<Record> {
    if n == 0 then [] else ContentOf(fs, Gen(fs, log, n - 1)) + Chronicle(fs, log, n - 1)
  }

  /** What generation `j` is once the hole at `top` has been moved down to `k`. */
  function SlidGen(fs: Fs, log: string, top: nat, k: nat, j: nat): Option<FileId> {
    if j < k || j > top then Gen(fs, log, j)
    else if j == k then None
    else Gen(fs, log, j - 1)
  }

  /** Generation `top` is gone, `k .. top - 1` have moved up by one and `k` is absent; nothing else
      in the directory has changed and no inode has. With `k == top + 1` nothing has happened. */
  ghost predicate Slid(before: Fs, after: Fs, log: string, top: nat, k: nat) {
    && k <= top + 1
    && after.uid == before.uid && after.files == before.files && after.next == before.next
    && (forall j: nat :: Gen(after, log, j) == SlidGen(before, log, top, k, j))
    && (forall n | Elsewhere(log, n) :: Lookup(after, n) == Lookup(before, n))
  }

  /** Faults are the only thing an operation may have used up. */
  ghost predicate SameTree(a: Fs, b: Fs) {
    a.uid == b.uid && a.dir == b.dir && a.files == b.files && a.next == b.next
  }

  lemma NoFilesHere(fs: Fs, fs': Fs, log: string, policy: Policy)
    requires NoFiles(fs, log, policy) && SameTree(fs, fs')
    ensures NoFiles(fs', log, policy)
  {
    hide GenName;
    forall i: nat | i <= policy.keep ensures Gen(fs', log, i) == None {
      assert Gen(fs, log, i) == None;
    }
  }

  // ---------------------------------------------------------------- one step, then the loop

  /** A rename into a hole, if there is something to rename. */
  lemma MovesUp(fs: Fs, log: string, i: nat)
    requires Valid(fs) && Gen(fs, log, i + 1) == None && Rename(fs, GenName(log, i), GenName(log, i + 1)).1.Ok?
    ensures var fs' := Rename(fs, GenName(log, i), GenName(log, i + 1)).0; Valid(fs') && Slid(fs, fs', log, i + 1, i)
  {
    GenNamesDistinct(log);
    hide GenName;
    var fs' := Rename(fs, GenName(log, i), GenName(log, i + 1)).0;
    forall j: nat ensures Gen(fs', log, j) == SlidGen(fs, log, i + 1, i, j) {
    }
  }

  lemma StaysPut(fs: Fs, fs': Fs, log: string, i: nat)
    requires SameTree(fs, fs') && Gen(fs, log, i + 1) == None
    ensures Slid(fs, fs', log, i + 1, i + 1)
    ensures Gen(fs, log, i) == None ==> Slid(fs, fs', log, i + 1, i)
  {
    hide GenName;
  }

  /** Renaming generation `i` into the hole at `i + 1`, if it exists. A failure leaves the hole
      where it was; without faults there is none, because the target is never there. */
  lemma MoveUp(fs: Fs, log: string, i: nat)
    requires Valid(fs) && Gen(fs, log, i + 1) == None
    ensures var (fs', r) := Rename(fs, GenName(log, i), GenName(log, i + 1));
            && Valid(fs') && (r.Err? && r.error != NotFound ==> Slid(fs, fs', log, i + 1, i + 1))
            && (Tolerate(r).Ok? ==> Slid(fs, fs', log, i + 1, i))
            && (fs.faults == [] ==> Tolerate(r).Ok? && fs'.faults == [])
            && (Exists(fs, GenName(log, i)) ==> r != Err(NotFound))
  {
    hide Slid, GenName;
    var (fs', r) := Rename(fs, GenName(log, i), GenName(log, i + 1));
    if r.Ok? {
      MovesUp(fs, log, i);
    } else {
      StaysPut(fs, fs', log, i);
    }
  }

  /** Moving the hole from `top` to `m` and then from `m` to `k` moves it from `top` to `k`. */
  lemma SlideOn(fs: Fs, mid: Fs, after: Fs, log: string, top: nat, m: nat, k: nat)
    requires k <= m <= top && Slid(fs, mid, log, top, m) && Slid(mid, after, log, m, k)
    ensures Slid(fs, after, log, top, k)
  {
    forall j: nat ensures Gen(after, log, j) == SlidGen(fs, log, top, k, j) {
      assert Gen(after, log, j) == SlidGen(mid, log, m, k, j);
      assert Gen(mid, log, j) == SlidGen(fs, log, top, m, j);
      if j > 0 {
        assert Gen(mid, log, j - 1) == SlidGen(fs, log, top, m, j - 1);
      }
    }
  }

  /** The loop ends with the hole at 1, or stops at the first rename that fails with the hole just
      above the generation that could not be moved. */
  ghost predicate Shifted(before: Fs, after: Fs, log: string, top: nat, r: Status) {
    && Valid(after)
    && (r.Ok? ==> Slid(before, after, log, top, 1))
    && (r.Err? ==> r != Err(NotFound) && exists k: nat :: 2 <= k <= top && Slid(before, after, log, top, k))
    && (before.faults == [] ==> r.Ok? && after.faults == [])
  }

  lemma ShiftedOn(fs: Fs, mid: Fs, after: Fs, log: string, i: nat, r: Status)
    requires i > 0 && Slid(fs, mid, log, i + 1, i) && (fs.faults == [] ==> mid.faults == []) && Shifted(mid, after, log, i, r)
    ensures Shifted(fs, after, log, i + 1, r)
  {
    hide Slid;
    if r.Ok? {
      SlideOn(fs, mid, after, log, i + 1, i, 1);
    } else {
      var k: nat :| 2 <= k <= i && Slid(mid, after, log, i, k);
      SlideOn(fs, mid, after, log, i + 1, i, k);
    }
  }

  lemma {:induction false} ShiftOutcome(fs: Fs, log: string, i: nat)
    requires Valid(fs) && Gen(fs, log, i + 1) == None
    ensures var (fs', r) := Shift(fs, log, i); Shifted(fs, fs', log, i + 1, r)
    decreases i
  {
    if i == 0 {
      StaysPut(fs, fs, log, 0);
    } else {
      hide Slid, RotatedName, SlidGen;
      MoveUp(fs, log, i);
      StaysPut(fs, fs, log, i);
      var (fs1, moved) := Rename(fs, RotatedName(log, i), RotatedName(log, i + 1));
      var mid := if Exists(fs, RotatedName(log, i)) then fs1 else fs;
      if mid == fs || moved.Ok? {
        SlidHole(fs, mid, log, i + 1, i);
        ShiftOutcome(mid, log, i - 1);
        var (fs', r) := Shift(mid, log, i - 1);
        ShiftedOn(fs, mid, fs', log, i, r);
      }
    }
  }

  lemma SlidHole(a: Fs, b: Fs, log: string, top: nat, k: nat)
    requires Slid(a, b, log, top, k) && k <= top
    ensures Gen(b, log, k) == None
  {
    assert Gen(b, log, k) == SlidGen(a, log, top, k, k);
  }

  /** Deleting generation `top` opens the hole there. */
  lemma OpenHole(fs: Fs, log: string, top: nat)
    requires Valid(fs)
    ensures var (fs', r) := Remove(fs, GenName(log, top));
            && Valid(fs')
            && (Tolerate(r).Ok? ==> Slid(fs, fs', log, top, top))
            && (Tolerate(r).Err? ==> Slid(fs, fs', log, top, top + 1))
            && (fs.faults == [] && !IsDirectory(fs, Gen(fs, log, top)) ==> Tolerate(r).Ok? && fs'.faults == [])
  {
    GenNamesDistinct(log);
    hide GenName;
  }

  predicate IsDirectory(fs: Fs, id: Option<FileId>) {
    id.Some? && id.value in fs.files && fs.files[id.value].kind.Directory?
  }

  // ---------------------------------------------------------------- rotation as a whole

  /** The whole effect of a rotation. On success the hole is at 0: the live file is gone, generation
      `i + 1` is the old generation `i`, and the file at `keep` is no longer there. On failure the
      hole is somewhere above the live file, or nothing has happened. */
  ghost predicate Rotated(before: Fs, after: Fs, log: string, keep: nat, r: Status) {
    && Valid(after)
    && (r.Ok? ==> Slid(before, after, log, keep, 0))
    && (r.Err? ==> exists k: nat :: 1 <= k <= keep + 1 && Slid(before, after, log, keep, k))
    && (before.faults == [] && !IsDirectory(before, Gen(before, log, keep)) ==> r.Ok? && after.faults == [])
  }

  lemma RotateOutcome(fs: Fs, log: string, keep: nat)
    requires Valid(fs)
    ensures var (fs', r) := Rotate(fs, log, keep); Rotated(fs, fs', log, keep, r)
  {
    OpenHole(fs, log, keep);
    var (fs1, removed) := Remove(fs, GenName(log, keep));
    if keep > 0 && Tolerate(removed).Ok? {
      assert Gen(fs1, log, keep) == SlidGen(fs, log, keep, keep, keep);
      ShiftOutcome(fs1, log, keep - 1);
      var (fs2, shifted) := Shift(fs1, log, keep - 1);
      if shifted.Err? {
        var k: nat :| 2 <= k <= keep && Slid(fs1, fs2, log, keep, k);
        SlideOn(fs, fs1, fs2, log, keep, keep, k);
      } else {
        SlideOn(fs, fs1, fs2, log, keep, keep, 1);
        assert Gen(fs2, log, 1) == SlidGen(fs, log, keep, 1, 1);
        MoveUp(fs2, log, 0);
        var (fs3, moved) := Rename(fs2, log, RotatedName(log, 1));
        SlideOn(fs, fs2, fs3, log, keep, 1, if Tolerate(moved).Ok? then 0 else 1);
      }
    }
  }

  /** Any error leaves the live file in place, with its content. */
  lemma FailedRotationKeepsLiveFile(fs: Fs, log: string, keep: nat)
    requires Valid(fs) && Rotate(fs, log, keep).1.Err?
    ensures var fs' := Rotate(fs, log, keep).0;
            Lookup(fs', log) == Lookup(fs, log) && fs'.files == fs.files
  {
    RotateOutcome(fs, log, keep);
    var fs' := Rotate(fs, log, keep).0;
    var k: nat :| 1 <= k <= keep + 1 && Slid(fs, fs', log, keep, k);
    assert Gen(fs', log, 0) == SlidGen(fs, log, keep, k, 0);
  }

  lemma SlideMovesUpByOne(fs: Fs, fs': Fs, log: string, top: nat, k: nat, j: nat)
    requires Slid(fs, fs', log, top, k) && j != top
    ensures Gen(fs, log, j).Some? ==> Gen(fs', log, j) == Gen(fs, log, j) || Gen(fs', log, j + 1) == Gen(fs, log, j)
    ensures j > top ==> Gen(fs', log, j) == Gen(fs, log, j)
  {
    assert Gen(fs', log, j) == SlidGen(fs, log, top, k, j);
    assert Gen(fs', log, j + 1) == SlidGen(fs, log, top, k, j + 1);
  }

  /** No rename overwrites a file: whether it succeeds or not, a rotation unlinks at most the file
      at index `keep`; every other generation is where it was or one place up, so order is kept. */
  lemma RotateUnlinksAtMostOldest(fs: Fs, log: string, keep: nat, fs': Fs, r: Status, j: nat)
    requires Valid(fs) && (fs', r) == Rotate(fs, log, keep) && j != keep
    ensures Gen(fs, log, j).Some? ==> Gen(fs', log, j) == Gen(fs, log, j) || Gen(fs', log, j + 1) == Gen(fs, log, j)
    ensures j > keep ==> Gen(fs', log, j) == Gen(fs, log, j)
    ensures fs'.files == fs.files
  {
    RotateOutcome(fs, log, keep);
    var k: nat :| k <= keep + 1 && Slid(fs, fs', log, keep, k);
    SlideMovesUpByOne(fs, fs', log, keep, k, j);
  }

  /** Rotating one log of the directory touches neither the other log's family nor the lock file. */
  lemma RotateTouchesOwnFamilyOnly(fs: Fs, keep: nat, i: nat)
    requires Valid(fs)
    ensures var fs' := Rotate(fs, AGENT_LOG, keep).0;
            Gen(fs', CHILD_LOG, i) == Gen(fs, CHILD_LOG, i) && Lookup(fs', LOCK_FILE) == Lookup(fs, LOCK_FILE)
    ensures var fs' := Rotate(fs, CHILD_LOG, keep).0;
            Gen(fs', AGENT_LOG, i) == Gen(fs, AGENT_LOG, i) && Lookup(fs', LOCK_FILE) == Lookup(fs, LOCK_FILE)
  {
    RotateOutcome(fs, AGENT_LOG, keep);
    RotateOutcome(fs, CHILD_LOG, keep);
    forall j: nat ensures GenName(AGENT_LOG, j) != GenName(CHILD_LOG, i) && GenName(CHILD_LOG, j) != GenName(AGENT_LOG, i)
                       && GenName(AGENT_LOG, j) != LOCK_FILE && GenName(CHILD_LOG, j) != LOCK_FILE {
      FamiliesDisjoint(j, i);
      FamiliesDisjoint(i, j);
    }
    assert Elsewhere(AGENT_LOG, GenName(CHILD_LOG, i)) && Elsewhere(AGENT_LOG, LOCK_FILE);
    assert Elsewhere(CHILD_LOG, GenName(AGENT_LOG, i)) && Elsewhere(CHILD_LOG, LOCK_FILE);
  }

  // ---------------------------------------------------------------- contents

  lemma {:induction false} ChronicleBelow(a: Fs, b: Fs, log: string, top: nat, k: nat, n: nat)
    requires Slid(a, b, log, top, k) && n <= k
    ensures Chronicle(b, log, n) == Chronicle(a, log, n)
    decreases n
  {
    if n > 0 {
      assert Gen(b, log, n - 1) == SlidGen(a, log, top, k, n - 1);
      ChronicleBelow(a, b, log, top, k, n - 1);
    }
  }

  lemma {:induction false} ChronicleAbove(a: Fs, b: Fs, log: string, top: nat, k: nat, n: nat)
    requires Slid(a, b, log, top, k) && k <= n <= top
    ensures Chronicle(b, log, n + 1) == Chronicle(a, log, n)
    decreases n
  {
    assert Gen(b, log, n) == SlidGen(a, log, top, k, n);
    if n == k {
      ChronicleBelow(a, b, log, top, k, n);
    } else {
      ChronicleAbove(a, b, log, top, k, n - 1);
    }
  }

  /** Conservation: what a slide removes from the log is exactly the content of generation `top`. */
  lemma SlideConserves(a: Fs, b: Fs, log: string, top: nat, k: nat)
    requires Slid(a, b, log, top, k)
    ensures Chronicle(a, log, top + 1)
         == (if k <= top then ContentOf(a, Gen(a, log, top)) else []) + Chronicle(b, log, top + 1)
  {
    if k <= top {
      ChronicleAbove(a, b, log, top, k, top);
    } else {
      ChronicleBelow(a, b, log, top, k, top + 1);
    }
  }
}
