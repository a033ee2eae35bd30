/** What the operations on one log leave alone: the other log of the directory and the lock file
    (agent-rust/src/rotation.rs, cycle.rs, platform/unix.rs). */
module Confinement {
  import opened Basics
  import opened Names
  import opened FileSystem
  import opened Rotation
  import opened Writer
  import opened Durability
  import opened Cycle

  /** `id` is a generation of `log`. */
  ghost predicate InFamily(fs: Fs, log: string, id: FileId) {
    exists j: nat :: Gen(fs, log, j) == Some(id)
  }

  /** From `a` to `b` nothing has happened outside the family of `log`, save to the file `extra`. */
  ghost predicate Confined(a: Fs, b: Fs, log: string, extra: Option<FileId>) {
    && Valid(a) && Valid(b) && b.uid == a.uid && a.files.Keys <= b.files.Keys
    && (forall n | Elsewhere(log, n) :: Lookup(b, n) == Lookup(a, n))
    && (forall id <- a.files :: InFamily(a, log, id) || extra == Some(id) || b.files[id] == a.files[id])
    && (forall id: FileId :: InFamily(b, log, id) ==> InFamily(a, log, id) || id !in a.files)
  }

  lemma ConfinedOn(a: Fs, b: Fs, c: Fs, log: string, extra: Option<FileId>)
    requires Confined(a, b, log, extra) && Confined(b, c, log, extra)
    ensures Confined(a, c, log, extra)
  {
    hide InFamily, Elsewhere, Valid;
  }

  lemma SameTreeConfined(a: Fs, b: Fs, log: string, extra: Option<FileId>)
    requires Valid(a) && SameTree(a, b)
    ensures Confined(a, b, log, extra)
  {
    hide GenName;
    forall id: FileId ensures InFamily(b, log, id) ==> InFamily(a, log, id) {
      if j: nat :| Gen(b, log, j) == Some(id) {
        assert Gen(a, log, j) == Some(id);
      }
    }
  }

  lemma SlidConfined(a: Fs, b: Fs, log: string, top: nat, k: nat, extra: Option<FileId>)
    requires Valid(a) && Valid(b) && Slid(a, b, log, top, k)
    ensures Confined(a, b, log, extra)
  {
    hide GenName;
    forall id: FileId ensures InFamily(b, log, id) ==> InFamily(a, log, id) {
      if j: nat :| Gen(b, log, j) == Some(id) {
        assert SlidGen(a, log, top, k, j) == Some(id);
      }
    }
  }

  lemma SecuredConfined(a: Fs, b: Fs, log: string, extra: Option<FileId>)
    requires Valid(a) && Valid(b) && Secured(a, b, log)
    ensures Confined(a, b, log, extra)
  {
    assert Gen(a, log, 0) == Lookup(a, log);
    assert GenName(log, 0) == log;
    forall id: FileId ensures InFamily(b, log, id) ==> InFamily(a, log, id) || id !in a.files {
      if j: nat :| Gen(b, log, j) == Some(id) {
        SecuredGens(a, b, log, j);
        assert Gen(a, log, j) == Some(id) || id == a.next;
      }
    }
    forall id | id in a.files ensures InFamily(a, log, id) || b.files[id] == a.files[id] {
      if log in a.dir && id == a.dir[log] {
        assert Gen(a, log, 0) == Some(id);
      }
    }
  }

  lemma AppendConfined(a: Fs, log: string, file: FileId, buf: Record)
    requires Valid(a)
    ensures Confined(a, Append(a, file, buf).0, log, Some(file))
  {
    hide GenName;
    var b := Append(a, file, buf).0;
    forall id: FileId ensures InFamily(b, log, id) ==> InFamily(a, log, id) {
      if j: nat :| Gen(b, log, j) == Some(id) {
        assert Gen(a, log, j) == Some(id);
      }
    }
  }

  lemma FamilyNeedsNoExtra(a: Fs, b: Fs, log: string, id: FileId, extra: Option<FileId>)
    requires Confined(a, b, log, Some(id)) && InFamily(a, log, id)
    ensures Confined(a, b, log, extra)
  {
    hide InFamily, Elsewhere, Valid;
  }

  /** A new file under the live name. */
  lemma NewFileConfined(a: Fs, b: Fs, log: string, file: File)
    requires Valid(a) && log !in a.dir
    requires b == a.(dir := a.dir[log := a.next], files := a.files[a.next := file], next := a.next + 1)
    ensures Confined(a, b, log, None)
  {
    GenNamesDistinct(log);
    assert GenName(log, 0) == log;
    hide GenName;
    forall id: FileId ensures InFamily(b, log, id) ==> InFamily(a, log, id) || id !in a.files {
      if j: nat :| Gen(b, log, j) == Some(id) {
        assert Gen(a, log, j) == Some(id) || id == a.next;
      }
    }
  }

  /** A change of the live file itself. */
  lemma LiveChangeConfined(a: Fs, b: Fs, log: string, file: File)
    requires Valid(a) && log in a.dir && b == a.(files := a.files[a.dir[log] := file])
    ensures Confined(a, b, log, None)
  {
    assert Gen(a, log, 0) == Some(a.dir[log]);
    hide GenName;
    forall id: FileId ensures InFamily(b, log, id) ==> InFamily(a, log, id) {
      if j: nat :| Gen(b, log, j) == Some(id) {
        assert Gen(a, log, j) == Some(id);
      }
    }
  }

  lemma ChildAppendsConfined(a: Fs, log: string, records: seq<Record>)
    requires Valid(a)
    ensures Confined(a, ChildAppends(a, log, records), log, None)
  {
    hide Confined;
    var b := ChildAppends(a, log, records);
    if log !in a.dir {
      NewFileConfined(a, b, log, File(Regular, a.uid, UMASKED_MODE, records));
    } else if b != a {
      LiveChangeConfined(a, b, log, b.files[a.dir[log]]);
    } else {
      SameTreeConfined(a, a, log, None);
    }
  }

  // ---------------------------------------------------------------- the operations of the agent

  lemma RotateConfined(fs: Fs, log: string, keep: nat, extra: Option<FileId>)
    requires Valid(fs)
    ensures Confined(fs, Rotate(fs, log, keep).0, log, extra)
  {
    RotateOutcome(fs, log, keep);
    hide Rotate, Confined;
    var (fs', r) := Rotate(fs, log, keep);
    var k: nat :| Slid(fs, fs', log, keep, k);
    SlidConfined(fs, fs', log, keep, k, extra);
  }

  lemma OpenHandleConfined(fs: Fs, log: string, policy: Policy)
    requires Valid(fs)
    ensures Confined(fs, OpenHandle(fs, log, policy).0, log, None)
  {
    OpenLockedOutcome(fs, log);
    hide OpenLocked, Confined;
    var fs1 := OpenLocked(fs, log).0;
    SecuredConfined(fs, fs1, log, None);
    SameTreeConfined(fs1, OpenHandle(fs, log, policy).0, log, None);
    ConfinedOn(fs, fs1, OpenHandle(fs, log, policy).0, log, None);
  }

  lemma PrepareConfined(fs: Fs, w: Handle, buf: Record)
    requires Valid(fs)
    ensures var (fs', w', attempt) := Prepare(fs, w, buf);
            Confined(fs, fs', w.log, Some(w.file)) && (w'.file == w.file || InFamily(fs', w.log, w'.file))
  {
    hide Rotate, OpenLocked, Confined, Valid;
    SameTreeConfined(fs, fs, w.log, Some(w.file));
    if Due(w, buf) {
      RotateConfined(fs, w.log, w.policy.keep, Some(w.file));
      var fs1 := Rotate(fs, w.log, w.policy.keep).0;
      ConfinedIsValid(fs, fs1, w.log, Some(w.file));
      OpenLockedOutcome(fs1, w.log);
      var (fs2, file) := OpenLocked(fs1, w.log);
      SecuredConfined(fs1, fs2, w.log, Some(w.file));
      ConfinedOn(fs, fs1, fs2, w.log, Some(w.file));
      assert file.Ok? ==> Gen(fs2, w.log, 0) == Some(file.value);
    }
  }

  lemma ConfinedIsValid(a: Fs, b: Fs, log: string, extra: Option<FileId>)
    requires Confined(a, b, log, extra)
    ensures Valid(b)
  {
  }

  /** A write to one log. */
  lemma WriteConfined(fs: Fs, w: Handle, buf: Record)
    requires Valid(fs)
    ensures Confined(fs, AfterWrite(fs, w, buf).0, w.log, Some(w.file))
  {
    PrepareConfined(fs, w, buf);
    hide Prepare, Append, Confined, InFamily;
    var (fs1, w1, _) := Prepare(fs, w, buf);
    var fs2 := Append(fs1, w1.file, buf).0;
    ConfinedIsValid(fs, fs1, w.log, Some(w.file));
    AppendConfined(fs1, w.log, w1.file, buf);
    if w1.file != w.file {
      FamilyNeedsNoExtra(fs1, fs2, w.log, w1.file, Some(w.file));
    }
    ConfinedOn(fs, fs1, fs2, w.log, Some(w.file));
  }

  lemma SecureConfined(fs: Fs, log: string)
    requires Valid(fs)
    ensures Confined(fs, SecureFile(fs, log).0, log, None)
  {
    SecureFileEffect(fs, log);
    SecuredConfined(fs, SecureFile(fs, log).0, log, None);
  }

  lemma RotateIfLargeConfined(fs: Fs, log: string, policy: Policy)
    requires Valid(fs)
    ensures Confined(fs, RotateIfLarge(fs, log, policy).0, log, None)
  {
    hide Rotate, Confined;
    var fs1 := Size(fs, log).0;
    SameTreeConfined(fs, fs1, log, None);
    RotateConfined(fs1, log, policy.keep, None);
    ConfinedOn(fs, fs1, RotateIfLarge(fs, log, policy).0, log, None) by {
      SameTreeConfined(fs1, fs1, log, None);
    }
  }

  /** A cycle on one log. */
  lemma CycleConfined(fs: Fs, log: string, policy: Policy, input: Input)
    requires Valid(fs)
    ensures Confined(fs, RunCycle(fs, log, policy, input).0, log, None)
  {
    hide SecureFile, RotateIfLarge, ChildAppends, Confined, Valid;
    var fs1 := SecureFile(fs, log).0;
    SecureConfined(fs, log);
    ConfinedIsValid(fs, fs1, log, None);
    var fs2 := RotateIfLarge(fs1, log, policy).0;
    RotateIfLargeConfined(fs1, log, policy);
    ConfinedOn(fs, fs1, fs2, log, None);
    ConfinedIsValid(fs, fs2, log, None);
    var fs3 := SecureFile(fs2, log).0;
    SecureConfined(fs2, log);
    ConfinedOn(fs, fs2, fs3, log, None);
    ConfinedIsValid(fs, fs3, log, None);
    SameTreeConfined(fs, fs, log, None);
    forall at: Fs | Valid(at) && Confined(fs, at, log, None) ensures Confined(fs, Spawn(at, log, input), log, None) {
      if input.started {
        ChildAppendsConfined(at, log, input.appended);
        ConfinedOn(fs, at, Spawn(at, log, input), log, None);
      }
    }
  }

  // ---------------------------------------------------------------- what that means for others

  /** The generations of `log` are the same files with the same content. */
  ghost predicate Untouched(a: Fs, b: Fs, log: string) {
    forall j: nat :: Gen(b, log, j) == Gen(a, log, j) && ContentOf(b, Gen(b, log, j)) == ContentOf(a, Gen(a, log, j))
  }

  /** Two logs of one directory that share no name. */
  ghost predicate Apart(log: string, other: string) {
    forall i: nat, j: nat :: GenName(log, i) != GenName(other, j)
  }

  lemma ConfinedUntouches(a: Fs, b: Fs, log: string, other: string, extra: Option<FileId>)
    requires Confined(a, b, log, extra) && Apart(log, other)
    requires extra.Some? ==> !InFamily(a, other, extra.value)
    ensures Untouched(a, b, other)
  {
    hide GenName;
    forall j: nat ensures Gen(b, other, j) == Gen(a, other, j) && ContentOf(b, Gen(b, other, j)) == ContentOf(a, Gen(a, other, j)) {
      assert Elsewhere(log, GenName(other, j));
      if id :| Gen(a, other, j) == Some(id) {
        assert InFamily(a, other, id);
        NotInBoth(a, log, other, id);
      }
    }
  }

  lemma NotInBoth(fs: Fs, log: string, other: string, id: FileId)
    requires Valid(fs) && Apart(log, other) && InFamily(fs, other, id)
    ensures !InFamily(fs, log, id)
  {
    hide GenName;
  }

  lemma {:induction false} UntouchedChronicle(a: Fs, b: Fs, log: string, n: nat)
    requires Untouched(a, b, log)
    ensures Chronicle(b, log, n) == Chronicle(a, log, n)
  {
    hide Gen, ContentOf;
    if n > 0 {
      UntouchedChronicle(a, b, log, n - 1);
      assert ContentOf(b, Gen(b, log, n - 1)) == ContentOf(a, Gen(a, log, n - 1));
    }
  }

  lemma LogsApart()
    ensures Apart(AGENT_LOG, CHILD_LOG) && Apart(CHILD_LOG, AGENT_LOG)
    ensures Elsewhere(AGENT_LOG, LOCK_FILE) && Elsewhere(CHILD_LOG, LOCK_FILE)
  {
    hide GenName;
    forall i: nat, j: nat ensures GenName(AGENT_LOG, i) != GenName(CHILD_LOG, j) {
      FamiliesDisjoint(i, j);
    }
    forall i: nat ensures GenName(AGENT_LOG, i) != LOCK_FILE && GenName(CHILD_LOG, i) != LOCK_FILE {
      FamiliesDisjoint(i, i);
    }
  }
}
