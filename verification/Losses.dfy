/** When the rotating writer can lose a line and when it can forget to retry
    (agent-rust/src/rotation.rs): conditions that can be checked before the write, and runs from a
    freshly opened writer in which it happens. */
module Losses {
  import opened Basics
  import opened Names
  import opened FileSystem
  import opened Rotation
  import opened Writer
  import opened Durability
  import opened Accounting

  // ---------------------------------------------------------------- where the handle's file is

  /** The first generation from `i` to `keep` that is the handle's file, or `keep + 1`. */
  function FirstFrom(fs: Fs, w: Handle, i: nat): nat
    decreases w.policy.keep + 1 - i
  {
    if i > w.policy.keep then w.policy.keep + 1
    else if Gen(fs, w.log, i) == Some(w.file) then i
    else FirstFrom(fs, w, i + 1)
  }

  function Place(fs: Fs, w: Handle): nat {
    FirstFrom(fs, w, 0)
  }

  lemma {:induction false} PlaceFrom(fs: Fs, w: Handle, h: nat, i: nat)
    requires Newest(fs, w.log, w.file, Files(w), h) && i <= h
    ensures FirstFrom(fs, w, i) == h
    decreases h - i
  {
    hide GenName;
    if i < h {
      PlaceFrom(fs, w, h, i + 1);
    }
  }

  /** In every state of a run, everything newer than the handle's file is empty. */
  lemma PlaceOfRun(run: Run)
    requires Intact(run)
    ensures Newest(run.fs, run.w.log, run.w.file, Files(run.w), Place(run.fs, run.w)) && Place(run.fs, run.w) <= run.failed
  {
    hide Newest, IsSuffix;
    var h: nat :| h <= run.failed && Newest(run.fs, run.w.log, run.w.file, Files(run.w), h);
    PlaceFrom(run.fs, run.w, h, 0);
  }

  // ---------------------------------------------------------------- when no failure can lose a line

  /** What the write gets to disk is the new end of the log. */
  ghost predicate KeepsLine(fs: Fs, w: Handle, buf: Record) {
    IsSuffix(Landed(Fate(Prepare(fs, w, buf).0), buf), Chronicle(AfterWrite(fs, w, buf).0, w.log, Files(w)))
  }

  lemma SuffixOfAppended(s: seq<Record>, more: seq<Record>)
    ensures IsSuffix(more, s + more)
  {
    assert (s + more)[|s|..] == more;
  }

  /** A write that cannot lose its line, whatever fails. */
  lemma SafePlaceKeeps(fs: Fs, w: Handle, buf: Record, h: nat)
    requires Sound(fs, w) && Newest(fs, w.log, w.file, Files(w), h)
    requires h < w.policy.keep || (h == w.policy.keep && !Due(w, buf))
    ensures KeepsLine(fs, w, buf)
  {
    hide GenName, AfterRotateNow, Append, Chronicle, Landed, IsSuffix, Newest;
    PrepareOutcome(fs, w, buf, h);
    var (fs1, w1, attempt) := Prepare(fs, w, buf);
    if attempt == Done {
      FreshIsNewest(fs1, w1);
    }
    var h1: nat :| h1 < Files(w) && Newest(fs1, w.log, w1.file, Files(w), h1);
    var more := Landed(Fate(fs1), buf);
    AppendShows(fs1, w1, h1, buf, AfterWrite(fs, w, buf).0, more);
    SuffixOfAppended(Chronicle(fs1, w.log, Files(w)), more);
  }

  /** A line appended to a file that no name leads to is lost. */
  lemma UnlinkedLoses(fs: Fs, w: Handle, buf: Record, fs1: Fs, attempt: Attempt)
    requires Prepare(fs, w, buf) == (fs1, w, attempt) && attempt != Done && fs1.faults == [] && buf != []
    requires Sound(fs1, w) && Newest(fs1, w.log, w.file, Files(w), Files(w))
    ensures !KeepsLine(fs, w, buf) && AfterWrite(fs, w, buf).3.Ok?
    ensures Chronicle(AfterWrite(fs, w, buf).0, w.log, Files(w)) == []
  {
    hide GenName, AfterRotateNow, Chronicle;
    var fs' := Append(fs1, w.file, buf).0;
    AppendShows(fs1, w, Files(w), buf, fs', [buf]);
    NothingNewer(fs', w.log, w.file, Files(w), Files(w), Files(w));
  }

  /** With the first operation failing the loop renames nothing. */
  lemma {:induction false} ShiftFails(fs: Fs, log: string, i: nat)
    requires fs.faults == [Fail(0)]
    ensures Shift(fs, log, i) == (fs, Ok(())) || Shift(fs, log, i) == (fs.(faults := []), Err(Io))
    decreases i
  {
    hide RotatedName;
    if i > 0 {
      assert fs.faults[1..] == [];
      ShiftFails(fs, log, i - 1);
    }
  }

  /** The losing faults: the deletion of the oldest generation works and the next operation fails. */
  lemma DeletesAndFails(fs: Fs, w: Handle, buf: Record, fs1: Fs)
    requires Due(w, buf) && fs.faults == [Fine, Fail(0)]
    requires (fs1, Ok(())) == Remove(fs, GenName(w.log, w.policy.keep))
    ensures Prepare(fs, w, buf) == (fs1.(faults := []), w, Failed)
  {
    var log, keep := w.log, w.policy.keep;
    assert fs.faults[1..] == [Fail(0)] && fs1.faults[1..] == [];
    hide RotatedName;
    if keep > 0 {
      ShiftFails(fs1, log, keep - 1);
    }
  }

  lemma SameTreeNewest(a: Fs, b: Fs, log: string, file: FileId, n: nat, h: nat)
    requires SameTree(a, b) && Newest(a, log, file, n, h)
    ensures Newest(b, log, file, n, h)
  {
    hide GenName;
    forall i: nat ensures Gen(b, log, i) == Gen(a, log, i) && ContentOf(b, Gen(b, log, i)) == ContentOf(a, Gen(a, log, i)) {
    }
  }

  /** The handle's file is the oldest generation, and the write wants to rotate. */
  lemma OldestCanLose(fs: Fs, w: Handle, buf: Record)
    requires Sound(fs, w) && Newest(fs, w.log, w.file, Files(w), w.policy.keep) && Due(w, buf) && buf != []
    requires fs.faults == [Fine, Fail(0)]
    ensures !KeepsLine(fs, w, buf) && AfterWrite(fs, w, buf).3.Ok? && Prepare(fs, w, buf).2 == Failed
    ensures Chronicle(AfterWrite(fs, w, buf).0, w.log, Files(w)) == []
  {
    var keep := w.policy.keep;
    assert Gen(fs, w.log, keep) == Some(w.file);
    OpenHole(fs, w.log, keep);
    var fs1 := Remove(fs, GenName(w.log, keep)).0;
    assert Remove(fs, GenName(w.log, keep)).1 == Ok(());
    hide Remove, GenName, KeepsLine, AfterRotateNow, Chronicle, Due;
    NewestSlid(fs, fs1, w.log, keep, keep, w.file, keep);
    DeletesAndFails(fs, w, buf, fs1);
    var fs2 := fs1.(faults := []);
    SameTreeNewest(fs1, fs2, w.log, w.file, Files(w), Files(w));
    UnlinkedLoses(fs, w, buf, fs2, Failed);
  }

  /** The handle's file has no name, and the rotation, if one is due, fails at once. */
  lemma UnnamedCanLose(fs: Fs, w: Handle, buf: Record)
    requires Sound(fs, w) && Newest(fs, w.log, w.file, Files(w), Files(w)) && buf != []
    requires fs.faults == if Due(w, buf) then [Fail(0)] else []
    ensures !KeepsLine(fs, w, buf)
  {
    var fs1 := fs.(faults := []);
    assert Due(w, buf) ==> fs.faults[1..] == [];
    assert Prepare(fs, w, buf) == (fs1, w, if Due(w, buf) then Failed else NotDue);
    hide GenName, KeepsLine, AfterRotateNow, Due;
    SameTreeNewest(fs, fs1, w.log, w.file, Files(w), Files(w));
    UnlinkedLoses(fs, w, buf, fs1, if Due(w, buf) then Failed else NotDue);
  }

  /** "Rather than losing lines": whatever fails, what a write gets to disk is the new end of the log, if
      and only if before it the handle's file has a name below the oldest generation's, or that name
      itself and the write is not due to rotate. */
  lemma NeverLosesLineIff(fs: Fs, w: Handle, buf: Record)
    requires Sound(fs, w) && Newest(fs, w.log, w.file, Files(w), Place(fs, w)) && buf != []
    ensures (forall faults :: KeepsLine(fs.(faults := faults), w, buf))
       <==> Place(fs, w) < w.policy.keep || (Place(fs, w) == w.policy.keep && !Due(w, buf))
  {
    hide KeepsLine, Place, Due;
    var h := Place(fs, w);
    forall faults: seq<Fault> ensures Sound(fs.(faults := faults), w) && Newest(fs.(faults := faults), w.log, w.file, Files(w), h) {
      SameTreeNewest(fs, fs.(faults := faults), w.log, w.file, Files(w), h);
    }
    hide Newest, Sound;
    if h < w.policy.keep || (h == w.policy.keep && !Due(w, buf)) {
      forall faults ensures KeepsLine(fs.(faults := faults), w, buf) {
        SafePlaceKeeps(fs.(faults := faults), w, buf, h);
      }
    } else if h == w.policy.keep {
      OldestCanLose(fs.(faults := [Fine, Fail(0)]), w, buf);
    } else {
      NewestWithin(fs, w.log, w.file, Files(w), h);
      UnnamedCanLose(fs.(faults := if Due(w, buf) then [Fail(0)] else []), w, buf);
    }
  }

  // ---------------------------------------------------------------- a run that loses a line

  /** Generation `h` is the handle's file and there is no other. */
  ghost predicate Alone(fs: Fs, w: Handle, h: nat) {
    forall j: nat | j <= w.policy.keep :: Gen(fs, w.log, j) == if j == h then Some(w.file) else None
  }

  lemma AloneIsNewest(fs: Fs, w: Handle, h: nat)
    requires Alone(fs, w, h) && h <= w.policy.keep
    ensures Newest(fs, w.log, w.file, Files(w), h)
  {
    hide GenName;
  }

  lemma SecuredAlone(a: Fs, b: Fs, log: string, policy: Policy, w: Handle)
    requires Valid(a) && NoFiles(a, log, policy) && Secured(a, b, log) && w.log == log && w.policy == policy
    requires Gen(b, log, 0) == Some(w.file)
    ensures Alone(b, w, 0)
  {
    hide GenName, Secured, Valid;
    forall j: nat | j <= policy.keep ensures Gen(b, log, j) == if j == 0 then Some(w.file) else None {
      assert Gen(a, log, j) == None;
      SecuredGens(a, b, log, j);
    }
  }

  lemma SameTreeAlone(a: Fs, b: Fs, w: Handle, h: nat)
    requires Alone(a, w, h) && b.dir == a.dir
    ensures Alone(b, w, h)
  {
    hide GenName;
    forall j: nat | j <= w.policy.keep ensures Gen(b, w.log, j) == if j == h then Some(w.file) else None {
      assert Gen(a, w.log, j) == if j == h then Some(w.file) else None;
    }
  }

  lemma SlidAlone(a: Fs, b: Fs, w: Handle, h: nat)
    requires Alone(a, w, h) && h < w.policy.keep && Slid(a, b, w.log, w.policy.keep, 0)
    ensures Alone(b, w, h + 1)
  {
    hide GenName;
    forall j: nat | j <= w.policy.keep ensures Gen(b, w.log, j) == if j == h + 1 then Some(w.file) else None {
      assert Gen(b, w.log, j) == SlidGen(a, w.log, w.policy.keep, 0, j);
    }
  }

  /** Opening a writer on a log without files, with five operations that work. */
  lemma OpensAlone(fs: Fs, log: string, policy: Policy, rest: seq<Fault>)
    requires Valid(fs) && NoFiles(fs, log, policy) && fs.faults == [Fine, Fine, Fine, Fine, Fine] + rest
    ensures var (fs', w) := OpenHandle(fs, log, policy);
            && w.Ok? && w.value.log == log && w.value.policy == policy && w.value.size == 0
            && fs'.faults == rest && Sound(fs', w.value) && Alone(fs', w.value, 0)
  {
    assert Gen(fs, log, 0) == None;
    OpensScripted(fs, log, [Fine] + rest);
    OpenLockedOutcome(fs, log);
    OpenIntact(fs, log, policy);
    hide OpenLocked, GenName;
    var fs1 := OpenLocked(fs, log).0;
    assert fs1.faults[1..] == rest;
    var (fs', w) := OpenHandle(fs, log, policy);
    assert SameTree(fs1, fs');
    SecuredContent(fs, fs1, log);
    assert Gen(fs1, log, 0) == Some(w.value.file);
    hide Secured, Alone, NoFiles, Valid, Gen;
    SecuredAlone(fs, fs1, log, policy, w.value);
    SameTreeAlone(fs1, fs', w.value, 0);
  }

  lemma OpensScripted(fs: Fs, log: string, rest: seq<Fault>)
    requires log !in fs.dir && fs.faults == [Fine, Fine, Fine, Fine] + rest
    ensures var (fs', r) := OpenLocked(fs, log); r.Ok? && fs'.faults == rest
  {
    var f1, f2, f3 := [Fine, Fine, Fine] + rest, [Fine, Fine] + rest, [Fine] + rest;
    assert fs.faults[1..] == f1 && f1[1..] == f2 && f2[1..] == f3 && f3[1..] == rest;
  }

  lemma SecuredContent(a: Fs, b: Fs, log: string)
    requires Valid(a) && Secured(a, b, log) && log !in a.dir && log in b.dir
    ensures Length(Content(b, b.dir[log])) == 0
  {
  }

  lemma {:induction false} ShiftNone(fs: Fs, log: string, i: nat)
    requires forall j: nat | 1 <= j <= i :: !Exists(fs, GenName(log, j))
    ensures Shift(fs, log, i) == (fs, Ok(()))
    decreases i
  {
    hide RotatedName;
    if i > 0 {
      assert !Exists(fs, GenName(log, i));
      ShiftNone(fs, log, i - 1);
    }
  }

  /** A loop that meets a single generation. */
  lemma {:induction false} ShiftOne(fs: Fs, log: string, i: nat, h: nat, rest: seq<Fault>)
    requires 1 <= h <= i && fs.faults == [Fine] + rest && !Exists(fs, GenName(log, h + 1))
    requires forall j: nat | 1 <= j <= i :: Exists(fs, GenName(log, j)) <==> j == h
    ensures var (fs', r) := Shift(fs, log, i); r.Ok? && fs'.faults == rest && (!Exists(fs, log) ==> !Exists(fs', log))
    decreases i
  {
    GenNamesDistinct(log);
    assert GenName(log, 0) == log;
    assert Exists(fs, GenName(log, h)) && fs.faults[1..] == rest;
    hide RotatedName;
    if i > h {
      assert !Exists(fs, GenName(log, i));
      ShiftOne(fs, log, i - 1, h, rest);
    } else {
      var fs1 := Rename(fs, GenName(log, h), GenName(log, h + 1)).0;
      forall j: nat | 1 <= j <= h - 1 ensures !Exists(fs1, GenName(log, j)) {
        assert !Exists(fs, GenName(log, j));
      }
      ShiftNone(fs1, log, h - 1);
    }
  }

  /** The operations of a rotation that moves the only generation `h` up. */
  function RotationOps(h: nat): seq<Fault> {
    if h == 0 then [Fine, Fine] else [Fine, Fine, Fine]
  }

  lemma RotatesAlone(fs: Fs, w: Handle, h: nat, rest: seq<Fault>)
    requires Valid(fs) && Alone(fs, w, h) && h < w.policy.keep && fs.faults == RotationOps(h) + rest
    ensures var (fs', r) := Rotate(fs, w.log, w.policy.keep); r.Ok? && fs'.faults == rest
  {
    var log, keep := w.log, w.policy.keep;
    assert GenName(log, 0) == log && GenName(log, 1) == RotatedName(log, 1) && GenName(log, keep) == RotatedName(log, keep);
    forall j: nat | j <= keep ensures Exists(fs, GenName(log, j)) <==> j == h {
      assert Gen(fs, log, j) == if j == h then Some(w.file) else None;
    }
    hide GenName, RotatedName;
    var fs1 := Tick(fs);
    assert Remove(fs, GenName(log, keep)) == (fs1, Err(NotFound));
    assert forall j: nat :: Exists(fs1, GenName(log, j)) == Exists(fs, GenName(log, j));
    if h == 0 {
      assert fs.faults[1..] == [Fine] + rest && ([Fine] + rest)[1..] == rest;
      ShiftNone(fs1, log, keep - 1);
      assert !Exists(fs1, GenName(log, 1));
    } else {
      assert fs.faults[1..] == [Fine] + ([Fine] + rest) && ([Fine] + rest)[1..] == rest;
      ShiftOne(fs1, log, keep - 1, h, [Fine] + rest);
    }
  }

  /** A line longer than the limit. */
  function Oversize(policy: Policy): (r: Record)
    ensures |r| == policy.maxBytes + 1
  {
    seq(policy.maxBytes + 1, i => 0)
  }

  /** What is to come when the handle's file is generation `h`: rotations that work and reopenings that
      fail until it is the oldest generation, then a rotation that stops after the deletion. */
  function Ageing(keep: nat, h: nat): seq<Fault>
    decreases keep - h
  {
    if h >= keep then [Fine, Fail(0)] else RotationOps(h) + ([Fail(0), Fine] + Ageing(keep, h + 1))
  }

  /** After `h` rotations in a row whose reopening failed. */
  ghost predicate Aged(run: Run, log: string, policy: Policy, h: nat) {
    && Sound(run.fs, run.w) && run.w.log == log && run.w.policy == policy && run.w.size > policy.maxBytes
    && Alone(run.fs, run.w, h) && run.fs.faults == Ageing(policy.keep, h) && run.failed == h <= policy.keep
  }

  /** A rotation that works, followed by a reopening that fails at its first operation. */
  lemma ReopenFails(fs: Fs, w: Handle, buf: Record, rest: seq<Fault>)
    requires Due(w, buf) && Rotate(fs, w.log, w.policy.keep).1.Ok?
    requires Rotate(fs, w.log, w.policy.keep).0.faults == [Fail(0)] + rest
    ensures Prepare(fs, w, buf) == (Rotate(fs, w.log, w.policy.keep).0.(faults := rest), w, Failed)
  {
    hide Rotate;
    assert ([Fail(0)] + rest)[1..] == rest;
  }

  lemma AgesPrepare(fs: Fs, w: Handle, h: nat, buf: Record, rest: seq<Fault>) returns (fs': Fs)
    requires Sound(fs, w) && Alone(fs, w, h) && h < w.policy.keep && Due(w, buf)
    requires fs.faults == RotationOps(h) + ([Fail(0), Fine] + rest)
    ensures Prepare(fs, w, buf) == (fs', w, Failed)
    ensures Sound(fs', w) && Alone(fs', w, h + 1) && fs'.faults == [Fine] + rest
  {
    hide Alone, Sound, Rotate, RotationOps, Slid, Prepare, Due;
    SoundIsValid(fs, w);
    RotatesAlone(fs, w, h, [Fail(0), Fine] + rest);
    assert [Fail(0), Fine] + rest == [Fail(0)] + ([Fine] + rest);
    ReopenFails(fs, w, buf, [Fine] + rest);
    RotateOutcome(fs, w.log, w.policy.keep);
    var fs1 := Rotate(fs, w.log, w.policy.keep).0;
    SlidAlone(fs, fs1, w, h);
    SlidSound(fs, fs1, w);
    fs' := fs1.(faults := [Fine] + rest);
    SameTreeAlone(fs1, fs', w, h + 1);
    SameTreeSound(fs1, fs', w);
  }

  lemma SoundIsValid(fs: Fs, w: Handle)
    requires Sound(fs, w)
    ensures Valid(fs)
  {
  }

  lemma SameTreeSound(a: Fs, b: Fs, w: Handle)
    requires Sound(a, w) && SameTree(a, b)
    ensures Sound(b, w)
  {
  }

  lemma AgesOnce(run: Run, log: string, policy: Policy, h: nat)
    requires Aged(run, log, policy, h) && h < policy.keep
    ensures Aged(Next(run, Oversize(policy)), log, policy, h + 1)
  {
    var buf, rest := Oversize(policy), Ageing(policy.keep, h + 1);
    hide Ageing, Prepare, Alone, RotationOps, Append;
    AgeingStep(policy.keep, h);
    var fs := AgesPrepare(run.fs, run.w, h, buf, rest);
    assert ([Fine] + rest)[1..] == rest;
    AppendsAlone(fs, run.w, h + 1, buf);
    SameWriter(Next(run, buf).fs, run.w, Next(run, buf).w, h + 1);
  }

  lemma AgeingStep(keep: nat, h: nat)
    requires h < keep
    ensures Ageing(keep, h) == RotationOps(h) + ([Fail(0), Fine] + Ageing(keep, h + 1))
  {
  }

  lemma SlidSound(a: Fs, b: Fs, w: Handle)
    requires Sound(a, w) && Valid(b) && Slid(a, b, w.log, w.policy.keep, 0)
    ensures Sound(b, w)
  {
  }

  lemma AppendsAlone(fs: Fs, w: Handle, h: nat, buf: Record)
    requires Valid(fs) && w.file in fs.files && fs.files[w.file].kind.Regular? && Alone(fs, w, h)
    ensures var (fs', r) := Append(fs, w.file, buf);
            Sound(fs', w) && Alone(fs', w, h) && fs'.faults == Tick(fs).faults && (r.Ok? <==> Fate(fs).Fine?)
  {
    hide Alone;
    SameTreeAlone(fs, Append(fs, w.file, buf).0, w, h);
  }

  lemma {:induction false} Ages(run: Run, log: string, policy: Policy, h: nat) returns (bufs: seq<Record>)
    requires Aged(run, log, policy, h)
    ensures Aged(Writes(run, bufs), log, policy, policy.keep)
    decreases policy.keep - h
  {
    hide Aged, Next;
    AgedBound(run, log, policy, h);
    bufs := [];
    if h < policy.keep {
      AgesOnce(run, log, policy, h);
      var rest := Ages(Next(run, Oversize(policy)), log, policy, h + 1);
      bufs := [Oversize(policy)] + rest;
      assert bufs[1..] == rest;
    }
  }

  lemma AgedBound(run: Run, log: string, policy: Policy, h: nat)
    requires Aged(run, log, policy, h)
    ensures h <= policy.keep
  {
  }

  /** The first line goes into the fresh file, however long it is. */
  lemma FirstLine(fs: Fs, w: Handle, buf: Record, rest: seq<Fault>, history: seq<Record>)
    requires Sound(fs, w) && Alone(fs, w, 0) && w.size == 0 && fs.faults == [Fine] + rest
    ensures var run := Next(Run(fs, w, history, 0), buf);
            && Sound(run.fs, run.w) && run.w == w.(size := |buf|) && Alone(run.fs, run.w, 0)
            && run.fs.faults == rest && run.failed == 0
  {
    assert fs.faults[1..] == rest;
    AppendsAlone(fs, w, 0, buf);
    hide Alone, AfterRotateNow, Append;
    var run := Next(Run(fs, w, history, 0), buf);
    assert run.w == w.(size := |buf|);
    SameWriter(run.fs, w, run.w, 0);
  }

  lemma SameWriter(fs: Fs, w: Handle, w': Handle, h: nat)
    requires Alone(fs, w, h) && w'.log == w.log && w'.file == w.file && w'.policy == w.policy
    ensures Alone(fs, w', h)
  {
  }

  /** For every limit and every `keep`, some failures make a writer that was opened on a log without
      files lose a line it reports as written: `keep + 1` failures in a row, one more than
      `WriteKeepsIntact` allows, and the log is empty after a write that succeeded. */
  lemma FailuresLoseLine(fs: Fs, log: string, policy: Policy) returns (faults: seq<Fault>, bufs: seq<Record>, buf: Record)
    requires Valid(fs) && NoFiles(fs, log, policy)
    ensures OpenHandle(fs.(faults := faults), log, policy).1.Ok?
    ensures var (fs1, w) := OpenHandle(fs.(faults := faults), log, policy);
            var run := Writes(Opened(fs1, w.value), bufs);
            && buf != [] && AfterWrite(run.fs, run.w, buf).3.Ok? && Next(run, buf).failed == policy.keep + 1
            && Chronicle(Next(run, buf).fs, log, policy.keep + 1) == []
  {
    buf := Oversize(policy);
    faults := [Fine, Fine, Fine, Fine, Fine] + ([Fine] + Ageing(policy.keep, 0));
    var start := fs.(faults := faults);
    NoFilesHere(fs, start, log, policy);
    OpensAlone(start, log, policy, [Fine] + Ageing(policy.keep, 0));
    hide OpenHandle, GenName, Ageing, Chronicle;
    var (fs1, w) := OpenHandle(start, log, policy);
    var begin := Opened(fs1, w.value);
    FirstLine(fs1, w.value, buf, Ageing(policy.keep, 0), begin.history);
    var rest := Ages(Next(begin, buf), log, policy, 0);
    bufs := [buf] + rest;
    assert bufs[1..] == rest;
    LosesAtLast(Writes(begin, bufs), log, policy);
  }

  lemma LosesAtLast(run: Run, log: string, policy: Policy)
    requires Aged(run, log, policy, policy.keep)
    ensures var buf := Oversize(policy);
            && AfterWrite(run.fs, run.w, buf).3.Ok? && Next(run, buf).failed == policy.keep + 1
            && Chronicle(Next(run, buf).fs, log, policy.keep + 1) == []
  {
    hide GenName, AfterRotateNow, Chronicle;
    AloneIsNewest(run.fs, run.w, policy.keep);
    OldestCanLose(run.fs, run.w, Oversize(policy));
  }

  // ---------------------------------------------------------------- a run that forgets to retry

  /** For every limit of at least two bytes, some failures make a writer that was opened on a log
      without files not try again: the rotation and the append of a second line both fail, the count
      stays at one byte, and a third line is short enough not to be due. */
  lemma FailuresForgetRetry(fs: Fs, log: string, policy: Policy) returns (faults: seq<Fault>, first: Record, second: Record, third: Record)
    requires Valid(fs) && NoFiles(fs, log, policy) && policy.maxBytes >= 2
    ensures AllOrNothing(faults) && OpenHandle(fs.(faults := faults), log, policy).1.Ok?
    ensures var (fs1, w) := OpenHandle(fs.(faults := faults), log, policy);
            var run := Next(Opened(fs1, w.value), first);
            AttemptOf(run, second) == Failed && AttemptOf(Next(run, second), third) == NotDue
  {
    first, second, third := [0], Oversize(policy), [0];
    faults := [Fine, Fine, Fine, Fine, Fine] + ([Fine] + [Fail(0), Fail(0)]);
    var start := fs.(faults := faults);
    NoFilesHere(fs, start, log, policy);
    OpensAlone(start, log, policy, [Fine] + [Fail(0), Fail(0)]);
    AllFaultsWhole();
    hide OpenHandle, GenName, Next, AttemptOf, AllOrNothing;
    var (fs1, w) := OpenHandle(start, log, policy);
    var begin := Opened(fs1, w.value);
    FirstLine(fs1, w.value, first, [Fail(0), Fail(0)], begin.history);
    var run := Next(begin, first);
    BothFail(run, second);
    NotDueNoAttempt(Next(run, second), third);
  }

  lemma AllFaultsWhole()
    ensures AllOrNothing([Fine, Fine, Fine, Fine, Fine] + ([Fine] + [Fail(0), Fail(0)]))
  {
  }

  lemma BothFail(run: Run, buf: Record)
    requires Due(run.w, buf) && run.fs.faults == [Fail(0), Fail(0)]
    ensures AttemptOf(run, buf) == Failed && Next(run, buf).w == run.w
  {
  }

  lemma NotDueNoAttempt(run: Run, buf: Record)
    requires !Due(run.w, buf)
    ensures AttemptOf(run, buf) == NotDue
  {
  }
}
