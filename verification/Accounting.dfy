/** The rotating writer's byte count and its retries (agent-rust/src/rotation.rs). */
module Accounting {
  import opened Basics
  import opened Names
  import opened FileSystem
  import opened Rotation
  import opened Writer
  import opened Durability

  // ---------------------------------------------------------------- the count is exact

  predicate AllOrNothing(faults: seq<Fault>) {
    forall i :: 0 <= i < |faults| ==> faults[i].Fail? ==> faults[i].written == 0
  }

  predicate Exact(fs: Fs, w: Handle) {
    w.size == Length(Content(fs, w.file))
  }

  lemma {:induction false} ShiftFaults(fs: Fs, log: string, i: nat)
    requires AllOrNothing(fs.faults)
    ensures AllOrNothing(Shift(fs, log, i).0.faults)
    decreases i
  {
    hide RotatedName;
    if i > 0 {
      if Exists(fs, RotatedName(log, i)) {
        var fs' := Rename(fs, RotatedName(log, i), RotatedName(log, i + 1)).0;
        ShiftFaults(fs', log, i - 1);
      } else {
        ShiftFaults(fs, log, i - 1);
      }
    }
  }

  lemma RotateFaults(fs: Fs, log: string, keep: nat)
    requires AllOrNothing(fs.faults)
    ensures AllOrNothing(Rotate(fs, log, keep).0.faults)
  {
    hide RotatedName;
    if keep > 0 {
      ShiftFaults(Remove(fs, RotatedName(log, keep)).0, log, keep - 1);
    }
  }

  lemma OperationsFaults(fs: Fs, name: string, create: bool)
    requires AllOrNothing(fs.faults)
    ensures AllOrNothing(AssertTrusted(fs, name).0.faults)
    ensures AllOrNothing(OpenAppend(fs, name, create).0.faults)
    ensures AllOrNothing(Tighten(fs, name).0.faults)
  {
  }

  lemma OpenLockedFaults(fs: Fs, log: string)
    requires AllOrNothing(fs.faults)
    ensures AllOrNothing(OpenLocked(fs, log).0.faults)
  {
    hide AssertTrusted, OpenAppend, Tighten, AllOrNothing;
    OperationsFaults(fs, log, true);
    var fs1 := AssertTrusted(fs, log).0;
    OperationsFaults(fs1, log, true);
    var fs2 := OpenAppend(fs1, log, true).0;
    OperationsFaults(fs2, log, true);
    OperationsFaults(Tighten(fs2, log).0, log, false);
  }

  lemma PrepareFaults(fs: Fs, w: Handle, buf: Record)
    requires AllOrNothing(fs.faults)
    ensures AllOrNothing(Prepare(fs, w, buf).0.faults)
  {
    hide Rotate, OpenLocked;
    RotateFaults(fs, w.log, w.policy.keep);
    OpenLockedFaults(Rotate(fs, w.log, w.policy.keep).0, w.log);
  }

  lemma AppendExact(fs: Fs, w: Handle, buf: Record)
    requires w.file in fs.files && Exact(fs, w) && AllOrNothing(fs.faults)
    ensures var (fs', r) := Append(fs, w.file, buf);
            AllOrNothing(fs'.faults) && Exact(fs', if r.Ok? then w.(size := w.size + |buf|) else w)
  {
    LengthSnoc(Content(fs, w.file), buf);
    hide Length;
    if Fate(fs).Fail? {
      assert Fate(fs).written == 0;
      assert Content(fs, w.file) + [] == Content(fs, w.file);
    }
  }

  /** With all-or-nothing appends the count stays equal to the length of the file behind the handle,
      whatever the rotation before the append did. */
  lemma WriteExact(run: Run, buf: Record)
    requires Intact(run) && Exact(run.fs, run.w) && AllOrNothing(run.fs.faults)
    ensures var run' := Next(run, buf); Intact(run') && Exact(run'.fs, run'.w) && AllOrNothing(run'.fs.faults)
  {
    hide GenName, AfterRotateNow, Append, Chronicle, Landed, IsSuffix, Newest;
    WriteKeepsIntact(run, buf);
    var h: nat :| h <= run.failed && Newest(run.fs, run.w.log, run.w.file, Files(run.w), h);
    PrepareOutcome(run.fs, run.w, buf, h);
    PrepareFaults(run.fs, run.w, buf);
    var (fs1, w1, attempt) := Prepare(run.fs, run.w, buf);
    AppendExact(fs1, w1, buf);
  }

  lemma {:induction false} WritesExact(run: Run, bufs: seq<Record>)
    requires Intact(run) && Exact(run.fs, run.w) && AllOrNothing(run.fs.faults)
    ensures var end := Writes(run, bufs); Intact(end) && Exact(end.fs, end.w)
    decreases |bufs|
  {
    hide Next, Intact, Exact;
    if bufs != [] {
      WriteExact(run, bufs[0]);
      WritesExact(Next(run, bufs[0]), bufs[1..]);
    }
  }

  lemma OpenFaults(fs: Fs, log: string, policy: Policy)
    requires AllOrNothing(fs.faults)
    ensures AllOrNothing(OpenHandle(fs, log, policy).0.faults)
  {
    hide OpenLocked;
    OpenLockedFaults(fs, log);
  }

  /** In every state a run can reach, half-failed rotations included, `size` is the length of the
      file behind the handle. */
  lemma SizeIsExact(fs: Fs, log: string, policy: Policy, bufs: seq<Record>)
    requires Valid(fs) && AllOrNothing(fs.faults) && OpenHandle(fs, log, policy).1.Ok?
    ensures var (fs1, w) := OpenHandle(fs, log, policy);
            var end := Writes(Opened(fs1, w.value), bufs);
            end.w.file in end.fs.files && end.w.size == Length(Content(end.fs, end.w.file))
  {
    hide OpenLocked, GenName;
    OpenIntact(fs, log, policy);
    OpenFaults(fs, log, policy);
    var (fs1, w) := OpenHandle(fs, log, policy);
    WritesExact(Opened(fs1, w.value), bufs);
  }

  // ---------------------------------------------------------------- retries

  function AttemptOf(run: Run, buf: Record): Attempt {
    Prepare(run.fs, run.w, buf).2
  }

  /** At the limit already, so that any further byte wants to rotate first. */
  predicate Overdue(w: Handle) {
    w.size > 0 && w.size >= w.policy.maxBytes
  }

  /** After a failed rotation every possible next line tries again if and only if the line was written
      or the file was at the limit already. Otherwise the size has not been advanced, and a next line
      that is short enough is not due. */
  lemma TriesAgainIff(run: Run, buf: Record)
    requires AttemptOf(run, buf) == Failed
    ensures (forall next | next != [] :: AttemptOf(Next(run, buf), next) != NotDue)
       <==> AfterWrite(run.fs, run.w, buf).3.Ok? || run.w.size >= run.w.policy.maxBytes
    ensures AfterWrite(run.fs, run.w, buf).3.Ok? || run.w.size >= run.w.policy.maxBytes ==> Overdue(Next(run, buf).w)
  {
    hide Rotate, OpenLocked, Append;
    var run' := Next(run, buf);
    assert AttemptOf(run', [0]) != NotDue <==> Overdue(run'.w);
    forall next | next != [] ensures Overdue(run'.w) ==> AttemptOf(run', next) != NotDue {
    }
  }

  lemma OverdueStays(run: Run, buf: Record)
    requires Overdue(run.w) && buf != []
    ensures AttemptOf(run, buf) != NotDue
    ensures AttemptOf(run, buf) == Failed ==> Overdue(Next(run, buf).w)
  {
    hide Rotate, OpenLocked, Append;
  }

  /** What the writes of a run do about rotation, in order. */
  function Attempts(run: Run, bufs: seq<Record>): (r: seq<Attempt>)
    ensures |r| == |bufs|
    decreases |bufs|
  {
    if bufs == [] then [] else [AttemptOf(run, bufs[0])] + Attempts(Next(run, bufs[0]), bufs[1..])
  }

  lemma {:induction false} OverdueRetries(run: Run, bufs: seq<Record>, i: nat)
    requires Overdue(run.w) && i < |bufs| && forall j :: 0 <= j < |bufs| ==> bufs[j] != []
    requires forall j :: 0 <= j < i ==> Attempts(run, bufs)[j] != Done
    ensures Attempts(run, bufs)[i] != NotDue
    decreases i
  {
    hide AttemptOf, Next, Overdue;
    OverdueStays(run, bufs[0]);
    if i > 0 {
      var rest := Attempts(Next(run, bufs[0]), bufs[1..]);
      assert Attempts(run, bufs)[0] == AttemptOf(run, bufs[0]);
      forall j | 0 <= j < i - 1 ensures rest[j] != Done {
        assert rest[j] == Attempts(run, bufs)[j + 1];
      }
      OverdueRetries(Next(run, bufs[0]), bufs[1..], i - 1);
    }
  }

  /** From a failed rotation on, if its line was written or the file was at the limit already, every
      line tries again until one rotation succeeds, whatever fails in between. */
  lemma RetriesUntilDone(run: Run, buf: Record, bufs: seq<Record>, i: nat)
    requires AttemptOf(run, buf) == Failed && (AfterWrite(run.fs, run.w, buf).3.Ok? || run.w.size >= run.w.policy.maxBytes)
    requires i < |bufs| && forall j :: 0 <= j < |bufs| ==> bufs[j] != []
    requires forall j :: 0 <= j < i ==> Attempts(Next(run, buf), bufs)[j] != Done
    ensures Attempts(Next(run, buf), bufs)[i] != NotDue
  {
    TriesAgainIff(run, buf);
    hide AttemptOf, Next, Overdue, AfterWrite, Attempts;
    OverdueRetries(Next(run, buf), bufs, i);
  }

  /** A rotation that succeeds leaves a live file of ours, born locked, that holds nothing but the
      line being written, and the handle is on it. */
  lemma DoneMeansFreshLiveFile(run: Run, buf: Record)
    requires Intact(run) && AttemptOf(run, buf) == Done
    ensures var run' := Next(run, buf);
            && Gen(run'.fs, run.w.log, 0) == Some(run'.w.file) && LockedFile(run'.fs, run'.w.file)
            && Content(run'.fs, run'.w.file) == Reached(run.fs, run.w, buf)
  {
    hide GenName, AfterRotateNow, Chronicle, Landed, IsSuffix, Newest;
    var h: nat :| h <= run.failed && Newest(run.fs, run.w.log, run.w.file, Files(run.w), h);
    PrepareOutcome(run.fs, run.w, buf, h);
  }

  /** Without further faults the next due rotation succeeds, unless the name to be deleted is taken
      by a directory. */
  lemma FaultFreeRotationSucceeds(fs: Fs, w: Handle, buf: Record)
    requires Sound(fs, w) && fs.faults == [] && Due(w, buf)
    requires !IsDirectory(fs, Gen(fs, w.log, w.policy.keep))
    ensures Prepare(fs, w, buf).2 == Done && Prepare(fs, w, buf).0.faults == []
  {
    RotateOutcome(fs, w.log, w.policy.keep);
    hide Rotate;
    var fs1 := Rotate(fs, w.log, w.policy.keep).0;
    assert Gen(fs1, w.log, 0) == SlidGen(fs, w.log, w.policy.keep, 0, 0);
    FaultFreeReopenSucceeds(fs1, w.log);
  }

  lemma FaultFreeReopenSucceeds(fs: Fs, log: string)
    requires fs.faults == [] && log !in fs.dir
    ensures OpenLocked(fs, log).1.Ok? && OpenLocked(fs, log).0.faults == []
  {
  }

  /** Opening a log, an existing one as after every restart of the agent included: when nothing fails by
      itself it works if and only if nothing or a regular file of ours has the name, and the handle is
      then on the file the name leads to, with that file's old content and its length as the count. */
  lemma FaultFreeOpenIff(fs: Fs, log: string, policy: Policy)
    requires Valid(fs) && fs.faults == []
    ensures var (fs', w) := OpenHandle(fs, log, policy);
            && (w.Ok? <==> Securable(fs, log)) && fs'.faults == []
            && (w.Ok? ==>
                  && w.value.log == log && w.value.policy == policy && Lookup(fs', log) == Some(w.value.file)
                  && (log in fs.dir ==> w.value.file == fs.dir[log])
                  && Content(fs', w.value.file) == ContentOf(fs, Lookup(fs, log))
                  && w.value.size == Length(ContentOf(fs, Lookup(fs, log))))
  {
    FaultFreeSecureSucceedsIff(fs, log);
    SecureFileEffect(fs, log);
    hide SecureFile, Length;
    var fs1 := SecureFile(fs, log).0;
    assert GenName(log, 0) == log;
    SecuredGens(fs, fs1, log, 0);
  }
}
