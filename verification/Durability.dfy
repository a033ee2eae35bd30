/** What the rotating writer keeps under arbitrary failures (agent-rust/src/rotation.rs): the log
    read back is a suffix of everything appended, lines land in it as long as rotation has not
    failed too often in a row, and the byte count is exact. */
module Durability {
  import opened Basics
  import opened Names
  import opened FileSystem
  import opened Rotation
  import opened Writer

  // ---------------------------------------------------------------- the handle's place in the log

  /** Among the first `n` generations the handle's file is number `h` and everything newer is empty;
      with `h == n` the file is none of them and all are empty. */
  ghost predicate Newest(fs: Fs, log: string, file: FileId, n: nat, h: nat) {
    && h <= n && (h < n ==> Gen(fs, log, h) == Some(file))
    && forall i: nat | i < h :: Gen(fs, log, i) != Some(file) && ContentOf(fs, Gen(fs, log, i)) == []
  }

  lemma NewestSlid(a: Fs, b: Fs, log: string, top: nat, k: nat, file: FileId, h: nat)
    requires Slid(a, b, log, top, k) && Newest(a, log, file, top + 1, h)
    ensures Newest(b, log, file, top + 1, if k <= h <= top then h + 1 else h)
  {
    forall i: nat | i <= h ensures Gen(b, log, i) == SlidGen(a, log, top, k, i) {}
    if k <= h <= top {
      assert Gen(b, log, h + 1) == SlidGen(a, log, top, k, h + 1);
    }
  }

  /** Securing the live file can only add an empty one at index 0. */
  lemma SecuredGens(a: Fs, b: Fs, log: string, j: nat)
    requires Valid(a) && Secured(a, b, log)
    ensures j > 0 ==> Gen(b, log, j) == Gen(a, log, j)
    ensures Gen(b, log, j) == Gen(a, log, j)
         || (Gen(a, log, j) == None && Gen(b, log, j) == Some(a.next) && a.next !in a.files)
    ensures ContentOf(b, Gen(b, log, j)) == ContentOf(a, Gen(a, log, j))
  {
    GenNamesDistinct(log);
  }

  lemma {:induction false} SecuredChronicle(a: Fs, b: Fs, log: string, n: nat)
    requires Valid(a) && Secured(a, b, log)
    ensures Chronicle(b, log, n) == Chronicle(a, log, n)
    decreases n
  {
    if n > 0 {
      SecuredGens(a, b, log, n - 1);
      SecuredChronicle(a, b, log, n - 1);
    }
  }

  lemma NewestSecured(a: Fs, b: Fs, log: string, file: FileId, n: nat, h: nat)
    requires Valid(a) && file in a.files && Secured(a, b, log) && Newest(a, log, file, n, h)
    ensures Newest(b, log, file, n, h)
  {
    forall i: nat ensures Gen(b, log, i) == Gen(a, log, i)
                       || (Gen(a, log, i) == None && Gen(b, log, i) == Some(a.next) && a.next !in a.files)
                  ensures ContentOf(b, Gen(b, log, i)) == ContentOf(a, Gen(a, log, i)) {
      SecuredGens(a, b, log, i);
    }
  }

  /** The inode table after `landed` has been appended to one file. */
  ghost predicate Appended(a: Fs, b: Fs, file: FileId, landed: seq<Record>) {
    && file in a.files && b.uid == a.uid && b.dir == a.dir && b.next == a.next
    && b.files == a.files[file := a.files[file].(content := a.files[file].content + landed)]
  }

  lemma AppendedGen(a: Fs, b: Fs, log: string, file: FileId, landed: seq<Record>, n: nat, h: nat, i: nat)
    requires Valid(a) && Appended(a, b, file, landed) && Newest(a, log, file, n, h) && i < n
    ensures Gen(b, log, i) == Gen(a, log, i)
    ensures ContentOf(b, Gen(b, log, i)) == ContentOf(a, Gen(a, log, i)) + (if i == h then landed else [])
  {
    GenNamesDistinct(log);
  }

  lemma {:induction false} NothingNewer(fs: Fs, log: string, file: FileId, n: nat, h: nat, m: nat)
    requires Newest(fs, log, file, n, h) && m <= h
    ensures Chronicle(fs, log, m) == []
    decreases m
  {
    if m > 0 {
      NothingNewer(fs, log, file, n, h, m - 1);
    }
  }

  lemma NewestAppended(a: Fs, b: Fs, log: string, file: FileId, landed: seq<Record>, n: nat, h: nat)
    requires Valid(a) && Appended(a, b, file, landed) && Newest(a, log, file, n, h)
    ensures Newest(b, log, file, n, h) && Valid(b)
  {
    forall i: nat | i < h ensures Gen(b, log, i) == Gen(a, log, i) && ContentOf(b, Gen(b, log, i)) == [] {
      AppendedGen(a, b, log, file, landed, n, h, i);
    }
    assert Gen(b, log, h) == Gen(a, log, h);
  }

  /** An append shows up at the end of the log if the handle's file is in the family. */
  lemma {:induction false} AppendedChronicle(a: Fs, b: Fs, log: string, file: FileId, landed: seq<Record>, n: nat, h: nat, m: nat)
    requires Valid(a) && Appended(a, b, file, landed) && Newest(a, log, file, n, h) && h < m <= n
    ensures Chronicle(b, log, m) == Chronicle(a, log, m) + landed
    decreases m
  {
    hide GenName, Gen, ContentOf, Newest, Valid, Appended;
    AppendedGen(a, b, log, file, landed, n, h, m - 1);
    var c, rest := ContentOf(a, Gen(a, log, m - 1)), Chronicle(a, log, m - 1);
    if m - 1 == h {
      NewestAppended(a, b, log, file, landed, n, h);
      NothingNewer(a, log, file, n, h, h);
      NothingNewer(b, log, file, n, h, h);
      assert (c + landed) + [] == (c + []) + landed;
    } else {
      AppendedChronicle(a, b, log, file, landed, n, h, m - 1);
      assert (c + []) + (rest + landed) == (c + rest) + landed;
    }
  }

  // ---------------------------------------------------------------- one write

  ghost predicate IsSuffix(s: seq<Record>, t: seq<Record>) {
    |s| <= |t| && t[|t| - |s|..] == s
  }

  lemma OpenLockedOutcome(fs: Fs, log: string)
    requires Valid(fs)
    ensures var (fs', r) := OpenLocked(fs, log);
            && Valid(fs') && Secured(fs, fs', log)
            && (r.Ok? ==> Locked(fs', log) && Gen(fs', log, 0) == Some(r.value))
  {
    hide SecureFile, Secured, Valid, OpenAppend;
    SecureFileEffect(fs, log);
    var (fs1, secured) := SecureFile(fs, log);
    if secured.Ok? {
      OpenExisting(fs1, log);
      SecuredOn(fs, fs1, OpenAppend(fs1, log, false).0, log);
    }
  }

  lemma OpenExisting(fs: Fs, log: string)
    requires Locked(fs, log)
    ensures var (fs', r) := OpenAppend(fs, log, false);
            SameTree(fs, fs') && (r.Ok? ==> Locked(fs', log) && Gen(fs', log, 0) == Some(r.value))
  {
  }

  lemma SecuredOn(a: Fs, b: Fs, c: Fs, log: string)
    requires Valid(b) && Secured(a, b, log) && SameTree(b, c)
    ensures Valid(c) && Secured(a, c, log)
  {
  }

  /** State of a log and of the handle that writes it. */
  ghost predicate Sound(fs: Fs, w: Handle) {
    Valid(fs) && w.file in fs.files && fs.files[w.file].kind.Regular?
  }

  function Files(w: Handle): nat {
    w.policy.keep + 1
  }

  /** The handle is on a fresh, empty, locked live file. */
  ghost predicate OnFreshFile(fs: Fs, w: Handle) {
    Gen(fs, w.log, 0) == Some(w.file) && LockedFile(fs, w.file) && Content(fs, w.file) == [] && w.size == 0
  }

  /** Everything the rotation before a write may have done, by its outcome. */
  ghost predicate Prepared(fs: Fs, w: Handle, h: nat, fs': Fs, w': Handle, attempt: Attempt) {
    && Sound(fs', w') && w'.log == w.log && w'.policy == w.policy
    && IsSuffix(Chronicle(fs', w.log, Files(w)), Chronicle(fs, w.log, Files(w)))
    && (forall id <- fs.files :: Content(fs', id) == Content(fs, id))
    && match attempt
       case NotDue => fs' == fs && w' == w
       case Failed => w' == w && exists h': nat :: h' <= h + 1 && Newest(fs', w.log, w.file, Files(w), h')
       case Done => OnFreshFile(fs', w')
  }

  /** A slide followed by any attempt to reopen that leaves the handle where it was. */
  lemma SlideThenSecure(fs: Fs, w: Handle, h: nat, mid: Fs, fs': Fs, k: nat)
    requires Sound(fs, w) && Valid(mid) && Newest(fs, w.log, w.file, Files(w), h)
    requires Slid(fs, mid, w.log, w.policy.keep, k) && Valid(fs') && Secured(mid, fs', w.log)
    ensures IsSuffix(Chronicle(fs', w.log, Files(w)), Chronicle(fs, w.log, Files(w)))
    ensures Prepared(fs, w, h, fs', w, Failed)
  {
    SlideConserves(fs, mid, w.log, w.policy.keep, k);
    SecuredChronicle(mid, fs', w.log, Files(w));
    NewestSlid(fs, mid, w.log, w.policy.keep, k, w.file, h);
    var h' := if k <= h <= w.policy.keep then h + 1 else h;
    NewestSecured(mid, fs', w.log, w.file, Files(w), h');
  }

  lemma SecuredSelf(fs: Fs, log: string)
    ensures Secured(fs, fs, log)
  {
  }

  lemma PrepareOutcome(fs: Fs, w: Handle, buf: Record, h: nat)
    requires Sound(fs, w) && Newest(fs, w.log, w.file, Files(w), h)
    ensures var (fs', w', attempt) := Prepare(fs, w, buf); Prepared(fs, w, h, fs', w', attempt)
  {
    if Due(w, buf) {
      var (fs1, rotated) := Rotate(fs, w.log, w.policy.keep);
      RotateOutcome(fs, w.log, w.policy.keep);
      if rotated.Err? {
        var k: nat :| 1 <= k <= w.policy.keep + 1 && Slid(fs, fs1, w.log, w.policy.keep, k);
        SecuredSelf(fs1, w.log);
        SlideThenSecure(fs, w, h, fs1, fs1, k);
      } else {
        OpenLockedOutcome(fs1, w.log);
        var (fs2, file) := OpenLocked(fs1, w.log);
        SlideThenSecure(fs, w, h, fs1, fs2, 0);
        assert Gen(fs1, w.log, 0) == SlidGen(fs, w.log, w.policy.keep, 0, 0);
        SecuredGens(fs1, fs2, w.log, 0);
      }
    }
  }

  // ---------------------------------------------------------------- whole runs

  /** A run of writes: where it has got to, everything that ever reached a file (starting with what
      the log held when it was opened), and how many rotations in a row have failed. */
  datatype Run = Run(fs: Fs, w: Handle, history: seq<Record>, failed: nat)

  /** The records a write gets to disk. */
  function Reached(fs: Fs, w: Handle, buf: Record): seq<Record> {
    Landed(Fate(Prepare(fs, w, buf).0), buf)
  }

  function Next(run: Run, buf: Record): Run {
    var (fs', w', attempt, _) := AfterWrite(run.fs, run.w, buf);
    Run(fs', w', run.history + Reached(run.fs, run.w, buf),
        match attempt case Done => 0 case Failed => run.failed + 1 case NotDue => run.failed)
  }

  function Writes(run: Run, bufs: seq<Record>): Run
    decreases |bufs|
  {
    if bufs == [] then run else Writes(Next(run, bufs[0]), bufs[1..])
  }

  /** What has happened to the log since the handle was opened. */
  ghost predicate Intact(run: Run) {
    && Sound(run.fs, run.w)
    && IsSuffix(Chronicle(run.fs, run.w.log, Files(run.w)), run.history)
    && exists h: nat :: h <= run.failed && Newest(run.fs, run.w.log, run.w.file, Files(run.w), h)
  }

  lemma SuffixGrows(s: seq<Record>, t: seq<Record>, u: seq<Record>, more: seq<Record>)
    requires IsSuffix(s, t) && IsSuffix(t, u)
    ensures IsSuffix(s, u) && IsSuffix(s + more, u + more)
  {
    assert u[|u| - |t|..][|t| - |s|..] == u[|u| - |s|..];
    assert (u + more)[|u| - |s|..] == u[|u| - |s|..] + more;
  }

  lemma SuffixOfNothing(u: seq<Record>)
    ensures IsSuffix([], u)
  {
    assert u[|u|..] == [];
  }

  /** The append of a write, after its rotation has left the handle's file at place `h`. */
  lemma AppendShows(fs: Fs, w: Handle, h: nat, buf: Record, fs': Fs, more: seq<Record>)
    requires Sound(fs, w) && Newest(fs, w.log, w.file, Files(w), h)
    requires fs' == Append(fs, w.file, buf).0 && more == Landed(Fate(fs), buf)
    ensures Sound(fs', w) && Newest(fs', w.log, w.file, Files(w), h)
    ensures Chronicle(fs', w.log, Files(w)) == Chronicle(fs, w.log, Files(w)) + (if h < Files(w) then more else [])
  {
    hide GenName;
    assert Appended(fs, fs', w.file, more);
    NewestAppended(fs, fs', w.log, w.file, more, Files(w), h);
    if h < Files(w) {
      AppendedChronicle(fs, fs', w.log, w.file, more, Files(w), h, Files(w));
    } else {
      NothingNewer(fs, w.log, w.file, Files(w), h, Files(w));
      NothingNewer(fs', w.log, w.file, Files(w), h, Files(w));
    }
  }

  lemma SuffixWithAppend(s: seq<Record>, t: seq<Record>, more: seq<Record>, s': seq<Record>, lost: bool)
    requires IsSuffix(s, t) && s' == s + (if lost then [] else more) && (lost ==> s' == [])
    ensures IsSuffix(s', t + more)
    ensures !lost ==> IsSuffix(more, s')
  {
    if lost {
      SuffixOfNothing(t + more);
    } else {
      assert t[|t|..] == [];
      SuffixGrows(s, t, t, more);
      assert (s + more)[|s|..] == more;
    }
  }

  lemma FreshIsNewest(fs: Fs, w: Handle)
    requires OnFreshFile(fs, w)
    ensures Newest(fs, w.log, w.file, Files(w), 0)
  {
  }

  lemma NewestWithin(fs: Fs, log: string, file: FileId, n: nat, h: nat)
    requires Newest(fs, log, file, n, h)
    ensures h <= n
  {
  }

  /** One write keeps the log a suffix of the history. As long as at most `keep` rotations in a row
      have failed, what the write got to disk is the new end of the log: no line is lost. */
  lemma WriteKeepsIntact(run: Run, buf: Record)
    requires Intact(run)
    ensures Intact(Next(run, buf))
    ensures var run' := Next(run, buf);
            run'.failed <= run.w.policy.keep ==>
              IsSuffix(Reached(run.fs, run.w, buf), Chronicle(run'.fs, run.w.log, Files(run.w)))
  {
    hide GenName, AfterRotateNow, Append, Chronicle, Landed, IsSuffix, Newest;
    var log, n := run.w.log, Files(run.w);
    var h: nat :| h <= run.failed && Newest(run.fs, log, run.w.file, n, h);
    PrepareOutcome(run.fs, run.w, buf, h);
    var (fs1, w1, attempt) := Prepare(run.fs, run.w, buf);
    var run' := Next(run, buf);
    if attempt == Done {
      FreshIsNewest(fs1, w1);
    }
    SuffixGrows(Chronicle(fs1, log, n), Chronicle(run.fs, log, n), run.history, []);
    var h1: nat :| h1 <= run'.failed && Newest(fs1, log, w1.file, n, h1);
    var more := Landed(Fate(fs1), buf);
    AppendShows(fs1, w1, h1, buf, run'.fs, more);
    NewestWithin(fs1, log, w1.file, n, h1);
    if h1 == n {
      NothingNewer(run'.fs, log, w1.file, n, n, n);
    }
    SuffixWithAppend(Chronicle(fs1, log, n), run.history, more, Chronicle(run'.fs, log, n), h1 == n);
  }

  lemma {:induction false} WritesKeepIntact(run: Run, bufs: seq<Record>)
    requires Intact(run)
    ensures Intact(Writes(run, bufs))
    decreases |bufs|
  {
    if bufs != [] {
      WriteKeepsIntact(run, bufs[0]);
      WritesKeepIntact(Next(run, bufs[0]), bufs[1..]);
    }
  }

  /** The run that starts with a freshly opened handle. */
  function Opened(fs: Fs, w: Handle): Run {
    Run(fs, w, Chronicle(fs, w.log, Files(w)), 0)
  }

  lemma OpenIntact(fs: Fs, log: string, policy: Policy)
    requires Valid(fs)
    ensures var (fs', w) := OpenHandle(fs, log, policy);
            && Valid(fs') && Chronicle(fs', log, policy.keep + 1) == Chronicle(fs, log, policy.keep + 1)
            && (w.Ok? ==> w.value.log == log && w.value.policy == policy && Intact(Opened(fs', w.value))
                          && w.value.size == Length(Content(fs', w.value.file)))
  {
    hide OpenLocked, Secured, Locked, Chronicle, IsSuffix, Newest;
    OpenLockedOutcome(fs, log);
    var (fs1, file) := OpenLocked(fs, log);
    SecuredChronicle(fs, fs1, log, policy.keep + 1);
    var (fs', w) := OpenHandle(fs, log, policy);
    SameTreeChronicle(fs1, fs', log, policy.keep + 1);
    if w.Ok? {
      OpenedIsNewest(fs1, fs', log, file.value, policy.keep + 1);
      WholeIsSuffix(Chronicle(fs', log, policy.keep + 1));
    }
  }

  lemma OpenedIsNewest(a: Fs, b: Fs, log: string, file: FileId, n: nat)
    requires Locked(a, log) && Gen(a, log, 0) == Some(file) && SameTree(a, b) && n > 0
    ensures Newest(b, log, file, n, 0) && file in b.files && b.files[file].kind.Regular?
  {
  }

  lemma WholeIsSuffix(s: seq<Record>)
    ensures IsSuffix(s, s)
  {
    assert s[0..] == s;
  }

  lemma {:induction false} SameTreeChronicle(a: Fs, b: Fs, log: string, n: nat)
    requires SameTree(a, b)
    ensures Chronicle(b, log, n) == Chronicle(a, log, n)
  {
    if n > 0 {
      SameTreeChronicle(a, b, log, n - 1);
    }
  }

  /** Over every run of writes under every pattern of failures, partial writes included: the files
      read from generation `keep` down to 1 and then the live file concatenate to a suffix of
      everything ever appended, in order. */
  lemma LogIsSuffixOfHistory(fs: Fs, log: string, policy: Policy, bufs: seq<Record>)
    requires Valid(fs) && OpenHandle(fs, log, policy).1.Ok?
    ensures var (fs1, w) := OpenHandle(fs, log, policy);
            var end := Writes(Opened(fs1, w.value), bufs);
            && end.w.log == log && end.w.policy == policy
            && IsSuffix(Chronicle(end.fs, log, policy.keep + 1), end.history)
  {
    hide OpenHandle, IsSuffix, Chronicle, Newest, Sound, Writes;
    OpenIntact(fs, log, policy);
    var (fs1, w) := OpenHandle(fs, log, policy);
    WritesKeepIntact(Opened(fs1, w.value), bufs);
    WritesKeepHandle(Opened(fs1, w.value), bufs);
  }

  lemma {:induction false} WritesKeepHandle(run: Run, bufs: seq<Record>)
    ensures var end := Writes(run, bufs); end.w.log == run.w.log && end.w.policy == run.w.policy
    decreases |bufs|
  {
    if bufs != [] {
      WritesKeepHandle(Next(run, bufs[0]), bufs[1..]);
    }
  }
}
