/** One log directory on a file system whose every operation may fail (POSIX.1-2017, System
    Interfaces). Names map to inodes, an open handle is an inode, and an unlinked inode lives on
    for the handles that point at it. `agent-rust/src/platform/unix.rs` on top of it. */
module FileSystem {
  import opened Basics

  type FileId = nat
  /** The bytes of one append. */
  type Record = seq<byte>

  datatype Error = NotFound | Untrusted | Io
  datatype Result<T> = Ok(value: T) | Err(error: Error)
  type Status = Result<()>

  datatype Kind = Regular | Directory | Symlink
  datatype File = File(kind: Kind, owner: nat, mode: nat, content: seq<Record>)

  /** Fate of one operation. A failing operation changes nothing, except that an append may have
      got its first `written` bytes to disk. */
  datatype Fault = Fine | Fail(written: nat)

  /** The directory and its inodes as process `uid` sees them. `faults` decides the fate of the
      operations to come; once it is used up they no longer fail by themselves. */
  datatype Fs = Fs(uid: nat, dir: map<string, FileId>, files: map<FileId, File>, next: FileId, faults: seq<Fault>)

  const FILE_MODE := 384 // 0o600

  predicate Valid(fs: Fs) {
    && (forall n <- fs.dir :: fs.dir[n] in fs.files)
    && (forall n <- fs.dir, m <- fs.dir :: fs.dir[n] == fs.dir[m] ==> n == m)
    && (forall id <- fs.files :: id < fs.next)
  }

  function Lookup(fs: Fs, name: string): Option<FileId> {
    if name in fs.dir then Some(fs.dir[name]) else None
  }

  function Content(fs: Fs, id: FileId): seq<Record> {
    if id in fs.files then fs.files[id].content else []
  }

  function Length(content: seq<Record>): nat {
    if content == [] then 0 else Length(content[..|content| - 1]) + |content[|content| - 1]|
  }

  lemma LengthSnoc(content: seq<Record>, r: Record)
    ensures Length(content + [r]) == Length(content) + |r|
  {
    assert (content + [r])[..|content|] == content;
  }

  lemma LengthOfNothing()
    ensures Length([]) == 0
  {
  }

  lemma {:induction false} LengthConcat(a: seq<Record>, b: seq<Record>)
    ensures Length(a + b) == Length(a) + Length(b)
  {
    if b == [] {
      assert a + b == a;
    } else {
      var init, r := b[..|b| - 1], b[|b| - 1];
      assert a + b == (a + init) + [r] && b == init + [r];
      LengthConcat(a, init);
      LengthSnoc(a + init, r);
    }
  }

  // ---------------------------------------------------------------- operations

  function Fate(fs: Fs): Fault {
    if fs.faults == [] then Fine else fs.faults[0]
  }

  function Tick(fs: Fs): Fs {
    if fs.faults == [] then fs else fs.(faults := fs.faults[1..])
  }

  /** `fs::remove_file` */
  function Remove(fs: Fs, name: string): (Fs, Status) {
    if Fate(fs).Fail? then (Tick(fs), Err(Io))
    else if name !in fs.dir then (Tick(fs), Err(NotFound))
    else if fs.dir[name] in fs.files && fs.files[fs.dir[name]].kind.Directory? then (Tick(fs), Err(Io))
    else (Tick(fs).(dir := fs.dir - {name}), Ok(()))
  }

  /** `fs::rename`: atomic, replaces its target. */
  function Rename(fs: Fs, from: string, to: string): (Fs, Status) {
    if Fate(fs).Fail? then (Tick(fs), Err(Io))
    else if from !in fs.dir then (Tick(fs), Err(NotFound))
    else if to in fs.dir && fs.dir[to] in fs.files && fs.files[fs.dir[to]].kind.Directory? then (Tick(fs), Err(Io))
    else (Tick(fs).(dir := (fs.dir - {from})[to := fs.dir[from]]), Ok(()))
  }

  /** `Path::exists` */
  predicate Exists(fs: Fs, name: string) {
    name in fs.dir
  }

  /** `fs::metadata`, of which only the length is used. */
  function Size(fs: Fs, name: string): (Fs, Result<nat>) {
    if Fate(fs).Fail? then (Tick(fs), Err(Io))
    else if name !in fs.dir then (Tick(fs), Err(NotFound))
    else (Tick(fs), Ok(Length(Content(fs, fs.dir[name]))))
  }

  /** `assert_trusted_existing` */
  function AssertTrusted(fs: Fs, name: string): (Fs, Status) {
    if Fate(fs).Fail? then (Tick(fs), Err(Io))
    else if name !in fs.dir || fs.dir[name] !in fs.files then (Tick(fs), Ok(()))
    else if fs.files[fs.dir[name]].kind.Symlink? then (Tick(fs), Err(Untrusted))
    else if fs.files[fs.dir[name]].owner != fs.uid then (Tick(fs), Err(Untrusted))
    else (Tick(fs), Ok(()))
  }

  /** Open for appending, creating the file with mode 0600 if it is missing and `create` is set. */
  function OpenAppend(fs: Fs, name: string, create: bool): (Fs, Result<FileId>) {
    if Fate(fs).Fail? then (Tick(fs), Err(Io))
    else if name in fs.dir then
      if fs.dir[name] in fs.files && fs.files[fs.dir[name]].kind.Directory? then (Tick(fs), Err(Io))
      else (Tick(fs), Ok(fs.dir[name]))
    else if create then
      (Tick(fs).(dir := fs.dir[name := fs.next],
                 files := fs.files[fs.next := File(Regular, fs.uid, FILE_MODE, [])],
                 next := fs.next + 1), Ok(fs.next))
    else (Tick(fs), Err(NotFound))
  }

  /** `fs::set_permissions` with mode 0600. */
  function Tighten(fs: Fs, name: string): (Fs, Status) {
    if Fate(fs).Fail? then (Tick(fs), Err(Io))
    else if name !in fs.dir || fs.dir[name] !in fs.files then (Tick(fs), Err(NotFound))
    else
      var id := fs.dir[name];
      (Tick(fs).(files := fs.files[id := fs.files[id].(mode := FILE_MODE)]), Ok(()))
  }

  /** `secure_file`: refuse what is not ours, create the file born locked, tighten it. */
  function SecureFile(fs: Fs, name: string): (Fs, Status) {
    var (fs1, trusted) := AssertTrusted(fs, name);
    if trusted.Err? then (fs1, trusted)
    else
      var (fs2, handle) := OpenAppend(fs1, name, true);
      if handle.Err? then (fs2, Err(handle.error)) else Tighten(fs2, name)
  }

  /** What an append of `buf` leaves in the file. */
  function Landed(fate: Fault, buf: Record): seq<Record> {
    match fate
    case Fine => [buf]
    case Fail(n) => if n == 0 then [] else [buf[..if n < |buf| then n else |buf|]]
  }

  /** `write_all` through a handle, which is bad if there is no such inode. */
  function Append(fs: Fs, id: FileId, buf: Record): (Fs, Status) {
    if id !in fs.files then (Tick(fs), Err(Io))
    else
      var file := fs.files[id];
      (Tick(fs).(files := fs.files[id := file.(content := file.content + Landed(Fate(fs), buf))]),
       if Fate(fs).Fine? then Ok(()) else Err(Io))
  }

  // ---------------------------------------------------------------- what `secure_file` does

  /** `id` is a regular file of ours with mode 0600. */
  predicate LockedFile(fs: Fs, id: FileId) {
    id in fs.files && fs.files[id].kind.Regular? && fs.files[id].owner == fs.uid && fs.files[id].mode == FILE_MODE
  }

  /** What mode 0600 means: its owner may read and write, nobody else may do anything. */
  lemma LockedIsPrivate(fs: Fs, id: FileId)
    requires LockedFile(fs, id)
    ensures var mode := fs.files[id].mode;
            mode / 256 % 2 == 1 && mode / 128 % 2 == 1 && mode / 64 % 2 == 0 && mode % 64 == 0 && mode < 512
  {
  }

  predicate Locked(fs: Fs, name: string) {
    name in fs.dir && LockedFile(fs, fs.dir[name])
  }

  /** All that `secure_file` may have done, whether it succeeded or not: create an empty file of
      ours at `name`, or set the mode of the file there. */
  ghost predicate Secured(before: Fs, after: Fs, name: string) {
    && after.uid == before.uid
    && before.files.Keys <= after.files.Keys
    && (forall id <- before.files :: after.files[id] == before.files[id]
                                     || after.files[id] == before.files[id].(mode := FILE_MODE))
    && (forall id <- before.files :: (name in before.dir ==> id != before.dir[name]) ==> after.files[id] == before.files[id])
    && (after.dir == before.dir
        || (name !in before.dir && after.dir == before.dir[name := before.next]
            && before.next in after.files && after.files[before.next] == File(Regular, before.uid, FILE_MODE, [])))
    && (after.dir == before.dir ==> after.files.Keys == before.files.Keys)
  }

  lemma OpenEffect(fs: Fs, name: string)
    requires Valid(fs)
    ensures var (fs', r) := OpenAppend(fs, name, true);
            Valid(fs') && Secured(fs, fs', name)
            && (r.Ok? ==> name in fs'.dir && !fs'.files[fs'.dir[name]].kind.Directory?
                          && (name in fs.dir ==> fs'.dir == fs.dir && fs'.files == fs.files))
  {
  }

  lemma TightenValid(fs: Fs, name: string)
    requires Valid(fs)
    ensures var (fs', r) := Tighten(fs, name);
            Valid(fs') && fs'.dir == fs.dir && fs'.uid == fs.uid
            && (fs'.files == fs.files || (name in fs.dir && fs.dir[name] in fs.files
                && fs'.files == fs.files[fs.dir[name] := fs.files[fs.dir[name]].(mode := FILE_MODE)]))
            && (r.Ok? ==> name in fs.dir && fs'.files == fs.files[fs.dir[name] := fs.files[fs.dir[name]].(mode := FILE_MODE)])
  {
  }

  lemma TightenEffect(fs0: Fs, fs: Fs, name: string)
    requires Valid(fs0) && Valid(fs) && Secured(fs0, fs, name)
    ensures Secured(fs0, Tighten(fs, name).0, name)
  {
    TightenValid(fs, name);
    hide Tighten;
  }

  /** `secure_file` does no more than that, and when it succeeds the file is locked. */
  lemma SecureFileEffect(fs: Fs, name: string)
    requires Valid(fs)
    ensures var (fs', r) := SecureFile(fs, name);
            Valid(fs') && Secured(fs, fs', name) && (r.Ok? ==> Locked(fs', name))
  {
    hide OpenAppend, Tighten;
    var (fs1, trusted) := AssertTrusted(fs, name);
    if trusted.Ok? {
      var (fs2, target) := OpenAppend(fs1, name, true);
      OpenEffect(fs1, name);
      if target.Ok? {
        TightenValid(fs2, name);
        TightenEffect(fs1, fs2, name);
      }
    }
  }

  /** Nothing is at `name`, or a regular file of ours. */
  predicate Securable(fs: Fs, name: string) {
    name !in fs.dir
    || (fs.dir[name] in fs.files && fs.files[fs.dir[name]].kind.Regular? && fs.files[fs.dir[name]].owner == fs.uid)
  }

  /** When nothing fails by itself, exactly that can be secured; all else is refused. */
  lemma FaultFreeSecureSucceedsIff(fs: Fs, name: string)
    requires Valid(fs) && fs.faults == []
    ensures var (fs', r) := SecureFile(fs, name); (r.Ok? <==> Securable(fs, name)) && fs'.faults == []
  {
  }

  /** A refusal is about links and owners, and reported as such, only: everything else that goes wrong is
      an input or output error. */
  lemma RefusedIff(fs: Fs, name: string)
    requires Valid(fs)
    ensures var r := SecureFile(fs, name).1;
            && (r.Err? ==> r.error == Untrusted || r.error == Io)
            && (r == Err(Untrusted) <==> Fate(fs).Fine? && name in fs.dir
                                         && (fs.files[fs.dir[name]].kind.Symlink? || fs.files[fs.dir[name]].owner != fs.uid))
  {
    SecureErrors(fs, name);
    hide OpenAppend, Tighten;
  }

  lemma SecureErrors(fs: Fs, name: string)
    requires Valid(fs)
    ensures var (fs', r) := OpenAppend(fs, name, true);
            && (r.Err? ==> r.error == Io)
            && (r.Ok? ==> var t := Tighten(fs', name).1; t.Err? ==> t.error == Io)
    ensures forall other: Fs | Valid(other) ::
              var (fs', r) := OpenAppend(other, name, true);
              && (r.Err? ==> r.error == Io)
              && (r.Ok? ==> var t := Tighten(fs', name).1; t.Err? ==> t.error == Io)
  {
  }

  /** The bytes of some records. */
  function Flat(content: seq<Record>): seq<byte> {
    if content == [] then [] else Flat(content[..|content| - 1]) + content[|content| - 1]
  }

  /** An append that works adds the whole line as one record; one that fails has got the first bytes of it
      to disk, as many as it had written. */
  lemma AppendLands(fs: Fs, id: FileId, buf: Record)
    requires id in fs.files
    ensures var (fs', r) := Append(fs, id, buf);
            && (r.Ok? <==> Fate(fs).Fine?)
            && (r.Ok? ==> Content(fs', id) == Content(fs, id) + [buf])
            && (r.Err? ==> var n := if Fate(fs).written < |buf| then Fate(fs).written else |buf|;
                           Flat(Content(fs', id)) == Flat(Content(fs, id)) + buf[..n])
            && (forall other <- fs.files :: other != id ==> fs'.files[other] == fs.files[other]) && fs'.dir == fs.dir
  {
    var before := Content(fs, id);
    if Fate(fs).Fail? {
      var n := if Fate(fs).written < |buf| then Fate(fs).written else |buf|;
      assert Fate(fs).written == 0 ==> before + [] == before && buf[..n] == [] && Flat(before) + [] == Flat(before);
      assert (before + [buf[..n]])[..|before|] == before;
    }
  }

  /** A refused or failed trust check changes nothing at all. */
  lemma RefusalChangesNothing(fs: Fs, name: string)
    requires AssertTrusted(fs, name).1.Err?
    ensures SecureFile(fs, name) == (Tick(fs), AssertTrusted(fs, name).1)
    ensures Tick(fs).dir == fs.dir && Tick(fs).files == fs.files
  {
  }
}
