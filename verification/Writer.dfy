/** The rotating writer of the agent's own log (agent-rust/src/rotation.rs): a handle on an inode,
    a byte count, and best-effort rotation before a write that would exceed the limit. */
module Writer {
  import opened Names
  import opened FileSystem
  import opened Disks
  import opened Rotation

  // ---------------------------------------------------------------- what the code does

  datatype Handle = Handle(log: string, policy: Policy, file: FileId, size: nat)

  /** What a write did about rotation. */
  datatype Attempt = NotDue | Failed | Done

  function OpenLocked(fs: Fs, log: string): (Fs, Result<FileId>) {
    var (fs1, secured) := SecureFile(fs, log);
    if secured.Err? then (fs1, Err(secured.error)) else OpenAppend(fs1, log, false)
  }

  function OpenHandle(fs: Fs, log: string, policy: Policy): (Fs, Result<Handle>) {
    var (fs1, file) := OpenLocked(fs, log);
    if file.Err? then (fs1, Err(file.error))
    else if Fate(fs1).Fail? then (Tick(fs1), Err(Io))
    else (Tick(fs1), Ok(Handle(log, policy, file.value, Length(Content(fs1, file.value)))))
  }

  function AfterRotateNow(fs: Fs, w: Handle): (Fs, Handle, Status) {
    var (fs1, rotated) := Rotate(fs, w.log, w.policy.keep);
    if rotated.Err? then (fs1, w, rotated)
    else
      var (fs2, file) := OpenLocked(fs1, w.log);
      if file.Err? then (fs2, w, Err(file.error))
      else (fs2, w.(file := file.value, size := 0), Ok(()))
  }

  predicate Due(w: Handle, buf: Record) {
    w.size > 0 && w.size + |buf| > w.policy.maxBytes
  }

  /** The rotation a write makes before it appends. */
  function Prepare(fs: Fs, w: Handle, buf: Record): (Fs, Handle, Attempt) {
    if Due(w, buf) then
      var (fs', w', r) := AfterRotateNow(fs, w);
      (fs', w', if r.Ok? then Done else Failed)
    else (fs, w, NotDue)
  }

  /** `Write::write`: the state after it, what it did about rotation, and its result. */
  function AfterWrite(fs: Fs, w: Handle, buf: Record): (Fs, Handle, Attempt, Status) {
    var (fs1, w1, attempt) := Prepare(fs, w, buf);
    var (fs2, r) := Append(fs1, w1.file, buf);
    (fs2, if r.Ok? then w1.(size := w1.size + |buf|) else w1, attempt, r)
  }

  method OpenLockedFile(disk: Disk, log: string) returns (r: Result<FileId>)
    modifies disk
    ensures (disk.State(), r) == OpenLocked(old(disk.State()), log)
  {
    var secured := disk.SecureFile(log);
    if secured.Err? { return Err(secured.error); }
    r := disk.OpenAppend(log, false);
  }

  class RotatingWriter {
    const disk: Disk
    const log: string
    const policy: Policy
    var file: FileId
    var size: nat

    constructor (disk: Disk, w: Handle)
      ensures this.disk == disk && Value() == w
    {
      this.disk, log, policy, file, size := disk, w.log, w.policy, w.file, w.size;
    }

    function Value(): Handle
      reads this
    {
      Handle(log, policy, file, size)
    }

    method RotateNow() returns (r: Status)
      modifies this, disk
      ensures (disk.State(), Value(), r) == AfterRotateNow(old(disk.State()), old(Value()))
    {
      hide Rotate, OpenLocked;
      r := RotateLog(disk, log, policy.keep);
      if r.Err? { return; }
      var reopened := OpenLockedFile(disk, log);
      if reopened.Err? { return Err(reopened.error); }
      file, size := reopened.value, 0;
      return Ok(());
    }

    method Write(buf: Record) returns (r: Status)
      modifies this, disk
      ensures var (fs', w', _, r') := AfterWrite(old(disk.State()), old(Value()), buf);
              disk.State() == fs' && Value() == w' && r == r'
    {
      hide Rotate, OpenLocked;
      if size > 0 && size + |buf| > policy.maxBytes {
        var _ := RotateNow();
      }
      r := disk.Append(file, buf);
      if r.Ok? {
        size := size + |buf|;
      }
    }
  }

  method OpenWriter(disk: Disk, log: string, policy: Policy) returns (r: Result<RotatingWriter>)
    modifies disk
    ensures var (fs', h) := OpenHandle(old(disk.State()), log, policy);
            disk.State() == fs' && (r.Ok? <==> h.Ok?) && (r.Err? ==> r.error == h.error)
            && (r.Ok? ==> fresh(r.value) && r.value.disk == disk && r.value.Value() == h.value)
  {
    var file := OpenLockedFile(disk, log);
    if file.Err? { return Err(file.error); }
    var length := Length(Content(disk.State(), file.value));
    var fate := disk.Pass();
    if fate.Fail? { return Err(Io); }
    var writer := new RotatingWriter(disk, Handle(log, policy, file.value, length));
    return Ok(writer);
  }
}
