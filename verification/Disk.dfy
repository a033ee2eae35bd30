/** The log directory as the programs change it: one method per system call, each proved against
    the function of the same name. */
module Disks {
  import opened F = FileSystem

  class Disk {
    const uid: nat
    var dir: map<string, FileId>
    var files: map<FileId, File>
    var next: FileId
    var faults: seq<Fault>

    constructor (fs: Fs)
      ensures State() == fs
    {
      uid, dir, files, next, faults := fs.uid, fs.dir, fs.files, fs.next, fs.faults;
    }

    function State(): Fs
      reads this
    {
      Fs(uid, dir, files, next, faults)
    }

    method Pass() returns (fate: Fault)
      modifies this`faults
      ensures fate == Fate(old(State())) && State() == Tick(old(State()))
    {
      fate := Fine;
      if faults != [] {
        fate, faults := faults[0], faults[1..];
      }
    }

    method Remove(name: string) returns (r: Status)
      modifies this
      ensures (State(), r) == F.Remove(old(State()), name)
    {
      var fate := Pass();
      if fate.Fail? { return Err(Io); }
      if name !in dir { return Err(NotFound); }
      if dir[name] in files && files[dir[name]].kind.Directory? { return Err(Io); }
      dir := dir - {name};
      return Ok(());
    }

    method Rename(from: string, to: string) returns (r: Status)
      modifies this
      ensures (State(), r) == F.Rename(old(State()), from, to)
    {
      var fate := Pass();
      if fate.Fail? { return Err(Io); }
      if from !in dir { return Err(NotFound); }
      if to in dir && dir[to] in files && files[dir[to]].kind.Directory? { return Err(Io); }
      dir := (dir - {from})[to := dir[from]];
      return Ok(());
    }

    method Size(name: string) returns (r: Result<nat>)
      modifies this
      ensures (State(), r) == F.Size(old(State()), name)
    {
      var fate := Pass();
      if fate.Fail? { return Err(Io); }
      if name !in dir { return Err(NotFound); }
      return Ok(Length(Content(State(), dir[name])));
    }

    method AssertTrusted(name: string) returns (r: Status)
      modifies this
      ensures (State(), r) == F.AssertTrusted(old(State()), name)
    {
      var fate := Pass();
      if fate.Fail? { return Err(Io); }
      if name !in dir || dir[name] !in files { return Ok(()); }
      if files[dir[name]].kind.Symlink? { return Err(Untrusted); }
      if files[dir[name]].owner != uid { return Err(Untrusted); }
      return Ok(());
    }

    method OpenAppend(name: string, create: bool) returns (r: Result<FileId>)
      modifies this
      ensures (State(), r) == F.OpenAppend(old(State()), name, create)
    {
      var fate := Pass();
      if fate.Fail? { return Err(Io); }
      if name in dir {
        if dir[name] in files && files[dir[name]].kind.Directory? { return Err(Io); }
        return Ok(dir[name]);
      }
      if !create { return Err(NotFound); }
      var id := next;
      dir, files, next := dir[name := id], files[id := File(Regular, uid, FILE_MODE, [])], next + 1;
      return Ok(id);
    }

    method Tighten(name: string) returns (r: Status)
      modifies this
      ensures (State(), r) == F.Tighten(old(State()), name)
    {
      var fate := Pass();
      if fate.Fail? { return Err(Io); }
      if name !in dir || dir[name] !in files { return Err(NotFound); }
      files := files[dir[name] := files[dir[name]].(mode := FILE_MODE)];
      return Ok(());
    }

    method SecureFile(name: string) returns (r: Status)
      modifies this
      ensures (State(), r) == F.SecureFile(old(State()), name)
    {
      r := AssertTrusted(name);
      if r.Err? { return; }
      var target := OpenAppend(name, true);
      if target.Err? { return Err(target.error); }
      r := Tighten(name);
    }

    method Append(id: FileId, buf: Record) returns (r: Status)
      modifies this
      ensures (State(), r) == F.Append(old(State()), id, buf)
    {
      var fate := Pass();
      if id !in files { return Err(Io); }
      files := files[id := files[id].(content := files[id].content + Landed(fate, buf))];
      return if fate.Fine? then Ok(()) else Err(Io);
    }
  }
}
