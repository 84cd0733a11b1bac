/** The status files, written step by step. */
module StatusWriting {
  import opened Cards
  import opened Status
  import opened Decimal

  /** The control directory. Each method is one file operation. */
  class Directory {
    const present: bool
    const env: FsOracle
    var files: Files
    var trace: seq<Files>
    ghost var unsynced: set<string>   // written since they were last brought to disk

    constructor (present: bool, files: Files, env: FsOracle)
      ensures State() == Dir(present, files, []) && this.env == env && unsynced == {}
    {
      this.present, this.files, this.env, this.trace, this.unsynced := present, files, env, [], {};
    }

    function State(): Dir
      reads this
    {
      Dir(present, files, trace)
    }

    /** Opens the directory; "no such file" means that there is none. */
    method Open() returns (r: FsResult)
      modifies this
      ensures (State(), r) == Status.Open(env, old(State()))
    {
      var reply := env(|trace|);
      trace := trace + [files];
      r := if !present then NotExist else if reply.ok then Good else Broken;
    }

    /** Draws the random part of a file name. */
    method Random() returns (r: FsResult, hex: string)
      modifies this
      ensures (State(), r) == Status.Plain(env, old(State())) && hex == Status.Reply(env, old(State())).hex
    {
      var reply := env(|trace|);
      trace := trace + [files];
      r, hex := if reply.ok then Good else Broken, reply.hex;
    }

    /** Brings a written file to disk. */
    method Sync(name: string) returns (r: FsResult)
      modifies this
      ensures (State(), r) == Status.Plain(env, old(State()))
      ensures unsynced == if r.Good? then old(unsynced) - {name} else old(unsynced)
    {
      var reply := env(|trace|);
      trace := trace + [files];
      r := if reply.ok then Good else Broken;
      if reply.ok { unsynced := unsynced - {name}; }
    }

    method Close(name: string) returns (r: FsResult)
      modifies this
      ensures (State(), r) == Status.Plain(env, old(State())) && unsynced == old(unsynced)
    {
      var reply := env(|trace|);
      trace := trace + [files];
      r := if reply.ok then Good else Broken;
    }

    method Create(name: string) returns (r: FsResult)
      modifies this
      ensures (State(), r) == Status.Create(env, old(State()), name)
    {
      var reply := env(|trace|);
      r := Broken;
      if reply.ok && name !in files {
        files := files[name := ""];
        r := Good;
      }
      trace := trace + [files];
    }

    method Write(name: string, content: string) returns (r: FsResult)
      modifies this
      ensures (State(), r) == Status.Write(env, old(State()), name, content)
      ensures unsynced == old(unsynced) + {name}
    {
      var reply := env(|trace|);
      var n := if reply.ok || reply.written > |content| then |content| else reply.written;
      files, unsynced := files[name := content[..n]], unsynced + {name};
      trace := trace + [files];
      r := if reply.ok then Good else Broken;
      assert content[..|content|] == content;
    }

    /** Only a file that was brought to disk may take the place of another. */
    method Rename(from: string, to: string) returns (r: FsResult)
      requires from !in unsynced
      modifies this
      ensures (State(), r) == Status.Rename(env, old(State()), from, to)
    {
      var reply := env(|trace|);
      if reply.ok && from in files {
        files := (files - {from})[to := files[from]];
        r := Good;
      } else {
        if reply.missing { files := files - {from}; }
        r := if reply.missing then NotExist else Broken;
      }
      trace := trace + [files];
    }

    method Unlink(name: string) returns (r: FsResult)
      modifies this
      ensures (State(), r) == Status.Unlink(env, old(State()), name)
    {
      var reply := env(|trace|);
      if name in files {
        r := if reply.ok then Good else Broken;
        if reply.ok { files := files - {name}; }
      } else {
        r := if reply.ok || reply.missing then NotExist else Broken;
      }
      trace := trace + [files];
    }
  }

  /** Publishes the governor's state in a directory. */
  class Writer {
    const directory: Directory

    constructor (directory: Directory)
      ensures this.directory == directory
    {
      this.directory := directory;
    }

    function State(): Dir
      reads directory
    {
      directory.State()
    }

    method WriteAtomic(name: string, content: string) returns (r: FsResult)
      modifies directory
      ensures (State(), r) == Status.WriteAtomic(directory.env, old(State()), name, content)
    {
      r := directory.Open();
      if r != Good { return; }
      var hex: string;
      r, hex := directory.Random();
      if r != Good { return; }
      var temporary := TempName(name, hex);
      r := directory.Create(temporary);
      if r != Good { return; }
      r := WriteAndRename(temporary, name, content);
      var _ := directory.Unlink(temporary);
    }

    method WriteAndRename(temporary: string, name: string, content: string) returns (r: FsResult)
      modifies directory
      ensures (State(), r) == FillAndRename(directory.env, old(State()), temporary, name, content)
    {
      r := directory.Write(temporary, content);
      if r != Good { return; }
      r := directory.Sync(temporary);
      if r != Good { return; }
      r := directory.Close(temporary);
      if r != Good { return; }
      r := directory.Rename(temporary, name);
    }

    method Remove(name: string) returns (r: FsResult)
      modifies directory
      ensures (State(), r) == Status.Remove(directory.env, old(State()), name)
    {
      r := directory.Open();
      if r == NotExist { return Good; }
      if r != Good { return; }
      r := directory.Unlink(name);
      if r == NotExist { r := Good; }
    }

    method Active(c: Control) returns (r: FsResult)
      modifies directory
      ensures (State(), r) == Status.Active(directory.env, old(State()), c)
    {
      hide Status.WriteAtomic, Status.Remove;
      r := WriteAtomic(ACTIVE_PROFILE, c.profile + "\n");
      if r != Good { return; }
      r := WriteAtomic(ACTIVE_FAN, Print(c.idleFanPercent) + "\n");
      if r != Good { return; }
      r := Remove(LAST_ERROR);
    }

    method Inactive() returns (r: FsResult)
      modifies directory
      ensures (State(), r) == Status.Inactive(directory.env, old(State()))
    {
      hide Status.Remove;
      r := Remove(ACTIVE_PROFILE);
      if r != Good { return; }
      r := Remove(ACTIVE_FAN);
    }

    method Error(message: string)
      modifies directory
      ensures State() == Status.Error(directory.env, old(State()), message)
    {
      hide Status.WriteAtomic, Status.Inactive, ErrorLine;
      var _ := Inactive();
      var _ := WriteAtomic(LAST_ERROR, ErrorLine(message));
    }
  }
}
