/** A crash at any moment of any run shows readers no half-written status file. */
module CrashSafety {
  import opened Cards
  import opened Policy
  import opened Status
  import opened Runs
  import opened Decimal

  /** A complete line with a known profile. */
  predicate ProfileLine(text: string) {
    exists p :: p in PROFILES && text == p + "\n"
  }

  /** A complete line with a percentage that a request may ask for. */
  ghost predicate PercentLine(text: string) {
    exists n: int :: (n == 0 || 15 <= n <= 100) && text == Print(n) + "\n"
  }

  /** A reported error is the line of one of the messages `said`. */
  ghost predicate ReportLine(said: set<string>, text: string) {
    exists m :: m in said && text == ErrorLine(m)
  }

  /** What a file of that name may hold, apart from what was there at the start of the run. */
  ghost predicate Complete(said: set<string>, name: string, text: string) {
    if name == ACTIVE_PROFILE then ProfileLine(text)
    else if name == ACTIVE_FAN then PercentLine(text)
    else name == LAST_ERROR && ReportLine(said, text)
  }

  /** The three status files, where present, are as at the start of the run or complete. */
  ghost predicate Whole(first: Files, said: set<string>, files: Files) {
    forall name :: name in {ACTIVE_PROFILE, ACTIVE_FAN, LAST_ERROR} && name in files ==>
      (name in first && files[name] == first[name]) || Complete(said, name, files[name])
  }

  /** So it was after every single file operation, and so it is now. */
  ghost predicate AlwaysWhole(first: Files, said: set<string>, d: Dir) {
    && Whole(first, said, Published(d.files))
    && forall k :: 0 <= k < |d.trace| ==> Whole(first, said, Published(d.trace[k]))
  }

  lemma ShowsWhole(first: Files, said: set<string>, d: Dir, d': Dir, target: Files)
    requires AlwaysWhole(first, said, d) && Whole(first, said, target) && ShowsOnly(d, d', target)
    requires Published(d'.files) == Published(d.files) || Published(d'.files) == target
    ensures AlwaysWhole(first, said, d')
  {
    hide Published, Whole;
    forall k | 0 <= k < |d'.trace| ensures Whole(first, said, Published(d'.trace[k])) {
      if k < |d.trace| { assert d'.trace[k] == d.trace[k]; }
    }
  }

  lemma WriteWhole(env: FsOracle, first: Files, said: set<string>, d: Dir, name: string, content: string)
    requires AlwaysWhole(first, said, d) && |name| > 0 && name[0] != '.'
    requires Complete(said, name, content)
    ensures AlwaysWhole(first, said, WriteAtomic(env, d, name, content).0)
  {
    hide Published, ProfileLine, PercentLine, WriteAtomic;
    NamesDiffer();
    WriteAtomicShows(env, d, name, content);
    ShowsWhole(first, said, d, WriteAtomic(env, d, name, content).0, Published(d.files)[name := content]);
  }

  lemma RemoveWhole(env: FsOracle, first: Files, said: set<string>, d: Dir, name: string)
    requires AlwaysWhole(first, said, d) && |name| > 0 && name[0] != '.'
    ensures AlwaysWhole(first, said, Remove(env, d, name).0)
  {
    hide Published, ProfileLine, PercentLine, Remove;
    RemoveShows(env, d, name);
    ShowsWhole(first, said, d, Remove(env, d, name).0, Published(d.files) - {name});
  }

  lemma ActiveWhole(env: FsOracle, first: Files, said: set<string>, d: Dir, c: Control)
    requires AlwaysWhole(first, said, d) && WellFormed(c)
    ensures AlwaysWhole(first, said, Active(env, d, c).0)
  {
    hide AlwaysWhole, WriteAtomic, Remove;
    NamesDiffer();
    assert c.profile in PROFILES;
    assert ProfileLine(c.profile + "\n");
    var text := Print(c.idleFanPercent) + "\n";
    assert PercentLine(text);
    var d1 := WriteAtomic(env, d, ACTIVE_PROFILE, c.profile + "\n").0;
    WriteWhole(env, first, said, d, ACTIVE_PROFILE, c.profile + "\n");
    WriteWhole(env, first, said, d1, ACTIVE_FAN, text);
    RemoveWhole(env, first, said, WriteAtomic(env, d1, ACTIVE_FAN, text).0, LAST_ERROR);
  }

  lemma InactiveWhole(env: FsOracle, first: Files, said: set<string>, d: Dir)
    requires AlwaysWhole(first, said, d)
    ensures AlwaysWhole(first, said, Inactive(env, d).0)
  {
    hide AlwaysWhole, Remove;
    NamesDiffer();
    RemoveWhole(env, first, said, d, ACTIVE_PROFILE);
    RemoveWhole(env, first, said, Remove(env, d, ACTIVE_PROFILE).0, ACTIVE_FAN);
  }

  lemma WithdrawnWhole(env: FsOracle, first: Files, said: set<string>, d: Dir, message: string)
    requires AlwaysWhole(first, said, d) && message in said
    ensures AlwaysWhole(first, said, Inactive(env, d).0) && AlwaysWhole(first, said, Error(env, d, message))
  {
    hide AlwaysWhole, WriteAtomic, Inactive, ErrorLine;
    NamesDiffer();
    InactiveWhole(env, first, said, d);
    assert ReportLine(said, ErrorLine(message));
    WriteWhole(env, first, said, Inactive(env, d).0, LAST_ERROR, ErrorLine(message));
  }

  // ----- runs -----

  lemma SyncWhole(cfg: Config, env: Env, first: Files, said: set<string>, s: System, d: Decoded, order: seq<int>)
    requires AlwaysWhole(first, said, s.dir)
    ensures AlwaysWhole(first, said, SyncControl(cfg, env, s, d, order).0.dir)
  {
    hide AlwaysWhole, Active, Inactive;
    InactiveWhole(env.fs, first, said, s.dir);
    var loaded := LoadControl(d);
    if loaded.Accepted? { ActiveWhole(env.fs, first, said, s.dir, loaded.control); }
  }

  lemma StepWhole(cfg: Config, env: Env, first: Files, said: set<string>, s: System, e: Event)
    requires AlwaysWhole(first, said, s.dir) && (s.active ==> Pollable(s)) && e.message in said
    ensures AlwaysWhole(first, said, Step(cfg, env, s, e).dir)
  {
    hide AlwaysWhole, SyncControl, Inactive, Error;
    match e
    case GpuTick(message) => WithdrawnWhole(env.fs, first, said, s.dir, message);
    case ControlTick(d, order, disableOrder, message) =>
      SyncWhole(cfg, env, first, said, s, d, order);
      WithdrawnWhole(env.fs, first, said, SyncControl(cfg, env, s, d, order).0.dir, message);
  }

  /** Whatever fails and wherever the process is killed, also in the middle of a write: what
      readers find under each of the three names is what was there before the run, or a
      complete line: of an acceptable request, or of one of the errors of this run. */
  lemma {:induction false} NeverTorn(
    cfg: Config, env: Env, s0: System, start: Start, events: seq<Event>, said: set<string>)
    requires IsRun(cfg, s0, start, events) && s0.dir.trace == []
    requires start.message in said && forall e :: e in events ==> e.message in said
    ensures AlwaysWhole(Published(s0.dir.files), said, Boundary(cfg, env, s0, start, events).dir)
    decreases |events|
  {
    hide SyncControl, Error, Step;
    var first := Published(s0.dir.files);
    if events == [] {
      var s1 := Cleanup(cfg, env, s0);
      SyncWhole(cfg, env, first, said, s1, start.request, start.order);
      WithdrawnWhole(env.fs, first, said, SyncControl(cfg, env, s1, start.request, start.order).0.dir, start.message);
    } else {
      var n := |events| - 1;
      var before := Boundary(cfg, env, s0, start, events[..n]);
      NeverTorn(cfg, env, s0, start, events[..n], said);
      StepWhole(cfg, env, first, said, before, events[n]);
    }
  }
}
