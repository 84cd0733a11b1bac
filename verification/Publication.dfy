/** The status files agree with the governor's own idea of being active. */
module Publication {
  import opened Cards
  import opened Policy
  import opened Status
  import opened Invariant
  import opened Runs
  import opened Decimal

  /** The files that announce a control. */
  predicate Announces(files: Files, c: Control) {
    && ACTIVE_PROFILE in files && files[ACTIVE_PROFILE] == c.profile + "\n"
    && ACTIVE_FAN in files && files[ACTIVE_FAN] == Print(c.idleFanPercent) + "\n"
    && LAST_ERROR !in files
  }

  predicate Silent(files: Files) {
    ACTIVE_PROFILE !in files && ACTIVE_FAN !in files
  }

  /** A directory that does not exist holds no files. */
  predicate WellPlaced(d: Dir) {
    !d.present ==> d.files == map[]
  }

  /** Every file operation from now on succeeds, and the directory exists. */
  ghost predicate FilesWork(env: FsOracle, d: Dir) {
    d.present && forall k: nat :: |d.trace| <= k ==> env(k).ok
  }

  /** The three names, seen through what is published. */
  lemma SeenNames(files: Files)
    ensures forall n :: n in {ACTIVE_PROFILE, ACTIVE_FAN, LAST_ERROR} ==>
      (n in files <==> n in Published(files)) && (n in files ==> Published(files)[n] == files[n])
  {
    NamesDiffer();
    PublishedAt(files, ACTIVE_PROFILE);
    PublishedAt(files, ACTIVE_FAN);
    PublishedAt(files, LAST_ERROR);
  }

  // ----- the writer's three reports -----

  lemma ActiveReport(env: FsOracle, d: Dir, c: Control)
    requires WellPlaced(d)
    ensures var (d', r) := Active(env, d, c);
            d'.present == d.present && WellPlaced(d') && (r.Good? ==> Announces(d'.files, c))
  {
    hide WriteAtomic, Remove, ShowsOnly, Published;
    NamesDiffer();
    SeenNames(Active(env, d, c).0.files);
    var (d1, r1) := WriteAtomic(env, d, ACTIVE_PROFILE, c.profile + "\n");
    WriteAtomicShows(env, d, ACTIVE_PROFILE, c.profile + "\n");
    WriteAtomicPlaced(env, d, ACTIVE_PROFILE, c.profile + "\n");
    if r1.Good? {
      var text := Print(c.idleFanPercent) + "\n";
      var (d2, r2) := WriteAtomic(env, d1, ACTIVE_FAN, text);
      WriteAtomicShows(env, d1, ACTIVE_FAN, text);
      WriteAtomicPlaced(env, d1, ACTIVE_FAN, text);
      if r2.Good? {
        RemoveShows(env, d2, LAST_ERROR);
        RemovePlaced(env, d2, LAST_ERROR);
      }
    }
  }

  /** Without a directory nothing is written, and with it nothing is ever misplaced. */
  lemma WriteAtomicPlaced(env: FsOracle, d: Dir, name: string, content: string)
    requires WellPlaced(d)
    ensures var (d', r) := WriteAtomic(env, d, name, content);
            d'.present == d.present && WellPlaced(d') && (r.Good? ==> d.present)
  {
  }

  lemma RemovePlaced(env: FsOracle, d: Dir, name: string)
    requires WellPlaced(d)
    ensures var (d', r) := Remove(env, d, name);
            d'.present == d.present && WellPlaced(d')
  {
  }

  lemma RemoveWorks(env: FsOracle, d: Dir, name: string)
    requires FilesWork(env, d) && |name| > 0 && name[0] != '.'
    ensures var (d', r) := Remove(env, d, name);
            r.Good? && FilesWork(env, d') && Published(d'.files) == Published(d.files) - {name}
  {
    RemoveShows(env, d, name);
  }

  lemma InactiveReport(env: FsOracle, d: Dir)
    requires FilesWork(env, d)
    ensures var (d', r) := Inactive(env, d);
            r.Good? && FilesWork(env, d') && Silent(d'.files)
  {
    hide Remove, FilesWork, Published;
    NamesDiffer();
    SeenNames(Inactive(env, d).0.files);
    var d1 := Remove(env, d, ACTIVE_PROFILE).0;
    RemoveWorks(env, d, ACTIVE_PROFILE);
    RemoveWorks(env, d1, ACTIVE_FAN);
  }

  lemma ErrorReport(env: FsOracle, d: Dir, message: string)
    requires FilesWork(env, d)
    ensures var d' := Error(env, d, message);
            FilesWork(env, d') && Silent(d'.files)
  {
    hide Remove, WriteAtomic, Published, Inactive;
    NamesDiffer();
    var d1 := Inactive(env, d).0;
    SeenNames(d1.files);
    SeenNames(Error(env, d, message).files);
    InactiveReport(env, d);
    WriteAtomicShows(env, d1, LAST_ERROR, ErrorLine(message));
  }

  lemma PlacedReports(env: FsOracle, d: Dir, message: string)
    requires WellPlaced(d)
    ensures WellPlaced(Inactive(env, d).0) && WellPlaced(Error(env, d, message))
  {
    hide Remove, WriteAtomic, WellPlaced;
    RemovePlaced(env, d, ACTIVE_PROFILE);
    RemovePlaced(env, Remove(env, d, ACTIVE_PROFILE).0, ACTIVE_FAN);
    WriteAtomicPlaced(env, Inactive(env, d).0, LAST_ERROR, ErrorLine(message));
  }

  // ----- runs -----

  /** What holds at every event boundary even if file operations fail. */
  predicate Announced(s: System) {
    WellPlaced(s.dir) && (s.active ==> Announces(s.dir.files, s.control))
  }

  lemma DisableAnnounced(cfg: Config, env: Env, s: System, order: seq<int>)
    requires Announced(s)
    ensures Announced(Disable(cfg, env, s, order)) && !Disable(cfg, env, s, order).active
  {
    PlacedReports(env.fs, s.dir, "");
  }

  lemma FailAnnounced(cfg: Config, env: Env, s: System, message: string)
    requires WellPlaced(s.dir)
    ensures Announced(Fail(cfg, env, s, message))
  {
    PlacedReports(env.fs, s.dir, message);
  }

  lemma SyncAnnounced(cfg: Config, env: Env, s: System, d: Decoded, order: seq<int>)
    requires Announced(s)
    ensures Announced(SyncControl(cfg, env, s, d, order).0)
  {
    hide Announces, WellPlaced, Active, Disable;
    DisableAnnounced(cfg, env, s, order);
    var loaded := LoadControl(d);
    if loaded.Accepted? { ActiveReport(env.fs, s.dir, loaded.control); }
  }

  lemma StepAnnounced(cfg: Config, env: Env, s: System, e: Event)
    requires Announced(s) && (s.active ==> Pollable(s))
    ensures Announced(Step(cfg, env, s, e))
  {
    hide Announces, WellPlaced, Active, Disable, Fail, SyncControl;
    match e
    case GpuTick(message) =>
      if s.active { FailAnnounced(cfg, env, Poll(cfg, env, s).0, message); }
    case ControlTick(d, order, disableOrder, message) =>
      var s1 := SyncControl(cfg, env, s, d, order).0;
      SyncAnnounced(cfg, env, s, d, order);
      DisableAnnounced(cfg, env, s1, disableOrder);
      FailAnnounced(cfg, env, s1, message);
  }

  /** At every event boundary of every run, with any file operations failing: an active
      governor has announced exactly the control in force, and no error is shown. */
  lemma {:induction false} ActiveIsAnnounced(cfg: Config, env: Env, s0: System, start: Start, events: seq<Event>)
    requires IsRun(cfg, s0, start, events) && WellPlaced(s0.dir)
    ensures Announced(Boundary(cfg, env, s0, start, events))
    decreases |events|
  {
    hide Announces, WellPlaced, SyncControl, Fail, Step;
    if events == [] {
      var s1 := Cleanup(cfg, env, s0);
      SyncAnnounced(cfg, env, s1, start.request, start.order);
      FailAnnounced(cfg, env, SyncControl(cfg, env, s1, start.request, start.order).0, start.message);
    } else {
      var before := Boundary(cfg, env, s0, start, events[..|events| - 1]);
      ActiveIsAnnounced(cfg, env, s0, start, events[..|events| - 1]);
      StepAnnounced(cfg, env, before, events[|events| - 1]);
    }
  }

  // ----- when file operations work -----

  ghost predicate Works(env: Env, s: System) {
    FilesWork(env.fs, s.dir)
  }

  /** Inactive and shown as inactive. */
  predicate Quiet(s: System) {
    !s.active ==> Silent(s.dir.files)
  }

  lemma DisableQuiet(cfg: Config, env: Env, s: System, order: seq<int>)
    requires Works(env, s)
    ensures Works(env, Disable(cfg, env, s, order)) && Quiet(Disable(cfg, env, s, order))
  {
    InactiveReport(env.fs, s.dir);
  }

  lemma FailQuiet(cfg: Config, env: Env, s: System, message: string)
    requires Works(env, s)
    ensures Works(env, Fail(cfg, env, s, message)) && Quiet(Fail(cfg, env, s, message))
  {
    ErrorReport(env.fs, s.dir, message);
  }

  lemma SyncWorks(cfg: Config, env: Env, s: System, d: Decoded, order: seq<int>)
    requires Works(env, s)
    ensures var (r, error) := SyncControl(cfg, env, s, d, order);
            Works(env, r) && (error.NoError? ==> Quiet(r))
  {
    hide Silent, Active, Disable;
    DisableQuiet(cfg, env, s, order);
    var loaded := LoadControl(d);
    if loaded.Accepted? { ActiveWorks(env.fs, s.dir, loaded.control); }
  }

  /** No leftover temporary file stands in the way. */
  ghost predicate NoLeftovers(d: Dir) {
    forall n :: n in d.files ==> !(|n| > 0 && n[0] == '.')
  }

  /** An atomic write takes eight operations, and succeeds if all of them do. */
  lemma WriteSucceeds(env: FsOracle, d: Dir, name: string, content: string)
    requires d.present && NoLeftovers(d) && |name| > 0 && name[0] != '.'
    requires forall k :: |d.trace| <= k < |d.trace| + 8 ==> env(k).ok
    ensures var (d', r) := WriteAtomic(env, d, name, content);
            && r.Good? && d'.present && |d'.trace| == |d.trace| + 8
            && NoLeftovers(d') && d'.files == d.files[name := content]
  {
  }

  /** A write leaves no temporary file behind, whether it succeeds or fails, provided its last
      operation, the deferred removal, works. */
  lemma WriteCleansUp(env: FsOracle, d: Dir, name: string, content: string)
    requires NoLeftovers(d) && |name| > 0 && name[0] != '.'
    ensures var d' := WriteAtomic(env, d, name, content).0;
            |d'.trace| > |d.trace| && (env(|d'.trace| - 1).ok ==> NoLeftovers(d'))
  {
    hide FillAndRename;
    var d1 := Open(env, d).0;
    var d2 := Plain(env, d1).0;
    var temporary := TempName(name, Reply(env, d1).hex);
    if Create(env, d2, temporary).1.Good? {
      var d3 := Create(env, d2, temporary).0;
      FillLeavesOne(env, d3, temporary, name, content);
      OneRemoved(d.files, FillAndRename(env, d3, temporary, name, content).0.files, temporary, name);
    }
  }

  /** Between creation and removal the temporary file is the only one added. */
  lemma FillLeavesOne(env: FsOracle, d: Dir, temporary: string, name: string, content: string)
    requires temporary in d.files
    ensures var d' := FillAndRename(env, d, temporary, name, content).0;
            |d'.trace| > |d.trace| && d'.files.Keys <= d.files.Keys + {name}
  {
  }

  lemma OneRemoved(before: Files, after: Files, temporary: string, name: string)
    requires (forall n :: n in before ==> !(|n| > 0 && n[0] == '.')) && |name| > 0 && name[0] != '.'
    requires after.Keys <= before.Keys + {temporary} + {name}
    ensures forall n :: n in after - {temporary} ==> !(|n| > 0 && n[0] == '.')
  {
  }

  /** Publishing succeeds if file operations do and no temporary file is left over. */
  lemma ActiveSucceeds(env: FsOracle, d: Dir, c: Control)
    requires FilesWork(env, d) && NoLeftovers(d)
    ensures var (d', r) := Active(env, d, c);
            r.Good? && FilesWork(env, d') && NoLeftovers(d')
  {
    hide WriteAtomic, Remove;
    NamesDiffer();
    var d1 := WriteAtomic(env, d, ACTIVE_PROFILE, c.profile + "\n").0;
    WriteSucceeds(env, d, ACTIVE_PROFILE, c.profile + "\n");
    WriteSucceeds(env, d1, ACTIVE_FAN, Print(c.idleFanPercent) + "\n");
    var d2 := WriteAtomic(env, d1, ACTIVE_FAN, Print(c.idleFanPercent) + "\n").0;
    RemoveWorks(env, d2, LAST_ERROR);
    RemoveLeavesNone(env, d2, LAST_ERROR);
  }

  /** In an empty directory these are the files, named as the documentation names them. */
  lemma FirstAnnouncement(env: FsOracle, d: Dir, c: Control)
    requires FilesWork(env, d) && d.files == map[]
    ensures Active(env, d, c).0.files
            == map["active-profile" := c.profile + "\n", "active-fan-percent" := Print(c.idleFanPercent) + "\n"]
  {
    hide WriteAtomic, Remove;
    NamesDiffer();
    var d1 := WriteAtomic(env, d, ACTIVE_PROFILE, c.profile + "\n").0;
    WriteSucceeds(env, d, ACTIVE_PROFILE, c.profile + "\n");
    var d2 := WriteAtomic(env, d1, ACTIVE_FAN, Print(c.idleFanPercent) + "\n").0;
    WriteSucceeds(env, d1, ACTIVE_FAN, Print(c.idleFanPercent) + "\n");
    RemoveAbsent(env, d2, LAST_ERROR);
  }

  lemma RemoveAbsent(env: FsOracle, d: Dir, name: string)
    requires name !in d.files
    ensures var d' := Remove(env, d, name).0; d'.files == d.files && d.trace <= d'.trace && d'.present == d.present
  {
  }

  /** And this is the one that reports an error. */
  lemma FirstReport(env: FsOracle, d: Dir, message: string)
    requires FilesWork(env, d) && d.files == map[]
    ensures Error(env, d, message).files == map["last-error" := ErrorLine(message)]
  {
    hide WriteAtomic, Remove, ErrorLine;
    NamesDiffer();
    var d1 := Remove(env, d, ACTIVE_PROFILE).0;
    RemoveAbsent(env, d, ACTIVE_PROFILE);
    RemoveAbsent(env, d1, ACTIVE_FAN);
    var d2 := Inactive(env, d).0;
    assert d2.files == map[];
    WriteSucceeds(env, d2, LAST_ERROR, ErrorLine(message));
  }

  lemma RemoveLeavesNone(env: FsOracle, d: Dir, name: string)
    requires NoLeftovers(d)
    ensures NoLeftovers(Remove(env, d, name).0)
  {
  }

  lemma ActiveWorks(env: FsOracle, d: Dir, c: Control)
    requires FilesWork(env, d)
    ensures FilesWork(env, Active(env, d, c).0)
  {
    hide WriteAtomic, Remove;
    var d1 := WriteAtomic(env, d, ACTIVE_PROFILE, c.profile + "\n").0;
    WriteAtomicShows(env, d, ACTIVE_PROFILE, c.profile + "\n");
    WriteAtomicShows(env, d1, ACTIVE_FAN, Print(c.idleFanPercent) + "\n");
    RemoveShows(env, WriteAtomic(env, d1, ACTIVE_FAN, Print(c.idleFanPercent) + "\n").0, LAST_ERROR);
  }

  /** A control tick always ends in agreement; a GPU tick keeps it. */
  lemma StepQuiet(cfg: Config, env: Env, s: System, e: Event)
    requires Works(env, s) && (s.active ==> Pollable(s))
    ensures Works(env, Step(cfg, env, s, e))
    ensures e.ControlTick? || Quiet(s) ==> Quiet(Step(cfg, env, s, e))
  {
    hide Silent, Disable, Fail, SyncControl, Poll;
    match e
    case GpuTick(message) =>
      if s.active {
        PollKeepsFiles(cfg, env, s);
        FailQuiet(cfg, env, Poll(cfg, env, s).0, message);
      }
    case ControlTick(d, order, disableOrder, message) =>
      var s1 := SyncControl(cfg, env, s, d, order).0;
      SyncWorks(cfg, env, s, d, order);
      DisableQuiet(cfg, env, s1, disableOrder);
      FailQuiet(cfg, env, s1, message);
  }

  lemma PollKeepsFiles(cfg: Config, env: Env, s: System)
    requires Pollable(s)
    ensures Poll(cfg, env, s).0.dir == s.dir && Poll(cfg, env, s).0.active == s.active
  {
  }

  lemma {:induction false} RunWorks(cfg: Config, env: Env, s0: System, start: Start, events: seq<Event>)
    requires IsRun(cfg, s0, start, events) && Works(env, s0)
    ensures var s := Boundary(cfg, env, s0, start, events);
            Works(env, s) && ((exists k :: 0 <= k < |events| && events[k].ControlTick?) ==> Quiet(s))
    decreases |events|
  {
    hide Silent, SyncControl, Fail, Step, FilesWork;
    if events == [] {
      var s1 := Cleanup(cfg, env, s0);
      SyncWorks(cfg, env, s1, start.request, start.order);
      FailQuiet(cfg, env, SyncControl(cfg, env, s1, start.request, start.order).0, start.message);
    } else {
      var n := |events| - 1;
      var before := Boundary(cfg, env, s0, start, events[..n]);
      RunWorks(cfg, env, s0, start, events[..n]);
      if exists k :: 0 <= k < |events| && events[k].ControlTick? {
        if !events[n].ControlTick? {
          var k :| 0 <= k < |events| && events[k].ControlTick?;
          assert events[..n][k].ControlTick?;
        }
      }
      StepQuiet(cfg, env, before, events[n]);
    }
  }

  /** When file operations succeed, from the first control tick on an inactive governor
      shows neither active file. */
  lemma InactiveIsSilent(cfg: Config, env: Env, s0: System, start: Start, events: seq<Event>, k: nat)
    requires IsRun(cfg, s0, start, events) && Works(env, s0)
    requires k < |events| && events[k].ControlTick?
    ensures var s := Boundary(cfg, env, s0, start, events); !s.active ==> Silent(s.dir.files)
  {
    RunWorks(cfg, env, s0, start, events);
  }

  // ----- unusable requests -----

  /** A request that is present but cannot be put in force. */
  predicate Unusable(cfg: Config, s: System, d: Decoded) {
    match LoadControl(d)
    case Absent => false
    case Rejected => true
    case Accepted(c) => c.enabled && !(s.active && c == s.control) && !Fits(cfg.gpus, c.profile)
  }

  /** Inactive, nothing remembered, and the error shown in place of the active files. */
  ghost predicate FailureShown(s: System, message: string) {
    && !s.active && AllForgotten(s) && Silent(s.dir.files)
    && LAST_ERROR in s.dir.files && s.dir.files[LAST_ERROR] == ErrorLine(message)
  }

  lemma FailShown(cfg: Config, env: Env, s: System, message: string)
    requires Shape(cfg, s) && Works(env, s) && NoLeftovers(s.dir)
    ensures FailureShown(Fail(cfg, env, s, message), message)
  {
    hide Inactive, WriteAtomic, Cleanup, Shape;
    NamesDiffer();
    FailInv(cfg, env, s, message);
    CleanupFiles(cfg, env, s);
    InactiveReport(env.fs, s.dir);
    InactiveLeavesNone(env.fs, s.dir);
    WriteSucceeds(env.fs, Inactive(env.fs, s.dir).0, LAST_ERROR, ErrorLine(message));
  }

  lemma InactiveLeavesNone(env: FsOracle, d: Dir)
    requires FilesWork(env, d) && NoLeftovers(d)
    ensures NoLeftovers(Inactive(env, d).0)
  {
  }

  /** An unusable request found at a control tick, or at start-up, gives every card back and
      is reported, provided file operations work and no temporary file is left over. */
  lemma UnusableIsReported(cfg: Config, env: Env, s: System, e: Event)
    requires Inv(cfg, s) && Works(env, s) && NoLeftovers(s.dir)
    requires e.ControlTick? && Unusable(cfg, s, e.request)
    ensures s.active ==> Pollable(s)
    ensures FailureShown(Step(cfg, env, s, e), e.message)
  {
    hide Fail, Disable, Enable, Fits;
    if s.active { ActiveIsPollable(cfg, s); }
    FailShown(cfg, env, s, e.message);
  }

  lemma UnusableAtStart(cfg: Config, env: Env, s0: System, start: Start)
    requires Fresh(cfg, s0) && IsOrder(s0, start.order) && Works(env, s0) && NoLeftovers(s0.dir)
    requires Unusable(cfg, s0, start.request)
    ensures FailureShown(Startup(cfg, env, s0, start.request, start.order, start.message), start.message)
  {
    hide Fail, Disable, Enable, Fits, Cleanup, CleanupFrom;
    var base := Cleanup(cfg, env, s0);
    StartupCleanup(cfg, env, s0);
    CleanupFiles(cfg, env, s0);
    FailShown(cfg, env, base, start.message);
  }

  /** A clean-up touches neither the files nor the request in force. */
  lemma CleanupFiles(cfg: Config, env: Env, s: System)
    ensures Cleanup(cfg, env, s).dir == s.dir && Cleanup(cfg, env, s).active == s.active
    ensures Cleanup(cfg, env, s).control == s.control && Cleanup(cfg, env, s).slots.Keys == s.slots.Keys
  {
  }

  /** So does a request that is switched off. */
  lemma DisabledIsQuiet(cfg: Config, env: Env, s: System, e: Event)
    requires Inv(cfg, s) && Works(env, s) && e.ControlTick? && IsOrder(s, e.order)
    requires LoadControl(e.request).Accepted? && !LoadControl(e.request).control.enabled
    ensures s.active ==> Pollable(s)
    ensures var r := Step(cfg, env, s, e);
            !r.active && Unflagged(r) && Silent(r.dir.files)
  {
    hide Disable;
    if s.active { ActiveIsPollable(cfg, s); }
    DisableInv(cfg, env, s, e.order);
    DisableQuiet(cfg, env, s, e.order);
  }

  /** A missing request withdraws everything quietly at a control tick. */
  lemma MissingIsQuiet(cfg: Config, env: Env, s: System, e: Event)
    requires Inv(cfg, s) && Works(env, s) && e.ControlTick? && e.request == Missing && IsOrder(s, e.disableOrder)
    ensures s.active ==> Pollable(s)
    ensures var r := Step(cfg, env, s, e);
            !r.active && Unflagged(r) && Silent(r.dir.files)
  {
    hide Disable;
    if s.active { ActiveIsPollable(cfg, s); }
    DisableInv(cfg, env, s, e.disableOrder);
    DisableQuiet(cfg, env, s, e.disableOrder);
  }

  // ----- usable requests -----

  /** A request that is present, enabled, new and fitting: the control `c` is to be put in
      force. */
  predicate Enables(cfg: Config, s: System, d: Decoded, c: Control) {
    LoadControl(d) == Accepted(c) && c.enabled && !(s.active && c == s.control) && Fits(cfg.gpus, c.profile)
  }

  /** Such a request found at a control tick is put in force with no card held and is
      announced, provided file operations work and no temporary file is left over. */
  lemma UsableIsEnabled(cfg: Config, env: Env, s: System, e: Event, c: Control)
    requires Inv(cfg, s) && Works(env, s) && NoLeftovers(s.dir)
    requires e.ControlTick? && IsOrder(s, e.order) && Enables(cfg, s, e.request, c)
    ensures s.active ==> Pollable(s)
    ensures var r := Step(cfg, env, s, e);
            r.active && r.control == c && Unflagged(r) && Announces(r.dir.files, c) && Inv(cfg, r)
  {
    hide Active, Fits, Announces, Inv, NoLeftovers;
    assert Listed(cfg, s) && Validated(cfg, s) by { InvParts(cfg, s); }
    if s.active { ActiveIsPollable(cfg, s); }
    ReleaseAllInv(cfg, env, s, e.order);
    SyncControlInv(cfg, env, s, e.request, e.order);
    ActiveSucceeds(env.fs, s.dir, c);
    ActiveReport(env.fs, s.dir, c);
  }

  lemma InvParts(cfg: Config, s: System)
    requires Inv(cfg, s)
    ensures Listed(cfg, s) && Validated(cfg, s)
  {
  }

  // ----- when publishing fails -----

  /** The announcement ended early because another program took a temporary file away: the
      error file is as before, and readers see at most the new profile. */
  ghost predicate CutShort(before: Files, after: Files, c: Control) {
    || Published(after) == Published(before)
    || Published(after) == Published(before)[ACTIVE_PROFILE := c.profile + "\n"]
  }

  lemma ActiveCutShort(env: FsOracle, d: Dir, c: Control)
    requires Active(env, d, c).1.NotExist?
    ensures CutShort(d.files, Active(env, d, c).0.files, c)
  {
    hide WriteAtomic, Published, ShowsOnly, Open;
    NamesDiffer();
    var (d1, r1) := WriteAtomic(env, d, ACTIVE_PROFILE, c.profile + "\n");
    WriteAtomicShows(env, d, ACTIVE_PROFILE, c.profile + "\n");
    WriteAtomicShows(env, d1, ACTIVE_FAN, Print(c.idleFanPercent) + "\n");
  }

  /** Publishing reports "no such file" exactly if one of its two temporary files was taken
      away. */
  lemma ActiveMissingIff(env: FsOracle, d: Dir, c: Control)
    requires d.present
    ensures var (d1, r1) := WriteAtomic(env, d, ACTIVE_PROFILE, c.profile + "\n");
            Active(env, d, c).1.NotExist? <==>
              TakenAway(env, d, ACTIVE_PROFILE) || (r1.Good? && TakenAway(env, d1, ACTIVE_FAN))
  {
    hide WriteAtomic, TakenAway, Published, ShowsOnly;
    NamesDiffer();
    var d1 := WriteAtomic(env, d, ACTIVE_PROFILE, c.profile + "\n").0;
    WriteAtomicShows(env, d, ACTIVE_PROFILE, c.profile + "\n");
    assert d1.present by { ShownPresent(d, d1, Published(d.files)[ACTIVE_PROFILE := c.profile + "\n"]); }
    WriteMissingIff(env, d, ACTIVE_PROFILE, c.profile + "\n");
    WriteMissingIff(env, d1, ACTIVE_FAN, Print(c.idleFanPercent) + "\n");
  }

  lemma ShownPresent(d: Dir, d': Dir, target: Files)
    requires ShowsOnly(d, d', target)
    ensures d'.present == d.present
  {
  }

  /** A file is absent from both directories, or present in both with one content. */
  predicate SameFile(a: Files, b: Files, name: string) {
    (name in a <==> name in b) && (name in a ==> a[name] == b[name])
  }

  lemma InactiveKeepsError(env: FsOracle, d: Dir)
    ensures SameFile(d.files, Inactive(env, d).0.files, LAST_ERROR)
  {
    hide Published, ShowsOnly, Remove;
    NamesDiffer();
    var d1 := Remove(env, d, ACTIVE_PROFILE).0;
    RemoveShows(env, d, ACTIVE_PROFILE);
    RemoveShows(env, d1, ACTIVE_FAN);
    SeenNames(d.files);
    SeenNames(Inactive(env, d).0.files);
  }

  lemma CutShortKeepsError(before: Files, after: Files, c: Control)
    requires CutShort(before, after, c)
    ensures SameFile(before, after, LAST_ERROR)
  {
    hide Published;
    NamesDiffer();
    SeenNames(before);
    SeenNames(after);
  }

  /** Quiet withdrawal: inactive, no card held, neither active file, and the error file as
      it was before. */
  ghost predicate WithdrawnInSilence(before: Files, r: System) {
    !r.active && Unflagged(r) && Silent(r.dir.files) && SameFile(before, r.dir.files, LAST_ERROR)
  }

  /** A request that is to be put in force but cannot be published is reported exactly if
      the failing file operation reports something else than "no such file"; that answer
      is taken for a missing request. Later file operations are taken to work. */
  lemma PublishFailureReportedIff(cfg: Config, env: Env, s: System, e: Event, c: Control)
    requires Inv(cfg, s) && e.ControlTick? && IsOrder(s, e.order) && IsOrder(s, e.disableOrder)
    requires Enables(cfg, s, e.request, c)
    requires var (after, r) := Active(env.fs, s.dir, c); !r.Good? && FilesWork(env.fs, after) && NoLeftovers(after)
    ensures s.active ==> Pollable(s)
    ensures var r := Step(cfg, env, s, e);
            if Active(env.fs, s.dir, c).1.NotExist? then WithdrawnInSilence(s.dir.files, r)
            else FailureShown(r, e.message)
  {
    hide Active, Fits, Inv, Shape, NoLeftovers, FilesWork, Fail, Disable, Inactive, CutShort, FailureShown;
    InvParts(cfg, s);
    if s.active { ActiveIsPollable(cfg, s); }
    var s1 := SyncControl(cfg, env, s, e.request, e.order).0;
    SyncControlInv(cfg, env, s, e.request, e.order);
    if Active(env.fs, s.dir, c).1.NotExist? {
      ActiveCutShort(env.fs, s.dir, c);
      CutShortKeepsError(s.dir.files, s1.dir.files, c);
      DisableInv(cfg, env, s1, e.disableOrder);
      DisableQuiet(cfg, env, s1, e.disableOrder);
      InactiveKeepsError(env.fs, s1.dir);
      DisableFiles(cfg, env, s1, e.disableOrder);
    } else {
      ShapeOf(cfg, s1);
      FailShown(cfg, env, s1, e.message);
    }
  }

  lemma ShapeOf(cfg: Config, s: System)
    requires Inv(cfg, s)
    ensures Shape(cfg, s)
  {
  }

  lemma DisableFiles(cfg: Config, env: Env, s: System, order: seq<int>)
    ensures Disable(cfg, env, s, order).dir == Inactive(env.fs, s.dir).0
  {
  }

  /** The same at start-up, except that after "no such file" nothing further is done: the
      governor is inactive, and what was published of the request stays. */
  lemma PublishFailureAtStart(cfg: Config, env: Env, s0: System, start: Start, c: Control)
    requires Fresh(cfg, s0) && IsOrder(s0, start.order) && Enables(cfg, s0, start.request, c)
    requires var (after, r) := Active(env.fs, s0.dir, c); !r.Good? && FilesWork(env.fs, after) && NoLeftovers(after)
    ensures var r := Startup(cfg, env, s0, start.request, start.order, start.message);
            var (after, published) := Active(env.fs, s0.dir, c);
            if published.NotExist? then !r.active && r.dir == after && CutShort(s0.dir.files, after.files, c)
            else FailureShown(r, start.message)
  {
    hide Active, Fits, Fail, Inv, Shape, Cleanup, CleanupFrom, Fresh, FailureShown, CutShort, NoLeftovers;
    var base := Cleanup(cfg, env, s0);
    CleanupFiles(cfg, env, s0);
    assert Inv(cfg, base) by { StartupCleanup(cfg, env, s0); BaseInv(cfg, env, s0); }
    assert !s0.active by { FreshIsInactive(cfg, s0); }
    var s1 := SyncControl(cfg, env, base, start.request, start.order).0;
    SyncControlInv(cfg, env, base, start.request, start.order);
    if Active(env.fs, s0.dir, c).1.NotExist? {
      ActiveCutShort(env.fs, s0.dir, c);
    } else {
      ShapeOf(cfg, s1);
      FailShown(cfg, env, s1, start.message);
    }
  }

  lemma BaseInv(cfg: Config, env: Env, s0: System)
    requires Fresh(cfg, s0)
    ensures Inv(cfg, Cleanup(cfg, env, s0))
  {
    hide Cleanup;
    StartupCleanup(cfg, env, s0);
  }

  lemma FreshIsInactive(cfg: Config, s0: System)
    requires Fresh(cfg, s0)
    ensures !s0.active
  {
  }
}
