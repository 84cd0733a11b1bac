/** Where the promises end: what the documentation suggests but the code does not do, each
    with the exact condition or a run that shows it. */
module Limits {
  import opened Cards
  import opened Hardware
  import opened Policy
  import opened Restoration
  import opened Invariant
  import opened Chronicle
  import opened History
  import opened Ticks
  import opened Runs
  import opened Publication
  import opened Decimal
  import Status

  // ----- release on load -----

  /** The documentation promises that load restores a card within one poll. In an error-free
      tick a card that read busy ends up released exactly if it was already released, or
      its low-power flag was set and its fan was automatic or flagged as manual: the
      code acts on its flags, not on the hardware. */
  lemma BusyReleasedIff(cfg: Config, env: Env, s: System, i: int)
    requires Inv(cfg, s) && s.active && Pollable(s) && Poll(cfg, env, s).1
    requires 0 <= i < ProfileCount(s.control.profile)
    requires var us := Utils(Poll(cfg, env, s).0.slots[i].bus.log);
             |us| > 0 && us[|us| - 1] > cfg.utilThreshold
    ensures var was := s.slots[i];
            FullyReleased(cfg, Poll(cfg, env, s).0.slots[i].bus.card) <==>
              || FullyReleased(cfg, was.bus.card)
              || (was.memory.lowPower && (was.memory.manualFan || was.bus.card.fan == Automatic))
  {
    hide PollCard;
    PollSlots(cfg, env, s);
    assert MemoryOk(cfg, s, i) && SlotOk(cfg, s, i);
    var slot, was := Poll(cfg, env, s).0.slots[i], s.slots[i];
    var util, temp := PollCardTurn(cfg, env.hw, s.control.idleFanPercent, was.bus, was.memory);
    assert slot.bus.card == TurnedCard(cfg, s.control.idleFanPercent, was.memory, FORGOTTEN, was.bus.card);
    if FullyReleased(cfg, slot.bus.card) { ReleasedMeaning(cfg, slot.bus.card); }
    if FullyReleased(cfg, was.bus.card) { ReleasedMeaning(cfg, was.bus.card); }
  }

  // ----- one fault at start-up -----

  /** A machine with one supported card that an earlier process left in P8. */
  const STALE_CONFIG := Config([Gpu(0, 0x1e09, 0x1554_10de, GIB20)], 6, 5, 55, false, 0, 0, false, 0)

  const STALE_CONTROL := Control(true, "cmp50-1x20gb", 0)

  function StaleSystem(): System {
    System(map[0 := Slot(Bus(0, Card(IDLE_PSTATE, Automatic, Unlocked, 0), []), FORGOTTEN)],
           Control(false, "", 0), false, Status.Dir(true, map[], []))
  }

  /** Only the second hardware call fails; every reading is 100; files work. */
  function OneFault(): Env {
    Env((i, n) => if n == 1 then Failed else Done(100), n => Status.FsReply(true, false, "0", 0))
  }

  /** The start-up clean-up of that machine: three calls, of which the P16 request fails. */
  lemma StaleCleanup()
    ensures var slot := Cleanup(STALE_CONFIG, OneFault(), StaleSystem()).slots[0];
            slot.memory == FORGOTTEN && slot.bus.card == Card(IDLE_PSTATE, Automatic, Unlocked, 0)
            && |slot.bus.log| == 3 && slot.bus.index == 0
  {
    var s, env := StaleSystem(), OneFault();
    assert IsSupported(STALE_CONFIG.gpus[0]);
    CleanupFromSlot(STALE_CONFIG, env, s, 0, 0);
    assert Times(STALE_CONFIG.gpus, 1, 0) == 0;
    assert Times(STALE_CONFIG.gpus, 0, 0) == 1;
    assert Given(STALE_CONFIG, env, s.slots[0], 1)
        == Given(STALE_CONFIG, env, CleanedSlot(STALE_CONFIG, env, s.slots[0]), 0);
  }

  lemma StaleEnabled()
    ensures var s := Startup(STALE_CONFIG, OneFault(), StaleSystem(), Request(STALE_CONTROL), [0], "");
            s.active && s.control == STALE_CONTROL && s.slots.Keys == {0}
            && s.slots[0] == Cleanup(STALE_CONFIG, OneFault(), StaleSystem()).slots[0]
  {
    hide Cleanup, Status.Active;
    var s1 := Cleanup(STALE_CONFIG, OneFault(), StaleSystem());
    StaleCleanup();
    CleanupFiles(STALE_CONFIG, OneFault(), StaleSystem());
    assert IsSupported(STALE_CONFIG.gpus[0]);
    assert Fits(STALE_CONFIG.gpus, "cmp50-1x20gb");
    ReleaseAllSlot(STALE_CONFIG, OneFault(), s1, [0], 0);
    ActiveSucceeds(OneFault().fs, s1.dir, STALE_CONTROL);
  }

  /** A run that ends with an error-free tick which read card 0 busy, with the governor
      active and the card in P8 without a flag. */
  ghost predicate EndsInUnflaggedP8(cfg: Config, env: Env, s0: System, start: Start) {
    && IsRun(cfg, s0, start, []) && IsRun(cfg, s0, start, [GpuTick("")])
    && var before := Boundary(cfg, env, s0, start, []);
    && before.active && Pollable(before)
    && var (s, ok) := Poll(cfg, env, before);
    && ok && Boundary(cfg, env, s0, start, [GpuTick("")]) == s
    && s.active && 0 in s.slots && SupportedIndex(cfg.gpus, 0)
    && s.slots[0].bus.card.pstate == IDLE_PSTATE && !s.slots[0].memory.lowPower
    && var log := s.slots[0].bus.log;
    && |log| == 4 && log[3].call == Utilization && log[3].reply == Done(100)
  }

  /** The third case of the no-leak guarantee is real: after a single failed call, an
      enabled governor whose last tick had no error and read the card fully busy leaves
      the card in P8, and no flag says so. */
  lemma StaleP8Survives()
    ensures EndsInUnflaggedP8(STALE_CONFIG, OneFault(), StaleSystem(), Start(Request(STALE_CONTROL), [0], ""))
  {
    hide Cleanup, Startup, Poll;
    var cfg, env, s0, start := STALE_CONFIG, OneFault(), StaleSystem(), Start(Request(STALE_CONTROL), [0], "");
    StaleIsRun();
    StaleCleanup();
    StaleEnabled();
    var before := Boundary(cfg, env, s0, start, []);
    StaleTick(before);
    assert [GpuTick("")][..0] == [];
    assert Boundary(cfg, env, s0, start, [GpuTick("")]) == Step(cfg, env, before, GpuTick(""));
  }

  lemma StaleIsRun()
    ensures var cfg, s0, start := STALE_CONFIG, StaleSystem(), Start(Request(STALE_CONTROL), [0], "");
            IsRun(cfg, s0, start, []) && IsRun(cfg, s0, start, [GpuTick("")]) && SupportedIndex(cfg.gpus, 0)
  {
    assert STALE_CONFIG.gpus[0].index == 0 && IsSupported(STALE_CONFIG.gpus[0]);
  }

  lemma StaleTick(before: System)
    requires before.active && before.control == STALE_CONTROL && 0 in before.slots
    requires before.slots[0].memory == FORGOTTEN && before.slots[0].bus.card.pstate == IDLE_PSTATE
    requires |before.slots[0].bus.log| == 3 && before.slots[0].bus.index == 0
    ensures Pollable(before)
    ensures var (s, ok) := Poll(STALE_CONFIG, OneFault(), before); ok && s.active && 0 in s.slots
    ensures var slot := Poll(STALE_CONFIG, OneFault(), before).0.slots[0];
            && slot.bus.card == before.slots[0].bus.card && !slot.memory.lowPower
            && |slot.bus.log| == 4 && slot.bus.log[3].call == Utilization && slot.bus.log[3].reply == Done(100)
  {
    var env := OneFault();
    assert ProfileCount(STALE_CONTROL.profile) == 1;
    var t := TurnOf(STALE_CONFIG, env, before, 0);
    assert t.ok && t.bus.card == before.slots[0].bus.card;
    assert PollFrom(STALE_CONFIG, env, before, 0, 1)
        == PollFrom(STALE_CONFIG, env, AfterTurn(STALE_CONFIG, env, before, 0), 1, 1);
  }

  // ----- a call that fails and damages another control -----

  /** Only the third hardware call fails, and it leaves the card in P8. */
  function OneDamage(): Env {
    Env((i, n) => if n == 2 then FailedWith(Card(IDLE_PSTATE, Automatic, Unlocked, 0)) else Done(0),
        n => Status.FsReply(true, false, "0", 0))
  }

  /** The fourth case of the no-leak guarantee is real too: the start-up clean-up leaves P8
      successfully, then fails to reset the clocks, and that failing call puts the card
      back into P8. No flag is set, and no request to leave P8 has failed. */
  lemma DamagedInPassing()
    ensures var start := Start(Missing, [0], "");
            && IsRun(STALE_CONFIG, StaleSystem(), start, [])
            && var s := Boundary(STALE_CONFIG, OneDamage(), StaleSystem(), start, []);
            && 0 in s.slots && SupportedIndex(STALE_CONFIG.gpus, 0)
            && var slot := s.slots[0];
            && slot.bus.card.pstate == IDLE_PSTATE && slot.memory == FORGOTTEN
            && !LastRestoreFailed(STALE_CONFIG, slot.bus.log, PStateKnob)
            && DamagedSince(STALE_CONFIG, slot.bus.log, PStateKnob)
  {
    hide Cleanup;
    StaleIsRun();
    DamagedCleanup();
  }

  lemma DamagedCleanup()
    ensures var slot := Cleanup(STALE_CONFIG, OneDamage(), StaleSystem()).slots[0];
            && slot.bus.card.pstate == IDLE_PSTATE && slot.memory == FORGOTTEN
            && !LastRestoreFailed(STALE_CONFIG, slot.bus.log, PStateKnob)
            && DamagedSince(STALE_CONFIG, slot.bus.log, PStateKnob)
  {
    var cfg, env, s := STALE_CONFIG, OneDamage(), StaleSystem();
    var b := s.slots[0].bus;
    assert IsSupported(cfg.gpus[0]);
    CleanupFromSlot(cfg, env, s, 0, 0);
    assert Times(cfg.gpus, 1, 0) == 0;
    assert Times(cfg.gpus, 0, 0) == 1;
    assert Given(cfg, env, s.slots[0], 1) == Given(cfg, env, CleanedSlot(cfg, env, s.slots[0]), 0);
    var b1 := Do(env.hw, b, SetFanAuto);
    var b2 := Do(env.hw, b1, SetPState(AUTO_PSTATE));
    var b3 := Do(env.hw, b2, ResetLockedClocks);
    DoFacts(env.hw, b1, SetPState(AUTO_PSTATE));
    DoFacts(env.hw, b2, ResetLockedClocks);
    assert GiveBack(cfg, env.hw, b, true).bus == b3;
    assert !LastRestoreFailed(cfg, b2.log, PStateKnob);
  }

  // ----- interlock -----

  /** Why the interlock needs its hypothesis: if only the request to leave P8 fails while a
      card is given back, the interlock survives exactly if nothing but the neutral clock
      setting is configured. */
  lemma FailedExitInterlock(cfg: Config, env: Oracle, b: Bus)
    requires b.card.pstate == IDLE_PSTATE
    requires forall n :: env(b.index, n) == if n == |b.log| then Failed else Done(0)
    ensures Interlocked(cfg, GiveBack(cfg, env, b, false).bus.card) <==>
      !cfg.hasClock && (cfg.hasCoreOffset ==> cfg.coreOffset == 0)
  {
  }

  // ----- status files -----

  /** Shutting down does not withdraw the announcement: if the governor was active, the
      files still announce its control although every supported card was given back. */
  lemma ShutdownStillAnnounced(cfg: Config, env: Env, s0: System, start: Start, events: seq<Event>, i: int)
    requires IsRun(cfg, s0, start, events) && WellPlaced(s0.dir) && i in s0.slots && SupportedIndex(cfg.gpus, i)
    requires Boundary(cfg, env, s0, start, events).active
    ensures var s := Cleanup(cfg, env, Boundary(cfg, env, s0, start, events));
            && Announces(s.dir.files, s.control)
            && s.slots[i].memory == FORGOTTEN && forall k :: Settled(cfg, s.slots[i].bus, k)
  {
    hide Announces;
    ActiveIsAnnounced(cfg, env, s0, start, events);
    CleanupSettles(cfg, env, Boundary(cfg, env, s0, start, events), i);
  }

  /** Publishing the second file of an enabled request loses its temporary file to another
      program; everything else works. */
  function FileTaken(): Env {
    Env((i, n) => Done(0), n => Status.FsReply(n != 14, n == 14, "0", 0))
  }

  /** At start-up the governor then stays inactive while the files already name the new
      profile, and no error is shown. */
  lemma HalfAnnounced()
    ensures var start := Start(Request(STALE_CONTROL), [0], "");
            && IsRun(STALE_CONFIG, StaleSystem(), start, [])
            && var s := Boundary(STALE_CONFIG, FileTaken(), StaleSystem(), start, []);
            && !s.active && Status.ACTIVE_PROFILE in s.dir.files
            && s.dir.files[Status.ACTIVE_PROFILE] == STALE_CONTROL.profile + "\n"
            && Status.ACTIVE_FAN !in s.dir.files && Status.LAST_ERROR !in s.dir.files
  {
    hide Cleanup, Status.Active, Fits;
    StaleIsRun();
    StaleFits();
    CleanupFiles(STALE_CONFIG, FileTaken(), StaleSystem());
    TakenFiles(FileTaken().fs, StaleSystem().dir, STALE_CONTROL);
  }

  lemma TakenFiles(env: Status.FsOracle, d: Status.Dir, c: Control)
    requires env == FileTaken().fs && d == Status.Dir(true, map[], [])
    ensures var (d', r) := Status.Active(env, d, c);
            && r.NotExist? && Status.ACTIVE_PROFILE in d'.files
            && d'.files[Status.ACTIVE_PROFILE] == c.profile + "\n"
            && Status.ACTIVE_FAN !in d'.files && Status.LAST_ERROR !in d'.files
  {
    hide Status.WriteAtomic, Status.Published, Status.ShowsOnly, Status.Remove;
    Status.NamesDiffer();
    var line, text := c.profile + "\n", Print(c.idleFanPercent) + "\n";
    var d1 := Status.WriteAtomic(env, d, Status.ACTIVE_PROFILE, line).0;
    WriteSucceeds(env, d, Status.ACTIVE_PROFILE, line);
    NotATempName();
    Status.WriteMissingIff(env, d1, Status.ACTIVE_FAN, text);
    var d2 := Status.WriteAtomic(env, d1, Status.ACTIVE_FAN, text).0;
    Status.WriteAtomicShows(env, d1, Status.ACTIVE_FAN, text);
    SeenNames(d1.files);
    SeenNames(d2.files);
  }

  lemma NotATempName()
    ensures Status.TempName(Status.ACTIVE_FAN, "0") != Status.ACTIVE_PROFILE
  {
    assert Status.TempName(Status.ACTIVE_FAN, "0")[0] == '.';
  }

  lemma StaleFits()
    ensures Fits(STALE_CONFIG.gpus, STALE_CONTROL.profile) && WellFormed(STALE_CONTROL)
    ensures LoadControl(Request(STALE_CONTROL)) == Accepted(STALE_CONTROL)
  {
    assert IsSupported(STALE_CONFIG.gpus[0]);
  }

  /** A request that is missing at start-up is passed over: the governor is inactive, and
      whatever an earlier process announced stays until the first control tick. */
  lemma MissingAtStartupKeepsFiles(cfg: Config, env: Env, s0: System, start: Start)
    requires IsRun(cfg, s0, start, []) && start.request == Missing
    ensures var s := Boundary(cfg, env, s0, start, []);
            !s.active && s.dir == s0.dir
  {
  }

  // ----- idle polls counted before a pause -----

  /** Idle polls counted before a pause still count after it: switching off and on again
      keeps what is remembered of every card that is not held. `RunHistory.DeterminedBy`
      says exactly when such a card then enters low power. */
  lemma PauseKeepsCount(cfg: Config, env: Env, s: System, off: Event, on: Event, c: Control, i: int)
    requires Inv(cfg, s) && off.ControlTick? && on.ControlTick?
    requires LoadControl(off.request).Accepted? && !LoadControl(off.request).control.enabled
    requires LoadControl(on.request) == Accepted(c) && c.enabled && Fits(cfg.gpus, c.profile)
    requires i in s.slots && !s.slots[i].memory.lowPower && !s.slots[i].memory.manualFan
    ensures (s.active ==> Pollable(s)) && !Step(cfg, env, s, off).active
    ensures var paused := Step(cfg, env, s, off);
            paused.slots[i] == s.slots[i]
            && (Status.Active(env.fs, paused.dir, c).1.Good? ==>
                  var r := Step(cfg, env, paused, on); r.active && r.control == c && r.slots[i] == s.slots[i])
  {
    hide Inv, Fits, Status.Active, Status.Inactive;
    InvParts(cfg, s);
    if s.active { ActiveIsPollable(cfg, s); }
    ReleaseAllSlot(cfg, env, s, off.order, i);
    ReleaseAllSlot(cfg, env, Step(cfg, env, s, off), on.order, i);
  }

  /** Two idle polls are asked for; everything works, and all readings are zero. */
  const EARLY_CONFIG := STALE_CONFIG.(idleAfter := 2)

  function NoFaults(): Env {
    Env((i, n) => Done(0), n => Status.FsReply(true, false, "0", 0))
  }

  const EARLY_START := Start(Request(STALE_CONTROL), [0], "")

  const SWITCH_OFF := ControlTick(Request(STALE_CONTROL.(enabled := false)), [0], [0], "")

  const SWITCH_ON := ControlTick(Request(STALE_CONTROL), [0], [0], "")

  /** One idle poll, a pause of any length, and one idle poll after it put the card into P8:
      the polls of both stretches are counted together. */
  lemma EarlyP8()
    ensures var cfg, env, s0 := EARLY_CONFIG, NoFaults(), StaleSystem();
            var before := [GpuTick(""), SWITCH_OFF, SWITCH_ON];
            && IsRun(cfg, s0, EARLY_START, before + [GpuTick("")])
            && !Boundary(cfg, env, s0, EARLY_START, before[..2]).active
            && var s := Boundary(cfg, env, s0, EARLY_START, before);
            && s.active && !s.slots[0].memory.lowPower
            && var r := Boundary(cfg, env, s0, EARLY_START, before + [GpuTick("")]);
            r.slots[0].memory.lowPower && r.slots[0].bus.card.pstate == IDLE_PSTATE
  {
    hide Cleanup, Startup, Step, Status.Active, Status.Inactive, SWITCH_OFF, SWITCH_ON, Enabled;
    var cfg, env, s0 := EARLY_CONFIG, NoFaults(), StaleSystem();
    var before := [GpuTick(""), SWITCH_OFF, SWITCH_ON];
    EarlyIsRun();
    EarlyBegin();
    EarlyCounts(Boundary(cfg, env, s0, EARLY_START, []));
    assert before[..1] == [] + [GpuTick("")];
    LastEvent(cfg, env, s0, EARLY_START, [], GpuTick(""));
    EarlyPause(Boundary(cfg, env, s0, EARLY_START, before[..1]));
    assert before[..2] == before[..1] + [SWITCH_OFF];
    LastEvent(cfg, env, s0, EARLY_START, before[..1], SWITCH_OFF);
    assert before == before[..2] + [SWITCH_ON];
    LastEvent(cfg, env, s0, EARLY_START, before[..2], SWITCH_ON);
    EarlyEnters(Boundary(cfg, env, s0, EARLY_START, before));
    LastEvent(cfg, env, s0, EARLY_START, before, GpuTick(""));
  }

  lemma EarlyIsRun()
    ensures var all := [GpuTick(""), SWITCH_OFF, SWITCH_ON, GpuTick("")];
            && IsRun(EARLY_CONFIG, StaleSystem(), EARLY_START, all)
            && IsRun(EARLY_CONFIG, StaleSystem(), EARLY_START, all[..3])
            && IsRun(EARLY_CONFIG, StaleSystem(), EARLY_START, all[..2])
            && IsRun(EARLY_CONFIG, StaleSystem(), EARLY_START, all[..1])
            && IsRun(EARLY_CONFIG, StaleSystem(), EARLY_START, [])
  {
    assert EARLY_CONFIG.gpus[0].index == 0 && IsSupported(EARLY_CONFIG.gpus[0]);
  }

  /** The governor is enabled with `m` idle polls remembered of card 0, which is not held. */
  ghost predicate Enabled(s: System, m: nat) {
    && s.active && s.control == STALE_CONTROL && s.slots.Keys == {0}
    && s.slots[0].memory == Memory(m, false, false) && s.slots[0].bus.index == 0
    && FilesWork(NoFaults().fs, s.dir) && NoLeftovers(s.dir) && Inv(EARLY_CONFIG, s)
  }

  lemma EarlyBegin()
    ensures IsRun(EARLY_CONFIG, StaleSystem(), EARLY_START, [])
    ensures Enabled(Boundary(EARLY_CONFIG, NoFaults(), StaleSystem(), EARLY_START, []), 0)
  {
    hide CleanupFrom, Fits, Inv, Status.Active, NoLeftovers;
    var cfg, env, s0 := EARLY_CONFIG, NoFaults(), StaleSystem();
    EarlyIsRun();
    StaleFits();
    var base := Cleanup(cfg, env, s0);
    CleanupFiles(cfg, env, s0);
    BaseInv(cfg, env, s0);
    CleanupSettles(cfg, env, s0, 0);
    CleanupFromSlot(cfg, env, s0, 0, 0);
    GivenIndex(cfg, env, s0.slots[0], Times(cfg.gpus, 0, 0));
    assert SupportedIndex(cfg.gpus, 0);
    ReleaseAllSlot(cfg, env, base, [0], 0);
    assert NoLeftovers(s0.dir) by { NothingLeft(s0.dir); }
    ActiveSucceeds(env.fs, s0.dir, STALE_CONTROL);
    SyncControlInv(cfg, env, base, Request(STALE_CONTROL), [0]);
    assert Boundary(cfg, env, s0, EARLY_START, []).slots[0] == base.slots[0];
  }

  lemma NothingLeft(d: Status.Dir)
    requires d.files == map[]
    ensures NoLeftovers(d)
  {
  }

  lemma {:induction false} GivenIndex(cfg: Config, env: Env, slot: Slot, times: nat)
    ensures Given(cfg, env, slot, times).bus.index == slot.bus.index
    decreases times
  {
    if times == 0 {
    } else {
      GivenIndex(cfg, env, CleanedSlot(cfg, env, slot), times - 1);
    }
  }

  /** One idle reading: after the first the card is pending, after the second it is in P8. */
  lemma EarlyTurn(s: System, m: nat)
    requires Enabled(s, m) && m <= 1
    ensures Pollable(s)
    ensures var r := Step(EARLY_CONFIG, NoFaults(), s, GpuTick(""));
            && r == AfterTurn(EARLY_CONFIG, NoFaults(), s, 0)
            && r.slots[0].memory == Memory(m + 1, m == 1, false) && r.slots[0].bus.index == 0
            && (m == 1 ==> r.slots[0].bus.card.pstate == IDLE_PSTATE)
  {
    hide Inv, NoLeftovers, FilesWork;
    var cfg, env := EARLY_CONFIG, NoFaults();
    assert ProfileCount(STALE_CONTROL.profile) == 1;
    var t := TurnOf(cfg, env, s, 0);
    assert t.ok;
    assert PollFrom(cfg, env, s, 0, 1) == PollFrom(cfg, env, AfterTurn(cfg, env, s, 0), 1, 1);
  }

  lemma EarlyCounts(s: System)
    requires Enabled(s, 0)
    ensures Pollable(s) && Enabled(Step(EARLY_CONFIG, NoFaults(), s, GpuTick("")), 1)
  {
    hide Inv, NoLeftovers, FilesWork, Tick, AfterTurn;
    EarlyTurn(s, 0);
    TickInv(EARLY_CONFIG, NoFaults(), s, "");
  }

  lemma EarlyEnters(s: System)
    requires Enabled(s, 1)
    ensures Pollable(s) && s.active && !s.slots[0].memory.lowPower
    ensures var r := Step(EARLY_CONFIG, NoFaults(), s, GpuTick(""));
            r.slots.Keys == {0} && r.slots[0].memory.lowPower && r.slots[0].bus.card.pstate == IDLE_PSTATE
  {
    EarlyTurn(s, 1);
  }

  /** Off and on again. */
  lemma EarlyPause(s: System)
    requires Enabled(s, 1)
    ensures Pollable(s)
    ensures var paused := Step(EARLY_CONFIG, NoFaults(), s, SWITCH_OFF);
            !paused.active && Enabled(Step(EARLY_CONFIG, NoFaults(), paused, SWITCH_ON), 1)
  {
    hide Inv, NoLeftovers, FilesWork, Fits, Status.Active, Status.Inactive;
    var cfg, env := EARLY_CONFIG, NoFaults();
    StaleFits();
    var paused := Step(cfg, env, s, SWITCH_OFF);
    InactiveReport(env.fs, s.dir);
    InactiveLeavesNone(env.fs, s.dir);
    ActiveSucceeds(env.fs, paused.dir, STALE_CONTROL);
    PauseKeepsCount(cfg, env, s, SWITCH_OFF, SWITCH_ON, STALE_CONTROL, 0);
    SyncControlInv(cfg, env, s, SWITCH_OFF.request, [0]);
    SyncControlInv(cfg, env, paused, SWITCH_ON.request, [0]);
  }
}
