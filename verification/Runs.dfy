/** Whole runs of the governor: start-up, any events in any order, any faults. */
module Runs {
  import opened Cards
  import opened Hardware
  import opened Policy
  import opened Restoration
  import opened Invariant
  import opened Chronicle

  datatype Start = Start(request: Decoded, order: seq<int>, message: string)

  /** A process that has just started: any hardware, no memory, no calls made yet. */
  ghost predicate Fresh(cfg: Config, s: System) {
    && Listed(cfg, s) && !s.active && AllForgotten(s)
    && forall i :: i in s.slots ==> s.slots[i].bus.log == []
  }

  /** Map iterations inside an event visit every entry once. */
  ghost predicate Orderly(s: System, e: Event) {
    e.ControlTick? ==> IsOrder(s, e.order) && IsOrder(s, e.disableOrder)
  }

  /** Event-wise invariant of a run that began in `s0` and whose start-up clean-up ended
      in `base`. */
  ghost predicate RunOk(cfg: Config, s0: System, base: System, s: System) {
    && Inv(cfg, s)
    && s.slots.Keys == base.slots.Keys == s0.slots.Keys
    && forall i :: i in s.slots ==> SlotRunOk(cfg, s0.slots[i], base.slots[i], s.slots[i], SupportedIndex(cfg.gpus, i))
  }

  ghost predicate SlotRunOk(cfg: Config, first: Slot, base: Slot, slot: Slot, supported: bool) {
    if supported then Chronicled(cfg, |base.bus.log|, slot) && Counted(cfg, slot) else slot == first
  }

  // ----- clean-up -----

  lemma {:induction false} GivenChronicled(cfg: Config, env: Env, n: nat, slot: Slot, times: nat)
    requires Chronicled(cfg, n, slot)
    ensures Chronicled(cfg, n, Given(cfg, env, slot, times))
    decreases times
  {
    if times == 0 {
    } else {
      GivenBackChronicled(cfg, env.hw, n, slot, true);
      GivenChronicled(cfg, env, n, CleanedSlot(cfg, env, slot), times - 1);
    }
  }

  /** The invariant in the middle of a tick that may be about to fail. */
  ghost predicate MidRunOk(cfg: Config, s0: System, base: System, s: System) {
    && Shape(cfg, s)
    && s.slots.Keys == base.slots.Keys == s0.slots.Keys
    && forall i :: i in s.slots ==>
         if SupportedIndex(cfg.gpus, i) then Chronicled(cfg, |base.slots[i].bus.log|, s.slots[i])
         else s.slots[i] == s0.slots[i]
  }

  lemma FailRun(cfg: Config, env: Env, s0: System, base: System, s: System, message: string)
    requires MidRunOk(cfg, s0, base, s)
    ensures RunOk(cfg, s0, base, Fail(cfg, env, s, message))
  {
    var r := Fail(cfg, env, s, message);
    FailInv(cfg, env, s, message);
    forall i | i in r.slots
      ensures SlotRunOk(cfg, s0.slots[i], base.slots[i], r.slots[i], SupportedIndex(cfg.gpus, i))
    {
      CleanupSettles(cfg, env, s, i);
      if SupportedIndex(cfg.gpus, i) {
        CleanupFromSlot(cfg, env, s, 0, i);
        GivenChronicled(cfg, env, |base.slots[i].bus.log|, s.slots[i], Times(cfg.gpus, 0, i));
      }
    }
  }

  lemma ReleaseAllRun(cfg: Config, env: Env, s0: System, base: System, s: System, order: seq<int>)
    requires RunOk(cfg, s0, base, s) && IsOrder(s, order)
    ensures RunOk(cfg, s0, base, ReleaseAll(cfg, env, s, order))
  {
    var r := ReleaseAll(cfg, env, s, order);
    ReleaseAllInv(cfg, env, s, order);
    forall i | i in r.slots
      ensures SlotRunOk(cfg, s0.slots[i], base.slots[i], r.slots[i], SupportedIndex(cfg.gpus, i))
    {
      ReleaseAllSlot(cfg, env, s, order, i);
      assert MemoryOk(cfg, s, i);
      if SupportedIndex(cfg.gpus, i) {
        GivenBackChronicled(cfg, env.hw, |base.slots[i].bus.log|, s.slots[i], s.slots[i].memory.manualFan);
      }
    }
  }

  // ----- a GPU tick -----

  lemma AfterTurnRun(cfg: Config, env: Env, s0: System, base: System, s: System, i: int)
    requires RunOk(cfg, s0, base, s) && s.active && 0 <= i < ProfileCount(s.control.profile) && i in s.slots
    ensures var s1 := AfterTurn(cfg, env, s, i);
            MidRunOk(cfg, s0, base, s1) && (TurnOf(cfg, env, s, i).ok ==> RunOk(cfg, s0, base, s1))
  {
    ActiveIsPollable(cfg, s);
    TurnShape(cfg, env, s, i);
    if TurnOf(cfg, env, s, i).ok { TurnInv(cfg, env, s, i); }
    assert SlotRunOk(cfg, s0.slots[i], base.slots[i], s.slots[i], true);
    var n, percent := |base.slots[i].bus.log|, s.control.idleFanPercent;
    PollCardChronicled(cfg, env.hw, n, percent, s.slots[i].bus, s.slots[i].memory);
    var s1 := AfterTurn(cfg, env, s, i);
    forall j | j in s1.slots && j != i
      ensures SlotRunOk(cfg, s0.slots[j], base.slots[j], s1.slots[j], SupportedIndex(cfg.gpus, j))
    {
      assert s1.slots[j] == s.slots[j];
    }
  }

  /** How a tick ends: with the full invariant, or about to fail. */
  ghost predicate PollEndOk(cfg: Config, s0: System, base: System, end: (System, bool)) {
    if end.1 then RunOk(cfg, s0, base, end.0) else MidRunOk(cfg, s0, base, end.0)
  }

  lemma {:induction false} PollFromRun(cfg: Config, env: Env, s0: System, base: System, s: System, i: nat, count: nat)
    requires RunOk(cfg, s0, base, s) && s.active && count == ProfileCount(s.control.profile)
    requires forall j :: 0 <= j < count ==> j in s.slots
    ensures PollEndOk(cfg, s0, base, PollFrom(cfg, env, s, i, count))
    decreases count - i
  {
    hide TurnOf, AfterTurn, RunOk, MidRunOk, ProfileCount;
    if i >= count {
    } else {
      var s1 := AfterTurn(cfg, env, s, i);
      AfterTurnRun(cfg, env, s0, base, s, i);
      if TurnOf(cfg, env, s, i).ok {
        assert PollFrom(cfg, env, s, i, count) == PollFrom(cfg, env, s1, i + 1, count);
        PollFromRun(cfg, env, s0, base, s1, i + 1, count);
      } else {
        assert PollFrom(cfg, env, s, i, count) == (s1, false);
      }
    }
  }

  /** The start-up clean-up, from any hardware state, ends with every supported card out of
      P8 unless a request to leave it failed. */
  lemma {:induction false} FirstGiven(cfg: Config, env: Env, slot: Slot, times: nat, k: nat)
    requires LogOk(cfg, slot.bus.log)
    requires k == 0 ==> times > 0
    requires k > 0 && Benign(slot.bus.log) ==> slot.bus.card.pstate == AUTO_PSTATE
    ensures var r := Given(cfg, env, slot, times).bus;
            LogOk(cfg, r.log) && (Benign(r.log) ==> r.card.pstate == AUTO_PSTATE)
    decreases times
  {
    if times == 0 {
    } else {
      GiveBackLog(cfg, env.hw, slot.bus, true);
      GiveBackLeavesP8(cfg, env.hw, slot.bus, true);
      FirstGiven(cfg, env, CleanedSlot(cfg, env, slot), times - 1, k + 1);
    }
  }

  lemma GiveBackLeavesP8(cfg: Config, env: Oracle, b: Bus, fan: bool)
    ensures var r := GiveBack(cfg, env, b, fan).bus;
            Benign(r.log) ==> r.card.pstate == AUTO_PSTATE
  {
    hide Do, Benign, LastOk;
    var b1 := if fan then Do(env, b, SetFanAuto) else b;
    var b2 := Do(env, b1, SetPState(AUTO_PSTATE));
    var b3 := RestoreCoreOffset(cfg, env, b2);
    DoMild(env, b1, SetPState(AUTO_PSTATE));
    DoMild(env, b2, SetCoreOffset(cfg.coreOffset));
    DoMild(env, b3, ClockCall(cfg));
  }

  lemma StartupCleanup(cfg: Config, env: Env, s0: System)
    requires Fresh(cfg, s0)
    ensures var base := Cleanup(cfg, env, s0); RunOk(cfg, s0, base, base)
  {
    var base := Cleanup(cfg, env, s0);
    CleanupInv(cfg, env, s0);
    forall i | i in base.slots
      ensures SlotRunOk(cfg, s0.slots[i], base.slots[i], base.slots[i], SupportedIndex(cfg.gpus, i))
    {
      CleanupSettles(cfg, env, s0, i);
      if SupportedIndex(cfg.gpus, i) {
        CleanupFromSlot(cfg, env, s0, 0, i);
        TimesSupported(cfg.gpus, 0, i);
        FirstGiven(cfg, env, s0.slots[i], Times(cfg.gpus, 0, i), 0);
      }
    }
  }

  // ----- events -----

  lemma RunOkSameSlots(cfg: Config, s0: System, base: System, s: System, s': System)
    requires RunOk(cfg, s0, base, s) && s'.slots == s.slots && Inv(cfg, s')
    ensures RunOk(cfg, s0, base, s')
  {
  }

  lemma SyncControlRun(cfg: Config, env: Env, s0: System, base: System, s: System, d: Decoded, order: seq<int>)
    requires RunOk(cfg, s0, base, s) && IsOrder(s, order)
    ensures RunOk(cfg, s0, base, SyncControl(cfg, env, s, d, order).0)
  {
    var r := SyncControl(cfg, env, s, d, order).0;
    if r != s {
      SyncControlInv(cfg, env, s, d, order);
      ReleaseAllRun(cfg, env, s0, base, s, order);
      assert r.slots == ReleaseAll(cfg, env, s, order).slots;
      RunOkSameSlots(cfg, s0, base, ReleaseAll(cfg, env, s, order), r);
    }
  }

  lemma DisableRun(cfg: Config, env: Env, s0: System, base: System, s: System, order: seq<int>)
    requires RunOk(cfg, s0, base, s) && IsOrder(s, order)
    ensures RunOk(cfg, s0, base, Disable(cfg, env, s, order))
  {
    DisableInv(cfg, env, s, order);
    ReleaseAllRun(cfg, env, s0, base, s, order);
    RunOkSameSlots(cfg, s0, base, ReleaseAll(cfg, env, s, order), Disable(cfg, env, s, order));
  }

  lemma RunOkIsMid(cfg: Config, s0: System, base: System, s: System)
    requires RunOk(cfg, s0, base, s)
    ensures MidRunOk(cfg, s0, base, s)
    ensures s.active ==> Pollable(s)
  {
    if s.active { ActiveIsPollable(cfg, s); }
    forall i | i in s.slots
      ensures if SupportedIndex(cfg.gpus, i) then Chronicled(cfg, |base.slots[i].bus.log|, s.slots[i])
              else s.slots[i] == s0.slots[i]
    {
      assert SlotRunOk(cfg, s0.slots[i], base.slots[i], s.slots[i], SupportedIndex(cfg.gpus, i));
    }
  }

  lemma StepRun(cfg: Config, env: Env, s0: System, base: System, s: System, e: Event)
    requires RunOk(cfg, s0, base, s) && Orderly(s0, e)
    ensures s.active ==> Pollable(s)
    ensures RunOk(cfg, s0, base, Step(cfg, env, s, e))
  {
    RunOkIsMid(cfg, s0, base, s);
    match e
    case GpuTick(message) =>
      if s.active {
        PollFromRun(cfg, env, s0, base, s, 0, ProfileCount(s.control.profile));
        var (s1, ok) := Poll(cfg, env, s);
        if !ok { FailRun(cfg, env, s0, base, s1, message); }
      }
    case ControlTick(d, order, disableOrder, message) =>
      var (s1, error) := SyncControl(cfg, env, s, d, order);
      SyncControlRun(cfg, env, s0, base, s, d, order);
      RunOkIsMid(cfg, s0, base, s1);
      if error == NotFound { DisableRun(cfg, env, s0, base, s1, disableOrder); }
      if error == Other { FailRun(cfg, env, s0, base, s1, message); }
  }

  lemma StartupRun(cfg: Config, env: Env, s0: System, start: Start)
    requires Fresh(cfg, s0) && IsOrder(s0, start.order)
    ensures RunOk(cfg, s0, Cleanup(cfg, env, s0), Startup(cfg, env, s0, start.request, start.order, start.message))
  {
    var base := Cleanup(cfg, env, s0);
    StartupCleanup(cfg, env, s0);
    var (s1, error) := SyncControl(cfg, env, base, start.request, start.order);
    SyncControlRun(cfg, env, s0, base, base, start.request, start.order);
    RunOkIsMid(cfg, s0, base, s1);
    if error == Other { FailRun(cfg, env, s0, base, s1, start.message); }
  }

  // ----- runs -----

  /** The slots are the listed cards, and an active request was validated. */
  ghost predicate Ready(cfg: Config, s: System) {
    Listed(cfg, s) && Validated(cfg, s)
  }

  lemma ReadyStep(cfg: Config, env: Env, s: System, e: Event)
    requires Ready(cfg, s)
    ensures s.active ==> Pollable(s)
    ensures Ready(cfg, Step(cfg, env, s, e))
  {
    if s.active { ActiveIsPollable(cfg, s); }
  }

  /** The state at the event boundary after start-up and the given events. It is defined
      for all events: an active governor never meets a missing state entry. */
  ghost function Boundary(cfg: Config, env: Env, s0: System, start: Start, events: seq<Event>): (s: System)
    requires Fresh(cfg, s0)
    ensures s.slots.Keys == s0.slots.Keys && Ready(cfg, s) && (s.active ==> Pollable(s))
    decreases |events|
  {
    if events == [] then
      var s := Startup(cfg, env, s0, start.request, start.order, start.message);
      assert s.active ==> Pollable(s) by { if s.active { ActiveIsPollable(cfg, s); } }
      s
    else
      var before := Boundary(cfg, env, s0, start, events[..|events| - 1]);
      ReadyStep(cfg, env, before, events[|events| - 1]);
      var s := Step(cfg, env, before, events[|events| - 1]);
      assert s.active ==> Pollable(s) by { if s.active { ActiveIsPollable(cfg, s); } }
      s
  }

  /** A run: a fresh process, a look at the request, and a sequence of events. */
  ghost predicate IsRun(cfg: Config, s0: System, start: Start, events: seq<Event>) {
    Fresh(cfg, s0) && IsOrder(s0, start.order) && forall e :: e in events ==> Orderly(s0, e)
  }

  lemma EarlierIsRun(cfg: Config, s0: System, start: Start, events: seq<Event>, more: seq<Event>)
    requires IsRun(cfg, s0, start, events + more)
    ensures IsRun(cfg, s0, start, events)
  {
    assert forall e :: e in events ==> e in events + more;
  }

  lemma LastEvent(cfg: Config, env: Env, s0: System, start: Start, events: seq<Event>, e: Event)
    requires IsRun(cfg, s0, start, events + [e])
    ensures var before := Boundary(cfg, env, s0, start, events);
            Boundary(cfg, env, s0, start, events + [e]) == Step(cfg, env, before, e)
  {
    hide Step;
    assert (events + [e])[..|events|] == events;
  }

  /** The run invariant holds at every event boundary of every run, whatever fails. */
  lemma {:induction false} RunInvariant(cfg: Config, env: Env, s0: System, start: Start, events: seq<Event>)
    requires IsRun(cfg, s0, start, events)
    ensures RunOk(cfg, s0, Cleanup(cfg, env, s0), Boundary(cfg, env, s0, start, events))
    decreases |events|
  {
    hide RunOk, Startup, Step, Cleanup;
    if events == [] {
      StartupRun(cfg, env, s0, start);
    } else {
      var before := Boundary(cfg, env, s0, start, events[..|events| - 1]);
      RunInvariant(cfg, env, s0, start, events[..|events| - 1]);
      StepRun(cfg, env, s0, Cleanup(cfg, env, s0), before, events[|events| - 1]);
    }
  }
}
