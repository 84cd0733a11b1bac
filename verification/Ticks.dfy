/** What one GPU tick does card by card, and how it deals with faults. */
module Ticks {
  import opened Cards
  import opened Hardware
  import opened Policy
  import opened Restoration
  import opened Invariant
  import opened History

  // ----- errors and failed calls -----

  /** `r` extends `b`, and no call in between failed. */
  predicate CleanSince(b: Bus, r: Bus) {
    b.log <= r.log && forall k :: |b.log| <= k < |r.log| ==> r.log[k].reply.Done?
  }

  lemma CleanSinceDo(env: Oracle, b: Bus, b1: Bus, call: Call)
    requires b.log <= b1.log
    ensures var r := Do(env, b1, call);
            b.log <= r.log && (CleanSince(b, r) <==> CleanSince(b, b1) && LastOk(r))
  {
    var r := Do(env, b1, call);
    DoFacts(env, b1, call);
    forall k | 0 <= k < |b1.log| ensures r.log[k] == b1.log[k] { }
  }

  lemma GiveBackOk(cfg: Config, env: Oracle, b0: Bus, b: Bus, fan: bool)
    requires b0.log <= b.log
    ensures var r := GiveBack(cfg, env, b, fan);
            b0.log <= r.bus.log && (CleanSince(b0, r.bus) <==> CleanSince(b0, b) && r.ok)
  {
    hide Do, CleanSince, LastOk;
    var b1 := if fan then Do(env, b, SetFanAuto) else b;
    var b2 := Do(env, b1, SetPState(AUTO_PSTATE));
    var b3 := RestoreCoreOffset(cfg, env, b2);
    CleanSinceDo(env, b0, b, SetFanAuto);
    CleanSinceDo(env, b0, b1, SetPState(AUTO_PSTATE));
    CleanSinceDo(env, b0, b2, SetCoreOffset(cfg.coreOffset));
    CleanSinceDo(env, b0, b3, ClockCall(cfg));
  }

  lemma EnterOk(cfg: Config, env: Oracle, b0: Bus, b: Bus)
    requires b0.log <= b.log
    ensures var r := EnterLowPower(cfg, env, b);
            b0.log <= r.bus.log && (CleanSince(b0, r.bus) <==> CleanSince(b0, b) && r.ok)
  {
    hide Do, CleanSince, LastOk;
    var b1 := if cfg.hasCoreOffset then Do(env, b, SetCoreOffset(0)) else b;
    CleanSinceDo(env, b0, b, SetCoreOffset(0));
    var b2 := Do(env, b1, ResetLockedClocks);
    CleanSinceDo(env, b0, b1, ResetLockedClocks);
    var b3 := Do(env, b2, SetPState(IDLE_PSTATE));
    CleanSinceDo(env, b0, b2, SetPState(IDLE_PSTATE));
    CleanSinceDo(env, b0, b2, SetCoreOffset(cfg.coreOffset));
    CleanSinceDo(env, b0, b3, ClockCall(cfg));
    CleanSinceDo(env, b0, RestoreClocks(cfg, env, b3), SetCoreOffset(cfg.coreOffset));
  }

  lemma DriveFanOk(cfg: Config, env: Oracle, percent: int, b0: Bus, b: Bus, v: Memory)
    requires b0.log <= b.log
    ensures var r := DriveFan(cfg, env, percent, b, v);
            b0.log <= r.bus.log && (CleanSince(b0, r.bus) <==> CleanSince(b0, b) && r.ok)
  {
    hide Do, CleanSince, LastOk, LastReading;
    var b1 := Do(env, b, Temperature);
    CleanSinceDo(env, b0, b, Temperature);
    CleanSinceDo(env, b0, b1, SetFanAuto);
    CleanSinceDo(env, b0, b1, SetFan(percent));
  }

  /** A turn reports an error exactly if one of its calls failed, including the calls
      whose own errors the code discards. */
  lemma PollCardOk(cfg: Config, env: Oracle, percent: int, b: Bus, v: Memory)
    ensures var t := PollCard(cfg, env, percent, b, v);
            b.log <= t.bus.log && (t.ok <==> CleanSince(b, t.bus))
  {
    hide Do, CleanSince, LastOk, LastReading, GiveBack, EnterLowPower, DriveFan;
    var b1 := Do(env, b, Utilization);
    assert CleanSince(b, b) by { CleanSinceRefl(b); }
    CleanSinceDo(env, b, b, Utilization);
    if LastOk(b1) {
      GiveBackOk(cfg, env, b, b1, v.manualFan);
      var v1 := v.(idlePolls := v.idlePolls + 1);
      EnterOk(cfg, env, b, b1);
      DriveFanOk(cfg, env, percent, b, EnterLowPower(cfg, env, b1).bus, v1.(lowPower := true));
      DriveFanOk(cfg, env, percent, b, b1, v1);
    }
  }

  lemma CleanSinceRefl(b: Bus)
    ensures CleanSince(b, b)
  {
  }

  /** A card read busy is forgotten, from any memory and even if giving it back fails. */
  lemma BusyForgets(cfg: Config, env: Oracle, percent: int, b: Bus, v: Memory)
    requires LastOk(Do(env, b, Utilization)) && LastReading(Do(env, b, Utilization)) > cfg.utilThreshold
    ensures PollCard(cfg, env, percent, b, v).memory == Memory(0, false, false)
  {
    hide Do, GiveBack;
  }

  /** The log grew by sensor readings only, `n` of them. */
  ghost predicate OnlyRead(b: Bus, r: Bus, n: nat) {
    && b.log <= r.log && |r.log| == |b.log| + n
    && forall k :: |b.log| <= k < |r.log| ==> r.log[k].call in {Utilization, Temperature}
  }

  /** Controls are set only when a flag changes: an error-free turn that leaves both flags as
      they were reads the load, and the temperature of a card in low power under a fan
      request, and makes no other call. */
  lemma SettersOnlyOnChange(cfg: Config, env: Oracle, percent: int, b: Bus, v: Memory)
    requires PollCard(cfg, env, percent, b, v).ok && (v.manualFan ==> v.lowPower)
    requires var t := PollCard(cfg, env, percent, b, v).memory;
             t.lowPower == v.lowPower && t.manualFan == v.manualFan
    ensures var t := PollCard(cfg, env, percent, b, v);
            OnlyRead(b, t.bus, if v.lowPower && percent > 0 then 2 else 1) && t.bus.card == b.card
  {
    hide GiveBack, EnterLowPower;
    var b1 := Do(env, b, Utilization);
    DoFacts(env, b, Utilization);
    DoFacts(env, b1, Temperature);
  }

  // ----- the tick, card by card -----

  function TurnSlot(cfg: Config, env: Env, s: System, i: int): Slot
    requires i in s.slots
  {
    var t := TurnOf(cfg, env, s, i);
    Slot(t.bus, t.memory)
  }

  /** Where a tick stopped: at the first card whose turn failed, or past the last one. */
  ghost predicate StoppedAt(cfg: Config, env: Env, s: System, end: (System, bool), from: nat, f: nat, count: nat)
    requires forall j :: 0 <= j < count ==> j in s.slots
  {
    && end.0.slots.Keys == s.slots.Keys
    && (end.1 <==> f == count)
    && (forall j :: from <= j < f && j < count ==> TurnOf(cfg, env, s, j).ok)
    && (f < count ==> !TurnOf(cfg, env, s, f).ok)
    && (forall j :: j in s.slots ==>
          end.0.slots[j] == if from <= j <= f && j < count then TurnSlot(cfg, env, s, j) else s.slots[j])
  }

  /** A tick gives each card its turn, independent of the other cards, up to and including
      the first one that fails; later cards are not touched. */
  lemma {:induction false} PollFromSlots(cfg: Config, env: Env, s: System, i: nat, count: nat) returns (f: nat)
    requires i <= count && forall j :: 0 <= j < count ==> j in s.slots
    ensures i <= f <= count && StoppedAt(cfg, env, s, PollFrom(cfg, env, s, i, count), i, f, count)
    decreases count - i
  {
    hide PollCard;
    f := i;
    if i == count || !TurnOf(cfg, env, s, i).ok {
    } else {
      var s1 := AfterTurn(cfg, env, s, i);
      assert PollFrom(cfg, env, s, i, count) == PollFrom(cfg, env, s1, i + 1, count);
      f := PollFromSlots(cfg, env, s1, i + 1, count);
      forall j | j in s.slots && j != i ensures TurnOf(cfg, env, s1, j) == TurnOf(cfg, env, s, j) { }
    }
  }

  /** An error-free tick gives every card of the profile its turn. */
  lemma PollSlots(cfg: Config, env: Env, s: System)
    requires Pollable(s) && Poll(cfg, env, s).1
    ensures forall j :: j in s.slots ==>
      Poll(cfg, env, s).0.slots[j] ==
        if 0 <= j < ProfileCount(s.control.profile) then TurnSlot(cfg, env, s, j) else s.slots[j]
    ensures forall j :: 0 <= j < ProfileCount(s.control.profile) ==> TurnOf(cfg, env, s, j).ok
  {
    hide TurnOf;
    var f := PollFromSlots(cfg, env, s, 0, ProfileCount(s.control.profile));
  }

  /** A tick ends without an error exactly if no hardware call failed in it. */
  lemma PollOkIffNoFault(cfg: Config, env: Env, s: System)
    requires Pollable(s)
    ensures Poll(cfg, env, s).1 <==>
      forall j :: j in s.slots ==> CleanSince(s.slots[j].bus, Poll(cfg, env, s).0.slots[j].bus)
  {
    hide PollCard, CleanSince;
    var count := ProfileCount(s.control.profile);
    var f := PollFromSlots(cfg, env, s, 0, count);
    var r := Poll(cfg, env, s).0;
    forall j | j in s.slots
      ensures CleanSince(s.slots[j].bus, r.slots[j].bus) <==> !(0 <= j <= f && j < count && !TurnOf(cfg, env, s, j).ok)
    {
      CleanSinceRefl(s.slots[j].bus);
      PollCardOk(cfg, env.hw, s.control.idleFanPercent, s.slots[j].bus, s.slots[j].memory);
    }
    if f < count { assert f in s.slots; }
  }

  // ----- containment -----

  /** The calls that give one card back. */
  function RestoringCalls(cfg: Config): seq<Call> {
    [SetFanAuto, SetPState(AUTO_PSTATE)]
    + (if cfg.hasCoreOffset then [SetCoreOffset(cfg.coreOffset)] else [])
    + [ClockCall(cfg)]
  }

  /** `r` extends `b`, and the last calls in between are the complete restoring sequence. */
  ghost predicate EndsRestoring(cfg: Config, b: Bus, r: Bus) {
    var n := |RestoringCalls(cfg)|;
    && b.log <= r.log && |r.log| >= |b.log| + n
    && forall k :: 0 <= k < n ==> r.log[|r.log| - n + k].call == RestoringCalls(cfg)[k]
  }

  lemma GiveBackCalls(cfg: Config, env: Oracle, b0: Bus, b: Bus)
    requires b0.log <= b.log
    ensures EndsRestoring(cfg, b0, GiveBack(cfg, env, b, true).bus)
  {
  }

  lemma {:induction false} GivenCalls(cfg: Config, env: Env, b0: Bus, slot: Slot, times: nat)
    requires b0.log <= slot.bus.log
    requires times == 0 ==> EndsRestoring(cfg, b0, slot.bus)
    ensures EndsRestoring(cfg, b0, Given(cfg, env, slot, times).bus)
    decreases times
  {
    if times == 0 {
    } else {
      GiveBackCalls(cfg, env.hw, b0, slot.bus);
      GivenCalls(cfg, env, b0, CleanedSlot(cfg, env, slot), times - 1);
    }
  }

  /** A tick in which any call on any card fails ends inactive with nothing remembered of
      any card, and every restoring call was attempted, after the failure, on every
      supported card, also on those the tick never reached. */
  lemma FaultContained(cfg: Config, env: Env, s: System, message: string, i: int)
    requires Inv(cfg, s) && s.active && Pollable(s) && i in s.slots
    requires exists j :: j in s.slots && !CleanSince(s.slots[j].bus, Poll(cfg, env, s).0.slots[j].bus)
    ensures var r := Tick(cfg, env, s, message);
            && !r.active && AllForgotten(r)
            && (SupportedIndex(cfg.gpus, i) ==> EndsRestoring(cfg, Poll(cfg, env, s).0.slots[i].bus, r.slots[i].bus))
            && (SupportedIndex(cfg.gpus, i) ==> forall k :: Settled(cfg, r.slots[i].bus, k))
  {
    PollOkIffNoFault(cfg, env, s);
    PollFromInv(cfg, env, s, 0, ProfileCount(s.control.profile));
    var s1 := Poll(cfg, env, s).0;
    FailInv(cfg, env, s1, message);
    CleanupFromSlot(cfg, env, s1, 0, i);
    TimesSupported(cfg.gpus, 0, i);
    CleanupSettles(cfg, env, s1, i);
    if SupportedIndex(cfg.gpus, i) {
      GivenCalls(cfg, env, s1.slots[i].bus, s1.slots[i], Times(cfg.gpus, 0, i));
    }
  }

  /** In an error-free tick every card that read busy is given back in that very tick: no
      flag, no idle count, every control settled, and released outright if it was held. */
  lemma BusyRestored(cfg: Config, env: Env, s: System, i: int)
    requires Inv(cfg, s) && s.active && Pollable(s) && Poll(cfg, env, s).1
    requires 0 <= i < ProfileCount(s.control.profile)
    ensures var slot, was := Poll(cfg, env, s).0.slots[i], s.slots[i];
            var us := Utils(slot.bus.log);
            && |us| == |Utils(was.bus.log)| + 1
            && (us[|us| - 1] > cfg.utilThreshold ==>
                  && slot.memory == FORGOTTEN
                  && forall k :: Settled(cfg, slot.bus, k) && (Held(was.memory, k) ==> Released(cfg, slot.bus.card, k)))
  {
    ActiveIsPollable(cfg, s);
    PollSlots(cfg, env, s);
    assert SlotOk(cfg, s, i) && MemoryOk(cfg, s, i);
    var slot, was := Poll(cfg, env, s).0.slots[i], s.slots[i];
    hide PollCard;
    PollCardNoLeak(cfg, env.hw, s.control.idleFanPercent, was.bus, was.memory);
    var util, temp := PollCardTurn(cfg, env.hw, s.control.idleFanPercent, was.bus, was.memory);
    assert NoLeak(cfg, slot);
    if util > cfg.utilThreshold {
      forall k ensures Settled(cfg, slot.bus, k) && (Held(was.memory, k) ==> Released(cfg, slot.bus.card, k)) {
        assert Held(slot.memory, k) || Settled(cfg, slot.bus, k);
      }
    }
  }

  /** After an error-free tick a manual fan belongs to a card that was read in this tick
      as idle and below the temperature limit, and it runs at the percentage of the
      control now in force. */
  lemma ThermalSafety(cfg: Config, env: Env, s: System, i: int)
    requires Inv(cfg, s) && s.active && Pollable(s) && Poll(cfg, env, s).1
    requires i in s.slots && Poll(cfg, env, s).0.slots[i].memory.manualFan
    ensures var r := Poll(cfg, env, s).0;
            var us, ts := Utils(r.slots[i].bus.log), Temps(r.slots[i].bus.log);
            && |us| == |Utils(s.slots[i].bus.log)| + 1 && us[|us| - 1] <= cfg.utilThreshold
            && |ts| == |Temps(s.slots[i].bus.log)| + 1 && ts[|ts| - 1] < cfg.fanAutoTemp
            && 15 <= r.control.idleFanPercent <= 100
            && r.slots[i].bus.card.fan == Fixed(r.control.idleFanPercent)
  {
    PollSlots(cfg, env, s);
    PollFromInv(cfg, env, s, 0, ProfileCount(s.control.profile));
    var r := Poll(cfg, env, s).0;
    assert Inv(cfg, r);
    assert MemoryOk(cfg, r, i) && SlotOk(cfg, r, i) && MemoryOk(cfg, s, i);
    hide PollCard;
    var util, temp := PollCardTurn(cfg, env.hw, s.control.idleFanPercent, s.slots[i].bus, s.slots[i].memory);
  }
}
