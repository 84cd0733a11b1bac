/** What every event keeps, whatever calls fail. */
module Invariant {
  import opened Cards
  import opened Hardware
  import opened Policy
  import opened Restoration

  /** Memory by itself: a manual fan only in low power, low power only after enough idle
      polls. */
  predicate Earned(cfg: Config, v: Memory) {
    (v.manualFan ==> v.lowPower) && (v.lowPower ==> v.idlePolls >= cfg.idleAfter)
  }

  /** Memory is a faithful cache: a flag says what the hardware is set to. */
  predicate Cached(cfg: Config, percent: int, v: Memory, card: Card) {
    && (v.lowPower ==> card.pstate == IDLE_PSTATE && card.clock == Unlocked && (cfg.hasCoreOffset ==> card.offset == 0))
    && (v.manualFan ==> card.fan == Fixed(percent) && 15 <= percent <= 100)
  }

  /** The governor knows that it holds the control. */
  predicate Held(v: Memory, k: Knob) {
    if k.FanKnob? then v.manualFan else v.lowPower
  }

  /** No silent leak on one card: each control is released, or known to be held, or the
      governor had an error from its latest attempt to restore it. */
  ghost predicate NoLeak(cfg: Config, slot: Slot) {
    forall k :: Held(slot.memory, k) || Settled(cfg, slot.bus, k)
  }

  /** The part of the invariant that a failed call cannot break even for a moment: low
      power only on a card of the active profile, and nothing at all remembered of a
      card that a clean-up would skip. */
  ghost predicate MemoryOk(cfg: Config, s: System, i: int)
    requires i in s.slots
  {
    var v := s.slots[i].memory;
    && Earned(cfg, v)
    && (v.lowPower ==> s.active && 0 <= i < ProfileCount(s.control.profile))
    && (v != FORGOTTEN ==> SupportedIndex(cfg.gpus, i))
  }

  /** The slots are the listed cards. */
  ghost predicate Listed(cfg: Config, s: System) {
    forall i :: i in s.slots <==> ListedIndex(cfg.gpus, i)
  }

  /** An active request was enabled, well-formed and validated. */
  ghost predicate Validated(cfg: Config, s: System) {
    s.active ==> s.control.enabled && WellFormed(s.control) && Fits(cfg.gpus, s.control.profile)
  }

  ghost predicate Shape(cfg: Config, s: System) {
    Listed(cfg, s) && Validated(cfg, s) && forall i :: i in s.slots ==> MemoryOk(cfg, s, i)
  }

  /** A card that is not in low power has not been idle for long enough. */
  predicate Pending(cfg: Config, v: Memory) {
    cfg.idleAfter > 0 && !v.lowPower ==> v.idlePolls < cfg.idleAfter
  }

  ghost predicate SlotOk(cfg: Config, s: System, i: int)
    requires i in s.slots
  {
    && Pending(cfg, s.slots[i].memory)
    && Cached(cfg, s.control.idleFanPercent, s.slots[i].memory, s.slots[i].bus.card)
    && (SupportedIndex(cfg.gpus, i) ==> NoLeak(cfg, s.slots[i]))
  }

  ghost predicate Inv(cfg: Config, s: System) {
    Shape(cfg, s) && forall i :: i in s.slots ==> SlotOk(cfg, s, i)
  }

  /** No card is held. */
  ghost predicate Unflagged(s: System) {
    forall i :: i in s.slots ==> !s.slots[i].memory.lowPower && !s.slots[i].memory.manualFan
  }

  ghost predicate AllForgotten(s: System) {
    forall i :: i in s.slots ==> s.slots[i].memory == FORGOTTEN
  }

  lemma ActiveIsPollable(cfg: Config, s: System)
    requires Listed(cfg, s) && Validated(cfg, s) && s.active
    ensures Pollable(s)
    ensures forall i :: 0 <= i < ProfileCount(s.control.profile) ==> SupportedIndex(cfg.gpus, i)
  {
    forall i | 0 <= i < ProfileCount(s.control.profile)
      ensures i in s.slots && SupportedIndex(cfg.gpus, i)
    {
      assert cfg.gpus[i].index == i && IsSupported(cfg.gpus[i]);
    }
  }

  // ----- clean-up and release -----

  /** A clean-up from any hardware state forgets and settles every supported card; it
      needs no more than that unsupported cards were never remembered. */
  lemma CleanupInv(cfg: Config, env: Env, s: System)
    requires Listed(cfg, s) && Validated(cfg, s)
    requires forall i :: i in s.slots && s.slots[i].memory != FORGOTTEN ==> SupportedIndex(cfg.gpus, i)
    ensures Inv(cfg, Cleanup(cfg, env, s)) && AllForgotten(Cleanup(cfg, env, s))
  {
    var r := Cleanup(cfg, env, s);
    forall i | i in r.slots ensures r.slots[i].memory == FORGOTTEN && MemoryOk(cfg, r, i) && SlotOk(cfg, r, i) {
      CleanupSettles(cfg, env, s, i);
    }
  }

  /** Releasing a card keeps the account of its controls. */
  lemma ReleasedSlotNoLeak(cfg: Config, env: Env, slot: Slot)
    requires NoLeak(cfg, slot)
    ensures NoLeak(cfg, ReleasedSlot(cfg, env, slot))
  {
    if slot.memory.lowPower || slot.memory.manualFan {
      forall k ensures Settled(cfg, ReleasedSlot(cfg, env, slot).bus, k) {
        assert Held(slot.memory, FanKnob) || Settled(cfg, slot.bus, FanKnob);
        GiveBackSettles(cfg, env.hw, slot.bus, slot.memory.manualFan, k);
      }
    }
  }

  /** Releasing in any complete order leaves no flag set, whatever was remembered. */
  lemma ReleaseAllUnflags(cfg: Config, env: Env, s: System, order: seq<int>)
    requires IsOrder(s, order)
    ensures Unflagged(ReleaseAll(cfg, env, s, order))
  {
    forall i | i in s.slots
      ensures var v := ReleaseAll(cfg, env, s, order).slots[i].memory; !v.lowPower && !v.manualFan
    {
      ReleaseAllSlot(cfg, env, s, order, i);
    }
  }

  /** Releasing keeps the invariant. */
  lemma ReleaseAllInv(cfg: Config, env: Env, s: System, order: seq<int>)
    requires Inv(cfg, s) && IsOrder(s, order)
    ensures Inv(cfg, ReleaseAll(cfg, env, s, order)) && Unflagged(ReleaseAll(cfg, env, s, order))
  {
    var r := ReleaseAll(cfg, env, s, order);
    forall i | i in r.slots
      ensures !r.slots[i].memory.lowPower && !r.slots[i].memory.manualFan && MemoryOk(cfg, r, i) && SlotOk(cfg, r, i)
    {
      ReleaseAllSlot(cfg, env, s, order, i);
      assert MemoryOk(cfg, s, i) && SlotOk(cfg, s, i);
      if SupportedIndex(cfg.gpus, i) { ReleasedSlotNoLeak(cfg, env, s.slots[i]); }
    }
  }

  /** With no flag set, the request, the active bit and the files are free to change. */
  lemma UnflaggedInv(cfg: Config, s: System, s': System)
    requires Inv(cfg, s) && Unflagged(s)
    requires s'.slots == s.slots && Validated(cfg, s')
    ensures Inv(cfg, s')
  {
    forall i | i in s'.slots ensures MemoryOk(cfg, s', i) && SlotOk(cfg, s', i) {
      assert MemoryOk(cfg, s, i) && SlotOk(cfg, s, i);
    }
  }

  lemma DisableInv(cfg: Config, env: Env, s: System, order: seq<int>)
    requires Inv(cfg, s) && IsOrder(s, order)
    ensures var r := Disable(cfg, env, s, order);
            Inv(cfg, r) && !r.active && Unflagged(r)
  {
    ReleaseAllInv(cfg, env, s, order);
    UnflaggedInv(cfg, ReleaseAll(cfg, env, s, order), Disable(cfg, env, s, order));
  }

  /** After a failure nothing is remembered of any card; only `Shape` is needed before. */
  lemma FailInv(cfg: Config, env: Env, s: System, message: string)
    requires Shape(cfg, s)
    ensures var r := Fail(cfg, env, s, message);
            Inv(cfg, r) && !r.active && AllForgotten(r)
  {
    forall i | i in s.slots && s.slots[i].memory != FORGOTTEN ensures SupportedIndex(cfg.gpus, i) {
      assert MemoryOk(cfg, s, i);
    }
    CleanupInv(cfg, env, s);
    UnflaggedInv(cfg, Cleanup(cfg, env, s), Fail(cfg, env, s, message));
  }

  lemma SyncControlInv(cfg: Config, env: Env, s: System, d: Decoded, order: seq<int>)
    requires Inv(cfg, s) && IsOrder(s, order)
    ensures Inv(cfg, SyncControl(cfg, env, s, d, order).0)
  {
    var loaded := LoadControl(d);
    if loaded.Accepted? {
      DisableInv(cfg, env, s, order);
      ReleaseAllInv(cfg, env, s, order);
      var r := SyncControl(cfg, env, s, d, order).0;
      var c := loaded.control;
      if c.enabled && !(s.active && c == s.control) && Fits(cfg.gpus, c.profile) {
        UnflaggedInv(cfg, ReleaseAll(cfg, env, s, order), r);
      }
    }
  }

  // ----- one card's turn -----

  lemma PollCardEarned(cfg: Config, env: Oracle, percent: int, b: Bus, v: Memory)
    requires Earned(cfg, v)
    ensures Earned(cfg, PollCard(cfg, env, percent, b, v).memory)
  {
  }

  lemma DriveFanSettles(cfg: Config, env: Oracle, percent: int, b: Bus, v: Memory, k: Knob)
    requires Held(v, k) || Settled(cfg, b, k)
    ensures var t := DriveFan(cfg, env, percent, b, v);
            t.ok ==> Held(t.memory, k) || Settled(cfg, t.bus, k)
  {
    var b1 := Do(env, b, Temperature);
    DoSettles(cfg, env, b, Temperature, k);
    DoSettles(cfg, env, b1, SetFanAuto, k);
    DoSettles(cfg, env, b1, SetFan(percent), k);
  }

  lemma EnterSettlesFan(cfg: Config, env: Oracle, b: Bus)
    requires Settled(cfg, b, FanKnob)
    ensures Settled(cfg, EnterLowPower(cfg, env, b).bus, FanKnob)
  {
    var b1 := if cfg.hasCoreOffset then Do(env, b, SetCoreOffset(0)) else b;
    var b2 := Do(env, b1, ResetLockedClocks);
    var b3 := Do(env, b2, SetPState(IDLE_PSTATE));
    var b4 := RestoreClocks(cfg, env, b3);
    DoSettles(cfg, env, b, SetCoreOffset(0), FanKnob);
    DoSettles(cfg, env, b1, ResetLockedClocks, FanKnob);
    DoSettles(cfg, env, b2, SetCoreOffset(cfg.coreOffset), FanKnob);
    DoSettles(cfg, env, b2, SetPState(IDLE_PSTATE), FanKnob);
    DoSettles(cfg, env, b3, ClockCall(cfg), FanKnob);
    DoSettles(cfg, env, b4, SetCoreOffset(cfg.coreOffset), FanKnob);
  }

  lemma IdleCardSettles(cfg: Config, env: Oracle, percent: int, b: Bus, v: Memory, k: Knob)
    requires Held(v, k) || Settled(cfg, b, k)
    ensures var t := IdleCard(cfg, env, percent, b, v);
            t.ok ==> Held(t.memory, k) || Settled(cfg, t.bus, k)
  {
    if !v.lowPower && v.idlePolls >= cfg.idleAfter {
      var entered := EnterLowPower(cfg, env, b);
      var v1 := v.(lowPower := true);
      if entered.ok {
        if k == FanKnob && !v.manualFan { EnterSettlesFan(cfg, env, b); }
        DriveFanSettles(cfg, env, percent, entered.bus, v1, k);
      }
    } else {
      DriveFanSettles(cfg, env, percent, b, v, k);
    }
  }

  /** A turn without an error accounts for every control it leaves behind. */
  lemma PollCardNoLeak(cfg: Config, env: Oracle, percent: int, b: Bus, v: Memory)
    requires NoLeak(cfg, Slot(b, v))
    ensures var t := PollCard(cfg, env, percent, b, v);
            t.ok ==> NoLeak(cfg, Slot(t.bus, t.memory))
  {
    var t := PollCard(cfg, env, percent, b, v);
    var b1 := Do(env, b, Utilization);
    if t.ok {
      forall k ensures Held(t.memory, k) || Settled(cfg, t.bus, k) {
        assert Held(v, k) || Settled(cfg, b, k);
        assert Held(v, FanKnob) || Settled(cfg, b, FanKnob);
        DoSettles(cfg, env, b, Utilization, k);
        DoSettles(cfg, env, b, Utilization, FanKnob);
        if LastReading(b1) > cfg.utilThreshold {
          if v.lowPower || v.manualFan { GiveBackSettles(cfg, env, b1, v.manualFan, k); }
        } else {
          IdleCardSettles(cfg, env, percent, b1, v.(idlePolls := v.idlePolls + 1), k);
        }
      }
    }
  }

  lemma EnterCached(cfg: Config, env: Oracle, b: Bus)
    ensures var r := EnterLowPower(cfg, env, b);
            r.ok ==> r.bus.card == b.card.(pstate := IDLE_PSTATE, clock := Unlocked,
                                           offset := if cfg.hasCoreOffset then 0 else b.card.offset)
  {
  }

  lemma PollCardCached(cfg: Config, env: Oracle, percent: int, b: Bus, v: Memory)
    requires Earned(cfg, v) && Cached(cfg, percent, v, b.card)
    requires percent == 0 || 15 <= percent <= 100
    ensures var t := PollCard(cfg, env, percent, b, v);
            t.ok ==> Cached(cfg, percent, t.memory, t.bus.card)
  {
    hide EnterLowPower, GiveBack;
    EnterCached(cfg, env, Do(env, b, Utilization));
  }

  lemma PollCardPending(cfg: Config, env: Oracle, percent: int, b: Bus, v: Memory)
    ensures var t := PollCard(cfg, env, percent, b, v);
            t.ok ==> Pending(cfg, t.memory)
  {
    hide Do, EnterLowPower, GiveBack;
  }

  // ----- the whole tick -----

  lemma TurnShape(cfg: Config, env: Env, s: System, i: int)
    requires Shape(cfg, s) && s.active && 0 <= i < ProfileCount(s.control.profile) && i in s.slots
    ensures Shape(cfg, AfterTurn(cfg, env, s, i))
  {
    var r := AfterTurn(cfg, env, s, i);
    ActiveIsPollable(cfg, s);
    forall j | j in r.slots ensures MemoryOk(cfg, r, j) {
      assert MemoryOk(cfg, s, j);
      if j == i {
        PollCardEarned(cfg, env.hw, s.control.idleFanPercent, s.slots[i].bus, s.slots[i].memory);
      }
    }
  }

  lemma TurnInv(cfg: Config, env: Env, s: System, i: int)
    requires Inv(cfg, s) && s.active && 0 <= i < ProfileCount(s.control.profile) && i in s.slots
    requires TurnOf(cfg, env, s, i).ok
    ensures Inv(cfg, AfterTurn(cfg, env, s, i))
  {
    var r := AfterTurn(cfg, env, s, i);
    TurnShape(cfg, env, s, i);
    ActiveIsPollable(cfg, s);
    forall j | j in r.slots ensures SlotOk(cfg, r, j) {
      assert SlotOk(cfg, s, j) && MemoryOk(cfg, s, j);
      if j == i {
        PollCardPending(cfg, env.hw, s.control.idleFanPercent, s.slots[i].bus, s.slots[i].memory);
        PollCardCached(cfg, env.hw, s.control.idleFanPercent, s.slots[i].bus, s.slots[i].memory);
        PollCardNoLeak(cfg, env.hw, s.control.idleFanPercent, s.slots[i].bus, s.slots[i].memory);
      }
    }
  }

  ghost predicate PollEndInv(cfg: Config, end: (System, bool)) {
    if end.1 then Inv(cfg, end.0) else Shape(cfg, end.0)
  }

  /** An error-free tick keeps the invariant; one that stops half way keeps the shape,
      which is all a clean-up needs. */
  lemma {:induction false} PollFromInv(cfg: Config, env: Env, s: System, i: nat, count: nat)
    requires Inv(cfg, s) && s.active && count == ProfileCount(s.control.profile)
    requires forall j :: 0 <= j < count ==> j in s.slots
    ensures PollEndInv(cfg, PollFrom(cfg, env, s, i, count))
    decreases count - i
  {
    hide TurnOf, AfterTurn, Shape, SlotOk, ProfileCount;
    if i >= count {
    } else {
      var s1 := AfterTurn(cfg, env, s, i);
      if TurnOf(cfg, env, s, i).ok {
        TurnInv(cfg, env, s, i);
        assert PollFrom(cfg, env, s, i, count) == PollFrom(cfg, env, s1, i + 1, count);
        PollFromInv(cfg, env, s1, i + 1, count);
      } else {
        TurnShape(cfg, env, s, i);
        assert PollFrom(cfg, env, s, i, count) == (s1, false);
      }
    }
  }

  lemma TickInv(cfg: Config, env: Env, s: System, message: string)
    requires Inv(cfg, s)
    ensures s.active ==> Pollable(s)
    ensures Inv(cfg, Tick(cfg, env, s, message))
  {
    if s.active {
      ActiveIsPollable(cfg, s);
      PollFromInv(cfg, env, s, 0, ProfileCount(s.control.profile));
      var (s1, ok) := Poll(cfg, env, s);
      if !ok { FailInv(cfg, env, s1, message); }
    }
  }
}
