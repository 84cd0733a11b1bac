/** Fault-free releasing: the memory-blind clean-up, its idempotence, and the flag-driven
    release that refines it. */
module Recovery {
  import opened Cards
  import opened Hardware
  import opened Policy
  import opened Restoration
  import opened Invariant
  import opened History
  import opened Ticks

  /** The released state of a card. An offset that is not configured is left alone. */
  function ReleasedCard(cfg: Config, card: Card): (r: Card)
    ensures FullyReleased(cfg, r)
    ensures FullyReleased(cfg, card) ==> r == card
  {
    var r := Card(AUTO_PSTATE, Automatic,
                  if cfg.hasClock then Locked(cfg.clockMin, cfg.clockMax) else Unlocked,
                  if cfg.hasCoreOffset then cfg.coreOffset else card.offset);
    assert FullyReleased(cfg, card) ==> r == card by {
      if FullyReleased(cfg, card) { ReleasedMeaning(cfg, card); }
    }
    r
  }

  /** The released state is unique: a fully released card differs from another one at most
      in an offset the governor does not manage. */
  lemma ReleasedUnique(cfg: Config, a: Card, b: Card)
    requires FullyReleased(cfg, a) && FullyReleased(cfg, b)
    ensures a == b.(offset := a.offset) && (cfg.hasCoreOffset ==> a == b)
  {
    ReleasedMeaning(cfg, a);
    ReleasedMeaning(cfg, b);
  }

  /** No call failed between two states, on any card. */
  ghost predicate NoFault(s: System, r: System) {
    s.slots.Keys == r.slots.Keys && forall i :: i in s.slots ==> CleanSince(s.slots[i].bus, r.slots[i].bus)
  }

  lemma GiveBackExtends(cfg: Config, env: Oracle, b: Bus, fan: bool)
    ensures b.log <= GiveBack(cfg, env, b, fan).bus.log
  {
    GiveBackOk(cfg, env, b, b, fan);
  }

  lemma {:induction false} GivenExtends(cfg: Config, env: Env, slot: Slot, times: nat)
    ensures slot.bus.log <= Given(cfg, env, slot, times).bus.log
    decreases times
  {
    if times == 0 {
    } else {
      GiveBackExtends(cfg, env.hw, slot.bus, true);
      GivenExtends(cfg, env, CleanedSlot(cfg, env, slot), times - 1);
    }
  }

  lemma {:induction false} GivenClean(cfg: Config, env: Env, slot: Slot, times: nat)
    requires CleanSince(slot.bus, Given(cfg, env, slot, times).bus)
    ensures Given(cfg, env, slot, times).bus.card
            == if times > 0 then ReleasedCard(cfg, slot.bus.card) else slot.bus.card
    decreases times
  {
    if times == 0 {
    } else {
      var next, end := CleanedSlot(cfg, env, slot), Given(cfg, env, slot, times);
      GiveBackExtends(cfg, env.hw, slot.bus, true);
      GivenExtends(cfg, env, next, times - 1);
      CleanSplit(slot.bus, next.bus, end.bus);
      GiveBackOk(cfg, env.hw, slot.bus, slot.bus, true);
      CleanSinceRefl(slot.bus);
      GivenCard(cfg, env.hw, slot.bus, true);
      GivenClean(cfg, env, next, times - 1);
    }
  }

  lemma CleanSplit(a: Bus, b: Bus, c: Bus)
    requires a.log <= b.log <= c.log
    ensures CleanSince(a, c) <==> CleanSince(a, b) && CleanSince(b, c)
  {
    forall k | 0 <= k < |b.log| ensures b.log[k] == c.log[k] { }
  }

  /** Crash recovery: from any hardware state and any memory, a fault-free clean-up leaves
      every supported card released and forgotten and every other slot as it was. */
  lemma CrashRecovery(cfg: Config, env: Env, s: System, i: int)
    requires i in s.slots && NoFault(s, Cleanup(cfg, env, s))
    ensures var slot := Cleanup(cfg, env, s).slots[i];
            if SupportedIndex(cfg.gpus, i) then
              && slot.memory == Memory(0, false, false) && FullyReleased(cfg, slot.bus.card)
              && slot.bus.card == Card(16, Automatic,
                                       if cfg.hasClock then Locked(cfg.clockMin, cfg.clockMax) else Unlocked,
                                       if cfg.hasCoreOffset then cfg.coreOffset else s.slots[i].bus.card.offset)
            else slot == s.slots[i]
  {
    CleanupFromSlot(cfg, env, s, 0, i);
    TimesSupported(cfg.gpus, 0, i);
    CleanupSettles(cfg, env, s, i);
    GivenClean(cfg, env, s.slots[i], Times(cfg.gpus, 0, i));
  }

  /** A second fault-free clean-up, even under other outcomes of the calls, changes no
      control and no memory. */
  lemma CleanupIdempotent(cfg: Config, env: Env, env': Env, s: System, i: int)
    requires i in s.slots
    requires NoFault(s, Cleanup(cfg, env, s))
    requires NoFault(Cleanup(cfg, env, s), Cleanup(cfg, env', Cleanup(cfg, env, s)))
    ensures var once := Cleanup(cfg, env, s);
            var twice := Cleanup(cfg, env', once);
            twice.slots[i].bus.card == once.slots[i].bus.card && twice.slots[i].memory == once.slots[i].memory
  {
    CrashRecovery(cfg, env, s, i);
    CrashRecovery(cfg, env', Cleanup(cfg, env, s), i);
  }

  /** No call in the whole log failed. */
  predicate Faultless(log: seq<Entry>) {
    forall k :: 0 <= k < |log| ==> log[k].reply.Done?
  }

  lemma {:induction false} FaultlessRestores(cfg: Config, log: seq<Entry>, k: Knob)
    requires Faultless(log)
    ensures !LastRestoreFailed(cfg, log, k) && !DamagedSince(cfg, log, k)
    decreases |log|
  {
    if log == [] {
    } else {
      FaultlessRestores(cfg, log[..|log| - 1], k);
    }
  }

  /** Trusting memory is as good as distrusting it: from any state the invariant allows in
      which no call has failed so far, releasing only the flagged cards, in any order,
      gives the same controls on every card as the clean-up of all supported cards. */
  lemma ReleaseRefinesCleanup(cfg: Config, env: Env, env': Env, s: System, order: seq<int>, i: int)
    requires Inv(cfg, s) && IsOrder(s, order) && i in s.slots
    requires forall j :: j in s.slots ==> Faultless(s.slots[j].bus.log)
    requires NoFault(s, ReleaseAll(cfg, env, s, order)) && NoFault(s, Cleanup(cfg, env', s))
    ensures ReleaseAll(cfg, env, s, order).slots[i].bus.card == Cleanup(cfg, env', s).slots[i].bus.card
  {
    var slot := s.slots[i];
    ReleaseAllSlot(cfg, env, s, order, i);
    CrashRecovery(cfg, env', s, i);
    assert MemoryOk(cfg, s, i) && SlotOk(cfg, s, i);
    if SupportedIndex(cfg.gpus, i) {
      forall k ensures Held(slot.memory, k) || Released(cfg, slot.bus.card, k) {
        FaultlessRestores(cfg, slot.bus.log, k);
        assert Held(slot.memory, k) || Settled(cfg, slot.bus, k);
      }
      if slot.memory.lowPower {
        GiveBackOk(cfg, env.hw, slot.bus, slot.bus, slot.memory.manualFan);
        CleanSinceRefl(slot.bus);
        GivenCard(cfg, env.hw, slot.bus, slot.memory.manualFan);
        assert Held(slot.memory, FanKnob) || Released(cfg, slot.bus.card, FanKnob);
      } else {
        assert FullyReleased(cfg, slot.bus.card);
        ReleasedMeaning(cfg, slot.bus.card);
      }
    }
  }
}
