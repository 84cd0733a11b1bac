/** Released controls, and what the restoring calls achieve under arbitrary faults. */
module Restoration {
  import opened Cards
  import opened Hardware
  import opened Policy

  /** The four controls of a card. */
  datatype Knob = PStateKnob | FanKnob | ClockKnob | OffsetKnob

  predicate Addresses(call: Call, k: Knob) {
    match k
    case PStateKnob => call.SetPState?
    case FanKnob => call.SetFan? || call.SetFanAuto?
    case ClockKnob => call.ResetLockedClocks? || call.SetLockedClocks?
    case OffsetKnob => call.SetCoreOffset?
  }

  /** The call that gives a control back. */
  predicate Restores(cfg: Config, call: Call, k: Knob) {
    match k
    case PStateKnob => call == SetPState(AUTO_PSTATE)
    case FanKnob => call == SetFanAuto
    case ClockKnob => call == ClockCall(cfg)
    case OffsetKnob => cfg.hasCoreOffset && call == SetCoreOffset(cfg.coreOffset)
  }

  /** A control is at its released value. Without a configured offset the governor never
      touches the core offset, and any value counts as released. */
  predicate Released(cfg: Config, card: Card, k: Knob) {
    match k
    case PStateKnob => card.pstate == AUTO_PSTATE
    case FanKnob => card.fan == Automatic
    case ClockKnob => card.clock == if cfg.hasClock then Locked(cfg.clockMin, cfg.clockMax) else Unlocked
    case OffsetKnob => cfg.hasCoreOffset ==> card.offset == cfg.coreOffset
  }

  /** The most recent call that should have restored the control failed. */
  predicate LastRestoreFailed(cfg: Config, log: seq<Entry>, k: Knob) {
    if log == [] then false
    else
      var last := log[|log| - 1];
      if Restores(cfg, last.call, k) then !last.reply.Done?
      else LastRestoreFailed(cfg, log[..|log| - 1], k)
  }

  /** Two states of a card agree in one control. */
  predicate SameKnob(a: Card, b: Card, k: Knob) {
    match k
    case PStateKnob => a.pstate == b.pstate
    case FanKnob => a.fan == b.fan
    case ClockKnob => a.clock == b.clock
    case OffsetKnob => a.offset == b.offset
  }

  /** A failed call about other controls changed this one. */
  predicate Damages(e: Entry, k: Knob) {
    !e.reply.Done? && !Addresses(e.call, k) && !SameKnob(e.before, e.after, k)
  }

  /** Since the most recent call that should have restored the control, a failed call about
      other controls changed it. */
  predicate DamagedSince(cfg: Config, log: seq<Entry>, k: Knob) {
    if log == [] then false
    else
      var last := log[|log| - 1];
      !Restores(cfg, last.call, k) && (Damages(last, k) || DamagedSince(cfg, log[..|log| - 1], k))
  }

  /** Call `n` should have restored the control and failed, and no later one should have. */
  ghost predicate FailedLast(cfg: Config, log: seq<Entry>, k: Knob, n: int) {
    && 0 <= n < |log| && Restores(cfg, log[n].call, k) && !log[n].reply.Done?
    && forall m :: n < m < |log| ==> !Restores(cfg, log[m].call, k)
  }

  lemma FailedLastGrows(cfg: Config, log: seq<Entry>, k: Knob, n: int)
    requires log != [] && !Restores(cfg, log[|log| - 1].call, k)
    ensures FailedLast(cfg, log, k, n) <==> FailedLast(cfg, log[..|log| - 1], k, n)
  {
    hide Restores;
    var rest := log[..|log| - 1];
    assert forall m :: 0 <= m < |rest| ==> rest[m] == log[m];
  }

  lemma {:induction false} LastRestoreFailedMeaning(cfg: Config, log: seq<Entry>, k: Knob)
    ensures LastRestoreFailed(cfg, log, k) <==> exists n :: FailedLast(cfg, log, k, n)
    decreases |log|
  {
    hide Restores;
    if log == [] {
    } else {
      var rest, l := log[..|log| - 1], |log| - 1;
      LastRestoreFailedMeaning(cfg, rest, k);
      if Restores(cfg, log[l].call, k) {
        if !log[l].reply.Done? { assert FailedLast(cfg, log, k, l); }
      } else {
        forall n ensures FailedLast(cfg, log, k, n) <==> FailedLast(cfg, rest, k, n) {
          FailedLastGrows(cfg, log, k, n);
        }
      }
    }
  }

  /** A failed call about other controls changed this one, and no restoring call came later. */
  ghost predicate DamagedLast(cfg: Config, log: seq<Entry>, k: Knob, n: int) {
    && 0 <= n < |log| && Damages(log[n], k)
    && forall m :: n <= m < |log| ==> !Restores(cfg, log[m].call, k)
  }

  lemma DamagedLastGrows(cfg: Config, log: seq<Entry>, k: Knob, n: int)
    requires log != [] && n < |log| - 1
    ensures DamagedLast(cfg, log, k, n) <==>
      DamagedLast(cfg, log[..|log| - 1], k, n) && !Restores(cfg, log[|log| - 1].call, k)
  {
    hide Restores, Damages;
    var rest := log[..|log| - 1];
    assert forall m :: 0 <= m < |rest| ==> rest[m] == log[m];
  }

  lemma {:induction false} DamagedSinceMeaning(cfg: Config, log: seq<Entry>, k: Knob)
    ensures DamagedSince(cfg, log, k) <==> exists n :: DamagedLast(cfg, log, k, n)
    decreases |log|
  {
    hide Restores, Damages;
    if log == [] {
    } else {
      var rest, l := log[..|log| - 1], |log| - 1;
      DamagedSinceMeaning(cfg, rest, k);
      forall n | n < l ensures DamagedLast(cfg, log, k, n) <==>
        DamagedLast(cfg, rest, k, n) && !Restores(cfg, log[l].call, k)
      {
        DamagedLastGrows(cfg, log, k, n);
      }
      if DamagedSince(cfg, log, k) && Damages(log[l], k) { assert DamagedLast(cfg, log, k, l); }
      if DamagedSince(cfg, log, k) && DamagedSince(cfg, rest, k) {
        var n :| DamagedLast(cfg, rest, k, n);
        assert DamagedLast(cfg, log, k, n);
      }
    }
  }

  /** The control is released, or the governor had an error that accounts for it: from
      restoring it, or later from a call that damaged it in passing. */
  predicate Settled(cfg: Config, b: Bus, k: Knob) {
    Released(cfg, b.card, k) || LastRestoreFailed(cfg, b.log, k) || DamagedSince(cfg, b.log, k)
  }

  /** A restoring call settles its control whatever its outcome; calls about other
      controls leave it settled, even if they fail and change it. */
  lemma DoSettles(cfg: Config, env: Oracle, b: Bus, call: Call, k: Knob)
    ensures Restores(cfg, call, k) || (!Addresses(call, k) && Settled(cfg, b, k)) ==> Settled(cfg, Do(env, b, call), k)
  {
    DoFacts(env, b, call);
  }

  /** Giving a card back settles all its controls; the fan only if it was asked for or
      needed no restoring. */
  lemma GiveBackSettles(cfg: Config, env: Oracle, b: Bus, fan: bool, k: Knob)
    requires k == FanKnob && !fan ==> Settled(cfg, b, FanKnob)
    ensures Settled(cfg, GiveBack(cfg, env, b, fan).bus, k)
  {
    var b1 := if fan then Do(env, b, SetFanAuto) else b;
    var b2 := Do(env, b1, SetPState(AUTO_PSTATE));
    var b3 := RestoreCoreOffset(cfg, env, b2);
    DoSettles(cfg, env, b, SetFanAuto, k);
    DoSettles(cfg, env, b1, SetPState(AUTO_PSTATE), k);
    DoSettles(cfg, env, b2, SetCoreOffset(cfg.coreOffset), k);
    DoSettles(cfg, env, b3, ClockCall(cfg), k);
  }

  // ----- clean-up and release, card by card -----

  /** How many supported entries with index `i` are listed from position `k` on. The
      driver lists every index once; nothing here depends on that. */
  function Times(gpus: seq<Gpu>, k: nat, i: int): nat
    decreases |gpus| - k
  {
    if k >= |gpus| then 0
    else (if IsSupported(gpus[k]) && gpus[k].index == i then 1 else 0) + Times(gpus, k + 1, i)
  }

  lemma {:induction false} TimesSupported(gpus: seq<Gpu>, k: nat, i: int)
    ensures Times(gpus, k, i) > 0 <==> exists m :: k <= m < |gpus| && gpus[m].index == i && IsSupported(gpus[m])
    decreases |gpus| - k
  {
    if k >= |gpus| {
    } else {
      TimesSupported(gpus, k + 1, i);
    }
  }

  /** A slot given back a number of times. */
  function Given(cfg: Config, env: Env, slot: Slot, times: nat): Slot
    decreases times
  {
    if times == 0 then slot else Given(cfg, env, CleanedSlot(cfg, env, slot), times - 1)
  }

  /** A clean-up gives back every supported card and touches no other slot. */
  lemma {:induction false} CleanupFromSlot(cfg: Config, env: Env, s: System, k: nat, i: int)
    requires i in s.slots
    ensures CleanupFrom(cfg, env, s, k).slots[i] == Given(cfg, env, s.slots[i], Times(cfg.gpus, k, i))
    decreases |cfg.gpus| - k
  {
    hide GiveBack, IsSupported;
    if k >= |cfg.gpus| {
    } else {
      var s1 := CleanupOne(cfg, env, s, cfg.gpus[k]);
      assert CleanupFrom(cfg, env, s, k) == CleanupFrom(cfg, env, s1, k + 1);
      CleanupFromSlot(cfg, env, s1, k + 1, i);
    }
  }

  lemma {:induction false} GivenSettles(cfg: Config, env: Env, slot: Slot, times: nat, knob: Knob)
    requires times > 0 || (slot.memory == FORGOTTEN && Settled(cfg, slot.bus, knob))
    ensures var r := Given(cfg, env, slot, times);
            r.memory == FORGOTTEN && Settled(cfg, r.bus, knob)
    decreases times
  {
    if times == 0 {
    } else {
      GiveBackSettles(cfg, env.hw, slot.bus, true, knob);
      GivenSettles(cfg, env, CleanedSlot(cfg, env, slot), times - 1, knob);
    }
  }

  /** What a clean-up does to one slot, from any hardware state and any memory, whatever
      calls fail. */
  lemma CleanupSettles(cfg: Config, env: Env, s: System, i: int)
    requires i in s.slots
    ensures var slot := Cleanup(cfg, env, s).slots[i];
            if SupportedIndex(cfg.gpus, i) then slot.memory == FORGOTTEN && forall k :: Settled(cfg, slot.bus, k)
            else slot == s.slots[i]
  {
    CleanupFromSlot(cfg, env, s, 0, i);
    TimesSupported(cfg.gpus, 0, i);
    if SupportedIndex(cfg.gpus, i) {
      GivenSettles(cfg, env, s.slots[i], Times(cfg.gpus, 0, i), FanKnob);
      forall k ensures Settled(cfg, Cleanup(cfg, env, s).slots[i].bus, k) {
        GivenSettles(cfg, env, s.slots[i], Times(cfg.gpus, 0, i), k);
      }
    }
  }

  /** Releasing in some order gives each slot its own release if it is visited, and does
      nothing else; a second visit finds nothing to do. */
  lemma {:induction false} ReleaseAllSlot(cfg: Config, env: Env, s: System, order: seq<int>, i: int)
    requires i in s.slots
    ensures ReleaseAll(cfg, env, s, order).slots[i] ==
            if i in order then ReleasedSlot(cfg, env, s.slots[i]) else s.slots[i]
    decreases |order|
  {
    if order == [] {
    } else {
      ReleaseAllSlot(cfg, env, ReleaseOne(cfg, env, s, order[0]), order[1..], i);
      assert i in order <==> i == order[0] || i in order[1..];
    }
  }

  /** The order in which a map iteration visits the entries makes no difference. */
  lemma OrderIrrelevant(cfg: Config, env: Env, s: System, order1: seq<int>, order2: seq<int>)
    requires IsOrder(s, order1) && IsOrder(s, order2)
    ensures ReleaseAll(cfg, env, s, order1) == ReleaseAll(cfg, env, s, order2)
  {
    forall i | i in s.slots
      ensures ReleaseAll(cfg, env, s, order1).slots[i] == ReleaseAll(cfg, env, s, order2).slots[i]
    {
      ReleaseAllSlot(cfg, env, s, order1, i);
      ReleaseAllSlot(cfg, env, s, order2, i);
    }
  }
}
