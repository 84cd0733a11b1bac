/** The promises the governor keeps at every event boundary of every run, for every
    pattern of sensor readings, faults, requests and map iteration orders. */
module Guarantees {
  import opened Cards
  import opened Hardware
  import opened Policy
  import opened Restoration
  import opened Invariant
  import opened Chronicle
  import opened Runs
  import Recovery

  /** No silent leak, even if failing calls leave the whole card in any state: each control
      of each supported card is at its released value, or the card's flag says that the
      governor holds it, or the most recent call that should have restored it failed, or
      since then a failed call about other controls changed it. */
  lemma NoSilentLeak(cfg: Config, env: Env, s0: System, start: Start, events: seq<Event>, i: int, k: Knob)
    requires IsRun(cfg, s0, start, events) && i in s0.slots && SupportedIndex(cfg.gpus, i)
    ensures var slot := Boundary(cfg, env, s0, start, events).slots[i];
            || Released(cfg, slot.bus.card, k)
            || (if k.FanKnob? then slot.memory.manualFan else slot.memory.lowPower)
            || LastRestoreFailed(cfg, slot.bus.log, k)
            || DamagedSince(cfg, slot.bus.log, k)
  {
    RunInvariant(cfg, env, s0, start, events);
    var s := Boundary(cfg, env, s0, start, events);
    assert SlotOk(cfg, s, i);
    assert Held(s.slots[i].memory, k) || Settled(cfg, s.slots[i].bus, k);
  }

  /** No failed call in the log changed a control that it does not address. */
  predicate Confined(log: seq<Entry>, k: Knob) {
    forall n :: 0 <= n < |log| ==> !Damages(log[n], k)
  }

  lemma {:induction false} ConfinedUndamaged(cfg: Config, log: seq<Entry>, k: Knob)
    requires Confined(log, k)
    ensures !DamagedSince(cfg, log, k)
    decreases |log|
  {
    if log == [] {
    } else {
      ConfinedUndamaged(cfg, log[..|log| - 1], k);
    }
  }

  /** Where failing calls disturb only the control they address, a control that is neither
      released nor held is one whose most recent restoring call failed. */
  lemma NoSilentLeakConfined(cfg: Config, env: Env, s0: System, start: Start, events: seq<Event>, i: int, k: Knob)
    requires IsRun(cfg, s0, start, events) && i in s0.slots && SupportedIndex(cfg.gpus, i)
    requires Confined(Boundary(cfg, env, s0, start, events).slots[i].bus.log, k)
    ensures var slot := Boundary(cfg, env, s0, start, events).slots[i];
            || Released(cfg, slot.bus.card, k)
            || (if k.FanKnob? then slot.memory.manualFan else slot.memory.lowPower)
            || LastRestoreFailed(cfg, slot.bus.log, k)
  {
    NoSilentLeak(cfg, env, s0, start, events, i, k);
    ConfinedUndamaged(cfg, Boundary(cfg, env, s0, start, events).slots[i].bus.log, k);
  }

  /** Flags tell the truth: a manual fan implies low power and the percentage of the control
      in force; low power implies P8 with unlocked clocks and cleared offset, an active
      governor, a card of the active profile that the clean-up covers, and enough polls. */
  lemma FlagsTellTheTruth(cfg: Config, env: Env, s0: System, start: Start, events: seq<Event>, i: int)
    requires IsRun(cfg, s0, start, events) && i in s0.slots
    ensures var s := Boundary(cfg, env, s0, start, events);
            var slot := s.slots[i];
            && (slot.memory.manualFan ==>
                  && slot.memory.lowPower
                  && slot.bus.card.fan == Fixed(s.control.idleFanPercent) && 15 <= s.control.idleFanPercent <= 100)
            && (slot.memory.lowPower ==>
                  && s.active && 0 <= i < ProfileCount(s.control.profile) && SupportedIndex(cfg.gpus, i)
                  && slot.memory.idlePolls >= cfg.idleAfter
                  && slot.bus.card.pstate == 8 && slot.bus.card.clock == Unlocked
                  && (cfg.hasCoreOffset ==> slot.bus.card.offset == 0))
            && (s.active ==> Pollable(s) && Fits(cfg.gpus, s.control.profile) && WellFormed(s.control))
  {
    RunInvariant(cfg, env, s0, start, events);
    var s := Boundary(cfg, env, s0, start, events);
    assert SlotOk(cfg, s, i) && MemoryOk(cfg, s, i);
    if s.active { ActiveIsPollable(cfg, s); }
  }

  // ----- an inactive governor -----

  /** An event that gives an inactive governor nothing to do: a GPU tick, or a control tick
      that finds no request or one that is switched off. */
  predicate Restful(e: Event) {
    match e
    case GpuTick(_) => true
    case ControlTick(d, _, _, _) => d.Missing? || (LoadControl(d).Accepted? && !LoadControl(d).control.enabled)
  }

  /** Without flags nothing is released. */
  lemma UnflaggedStays(cfg: Config, env: Env, s: System, order: seq<int>)
    requires Unflagged(s)
    ensures ReleaseAll(cfg, env, s, order).slots == s.slots
  {
    forall i | i in s.slots ensures ReleaseAll(cfg, env, s, order).slots[i] == s.slots[i] {
      ReleaseAllSlot(cfg, env, s, order, i);
    }
  }

  lemma RestfulStep(cfg: Config, env: Env, s: System, e: Event)
    requires Inv(cfg, s) && !s.active && Restful(e)
    ensures var r := Step(cfg, env, s, e);
            !r.active && r.slots == s.slots && (e.GpuTick? ==> r == s)
  {
    assert Unflagged(s) by {
      forall i | i in s.slots ensures !s.slots[i].memory.lowPower && !s.slots[i].memory.manualFan {
        assert MemoryOk(cfg, s, i);
      }
    }
    if e.ControlTick? {
      UnflaggedStays(cfg, env, s, e.order);
      UnflaggedStays(cfg, env, s, e.disableOrder);
    }
  }

  /** Once inactive, the governor makes no hardware call on any card and stays inactive for as
      long as no request asks for anything; GPU ticks alone change nothing at all, so that
      not even a file operation is made. */
  lemma {:induction false} InactiveRests(
    cfg: Config, env: Env, s0: System, start: Start, events: seq<Event>, more: seq<Event>)
    requires IsRun(cfg, s0, start, events + more) && !Boundary(cfg, env, s0, start, events).active
    requires forall e :: e in more ==> Restful(e)
    ensures var s, r := Boundary(cfg, env, s0, start, events), Boundary(cfg, env, s0, start, events + more);
            && !r.active && r.slots == s.slots
            && ((forall e :: e in more ==> e.GpuTick?) ==> r == s)
    decreases |more|
  {
    hide Restful, Step, Inv;
    if more == [] {
      assert events + more == events;
    } else {
      var rest, e := more[..|more| - 1], more[|more| - 1];
      assert events + more == (events + rest) + [e];
      EarlierIsRun(cfg, s0, start, events + rest, [e]);
      InactiveRests(cfg, env, s0, start, events, rest);
      LastEvent(cfg, env, s0, start, events + rest, e);
      var before := Boundary(cfg, env, s0, start, events + rest);
      assert Inv(cfg, before) by { RunInvariant(cfg, env, s0, start, events + rest); }
      assert e in more;
      RestfulStep(cfg, env, before, e);
    }
  }

  /** Confinement: only permitted calls with permitted values reach a supported card, and
      no call of any kind reaches another one. */
  lemma Confinement(cfg: Config, env: Env, s0: System, start: Start, events: seq<Event>, i: int)
    requires IsRun(cfg, s0, start, events) && i in s0.slots
    ensures var slot := Boundary(cfg, env, s0, start, events).slots[i];
            && (forall k :: 0 <= k < |slot.bus.log| ==>
                  SupportedIndex(cfg.gpus, i) && Permitted(cfg, slot.bus.log[k].call))
            && (!SupportedIndex(cfg.gpus, i) ==> slot.bus == s0.slots[i].bus)
  {
    RunInvariant(cfg, env, s0, start, events);
    var s := Boundary(cfg, env, s0, start, events);
    var base := Cleanup(cfg, env, s0);
    assert SlotRunOk(cfg, s0.slots[i], base.slots[i], s.slots[i], SupportedIndex(cfg.gpus, i));
  }

  // ----- debounce -----

  predicate IdleReading(cfg: Config, e: Entry) {
    e.call == Utilization && e.reply.Done? && e.reply.reading <= cfg.utilThreshold
  }

  /** A busy or failed reading, or the giving back of the card. */
  predicate Interrupts(cfg: Config, e: Entry) {
    (e.call == Utilization && !IdleReading(cfg, e)) || e.call == SetPState(16)
  }

  function CountIdle(cfg: Config, log: seq<Entry>): nat {
    if log == [] then 0
    else CountIdle(cfg, log[..|log| - 1]) + if IdleReading(cfg, log[|log| - 1]) then 1 else 0
  }

  /** A streak is an uninterrupted tail of the log with that many idle readings. */
  lemma {:induction false} StreakMeaning(cfg: Config, log: seq<Entry>) returns (p: nat)
    ensures p <= |log| && CountIdle(cfg, log[p..]) == Streak(cfg, log)
    ensures forall q :: p <= q < |log| ==> !Interrupts(cfg, log[q])
    decreases |log|
  {
    if log == [] || Interrupts(cfg, log[|log| - 1]) {
      p := |log|;
    } else {
      p := StreakMeaning(cfg, log[..|log| - 1]);
      assert log[p..][..|log| - 1 - p] == log[..|log| - 1][p..];
    }
  }

  /** Debounce over all runs, whatever was disabled, enabled, reconfigured or failed: every
      P8 request, successful or not, comes after at least `idleAfter` idle readings of
      that card with no busy reading, no failed reading and no giving back in between. */
  lemma Debounce(cfg: Config, env: Env, s0: System, start: Start, events: seq<Event>, i: int, k: nat) returns (p: nat)
    requires IsRun(cfg, s0, start, events) && i in s0.slots
    requires k < |Boundary(cfg, env, s0, start, events).slots[i].bus.log|
    requires Boundary(cfg, env, s0, start, events).slots[i].bus.log[k].call == SetPState(8)
    ensures var log := Boundary(cfg, env, s0, start, events).slots[i].bus.log;
            && p <= k && CountIdle(cfg, log[p..k]) >= cfg.idleAfter
            && forall q :: p <= q < k ==> !Interrupts(cfg, log[q])
  {
    RunInvariant(cfg, env, s0, start, events);
    var s := Boundary(cfg, env, s0, start, events);
    var base := Cleanup(cfg, env, s0);
    var log := s.slots[i].bus.log;
    assert SlotRunOk(cfg, s0.slots[i], base.slots[i], s.slots[i], SupportedIndex(cfg.gpus, i));
    assert Streak(cfg, log[..k]) >= cfg.idleAfter;
    p := StreakMeaning(cfg, log[..k]);
    assert log[..k][p..] == log[p..k];
    forall q | p <= q < k ensures !Interrupts(cfg, log[q]) { assert log[..k][q] == log[q]; }
  }

  // ----- interlock -----

  lemma {:induction false} BenignMeaning(log: seq<Entry>)
    ensures Benign(log) <==> forall k :: 0 <= k < |log| ==> Mild(log[k])
    decreases |log|
  {
    if log == [] {
    } else {
      var rest := log[..|log| - 1];
      BenignMeaning(rest);
      forall k | 0 <= k < |rest| ensures rest[k] == log[k] { }
    }
  }

  /** Interlock at every call, not only between events: in a run where no request to leave
      P8 fails and failed calls have no effect, after every call following the start-up
      clean-up a card in P8 has its clocks unlocked and a configured offset cleared. */
  lemma InterlockAtEveryCall(cfg: Config, env: Env, s0: System, start: Start, events: seq<Event>, i: int, k: nat)
    requires IsRun(cfg, s0, start, events) && i in s0.slots && SupportedIndex(cfg.gpus, i)
    requires var log := Boundary(cfg, env, s0, start, events).slots[i].bus.log;
             k < |log| && forall j :: 0 <= j < |log| ==> Mild(log[j])
    requires k >= |Cleanup(cfg, env, s0).slots[i].bus.log|
    ensures var card := Boundary(cfg, env, s0, start, events).slots[i].bus.log[k].after;
            card.pstate == 8 ==> card.clock == Unlocked && (cfg.hasCoreOffset ==> card.offset == 0)
  {
    RunInvariant(cfg, env, s0, start, events);
    var s := Boundary(cfg, env, s0, start, events);
    var base := Cleanup(cfg, env, s0);
    assert SlotRunOk(cfg, s0.slots[i], base.slots[i], s.slots[i], true);
    BenignMeaning(s.slots[i].bus.log);
    assert Interlocked(cfg, s.slots[i].bus.log[k].after);
  }

  // ----- releasing -----

  /** At every boundary reached without a failed call, releasing only the flagged cards, in
      any map order, has the effect of the clean-up that trusts nothing. */
  lemma ReachableReleaseRefinesCleanup(
    cfg: Config, env: Env, s0: System, start: Start, events: seq<Event>,
    later: Env, later': Env, order: seq<int>, i: int)
    requires IsRun(cfg, s0, start, events) && i in s0.slots
    requires var s := Boundary(cfg, env, s0, start, events);
             && IsOrder(s, order)
             && (forall j :: j in s.slots ==> Recovery.Faultless(s.slots[j].bus.log))
             && Recovery.NoFault(s, ReleaseAll(cfg, later, s, order)) && Recovery.NoFault(s, Cleanup(cfg, later', s))
    ensures var s := Boundary(cfg, env, s0, start, events);
            ReleaseAll(cfg, later, s, order).slots[i].bus.card == Cleanup(cfg, later', s).slots[i].bus.card
  {
    RunInvariant(cfg, env, s0, start, events);
    var s := Boundary(cfg, env, s0, start, events);
    assert Inv(cfg, s);
    Recovery.ReleaseRefinesCleanup(cfg, later, later', s, order, i);
  }
}
