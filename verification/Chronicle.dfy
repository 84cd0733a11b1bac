/** What holds of every single call ever made to a card: confinement, debounce, and the
    interlock between P8 and the clock settings. */
module Chronicle {
  import opened Cards
  import opened Hardware
  import opened Policy
  import opened Restoration

  // ----- confinement -----

  /** The calls the governor may make, with the values it may send. */
  predicate Permitted(cfg: Config, call: Call) {
    match call
    case Utilization => true
    case Temperature => true
    case SetPState(p) => p == 8 || p == 16
    case ResetLockedClocks => true
    case SetLockedClocks(a, b) => cfg.hasClock && a == cfg.clockMin && b == cfg.clockMax
    case SetCoreOffset(o) => cfg.hasCoreOffset && (o == 0 || o == cfg.coreOffset)
    case SetFan(p) => 15 <= p <= 100
    case SetFanAuto => true
  }

  // ----- debounce -----

  /** Idle readings in a row at the end of a log. A busy reading, a failed reading and
      any attempt to give the card back end the row. */
  function Streak(cfg: Config, log: seq<Entry>): nat {
    if log == [] then 0
    else
      var last, earlier := log[|log| - 1], log[..|log| - 1];
      if last.call == Utilization then
        if last.reply.Done? && last.reply.reading <= cfg.utilThreshold then Streak(cfg, earlier) + 1 else 0
      else if last.call == SetPState(AUTO_PSTATE) then 0
      else Streak(cfg, earlier)
  }

  /** Every call in the log is permitted, and every P8 request was earned. */
  predicate LogOk(cfg: Config, log: seq<Entry>) {
    forall k :: 0 <= k < |log| ==>
      Permitted(cfg, log[k].call) && (log[k].call == SetPState(IDLE_PSTATE) ==> Streak(cfg, log[..k]) >= cfg.idleAfter)
  }

  /** The governor never counts more idle polls than the log shows. */
  predicate Counted(cfg: Config, slot: Slot) {
    slot.memory.idlePolls <= Streak(cfg, slot.bus.log)
  }

  // ----- interlock -----

  /** In P8 the clocks are unlocked and a configured offset is cleared. */
  predicate Interlocked(cfg: Config, card: Card) {
    card.pstate == IDLE_PSTATE ==> card.clock == Unlocked && (cfg.hasCoreOffset ==> card.offset == 0)
  }

  /** Failed calls changed nothing, and no request to leave P8 failed. */
  predicate Mild(e: Entry) {
    !e.reply.FailedWith? && (e.call == SetPState(AUTO_PSTATE) ==> e.reply.Done?)
  }

  predicate Benign(log: seq<Entry>) {
    log == [] || (Benign(log[..|log| - 1]) && Mild(log[|log| - 1]))
  }

  /** As long as faults are benign, the card is interlocked now and was after every call
      from position `n` on. */
  predicate Guarded(cfg: Config, n: nat, b: Bus) {
    Benign(b.log) ==> Interlocked(cfg, b.card) && forall k :: n <= k < |b.log| ==> Interlocked(cfg, b.log[k].after)
  }

  /** As long as faults are benign, a card in P8 is known to be there. */
  predicate Known(slot: Slot) {
    Benign(slot.bus.log) && slot.bus.card.pstate == IDLE_PSTATE ==> slot.memory.lowPower
  }

  ghost predicate Chronicled(cfg: Config, n: nat, slot: Slot) {
    LogOk(cfg, slot.bus.log) && Guarded(cfg, n, slot.bus) && Known(slot)
  }

  // ----- one call -----

  lemma DoLog(cfg: Config, env: Oracle, b: Bus, call: Call)
    requires LogOk(cfg, b.log) && Permitted(cfg, call)
    requires call == SetPState(IDLE_PSTATE) ==> Streak(cfg, b.log) >= cfg.idleAfter
    ensures var r := Do(env, b, call);
            && LogOk(cfg, r.log)
            && (call != Utilization && call != SetPState(AUTO_PSTATE) ==> Streak(cfg, r.log) == Streak(cfg, b.log))
            && (call == Utilization && LastOk(r) && LastReading(r) <= cfg.utilThreshold ==>
                  Streak(cfg, r.log) == Streak(cfg, b.log) + 1)
  {
    var r := Do(env, b, call);
    DoFacts(env, b, call);
    forall k | 0 <= k < |b.log| ensures r.log[..k] == b.log[..k] {
      assert r.log[..|b.log|][..k] == r.log[..k];
    }
  }

  lemma DoBenign(env: Oracle, b: Bus, call: Call)
    ensures var r := Do(env, b, call);
            Benign(r.log) <==> Benign(b.log) && Mild(r.log[|b.log|])
  {
    DoFacts(env, b, call);
  }

  /** Benign faults leave the effect of a call either complete or absent, and let no request
      to leave P8 fail. */
  lemma DoMild(env: Oracle, b: Bus, call: Call)
    ensures var r := Do(env, b, call);
            Benign(r.log) ==>
              && Benign(b.log)
              && r.card == (if LastOk(r) then Effect(b.card, call, Done(0)) else b.card)
              && (call == SetPState(AUTO_PSTATE) ==> LastOk(r))
  {
    DoBenign(env, b, call);
  }

  /** A call whose success would leave the card interlocked keeps the guard. */
  lemma DoGuarded(cfg: Config, env: Oracle, n: nat, b: Bus, call: Call)
    requires Guarded(cfg, n, b)
    requires Benign(b.log) ==> Interlocked(cfg, Effect(b.card, call, Done(0)))
    ensures var r := Do(env, b, call);
            && Guarded(cfg, n, r)
            && (Benign(r.log) ==>
                  && Benign(b.log)
                  && r.card == (if LastOk(r) then Effect(b.card, call, Done(0)) else b.card)
                  && (call == SetPState(AUTO_PSTATE) ==> LastOk(r)))
  {
    DoBenign(env, b, call);
    DoMild(env, b, call);
  }

  lemma GuardedNow(cfg: Config, n: nat, b: Bus)
    requires Guarded(cfg, n, b)
    ensures Benign(b.log) ==> Interlocked(cfg, b.card)
  {
  }

  // ----- giving back -----

  lemma GiveBackLog(cfg: Config, env: Oracle, b: Bus, fan: bool)
    requires LogOk(cfg, b.log)
    ensures LogOk(cfg, GiveBack(cfg, env, b, fan).bus.log)
  {
    var b1 := if fan then Do(env, b, SetFanAuto) else b;
    var b2 := Do(env, b1, SetPState(AUTO_PSTATE));
    var b3 := RestoreCoreOffset(cfg, env, b2);
    DoLog(cfg, env, b, SetFanAuto);
    DoLog(cfg, env, b1, SetPState(AUTO_PSTATE));
    if cfg.hasCoreOffset { DoLog(cfg, env, b2, SetCoreOffset(cfg.coreOffset)); }
    DoLog(cfg, env, b3, ClockCall(cfg));
  }

  lemma GiveBackGuarded(cfg: Config, env: Oracle, n: nat, b: Bus, fan: bool)
    requires Guarded(cfg, n, b)
    ensures var r := GiveBack(cfg, env, b, fan).bus;
            Guarded(cfg, n, r) && (Benign(r.log) ==> r.card.pstate == AUTO_PSTATE)
  {
    hide Do, Guarded, Benign, LastOk;
    GuardedNow(cfg, n, b);
    var b1 := if fan then Do(env, b, SetFanAuto) else b;
    var b2 := Do(env, b1, SetPState(AUTO_PSTATE));
    var b3 := RestoreCoreOffset(cfg, env, b2);
    if fan { DoGuarded(cfg, env, n, b, SetFanAuto); }
    DoGuarded(cfg, env, n, b1, SetPState(AUTO_PSTATE));
    if cfg.hasCoreOffset { DoGuarded(cfg, env, n, b2, SetCoreOffset(cfg.coreOffset)); }
    DoGuarded(cfg, env, n, b3, ClockCall(cfg));
  }

  lemma GivenBackChronicled(cfg: Config, env: Oracle, n: nat, slot: Slot, fan: bool)
    requires Chronicled(cfg, n, slot)
    ensures Chronicled(cfg, n, Slot(GiveBack(cfg, env, slot.bus, fan).bus, FORGOTTEN))
  {
    GiveBackLog(cfg, env, slot.bus, fan);
    GiveBackGuarded(cfg, env, n, slot.bus, fan);
  }

  // ----- a turn -----

  lemma EnterLog(cfg: Config, env: Oracle, b: Bus)
    requires LogOk(cfg, b.log) && Streak(cfg, b.log) >= cfg.idleAfter
    ensures var r := EnterLowPower(cfg, env, b);
            LogOk(cfg, r.bus.log) && (r.ok ==> Streak(cfg, r.bus.log) == Streak(cfg, b.log))
  {
    hide Do, LogOk, Streak;
    var b1 := if cfg.hasCoreOffset then Do(env, b, SetCoreOffset(0)) else b;
    var b2 := Do(env, b1, ResetLockedClocks);
    var b3 := Do(env, b2, SetPState(IDLE_PSTATE));
    var b4 := RestoreClocks(cfg, env, b3);
    if cfg.hasCoreOffset { DoLog(cfg, env, b, SetCoreOffset(0)); }
    DoLog(cfg, env, b1, ResetLockedClocks);
    DoLog(cfg, env, b2, SetPState(IDLE_PSTATE));
    DoLog(cfg, env, b3, ClockCall(cfg));
    if cfg.hasCoreOffset {
      DoLog(cfg, env, b2, SetCoreOffset(cfg.coreOffset));
      DoLog(cfg, env, b4, SetCoreOffset(cfg.coreOffset));
    }
  }

  /** Entered from outside P8; on failure, benign faults leave the card outside P8. */
  lemma EnterGuarded(cfg: Config, env: Oracle, n: nat, b: Bus)
    requires Guarded(cfg, n, b) && (Benign(b.log) ==> b.card.pstate != IDLE_PSTATE)
    ensures var r := EnterLowPower(cfg, env, b);
            Guarded(cfg, n, r.bus) && (Benign(r.bus.log) && !r.ok ==> r.bus.card.pstate != IDLE_PSTATE)
  {
    hide Do, Guarded, Benign, LastOk;
    var b1 := if cfg.hasCoreOffset then Do(env, b, SetCoreOffset(0)) else b;
    if cfg.hasCoreOffset { DoGuarded(cfg, env, n, b, SetCoreOffset(0)); }
    if cfg.hasCoreOffset && !LastOk(b1) { return; }
    var b2 := Do(env, b1, ResetLockedClocks);
    DoGuarded(cfg, env, n, b1, ResetLockedClocks);
    if !LastOk(b2) {
      if cfg.hasCoreOffset { DoGuarded(cfg, env, n, b2, SetCoreOffset(cfg.coreOffset)); }
      return;
    }
    var b3 := Do(env, b2, SetPState(IDLE_PSTATE));
    DoGuarded(cfg, env, n, b2, SetPState(IDLE_PSTATE));
    if !LastOk(b3) {
      var b4 := RestoreClocks(cfg, env, b3);
      DoGuarded(cfg, env, n, b3, ClockCall(cfg));
      if cfg.hasCoreOffset { DoGuarded(cfg, env, n, b4, SetCoreOffset(cfg.coreOffset)); }
    }
  }

  lemma DriveFanChronicled(cfg: Config, env: Oracle, n: nat, percent: int, b: Bus, v: Memory)
    requires Chronicled(cfg, n, Slot(b, v)) && 15 <= percent <= 100
    ensures var t := DriveFan(cfg, env, percent, b, v);
            && Chronicled(cfg, n, Slot(t.bus, t.memory))
            && Streak(cfg, t.bus.log) == Streak(cfg, b.log) && t.memory.idlePolls == v.idlePolls
  {
    hide Do, LogOk, Streak, Guarded, Benign, LastOk;
    var b1 := Do(env, b, Temperature);
    GuardedNow(cfg, n, b);
    DoLog(cfg, env, b, Temperature);
    DoGuarded(cfg, env, n, b, Temperature);
    GuardedNow(cfg, n, b1);
    DoLog(cfg, env, b1, SetFanAuto);
    DoGuarded(cfg, env, n, b1, SetFanAuto);
    DoLog(cfg, env, b1, SetFan(percent));
    DoGuarded(cfg, env, n, b1, SetFan(percent));
  }

  lemma IdleCardChronicled(cfg: Config, env: Oracle, n: nat, percent: int, b: Bus, v: Memory)
    requires Chronicled(cfg, n, Slot(b, v)) && Counted(cfg, Slot(b, v))
    requires percent == 0 || 15 <= percent <= 100
    ensures var t := IdleCard(cfg, env, percent, b, v);
            && Chronicled(cfg, n, Slot(t.bus, t.memory))
            && (t.ok ==> Counted(cfg, Slot(t.bus, t.memory)))
  {
    if !v.lowPower && v.idlePolls >= cfg.idleAfter {
      var entered := EnterLowPower(cfg, env, b);
      EnterLog(cfg, env, b);
      EnterGuarded(cfg, env, n, b);
      if entered.ok && percent > 0 {
        DriveFanChronicled(cfg, env, n, percent, entered.bus, v.(lowPower := true));
      }
    } else if v.lowPower && percent > 0 {
      DriveFanChronicled(cfg, env, n, percent, b, v);
    }
  }

  /** Every call of a turn is in order, even if the turn fails half way. */
  lemma PollCardChronicled(cfg: Config, env: Oracle, n: nat, percent: int, b: Bus, v: Memory)
    requires Chronicled(cfg, n, Slot(b, v)) && Counted(cfg, Slot(b, v))
    requires percent == 0 || 15 <= percent <= 100
    ensures var t := PollCard(cfg, env, percent, b, v);
            && Chronicled(cfg, n, Slot(t.bus, t.memory))
            && (t.ok ==> Counted(cfg, Slot(t.bus, t.memory)))
  {
    var b1 := Do(env, b, Utilization);
    DoLog(cfg, env, b, Utilization);
    DoGuarded(cfg, env, n, b, Utilization);
    if LastOk(b1) {
      if LastReading(b1) > cfg.utilThreshold {
        GivenBackChronicled(cfg, env, n, Slot(b1, v), v.manualFan);
      } else {
        IdleCardChronicled(cfg, env, n, percent, b1, v.(idlePolls := v.idlePolls + 1));
      }
    }
  }

  // ----- entering P8, call by call -----

  /** The calls a log gained. */
  function CallsSince(b: Bus, r: Bus): seq<Call>
    requires |b.log| <= |r.log|
  {
    seq(|r.log| - |b.log|, k requires 0 <= k < |r.log| - |b.log| => r.log[|b.log| + k].call)
  }

  lemma CallsDo(env: Oracle, b: Bus, b1: Bus, call: Call)
    requires |b.log| <= |b1.log|
    ensures CallsSince(b, Do(env, b1, call)) == CallsSince(b, b1) + [call]
  {
    DoFacts(env, b1, call);
    assert forall k :: 0 <= k < |b1.log| ==> Do(env, b1, call).log[k] == b1.log[k];
  }

  /** Clearing the offset, resetting the clocks, requesting P8, in this order; what a failing
      call has left behind is put back, clocks before offset. */
  lemma EnterCalls(cfg: Config, env: Oracle, b: Bus)
    ensures var r := EnterLowPower(cfg, env, b);
            var clear := if cfg.hasCoreOffset then [SetCoreOffset(0)] else [];
            var back := if cfg.hasCoreOffset then [SetCoreOffset(cfg.coreOffset)] else [];
            && |b.log| <= |r.bus.log|
            && (r.ok ==> CallsSince(b, r.bus) == clear + [ResetLockedClocks, SetPState(8)])
            && (!r.ok ==>
                  || (cfg.hasCoreOffset && CallsSince(b, r.bus) == clear)
                  || CallsSince(b, r.bus) == clear + [ResetLockedClocks] + back
                  || CallsSince(b, r.bus) == clear + [ResetLockedClocks, SetPState(8), ClockCall(cfg)] + back)
  {
    hide Do, LastOk, CallsSince;
    assert CallsSince(b, b) == [] by { NoCallsSince(b); }
    var b1 := if cfg.hasCoreOffset then Do(env, b, SetCoreOffset(0)) else b;
    DoFacts(env, b, SetCoreOffset(0));
    CallsDo(env, b, b, SetCoreOffset(0));
    var b2 := Do(env, b1, ResetLockedClocks);
    DoFacts(env, b1, ResetLockedClocks);
    CallsDo(env, b, b1, ResetLockedClocks);
    DoFacts(env, b2, SetCoreOffset(cfg.coreOffset));
    CallsDo(env, b, b2, SetCoreOffset(cfg.coreOffset));
    var b3 := Do(env, b2, SetPState(IDLE_PSTATE));
    DoFacts(env, b2, SetPState(IDLE_PSTATE));
    CallsDo(env, b, b2, SetPState(IDLE_PSTATE));
    var b4 := RestoreClocks(cfg, env, b3);
    DoFacts(env, b3, ClockCall(cfg));
    CallsDo(env, b, b3, ClockCall(cfg));
    DoFacts(env, b4, SetCoreOffset(cfg.coreOffset));
    CallsDo(env, b, b4, SetCoreOffset(cfg.coreOffset));
  }

  lemma NoCallsSince(b: Bus)
    ensures CallsSince(b, b) == []
  {
  }

  // ----- all or nothing -----

  /** Entering P8 under one fault without effect is all or nothing: a card whose clocks and
      offset were released ends up either in P8, unlocked and with its offset cleared, or
      exactly as it was. */
  lemma EnterAllOrNothing(cfg: Config, env: Oracle, b: Bus, fault: nat)
    requires Released(cfg, b.card, ClockKnob) && Released(cfg, b.card, OffsetKnob)
    requires forall n: nat :: env(b.index, n) == Failed || env(b.index, n).Done?
    requires forall n: nat :: env(b.index, n) == Failed ==> n == fault || n < |b.log|
    ensures var r := EnterLowPower(cfg, env, b);
            r.bus.card == if r.ok
                          then b.card.(pstate := IDLE_PSTATE, clock := Unlocked,
                                       offset := if cfg.hasCoreOffset then 0 else b.card.offset)
                          else b.card
  {
  }
}
