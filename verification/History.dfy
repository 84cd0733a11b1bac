/** Without errors the loop is a function of the sensor readings: each card's memory and
    controls are determined by that card's own readings since activation. */
module History {
  import opened Cards
  import opened Hardware
  import opened Policy
  import opened Restoration
  import opened Invariant

  /** The successful utilisation readings in a log, oldest first. */
  function Utils(log: seq<Entry>): seq<U32> {
    if log == [] then []
    else
      var last, earlier := log[|log| - 1], Utils(log[..|log| - 1]);
      if last.call == Utilization && last.reply.Done? then earlier + [last.reply.reading] else earlier
  }

  /** The successful temperature readings in a log, oldest first. */
  function Temps(log: seq<Entry>): seq<U32> {
    if log == [] then []
    else
      var last, earlier := log[|log| - 1], Temps(log[..|log| - 1]);
      if last.call == Temperature && last.reply.Done? then earlier + [last.reply.reading] else earlier
  }

  lemma DoReadings(env: Oracle, b: Bus, call: Call)
    ensures var r := Do(env, b, call);
            && Utils(r.log)
               == (if call == Utilization && LastOk(r) then Utils(b.log) + [LastReading(r)] else Utils(b.log))
            && Temps(r.log)
               == (if call == Temperature && LastOk(r) then Temps(b.log) + [LastReading(r)] else Temps(b.log))
            && ((call == Utilization || call == Temperature) && LastOk(r) ==> r.card == b.card)
  {
    DoFacts(env, b, call);
  }

  /** Setters add no reading. */
  lemma GiveBackReadings(cfg: Config, env: Oracle, b: Bus, fan: bool)
    ensures var r := GiveBack(cfg, env, b, fan).bus; Utils(r.log) == Utils(b.log) && Temps(r.log) == Temps(b.log)
  {
    var b1 := if fan then Do(env, b, SetFanAuto) else b;
    var b2 := Do(env, b1, SetPState(AUTO_PSTATE));
    var b3 := RestoreCoreOffset(cfg, env, b2);
    DoReadings(env, b, SetFanAuto);
    DoReadings(env, b1, SetPState(AUTO_PSTATE));
    DoReadings(env, b2, SetCoreOffset(cfg.coreOffset));
    DoReadings(env, b3, ClockCall(cfg));
  }

  lemma EnterReadings(cfg: Config, env: Oracle, b: Bus)
    ensures var r := EnterLowPower(cfg, env, b);
            r.ok ==> Utils(r.bus.log) == Utils(b.log) && Temps(r.bus.log) == Temps(b.log)
  {
    var b1 := if cfg.hasCoreOffset then Do(env, b, SetCoreOffset(0)) else b;
    var b2 := Do(env, b1, ResetLockedClocks);
    DoReadings(env, b, SetCoreOffset(0));
    DoReadings(env, b1, ResetLockedClocks);
    DoReadings(env, b2, SetPState(IDLE_PSTATE));
  }

  // ----- the specification -----

  /** Idle readings in a row at the end; if all of them are idle, `m` earlier ones count too. */
  function IdleRun(cfg: Config, m: nat, us: seq<U32>): nat {
    if us == [] then m
    else if us[|us| - 1] > cfg.utilThreshold then 0
    else IdleRun(cfg, m, us[..|us| - 1]) + 1
  }

  /** The last `a` readings, or all if there are fewer, are idle. */
  ghost predicate EndsIdle(cfg: Config, us: seq<U32>, a: int) {
    forall k :: 0 <= k < |us| && |us| - a <= k ==> us[k] <= cfg.utilThreshold
  }

  /** A row of at least `a` idle readings: the last `a` readings are idle, or there are fewer,
      all idle, and the earlier ones make up for those that are missing. */
  lemma {:induction false} IdleRunMeaning(cfg: Config, m: nat, us: seq<U32>, a: nat)
    ensures IdleRun(cfg, m, us) >= a <==> EndsIdle(cfg, us, a) && (|us| >= a || m + |us| >= a)
    decreases |us|
  {
    if us == [] || a == 0 {
    } else {
      var rest := us[..|us| - 1];
      if us[|us| - 1] <= cfg.utilThreshold {
        IdleRunMeaning(cfg, m, rest, a - 1);
        assert forall k :: 0 <= k < |rest| ==> rest[k] == us[k];
        assert EndsIdle(cfg, us, a) <==> EndsIdle(cfg, rest, a - 1);
      }
    }
  }

  /** The memory a history of readings calls for, after `m` idle polls remembered. */
  function MemoryOf(cfg: Config, percent: int, m: nat, us: seq<U32>, ts: seq<U32>): Memory {
    var low := IdleRun(cfg, m, us) >= cfg.idleAfter;
    Memory(IdleRun(cfg, m, us), low, low && percent > 0 && |ts| > 0 && ts[|ts| - 1] < cfg.fanAutoTemp)
  }

  /** The controls a memory calls for on a card that was released. */
  function CardOf(cfg: Config, percent: int, v: Memory, released: Card): Card {
    if v.lowPower then
      Card(IDLE_PSTATE, if v.manualFan then Fixed(percent) else Automatic, Unlocked,
           if cfg.hasCoreOffset then 0 else released.offset)
    else released
  }

  ghost predicate FullyReleased(cfg: Config, card: Card) {
    forall k :: Released(cfg, card, k)
  }

  /** A card that was not held as `first`, and whose memory is the one its readings since
      then call for; if it was released then, so are its controls. */
  ghost predicate Follows(cfg: Config, percent: int, first: Slot, b: Bus, v: Memory) {
    var base := first.bus;
    && Utils(base.log) <= Utils(b.log) && Temps(base.log) <= Temps(b.log)
    && v == MemoryOf(cfg, percent, first.memory.idlePolls, Since(base, b), TempsSince(base, b))
    && (FullyReleased(cfg, base.card) ==> b.card == CardOf(cfg, percent, v, base.card))
  }

  /** Nothing is held of the card, and it has not been idle for long enough. */
  predicate Unheld(cfg: Config, v: Memory) {
    !v.lowPower && !v.manualFan && v.idlePolls < cfg.idleAfter
  }

  function Since(base: Bus, b: Bus): seq<U32>
    requires Utils(base.log) <= Utils(b.log)
  {
    Utils(b.log)[|Utils(base.log)|..]
  }

  function TempsSince(base: Bus, b: Bus): seq<U32>
    requires Temps(base.log) <= Temps(b.log)
  {
    Temps(b.log)[|Temps(base.log)|..]
  }

  // ----- one turn -----

  /** The fan step of a card in low power that followed its readings. */
  lemma DriveFanTurn(cfg: Config, env: Oracle, percent: int, b: Bus, v: Memory) returns (temp: U32)
    requires DriveFan(cfg, env, percent, b, v).ok
    ensures var t := DriveFan(cfg, env, percent, b, v);
            && Utils(t.bus.log) == Utils(b.log) && Temps(t.bus.log) == Temps(b.log) + [temp]
            && t.memory == v.(manualFan := temp < cfg.fanAutoTemp)
            && t.bus.card == b.card.(fan := if t.memory.manualFan == v.manualFan then b.card.fan
                                            else if t.memory.manualFan then Fixed(percent) else Automatic)
  {
    var b1 := Do(env, b, Temperature);
    DoReadings(env, b, Temperature);
    DoReadings(env, b1, SetFanAuto);
    DoReadings(env, b1, SetFan(percent));
    temp := LastReading(b1);
  }

  /** Controls after an error-free turn that took memory from `v` to `v'`. */
  function TurnedCard(cfg: Config, percent: int, v: Memory, v': Memory, card: Card): Card {
    var fan := if v'.manualFan == v.manualFan then card.fan else if v'.manualFan then Fixed(percent) else Automatic;
    if v.lowPower && !v'.lowPower then
      Card(AUTO_PSTATE, fan,
           if cfg.hasClock then Locked(cfg.clockMin, cfg.clockMax) else Unlocked,
           if cfg.hasCoreOffset then cfg.coreOffset else card.offset)
    else if v'.lowPower && !v.lowPower then
      Card(IDLE_PSTATE, fan, Unlocked, if cfg.hasCoreOffset then 0 else card.offset)
    else card.(fan := fan)
  }

  lemma GivenCard(cfg: Config, env: Oracle, b: Bus, fan: bool)
    ensures var r := GiveBack(cfg, env, b, fan);
            r.ok ==> r.bus.card == Card(AUTO_PSTATE, if fan then Automatic else b.card.fan,
                                        if cfg.hasClock then Locked(cfg.clockMin, cfg.clockMax) else Unlocked,
                                        if cfg.hasCoreOffset then cfg.coreOffset else b.card.offset)
  {
  }

  /** An error-free idle turn, after the reading. */
  lemma IdleTurn(cfg: Config, env: Oracle, percent: int, b: Bus, v: Memory) returns (temp: U32)
    requires IdleCard(cfg, env, percent, b, v).ok
    ensures var t := IdleCard(cfg, env, percent, b, v);
            var low := v.lowPower || v.idlePolls >= cfg.idleAfter;
            && Utils(t.bus.log) == Utils(b.log)
            && Temps(t.bus.log) == (if low && percent > 0 then Temps(b.log) + [temp] else Temps(b.log))
            && t.memory == Memory(v.idlePolls, low, if low && percent > 0 then temp < cfg.fanAutoTemp else v.manualFan)
            && t.bus.card == TurnedCard(cfg, percent, v, t.memory, b.card)
  {
    hide Do, EnterLowPower, DriveFan, Utils, Temps, LastOk;
    var enter := !v.lowPower && v.idlePolls >= cfg.idleAfter;
    var b2 := if enter then EnterLowPower(cfg, env, b).bus else b;
    var v2 := if enter then v.(lowPower := true) else v;
    EnterReadings(cfg, env, b);
    EnterCached(cfg, env, b);
    temp := 0;
    if v2.lowPower && percent > 0 { temp := DriveFanTurn(cfg, env, percent, b2, v2); }
  }

  /** One error-free turn takes one utilisation reading, and one temperature reading
      exactly if the card ends it in low power under a fan request; memory and controls
      follow from the readings. */
  lemma PollCardTurn(cfg: Config, env: Oracle, percent: int, b: Bus, v: Memory) returns (util: U32, temp: U32)
    requires PollCard(cfg, env, percent, b, v).ok
    requires v.manualFan ==> v.lowPower
    ensures var t := PollCard(cfg, env, percent, b, v);
            && Utils(t.bus.log) == Utils(b.log) + [util]
            && Temps(t.bus.log) == (if t.memory.lowPower && percent > 0 then Temps(b.log) + [temp] else Temps(b.log))
            && t.memory == (if util > cfg.utilThreshold then FORGOTTEN
                            else var low := v.lowPower || v.idlePolls + 1 >= cfg.idleAfter;
                                 Memory(v.idlePolls + 1, low,
                                        if low && percent > 0 then temp < cfg.fanAutoTemp else v.manualFan))
            && t.bus.card == TurnedCard(cfg, percent, v, t.memory, b.card)
  {
    hide Do, IdleCard, GiveBack, Utils, Temps, LastOk, LastReading;
    var b1 := Do(env, b, Utilization);
    DoReadings(env, b, Utilization);
    util, temp := LastReading(b1), 0;
    if util > cfg.utilThreshold {
      GiveBackReadings(cfg, env, b1, v.manualFan);
      GivenCard(cfg, env, b1, v.manualFan);
    } else {
      temp := IdleTurn(cfg, env, percent, b1, v.(idlePolls := v.idlePolls + 1));
    }
  }

  /** One more reading moves the memory a history calls for as a turn moves the memory. */
  lemma MemoryGrows(cfg: Config, percent: int, m: nat, us: seq<U32>, ts: seq<U32>, util: U32, temp: U32)
    requires cfg.idleAfter > 0
    ensures var v, low := MemoryOf(cfg, percent, m, us, ts), IdleRun(cfg, m, us + [util]) >= cfg.idleAfter;
            MemoryOf(cfg, percent, m, us + [util], if low && percent > 0 then ts + [temp] else ts) ==
              if util > cfg.utilThreshold then FORGOTTEN
              else Memory(v.idlePolls + 1, v.lowPower || v.idlePolls + 1 >= cfg.idleAfter,
                          if low && percent > 0 then temp < cfg.fanAutoTemp else v.manualFan)
    ensures util <= cfg.utilThreshold ==> IdleRun(cfg, m, us + [util]) == IdleRun(cfg, m, us) + 1
    ensures util > cfg.utilThreshold ==> IdleRun(cfg, m, us + [util]) == 0
  {
    assert (us + [util])[..|us|] == us;
  }

  /** One turn moves the controls a memory calls for. */
  lemma CardGrows(cfg: Config, percent: int, v: Memory, v': Memory, released: Card)
    requires FullyReleased(cfg, released)
    requires (v.manualFan ==> v.lowPower) && (v'.manualFan ==> v'.lowPower)
    ensures TurnedCard(cfg, percent, v, v', CardOf(cfg, percent, v, released)) == CardOf(cfg, percent, v', released)
  {
    ReleasedMeaning(cfg, released);
  }

  lemma TurnFollows(cfg: Config, env: Oracle, percent: int, first: Slot, b: Bus, v: Memory)
    requires Follows(cfg, percent, first, b, v) && cfg.idleAfter > 0
    requires PollCard(cfg, env, percent, b, v).ok
    ensures var t := PollCard(cfg, env, percent, b, v);
            && Follows(cfg, percent, first, t.bus, t.memory)
            && |Since(first.bus, t.bus)| == |Since(first.bus, b)| + 1
  {
    hide PollCard, Utils, Temps, FullyReleased, TurnedCard, CardOf, IdleRun;
    var base, m := first.bus, first.memory.idlePolls;
    var t := PollCard(cfg, env, percent, b, v);
    var us, ts := Since(base, b), TempsSince(base, b);
    var util, temp := PollCardTurn(cfg, env, percent, b, v);
    assert Since(base, t.bus) == us + [util];
    MemoryGrows(cfg, percent, m, us, ts, util, temp);
    if t.memory.lowPower && percent > 0 {
      assert TempsSince(base, t.bus) == ts + [temp];
    }
    if FullyReleased(cfg, base.card) { CardGrows(cfg, percent, v, t.memory, base.card); }
  }

  lemma ReleasedMeaning(cfg: Config, card: Card)
    requires FullyReleased(cfg, card)
    ensures card.pstate == AUTO_PSTATE && card.fan == Automatic
    ensures card.clock == if cfg.hasClock then Locked(cfg.clockMin, cfg.clockMax) else Unlocked
    ensures cfg.hasCoreOffset ==> card.offset == cfg.coreOffset
  {
    assert Released(cfg, card, PStateKnob) && Released(cfg, card, FanKnob);
    assert Released(cfg, card, ClockKnob) && Released(cfg, card, OffsetKnob);
  }
}
