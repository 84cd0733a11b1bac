/** The governor itself: an object that updates its memory of each card while it drives
    the hardware, proved against the functions of `Policy`. */
module Governing {
  import opened Cards
  import opened Hardware
  import opened Policy
  import opened Invariant
  import opened Runs
  import opened StatusWriting
  import Ticks
  import Recovery
  import Status

  class CardState {
    var idlePolls: nat
    var lowPower: bool
    var manualFan: bool

    constructor ()
      ensures View() == FORGOTTEN
    {
      idlePolls, lowPower, manualFan := 0, false, false;
    }

    function View(): Memory
      reads this
    {
      Memory(idlePolls, lowPower, manualFan)
    }
  }

  /** A timer that fired, with the request found in the control file and the text of the
      error that would be published. */
  datatype Wake = ControlTimer(request: Decoded, message: string) | GpuTimer(message: string)

  /** The event is this wake-up, with the orders its map iterations took. */
  predicate Wakes(tick: Wake, e: Event) {
    match tick
    case ControlTimer(d, message) => e.ControlTick? && e.request == d && e.message == message
    case GpuTimer(message) => e == GpuTick(message)
  }

  class Governor {
    const hardware: Device
    const status: Writer
    const cfg: Config
    var states: map<int, CardState>
    var control: Control
    var active: bool

    /** Every remembered card exists in the hardware, and no two share their memory. */
    ghost predicate Valid()
      reads this
    {
      && (forall k :: 0 <= k < |cfg.gpus| ==> cfg.gpus[k].index in states)
      && (forall i, j :: i in states && j in states && i != j ==> states[i] != states[j])
    }

    ghost predicate Wired()
      reads this, hardware
    {
      Valid() && forall i :: i in states ==> i in hardware.buses
    }

    ghost function Snapshot(): System
      requires Wired()
      reads this, hardware, status.directory, states.Values
    {
      System(map i | i in states :: Slot(hardware.buses[i], states[i].View()), control, active, status.State())
    }

    ghost function Outcomes(): Env {
      Env(hardware.env, status.directory.env)
    }

    constructor (hardware: Device, status: Writer, cfg: Config)
      requires forall k :: 0 <= k < |cfg.gpus| ==> cfg.gpus[k].index in hardware.buses
      ensures this.hardware == hardware && this.status == status && this.cfg == cfg
      ensures Wired() && !active && forall i :: i in states ==> fresh(states[i])
      ensures Listed(cfg, Snapshot()) && AllForgotten(Snapshot())
    {
      this.hardware, this.status, this.cfg := hardware, status, cfg;
      states, active := map[], false;
      control := Control(false, "", 0);
      new;
      for k := 0 to |cfg.gpus|
        invariant !active && forall i :: i in states ==> fresh(states[i])
        invariant forall i :: i in states <==> exists m :: 0 <= m < k && cfg.gpus[m].index == i
        invariant forall i, j :: i in states && j in states && i != j ==> states[i] != states[j]
        invariant forall i :: i in states ==> states[i].View() == FORGOTTEN
      {
        var state := new CardState();
        states := states[cfg.gpus[k].index := state];
      }
    }

    /** One hardware call on a card the governor remembers. */
    method Call(index: int, call: Call) returns (ok: bool, reading: U32)
      requires Wired() && index in states
      modifies hardware
      ensures Wired()
      ensures hardware.buses == old(hardware.buses)[index := Do(hardware.env, old(hardware.buses[index]), call)]
      ensures ok == LastOk(hardware.buses[index])
      ensures ok ==> reading == LastReading(hardware.buses[index])
    {
      ok, reading := hardware.Perform(index, call);
    }

    method RestoreClocks(index: int) returns (ok: bool)
      requires Wired() && index in states
      modifies hardware
      ensures Wired()
      ensures var after := Policy.RestoreClocks(cfg, hardware.env, old(hardware.buses[index]));
              hardware.buses == old(hardware.buses)[index := after]
      ensures ok == LastOk(hardware.buses[index])
    {
      var reading: U32;
      if cfg.hasClock {
        ok, reading := Call(index, SetLockedClocks(cfg.clockMin, cfg.clockMax));
      } else {
        ok, reading := Call(index, ResetLockedClocks);
      }
    }

    method RestoreCoreOffset(index: int) returns (ok: bool)
      requires Wired() && index in states
      modifies hardware
      ensures Wired()
      ensures var after := Policy.RestoreCoreOffset(cfg, hardware.env, old(hardware.buses[index]));
              hardware.buses == old(hardware.buses)[index := after]
      ensures ok == (cfg.hasCoreOffset ==> LastOk(hardware.buses[index]))
    {
      if !cfg.hasCoreOffset { return true; }
      var reading: U32;
      ok, reading := Call(index, SetCoreOffset(cfg.coreOffset));
    }

    /** The restoring calls of one card, each made whatever became of the others. */
    method GiveBack(index: int, fan: bool) returns (ok: bool)
      requires Wired() && index in states
      modifies hardware
      ensures Wired()
      ensures var given := Policy.GiveBack(cfg, hardware.env, old(hardware.buses[index]), fan);
              hardware.buses == old(hardware.buses)[index := given.bus] && ok == given.ok
    {
      hide Do, LastOk;
      var fanOk := true;
      var reading: U32;
      if fan {
        fanOk, reading := Call(index, SetFanAuto);
      }
      var stateOk: bool;
      stateOk, reading := Call(index, SetPState(AUTO_PSTATE));
      var offsetOk := RestoreCoreOffset(index);
      var clocksOk := RestoreClocks(index);
      ok := fanOk && stateOk && offsetOk && clocksOk;
    }

    /** What the snapshot shows after one card's hardware and memory changed. */
    twostate lemma OneSlot(index: int)
      requires old(Wired()) && Wired() && index in states
      requires states == old(states) && control == old(control) && active == old(active)
      requires status.State() == old(status.State())
      requires hardware.buses.Keys == old(hardware.buses.Keys)
      requires forall i :: i in states && i != index ==>
        hardware.buses[i] == old(hardware.buses[i]) && states[i].View() == old(states[i].View())
      ensures Snapshot() == Put(old(Snapshot()), index, Slot(hardware.buses[index], states[index].View()))
    {
      assert Snapshot().slots == old(Snapshot()).slots[index := Slot(hardware.buses[index], states[index].View())];
    }

    /** `release`: gives the card back and forgets it even if calls failed. */
    method Release(index: int, state: CardState) returns (ok: bool)
      requires Wired() && index in states && states[index] == state
      modifies hardware, state
      ensures Wired()
      ensures var given := Policy.GiveBack(cfg, hardware.env, old(hardware.buses[index]), old(state.manualFan));
              && Snapshot() == Put(old(Snapshot()), index, Slot(given.bus, FORGOTTEN))
              && ok == given.ok
    {
      hide Policy.GiveBack;
      ok := GiveBack(index, state.manualFan);
      state.lowPower, state.manualFan, state.idlePolls := false, false, 0;
      OneSlot(index);
    }

    /** One entry of `releaseAll`: released if it is flagged. */
    method ReleaseFlagged(index: int)
      requires Wired() && index in states
      modifies hardware, states.Values
      ensures Wired() && states == old(states)
      ensures Snapshot() == ReleaseOne(cfg, Outcomes(), old(Snapshot()), index)
    {
      hide Policy.GiveBack;
      var state := states[index];
      ghost var before := Snapshot();
      if state.lowPower || state.manualFan {
        var _ := Release(index, state);
      } else {
        assert before.slots[index := before.slots[index]] == before.slots;
      }
    }

    /** `releaseAll`: visits the memory entries in whatever order the map yields them. */
    method ReleaseAll() returns (ghost order: seq<int>)
      requires Wired()
      modifies hardware, states.Values
      ensures Wired() && states == old(states)
      ensures IsOrder(old(Snapshot()), order)
      ensures Snapshot() == Policy.ReleaseAll(cfg, Outcomes(), old(Snapshot()), order)
    {
      hide ReleaseOne, Policy.ReleaseAll;
      order := [];
      var remaining := states.Keys;
      ghost var start := Snapshot();
      ReleaseNone(cfg, Outcomes(), start);
      while remaining != {}
        invariant Wired() && remaining <= states.Keys
        invariant forall i :: i in states.Keys <==> i in order || i in remaining
        invariant forall i :: i in order ==> i !in remaining
        invariant forall a, b :: 0 <= a < b < |order| ==> order[a] != order[b]
        invariant Snapshot() == Policy.ReleaseAll(cfg, Outcomes(), start, order)
        decreases remaining
      {
        NonEmpty(remaining);
        var index :| index in remaining;
        ReleaseFlagged(index);
        ReleaseAllStep(cfg, Outcomes(), start, order, index);
        remaining := remaining - {index};
        order := order + [index];
      }
    }

    /** One listed card of a clean-up. */
    method CleanupCard(gpu: Gpu) returns (ok: bool)
      requires Wired() && gpu.index in states
      modifies hardware, states.Values
      ensures Wired() && states == old(states)
      ensures Snapshot() == CleanupOne(cfg, Outcomes(), old(Snapshot()), gpu)
      ensures ok <==> Recovery.NoFault(old(Snapshot()), Snapshot())
      ensures Growing(old(Snapshot()), Snapshot())
    {
      hide Policy.GiveBack, Ticks.CleanSince;
      ghost var start := Snapshot();
      forall i | i in start.slots ensures Ticks.CleanSince(start.slots[i].bus, start.slots[i].bus) {
        Ticks.CleanSinceRefl(start.slots[i].bus);
      }
      if !IsSupported(gpu) { return true; }
      Ticks.GiveBackOk(cfg, hardware.env, start.slots[gpu.index].bus, start.slots[gpu.index].bus, true);
      var state := states[gpu.index];
      ok := GiveBack(gpu.index, true);
      state.lowPower, state.manualFan, state.idlePolls := false, false, 0;
      OneSlot(gpu.index);
      assert forall i :: i in start.slots && i != gpu.index ==> Snapshot().slots[i] == start.slots[i];
    }

    /** `Cleanup`: gives back every supported card without looking at memory; it reports an
        error exactly if some call failed. */
    method Cleanup() returns (ok: bool)
      requires Wired()
      modifies hardware, states.Values
      ensures Wired() && states == old(states)
      ensures Snapshot() == Policy.Cleanup(cfg, Outcomes(), old(Snapshot()))
      ensures ok <==> Recovery.NoFault(old(Snapshot()), Snapshot())
    {
      hide CleanupOne, Recovery.NoFault;
      ok := true;
      ghost var start := Snapshot();
      NoFaultRefl(start);
      var k := 0;
      while k < |cfg.gpus|
        invariant 0 <= k <= |cfg.gpus| && Wired() && states == old(states)
        invariant Policy.Cleanup(cfg, Outcomes(), start) == CleanupFrom(cfg, Outcomes(), Snapshot(), k)
        invariant ok <==> Recovery.NoFault(start, Snapshot())
        invariant Growing(start, Snapshot())
      {
        ghost var before := Snapshot();
        var cleaned := CleanupCard(cfg.gpus[k]);
        NoFaultSplit(start, before, Snapshot());
        ok := ok && cleaned;
        k := k + 1;
      }
    }

    /** The calls that put a card into P8, with their roll-backs. */
    method EnterLowPower(index: int) returns (ok: bool)
      requires Wired() && index in states
      modifies hardware
      ensures Wired()
      ensures var entered := Policy.EnterLowPower(cfg, hardware.env, old(hardware.buses[index]));
              hardware.buses == old(hardware.buses)[index := entered.bus] && ok == entered.ok
    {
      hide Do, LastOk;
      var reading: U32;
      if cfg.hasCoreOffset {
        ok, reading := Call(index, SetCoreOffset(0));
        if !ok { return; }
      }
      ok, reading := Call(index, ResetLockedClocks);
      if !ok {
        var _ := RestoreCoreOffset(index);
        return;
      }
      ok, reading := Call(index, SetPState(IDLE_PSTATE));
      if !ok {
        var _ := RestoreClocks(index);
        var _ := RestoreCoreOffset(index);
      }
    }

    /** The fan of a card in low power, for a requested percentage above zero. */
    method DriveFan(index: int, state: CardState) returns (ok: bool)
      requires Wired() && index in states && states[index] == state
      modifies hardware, state
      ensures Wired()
      ensures var b := old(hardware.buses[index]);
              var t := Policy.DriveFan(cfg, hardware.env, control.idleFanPercent, b, old(state.View()));
              hardware.buses == old(hardware.buses)[index := t.bus] && state.View() == t.memory && ok == t.ok
    {
      hide Do, LastOk, LastReading;
      var temperature: U32;
      ok, temperature := Call(index, Temperature);
      if !ok { return; }
      var unused: U32;
      if temperature >= cfg.fanAutoTemp {
        if state.manualFan {
          ok, unused := Call(index, SetFanAuto);
          if !ok { return; }
          state.manualFan := false;
        }
      } else if !state.manualFan {
        ok, unused := Call(index, SetFan(control.idleFanPercent));
        if !ok { return; }
        state.manualFan := true;
      }
    }

    /** One card's turn in a tick: the body of the loop in `poll`. */
    method PollCard(index: int, state: CardState) returns (ok: bool)
      requires Wired() && index in states && states[index] == state
      modifies hardware, state
      ensures Wired()
      ensures var b := old(hardware.buses[index]);
              var t := Policy.PollCard(cfg, hardware.env, control.idleFanPercent, b, old(state.View()));
              hardware.buses == old(hardware.buses)[index := t.bus] && state.View() == t.memory && ok == t.ok
    {
      hide Do, LastOk, LastReading, Policy.GiveBack, Policy.EnterLowPower, Policy.DriveFan;
      var utilization: U32;
      ok, utilization := Call(index, Utilization);
      if !ok { return; }
      if utilization > cfg.utilThreshold {
        state.idlePolls := 0;
        if state.lowPower || state.manualFan {
          ok := GiveBack(index, state.manualFan);
          state.lowPower, state.manualFan, state.idlePolls := false, false, 0;
        }
        return;
      }
      state.idlePolls := state.idlePolls + 1;
      if !state.lowPower && state.idlePolls >= cfg.idleAfter {
        ok := EnterLowPower(index);
        if !ok { return; }
        state.lowPower := true;
      }
      if state.lowPower && control.idleFanPercent > 0 {
        ok := DriveFan(index, state);
      }
    }

    method PollTurn(index: int) returns (ok: bool)
      requires Wired() && index in states
      modifies hardware, states.Values
      ensures Wired() && states == old(states) && control == old(control) && active == old(active)
      ensures Snapshot() == AfterTurn(cfg, Outcomes(), old(Snapshot()), index)
      ensures ok == TurnOf(cfg, Outcomes(), old(Snapshot()), index).ok
    {
      hide Policy.PollCard;
      ok := PollCard(index, states[index]);
      OneSlot(index);
    }

    /** `poll`: every card of the profile in turn, up to the first error. */
    method Poll() returns (ok: bool)
      requires Wired() && Pollable(Snapshot())
      modifies hardware, states.Values
      ensures Wired() && states == old(states)
      ensures (Snapshot(), ok) == Policy.Poll(cfg, Outcomes(), old(Snapshot()))
    {
      hide AfterTurn, TurnOf, ProfileCount;
      var count := ProfileCount(control.profile);
      ghost var start := Snapshot();
      assert start.slots.Keys == states.Keys;
      var index := 0;
      while index < count
        invariant 0 <= index <= count && Wired() && states == old(states)
        invariant control == old(control) && active == old(active)
        invariant forall j :: 0 <= j < count ==> j in states
        invariant PollFrom(cfg, Outcomes(), start, 0, count) == PollFrom(cfg, Outcomes(), Snapshot(), index, count)
      {
        ok := PollTurn(index);
        if !ok { return; }
        index := index + 1;
      }
      ok := true;
    }

    method Disable() returns (ghost order: seq<int>)
      requires Wired()
      modifies this`active, hardware, states.Values, status.directory
      ensures Wired() && states == old(states)
      ensures IsOrder(old(Snapshot()), order)
      ensures Snapshot() == Policy.Disable(cfg, Outcomes(), old(Snapshot()), order)
    {
      hide Policy.ReleaseAll, Status.Inactive;
      order := ReleaseAll();
      active := false;
      var _ := status.Inactive();
    }

    method Fail(message: string)
      requires Wired()
      modifies this`active, hardware, states.Values, status.directory
      ensures Wired() && states == old(states)
      ensures Snapshot() == Policy.Fail(cfg, Outcomes(), old(Snapshot()), message)
    {
      hide Policy.Cleanup, Status.Error, Recovery.NoFault;
      var _ := Cleanup();
      active := false;
      status.Error(message);
    }

    /** `syncControl`, from the decoded request on. */
    method SyncControl(d: Decoded) returns (error: SyncError, ghost order: seq<int>)
      requires Wired()
      modifies this`active, this`control, hardware, states.Values, status.directory
      ensures Wired() && states == old(states)
      ensures IsOrder(old(Snapshot()), order)
      ensures (Snapshot(), error) == Policy.SyncControl(cfg, Outcomes(), old(Snapshot()), d, order)
    {
      hide Policy.Enable, Policy.Disable, Fits, CardRefusal, IsOrder;
      order := AnyOrder(Snapshot());
      match LoadControl(d)
      case Absent => return NotFound, order;
      case Rejected => return Other, order;
      case Accepted(c) =>
        if !c.enabled {
          order := Disable();
          return NoError, order;
        }
        if active && c == control { return NoError, order; }
        var refusal := Validate(cfg.gpus, c.profile);
        if refusal != Fine { return Other, order; }
        error, order := Enable(c);
    }

    method Enable(c: Control) returns (error: SyncError, ghost order: seq<int>)
      requires Wired()
      modifies this`active, this`control, hardware, states.Values, status.directory
      ensures Wired() && states == old(states)
      ensures IsOrder(old(Snapshot()), order)
      ensures (Snapshot(), error) == Policy.Enable(cfg, Outcomes(), old(Snapshot()), c, order)
    {
      hide Policy.ReleaseAll, Status.Active;
      order := ReleaseAll();
      ghost var released := Snapshot();
      control, active := c, true;
      var published := status.Active(c);
      assert (status.State(), published) == Status.Active(Outcomes().fs, released.dir, c);
      if published != Status.Good { active := false; }
      assert Snapshot().slots == released.slots;
      error := Reported(published);
    }

    // ----- the main loop -----

    /** `Run`: clean-up, a look at the request, then ticks until cancelled, then a last
        clean-up. The state at every event boundary is that of the specified run, for some
        order of every map iteration. */
    method Run(first: Decoded, message: string, ticks: seq<Wake>) returns (ghost start: Start, ghost events: seq<Event>)
      requires Wired() && Fresh(cfg, Snapshot())
      modifies this`active, this`control, hardware, states.Values, status.directory
      ensures Wired() && states == old(states)
      ensures start.request == first && start.message == message
      ensures |events| == |ticks| && forall k :: 0 <= k < |ticks| ==> Wakes(ticks[k], events[k])
      ensures IsRun(cfg, old(Snapshot()), start, events)
      ensures Snapshot() == Policy.Cleanup(cfg, Outcomes(), Boundary(cfg, Outcomes(), old(Snapshot()), start, events))
    {
      hide Policy.Cleanup, Startup, Step, Recovery.NoFault, Fresh, Ready, IsOrder;
      ghost var s0 := Snapshot();
      ghost var order := Begin(first, message);
      start, events := Start(first, order, message), [];
      for k := 0 to |ticks|
        invariant Wired() && states == old(states)
        invariant |events| == k && forall j :: 0 <= j < k ==> Wakes(ticks[j], events[j])
        invariant IsRun(cfg, s0, start, events)
        invariant Snapshot() == Boundary(cfg, Outcomes(), s0, start, events)
      {
        ghost var event := Serve(ticks[k]);
        RunGrows(cfg, Outcomes(), s0, start, events, event);
        events := events + [event];
      }
      var _ := Cleanup();
    }

    /** The part of `Run` before the loop. */
    method Begin(first: Decoded, message: string) returns (ghost order: seq<int>)
      requires Wired()
      modifies this`active, this`control, hardware, states.Values, status.directory
      ensures Wired() && states == old(states)
      ensures IsOrder(old(Snapshot()), order)
      ensures Snapshot() == Startup(cfg, Outcomes(), old(Snapshot()), first, order, message)
    {
      hide Policy.Cleanup, Policy.SyncControl, Policy.Fail, Recovery.NoFault;
      var _ := Cleanup();
      var error: SyncError;
      error, order := SyncControl(first);
      if error == Other { Fail(message); }
    }

    /** One wake-up of the main loop. */
    method Serve(tick: Wake) returns (ghost event: Event)
      requires Wired() && (active ==> Pollable(Snapshot()))
      modifies this`active, this`control, hardware, states.Values, status.directory
      ensures Wired() && states == old(states)
      ensures Wakes(tick, event) && Orderly(old(Snapshot()), event)
      ensures Snapshot() == Step(cfg, Outcomes(), old(Snapshot()), event)
      // a governor that is not active leaves a GPU tick alone
      ensures tick.GpuTimer? && !old(active) ==> Snapshot() == old(Snapshot())
    {
      hide Policy.SyncControl, Policy.Fail, Policy.Disable, Policy.Poll;
      match tick
      case ControlTimer(d, message) =>
        ghost var order := AnyOrder(Snapshot());
        var error: SyncError;
        ghost var synced: seq<int>;
        error, synced := SyncControl(d);
        if error == NotFound {
          order := Disable();
        } else if error == Other {
          Fail(message);
        }
        event := ControlTick(d, synced, order, message);
      case GpuTimer(message) =>
        event := GpuTick(message);
        if active {
          var ok := Poll();
          if !ok { Fail(message); }
        }
    }
  }

  /** Only calls were added to the logs. */
  ghost predicate Growing(s: System, r: System) {
    s.slots.Keys == r.slots.Keys && forall i :: i in s.slots ==> s.slots[i].bus.log <= r.slots[i].bus.log
  }

  lemma NoFaultRefl(s: System)
    ensures Recovery.NoFault(s, s)
  {
  }

  lemma NoFaultSplit(a: System, b: System, c: System)
    requires Growing(a, b) && Growing(b, c)
    ensures Recovery.NoFault(a, c) <==> Recovery.NoFault(a, b) && Recovery.NoFault(b, c)
    ensures Growing(a, c)
  {
    hide Ticks.CleanSince;
    forall i | i in a.slots
      ensures Ticks.CleanSince(a.slots[i].bus, c.slots[i].bus) <==>
        Ticks.CleanSince(a.slots[i].bus, b.slots[i].bus) && Ticks.CleanSince(b.slots[i].bus, c.slots[i].bus)
    {
      Recovery.CleanSplit(a.slots[i].bus, b.slots[i].bus, c.slots[i].bus);
    }
  }

  /** A run goes on with one more event. */
  lemma RunGrows(cfg: Config, env: Env, s0: System, start: Start, events: seq<Event>, e: Event)
    requires IsRun(cfg, s0, start, events) && Orderly(Boundary(cfg, env, s0, start, events), e)
    ensures IsRun(cfg, s0, start, events + [e])
    ensures var s := Boundary(cfg, env, s0, start, events);
            (s.active ==> Pollable(s)) && Boundary(cfg, env, s0, start, events + [e]) == Step(cfg, env, s, e)
  {
    hide Step, Policy.Cleanup;
    assert (events + [e])[..|events|] == events;
  }

  /** Some order of the memory entries. */
  ghost function AnyOrder(s: System): (order: seq<int>)
    ensures IsOrder(s, order)
  {
    SetOrder(s.slots.Keys)
  }

  ghost function SetOrder(keys: set<int>): (order: seq<int>)
    ensures forall i :: i in keys <==> i in order
    ensures forall a, b :: 0 <= a < b < |order| ==> order[a] != order[b]
  {
    if keys == {} then [] else
      NonEmpty(keys);
      var i :| i in keys;
      [i] + SetOrder(keys - {i})
  }

  lemma NonEmpty(s: set<int>)
    requires s != {}
    ensures exists i :: i in s
  {
    assert (forall i :: i !in s) ==> s == {};
  }

  lemma ReleaseNone(cfg: Config, env: Env, s: System)
    ensures Policy.ReleaseAll(cfg, env, s, []) == s
  {
  }

  /** One more entry visited at the end of an iteration. */
  lemma {:induction false} ReleaseAllStep(cfg: Config, env: Env, s: System, order: seq<int>, i: int)
    ensures Policy.ReleaseAll(cfg, env, s, order + [i])
            == ReleaseOne(cfg, env, Policy.ReleaseAll(cfg, env, s, order), i)
    decreases |order|
  {
    hide ReleaseOne;
    if order == [] {
      assert Policy.ReleaseAll(cfg, env, s, [i]) == Policy.ReleaseAll(cfg, env, ReleaseOne(cfg, env, s, i), [i][1..]);
      assert order + [i] == [i];
    } else {
      assert (order + [i])[1..] == order[1..] + [i];
      ReleaseAllStep(cfg, env, ReleaseOne(cfg, env, s, order[0]), order[1..], i);
    }
  }
}
