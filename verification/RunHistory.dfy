/** The history theorem over several ticks and inside runs: from any moment at which a card
    is not held, through control ticks that repeat the request and error-free polls, in
    any interleaving. */
module RunHistory {
  import opened Cards
  import opened Policy
  import opened Restoration
  import opened Invariant
  import opened History
  import opened Recovery
  import opened Runs
  import opened Ticks

  // ----- n ticks -----

  /** `n` GPU ticks of an active governor, and whether all ended without an error. */
  function Polls(cfg: Config, env: Env, s: System, n: nat): (r: (System, bool))
    requires Pollable(s)
    ensures r.0.slots.Keys == s.slots.Keys && r.0.control == s.control && r.0.active == s.active
    ensures Pollable(r.0)
  {
    if n == 0 then (s, true) else
    var (s1, ok) := Polls(cfg, env, s, n - 1);
    if !ok then (s1, false) else Poll(cfg, env, s1)
  }

  ghost predicate SlotFollows(cfg: Config, percent: int, first: Slot, slot: Slot, n: nat) {
    Follows(cfg, percent, first, slot.bus, slot.memory) && |Since(first.bus, slot.bus)| == n
  }

  lemma FollowsItself(cfg: Config, percent: int, slot: Slot)
    requires Unheld(cfg, slot.memory)
    ensures SlotFollows(cfg, percent, slot, slot, 0)
  {
  }

  /** Each card follows its own readings, whatever the other cards do. */
  lemma {:induction false} PollsFollow(cfg: Config, env: Env, s: System, n: nat, i: int)
    requires Pollable(s) && cfg.idleAfter > 0 && Polls(cfg, env, s, n).1
    requires 0 <= i < ProfileCount(s.control.profile) && Unheld(cfg, s.slots[i].memory)
    ensures SlotFollows(cfg, s.control.idleFanPercent, s.slots[i], Polls(cfg, env, s, n).0.slots[i], n)
    decreases n
  {
    hide PollCard, Poll, Follows, ProfileCount;
    if n == 0 {
      FollowsItself(cfg, s.control.idleFanPercent, s.slots[i]);
    } else {
      var before := Polls(cfg, env, s, n - 1).0;
      PollsFollow(cfg, env, s, n - 1, i);
      PollSlots(cfg, env, before);
      assert SlotFollows(cfg, s.control.idleFanPercent, s.slots[i], before.slots[i], n - 1);
      TurnFollows(cfg, env.hw, s.control.idleFanPercent, s.slots[i], before.slots[i].bus, before.slots[i].memory);
    }
  }

  /** The readings taken since `first`, `n` of utilisation, determine memory and controls;
      of the time before only the number of idle polls remembered counts. */
  ghost predicate DeterminedBy(cfg: Config, percent: int, first: Slot, slot: Slot, n: nat) {
    var base, m := first.bus, first.memory.idlePolls;
    && Utils(base.log) <= Utils(slot.bus.log) && Temps(base.log) <= Temps(slot.bus.log)
    && var us, ts := Since(base, slot.bus), TempsSince(base, slot.bus);
    && |us| == n
    && slot.memory.idlePolls == IdleRun(cfg, m, us)
    && (slot.memory.lowPower <==>
          EndsIdle(cfg, us, cfg.idleAfter) && (n >= cfg.idleAfter || m + n >= cfg.idleAfter))
    && (slot.memory.manualFan <==>
          slot.memory.lowPower && percent > 0 && |ts| > 0 && ts[|ts| - 1] < cfg.fanAutoTemp)
    && (FullyReleased(cfg, base.card) ==> slot.bus.card == CardOf(cfg, percent, slot.memory, base.card))
  }

  /** After `n` error-free polls a card that was not held has been read `n` times. It is in
      low power exactly if its last `idleAfter` readings are idle, or there are fewer, all
      idle, and together with the `m` idle polls remembered from before they are enough.
      Its fan is manual exactly if it is in low power under a fan request and its latest
      temperature is below the limit. If it was released, its controls are those its flags
      call for. */
  lemma LoopRefinesHistory(cfg: Config, env: Env, s: System, n: nat, i: int)
    requires Pollable(s) && cfg.idleAfter > 0 && Polls(cfg, env, s, n).1
    requires 0 <= i < ProfileCount(s.control.profile) && Unheld(cfg, s.slots[i].memory)
    ensures DeterminedBy(cfg, s.control.idleFanPercent, s.slots[i], Polls(cfg, env, s, n).0.slots[i], n)
  {
    hide Poll, FullyReleased, IdleRun, EndsIdle;
    PollsFollow(cfg, env, s, n, i);
    var first, slot := s.slots[i], Polls(cfg, env, s, n).0.slots[i];
    IdleRunMeaning(cfg, first.memory.idlePolls, Since(first.bus, slot.bus), cfg.idleAfter);
  }

  // ----- inside runs -----

  /** A GPU tick, or a control tick that finds the request `c` again. */
  predicate Repeats(e: Event, c: Control) {
    e.GpuTick? || e.request == Request(c)
  }

  function GpuTicks(events: seq<Event>): nat {
    if events == [] then 0
    else GpuTicks(events[..|events| - 1]) + if events[|events| - 1].GpuTick? then 1 else 0
  }

  /** A repeated request disturbs nothing. */
  lemma RepeatedRequest(cfg: Config, env: Env, s: System, e: Event)
    requires s.active && e.ControlTick? && e.request == Request(s.control)
    requires s.control.enabled && WellFormed(s.control) && Pollable(s)
    ensures Step(cfg, env, s, e) == s
  {
    hide Disable, Fail, Enable, Fits;
    assert LoadControl(e.request) == Accepted(s.control);
  }

  lemma {:induction false} PollsOkEarlier(cfg: Config, env: Env, s: System, m: nat, n: nat)
    requires Pollable(s) && m <= n && Polls(cfg, env, s, n).1
    ensures Polls(cfg, env, s, m).1
    decreases n
  {
    if m == n {
    } else {
      PollsOkEarlier(cfg, env, s, m, n - 1);
    }
  }

  /** What a boundary state offers, without the rest of the invariant. */
  lemma RunValid(cfg: Config, env: Env, s0: System, start: Start, events: seq<Event>)
    requires IsRun(cfg, s0, start, events)
    ensures var s := Boundary(cfg, env, s0, start, events);
            s.active ==>
              s.control.enabled && WellFormed(s.control) && Pollable(s) && Fits(cfg.gpus, s.control.profile)
  {
  }

  /** From any event boundary on: while the request stays the same and polls succeed, a run
      is a sequence of polls, however many control ticks come in between. */
  lemma {:induction false} QuietStretch(
    cfg: Config, env: Env, s0: System, start: Start, events: seq<Event>, more: seq<Event>)
    requires IsRun(cfg, s0, start, events + more)
    requires var s := Boundary(cfg, env, s0, start, events);
             s.active && (forall e :: e in more ==> Repeats(e, s.control)) && Polls(cfg, env, s, GpuTicks(more)).1
    ensures Boundary(cfg, env, s0, start, events + more)
            == Polls(cfg, env, Boundary(cfg, env, s0, start, events), GpuTicks(more)).0
    decreases |more|
  {
    hide Cleanup, Startup, Poll, Fail, Fresh, SyncControl;
    if more == [] {
      assert events + more == events;
    } else {
      var s := Boundary(cfg, env, s0, start, events);
      var rest, e := more[..|more| - 1], more[|more| - 1];
      assert events + more == (events + rest) + [e];
      EarlierIsRun(cfg, s0, start, events + rest, [e]);
      PollsOkEarlier(cfg, env, s, GpuTicks(rest), GpuTicks(more));
      QuietStretch(cfg, env, s0, start, events, rest);
      var before := Boundary(cfg, env, s0, start, events + rest);
      RunValid(cfg, env, s0, start, events + rest);
      LastEvent(cfg, env, s0, start, events + rest, e);
      assert e in more && Repeats(e, s.control);
      if e.ControlTick? {
        RepeatedRequest(cfg, env, before, e);
      }
    }
  }

  // ----- where a stretch may begin -----

  /** The last event, or start-up, put the request in force that is in force now. */
  ghost predicate JustEnabled(cfg: Config, env: Env, s0: System, start: Start, events: seq<Event>)
    requires Fresh(cfg, s0)
  {
    var s := Boundary(cfg, env, s0, start, events);
    && s.active
    && (events != [] ==>
          var before := Boundary(cfg, env, s0, start, events[..|events| - 1]);
          before.active ==> before.control != s.control)
  }

  ghost function ReleasedFor(cfg: Config, env: Env, s: System, e: Event): System {
    if e.ControlTick? then ReleaseAll(cfg, env, s, e.order) else s
  }

  lemma SameUnflagged(s: System, r: System)
    requires s.slots == r.slots
    ensures Unflagged(s) ==> Unflagged(r)
  {
  }

  lemma StepEnables(cfg: Config, env: Env, s: System, e: Event)
    requires Inv(cfg, s) && (e.ControlTick? ==> IsOrder(s, e.order)) && (s.active ==> Pollable(s))
    requires Step(cfg, env, s, e).active && (s.active ==> s.control != Step(cfg, env, s, e).control)
    ensures Unflagged(Step(cfg, env, s, e))
  {
    hide Fits, Inv, Unflagged;
    if e.ControlTick? { ReleaseAllInv(cfg, env, s, e.order); }
    assert Unflagged(Step(cfg, env, s, e)) by { SameUnflagged(ReleasedFor(cfg, env, s, e), Step(cfg, env, s, e)); }
  }

  /** Putting a request in force, at start-up or at any control tick, leaves no card held,
      whatever calls fail. */
  lemma EnabledUnflagged(cfg: Config, env: Env, s0: System, start: Start, events: seq<Event>)
    requires IsRun(cfg, s0, start, events) && JustEnabled(cfg, env, s0, start, events)
    ensures Unflagged(Boundary(cfg, env, s0, start, events))
  {
    hide CleanupFrom, Step, Inv;
    if events == [] {
      var base := Cleanup(cfg, env, s0);
      assert Inv(cfg, base) by { StartupCleanup(cfg, env, s0); RunOkInv(cfg, s0, base, base); }
      ReleaseAllInv(cfg, env, base, start.order);
    } else {
      var n := |events| - 1;
      var before := Boundary(cfg, env, s0, start, events[..n]);
      EarlierIsRun(cfg, s0, start, events[..n], [events[n]]);
      assert Inv(cfg, before) by {
        RunInvariant(cfg, env, s0, start, events[..n]);
        RunOkInv(cfg, s0, Cleanup(cfg, env, s0), before);
      }
      assert Orderly(s0, events[n]);
      StepEnables(cfg, env, before, events[n]);
    }
  }

  lemma RunOkInv(cfg: Config, s0: System, base: System, s: System)
    requires RunOk(cfg, s0, base, s)
    ensures Inv(cfg, s)
  {
  }

  /** A supported card that is not held, and on which no call has failed so far, is released. */
  lemma FaultlessReleased(cfg: Config, s: System, i: int)
    requires Inv(cfg, s) && i in s.slots && SupportedIndex(cfg.gpus, i)
    requires !s.slots[i].memory.lowPower && !s.slots[i].memory.manualFan && Faultless(s.slots[i].bus.log)
    ensures FullyReleased(cfg, s.slots[i].bus.card)
  {
    assert SlotOk(cfg, s, i);
    var slot := s.slots[i];
    forall k ensures Released(cfg, slot.bus.card, k) {
      FaultlessRestores(cfg, slot.bus.log, k);
      assert Held(slot.memory, k) || Settled(cfg, slot.bus, k);
    }
  }

  /** The loop refines a function of history, in every run and from every event boundary
      on at which the card is not held, whatever failed before: any interleaving of
      error-free polls and control ticks that repeat the request leaves memory and controls
      as the card's readings since then call for. */
  lemma RunRefinesHistory(
    cfg: Config, env: Env, s0: System, start: Start, events: seq<Event>, more: seq<Event>, i: int)
    requires IsRun(cfg, s0, start, events + more) && cfg.idleAfter > 0
    requires var s := Boundary(cfg, env, s0, start, events);
             && s.active && (forall e :: e in more ==> Repeats(e, s.control))
             && Polls(cfg, env, s, GpuTicks(more)).1
             && 0 <= i < ProfileCount(s.control.profile)
             && !s.slots[i].memory.lowPower && !s.slots[i].memory.manualFan
    ensures var s, s' := Boundary(cfg, env, s0, start, events), Boundary(cfg, env, s0, start, events + more);
            DeterminedBy(cfg, s.control.idleFanPercent, s.slots[i], s'.slots[i], GpuTicks(more))
  {
    hide Poll, ProfileCount, Startup, Step, Cleanup;
    var s := Boundary(cfg, env, s0, start, events);
    EarlierIsRun(cfg, s0, start, events, more);
    RunInvariant(cfg, env, s0, start, events);
    assert SlotOk(cfg, s, i);
    QuietStretch(cfg, env, s0, start, events, more);
    LoopRefinesHistory(cfg, env, s, GpuTicks(more), i);
  }

  /** The same from the moment a request is put in force. If no call on the card has failed
      by then, it is released, and its controls too are a function of its readings. */
  lemma ActivationRefinesHistory(
    cfg: Config, env: Env, s0: System, start: Start, events: seq<Event>, more: seq<Event>, i: int)
    requires IsRun(cfg, s0, start, events + more) && cfg.idleAfter > 0
    requires JustEnabled(cfg, env, s0, start, events)
    requires var s := Boundary(cfg, env, s0, start, events);
             && (forall e :: e in more ==> Repeats(e, s.control)) && Polls(cfg, env, s, GpuTicks(more)).1
             && 0 <= i < ProfileCount(s.control.profile)
    ensures var s, s' := Boundary(cfg, env, s0, start, events), Boundary(cfg, env, s0, start, events + more);
            && DeterminedBy(cfg, s.control.idleFanPercent, s.slots[i], s'.slots[i], GpuTicks(more))
            && (Faultless(s.slots[i].bus.log) ==>
                  s'.slots[i].bus.card
                    == CardOf(cfg, s.control.idleFanPercent, s'.slots[i].memory, s.slots[i].bus.card))
  {
    hide Poll, ProfileCount, Startup, Step, Cleanup, CardOf;
    var s := Boundary(cfg, env, s0, start, events);
    EarlierIsRun(cfg, s0, start, events, more);
    EnabledUnflagged(cfg, env, s0, start, events);
    RunRefinesHistory(cfg, env, s0, start, events, more, i);
    RunInvariant(cfg, env, s0, start, events);
    ActiveIsPollable(cfg, s);
    if Faultless(s.slots[i].bus.log) { FaultlessReleased(cfg, s, i); }
  }

  /** Looking at the request releases nothing that is not flagged. */
  lemma StartKeepsForgotten(cfg: Config, env: Env, s0: System, start: Start, j: int)
    requires j in s0.slots
    requires Startup(cfg, env, s0, start.request, start.order, start.message).active
    requires Cleanup(cfg, env, s0).slots[j].memory == FORGOTTEN
    ensures Startup(cfg, env, s0, start.request, start.order, start.message).slots[j]
            == Cleanup(cfg, env, s0).slots[j]
  {
    hide Cleanup, CleanupFrom, ReleaseAll;
    ReleaseAllSlot(cfg, env, Cleanup(cfg, env, s0), start.order, j);
  }

  /** After a start without a failed hardware call that ends active, also the number of idle
      polls remembered is zero, whatever state an earlier process left behind. */
  lemma StartIsFresh(cfg: Config, env: Env, s0: System, start: Start, i: int)
    requires IsRun(cfg, s0, start, []) && NoFault(s0, Cleanup(cfg, env, s0))
    requires Boundary(cfg, env, s0, start, []).active
    requires 0 <= i < ProfileCount(Boundary(cfg, env, s0, start, []).control.profile)
    ensures var slot := Boundary(cfg, env, s0, start, []).slots[i];
            slot.memory == FORGOTTEN && FullyReleased(cfg, slot.bus.card)
  {
    RunValid(cfg, env, s0, start, []);
    var s := Boundary(cfg, env, s0, start, []);
    assert cfg.gpus[i].index == i && IsSupported(cfg.gpus[i]);
    CrashRecovery(cfg, env, s0, i);
    StartKeepsForgotten(cfg, env, s0, start, i);
  }
}
