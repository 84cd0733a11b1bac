/** The governor's control loop as functions on values: the specification that the
    imperative `Governor` class is proved against. */
module Policy {
  import opened Cards
  import opened Hardware
  import Status

  const AUTO_PSTATE := 16
  const IDLE_PSTATE := 8

  /** What the governor remembers about one card. */
  datatype Memory = Memory(idlePolls: nat, lowPower: bool, manualFan: bool)

  const FORGOTTEN := Memory(0, false, false)

  /** A listed card: the hardware and the governor's memory of it. */
  datatype Slot = Slot(bus: Bus, memory: Memory)

  /** The whole system at one moment. */
  datatype System = System(slots: map<int, Slot>, control: Control, active: bool, dir: Status.Dir)

  /** The outcome of hardware calls and of file operations. */
  datatype Env = Env(hw: Oracle, fs: Status.FsOracle)

  // ----- restoring calls -----

  function ClockCall(cfg: Config): Call {
    if cfg.hasClock then SetLockedClocks(cfg.clockMin, cfg.clockMax) else ResetLockedClocks
  }

  function RestoreClocks(cfg: Config, env: Oracle, b: Bus): Bus {
    Do(env, b, ClockCall(cfg))
  }

  function RestoreCoreOffset(cfg: Config, env: Oracle, b: Bus): Bus {
    if cfg.hasCoreOffset then Do(env, b, SetCoreOffset(cfg.coreOffset)) else b
  }

  /** A card after some calls, and whether they returned no error. */
  datatype Outcome = Outcome(bus: Bus, ok: bool)

  /** Gives a card back: fan (if asked for), P-state, core offset, clocks, each one
      whatever became of the others; the errors are joined. */
  function GiveBack(cfg: Config, env: Oracle, b: Bus, fan: bool): Outcome {
    var b1 := if fan then Do(env, b, SetFanAuto) else b;
    var b2 := Do(env, b1, SetPState(AUTO_PSTATE));
    var b3 := RestoreCoreOffset(cfg, env, b2);
    var b4 := RestoreClocks(cfg, env, b3);
    Outcome(b4, (fan ==> LastOk(b1)) && LastOk(b2) && (cfg.hasCoreOffset ==> LastOk(b3)) && LastOk(b4))
  }

  // ----- one card in one GPU tick -----

  /** The calls that put a card into P8. A failing clock reset puts the offset back, a
      failing P8 request puts clocks and offset back. */
  function EnterLowPower(cfg: Config, env: Oracle, b: Bus): Outcome {
    var b1 := if cfg.hasCoreOffset then Do(env, b, SetCoreOffset(0)) else b;
    if cfg.hasCoreOffset && !LastOk(b1) then Outcome(b1, false) else
    var b2 := Do(env, b1, ResetLockedClocks);
    if !LastOk(b2) then Outcome(RestoreCoreOffset(cfg, env, b2), false) else
    var b3 := Do(env, b2, SetPState(IDLE_PSTATE));
    if !LastOk(b3) then Outcome(RestoreCoreOffset(cfg, env, RestoreClocks(cfg, env, b3)), false) else
    Outcome(b3, true)
  }

  /** A card's turn in a GPU tick: hardware, memory, and whether no error was returned. */
  datatype Turn = Turn(bus: Bus, memory: Memory, ok: bool)

  /** Fan control of a card in P8, for a requested percentage above zero. */
  function DriveFan(cfg: Config, env: Oracle, percent: int, b: Bus, v: Memory): Turn {
    var b1 := Do(env, b, Temperature);
    if !LastOk(b1) then Turn(b1, v, false)
    else if LastReading(b1) >= cfg.fanAutoTemp then
      if v.manualFan then
        var b2 := Do(env, b1, SetFanAuto);
        if !LastOk(b2) then Turn(b2, v, false) else Turn(b2, v.(manualFan := false), true)
      else Turn(b1, v, true)
    else if !v.manualFan then
      var b2 := Do(env, b1, SetFan(percent));
      if !LastOk(b2) then Turn(b2, v, false) else Turn(b2, v.(manualFan := true), true)
    else Turn(b1, v, true)
  }

  /** A card whose reading was idle, its counter already advanced. */
  function IdleCard(cfg: Config, env: Oracle, percent: int, b: Bus, v: Memory): Turn {
    if !v.lowPower && v.idlePolls >= cfg.idleAfter then
      var entered := EnterLowPower(cfg, env, b);
      if !entered.ok then Turn(entered.bus, v, false)
      else LowPowerCard(cfg, env, percent, entered.bus, v.(lowPower := true))
    else LowPowerCard(cfg, env, percent, b, v)
  }

  function LowPowerCard(cfg: Config, env: Oracle, percent: int, b: Bus, v: Memory): Turn {
    if v.lowPower && percent > 0 then DriveFan(cfg, env, percent, b, v) else Turn(b, v, true)
  }

  function BusyCard(cfg: Config, env: Oracle, b: Bus, v: Memory): Turn {
    if v.lowPower || v.manualFan then
      var given := GiveBack(cfg, env, b, v.manualFan);
      Turn(given.bus, FORGOTTEN, given.ok)
    else Turn(b, v.(idlePolls := 0), true)
  }

  function PollCard(cfg: Config, env: Oracle, percent: int, b: Bus, v: Memory): Turn {
    var b1 := Do(env, b, Utilization);
    if !LastOk(b1) then Turn(b1, v, false)
    else if LastReading(b1) > cfg.utilThreshold then BusyCard(cfg, env, b1, v)
    else IdleCard(cfg, env, percent, b1, v.(idlePolls := v.idlePolls + 1))
  }

  /** The cards a GPU tick visits all exist. */
  predicate Pollable(s: System) {
    forall i :: 0 <= i < ProfileCount(s.control.profile) ==> i in s.slots
  }

  /** The system with one slot replaced. */
  function Put(s: System, i: int, slot: Slot): System {
    s.(slots := s.slots[i := slot])
  }

  function TurnOf(cfg: Config, env: Env, s: System, i: int): Turn
    requires i in s.slots
  {
    PollCard(cfg, env.hw, s.control.idleFanPercent, s.slots[i].bus, s.slots[i].memory)
  }

  function AfterTurn(cfg: Config, env: Env, s: System, i: int): (r: System)
    requires i in s.slots
    ensures r.slots.Keys == s.slots.Keys
    ensures r.control == s.control && r.active == s.active && r.dir == s.dir
  {
    var t := TurnOf(cfg, env, s, i);
    Put(s, i, Slot(t.bus, t.memory))
  }

  /** A GPU tick over the cards from `i` up to `count`, and whether it ended without an
      error; it stops at the first error. */
  function PollFrom(cfg: Config, env: Env, s: System, i: nat, count: nat): (r: (System, bool))
    requires forall j :: 0 <= j < count ==> j in s.slots
    ensures r.0.slots.Keys == s.slots.Keys
    ensures r.0.control == s.control && r.0.active == s.active && r.0.dir == s.dir
    decreases count - i
  {
    if i >= count then (s, true)
    else if !TurnOf(cfg, env, s, i).ok then (AfterTurn(cfg, env, s, i), false)
    else PollFrom(cfg, env, AfterTurn(cfg, env, s, i), i + 1, count)
  }

  function Poll(cfg: Config, env: Env, s: System): (System, bool)
    requires Pollable(s)
  {
    PollFrom(cfg, env, s, 0, ProfileCount(s.control.profile))
  }

  // ----- releasing -----

  function ReleasedSlot(cfg: Config, env: Env, slot: Slot): Slot {
    if slot.memory.lowPower || slot.memory.manualFan
    then Slot(GiveBack(cfg, env.hw, slot.bus, slot.memory.manualFan).bus, FORGOTTEN)
    else slot
  }

  /** One card of `releaseAll`: memory decides whether anything is done. */
  function ReleaseOne(cfg: Config, env: Env, s: System, i: int): System {
    if i in s.slots then Put(s, i, ReleasedSlot(cfg, env, s.slots[i])) else s
  }

  /** Releases the cards flagged in memory, visiting the entries in the given order. */
  function ReleaseAll(cfg: Config, env: Env, s: System, order: seq<int>): (r: System)
    ensures r.slots.Keys == s.slots.Keys
    ensures r.control == s.control && r.active == s.active && r.dir == s.dir
    decreases |order|
  {
    if order == [] then s else ReleaseAll(cfg, env, ReleaseOne(cfg, env, s, order[0]), order[1..])
  }

  /** An order in which a map iteration may visit the memory entries: each one once. */
  ghost predicate IsOrder(s: System, order: seq<int>) {
    && (forall i :: i in s.slots <==> i in order)
    && (forall a, b :: 0 <= a < b < |order| ==> order[a] != order[b])
  }

  function CleanedSlot(cfg: Config, env: Env, slot: Slot): Slot {
    Slot(GiveBack(cfg, env.hw, slot.bus, true).bus, FORGOTTEN)
  }

  function CleanupOne(cfg: Config, env: Env, s: System, gpu: Gpu): System {
    if IsSupported(gpu) && gpu.index in s.slots
    then Put(s, gpu.index, CleanedSlot(cfg, env, s.slots[gpu.index]))
    else s
  }

  function CleanupFrom(cfg: Config, env: Env, s: System, k: nat): (r: System)
    ensures r.slots.Keys == s.slots.Keys
    ensures r.control == s.control && r.active == s.active && r.dir == s.dir
    decreases |cfg.gpus| - k
  {
    if k >= |cfg.gpus| then s else CleanupFrom(cfg, env, CleanupOne(cfg, env, s, cfg.gpus[k]), k + 1)
  }

  /** Releases every supported card without looking at memory. */
  function Cleanup(cfg: Config, env: Env, s: System): System {
    CleanupFrom(cfg, env, s, 0)
  }

  function Disable(cfg: Config, env: Env, s: System, order: seq<int>): System {
    var s1 := ReleaseAll(cfg, env, s, order);
    s1.(active := false, dir := Status.Inactive(env.fs, s1.dir).0)
  }

  function Fail(cfg: Config, env: Env, s: System, message: string): System {
    var s1 := Cleanup(cfg, env, s);
    s1.(active := false, dir := Status.Error(env.fs, s1.dir, message))
  }

  // ----- events -----

  /** The error class `syncControl` returns; a "no such file" from publishing the status
      is not told apart from a missing request. */
  datatype SyncError = NoError | NotFound | Other

  function SyncControl(cfg: Config, env: Env, s: System, d: Decoded, order: seq<int>): (r: (System, SyncError))
    ensures r.0.slots.Keys == s.slots.Keys
  {
    match LoadControl(d)
    case Absent => (s, NotFound)
    case Rejected => (s, Other)
    case Accepted(c) =>
      if !c.enabled then (Disable(cfg, env, s, order), NoError)
      else if s.active && c == s.control then (s, NoError)
      else if !Fits(cfg.gpus, c.profile) then (s, Other)
      else Enable(cfg, env, s, c, order)
  }

  /** Puts a validated request in force: releases what is held, publishes the status. */
  function Enable(cfg: Config, env: Env, s: System, c: Control, order: seq<int>): (r: (System, SyncError))
    ensures r.0.slots.Keys == s.slots.Keys
  {
    var s1 := ReleaseAll(cfg, env, s, order);
    var (dir, published) := Status.Active(env.fs, s1.dir, c);
    (s1.(control := c, active := published.Good?, dir := dir), Reported(published))
  }

  function Reported(r: Status.FsResult): SyncError {
    match r
    case Good => NoError
    case NotExist => NotFound
    case Broken => Other
  }

  /** What the main loop can be woken by. Map iteration orders and the texts of error
      messages are part of the event. */
  datatype Event =
    | ControlTick(request: Decoded, order: seq<int>, disableOrder: seq<int>, message: string)
    | GpuTick(message: string)

  function Tick(cfg: Config, env: Env, s: System, message: string): System
    requires s.active ==> Pollable(s)
  {
    if !s.active then s else
    var (s1, ok) := Poll(cfg, env, s);
    if ok then s1 else Fail(cfg, env, s1, message)
  }

  function Step(cfg: Config, env: Env, s: System, e: Event): (r: System)
    requires s.active ==> Pollable(s)
    ensures r.slots.Keys == s.slots.Keys
  {
    match e
    case GpuTick(message) => Tick(cfg, env, s, message)
    case ControlTick(d, order, disableOrder, message) =>
      var (s1, error) := SyncControl(cfg, env, s, d, order);
      match error
      case NoError => s1
      case NotFound => Disable(cfg, env, s1, disableOrder)
      case Other => Fail(cfg, env, s1, message)
  }

  /** From process start to the main loop: clean-up, then one look at the request. Here a
      missing request is passed over in silence. */
  function Startup(cfg: Config, env: Env, s: System, d: Decoded, order: seq<int>, message: string): (r: System)
    ensures r.slots.Keys == s.slots.Keys
  {
    var s1 := Cleanup(cfg, env, s);
    var (s2, error) := SyncControl(cfg, env, s1, d, order);
    if error == Other then Fail(cfg, env, s2, message) else s2
  }
}
