/** The layer below the governor's hardware interface: a card has several fans, each set
    by its own driver call, and the list of cards is built by matching two libraries. */
module Nvidia {
  import opened Cards
  import Hardware

  // ----- fans -----

  datatype FanMode = Auto | Manual(percent: int)

  /** A failing driver call leaves its fan alone or in an arbitrary mode. */
  datatype FanReply = Done | Failed | FailedWith(mode: FanMode)

  type FanOracle = nat -> FanReply

  /** The fans of one card and the number of fan calls made to it so far. */
  datatype Fans = Fans(modes: seq<FanMode>, calls: nat)

  /** The call with this number succeeded. */
  predicate Worked(env: FanOracle, n: nat) {
    env(n).Done?
  }

  function SetOne(env: FanOracle, f: Fans, fan: nat, mode: FanMode): (r: Fans)
    requires fan < |f.modes|
    ensures |r.modes| == |f.modes|
  {
    Fans(match env(f.calls)
         case Done => f.modes[fan := mode]
         case Failed => f.modes
         case FailedWith(m) => f.modes[fan := m],
         f.calls + 1)
  }

  /** Fans below `upto`, from `fan` on, are asked to go back to automatic. */
  function RollBack(env: FanOracle, f: Fans, fan: nat, upto: nat): (r: Fans)
    requires upto <= |f.modes|
    ensures |r.modes| == |f.modes|
    decreases upto - fan
  {
    if fan >= upto then f else RollBack(env, SetOne(env, f, fan, Auto), fan + 1, upto)
  }

  /** Fans from `fan` on are set to a percentage; the first failure rolls back. */
  function SetAll(env: FanOracle, f: Fans, fan: nat, percent: int): (r: (Fans, bool))
    ensures |r.0.modes| == |f.modes|
    decreases |f.modes| - fan
  {
    if fan >= |f.modes| then (f, true)
    else
      var f1 := SetOne(env, f, fan, Manual(percent));
      if env(f.calls).Done? then SetAll(env, f1, fan + 1, percent) else (RollBack(env, f1, 0, fan), false)
  }

  /** Fans from `fan` on are set to automatic, each one whatever became of the others. */
  function AutoAll(env: FanOracle, f: Fans, fan: nat): (r: (Fans, bool))
    ensures |r.0.modes| == |f.modes|
    decreases |f.modes| - fan
  {
    if fan >= |f.modes| then (f, true)
    else
      var (r, ok) := AutoAll(env, SetOne(env, f, fan, Auto), fan + 1);
      (r, ok && env(f.calls).Done?)
  }

  /** A roll-back touches only the fans below its bound; the k-th of them is automatic if
      its own call succeeded. */
  lemma {:induction false} RollBackOutcome(env: FanOracle, f: Fans, fan: nat, upto: nat)
    requires fan <= upto <= |f.modes|
    ensures var r := RollBack(env, f, fan, upto);
            && r.calls == f.calls + (upto - fan)
            && (forall j :: 0 <= j < |f.modes| && !(fan <= j < upto) ==> r.modes[j] == f.modes[j])
            && (forall j :: fan <= j < upto && Worked(env, f.calls + (j - fan)) ==> r.modes[j] == Auto)
    decreases upto - fan
  {
    if fan == upto {
    } else {
      var f1 := SetOne(env, f, fan, Auto);
      RollBackOutcome(env, f1, fan + 1, upto);
      forall j | fan < j < upto && Worked(env, f.calls + (j - fan))
        ensures RollBack(env, f, fan, upto).modes[j] == Auto
      {
        assert f1.calls + (j - (fan + 1)) == f.calls + (j - fan);
      }
    }
  }

  /** Setting the fans succeeds exactly if every call did, and then all fans run at the
      percentage. Otherwise it stopped at the first failing fan `k`: fans above it are
      untouched, and fans below it are automatic wherever the roll-back call succeeded. */
  lemma {:induction false} SetAllOutcome(env: FanOracle, f: Fans, fan: nat, percent: int) returns (k: nat)
    requires fan <= |f.modes|
    requires forall j :: 0 <= j < fan ==> f.modes[j] == Manual(percent)
    ensures fan <= k <= |f.modes|
    ensures forall n :: f.calls <= n < f.calls + (k - fan) ==> Worked(env, n)
    ensures var (r, ok) := SetAll(env, f, fan, percent);
            && (ok <==> k == |f.modes|)
            && (ok ==> forall j :: 0 <= j < |f.modes| ==> r.modes[j] == Manual(percent))
            && (!ok ==>
                  && !Worked(env, f.calls + (k - fan))
                  && r.calls == f.calls + (k - fan) + 1 + k
                  && (forall j :: k < j < |f.modes| ==> r.modes[j] == f.modes[j])
                  && (forall j :: 0 <= j < k && Worked(env, f.calls + (k - fan) + 1 + j) ==> r.modes[j] == Auto))
    decreases |f.modes| - fan
  {
    k := fan;
    if fan == |f.modes| {
    } else {
      var f1 := SetOne(env, f, fan, Manual(percent));
      if env(f.calls).Done? {
        k := SetAllOutcome(env, f1, fan + 1, percent);
        assert f1.calls + (k - (fan + 1)) == f.calls + (k - fan);
      } else {
        RollBackOutcome(env, f1, 0, fan);
      }
    }
  }

  /** Automatic mode is requested from every fan despite failures; a fan is automatic if
      its call succeeded, and no error is returned exactly if every call succeeded. */
  lemma {:induction false} AutoAllOutcome(env: FanOracle, f: Fans, fan: nat)
    requires fan <= |f.modes|
    ensures var (r, ok) := AutoAll(env, f, fan);
            && r.calls == f.calls + (|f.modes| - fan)
            && (forall j :: 0 <= j < fan ==> r.modes[j] == f.modes[j])
            && (forall j :: fan <= j < |f.modes| && Worked(env, f.calls + (j - fan)) ==> r.modes[j] == Auto)
            && (ok <==> forall n :: f.calls <= n < r.calls ==> Worked(env, n))
    decreases |f.modes| - fan
  {
    if fan == |f.modes| {
    } else {
      var f1 := SetOne(env, f, fan, Auto);
      AutoAllOutcome(env, f1, fan + 1);
      var (r, ok) := AutoAll(env, f, fan);
      forall j | fan < j < |f.modes| && Worked(env, f.calls + (j - fan)) ensures r.modes[j] == Auto {
        assert f1.calls + (j - (fan + 1)) == f.calls + (j - fan);
      }
      assert ok <==> Worked(env, f.calls) && AutoAll(env, f1, fan + 1).1;
    }
  }

  // ----- one fan stands for all -----

  datatype FanCommand = Speed(percent: int) | Automatic

  function Obey(env: FanOracle, f: Fans, c: FanCommand): (Fans, bool) {
    match c
    case Speed(p) => SetAll(env, f, 0, p)
    case Automatic => AutoAll(env, f, 0)
  }

  ghost predicate AllIn(modes: seq<FanMode>, mode: FanMode) {
    forall j :: 0 <= j < |modes| ==> modes[j] == mode
  }

  /** The fans are as the governor's single fan says; `Mixed` says that they differ. */
  ghost predicate Shows(modes: seq<FanMode>, fan: Hardware.Fan) {
    match fan
    case Automatic => AllIn(modes, Auto)
    case Fixed(p) => AllIn(modes, Manual(p))
    case Mixed => exists j, k :: 0 <= j < k < |modes| && modes[j] != modes[k]
  }

  /** The single fan that stands for the fans of a card. */
  ghost function Seen(modes: seq<FanMode>): (fan: Hardware.Fan)
    ensures Shows(modes, fan)
  {
    if modes == [] then Hardware.Automatic
    else if AllIn(modes, modes[0]) then
      match modes[0]
      case Auto => Hardware.Automatic
      case Manual(p) => Hardware.Fixed(p)
    else
      var k :| 0 <= k < |modes| && modes[k] != modes[0];
      assert Shows(modes, Hardware.Mixed);
      Hardware.Mixed
  }

  function CallOf(c: FanCommand): Hardware.Call {
    match c
    case Speed(p) => Hardware.SetFan(p)
    case Automatic => Hardware.SetFanAuto
  }

  /** The reply of the governor's model that stands for what the fans did. */
  ghost function ReplyFor(card: Hardware.Card, modes: seq<FanMode>, ok: bool): Hardware.Reply {
    if ok then Hardware.Done(0) else Hardware.FailedWith(card.(fan := Seen(modes)))
  }

  /** One command to many fans is one call of the governor's model, successful or not: the
      single fan shows what all of them are left in. */
  lemma ObeyRefines(env: FanOracle, f: Fans, c: FanCommand, card: Hardware.Card)
    ensures var (r, ok) := Obey(env, f, c);
            Shows(r.modes, Hardware.Effect(card, CallOf(c), ReplyFor(card, r.modes, ok)).fan)
  {
    match c
    case Speed(p) => var k := SetAllOutcome(env, f, 0, p);
    case Automatic =>
      AutoAllOutcome(env, f, 0);
      var (r, ok) := AutoAll(env, f, 0);
      if ok {
        forall j | 0 <= j < |f.modes| ensures r.modes[j] == Auto {
          assert Worked(env, f.calls + (j - 0));
        }
      }
  }

  /** The fans after a sequence of commands, and which of them succeeded. */
  function ObeyAll(env: FanOracle, f: Fans, cs: seq<FanCommand>): (r: (Fans, seq<bool>))
    ensures |r.1| == |cs|
  {
    if cs == [] then (f, [])
    else
      var (f1, oks) := ObeyAll(env, f, cs[..|cs| - 1]);
      var (r, ok) := Obey(env, f1, cs[|cs| - 1]);
      (r, oks + [ok])
  }

  /** The one-fan model under a sequence of replies. */
  function OneFan(card: Hardware.Card, cs: seq<FanCommand>, replies: seq<Hardware.Reply>): Hardware.Card
    requires |replies| == |cs|
  {
    if cs == [] then card
    else
      var n := |cs| - 1;
      Hardware.Effect(OneFan(card, cs[..n], replies[..n]), CallOf(cs[n]), replies[n])
  }

  /** The one-fan model is sound: whatever the many fans do over any sequence of commands,
      some replies in the one-fan model succeed and fail alike and leave its single fan
      showing the state of all of them. */
  lemma {:induction false} OneFanRefinesMany(env: FanOracle, f: Fans, cs: seq<FanCommand>, card: Hardware.Card)
    returns (replies: seq<Hardware.Reply>)
    requires Shows(f.modes, card.fan)
    ensures |replies| == |cs|
    ensures var (r, oks) := ObeyAll(env, f, cs);
            && Shows(r.modes, OneFan(card, cs, replies).fan)
            && forall k :: 0 <= k < |cs| ==> (replies[k].Done? <==> oks[k])
    decreases |cs|
  {
    if cs == [] {
      replies := [];
    } else {
      var n := |cs| - 1;
      var earlier := OneFanRefinesMany(env, f, cs[..n], card);
      var (f1, oks) := ObeyAll(env, f, cs[..n]);
      var before := OneFan(card, cs[..n], earlier);
      ObeyRefines(env, f1, cs[n], before);
      var (r, ok) := Obey(env, f1, cs[n]);
      replies := earlier + [ReplyFor(before, r.modes, ok)];
      assert replies[..n] == earlier;
    }
  }

  // ----- the driver object -----

  class FanBank {
    var modes: array<FanMode>
    var calls: nat
    const env: FanOracle

    constructor (modes: array<FanMode>, env: FanOracle)
      ensures this.modes == modes && calls == 0 && this.env == env
    {
      this.modes, this.calls, this.env := modes, 0, env;
    }

    ghost function State(): Fans
      reads this, modes
    {
      Fans(modes[..], calls)
    }

    /** One driver call for one fan. */
    method Drive(fan: nat, mode: FanMode) returns (ok: bool)
      requires fan < modes.Length
      modifies this`calls, modes
      ensures State() == SetOne(env, old(State()), fan, mode) && ok == env(old(calls)).Done?
    {
      var reply := env(calls);
      calls := calls + 1;
      if reply.Done? {
        modes[fan] := mode;
      } else if reply.FailedWith? {
        modes[fan] := reply.mode;
      }
      ok := reply.Done?;
    }

    /** `SetFan`, with its roll-back. */
    method SetFan(percent: int) returns (ok: bool)
      modifies this`calls, modes
      ensures (State(), ok) == SetAll(env, old(State()), 0, percent)
    {
      var fan := 0;
      while fan < modes.Length
        invariant 0 <= fan <= modes.Length
        invariant SetAll(env, old(State()), 0, percent) == SetAll(env, State(), fan, percent)
      {
        var driven := Drive(fan, Manual(percent));
        if !driven {
          var rollback := 0;
          while rollback < fan
            invariant 0 <= rollback <= fan
            invariant SetAll(env, old(State()), 0, percent) == (RollBack(env, State(), rollback, fan), false)
          {
            var _ := Drive(rollback, Auto);
            rollback := rollback + 1;
          }
          return false;
        }
        fan := fan + 1;
      }
      ok := true;
    }

    /** `SetFanAuto`, joining the errors. */
    method SetFanAuto() returns (ok: bool)
      modifies this`calls, modes
      ensures (State(), ok) == AutoAll(env, old(State()), 0)
    {
      ok := true;
      var fan := 0;
      while fan < modes.Length
        invariant 0 <= fan <= modes.Length
        invariant var (r, rest) := AutoAll(env, State(), fan);
                  AutoAll(env, old(State()), 0) == (r, ok && rest)
      {
        var driven := Drive(fan, Auto);
        ok := ok && driven;
        fan := fan + 1;
      }
    }
  }

  // ----- enumeration -----

  const MAX_PHYSICAL_GPUS := 64

  /** What the first library says about a card; each flag tells whether the query worked. */
  datatype MlDevice = MlDevice(
    handleOk: bool, pciOk: bool, memoryOk: bool, fansOk: bool,
    bus: U32, pciDeviceId: U32, subsystemId: U32, memoryBytes: nat, fans: nat)

  /** A card of the second library: its handle, and its bus number if that can be read. */
  datatype NvDevice = NvDevice(handle: nat, busOk: bool, bus: U32)

  datatype DeviceEntry = DeviceEntry(info: Gpu, nvHandle: nat, fans: nat)

  predicate Readable(d: MlDevice) {
    d.handleOk && d.pciOk && d.memoryOk && d.fansOk
  }

  predicate OnBus(nv: NvDevice, bus: U32) {
    nv.busOk && nv.bus == bus
  }

  /** The first card of the second library on the bus, if its handle is not null. */
  predicate FirstOnBus(nvs: seq<NvDevice>, count: nat, bus: U32, handle: nat) {
    exists k :: 0 <= k < count && k < |nvs| && OnBus(nvs[k], bus) && nvs[k].handle == handle
      && forall j :: 0 <= j < k ==> !OnBus(nvs[j], bus)
  }

  /** The second library knows the bus, with a handle that is not null. */
  ghost predicate Known(nvs: seq<NvDevice>, count: nat, bus: U32) {
    exists h :: h != 0 && FirstOnBus(nvs, count, bus, h)
  }

  /** A list entry describes a card at its own index, with its handle on its bus. */
  ghost predicate Describes(e: DeviceEntry, i: nat, d: MlDevice, nvs: seq<NvDevice>, count: nat) {
    && e.info == Gpu(i, d.pciDeviceId / 0x1_0000, d.subsystemId, d.memoryBytes)
    && e.fans == d.fans
    && e.nvHandle != 0 && FirstOnBus(nvs, count, d.bus, e.nvHandle)
  }

  /** The inner search: the first card on the bus decides, null handle or not. */
  method FindHandle(nvs: seq<NvDevice>, nvCount: nat, bus: U32) returns (handle: nat)
    requires |nvs| == MAX_PHYSICAL_GPUS
    ensures handle != 0 ==> FirstOnBus(nvs, nvCount, bus, handle)
    ensures handle == 0 ==> !Known(nvs, nvCount, bus)
  {
    var nvIndex := 0;
    while nvIndex < nvCount && nvIndex < MAX_PHYSICAL_GPUS
      invariant 0 <= nvIndex <= MAX_PHYSICAL_GPUS
      invariant forall j :: 0 <= j < nvIndex ==> !OnBus(nvs[j], bus)
    {
      if nvs[nvIndex].busOk && nvs[nvIndex].bus == bus {
        assert FirstOnBus(nvs, nvCount, bus, nvs[nvIndex].handle);
        return nvs[nvIndex].handle;
      }
      nvIndex := nvIndex + 1;
    }
    handle := 0;
  }

  /** Enumeration succeeds exactly if every card can be read and is found, with a handle,
      on its bus in the second library; the list then holds every card at its own index. */
  method Enumerate(mls: seq<MlDevice>, nvs: seq<NvDevice>, nvCount: nat) returns (devices: seq<DeviceEntry>, ok: bool)
    requires |nvs| == MAX_PHYSICAL_GPUS
    ensures ok <==> forall i :: 0 <= i < |mls| ==> Readable(mls[i]) && Known(nvs, nvCount, mls[i].bus)
    ensures ok ==> |devices| == |mls| && forall i :: 0 <= i < |mls| ==> Describes(devices[i], i, mls[i], nvs, nvCount)
  {
    hide FirstOnBus;
    devices := [];
    for index := 0 to |mls|
      invariant |devices| == index
      invariant forall i :: 0 <= i < index ==> Readable(mls[i]) && Known(nvs, nvCount, mls[i].bus)
      invariant forall i :: 0 <= i < index ==> Describes(devices[i], i, mls[i], nvs, nvCount)
    {
      var d := mls[index];
      if !d.handleOk || !d.pciOk || !d.memoryOk || !d.fansOk { return devices, false; }
      var nvHandle := FindHandle(nvs, nvCount, d.bus);
      if nvHandle == 0 { return devices, false; }
      var gpu := Gpu(index, d.pciDeviceId / 0x1_0000, d.subsystemId, d.memoryBytes);
      devices := devices + [DeviceEntry(gpu, nvHandle, d.fans)];
    }
    ok := true;
  }

  /** Enumeration lists every index once, which is what a profile's cards need. */
  lemma EnumeratedInOrder(devices: seq<DeviceEntry>, mls: seq<MlDevice>, nvs: seq<NvDevice>, nvCount: nat)
    requires |devices| == |mls| && forall i :: 0 <= i < |mls| ==> Describes(devices[i], i, mls[i], nvs, nvCount)
    ensures var gpus := seq(|devices|, i requires 0 <= i < |devices| => devices[i].info);
            && (forall i :: ListedIndex(gpus, i) <==> 0 <= i < |gpus|)
            && (forall i, j :: 0 <= i < |gpus| && 0 <= j < |gpus| && gpus[i].index == gpus[j].index ==> i == j)
  {
    hide FirstOnBus;
    var gpus := seq(|devices|, i requires 0 <= i < |devices| => devices[i].info);
    forall i | 0 <= i < |gpus| ensures gpus[i].index == i {
      assert Describes(devices[i], i, mls[i], nvs, nvCount);
    }
    forall i ensures ListedIndex(gpus, i) <==> 0 <= i < |gpus| {
      if 0 <= i < |gpus| { assert gpus[i].index == i; }
    }
  }
}
