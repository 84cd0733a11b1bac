/** The boot script that gives the cards a second initialisation pass. It runs under
    "exit on the first error", with traps that must bring the device manager (udev) back
    whatever ends the script. */
module SecondPass {

  /** The service and the two sockets of udev. */
  datatype Unit = Unit(masked: bool, running: bool)

  const UNITS := 3

  datatype Signal = Int | Term

  /** The outcome of one command: it worked, it failed, or a signal arrived while it ran. A
      udev command that did not work may leave the units
      in any state, `residue`. */
  datatype Status = Worked | Failed | Killed(signal: Signal)

  datatype Reply = Reply(status: Status, residue: seq<Unit>)

  type Oracle = nat -> Reply

  /** One card, as the guards see it. */
  datatype Card = Card(flrWritable: bool, subsystem: (string, string), hasDriver: bool)

  predicate SupportedSubsystem(s: (string, string)) {
    s == ("10de", "1554") || s == ("1462", "371f")
  }

  /** What the script finds out about the machine. `fast` and `fastAfter` tell per card
      whether its link runs at 5.0 GT/s before and after the second pass. */
  datatype Facts = Facts(
    isRoot: bool, kernelKnown: bool, toolsPresent: bool, lockFree: bool,
    cards: seq<Card>,
    count: nat -> nat,            // cards the driver lists, at the n-th question
    fast: seq<bool>, fastAfter: seq<bool>,
    barTotals: seq<int>,          // BAR1 sizes in MiB
    barEncodings: seq<int>,       // BAR1 size encodings after the second pass
    driverIds: seq<(string, string)>,
    nodesInUse: bool,
    unitStates: seq<string>,      // what the service manager says of the three units
    moduleStillLoaded: bool)

  predicate NotMasked(state: string) {
    state != "masked" && state != "masked-runtime"
  }

  predicate CardsAccepted(f: Facts) {
    && |f.cards| > 0
    && forall k :: 0 <= k < |f.cards| ==> f.cards[k].flrWritable && SupportedSubsystem(f.cards[k].subsystem)
  }

  predicate NoForeignGpu(f: Facts) {
    forall k :: 0 <= k < |f.driverIds| ==> f.driverIds[k] == ("0x10de", "0x1e09")
  }

  predicate NoneMasked(f: Facts) {
    forall k :: 0 <= k < |f.unitStates| ==> NotMasked(f.unitStates[k])
  }

  /** Everything that must hold before the script disturbs the machine. */
  predicate Guarded(f: Facts) {
    && f.isRoot && f.kernelKnown && f.toolsPresent && f.lockFree
    && CardsAccepted(f) && NoForeignGpu(f) && !f.nodesInUse && NoneMasked(f)
  }

  predicate AllTrue(bs: seq<bool>) {
    forall k :: 0 <= k < |bs| ==> bs[k]
  }

  /** Every link was fast after the first pass, and every BAR1 large enough. */
  predicate FirstPassDone(f: Facts) {
    AllTrue(f.fast) && |f.barTotals| == |f.cards| && forall k :: 0 <= k < |f.barTotals| ==> f.barTotals[k] >= 16000
  }

  /** Every link is fast and every BAR1 at 16 GiB after the second pass. */
  predicate SecondPassDone(f: Facts)
    requires |f.fastAfter| == |f.barEncodings| == |f.cards|
  {
    forall k :: 0 <= k < |f.cards| ==> f.fastAfter[k] && f.barEncodings[k] == 14
  }

  // ----- waiting for the driver -----

  /** The questions from `first` up to `next` are those of one wait: none before the last two
      was answered with the full count, and the last but one was, or sixty were not. */
  ghost predicate Waited(f: Facts, first: nat, next: nat) {
    && first + 2 <= next <= first + 61
    && (forall n :: first <= n < next - 2 ==> f.count(n) != |f.cards|)
    && (f.count(next - 2) == |f.cards| || next == first + 61)
  }

  /** The driver lists every card when the wait that begins with question `first` is over. */
  ghost predicate Listed(f: Facts, first: nat, next: nat) {
    Waited(f, first, next) && f.count(next - 1) == |f.cards|
  }

  /** A wait ends at one question only. */
  lemma WaitEndsOnce(f: Facts, first: nat, a: nat, b: nat)
    requires Waited(f, first, a) && Waited(f, first, b)
    ensures a == b
  {
  }

  lemma WaitDecides(f: Facts, first: nat, next: nat)
    requires Waited(f, first, next)
    ensures forall a :: Listed(f, first, a) <==> a == next && f.count(next - 1) == |f.cards|
  {
    forall a: nat | Listed(f, first, a) ensures a == next {
      WaitEndsOnce(f, first, a, next);
    }
  }

  /** If the `k`-th of sixty questions is the first one answered with the full count, and
      the next one is so too, the driver is listed after them. */
  lemma ListedAfter(f: Facts, first: nat, k: nat)
    requires k < 60 && f.count(first + k) == f.count(first + k + 1) == |f.cards|
    requires forall n :: first <= n < first + k ==> f.count(n) != |f.cards|
    ensures Listed(f, first, first + k + 2)
  {
  }

  /** The guards made once the driver is loaded. */
  ghost predicate MachineFree(f: Facts) {
    NoForeignGpu(f) && !f.nodesInUse && NoneMasked(f)
  }

  /** What must be found for the script to succeed when all commands work and the first
      question is number `first`: the checks pass, the driver lists every card, and either
      the first pass was enough or the second one can be made and reaches its goal. */
  ghost predicate Achievable(f: Facts, first: nat)
    requires |f.fastAfter| == |f.barEncodings| == |f.cards|
  {
    && f.isRoot && f.kernelKnown && f.toolsPresent && f.lockFree && CardsAccepted(f)
    && exists a :: Listed(f, first, a) &&
         if AllTrue(f.fast) then FirstPassDone(f)
         else MachineFree(f) && !f.moduleStillLoaded && SecondPassDone(f) && exists b :: Listed(f, a, b)
  }

  /** The size in MiB that an encoding stands for. */
  function MiB(encoding: int): nat {
    if encoding <= 0 then 1 else 2 * MiB(encoding - 1)
  }

  lemma SixteenGiB()
    ensures MiB(14) == 16 * 1024
  {
    assert MiB(10) == 1024;
  }

  lemma GuardsPassed(f: Facts)
    requires f.isRoot && f.kernelKnown && f.toolsPresent && f.lockFree && CardsAccepted(f)
    requires NoForeignGpu(f) && !f.nodesInUse && NoneMasked(f)
    ensures Guarded(f)
  {
  }

  lemma GuardsMean(f: Facts)
    requires Guarded(f)
    ensures f.isRoot && f.kernelKnown && f.toolsPresent && f.lockFree && f.cards != [] && !f.nodesInUse
    ensures forall c :: c in f.cards ==> c.flrWritable && c.subsystem in {("10de", "1554"), ("1462", "371f")}
    ensures forall id :: id in f.driverIds ==> id == ("0x10de", "0x1e09")
    ensures forall state :: state in f.unitStates ==> state !in {"masked", "masked-runtime"}
  {
    forall c | c in f.cards
      ensures c.flrWritable && c.subsystem in {("10de", "1554"), ("1462", "371f")}
    {
      var k :| 0 <= k < |f.cards| && f.cards[k] == c;
    }
  }

  class Machine {
    const f: Facts
    const env: Oracle
    var commands: nat
    var asked: nat
    var units: seq<Unit>
    var udevStopped: bool          // the script's own flag
    ghost var udevTouched: bool    // a udev command was issued
    ghost var disturbed: bool      // a card was unbound or reset, or the driver unloaded
    ghost var unbound: set<nat>
    ghost var unloaded: bool       // the driver was asked to unload
    ghost var resets: seq<nat>

    constructor (f: Facts, env: Oracle, units: seq<Unit>)
      ensures this.f == f && this.env == env && this.units == units
      ensures commands == asked == 0 && !udevStopped && !udevTouched && !disturbed
      ensures unbound == {} && !unloaded && resets == []
    {
      this.f, this.env, this.units := f, env, units;
      commands, asked, udevStopped, udevTouched, disturbed := 0, 0, false, false, false;
      unbound, unloaded, resets := {}, false, [];
    }

    ghost predicate AllWork()
    {
      forall n :: env(n).status.Worked?
    }

    /** The status is that of some command; a signal does not come out of nowhere. */
    ghost predicate Arrived(s: Status) {
      exists n :: env(n).status == s
    }

    /** Every card with a driver. */
    ghost function Bound(): set<nat> {
      set k: nat | k < |f.cards| && f.cards[k].hasDriver
    }

    /** All units masked and stopped: nothing reacts to devices coming and going. */
    ghost predicate UdevQuiet()
      reads this
    {
      |units| == UNITS && forall k :: 0 <= k < UNITS ==> units[k].masked && !units[k].running
    }

    ghost predicate UdevRestored()
      reads this
    {
      |units| == UNITS && forall k :: 0 <= k < UNITS ==> !units[k].masked && units[k].running
    }

    /** Any other command. */
    method Command() returns (s: Status)
      modifies this`commands
      ensures s == env(old(commands)).status && commands == old(commands) + 1
    {
      s := env(commands).status;
      commands := commands + 1;
    }

    /** A command about all three units; it reaches `goal` if it works. */
    method Udev(goal: seq<Unit>) returns (s: Status)
      modifies this`commands, this`units, this`udevTouched
      ensures s == env(old(commands)).status && commands == old(commands) + 1 && udevTouched
      ensures units == if s.Worked? then goal else env(old(commands)).residue
    {
      s := env(commands).status;
      units := if s.Worked? then goal else env(commands).residue;
      commands := commands + 1;
      udevTouched := true;
    }

    method Mask() returns (s: Status)
      requires Guarded(f) && |units| == UNITS
      modifies this`commands, this`units, this`udevTouched
      ensures udevTouched && (s.Worked? ==> |units| == UNITS && forall k :: 0 <= k < UNITS ==> units[k].masked)
      ensures AllWork() ==> s.Worked?
      ensures Arrived(s)
    {
      s := Udev(seq(UNITS, k requires 0 <= k < UNITS && |units| == UNITS reads this => units[k].(masked := true)));
    }

    method Stop() returns (s: Status)
      requires |units| == UNITS && forall k :: 0 <= k < UNITS ==> units[k].masked
      modifies this`commands, this`units, this`udevTouched
      ensures udevTouched && (s.Worked? ==> UdevQuiet())
      ensures AllWork() ==> s.Worked?
      ensures Arrived(s)
    {
      s := Udev(seq(UNITS, k requires 0 <= k < UNITS && |units| == UNITS reads this => units[k].(running := false)));
    }

    // The three disturbing commands may only be issued with every guard passed and udev quiet.

    method Unbind(k: nat) returns (s: Status)
      requires Guarded(f) && UdevQuiet() && k < |f.cards|
      modifies this`commands, this`disturbed, this`unbound
      ensures disturbed && unbound == old(unbound) + {k} && (AllWork() ==> s.Worked?) && Arrived(s)
    {
      disturbed := true;
      unbound := unbound + {k};
      s := Command();
    }

    method UnloadModules() returns (s: Status)
      requires Guarded(f) && UdevQuiet() && Bound() <= unbound
      modifies this`commands, this`disturbed, this`unloaded
      ensures disturbed && unloaded && (AllWork() ==> s.Worked?) && Arrived(s)
    {
      disturbed, unloaded := true, true;
      s := Command();
    }

    method Reset(k: nat) returns (s: Status)
      requires Guarded(f) && UdevQuiet() && unloaded && !f.moduleStillLoaded && k < |f.cards|
      modifies this`commands, this`disturbed, this`resets
      ensures disturbed && resets == old(resets) + [k] && (AllWork() ==> s.Worked?) && Arrived(s)
    {
      disturbed := true;
      resets := resets + [k];
      s := Command();
    }

    // ----- the steps of the script; a result other than Worked ends it -----

    /** The guards on the caller, the kernel, the tools, the lock and the cards. */
    method CheckCards() returns (s: Status)
      ensures s in {Worked, Failed}
      ensures s.Worked? <==> f.isRoot && f.kernelKnown && f.toolsPresent && f.lockFree && CardsAccepted(f)
    {
      if !f.isRoot || !f.kernelKnown || !f.toolsPresent || !f.lockFree { return Failed; }
      if |f.cards| == 0 { return Failed; }
      for k := 0 to |f.cards|
        invariant forall j :: 0 <= j < k ==> f.cards[j].flrWritable && SupportedSubsystem(f.cards[j].subsystem)
      {
        if !f.cards[k].flrWritable || !SupportedSubsystem(f.cards[k].subsystem) { return Failed; }
      }
      s := Worked;
    }

    /** Loads the driver and waits until it lists every card, at most sixty times, then asks
        once more. */
    method Load() returns (s: Status)
      modifies this`commands, this`asked
      ensures asked >= old(asked)
      ensures s.Worked? ==> Listed(f, old(asked), asked)
      ensures AllWork() ==> Waited(f, old(asked), asked) && (s.Worked? <==> f.count(asked - 1) == |f.cards|)
      ensures s.Killed? ==> Arrived(s)
      // loading takes two commands, and one more for every question in vain but the last
      ensures s.Worked? ==>
        && commands == old(commands) + asked - old(asked) + (if f.count(asked - 2) == |f.cards| then 0 else 1)
        && forall n :: old(commands) <= n < commands ==> env(n).status.Worked?
    {
      s := Command();
      if !s.Worked? { return; }
      s := Command();
      if !s.Worked? { return; }
      ghost var start := asked;
      for k := 0 to 60
        invariant asked == start + k && commands == old(commands) + 2 + k
        invariant forall n :: start <= n < asked ==> f.count(n) != |f.cards|
        invariant forall n :: old(commands) <= n < commands ==> env(n).status.Worked?
      {
        var n := f.count(asked);
        asked := asked + 1;
        if n == |f.cards| { break; }
        s := Command();
        if !s.Worked? { return; }
      }
      var n := f.count(asked);
      asked := asked + 1;
      s := if n == |f.cards| then Worked else Failed;
    }

    /** The early end of the script if the first pass reached Gen2 on every card. */
    method FirstPassEnough() returns (s: Status)
      ensures s in {Worked, Failed}
      ensures s.Worked? <==>
        |f.barTotals| == |f.cards| && forall k :: 0 <= k < |f.barTotals| ==> f.barTotals[k] >= 16000
    {
      if |f.barTotals| != |f.cards| { return Failed; }
      for k := 0 to |f.barTotals|
        invariant forall j :: 0 <= j < k ==> f.barTotals[j] >= 16000
      {
        if f.barTotals[k] < 16000 { return Failed; }
      }
      s := Worked;
    }

    /** The guards against disturbing anything else. */
    method CheckMachine() returns (s: Status)
      ensures s in {Worked, Failed}
      ensures s.Worked? <==> NoForeignGpu(f) && !f.nodesInUse && NoneMasked(f)
    {
      for k := 0 to |f.driverIds|
        invariant forall j :: 0 <= j < k ==> f.driverIds[j] == ("0x10de", "0x1e09")
      {
        if f.driverIds[k] != ("0x10de", "0x1e09") { return Failed; }
      }
      if f.nodesInUse { return Failed; }
      for k := 0 to |f.unitStates|
        invariant forall j :: 0 <= j < k ==> NotMasked(f.unitStates[j])
      {
        if !NotMasked(f.unitStates[k]) { return Failed; }
      }
      s := Worked;
    }

    /** Unbinds every card that has a driver. */
    method UnbindCards() returns (s: Status)
      requires Guarded(f) && UdevQuiet()
      modifies this`commands, this`disturbed, this`unbound
      ensures s.Worked? ==> unbound == old(unbound) + Bound()
      ensures AllWork() ==> s.Worked?
      ensures s.Killed? ==> Arrived(s)
    {
      hide Guarded, AllWork, Arrived;
      s := Worked;
      for k := 0 to |f.cards|
        invariant UdevQuiet() && s.Worked?
        invariant unbound == old(unbound) + set j: nat | j < k && f.cards[j].hasDriver
      {
        if f.cards[k].hasDriver {
          s := Unbind(k);
          if !s.Worked? { return; }
        }
      }
    }

    /** Resets the cards in order. */
    method ResetInOrder() returns (s: Status)
      requires Guarded(f) && UdevQuiet() && unloaded && !f.moduleStillLoaded && disturbed
      modifies this`commands, this`disturbed, this`resets
      ensures s.Worked? ==> disturbed && resets == old(resets) + seq(|f.cards|, k => k)
      ensures AllWork() ==> s.Worked?
      ensures s.Killed? ==> Arrived(s)
      ensures old(resets) <= resets <= old(resets) + seq(|f.cards|, k => k)
    {
      hide Guarded, AllWork, Arrived;
      ghost var all := old(resets) + seq(|f.cards|, j => j);
      assert all[..|old(resets)|] == old(resets);
      s := Worked;
      for k := 0 to |f.cards|
        invariant UdevQuiet() && s.Worked? && disturbed
        invariant resets == old(resets) + seq(k, j => j)
      {
        s := Reset(k);
        assert resets == all[..|old(resets)| + k + 1] == old(resets) + seq(k + 1, j => j);
        if !s.Worked? { return; }
      }
    }

    /** Unbinds, unloads and resets; only the unloading may fail without ending the script,
        and then only if the module is gone all the same. */
    method ResetCards() returns (s: Status)
      requires Guarded(f) && UdevQuiet()
      modifies this`commands, this`disturbed, this`unbound, this`unloaded, this`resets
      ensures s.Worked? ==> resets == old(resets) + seq(|f.cards|, k => k)
      ensures s.Worked? ==> unbound == old(unbound) + Bound() && unloaded
      ensures s.Killed? ==> Arrived(s)
      ensures s.Worked? ==> disturbed && !f.moduleStillLoaded
      ensures AllWork() && !f.moduleStillLoaded ==> s.Worked?
      ensures old(resets) <= resets <= old(resets) + seq(|f.cards|, k => k)
    {
      hide Guarded, AllWork, Arrived;
      s := UnbindCards();
      if !s.Worked? { return; }
      s := UnloadModules();
      if s.Killed? { return; }
      if f.moduleStillLoaded { return Failed; }
      s := ResetInOrder();
    }

    /** The final check of links and sizes. */
    method CheckResult() returns (s: Status)
      requires |f.fastAfter| == |f.barEncodings| == |f.cards|
      ensures s in {Worked, Failed}
      ensures s.Worked? <==> SecondPassDone(f)
    {
      for k := 0 to |f.cards|
        invariant forall j :: 0 <= j < k ==> f.fastAfter[j] && f.barEncodings[j] == 14
      {
        if !f.fastAfter[k] || f.barEncodings[k] != 14 { return Failed; }
      }
      s := Worked;
    }

    /** The second pass itself, behind all guards. */
    method PassAgain() returns (s: Status)
      requires Guarded(f) && |units| == UNITS && !disturbed
      requires |f.fastAfter| == |f.barEncodings| == |f.cards|
      modifies this
      ensures udevStopped && udevTouched
      ensures s.Worked? ==>
        && disturbed && resets == old(resets) + seq(|f.cards|, k => k)
        && unbound == old(unbound) + Bound() && unloaded
        && SecondPassDone(f)
      ensures s.Killed? ==> Arrived(s)
      ensures AllWork() ==>
        (s.Worked? <==> !f.moduleStillLoaded && SecondPassDone(f) && exists b :: Listed(f, old(asked), b))
    {
      hide Listed, Waited, SecondPassDone, Guarded, AllWork, Arrived;
      ghost var first := asked;
      udevStopped := true;
      s := Mask();
      if !s.Worked? { return; }
      s := Stop();
      if !s.Worked? { return; }
      s := ResetCards();
      if !s.Worked? { return; }
      s := Load();
      if AllWork() { WaitDecides(f, first, asked); }
      if !s.Worked? { return; }
      assert Listed(f, first, asked);
      s := CheckResult();
    }

    /** The body of the script, up to wherever it ends. */
    method Body() returns (s: Status)
      requires !udevStopped && !udevTouched && !disturbed && |units| == UNITS
      requires |f.fast| == |f.fastAfter| == |f.barEncodings| == |f.cards|
      modifies this
      ensures udevTouched ==> udevStopped
      ensures udevStopped ==> Guarded(f)
      ensures disturbed ==> Guarded(f) && udevStopped
      ensures !udevTouched ==> units == old(units) && !udevStopped
      ensures s.Worked? && udevStopped ==> udevTouched && disturbed && resets == old(resets) + seq(|f.cards|, k => k)
      ensures s.Worked? ==> CardsAccepted(f) && if udevStopped then SecondPassDone(f) else FirstPassDone(f)
      ensures s.Worked? && udevStopped ==> unbound == old(unbound) + Bound() && unloaded
      ensures s.Worked? ==> (udevStopped <==> !AllTrue(f.fast))
      ensures s.Killed? ==> Arrived(s)
      ensures AllWork() ==> (s.Worked? <==> Achievable(f, old(asked)))
    {
      hide Listed, Waited, AllTrue, SecondPassDone, NoneMasked, NoForeignGpu, CardsAccepted;
      hide Guarded, AllWork, Arrived;
      ghost var first := asked;
      s := CheckCards();
      if !s.Worked? { return; }
      s := Load();
      ghost var middle := asked;
      if AllWork() { WaitDecides(f, first, middle); }
      if !s.Worked? { return; }
      if AllTrue(f.fast) {
        s := FirstPassEnough();
        return;
      }
      s := CheckMachine();
      if !s.Worked? { return; }
      GuardsPassed(f);
      assert AllWork() ==> Listed(f, first, middle);
      s := PassAgain();
    }

    /** The handler run on every exit; its commands' own errors are ignored. */
    method RestoreUdev()
      modifies this`commands, this`units, this`udevTouched
      ensures !udevStopped ==> units == old(units) && udevTouched == old(udevTouched)
      ensures udevStopped ==> commands == old(commands) + 3 && udevTouched
      ensures udevStopped && env(old(commands)).status.Worked? && env(old(commands) + 2).status.Worked? ==>
        UdevRestored()
    {
      if udevStopped {
        var kept := units;
        var _ := Udev(seq(UNITS, k requires 0 <= k < UNITS => Unit(false, k < |kept| && kept[k].running)));
        var _ := Command();
        kept := units;
        var _ := Udev(seq(UNITS, k requires 0 <= k < UNITS => Unit(k < |kept| && kept[k].masked, true)));
      }
    }

    /** The script from start to exit: the body, ended by its last command, by a failing
        command or by a signal, then the exit handler. */
    method Run() returns (code: int)
      requires !udevStopped && !udevTouched && !disturbed && |units| == UNITS
      requires |f.fast| == |f.fastAfter| == |f.barEncodings| == |f.cards|
      modifies this
      // udev was touched, and cards were disturbed, only after every guard had passed;
      // otherwise udev is as before
      ensures udevTouched ==> Guarded(f)
      ensures udevTouched ==>
        && f.isRoot && f.kernelKnown && f.toolsPresent && f.lockFree && f.cards != [] && !f.nodesInUse
        && (forall c :: c in f.cards ==> c.flrWritable && c.subsystem in {("10de", "1554"), ("1462", "371f")})
        && (forall id :: id in f.driverIds ==> id == ("0x10de", "0x1e09"))
        && (forall state :: state in f.unitStates ==> state !in {"masked", "masked-runtime"})
      ensures disturbed ==> udevTouched
      ensures !udevTouched ==> units == old(units)
      // once touched, udev is back whenever the restoring commands work
      ensures udevTouched ==> commands >= 3
      ensures udevTouched && env(commands - 3).status.Worked? && env(commands - 1).status.Worked? ==> UdevRestored()
      // success means that every link is fast, and every BAR1 has at least 16000 MiB after the
      // first pass, or 16 GiB after the second, in which every card was reset
      ensures code in {0, 1, 130, 143}
      ensures code == 130 ==> Arrived(Killed(Int))
      ensures code == 143 ==> Arrived(Killed(Term))
      ensures code == 0 ==> CardsAccepted(f) && (udevTouched <==> !AllTrue(f.fast))
      ensures code == 0 && !udevTouched ==>
        |f.barTotals| == |f.cards| && forall k :: 0 <= k < |f.cards| ==> f.fast[k] && f.barTotals[k] >= 16000
      ensures code == 0 && udevTouched ==>
        && resets == old(resets) + seq(|f.cards|, k => k)
        && unbound == old(unbound) + Bound() && unloaded
        && forall k :: 0 <= k < |f.cards| ==> f.fastAfter[k] && MiB(f.barEncodings[k]) == 16 * 1024
      // when commands work, it succeeds exactly if nothing stands in the way
      ensures AllWork() ==> (code == 0 <==> Achievable(f, old(asked)))
    {
      hide Guarded, CardsAccepted, NoneMasked, Listed, Waited, MiB;
      SixteenGiB();
      if Guarded(f) { GuardsMean(f); }
      var s := Body();
      RestoreUdev();
      code := match s case Worked => 0 case Failed => 1 case Killed(signal) => if signal.Int? then 130 else 143;
    }
  }
}
